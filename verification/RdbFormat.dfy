/** The snapshot format, byte by byte, said without the writer and the reader: version 11 of
    the RDB format as far as the program uses it. */
module RdbFormat {
  import opened Bytes
  import opened Decimal
  import opened Values
  import opened Semantics
  import opened Rewrite
  import opened Rdb
  import opened RdbFile

  // ---------------------------------------------------------------------------- integers

  /** Eight bytes, the most significant first. */
  function BigEight(s: bytes): nat
    requires |s| == 8
  {
    s[7] as int + 0x100 * (s[6] as int) + 0x1_0000 * (s[5] as int) + 0x100_0000 * (s[4] as int)
      + 0x1_0000_0000 * (s[3] as int) + 0x100_0000_0000 * (s[2] as int)
      + 0x1_0000_0000_0000 * (s[1] as int) + 0x100_0000_0000_0000 * (s[0] as int)
  }

  /** Eight bytes, the least significant first. */
  function LittleEight(s: bytes): nat
    requires |s| == 8
  {
    s[0] as int + 0x100 * (s[1] as int) + 0x1_0000 * (s[2] as int) + 0x100_0000 * (s[3] as int)
      + 0x1_0000_0000 * (s[4] as int) + 0x100_0000_0000 * (s[5] as int)
      + 0x1_0000_0000_0000 * (s[6] as int) + 0x100_0000_0000_0000 * (s[7] as int)
  }

  lemma BigEnd(s: bytes, k: nat)
    requires k < |s|
    ensures BigValue(s[..k + 1]) == BigValue(s[..k]) * 256 + s[k] as int
  {
    assert s[..k + 1][..k] == s[..k];
  }

  lemma BigEightIs(s: bytes)
    requires |s| == 8
    ensures BigValue(s) == BigEight(s)
  {
    assert s[..8] == s && BigValue(s[..0]) == 0;
    BigEnd(s, 0);
    BigEnd(s, 1);
    BigEnd(s, 2);
    BigEnd(s, 3);
    BigEnd(s, 4);
    BigEnd(s, 5);
    BigEnd(s, 6);
    BigEnd(s, 7);
    hide BigValue;
  }

  lemma LittleEnd(s: bytes, k: nat)
    requires k < |s|
    ensures LittleValue(s[k..]) == s[k] as int + LittleValue(s[k + 1..]) * 256
  {
    assert s[k..][1..] == s[k + 1..];
  }

  lemma LittleFour(s: bytes, k: nat)
    requires k + 4 <= |s|
    ensures LittleValue(s[k..]) == s[k] as int + 0x100 * (s[k + 1] as int) + 0x1_0000 * (s[k + 2] as int)
      + 0x100_0000 * (s[k + 3] as int) + 0x1_0000_0000 * LittleValue(s[k + 4..])
  {
    LittleEnd(s, k);
    LittleEnd(s, k + 1);
    LittleEnd(s, k + 2);
    LittleEnd(s, k + 3);
    hide LittleValue;
  }

  lemma LittleEightIs(s: bytes)
    requires |s| == 8
    ensures LittleValue(s) == LittleEight(s)
  {
    assert s[0..] == s && s[8..] == [] && LittleValue([]) == 0;
    LittleFour(s, 0);
    LittleFour(s, 4);
    hide LittleValue;
  }

  /** A length takes one byte below 64, two that start with the bits 01 below 16384, and otherwise
      the byte 0x80 and eight more. */
  lemma LengthForms(n: u64)
    ensures n < 64 ==> LengthBytes(n) == [n as char]
    ensures 64 <= n < 16384 ==>
      var s := LengthBytes(n);
      |s| == 2 && 64 <= s[0] as int < 128 && s[1] as int < 256 && (s[0] as int - 64) * 256 + s[1] as int == n
    ensures n >= 16384 ==>
      var s := LengthBytes(n);
      |s| == 9 && s[0] as int == 0x80 && BigEight(s[1..]) == n
  {
    if n >= 16384 {
      EightBytes();
      BigEndianRoundTrip(n, 8);
      assert LengthBytes(n)[1..] == BigEndian(n, 8);
      BigEightIs(BigEndian(n, 8));
      hide BigEndian, BigValue, Power;
    }
  }

  // ------------------------------------------------------------------------------- values

  lemma ShortText(s: bytes)
    requires |s| < 64
    ensures TextBytes(s) == [|s| as char] + s
  {
  }

  lemma {:induction false} TextsInARow(p: seq<bytes>, q: seq<bytes>)
    ensures TextsBytes(p + q) == TextsBytes(p) + TextsBytes(q)
    decreases |p|
  {
    hide TextBytes;
    if p == [] {
      assert p + q == q;
    } else {
      TextsInARow(p[1..], q);
      assert (p + q)[1..] == p[1..] + q && (p + q)[0] == p[0];
    }
  }

  /** One element of each kind: the count, then the text, or the field and the value, or the
      score and the member. */
  lemma OneElement(a: bytes, b: bytes, score: int)
    ensures ValueBytes(Str(a), []) == TextBytes(a)
    ensures ValueBytes(List([a]), []) == [1 as char] + TextBytes(a)
    ensures ValueBytes(StoredValue.Set({a}), [a]) == [1 as char] + TextBytes(a)
    ensures ValueBytes(Hash(map[a := b]), [a]) == [1 as char] + TextBytes(a) + TextBytes(b)
    ensures ValueBytes(Ranked(map[a := score]), [a]) == [1 as char] + TextBytes(IntText(score)) + TextBytes(a)
  {
    hide TextBytes, IntText, TreeOf;
    OneText(a);
    TwoElements(a, b);
    TwoElements(IntText(score), a);
    assert PairsAlong([a], map[a := b]) == [a, b];
    assert ScoresAlong([a], map[a := score]) == [IntText(score), a];
    assert LengthBytes(1) == [1 as char];
    hide TextsBytes, LengthBytes;
  }

  lemma OneText(a: bytes)
    ensures TextsBytes([a]) == TextBytes(a)
  {
    assert TextsBytes([]) == [];
    hide TextBytes;
  }

  lemma TwoElements(a: bytes, b: bytes)
    ensures TextsBytes([a, b]) == TextBytes(a) + TextBytes(b)
  {
    OneText(a);
    OneText(b);
    TextsInARow([a], [b]);
    assert [a] + [b] == [a, b];
    hide TextsBytes, TextBytes;
  }

  // ------------------------------------------------------------------------------ records

  lemma TypeCodes(x: StoredValue)
    ensures TypeByte(x) as int ==
      if x.Str? then 0 else if x.List? then 1 else if x.Set? then 2 else if x.SortedSet? then 3 else 4
  {
  }

  /** A record: the time it is due after the byte 0xFC, if any, the type, the key, the value. */
  lemma RecordForm(w: Written)
    requires w.record.due.Some? ==> w.record.due.value < TWO_TO_64
    ensures var pair := [TypeByte(w.record.value)] + TextBytes(w.record.key) + ValueBytes(w.record.value, w.order);
      && (w.record.due.None? ==> RecordBytes(w) == pair)
      && (w.record.due.Some? ==> exists t :: |t| == 8 && LittleEight(t) == w.record.due.value
                                          && RecordBytes(w) == [0xFC as char] + t + pair)
  {
    hide TextBytes, ValueBytes, TypeByte, LittleEndian, LittleValue, Power;
    if w.record.due.Some? {
      var t := LittleEndian(w.record.due.value, 8);
      EightBytes();
      LittleEndianRoundTrip(w.record.due.value, 8);
      LittleEightIs(t);
      hide LittleEight;
      var pair := [TypeByte(w.record.value)] + TextBytes(w.record.key) + ValueBytes(w.record.value, w.order);
      assert |t| == 8 && LittleEight(t) == w.record.due.value;
      assert RecordBytes(w) == [0xFC as char] + t + pair;
    }
  }

  /** A key with a short text, to the byte. */
  lemma Example()
    ensures RecordBytes(Written(Record("k", Str("hello"), None), [])) ==
      [0 as char] + [1 as char] + "k" + [5 as char] + "hello"
  {
    ShortText("k");
    ShortText("hello");
    hide TextBytes;
  }

  /** The file opens with its name and version and closes with 0xFF and eight zero bytes. */
  lemma FileForm(wall: nat, keys: nat, timed: nat, ws: seq<Written>)
    ensures var f := FileBytes(wall, keys, timed, ws);
      |f| >= 18 && f[..9] == "REDIS0011" && f[|f| - 9..] == [0xFF as char] + seq(8, _ => 0 as char)
  {
    ZeroBytes();
    var head := MAGIC + VERSION;
    var middle := HeaderBytes(wall) + (SizesBytes(keys, timed) + RecordsBytes(ws));
    assert head == "REDIS0011";
    hide HeaderBytes, SizesBytes, RecordsBytes, LittleEndian;
    assert FileBytes(wall, keys, timed, ws) == head + middle + TRAILER;
    hide FileBytes;
    BothEnds(head, middle, TRAILER);
  }

  lemma BothEnds(head: bytes, middle: bytes, end: bytes)
    ensures var f := head + middle + end; f[..|head|] == head && f[|f| - |end|..] == end
  {
  }

  lemma ZeroBytes()
    ensures LittleEndian(0, 8) == seq(8, _ => 0 as char)
  {
    assert LittleEndian(0, 4) == seq(4, _ => 0 as char);
    assert LittleEndian(0, 8) ==
      [0 as char] + ([0 as char] + ([0 as char] + ([0 as char] + LittleEndian(0, 4))));
  }

  // ------------------------------------------------------------------------------ reading

  /** The older expiry record, which only the reader knows: four bytes of seconds, the least
      significant first. */
  lemma SecondsTurn(buf: bytes, pos: nat, t: bytes, w: Written)
    requires Fits(buf) && Sound(w.record.value) && OrderFor(w.record.value, w.order) && |t| == 4
    requires At(buf, pos, [0xFD as char] + (t + ([TypeByte(w.record.value)]
               + (TextBytes(w.record.key) + ValueBytes(w.record.value, w.order)))))
    ensures var s := t[0] as int + 0x100 * (t[1] as int) + 0x1_0000 * (t[2] as int) + 0x100_0000 * (t[3] as int);
      && pos < |buf|
      && ReadTurn(buf, pos) ==
         Got(Keep(Record(w.record.key, w.record.value, Some(1000 * s))),
             pos + 6 + |TextBytes(w.record.key) + ValueBytes(w.record.value, w.order)|)
  {
    hide ReadPair, ReadTurn, TextBytes, ValueBytes, LittleValue, Sound, OrderFor, TypeByte;
    var kind, rest := TypeByte(w.record.value), TextBytes(w.record.key) + ValueBytes(w.record.value, w.order);
    FirstByte(buf, pos, 0xFD as char, t + ([kind] + rest));
    AtParts(buf, pos + 1, t, [kind] + rest);
    FirstByte(buf, pos + 5, kind, rest);
    hide At;
    var due := LittleValue(t) * 1000;
    FourIs(t);
    PairTurn(buf, pos + 6, Written(Record(w.record.key, w.record.value, Some(due)), w.order));
    SecondsRead(buf, pos, t);
  }

  lemma FourIs(t: bytes)
    requires |t| == 4
    ensures LittleValue(t) == t[0] as int + 0x100 * (t[1] as int) + 0x1_0000 * (t[2] as int) + 0x100_0000 * (t[3] as int)
  {
    LittleFour(t, 0);
    assert t[0..] == t && t[4..] == [] && LittleValue([]) == 0;
    hide LittleValue;
  }

  lemma SecondsRead(buf: bytes, pos: nat, t: bytes)
    requires |t| == 4 && pos + 5 < |buf| && buf[pos] as int == 0xFD && buf[pos + 1..pos + 5] == t
    ensures ReadTurn(buf, pos) == ReadPair(buf, pos + 6, buf[pos + 5], Some(LittleValue(t) * 1000))
  {
    hide LittleValue, ReadPair, ReadLength, ReadText;
  }

  /** The end marker ends the scan, an unknown type byte is an error, and so is a stamp cut short. */
  lemma OtherTurns(buf: bytes, pos: nat)
    requires pos < |buf|
    ensures buf[pos] as int == 0xFF ==> ReadTurn(buf, pos) == Got(Stop, pos + 1)
    ensures buf[pos] as int == 0xFC && pos + 9 > |buf| ==> ReadTurn(buf, pos) == Malformed("Truncated expire time")
    ensures buf[pos] as int == 0xFD && pos + 5 > |buf| ==> ReadTurn(buf, pos) == Malformed("Truncated expire time")
    ensures 5 <= buf[pos] as int < 0xFA && ReadText(buf, pos + 1).Got? ==>
      ReadTurn(buf, pos) == Malformed("Unknown value type: " + IntText(buf[pos] as int))
  {
    hide LittleValue, ReadLength, ReadText, IntText, ReadTexts, ReadFields, ReadScores;
  }
}
