/** The snapshot format: its length code, its strings and its values, written and read back.
    A reader takes a buffer and a position. */
module Rdb {
  import opened Bytes
  import opened Decimal
  import opened Values
  import opened Enumerations
  import opened Semantics
  import opened Rewrite

  /** A reader's outcome: a value and the position after it, an `InvalidFormat` error, or a
      panic. */
  datatype Read<+T> = Got(value: T, next: nat) | Malformed(text: bytes) | Crash
  {
    predicate IsFailure() { !Got? }

    function PropagateFailure<U>(): Read<U>
      requires !Got?
    {
      if Crash? then Crash else Malformed(text)
    }

    function Extract(): (T, nat)
      requires Got?
    {
      (value, next)
    }
  }

  /** `part` lies in `buf` at `pos`. */
  predicate At(buf: bytes, pos: nat, part: bytes) { pos + |part| <= |buf| && buf[pos..pos + |part|] == part }

  lemma AtParts(buf: bytes, pos: nat, a: bytes, b: bytes)
    ensures At(buf, pos, a + b) <==> At(buf, pos, a) && At(buf, pos + |a|, b)
  {
    if At(buf, pos, a + b) {
      assert buf[pos..pos + |a|] == buf[pos..pos + |a + b|][..|a|] == a;
      assert buf[pos + |a|..pos + |a + b|] == buf[pos..pos + |a + b|][|a|..] == b;
    }
  }

  // ------------------------------------------------------------------- fixed-width integers

  function Octet(n: nat): (c: byte)
    requires n < 256
    ensures c as int == n
  {
    n as char
  }

  /** `to_be_bytes` and `to_le_bytes` of an integer of k bytes. */
  function BigEndian(n: nat, k: nat): (s: bytes)
    ensures |s| == k
  {
    if k == 0 then [] else BigEndian(n / 256, k - 1) + [Octet(n % 256)]
  }

  function LittleEndian(n: nat, k: nat): (s: bytes)
    ensures |s| == k
  {
    if k == 0 then [] else [Octet(n % 256)] + LittleEndian(n / 256, k - 1)
  }

  /** `from_be_bytes` and `from_le_bytes`. */
  function BigValue(s: bytes): nat
  {
    if s == [] then 0 else BigValue(s[..|s| - 1]) * 256 + s[|s| - 1] as int
  }

  function LittleValue(s: bytes): nat
  {
    if s == [] then 0 else s[0] as int + LittleValue(s[1..]) * 256
  }

  function Power(k: nat): nat { if k == 0 then 1 else 256 * Power(k - 1) }

  lemma EightBytes()
    ensures Power(8) == TWO_TO_64
  {
    assert Power(4) == 0x1_0000_0000;
    assert Power(8) == 256 * (256 * (256 * (256 * Power(4))));
  }

  lemma {:induction false} BigEndianRoundTrip(n: nat, k: nat)
    requires n < Power(k)
    ensures BigValue(BigEndian(n, k)) == n
  {
    if k > 0 {
      BigEndianRoundTrip(n / 256, k - 1);
      assert BigEndian(n, k)[..k - 1] == BigEndian(n / 256, k - 1);
    }
  }

  lemma {:induction false} LittleEndianRoundTrip(n: nat, k: nat)
    requires n < Power(k)
    ensures LittleValue(LittleEndian(n, k)) == n
  {
    if k > 0 {
      LittleEndianRoundTrip(n / 256, k - 1);
      assert LittleEndian(n, k)[1..] == LittleEndian(n / 256, k - 1);
    }
  }

  // ------------------------------------------------------------------------- the length code

  /** `write_length`: 00xxxxxx, or 01xxxxxx xxxxxxxx, or 0x80 and eight bytes. */
  function LengthBytes(n: u64): (s: bytes)
    ensures |s| == if n < 64 then 1 else if n < 16384 then 2 else 9
  {
    if n < 64 then [Octet(n)]
    else if n < 16384 then [Octet(64 + n / 256), Octet(n % 256)]
    else [Octet(0x80)] + BigEndian(n, 8)
  }

  /** `read_length`. */
  function ReadLength(buf: bytes, pos: nat): (r: Read<nat>)
    ensures r.Got? ==> pos < r.next <= |buf|
  {
    if pos >= |buf| then Malformed("Unexpected end of file")
    else
      var first := buf[pos] as int;
      if first / 64 == 0 then Got(first % 64, pos + 1)
      else if first / 64 == 1 then
        if pos + 1 >= |buf| then Malformed("Truncated length")
        else Got(first % 64 * 256 + buf[pos + 1] as int, pos + 2)
      else if first / 64 == 2 then
        if pos + 8 >= |buf| then Malformed("Truncated length")
        else Got(BigValue(buf[pos + 1..pos + 9]), pos + 9)
      else Malformed("Invalid length encoding")
  }

  /** Reading inverts writing, whatever comes before and after, and takes exactly the bytes
      written. */
  lemma LengthRoundTrip(buf: bytes, pos: nat, n: u64)
    requires At(buf, pos, LengthBytes(n))
    ensures ReadLength(buf, pos) == Got(n, pos + |LengthBytes(n)|)
  {
    var code := LengthBytes(n);
    assert buf[pos] == code[0] == buf[pos..pos + |code|][0];
    if 64 <= n < 16384 {
      assert buf[pos + 1] == buf[pos..pos + 2][1];
    } else if 16384 <= n {
      EightBytes();
      BigEndianRoundTrip(n, 8);
      assert buf[pos + 1..pos + 9] == buf[pos..pos + 9][1..] == code[1..] == BigEndian(n, 8);
    }
  }

  /** No length's code begins another's. */
  lemma LengthsPrefixFree(n: u64, m: u64)
    requires LengthBytes(n) <= LengthBytes(m)
    ensures n == m
  {
    var buf := LengthBytes(m);
    assert At(buf, 0, LengthBytes(n)) && At(buf, 0, buf);
    LengthRoundTrip(buf, 0, n);
    LengthRoundTrip(buf, 0, m);
  }

  // ---------------------------------------------------------------------------- strings

  /** `write_string` and `write_bytes`. */
  function TextBytes(s: bytes): (r: bytes)
    ensures |r| > 0
  {
    LengthBytes(AsU64(|s|)) + s
  }

  /** `read_string_bytes`. The addition is one of 64 bits: its overflow panics, or wraps to an
      end before the start, and then the slice panics. */
  function ReadText(buf: bytes, pos: nat): (r: Read<bytes>)
    ensures r.Got? ==> pos < r.next <= |buf|
  {
    var (len, start) :- ReadLength(buf, pos);
    if start + len >= TWO_TO_64 then Crash
    else if start + len > |buf| then Malformed("Truncated string")
    else Got(buf[start..start + len], start + len)
  }

  /** A buffer that can be held in memory. */
  lemma TextRoundTrip(buf: bytes, pos: nat, s: bytes)
    requires Fits(buf) && At(buf, pos, TextBytes(s))
    ensures ReadText(buf, pos) == Got(s, pos + |TextBytes(s)|)
  {
    AtParts(buf, pos, LengthBytes(AsU64(|s|)), s);
    LengthRoundTrip(buf, pos, AsU64(|s|));
    hide LengthBytes, ReadLength;
  }

  // ------------------------------------------------------- a counted series of elements

  /** The texts one after another. */
  function TextsBytes(texts: seq<bytes>): bytes
  {
    if texts == [] then [] else TextBytes(texts[0]) + TextsBytes(texts[1..])
  }

  /** What the three loops of `read_value` that collect elements have in common. */
  function ReadEach<T>(buf: bytes, pos: nat, count: nat, one: (bytes, nat) -> Read<T>): (r: Read<seq<T>>)
    ensures r.Got? ==> |r.value| == count
    decreases count
  {
    if count == 0 then Got([], pos)
    else
      var (x, next) :- one(buf, pos);
      var (xs, end) :- ReadEach(buf, next, count - 1, one);
      Got([x] + xs, end)
  }

  /** The loop with some elements read. */
  function Continue<T>(done: seq<T>, rest: Read<seq<T>>): Read<seq<T>>
  {
    if rest.Got? then Got(done + rest.value, rest.next) else rest
  }

  lemma ReadEachStep<T>(buf: bytes, pos: nat, count: nat, one: (bytes, nat) -> Read<T>, done: seq<T>)
    requires count > 0
    ensures var turn := one(buf, pos);
      Continue(done, ReadEach(buf, pos, count, one)) ==
        if turn.Got? then Continue(done + [turn.value], ReadEach(buf, turn.next, count - 1, one))
        else turn.PropagateFailure()
  {
    var turn := one(buf, pos);
    if turn.Got? {
      var rest := ReadEach(buf, turn.next, count - 1, one);
      if rest.Got? { assert done + ([turn.value] + rest.value) == done + [turn.value] + rest.value; }
    }
  }

  lemma {:induction false} EachAdvances<T>(buf: bytes, pos: nat, count: nat, one: (bytes, nat) -> Read<T>)
    requires pos <= |buf| && forall p: nat :: one(buf, p).Got? ==> p < one(buf, p).next <= |buf|
    ensures var r := ReadEach(buf, pos, count, one); r.Got? ==> pos <= r.next <= |buf|
    decreases count
  {
    if count > 0 && one(buf, pos).Got? { EachAdvances(buf, one(buf, pos).next, count - 1, one); }
  }

  function ReadTexts(buf: bytes, pos: nat, count: nat): (r: Read<seq<bytes>>)
    requires pos <= |buf|
    ensures r.Got? ==> pos <= r.next <= |buf|
  {
    EachAdvances(buf, pos, count, ReadText);
    ReadEach(buf, pos, count, ReadText)
  }

  function ReadField(buf: bytes, pos: nat): (r: Read<(bytes, bytes)>)
    ensures r.Got? ==> pos < r.next <= |buf|
  {
    var (field, next) :- ReadText(buf, pos);
    var (value, end) :- ReadText(buf, next);
    Got((field, value), end)
  }

  function ReadFields(buf: bytes, pos: nat, count: nat): (r: Read<seq<(bytes, bytes)>>)
    requires pos <= |buf|
    ensures r.Got? ==> pos <= r.next <= |buf|
  {
    EachAdvances(buf, pos, count, ReadField);
    ReadEach(buf, pos, count, ReadField)
  }

  function ReadScored(buf: bytes, pos: nat): (r: Read<(int, bytes)>)
    ensures r.Got? ==> pos < r.next <= |buf|
  {
    var (text, next) :- ReadText(buf, pos);
    var score := ParseInt(text);
    if score.None? then Malformed("Invalid score")
    else
      var (member, end) :- ReadText(buf, next);
      Got((score.value, member), end)
  }

  function ReadScores(buf: bytes, pos: nat, count: nat): (r: Read<seq<(int, bytes)>>)
    requires pos <= |buf|
    ensures r.Got? ==> pos <= r.next <= |buf|
  {
    EachAdvances(buf, pos, count, ReadScored);
    ReadEach(buf, pos, count, ReadScored)
  }

  lemma EachNone<T>(buf: bytes, pos: nat, one: (bytes, nat) -> Read<T>)
    ensures ReadEach(buf, pos, 0, one) == Got([], pos)
  {
  }

  lemma EachNext<T>(buf: bytes, pos: nat, count: nat, one: (bytes, nat) -> Read<T>, next: nat, xs: seq<T>, end: nat)
    requires count == |xs| > 0 && one(buf, pos) == Got(xs[0], next)
    requires ReadEach(buf, next, count - 1, one) == Got(xs[1..], end)
    ensures ReadEach(buf, pos, count, one) == Got(xs, end)
  {
    assert [xs[0]] + xs[1..] == xs;
  }

  lemma {:induction false} TextsRoundTrip(buf: bytes, pos: nat, texts: seq<bytes>)
    requires Fits(buf) && At(buf, pos, TextsBytes(texts))
    ensures ReadTexts(buf, pos, |texts|) == Got(texts, pos + |TextsBytes(texts)|)
    decreases |texts|
  {
    hide TextBytes, ReadText, At, ReadEach;
    if texts == [] {
      EachNone(buf, pos, ReadText);
    } else {
      AtParts(buf, pos, TextBytes(texts[0]), TextsBytes(texts[1..]));
      TextRoundTrip(buf, pos, texts[0]);
      var next := pos + |TextBytes(texts[0])|;
      TextsRoundTrip(buf, next, texts[1..]);
      EachNext(buf, pos, |texts|, ReadText, next, texts, pos + |TextsBytes(texts)|);
    }
  }

  lemma TwoTexts(a: bytes, b: bytes, rest: seq<bytes>)
    ensures TextsBytes([a, b] + rest) == TextBytes(a) + (TextBytes(b) + TextsBytes(rest))
  {
    hide TextBytes;
    assert ([a, b] + rest)[1..] == [b] + rest && ([b] + rest)[1..] == rest;
  }

  /** Two texts at a position, and what follows them. */
  lemma TwoTextsRoundTrip(buf: bytes, pos: nat, a: bytes, b: bytes, rest: seq<bytes>)
    requires Fits(buf) && At(buf, pos, TextsBytes([a, b] + rest))
    ensures var next, end := pos + |TextBytes(a)|, pos + |TextBytes(a)| + |TextBytes(b)|;
      && ReadText(buf, pos) == Got(a, next) && ReadText(buf, next) == Got(b, end)
      && At(buf, end, TextsBytes(rest)) && end + |TextsBytes(rest)| == pos + |TextsBytes([a, b] + rest)|
  {
    hide TextBytes, ReadText, At, TextsBytes;
    TwoTexts(a, b, rest);
    AtParts(buf, pos, TextBytes(a), TextBytes(b) + TextsBytes(rest));
    AtParts(buf, pos + |TextBytes(a)|, TextBytes(b), TextsBytes(rest));
    TextRoundTrip(buf, pos, a);
    TextRoundTrip(buf, pos + |TextBytes(a)|, b);
  }

  lemma {:induction false} FieldsRoundTrip(buf: bytes, pos: nat, q: seq<bytes>, h: map<bytes, bytes>)
    requires Fits(buf) && (forall i :: 0 <= i < |q| ==> q[i] in h) && At(buf, pos, TextsBytes(PairsAlong(q, h)))
    ensures ReadFields(buf, pos, |q|) == Got(FieldPairs(q, h), pos + |TextsBytes(PairsAlong(q, h))|)
    decreases |q|
  {
    hide TextBytes, ReadText, At, ReadEach, TextsBytes;
    if q == [] {
      EachNone(buf, pos, ReadField);
      NoTexts();
    } else {
      var field, rest := q[0], PairsAlong(q[1..], h);
      assert PairsAlong(q, h) == [field, h[field]] + rest;
      TwoTextsRoundTrip(buf, pos, field, h[field], rest);
      var end := pos + |TextBytes(field)| + |TextBytes(h[field])|;
      FieldsRoundTrip(buf, end, q[1..], h);
      assert FieldPairs(q, h)[1..] == FieldPairs(q[1..], h);
      EachNext(buf, pos, |q|, ReadField, end, FieldPairs(q, h), end + |TextsBytes(rest)|);
    }
  }

  lemma NoTexts()
    ensures TextsBytes([]) == []
  {
  }

  lemma {:induction false} ScoresRoundTrip(buf: bytes, pos: nat, q: seq<bytes>, z: map<bytes, int>)
    requires Fits(buf) && (forall i :: 0 <= i < |q| ==> q[i] in z) && At(buf, pos, TextsBytes(ScoresAlong(q, z)))
    ensures ReadScores(buf, pos, |q|) == Got(MemberPairs(q, z), pos + |TextsBytes(ScoresAlong(q, z))|)
    decreases |q|
  {
    hide TextBytes, ReadText, At, ReadEach, TextsBytes, IntText, ParseInt;
    if q == [] {
      EachNone(buf, pos, ReadScored);
      NoTexts();
    } else {
      var member, score, rest := q[0], IntText(z[q[0]]), ScoresAlong(q[1..], z);
      assert ScoresAlong(q, z) == [score, member] + rest;
      TwoTextsRoundTrip(buf, pos, score, member, rest);
      IntTextRoundTrip(z[member]);
      var end := pos + |TextBytes(score)| + |TextBytes(member)|;
      ScoresRoundTrip(buf, end, q[1..], z);
      assert MemberPairs(q, z)[1..] == MemberPairs(q[1..], z);
      EachNext(buf, pos, |q|, ReadScored, end, MemberPairs(q, z), end + |TextsBytes(rest)|);
    }
  }

  // ------------------------------------------------------------------------------- values

  const TYPE_STRING: byte := Octet(0)
  const TYPE_LIST: byte := Octet(1)
  const TYPE_SET: byte := Octet(2)
  const TYPE_ZSET: byte := Octet(3)
  const TYPE_HASH: byte := Octet(4)

  function TypeByte(x: StoredValue): byte
  {
    match x
    case Str(_) => TYPE_STRING
    case List(_) => TYPE_LIST
    case Set(_) => TYPE_SET
    case Hash(_) => TYPE_HASH
    case SortedSet(_, _) => TYPE_ZSET
  }

  /** `write_value`, given the order in which the value's hash table iterates. */
  function ValueBytes(x: StoredValue, q: seq<bytes>): bytes
  {
    match x
    case Str(text) => TextBytes(text)
    case List(items) => LengthBytes(AsU64(|items|)) + TextsBytes(items)
    case Set(members) => LengthBytes(AsU64(|members|)) + TextsBytes(q)
    case Hash(fields) => LengthBytes(AsU64(|fields|)) + TextsBytes(PairsAlong(q, fields))
    case SortedSet(scores, _) => LengthBytes(AsU64(|scores|)) + TextsBytes(ScoresAlong(q, scores))
  }

  /** A member filed under a score: `entry(score).or_default().insert(member)`. */
  function File(tree: map<int, set<bytes>>, score: int, member: bytes): map<int, set<bytes>>
  {
    tree[score := (if score in tree then tree[score] else {}) + {member}]
  }

  /** The tree `read_value` builds: members are filed under every score they come with. */
  function Filed(pairs: seq<(int, bytes)>): map<int, set<bytes>>
  {
    if pairs == [] then map[]
    else
      var last := pairs[|pairs| - 1];
      File(Filed(pairs[..|pairs| - 1]), last.0, last.1)
  }

  function AsList(r: Read<seq<bytes>>): Read<StoredValue>
  {
    if r.Got? then Got(List(r.value), r.next) else r.PropagateFailure()
  }

  function AsSet(r: Read<seq<bytes>>): Read<StoredValue>
  {
    if r.Got? then Got(Set(SetOf(r.value)), r.next) else r.PropagateFailure()
  }

  function AsHash(r: Read<seq<(bytes, bytes)>>): Read<StoredValue>
  {
    if r.Got? then Got(Hash(LastWins(r.value)), r.next) else r.PropagateFailure()
  }

  function AsSortedSet(r: Read<seq<(int, bytes)>>): Read<StoredValue>
  {
    if r.Got? then Got(SortedSet(LastScores(r.value), Filed(r.value)), r.next) else r.PropagateFailure()
  }

  /** `read_value`. */
  function ReadValue(buf: bytes, pos: nat, kind: byte): (r: Read<StoredValue>)
    ensures r.Got? ==> pos < r.next <= |buf|
  {
    if kind == TYPE_STRING then
      var (text, next) :- ReadText(buf, pos);
      Got(Str(text), next)
    else if kind == TYPE_LIST then
      var (count, next) :- ReadLength(buf, pos);
      AsList(ReadTexts(buf, next, count))
    else if kind == TYPE_SET then
      var (count, next) :- ReadLength(buf, pos);
      AsSet(ReadTexts(buf, next, count))
    else if kind == TYPE_HASH then
      var (count, next) :- ReadLength(buf, pos);
      AsHash(ReadFields(buf, next, count))
    else if kind == TYPE_ZSET then
      var (count, next) :- ReadLength(buf, pos);
      AsSortedSet(ReadScores(buf, next, count))
    else Malformed("Unknown value type: " + IntText(kind as int))
  }

  /** Whether a tree holds exactly the pairs. */
  ghost predicate Holds(tree: map<int, set<bytes>>, pairs: seq<(int, bytes)>)
  {
    && (forall s, m :: s in tree && m in tree[s] <==> (s, m) in pairs)
    && (forall s :: s in tree ==> tree[s] != {})
  }

  lemma {:induction false} FiledHolds(pairs: seq<(int, bytes)>)
    ensures Holds(Filed(pairs), pairs)
    decreases |pairs|
  {
    if pairs != [] {
      var rest, last := pairs[..|pairs| - 1], pairs[|pairs| - 1];
      FiledHolds(rest);
      assert pairs == rest + [last];
    }
  }

  lemma {:induction false} LastScoresAre(pairs: seq<(int, bytes)>)
    ensures forall s, m :: (s, m) in pairs ==> m in LastScores(pairs)
    ensures forall m :: m in LastScores(pairs) ==> (LastScores(pairs)[m], m) in pairs
    decreases |pairs|
  {
    if pairs != [] {
      LastScoresAre(pairs[1..]);
      assert pairs == [pairs[0]] + pairs[1..];
    }
  }

  /** No member comes with two scores. */
  ghost predicate OneScoreEach(pairs: seq<(int, bytes)>)
  {
    forall s, t, m :: (s, m) in pairs && (t, m) in pairs ==> s == t
  }

  /** The rebuilt tree is coherent with the rebuilt scores exactly when no member comes with
      two scores. */
  lemma FiledCoherentExactly(pairs: seq<(int, bytes)>)
    ensures Coherent(LastScores(pairs), Filed(pairs)) <==> OneScoreEach(pairs)
  {
    var scores, tree := LastScores(pairs), Filed(pairs);
    LastScoresAre(pairs);
    FiledHolds(pairs);
    hide LastScores, Filed;
    if Coherent(scores, tree) {
      forall s, t, m | (s, m) in pairs && (t, m) in pairs ensures s == t {
        assert s in tree && m in tree[s] && t in tree && m in tree[t];
      }
    }
    if OneScoreEach(pairs) {
      forall m, s ensures s in tree && m in tree[s] <==> m in scores && scores[m] == s {
        if (s, m) in pairs { assert (scores[m], m) in pairs; }
      }
    }
  }

  // ----------------------------------------------------------------- values come back

  lemma {:induction false} MemberPairsAre(q: seq<bytes>, z: map<bytes, int>)
    requires forall i :: 0 <= i < |q| ==> q[i] in z
    ensures forall s, m :: (s, m) in MemberPairs(q, z) ==> m in z && z[m] == s
    decreases |q|
  {
    if q != [] { MemberPairsAre(q[1..], z); }
  }

  /** From a sound sorted set both indices come back. */
  lemma SortedSetBack(q: seq<bytes>, z: map<bytes, int>)
    requires Enumerates(q, z.Keys) && forall i :: 0 <= i < |q| ==> q[i] in z
    ensures SortedSet(LastScores(MemberPairs(q, z)), Filed(MemberPairs(q, z))) == Ranked(z)
  {
    EnumerationIs(q, z.Keys);
    MembersBack(q, z);
    assert LastScores(MemberPairs(q, z)) == z;
    MemberPairsAre(q, z);
    hide MemberPairs, LastScores, Filed, TreeOf;
    FiledCoherentExactly(MemberPairs(q, z));
    CoherentExactly(z, Filed(MemberPairs(q, z)));
  }

  lemma HashBack(q: seq<bytes>, h: map<bytes, bytes>)
    requires Enumerates(q, h.Keys) && forall i :: 0 <= i < |q| ==> q[i] in h
    ensures LastWins(FieldPairs(q, h)) == h
  {
    EnumerationIs(q, h.Keys);
    FieldsBack(q, h);
  }

  /** The collections of a buffer that can be held in memory have lengths of 64 bits. */
  lemma {:induction false} TextsAreShort(texts: seq<bytes>)
    ensures |texts| <= |TextsBytes(texts)|
    decreases |texts|
  {
    hide TextBytes;
    if texts != [] { TextsAreShort(texts[1..]); }
  }

  lemma CountedTexts(buf: bytes, pos: nat, n: nat, texts: seq<bytes>)
    requires Fits(buf) && n <= |texts| && At(buf, pos, LengthBytes(AsU64(n)) + TextsBytes(texts))
    ensures ReadLength(buf, pos) == Got(n, pos + |LengthBytes(AsU64(n))|)
    ensures At(buf, pos + |LengthBytes(AsU64(n))|, TextsBytes(texts))
  {
    hide LengthBytes, TextsBytes, ReadLength;
    TextsAreShort(texts);
    AtParts(buf, pos, LengthBytes(AsU64(n)), TextsBytes(texts));
    LengthRoundTrip(buf, pos, AsU64(n));
  }

  lemma SetRoundTrip(buf: bytes, pos: nat, q: seq<bytes>, members: set<bytes>)
    requires Fits(buf) && Enumerates(q, members) && At(buf, pos, ValueBytes(Set(members), q))
    ensures ReadValue(buf, pos, TYPE_SET) == Got(Set(members), pos + |ValueBytes(Set(members), q)|)
  {
    hide At, LengthBytes, TextsBytes, TextBytes, ReadLength, ReadText, ReadTexts;
    EnumerationIs(q, members);
    CountedTexts(buf, pos, |q|, q);
    TextsRoundTrip(buf, pos + |LengthBytes(AsU64(|q|))|, q);
  }

  lemma HashRoundTrip(buf: bytes, pos: nat, q: seq<bytes>, h: map<bytes, bytes>)
    requires Fits(buf) && Enumerates(q, h.Keys) && (forall i :: 0 <= i < |q| ==> q[i] in h)
    requires At(buf, pos, ValueBytes(Hash(h), q))
    ensures ReadValue(buf, pos, TYPE_HASH) == Got(Hash(h), pos + |ValueBytes(Hash(h), q)|)
  {
    hide At, LengthBytes, TextsBytes, TextBytes, ReadLength, ReadText, ReadFields, LastWins, PairsAlong;
    EnumerationIs(q, h.Keys);
    PairsWritten(q, h);
    CountedTexts(buf, pos, |q|, PairsAlong(q, h));
    FieldsRoundTrip(buf, pos + |LengthBytes(AsU64(|q|))|, q, h);
    HashBack(q, h);
  }

  lemma SortedSetRoundTrip(buf: bytes, pos: nat, q: seq<bytes>, z: map<bytes, int>)
    requires Fits(buf) && Enumerates(q, z.Keys) && (forall i :: 0 <= i < |q| ==> q[i] in z)
    requires At(buf, pos, ValueBytes(Ranked(z), q))
    ensures ReadValue(buf, pos, TYPE_ZSET) == Got(Ranked(z), pos + |ValueBytes(Ranked(z), q)|)
  {
    hide At, LengthBytes, TextsBytes, TextBytes, ReadLength, ReadText, ReadScores;
    hide LastScores, ScoresAlong, TreeOf, Filed;
    EnumerationIs(q, z.Keys);
    ScoresWritten(q, z);
    CountedTexts(buf, pos, |q|, ScoresAlong(q, z));
    ScoresRoundTrip(buf, pos + |LengthBytes(AsU64(|q|))|, q, z);
    SortedSetBack(q, z);
  }

  lemma ListRoundTrip(buf: bytes, pos: nat, items: seq<bytes>)
    requires Fits(buf) && At(buf, pos, ValueBytes(List(items), []))
    ensures ReadValue(buf, pos, TYPE_LIST) == Got(List(items), pos + |ValueBytes(List(items), [])|)
  {
    hide At, LengthBytes, TextsBytes, TextBytes, ReadLength, ReadText, ReadTexts;
    CountedTexts(buf, pos, |items|, items);
    TextsRoundTrip(buf, pos + |LengthBytes(AsU64(|items|))|, items);
  }

  /** Every value of a sound store comes back from what was written, equal in every part,
      whatever order its hash table was visited in and whatever surrounds it. */
  lemma ValueRoundTrip(buf: bytes, pos: nat, x: StoredValue, q: seq<bytes>)
    requires Fits(buf) && Sound(x) && OrderFor(x, q) && At(buf, pos, ValueBytes(x, q))
    ensures ReadValue(buf, pos, TypeByte(x)) == Got(x, pos + |ValueBytes(x, q)|)
  {
    OrderCovers(x, q);
    match x
    case Str(text) => TextRoundTrip(buf, pos, text);
    case List(items) => ListRoundTrip(buf, pos, items);
    case Set(members) => SetRoundTrip(buf, pos, q, members);
    case Hash(fields) => HashRoundTrip(buf, pos, q, fields);
    case SortedSet(scores, _) =>
      hide ValueBytes, ReadValue, TreeOf, At;
      SortedSetRoundTrip(buf, pos, q, scores);
  }
}
