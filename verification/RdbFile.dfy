/** A snapshot file: header, one record per key, end marker; and what a scan of it reads. */
module RdbFile {
  import opened Bytes
  import opened Decimal
  import opened Values
  import opened Enumerations
  import opened Laws
  import opened Rewrite
  import opened Rdb

  const OP_EOF: byte := Octet(0xFF)
  const OP_SELECT_DB: byte := Octet(0xFE)
  const OP_EXPIRE_TIME: byte := Octet(0xFD)
  const OP_EXPIRE_TIME_MS: byte := Octet(0xFC)
  const OP_RESIZE_DB: byte := Octet(0xFB)
  const OP_AUX: byte := Octet(0xFA)

  const MAGIC: bytes := "REDIS"
  const VERSION: bytes := "0011"

  // ----------------------------------------------------------------------------- writing

  function AuxBytes(key: bytes, value: bytes): bytes { [OP_AUX] + (TextBytes(key) + TextBytes(value)) }

  /** What precedes the sizes, at `wall` ms since the epoch. */
  function HeaderBytes(wall: nat): bytes
  {
    AuxBytes("redis-ver", "7.0.0")
      + (AuxBytes("redis-bits", "64") + (AuxBytes("ctime", IntText(wall / 1000)) + ([OP_SELECT_DB] + LengthBytes(0))))
  }

  function SizesBytes(keys: nat, timed: nat): bytes
  {
    [OP_RESIZE_DB] + (LengthBytes(AsU64(keys)) + LengthBytes(AsU64(timed)))
  }

  /** The absolute time that is saved for a deadline: u64 arithmetic, unchecked. */
  function Due(deadline: int, now: int, wall: nat): u64 { AsU64(wall + AsU64(deadline - now)) }

  /** A key with its value, for good or until an absolute time. */
  datatype Record = Record(key: bytes, value: StoredValue, due: Option<nat>)

  /** A record and the order in which its value's hash table iterated when it was written. */
  datatype Written = Written(record: Record, order: seq<bytes>)

  function RecordBytes(w: Written): bytes
  {
    var r := w.record;
    (if r.due.Some? then [OP_EXPIRE_TIME_MS] + LittleEndian(r.due.value, 8) else [])
      + ([TypeByte(r.value)] + (TextBytes(r.key) + ValueBytes(r.value, w.order)))
  }

  function RecordsBytes(ws: seq<Written>): bytes
  {
    if ws == [] then [] else RecordBytes(ws[0]) + RecordsBytes(ws[1..])
  }

  const TRAILER: bytes := [OP_EOF] + LittleEndian(0, 8)

  /** A whole file; the sizes are those of the snapshot. */
  function FileBytes(wall: nat, keys: nat, timed: nat, ws: seq<Written>): bytes
  {
    MAGIC + VERSION + (HeaderBytes(wall) + (SizesBytes(keys, timed) + (RecordsBytes(ws) + TRAILER)))
  }

  // ----------------------------------------------------------------------------- reading

  /** What one opcode amounts to. */
  datatype Turn = Stop | Skip | Keep(record: Record)

  function SkipOf(end: nat): Read<Turn> { Got(Skip, end) }

  /** A key and its value, after their type byte. */
  function ReadPair(buf: bytes, pos: nat, kind: byte, due: Option<nat>): (r: Read<Turn>)
    ensures r.Got? ==> pos < r.next <= |buf|
  {
    var (key, next) :- ReadText(buf, pos);
    var (value, end) :- ReadValue(buf, next, kind);
    Got(Keep(Record(key, value, due)), end)
  }

  /** An expiry record; `buf[pos]` is read unchecked. */
  function ReadTimed(buf: bytes, pos: nat, due: nat): (r: Read<Turn>)
    ensures r.Got? ==> pos < r.next <= |buf|
  {
    if pos >= |buf| then Crash else ReadPair(buf, pos + 1, buf[pos], Some(due))
  }

  /** One turn of the loop of `load_from_file`. */
  function ReadTurn(buf: bytes, pos: nat): (r: Read<Turn>)
    requires pos < |buf|
    ensures r.Got? ==> pos < r.next <= |buf|
  {
    var opcode, start := buf[pos], pos + 1;
    if opcode == OP_EOF then Got(Stop, start)
    else if opcode == OP_SELECT_DB then
      var (_, end) :- ReadLength(buf, start);
      SkipOf(end)
    else if opcode == OP_RESIZE_DB then
      var (_, next) :- ReadLength(buf, start);
      var (_, end) :- ReadLength(buf, next);
      SkipOf(end)
    else if opcode == OP_AUX then
      var (_, next) :- ReadText(buf, start);
      var (_, end) :- ReadText(buf, next);
      SkipOf(end)
    else if opcode == OP_EXPIRE_TIME_MS then
      if start + 8 > |buf| then Malformed("Truncated expire time")
      else ReadTimed(buf, start + 8, LittleValue(buf[start..start + 8]))
    else if opcode == OP_EXPIRE_TIME then
      if start + 4 > |buf| then Malformed("Truncated expire time")
      else ReadTimed(buf, start + 4, LittleValue(buf[start..start + 4]) * 1000)
    else ReadPair(buf, start, opcode, None)
  }

  /** How a scan ends: at the end marker or the end of the file, with an error, or with a panic. */
  datatype Ending = Finished | Failed(text: bytes) | Crashed

  /** The records from `pos` on; those before an error have already been handed over. */
  datatype Scanned = Scanned(records: seq<Record>, ending: Ending)

  function Before(records: seq<Record>, rest: Scanned): Scanned { Scanned(records + rest.records, rest.ending) }

  function Scan(buf: bytes, pos: nat): Scanned
    decreases |buf| - pos
  {
    if pos >= |buf| then Scanned([], Finished)
    else
      match ReadTurn(buf, pos)
      case Malformed(text) => Scanned([], Failed(text))
      case Crash => Scanned([], Crashed)
      case Got(Stop, _) => Scanned([], Finished)
      case Got(Skip, next) => Scan(buf, next)
      case Got(Keep(record), next) => Before([record], Scan(buf, next))
  }

  // ------------------------------------------------------------- scanning what was written

  lemma AuxTurn(buf: bytes, pos: nat, key: bytes, value: bytes)
    requires Fits(buf) && At(buf, pos, AuxBytes(key, value))
    ensures Scan(buf, pos) == Scan(buf, pos + |AuxBytes(key, value)|)
  {
    hide At, TextBytes, ReadText;
    FirstByte(buf, pos, OP_AUX, TextBytes(key) + TextBytes(value));
    AtParts(buf, pos + 1, TextBytes(key), TextBytes(value));
    TextRoundTrip(buf, pos + 1, key);
    TextRoundTrip(buf, pos + 1 + |TextBytes(key)|, value);
  }

  lemma FirstByte(buf: bytes, pos: nat, b: byte, rest: bytes)
    requires At(buf, pos, [b] + rest)
    ensures pos < |buf| && buf[pos] == b && At(buf, pos + 1, rest)
  {
    AtParts(buf, pos, [b], rest);
    assert buf[pos] == buf[pos..pos + 1][0];
  }

  lemma SelectTurn(buf: bytes, pos: nat)
    requires At(buf, pos, [OP_SELECT_DB] + LengthBytes(0))
    ensures Scan(buf, pos) == Scan(buf, pos + |[OP_SELECT_DB] + LengthBytes(0)|)
  {
    FirstByte(buf, pos, OP_SELECT_DB, LengthBytes(0));
    hide At, LengthBytes, ReadLength;
    LengthRoundTrip(buf, pos + 1, 0);
  }

  lemma SizesTurn(buf: bytes, pos: nat, keys: nat, timed: nat)
    requires At(buf, pos, SizesBytes(keys, timed))
    ensures Scan(buf, pos) == Scan(buf, pos + |SizesBytes(keys, timed)|)
  {
    hide At, LengthBytes, ReadLength;
    var a, b := LengthBytes(AsU64(keys)), LengthBytes(AsU64(timed));
    FirstByte(buf, pos, OP_RESIZE_DB, a + b);
    AtParts(buf, pos + 1, a, b);
    LengthRoundTrip(buf, pos + 1, AsU64(keys));
    LengthRoundTrip(buf, pos + 1 + |a|, AsU64(timed));
  }

  lemma TrailerTurn(buf: bytes, pos: nat)
    requires At(buf, pos, TRAILER)
    ensures Scan(buf, pos) == Scanned([], Finished)
  {
    FirstByte(buf, pos, OP_EOF, LittleEndian(0, 8));
  }

  /** A record that `load_from_file` can read back. */
  ghost predicate Readable(w: Written)
  {
    && Sound(w.record.value) && OrderFor(w.record.value, w.order)
    && (w.record.due.Some? ==> w.record.due.value < TWO_TO_64)
  }

  lemma PairTurn(buf: bytes, pos: nat, w: Written)
    requires Fits(buf) && Readable(w)
    requires At(buf, pos, TextBytes(w.record.key) + ValueBytes(w.record.value, w.order))
    ensures ReadPair(buf, pos, TypeByte(w.record.value), w.record.due) ==
      Got(Keep(w.record), pos + |TextBytes(w.record.key) + ValueBytes(w.record.value, w.order)|)
  {
    hide At, TextBytes, ValueBytes, ReadText, ReadValue, Sound, OrderFor;
    AtParts(buf, pos, TextBytes(w.record.key), ValueBytes(w.record.value, w.order));
    TextRoundTrip(buf, pos, w.record.key);
    ValueRoundTrip(buf, pos + |TextBytes(w.record.key)|, w.record.value, w.order);
  }

  lemma UntimedTurn(buf: bytes, pos: nat, w: Written)
    requires Fits(buf) && Readable(w) && w.record.due.None? && At(buf, pos, RecordBytes(w))
    ensures pos < |buf| && ReadTurn(buf, pos) == Got(Keep(w.record), pos + |RecordBytes(w)|)
  {
    var rest := TextBytes(w.record.key) + ValueBytes(w.record.value, w.order);
    assert RecordBytes(w) == [TypeByte(w.record.value)] + rest;
    FirstByte(buf, pos, TypeByte(w.record.value), rest);
    hide Readable, At, ReadPair, TextBytes, ValueBytes;
    PairTurn(buf, pos + 1, w);
  }

  /** A stamp at a position: opcode, eight bytes, and the type byte after them. */
  lemma StampRead(buf: bytes, pos: nat, due: nat, kind: byte, rest: bytes)
    requires due < TWO_TO_64 && At(buf, pos, [OP_EXPIRE_TIME_MS] + (LittleEndian(due, 8) + ([kind] + rest)))
    ensures pos + 9 < |buf| && buf[pos] == OP_EXPIRE_TIME_MS && buf[pos + 9] == kind
    ensures LittleValue(buf[pos + 1..pos + 9]) == due && At(buf, pos + 10, rest)
  {
    hide LittleEndian, LittleValue, Power;
    var stamp := LittleEndian(due, 8);
    FirstByte(buf, pos, OP_EXPIRE_TIME_MS, stamp + ([kind] + rest));
    AtParts(buf, pos + 1, stamp, [kind] + rest);
    assert buf[pos + 1..pos + 9] == stamp;
    FirstByte(buf, pos + 9, kind, rest);
    EightBytes();
    LittleEndianRoundTrip(due, 8);
  }

  lemma StampedTurn(buf: bytes, pos: nat, due: nat)
    requires pos + 9 < |buf| && buf[pos] == OP_EXPIRE_TIME_MS && LittleValue(buf[pos + 1..pos + 9]) == due
    ensures ReadTurn(buf, pos) == ReadPair(buf, pos + 10, buf[pos + 9], Some(due))
  {
    hide LittleValue, ReadPair, ReadLength, ReadText;
  }

  lemma TimedTurn(buf: bytes, pos: nat, w: Written)
    requires Fits(buf) && Readable(w) && w.record.due.Some? && At(buf, pos, RecordBytes(w))
    ensures pos < |buf| && ReadTurn(buf, pos) == Got(Keep(w.record), pos + |RecordBytes(w)|)
  {
    hide At, ReadPair, ReadTurn, TextBytes, ValueBytes, LittleValue, LittleEndian, Sound, OrderFor, TypeByte;
    var due, kind := w.record.due.value, TypeByte(w.record.value);
    var rest := TextBytes(w.record.key) + ValueBytes(w.record.value, w.order);
    TimedBytes(w);
    StampRead(buf, pos, due, kind, rest);
    PairTurn(buf, pos + 10, w);
    StampedTurn(buf, pos, due);
  }

  lemma TimedBytes(w: Written)
    requires w.record.due.Some?
    ensures var rest := TextBytes(w.record.key) + ValueBytes(w.record.value, w.order);
      && RecordBytes(w) ==
         [OP_EXPIRE_TIME_MS] + (LittleEndian(w.record.due.value, 8) + ([TypeByte(w.record.value)] + rest))
      && |RecordBytes(w)| == 10 + |rest|
  {
    hide TextBytes, ValueBytes, LittleEndian, TypeByte;
  }

  function RecordsOf(ws: seq<Written>): (r: seq<Record>)
    ensures |r| == |ws| && forall i :: 0 <= i < |ws| ==> r[i] == ws[i].record
  {
    seq(|ws|, i requires 0 <= i < |ws| => ws[i].record)
  }

  lemma ScanKeeps(buf: bytes, pos: nat, record: Record, next: nat)
    requires pos < |buf| && ReadTurn(buf, pos) == Got(Keep(record), next)
    ensures Scan(buf, pos) == Before([record], Scan(buf, next))
  {
  }

  lemma {:induction false} RecordsScanned(buf: bytes, pos: nat, ws: seq<Written>)
    requires Fits(buf) && (forall i :: 0 <= i < |ws| ==> Readable(ws[i])) && At(buf, pos, RecordsBytes(ws))
    ensures Scan(buf, pos) == Before(RecordsOf(ws), Scan(buf, pos + |RecordsBytes(ws)|))
    decreases |ws|
  {
    hide At, RecordBytes, Readable, Scan, ReadTurn;
    if ws != [] {
      var w, next := ws[0], pos + |RecordBytes(ws[0])|;
      AtParts(buf, pos, RecordBytes(w), RecordsBytes(ws[1..]));
      if w.record.due.Some? { TimedTurn(buf, pos, w); } else { UntimedTurn(buf, pos, w); }
      ScanKeeps(buf, pos, w.record, next);
      RecordsScanned(buf, next, ws[1..]);
      assert [w.record] + RecordsOf(ws[1..]) == RecordsOf(ws);
      var rest := Scan(buf, pos + |RecordsBytes(ws)|);
      assert [w.record] + (RecordsOf(ws[1..]) + rest.records) == RecordsOf(ws) + rest.records;
    }
  }

  lemma HeaderScanned(buf: bytes, pos: nat, wall: nat)
    requires Fits(buf) && At(buf, pos, HeaderBytes(wall))
    ensures Scan(buf, pos) == Scan(buf, pos + |HeaderBytes(wall)|)
  {
    hide At, AuxBytes, LengthBytes, Scan, IntText;
    var version, width := AuxBytes("redis-ver", "7.0.0"), AuxBytes("redis-bits", "64");
    var time := AuxBytes("ctime", IntText(wall / 1000));
    var db := [OP_SELECT_DB] + LengthBytes(0);
    AtParts(buf, pos, version, width + (time + db));
    AtParts(buf, pos + |version|, width, time + db);
    AtParts(buf, pos + |version| + |width|, time, db);
    AuxTurn(buf, pos, "redis-ver", "7.0.0");
    AuxTurn(buf, pos + |version|, "redis-bits", "64");
    AuxTurn(buf, pos + |version| + |width|, "ctime", IntText(wall / 1000));
    SelectTurn(buf, pos + |version| + |width| + |time|);
  }

  lemma RecordsAndTrailer(buf: bytes, pos: nat, ws: seq<Written>)
    requires Fits(buf) && (forall i :: 0 <= i < |ws| ==> Readable(ws[i])) && At(buf, pos, RecordsBytes(ws) + TRAILER)
    ensures Scan(buf, pos) == Scanned(RecordsOf(ws), Finished)
  {
    hide At, RecordsBytes, Scan, Readable, RecordsOf, TRAILER;
    AtParts(buf, pos, RecordsBytes(ws), TRAILER);
    RecordsScanned(buf, pos, ws);
    TrailerTurn(buf, pos + |RecordsBytes(ws)|);
    assert RecordsOf(ws) + [] == RecordsOf(ws);
  }

  lemma SizesAndRecords(buf: bytes, pos: nat, keys: nat, timed: nat, ws: seq<Written>)
    requires Fits(buf) && forall i :: 0 <= i < |ws| ==> Readable(ws[i])
    requires At(buf, pos, SizesBytes(keys, timed) + (RecordsBytes(ws) + TRAILER))
    ensures Scan(buf, pos) == Scanned(RecordsOf(ws), Finished)
  {
    hide At, SizesBytes, RecordsBytes, Scan, Readable, RecordsOf, TRAILER;
    AtParts(buf, pos, SizesBytes(keys, timed), RecordsBytes(ws) + TRAILER);
    SizesTurn(buf, pos, keys, timed);
    RecordsAndTrailer(buf, pos + |SizesBytes(keys, timed)|, ws);
  }

  lemma BodyScanned(buf: bytes, pos: nat, wall: nat, keys: nat, timed: nat, ws: seq<Written>)
    requires Fits(buf) && forall i :: 0 <= i < |ws| ==> Readable(ws[i])
    requires At(buf, pos, HeaderBytes(wall) + (SizesBytes(keys, timed) + (RecordsBytes(ws) + TRAILER)))
    ensures Scan(buf, pos) == Scanned(RecordsOf(ws), Finished)
  {
    hide At, HeaderBytes, SizesBytes, RecordsBytes, Scan, Readable, RecordsOf, TRAILER;
    AtParts(buf, pos, HeaderBytes(wall), SizesBytes(keys, timed) + (RecordsBytes(ws) + TRAILER));
    HeaderScanned(buf, pos, wall);
    SizesAndRecords(buf, pos + |HeaderBytes(wall)|, keys, timed, ws);
  }

  lemma FileStart(body: bytes)
    ensures var buf := MAGIC + VERSION + body; At(buf, 9, body) && buf[..5] == MAGIC && |buf| >= 9
  {
  }

  /** A file gives back its records, all of them and in order, and the scan ends at its end. */
  lemma FileScanned(wall: nat, keys: nat, timed: nat, ws: seq<Written>)
    requires Fits(FileBytes(wall, keys, timed, ws)) && forall i :: 0 <= i < |ws| ==> Readable(ws[i])
    ensures Scan(FileBytes(wall, keys, timed, ws), 9) == Scanned(RecordsOf(ws), Finished)
    ensures |FileBytes(wall, keys, timed, ws)| >= 9 && FileBytes(wall, keys, timed, ws)[..5] == MAGIC
  {
    hide At, HeaderBytes, SizesBytes, RecordsBytes, Scan, Readable, RecordsOf, MAGIC, VERSION, TRAILER;
    var body := HeaderBytes(wall) + (SizesBytes(keys, timed) + (RecordsBytes(ws) + TRAILER));
    FileStart(body);
    BodyScanned(FileBytes(wall, keys, timed, ws), 9, wall, keys, timed, ws);
  }

  // ------------------------------------------------------------------ into a store and back

  /** One record put into the store's maps at `now`, `wall` ms since the epoch: `restore` or
      `set_with_ttl`. */
  function LoadOne(s: (Data, Expirations), r: Record, wall: nat, now: int): (Data, Expirations)
  {
    if r.due.None? then (s.0[r.key := r.value], s.1)
    else if wall < r.due.value then (s.0[r.key := r.value], s.1[r.key := now + (r.due.value - wall)])
    else s
  }

  function LoadAll(s: (Data, Expirations), rs: seq<Record>, wall: nat, now: int): (Data, Expirations)
  {
    if rs == [] then s else LoadOne(LoadAll(s, rs[..|rs| - 1], wall, now), rs[|rs| - 1], wall, now)
  }

  /** The records of a view saved at `now`, `wall` ms since the epoch. */
  function RecordFor(k: bytes, e: Entry, now: int, wall: nat): Record
  {
    Record(k, e.value, if e.deadline.Some? then Some(Due(e.deadline.value, now, wall)) else None)
  }

  function Saved(v: View, now: int, wall: nat, keys: seq<bytes>, orders: map<bytes, seq<bytes>>): (ws: seq<Written>)
    requires forall k :: k in keys ==> k in v && k in orders
    ensures |ws| == |keys|
    ensures forall i :: 0 <= i < |ws| ==> ws[i] == Written(RecordFor(keys[i], v[keys[i]], now, wall), orders[keys[i]])
  {
    seq(|keys|, i requires 0 <= i < |keys| => Written(RecordFor(keys[i], v[keys[i]], now, wall), orders[keys[i]]))
  }

  /** The moments of a save and of a load, on the store's clock and since the epoch. */
  datatype Times = Times(now: int, wall: nat, now': int, wall': nat)

  /** When an entry falls due since the epoch. */
  function AbsoluteDeadline(deadline: int, t: Times): int { t.wall + (deadline - t.now) }

  /** Whether an entry should come back: it has no deadline, or one that is still ahead; and
      the deadline is one that 64 bits can say. */
  predicate ComesBack(e: Entry, t: Times)
  {
    e.deadline.Some? ==> t.wall' < AbsoluteDeadline(e.deadline.value, t) < TWO_TO_64
  }

  /** The entry with the same value and the same absolute deadline, on the loader's clock. */
  function Rebased(e: Entry, t: Times): Entry
  {
    Entry(e.value, if e.deadline.Some? then Some(t.now' + (AbsoluteDeadline(e.deadline.value, t) - t.wall')) else None)
  }

  function Restored(v: View, keys: set<bytes>, t: Times): View
  {
    map k | k in keys && k in v && ComesBack(v[k], t) :: Rebased(v[k], t)
  }

  /** The saved absolute time is right exactly when it fits 64 bits; otherwise it has wrapped
      to a time before the save, and no later load sees it ahead. */
  lemma DueExactly(deadline: int, t: Times)
    requires t.now < deadline < t.now + TWO_TO_64 && t.wall < TWO_TO_64
    ensures Due(deadline, t.now, t.wall) == AbsoluteDeadline(deadline, t) <==> AbsoluteDeadline(deadline, t) < TWO_TO_64
    ensures AbsoluteDeadline(deadline, t) >= TWO_TO_64 ==> Due(deadline, t.now, t.wall) < t.wall
  {
    var due := AbsoluteDeadline(deadline, t);
    if due >= TWO_TO_64 { assert due % TWO_TO_64 == due - TWO_TO_64; }
  }

  /** Loading one key's record restores its entry, or nothing. */
  lemma OneRestored(d: Data, x: Expirations, k: bytes, e: Entry, t: Times)
    requires Consistent(d, x) && k !in d && Sound(e.value) && t.wall < TWO_TO_64 && t.wall <= t.wall'
    requires e.deadline.Some? ==> t.now < e.deadline.value < t.now + TWO_TO_64
    ensures var s := LoadOne((d, x), RecordFor(k, e, t.now, t.wall), t.wall', t.now');
      && Consistent(s.0, s.1) && s.0.Keys <= d.Keys + {k}
      && LiveView(s.0, s.1, t.now') ==
         var u := LiveView(d, x, t.now');
         if ComesBack(e, t) then u[k := Rebased(e, t)] else u
  {
    if e.deadline.None? {
      WriteUntimed(d, x, k, e.value, t.now');
      assert x - {k} == x;
    } else {
      DueExactly(e.deadline.value, t);
      var due := Due(e.deadline.value, t.now, t.wall);
      if t.wall' < due { WriteTimed(d, x, k, e.value, t.now' + (due - t.wall'), t.now'); }
    }
    hide LiveView, Sound, Due;
  }

  lemma OneMoreRestored(v: View, keys: set<bytes>, k: bytes, t: Times)
    requires k in v && k !in keys
    ensures Restored(v, keys + {k}, t) ==
      if ComesBack(v[k], t) then Restored(v, keys, t)[k := Rebased(v[k], t)] else Restored(v, keys, t)
  {
    hide ComesBack, Rebased;
  }

  lemma {:induction false} KeysRestored(v: View, keys: seq<bytes>, orders: map<bytes, seq<bytes>>, t: Times)
    requires SoundView(v) && Within(v, t.now) && (forall k :: k in v ==> AliveAt(v[k], t.now))
    requires t.wall < TWO_TO_64 && t.wall <= t.wall'
    requires forall k :: k in keys ==> k in v && k in orders
    requires forall i, j :: 0 <= i < j < |keys| ==> keys[i] != keys[j]
    ensures var s := LoadAll((map[], map[]), RecordsOf(Saved(v, t.now, t.wall, keys, orders)), t.wall', t.now');
      && Consistent(s.0, s.1) && s.0.Keys <= SetOf(keys)
      && LiveView(s.0, s.1, t.now') == Restored(v, SetOf(keys), t)
    decreases |keys|
  {
    hide Consistent, LiveView, Restored, LoadAll, LoadOne, RecordsOf, Saved, RecordFor, ComesBack, Rebased, Sound;
    if keys == [] {
      NothingRestored(v, orders, t);
    } else {
      var rest, k := keys[..|keys| - 1], keys[|keys| - 1];
      KeysRestored(v, rest, orders, t);
      assert keys == rest + [k] && SetOf(keys) == SetOf(rest) + {k} && k !in rest;
      var s := LoadAll((map[], map[]), RecordsOf(Saved(v, t.now, t.wall, rest, orders)), t.wall', t.now');
      LoadedLast(v, rest, k, orders, t);
      assert AliveAt(v[k], t.now);
      OneRestored(s.0, s.1, k, v[k], t);
      OneMoreRestored(v, SetOf(rest), k, t);
    }
  }

  lemma LoadedLast(v: View, rest: seq<bytes>, k: bytes, orders: map<bytes, seq<bytes>>, t: Times)
    requires forall j :: j in rest + [k] ==> j in v && j in orders
    ensures var before := RecordsOf(Saved(v, t.now, t.wall, rest, orders));
      var all := RecordsOf(Saved(v, t.now, t.wall, rest + [k], orders));
      LoadAll((map[], map[]), all, t.wall', t.now') ==
        LoadOne(LoadAll((map[], map[]), before, t.wall', t.now'), RecordFor(k, v[k], t.now, t.wall), t.wall', t.now')
  {
    hide LoadOne, RecordFor;
    var before := RecordsOf(Saved(v, t.now, t.wall, rest, orders));
    var all := RecordsOf(Saved(v, t.now, t.wall, rest + [k], orders));
    assert all == before + [RecordFor(k, v[k], t.now, t.wall)] && all[..|rest|] == before;
  }

  lemma NothingRestored(v: View, orders: map<bytes, seq<bytes>>, t: Times)
    ensures var s := LoadAll((map[], map[]), RecordsOf(Saved(v, t.now, t.wall, [], orders)), t.wall', t.now');
      Consistent(s.0, s.1) && s.0 == map[] && LiveView(s.0, s.1, t.now') == Restored(v, SetOf([]), t)
  {
  }

  lemma SavedReadable(v: View, now: int, wall: nat, keys: seq<bytes>, orders: map<bytes, seq<bytes>>)
    requires SoundView(v) && GoodOrders(v, keys, orders)
    ensures forall k :: k in keys ==> k in v && k in orders
    ensures var ws := Saved(v, now, wall, keys, orders); forall i :: 0 <= i < |ws| ==> Readable(ws[i])
  {
    hide Sound, OrderFor, AsU64;
  }

  /** A snapshot round trip. Whatever order the keys and each hash table are visited in, a file
      saved from a view and loaded at any later time gives an empty store exactly the keys
      whose deadline is still ahead, with equal values, both indices of a sorted set included,
      and equal absolute deadlines; keys without a deadline come back without one. The one
      exception is an absolute deadline beyond 64 bits: that key does not come back. */
  lemma SnapshotRestores(v: View, keys: seq<bytes>, orders: map<bytes, seq<bytes>>, n: nat, timed: nat, t: Times)
    requires SoundView(v) && Within(v, t.now) && (forall k :: k in v ==> AliveAt(v[k], t.now))
    requires Enumerates(keys, v.Keys) && GoodOrders(v, keys, orders)
    requires t.wall < TWO_TO_64 && t.wall <= t.wall'
    requires Fits(FileBytes(t.wall, n, timed, Saved(v, t.now, t.wall, keys, orders)))
    ensures var scanned := Scan(FileBytes(t.wall, n, timed, Saved(v, t.now, t.wall, keys, orders)), 9);
      var s := LoadAll((map[], map[]), scanned.records, t.wall', t.now');
      && scanned.ending == Finished && Consistent(s.0, s.1)
      && LiveView(s.0, s.1, t.now') == Restored(v, v.Keys, t)
  {
    SavedReadable(v, t.now, t.wall, keys, orders);
    hide Consistent, LiveView, Restored, Readable, FileBytes, Scan, LoadAll, RecordsOf, Saved;
    hide Sound, GoodOrders, Within;
    FileScanned(t.wall, n, timed, Saved(v, t.now, t.wall, keys, orders));
    EnumerationIs(keys, v.Keys);
    KeysRestored(v, keys, orders, t);
  }
}
