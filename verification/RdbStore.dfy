/** Snapshots at work: the store written to a file, and a file loaded into a store. */
module RdbStore {
  import opened Bytes
  import opened Decimal
  import opened Values
  import opened Enumerations
  import opened Semantics
  import opened Handlers
  import opened Laws
  import opened Stores
  import opened Rewrite
  import opened Rewriting
  import opened Rdb
  import opened RdbFile

  // ------------------------------------------------------------------ writing to a file

  class OutFile {
    var contents: bytes

    constructor ()
      ensures contents == []
    {
      contents := [];
    }

    /** `write_all`. */
    method Write(b: bytes)
      modifies this
      ensures contents == old(contents) + b
    {
      contents := contents + b;
    }

    method WriteText(s: bytes)
      modifies this
      ensures contents == old(contents) + TextBytes(s)
    {
      hide LengthBytes;
      Write(LengthBytes(AsU64(|s|)));
      Write(s);
      assert old(contents) + LengthBytes(AsU64(|s|)) + s == old(contents) + (LengthBytes(AsU64(|s|)) + s);
    }

    /** `write_aux`. */
    method WriteAux(key: bytes, value: bytes)
      modifies this
      ensures contents == old(contents) + AuxBytes(key, value)
    {
      hide TextBytes;
      Write([OP_AUX]);
      WriteText(key);
      WriteText(value);
      Concat([OP_AUX], TextBytes(key), TextBytes(value), old(contents));
    }

    /** The loop that writes the texts of a list or a set. */
    method WriteTexts(texts: seq<bytes>)
      modifies this
      ensures contents == old(contents) + TextsBytes(texts)
    {
      hide TextBytes;
      for i := 0 to |texts|
        invariant contents == old(contents) + TextsBytes(texts[..i])
      {
        assert texts[..i + 1] == texts[..i] + [texts[i]];
        TextsSnoc(texts[..i], texts[i]);
        WriteText(texts[i]);
        Concat2(old(contents), TextsBytes(texts[..i]), TextBytes(texts[i]));
      }
      assert texts[..|texts|] == texts;
    }

    method WriteFields(fields: map<bytes, bytes>, order: seq<bytes>)
      requires forall i :: 0 <= i < |order| ==> order[i] in fields
      modifies this
      ensures contents == old(contents) + TextsBytes(PairsAlong(order, fields))
    {
      hide TextBytes, TextsBytes, PairsAlong;
      NoTexts();
      NonePaired(fields, map[]);
      for i := 0 to |order|
        invariant contents == old(contents) + TextsBytes(PairsAlong(order[..i], fields))
      {
        assert order[..i + 1] == order[..i] + [order[i]];
        PairsAlongSnoc(order[..i], fields, order[i]);
        TwoMoreTexts(PairsAlong(order[..i], fields), order[i], fields[order[i]], old(contents));
        WriteText(order[i]);
        WriteText(fields[order[i]]);
      }
      assert order[..|order|] == order;
    }

    method WriteScores(scores: map<bytes, int>, order: seq<bytes>)
      requires forall i :: 0 <= i < |order| ==> order[i] in scores
      modifies this
      ensures contents == old(contents) + TextsBytes(ScoresAlong(order, scores))
    {
      hide TextBytes, TextsBytes, ScoresAlong, IntText;
      NoTexts();
      NonePaired(map[], scores);
      for i := 0 to |order|
        invariant contents == old(contents) + TextsBytes(ScoresAlong(order[..i], scores))
      {
        assert order[..i + 1] == order[..i] + [order[i]];
        ScoresAlongSnoc(order[..i], scores, order[i]);
        TwoMoreTexts(ScoresAlong(order[..i], scores), IntText(scores[order[i]]), order[i], old(contents));
        WriteText(IntText(scores[order[i]]));
        WriteText(order[i]);
      }
      assert order[..|order|] == order;
    }

    /** `write_value`; `order` is how the value's hash table happened to iterate. */
    method WriteValue(x: StoredValue) returns (ghost order: seq<bytes>)
      modifies this
      ensures OrderFor(x, order) && contents == old(contents) + ValueBytes(x, order)
    {
      hide LengthBytes, TextBytes, TextsBytes, PairsAlong, ScoresAlong;
      order := [];
      if x.Str? {
        WriteText(x.text);
        return;
      }
      Write(LengthBytes(AsU64(CountOf(x))));
      ghost var head := LengthBytes(AsU64(CountOf(x)));
      match x {
        case Str(_) =>
        case List(items) =>
          WriteTexts(items);
          Concat2(old(contents), head, TextsBytes(items));
        case Set(members) =>
          var q := Enumerate(members);
          order := q;
          WriteTexts(q);
          Concat2(old(contents), head, TextsBytes(q));
        case Hash(fields) =>
          var q := Enumerate(fields.Keys);
          order := q;
          Covers(q, fields.Keys);
          WriteFields(fields, q);
          Concat2(old(contents), head, TextsBytes(PairsAlong(q, fields)));
        case SortedSet(scores, _) =>
          var q := Enumerate(scores.Keys);
          order := q;
          Covers(q, scores.Keys);
          WriteScores(scores, q);
          Concat2(old(contents), head, TextsBytes(ScoresAlong(q, scores)));
      }
    }
  }

  function CountOf(x: StoredValue): nat
    requires !x.Str?
  {
    match x
    case List(items) => |items|
    case Set(members) => |members|
    case Hash(fields) => |fields|
    case SortedSet(scores, _) => |scores|
  }

  lemma Concat2(a: bytes, b: bytes, c: bytes)
    ensures a + b + c == a + (b + c)
  {
  }

  lemma Concat(a: bytes, b: bytes, c: bytes, before: bytes)
    ensures before + a + b + c == before + (a + (b + c))
  {
  }

  lemma {:induction false} TextsConcat(a: seq<bytes>, b: seq<bytes>)
    ensures TextsBytes(a + b) == TextsBytes(a) + TextsBytes(b)
    decreases |a|
  {
    hide TextBytes;
    if a == [] {
      assert a + b == b;
    } else {
      assert (a + b)[0] == a[0] && (a + b)[1..] == a[1..] + b;
      TextsConcat(a[1..], b);
      Concat2(TextBytes(a[0]), TextsBytes(a[1..]), TextsBytes(b));
    }
  }

  lemma TextsSnoc(texts: seq<bytes>, s: bytes)
    ensures TextsBytes(texts + [s]) == TextsBytes(texts) + TextBytes(s)
  {
    hide TextBytes;
    TextsConcat(texts, [s]);
    assert [s][1..] == [];
    assert TextsBytes([s]) == TextBytes(s) + TextsBytes([]);
  }

  lemma TwoMoreTexts(texts: seq<bytes>, a: bytes, b: bytes, before: bytes)
    ensures before + TextsBytes(texts) + TextBytes(a) + TextBytes(b) == before + TextsBytes(texts + [a, b])
  {
    hide TextBytes, TextsBytes;
    assert texts + [a, b] == texts + [a] + [b];
    TextsSnoc(texts, a);
    TextsSnoc(texts + [a], b);
    Concat(TextsBytes(texts), TextBytes(a), TextBytes(b), before);
    Concat2(TextsBytes(texts), TextBytes(a), TextBytes(b));
  }

  lemma NonePaired(fields: map<bytes, bytes>, scores: map<bytes, int>)
    ensures PairsAlong([], fields) == [] && ScoresAlong([], scores) == []
  {
  }

  // -------------------------------------------------------------------------- saving

  /** `write_u64_ms` and what follows it: one key's record. */
  method WriteRecord(file: OutFile, key: bytes, x: StoredValue, due: Option<u64>) returns (ghost order: seq<bytes>)
    modifies file
    ensures OrderFor(x, order)
    ensures file.contents == old(file.contents) + RecordBytes(Written(Record(key, x, due), order))
  {
    hide TextBytes, ValueBytes, OrderFor, LittleEndian;
    ghost var before := file.contents;
    if due.Some? {
      file.Write([OP_EXPIRE_TIME_MS]);
      file.Write(LittleEndian(due.value, 8));
      Concat2(before, [OP_EXPIRE_TIME_MS], LittleEndian(due.value, 8));
    }
    ghost var stamp: bytes := if due.Some? then [OP_EXPIRE_TIME_MS] + LittleEndian(due.value, 8) else [];
    assert file.contents == before + stamp;
    file.Write([TypeByte(x)]);
    file.WriteText(key);
    order := file.WriteValue(x);
    Concat([TypeByte(x)], TextBytes(key), ValueBytes(x, order), before + stamp);
    Concat2(before, stamp, [TypeByte(x)] + (TextBytes(key) + ValueBytes(x, order)));
  }

  /** The keys of an order that are in a set. */
  function Those(order: seq<bytes>, live: set<bytes>): seq<bytes>
  {
    if order == [] then []
    else Those(order[..|order| - 1], live) + if order[|order| - 1] in live then [order[|order| - 1]] else []
  }

  predicate Distinct(q: seq<bytes>) { forall i, j :: 0 <= i < j < |q| ==> q[i] != q[j] }

  lemma DistinctSnoc(q: seq<bytes>, x: bytes)
    ensures Distinct(q + [x]) <==> x !in q && Distinct(q)
  {
    if Distinct(q + [x]) {
      forall i | 0 <= i < |q| ensures q[i] != x {
        assert (q + [x])[i] != (q + [x])[|q|];
      }
      forall i, j | 0 <= i < j < |q| ensures q[i] != q[j] {
        assert (q + [x])[i] != (q + [x])[j];
      }
    }
  }

  lemma {:induction false} ThoseAre(order: seq<bytes>, live: set<bytes>)
    requires Distinct(order)
    ensures forall k :: k in Those(order, live) <==> k in order && k in live
    ensures Distinct(Those(order, live))
    decreases |order|
  {
    if order != [] {
      var rest, last := order[..|order| - 1], order[|order| - 1];
      assert order == rest + [last];
      DistinctSnoc(rest, last);
      ThoseAre(rest, live);
      var q := Those(rest, live);
      assert Those(order, live) == if last in live then q + [last] else q;
      DistinctSnoc(q, last);
      hide Distinct;
    }
  }

  lemma ThoseEnumerate(order: seq<bytes>, all: set<bytes>, live: set<bytes>)
    requires Enumerates(order, all) && live <= all
    ensures Enumerates(Those(order, live), live)
  {
    EnumerationIs(order, all);
    ThoseAre(order, live);
    assert forall k :: k in live ==> k in SetOf(order);
    assert SetOf(Those(order, live)) == live;
    DistinctEnumerates(Those(order, live), live);
  }

  lemma {:induction false} RecordsConcat(a: seq<Written>, b: seq<Written>)
    ensures RecordsBytes(a + b) == RecordsBytes(a) + RecordsBytes(b)
    decreases |a|
  {
    hide RecordBytes;
    if a == [] {
      assert a + b == b;
    } else {
      assert (a + b)[0] == a[0] && (a + b)[1..] == a[1..] + b;
      RecordsConcat(a[1..], b);
      Concat2(RecordBytes(a[0]), RecordsBytes(a[1..]), RecordsBytes(b));
    }
  }

  /** One more key saved: its order recorded, its record at the end. */
  lemma RecordsGrow(v: View, now: int, wall: nat, keys: seq<bytes>, k: bytes,
                    orders: map<bytes, seq<bytes>>, q: seq<bytes>)
    requires k in v && k !in keys && OrderFor(v[k].value, q) && GoodOrders(v, keys, orders)
    ensures GoodOrders(v, keys, orders) && GoodOrders(v, keys + [k], orders[k := q])
    ensures RecordsBytes(Saved(v, now, wall, keys + [k], orders[k := q])) ==
      RecordsBytes(Saved(v, now, wall, keys, orders)) + RecordBytes(Written(RecordFor(k, v[k], now, wall), q))
  {
    hide OrderFor, RecordBytes, RecordFor;
    var w := Written(RecordFor(k, v[k], now, wall), q);
    assert Saved(v, now, wall, keys + [k], orders[k := q]) == Saved(v, now, wall, keys, orders) + [w];
    RecordsConcat(Saved(v, now, wall, keys, orders), [w]);
    assert [w][1..] == [];
    assert RecordsBytes([w]) == RecordBytes(w) + RecordsBytes([]);
  }

  method WriteHeader(file: OutFile, keys: nat, timed: nat, wall: nat)
    requires file.contents == []
    modifies file
    ensures file.contents == MAGIC + VERSION + (HeaderBytes(wall) + SizesBytes(keys, timed))
  {
    hide AuxBytes, LengthBytes, IntText;
    file.Write(MAGIC);
    file.Write(VERSION);
    file.WriteAux("redis-ver", "7.0.0");
    file.WriteAux("redis-bits", "64");
    file.WriteAux("ctime", IntText(wall / 1000));
    file.Write([OP_SELECT_DB]);
    file.Write(LengthBytes(0));
    file.Write([OP_RESIZE_DB]);
    file.Write(LengthBytes(AsU64(keys)));
    file.Write(LengthBytes(AsU64(timed)));
    ghost var a, b := AuxBytes("redis-ver", "7.0.0"), AuxBytes("redis-bits", "64");
    ghost var c := AuxBytes("ctime", IntText(wall / 1000));
    HeaderParts(a, b, c, [OP_SELECT_DB], LengthBytes(0),
                [OP_RESIZE_DB], LengthBytes(AsU64(keys)), LengthBytes(AsU64(timed)));
  }

  lemma HeaderParts(a: bytes, b: bytes, c: bytes, d: bytes, e: bytes, f: bytes, g: bytes, h: bytes)
    ensures [] + MAGIC + VERSION + a + b + c + d + e + f + g + h ==
      MAGIC + VERSION + ((a + (b + (c + (d + e)))) + (f + (g + h)))
  {
  }

  /** `save_to_file`: the snapshot is taken at `at`, the entries are written at `now`; keys
      that expire in between are skipped. */
  method SaveToFile(store: Store, file: OutFile, at: int, now: int, wall: nat)
    returns (ghost keys: seq<bytes>, ghost orders: map<bytes, seq<bytes>>, ghost held: nat, ghost timed: nat)
    requires store.Valid() && file.contents == [] && at <= now
    modifies store, file
    ensures store.Valid() && forall t :: t >= at ==> store.Live(t) == old(store.Live(t))
    ensures Enumerates(keys, store.Live(now).Keys) && GoodOrders(store.Live(now), keys, orders)
    ensures file.contents == FileBytes(wall, held, timed, Saved(store.Live(now), now, wall, keys, orders))
  {
    hide OrderFor, RecordBytes, HeaderBytes, SizesBytes, TRAILER, MAGIC, VERSION;
    var data, expirations := store.Snapshot(at);
    held, timed := |data|, |expirations|;
    WriteHeader(file, |data|, |expirations|, wall);
    ghost var head := file.contents;
    ghost var v := store.Live(now);
    keys, orders := WriteRecords(file, data, expirations, now, wall);
    ghost var records := RecordsBytes(Saved(v, now, wall, keys, orders));
    file.Write(TRAILER);
    Concat2(HeaderBytes(wall), SizesBytes(held, timed), records + TRAILER);
    Concat2(MAGIC + VERSION, HeaderBytes(wall) + SizesBytes(held, timed), records + TRAILER);
    Concat2(head, records, TRAILER);
  }

  /** The loop over the snapshot. */
  method WriteRecords(file: OutFile, data: Data, expirations: Expirations, now: int, wall: nat)
    returns (ghost keys: seq<bytes>, ghost orders: map<bytes, seq<bytes>>)
    requires Consistent(data, expirations)
    modifies file
    ensures var v := LiveView(data, expirations, now);
      && Enumerates(keys, v.Keys) && GoodOrders(v, keys, orders)
      && file.contents == old(file.contents) + RecordsBytes(Saved(v, now, wall, keys, orders))
  {
    ghost var v := LiveView(data, expirations, now);
    var order := Enumerate(data.Keys);
    OrderOf(order, data, v.Keys);
    keys, orders := [], map[];
    hide RecordsBytes, Saved, LiveView, GoodOrders, Those, Enumerates, SetOf, Consistent, Distinct;
    NoneSaved(v, now, wall);
    ghost var written: bytes := [];
    assert file.contents + [] == file.contents;
    for i := 0 to |order|
      invariant keys == Those(order[..i], v.Keys) && GoodOrders(v, keys, orders)
      invariant written == RecordsBytes(SavedOf(v, now, wall, keys, orders))
      invariant file.contents == old(file.contents) + written
    {
      ThoseNext(order, i, v.Keys);
      ghost var more;
      keys, orders, more := WriteKey(file, data, expirations, order[i], now, wall, keys, orders);
      Concat2(old(file.contents), written, more);
      written := written + more;
    }
    assert order[..|order|] == order;
    OrdersIn(v, keys, orders);
  }

  lemma OrderOf(order: seq<bytes>, data: Data, live: set<bytes>)
    requires Enumerates(order, data.Keys) && live <= data.Keys
    ensures Distinct(order) && Enumerates(Those(order, live), live)
    ensures forall i :: 0 <= i < |order| ==> order[i] in data
    ensures order[..0] == [] && Those([], live) == []
  {
    EnumerationIs(order, data.Keys);
    ThoseEnumerate(order, data.Keys, live);
    assert forall i :: 0 <= i < |order| ==> order[i] in SetOf(order);
  }

  /** `Saved` for orders known to be good. */
  ghost function SavedOf(v: View, now: int, wall: nat, keys: seq<bytes>, orders: map<bytes, seq<bytes>>): seq<Written>
    requires GoodOrders(v, keys, orders)
  {
    Saved(v, now, wall, keys, orders)
  }

  lemma OrdersIn(v: View, keys: seq<bytes>, orders: map<bytes, seq<bytes>>)
    requires GoodOrders(v, keys, orders)
    ensures forall k :: k in keys ==> k in v && k in orders
  {
  }

  /** One turn of the loop: a record, or nothing for a key that has expired meanwhile. */
  method WriteKey(file: OutFile, data: Data, expirations: Expirations, key: bytes, now: int, wall: nat,
                  ghost keys: seq<bytes>, ghost orders: map<bytes, seq<bytes>>)
    returns (ghost keys': seq<bytes>, ghost orders': map<bytes, seq<bytes>>, ghost more: bytes)
    requires key in data && key !in keys && GoodOrders(LiveView(data, expirations, now), keys, orders)
    modifies file
    ensures file.contents == old(file.contents) + more
    ensures var v := LiveView(data, expirations, now);
      && keys' == (keys + if key in v then [key] else [])
      && GoodOrders(v, keys', orders')
      && RecordsBytes(SavedOf(v, now, wall, keys', orders')) == RecordsBytes(SavedOf(v, now, wall, keys, orders)) + more
  {
    hide OrderFor, RecordBytes, RecordsBytes, Saved, RecordFor, LiveView, GoodOrders;
    ghost var v := LiveView(data, expirations, now);
    LiveAt(data, expirations, key, now);
    keys', orders', more := keys, orders, [];
    if key in expirations && expirations[key] <= now {
      assert keys + [] == keys && file.contents + [] == file.contents;
      ghost var before := RecordsBytes(SavedOf(v, now, wall, keys, orders));
      assert before + [] == before;
      return;
    }
    var due := if key in expirations then Some(AsU64(wall + AsU64(expirations[key] - now))) else None;
    DueOf(data, expirations, key, now, wall);
    ghost var q;
    q := WriteRecord(file, key, data[key], due);
    more := RecordBytes(Written(RecordFor(key, v[key], now, wall), q));
    RecordsGrow(v, now, wall, keys, key, orders, q);
    keys', orders' := keys + [key], orders[key := q];
  }

  lemma NoneSaved(v: View, now: int, wall: nat)
    ensures GoodOrders(v, [], map[]) && RecordsBytes(Saved(v, now, wall, [], map[])) == []
  {
  }

  lemma LiveAt(data: Data, expirations: Expirations, k: bytes, now: int)
    requires k in data
    ensures k in LiveView(data, expirations, now) <==> !(k in expirations && expirations[k] <= now)
    ensures k in LiveView(data, expirations, now) ==> LiveView(data, expirations, now)[k].value == data[k]
  {
  }

  lemma DueOf(data: Data, expirations: Expirations, k: bytes, now: int, wall: nat)
    requires k in LiveView(data, expirations, now)
    ensures RecordFor(k, LiveView(data, expirations, now)[k], now, wall) ==
      Record(k, data[k], if k in expirations then Some(AsU64(wall + AsU64(expirations[k] - now))) else None)
  {
  }

  lemma ThoseNext(order: seq<bytes>, i: nat, live: set<bytes>)
    requires i < |order| && Distinct(order)
    ensures order[i] !in Those(order[..i], live)
    ensures Those(order[..i + 1], live) == Those(order[..i], live) + if order[i] in live then [order[i]] else []
  {
    ThoseAre(order[..i], live);
    assert order[..i + 1][..i] == order[..i];
  }

  // ------------------------------------------------------------------------ loading

  lemma ContinueNone<T>(r: Read<seq<T>>)
    ensures Continue([], r) == r
  {
    if r.Got? { assert [] + r.value == r.value; }
  }

  /** The loops of `read_value`, one for each kind of collection. */
  method ReadListAt(buf: bytes, pos: nat, count: nat) returns (r: Read<StoredValue>)
    requires pos <= |buf|
    ensures r == AsList(ReadTexts(buf, pos, count))
  {
    hide ReadText, ReadEach;
    ghost var all := ReadEach(buf, pos, count, ReadText);
    ContinueNone(all);
    var list: seq<bytes> := [];
    var next := pos;
    for i := 0 to count
      invariant all == Continue(list, ReadEach(buf, next, count - i, ReadText))
    {
      ReadEachStep(buf, next, count - i, ReadText, list);
      var item := ReadText(buf, next);
      if !item.Got? { return item.PropagateFailure(); }
      list := list + [item.value];
      next := item.next;
    }
    EachNone(buf, next, ReadText);
    assert list + [] == list;
    r := Got(List(list), next);
  }

  method ReadSetAt(buf: bytes, pos: nat, count: nat) returns (r: Read<StoredValue>)
    requires pos <= |buf|
    ensures r == AsSet(ReadTexts(buf, pos, count))
  {
    hide ReadText, ReadEach;
    ghost var all := ReadEach(buf, pos, count, ReadText);
    ContinueNone(all);
    ghost var done: seq<bytes> := [];
    var members: set<bytes> := {};
    var next := pos;
    for i := 0 to count
      invariant all == Continue(done, ReadEach(buf, next, count - i, ReadText))
      invariant members == SetOf(done)
    {
      ReadEachStep(buf, next, count - i, ReadText, done);
      var item := ReadText(buf, next);
      if !item.Got? { return item.PropagateFailure(); }
      members := members + {item.value};
      done := done + [item.value];
      next := item.next;
    }
    EachNone(buf, next, ReadText);
    assert done + [] == done;
    r := Got(Set(members), next);
  }

  method ReadHashAt(buf: bytes, pos: nat, count: nat) returns (r: Read<StoredValue>)
    requires pos <= |buf|
    ensures r == AsHash(ReadFields(buf, pos, count))
  {
    hide ReadText, ReadEach, LastWins;
    ghost var all := ReadEach(buf, pos, count, ReadField);
    ContinueNone(all);
    ghost var done: seq<(bytes, bytes)> := [];
    var fields: map<bytes, bytes> := map[];
    var next := pos;
    NoPairs();
    for i := 0 to count
      invariant all == Continue(done, ReadEach(buf, next, count - i, ReadField))
      invariant fields == LastWins(done)
    {
      ReadEachStep(buf, next, count - i, ReadField, done);
      var field := ReadText(buf, next);
      if !field.Got? { return field.PropagateFailure(); }
      var value := ReadText(buf, field.next);
      if !value.Got? { return value.PropagateFailure(); }
      LastWinsSnoc(done, field.value, value.value);
      fields := fields[field.value := value.value];
      done := done + [(field.value, value.value)];
      next := value.next;
    }
    EachNone(buf, next, ReadField);
    assert done + [] == done;
    r := Got(Hash(fields), next);
  }

  method ReadSortedSetAt(buf: bytes, pos: nat, count: nat) returns (r: Read<StoredValue>)
    requires pos <= |buf|
    ensures r == AsSortedSet(ReadScores(buf, pos, count))
  {
    hide ReadText, ReadEach, LastScores, Filed, ParseInt;
    ghost var all := ReadEach(buf, pos, count, ReadScored);
    ContinueNone(all);
    ghost var done: seq<(int, bytes)> := [];
    var scores: map<bytes, int> := map[];
    var tree: map<int, set<bytes>> := map[];
    var next := pos;
    NoPairs();
    for i := 0 to count
      invariant all == Continue(done, ReadEach(buf, next, count - i, ReadScored))
      invariant scores == LastScores(done) && tree == Filed(done)
    {
      ReadEachStep(buf, next, count - i, ReadScored, done);
      var text := ReadText(buf, next);
      if !text.Got? { return text.PropagateFailure(); }
      var score := ParseInt(text.value);
      if score.None? { return Malformed("Invalid score"); }
      var member := ReadText(buf, text.next);
      if !member.Got? { return member.PropagateFailure(); }
      LastScoresSnoc(done, score.value, member.value);
      scores := scores[member.value := score.value];
      tree := File(tree, score.value, member.value);
      done := done + [(score.value, member.value)];
      next := member.next;
    }
    EachNone(buf, next, ReadScored);
    assert done + [] == done;
    r := Got(SortedSet(scores, tree), next);
  }

  lemma NoPairs()
    ensures LastWins([]) == map[] && LastScores([]) == map[] && Filed([]) == map[]
  {
  }

  lemma LastWinsSnoc(pairs: seq<(bytes, bytes)>, k: bytes, x: bytes)
    ensures LastWins(pairs + [(k, x)]) == LastWins(pairs)[k := x]
  {
    var all := pairs + [(k, x)];
    LastWinsNext(all, |pairs|);
    assert all[..|pairs|] == pairs && all[..|pairs| + 1] == all;
  }

  lemma LastScoresSnoc(pairs: seq<(int, bytes)>, s: int, m: bytes)
    ensures LastScores(pairs + [(s, m)]) == LastScores(pairs)[m := s]
    ensures Filed(pairs + [(s, m)]) == File(Filed(pairs), s, m)
  {
    var all := pairs + [(s, m)];
    LastScoresNext(all, |pairs|);
    assert all[..|pairs|] == pairs && all[..|pairs| + 1] == all;
  }

  method ReadValueAt(buf: bytes, pos: nat, kind: byte) returns (r: Read<StoredValue>)
    ensures r == ReadValue(buf, pos, kind)
  {
    hide ReadText, ReadLength, ReadTexts, ReadFields, ReadScores, AsList, AsSet, AsHash, AsSortedSet;
    if kind == TYPE_STRING {
      var text := ReadText(buf, pos);
      if !text.Got? { return text.PropagateFailure(); }
      return Got(Str(text.value), text.next);
    }
    if !(kind in {TYPE_LIST, TYPE_SET, TYPE_HASH, TYPE_ZSET}) {
      return Malformed("Unknown value type: " + IntText(kind as int));
    }
    var count := ReadLength(buf, pos);
    if !count.Got? { return count.PropagateFailure(); }
    if kind == TYPE_LIST {
      r := ReadListAt(buf, count.next, count.value);
    } else if kind == TYPE_SET {
      r := ReadSetAt(buf, count.next, count.value);
    } else if kind == TYPE_HASH {
      r := ReadHashAt(buf, count.next, count.value);
    } else {
      r := ReadSortedSetAt(buf, count.next, count.value);
    }
  }

  method ReadPairAt(buf: bytes, pos: nat, kind: byte, due: Option<nat>) returns (r: Read<Turn>)
    ensures r == ReadPair(buf, pos, kind, due)
  {
    hide ReadText, ReadValue;
    var key := ReadText(buf, pos);
    if !key.Got? { return key.PropagateFailure(); }
    var value := ReadValueAt(buf, key.next, kind);
    if !value.Got? { return value.PropagateFailure(); }
    r := Got(Keep(Record(key.value, value.value, due)), value.next);
  }

  /** The arms of the loop of `load_from_file`. */
  method ReadTurnAt(buf: bytes, pos: nat) returns (r: Read<Turn>)
    requires pos < |buf|
    ensures r == ReadTurn(buf, pos)
  {
    hide ReadText, ReadLength, ReadPair, LittleValue;
    var opcode, start := buf[pos], pos + 1;
    if opcode == OP_EOF { return Got(Stop, start); }
    if opcode == OP_SELECT_DB {
      var db := ReadLength(buf, start);
      return if db.Got? then Got(Skip, db.next) else db.PropagateFailure();
    }
    if opcode == OP_RESIZE_DB {
      var keys := ReadLength(buf, start);
      if !keys.Got? { return keys.PropagateFailure(); }
      var timed := ReadLength(buf, keys.next);
      return if timed.Got? then Got(Skip, timed.next) else timed.PropagateFailure();
    }
    if opcode == OP_AUX {
      var name := ReadText(buf, start);
      if !name.Got? { return name.PropagateFailure(); }
      var value := ReadText(buf, name.next);
      return if value.Got? then Got(Skip, value.next) else value.PropagateFailure();
    }
    if opcode != OP_EXPIRE_TIME_MS && opcode != OP_EXPIRE_TIME {
      r := ReadPairAt(buf, start, opcode, None);
      return;
    }
    var width := if opcode == OP_EXPIRE_TIME_MS then 8 else 4;
    if start + width > |buf| { return Malformed("Truncated expire time"); }
    if start + width >= |buf| { return Crash; }
    var stamp := LittleValue(buf[start..start + width]);
    var due := if opcode == OP_EXPIRE_TIME_MS then stamp else stamp * 1000;
    r := ReadPairAt(buf, start + width + 1, buf[start + width], Some(due));
  }

  /** One record handed to the store. */
  method LoadRecord(store: Store, r: Record, wall: nat, now: int)
    modifies store
    ensures (store.data, store.expirations) == LoadOne(old((store.data, store.expirations)), r, wall, now)
  {
    if r.due.None? {
      store.Restore(r.key, r.value);
    } else if wall < r.due.value {
      store.SetWithTtl(r.key, r.value, r.due.value - wall, now);
    }
  }

  const BAD_MAGIC: bytes := "Invalid RDB magic number"

  /** `load_from_file`: what precedes an error has been loaded. */
  method LoadFromFile(store: Store, buf: bytes, wall: nat, now: int) returns (ending: Ending)
    modifies store
    ensures var before := old((store.data, store.expirations));
      if |buf| < 9 || buf[..5] != MAGIC then ending == Failed(BAD_MAGIC) && (store.data, store.expirations) == before
      else (ending == Scan(buf, 9).ending
            && (store.data, store.expirations) == LoadAll(before, Scan(buf, 9).records, wall, now))
  {
    hide ReadTurn, LoadOne;
    if |buf| < 9 || buf[..5] != MAGIC { return Failed(BAD_MAGIC); }
    ghost var before := (store.data, store.expirations);
    ghost var whole, taken := Scan(buf, 9), [];
    var pos := 9;
    BeforeNone(whole);
    while pos < |buf|
      invariant whole == Before(taken, Scan(buf, pos))
      invariant (store.data, store.expirations) == LoadAll(before, taken, wall, now)
      decreases |buf| - pos
    {
      var turn := ReadTurnAt(buf, pos);
      BeforeBefore(taken, Scan(buf, pos));
      match turn {
        case Malformed(text) => return Failed(text);
        case Crash => return Crashed;
        case Got(Stop, _) => return Finished;
        case Got(Skip, next) => pos := next;
        case Got(Keep(record), next) =>
          BeforeSnoc(taken, record, Scan(buf, next));
          assert (taken + [record])[..|taken|] == taken;
          LoadRecord(store, record, wall, now);
          taken := taken + [record];
          pos := next;
      }
    }
    BeforeBefore(taken, Scan(buf, pos));
    ending := Finished;
  }

  lemma BeforeNone(s: Scanned)
    ensures Before([], s) == s
  {
    assert [] + s.records == s.records;
  }

  lemma BeforeBefore(taken: seq<Record>, s: Scanned)
    ensures s.records == [] ==> Before(taken, s) == Scanned(taken, s.ending)
  {
  }

  lemma BeforeSnoc(taken: seq<Record>, r: Record, s: Scanned)
    ensures Before(taken, Before([r], s)) == Before(taken + [r], s)
  {
    assert taken + ([r] + s.records) == taken + [r] + s.records;
  }

  /** Save, restart and load, end to end: the loaded store shows exactly the keys that were
      live at the save and whose absolute deadline is still ahead. */
  method SaveAndLoad(store: Store, at: int, t: Times) returns (file: OutFile, recovered: Store, ending: Ending)
    requires store.Valid() && at <= t.now && t.wall < TWO_TO_64 && t.wall <= t.wall'
    requires Within(store.Live(t.now), t.now)
    modifies store
    ensures var v := old(store.Live(t.now));
      Fits(file.contents) ==>
        (ending == Finished && recovered.Valid() && recovered.Live(t.now') == Restored(v, v.Keys, t))
  {
    hide Within, GoodOrders, Restored, FileBytes, Scan, LoadAll, MAGIC, AliveAt;
    file := new OutFile();
    recovered := new Store();
    ghost var v := store.Live(t.now);
    ghost var keys, orders, held, timed;
    keys, orders, held, timed := SaveToFile(store, file, at, t.now, t.wall);
    SoundAndAlive(store.data, store.expirations, t.now);
    hide Consistent, LiveView, SoundView, Saved;
    OrdersIn(v, keys, orders);
    FileBegins(t.wall, held, timed, Saved(v, t.now, t.wall, keys, orders));
    ending := LoadFromFile(recovered, file.contents, t.wall', t.now');
    if Fits(file.contents) {
      SnapshotRestores(v, keys, orders, held, timed, t);
    }
  }

  lemma FileBegins(wall: nat, keys: nat, timed: nat, ws: seq<Written>)
    ensures |FileBytes(wall, keys, timed, ws)| >= 9 && FileBytes(wall, keys, timed, ws)[..5] == MAGIC
  {
    FileStart(HeaderBytes(wall) + (SizesBytes(keys, timed) + (RecordsBytes(ws) + TRAILER)));
  }

  lemma AllAlive(v: View, now: int)
    requires Prune(v, now) == v
    ensures forall k :: k in v ==> AliveAt(v[k], now)
  {
    assert forall k :: k in Prune(v, now) ==> AliveAt(v[k], now);
  }

  lemma SoundAndAlive(data: Data, expirations: Expirations, now: int)
    requires Consistent(data, expirations)
    ensures var v := LiveView(data, expirations, now); SoundView(v) && forall k :: k in v ==> AliveAt(v[k], now)
  {
    LiveViewIsSound(data, expirations, now);
    AllAlive(LiveView(data, expirations, now), now);
  }
}
