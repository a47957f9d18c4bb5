/** The command handlers over the store. Each is proved against the reference: the view it
    leaves and the reply it gives are those of the command. */
module Handlers {
  import opened Bytes
  import opened Decimal
  import opened Resp
  import opened Commands
  import opened Values
  import opened Enumerations
  import opened Windows
  import opened Semantics
  import opened Stores

  lemma WriteTwice(v: View, k: bytes, x: StoredValue, y: StoredValue)
    ensures Write(Write(v, k, x), k, y) == Write(v, k, y)
    ensures k in Write(v, k, x) && Write(v, k, x)[k].value == x
  {
  }

  /** `ensure_type`. */
  method EnsureType(store: Store, key: bytes, kind: Kind, now: int) returns (wrong: bool)
    requires store.Valid()
    modifies store
    ensures store.Valid() && store.Live(now) == old(store.Live(now))
    ensures wrong == Mistyped(store.Live(now), key, kind)
  {
    var found := store.Lookup(key, now);
    wrong := found.Some? && KindOf(found.value) != kind;
  }

  // ------------------------------------------------------------ handlers with loops

  /** Pushes from the last value to the first, so the values end up in argument order. */
  method PushFront(store: Store, key: bytes, vals: seq<bytes>, now: int) returns (len: nat)
    requires store.Valid() && vals != [] && !Mistyped(store.Live(now), key, ListKind)
    modifies store
    ensures store.Valid()
    ensures store.Live(now) == Write(old(store.Live(now)), key, List(vals + ListAt(old(store.Live(now)), key)))
    ensures len == |vals| + |ListAt(old(store.Live(now)), key)|
  {
    ghost var v := store.Live(now);
    ghost var l := ListAt(v, key);
    len := 0;
    for i := |vals| downto 0
      invariant store.Valid()
      invariant i == |vals| ==> store.Live(now) == v
      invariant i < |vals| ==> store.Live(now) == Write(v, key, List(vals[i..] + l)) && len == |vals| - i + |l|
    {
      WriteTwice(v, key, List(vals[i + 1..] + l), List(vals[i..] + l));
      assert vals[i..] + l == [vals[i]] + (vals[i + 1..] + l);
      if i + 1 == |vals| { assert vals[i + 1..] + l == l; }
      len := store.LPush(key, vals[i], now);
    }
    assert vals[0..] == vals;
  }

  method PushBack(store: Store, key: bytes, vals: seq<bytes>, now: int) returns (len: nat)
    requires store.Valid() && vals != [] && !Mistyped(store.Live(now), key, ListKind)
    modifies store
    ensures store.Valid()
    ensures store.Live(now) == Write(old(store.Live(now)), key, List(ListAt(old(store.Live(now)), key) + vals))
    ensures len == |ListAt(old(store.Live(now)), key)| + |vals|
  {
    ghost var v := store.Live(now);
    ghost var l := ListAt(v, key);
    len := 0;
    for i := 0 to |vals|
      invariant store.Valid()
      invariant i == 0 ==> store.Live(now) == v
      invariant i > 0 ==> store.Live(now) == Write(v, key, List(l + vals[..i])) && len == |l| + i
    {
      WriteTwice(v, key, List(l + vals[..i]), List(l + vals[..i + 1]));
      assert l + vals[..i + 1] == l + vals[..i] + [vals[i]];
      if i == 0 { assert l + vals[..i] == l; }
      len := store.RPush(key, vals[i], now);
    }
    assert vals[..|vals|] == vals;
  }

  method HandleLPush(store: Store, key: bytes, vals: seq<bytes>, now: int) returns (r: Value)
    requires store.Valid()
    modifies store
    ensures store.Valid() && store.Live(now) == Next(old(store.Live(now)), LPush(key, vals), now)
    ensures r == ReplyOf(old(store.Live(now)), LPush(key, vals), now)
  {
    hide Next, ReplyOf;
    ListMeaning(store.Live(now), LPush(key, vals), now);
    hide LiveView, Consistent, AsI64, Mistyped, ListAt, Write;
    var wrong := EnsureType(store, key, ListKind, now);
    if wrong { return WRONG_TYPE; }
    if vals == [] { return Count(0); }
    var len := PushFront(store, key, vals, now);
    r := Count(len);
  }

  method HandleRPush(store: Store, key: bytes, vals: seq<bytes>, now: int) returns (r: Value)
    requires store.Valid()
    modifies store
    ensures store.Valid() && store.Live(now) == Next(old(store.Live(now)), RPush(key, vals), now)
    ensures r == ReplyOf(old(store.Live(now)), RPush(key, vals), now)
  {
    hide Next, ReplyOf;
    ListMeaning(store.Live(now), RPush(key, vals), now);
    hide LiveView, Consistent, AsI64, Mistyped, ListAt, Write;
    var wrong := EnsureType(store, key, ListKind, now);
    if wrong { return WRONG_TYPE; }
    if vals == [] { return Count(0); }
    var len := PushBack(store, key, vals, now);
    r := Count(len);
  }

  lemma {:induction false} LastWinsNext(pairs: seq<(bytes, bytes)>, i: nat)
    requires i < |pairs|
    ensures LastWins(pairs[..i + 1]) == LastWins(pairs[..i])[pairs[i].0 := pairs[i].1]
    decreases i
  {
    var short, long := pairs[..i], pairs[..i + 1];
    if i > 0 {
      LastWinsNext(pairs[1..], i - 1);
      assert long[1..] == pairs[1..][..i] && short[1..] == pairs[1..][..i - 1];
      var m := LastWins(short[1..]);
      assert LastWins(long[1..]) == m[pairs[i].0 := pairs[i].1];
      OverrideNext(map[pairs[0].0 := pairs[0].1], m, pairs[i].0, pairs[i].1);
    } else {
      assert long[1..] == [];
    }
  }

  lemma {:induction false} LastScoresNext(pairs: seq<(int, bytes)>, i: nat)
    requires i < |pairs|
    ensures LastScores(pairs[..i + 1]) == LastScores(pairs[..i])[pairs[i].1 := pairs[i].0]
    decreases i
  {
    var short, long := pairs[..i], pairs[..i + 1];
    if i > 0 {
      LastScoresNext(pairs[1..], i - 1);
      assert long[1..] == pairs[1..][..i] && short[1..] == pairs[1..][..i - 1];
      var m := LastScores(short[1..]);
      assert LastScores(long[1..]) == m[pairs[i].1 := pairs[i].0];
      OverrideNext(map[pairs[0].1 := pairs[0].0], m, pairs[i].1, pairs[i].0);
    } else {
      assert long[1..] == [];
    }
  }

  function Untimed(texts: map<bytes, bytes>): View { map k | k in texts :: Entry(Str(texts[k]), None) }

  method HandleMSet(store: Store, entries: seq<(bytes, bytes)>, now: int) returns (r: Value)
    requires store.Valid()
    modifies store
    ensures store.Valid() && store.Live(now) == Next(old(store.Live(now)), MSet(entries), now)
    ensures r == ReplyOf(old(store.Live(now)), MSet(entries), now)
  {
    hide Next, ReplyOf;
    KeyMeaning(store.Live(now), MSet(entries), now);
    hide LastWins, LiveView, Consistent, Untimed;
    ghost var v := store.Live(now);
    NoneUntimed(v);
    assert entries[..0] == [];
    for i := 0 to |entries|
      invariant store.Valid()
      invariant store.Live(now) == v + Untimed(LastWins(entries[..i]))
    {
      LastWinsNext(entries, i);
      MSetNext(v, LastWins(entries[..i]), entries[i].0, entries[i].1);
      store.Set(entries[i].0, entries[i].1, None, now);
    }
    assert entries[..|entries|] == entries;
    MSetDone(v, entries, now);
    r := OK;
  }

  lemma NoneUntimed(v: View)
    ensures LastWins([]) == map[] && v + Untimed(map[]) == v
  {
  }

  lemma MSetDone(v: View, entries: seq<(bytes, bytes)>, now: int)
    ensures Next(v, MSet(entries), now) == v + Untimed(LastWins(entries))
    ensures ReplyOf(v, MSet(entries), now) == OK
  {
    hide Next, ReplyOf;
    KeyMeaning(v, MSet(entries), now);
    hide LastWins;
  }

  lemma MSetNext(v: View, texts: map<bytes, bytes>, k: bytes, x: bytes)
    ensures v + Untimed(texts[k := x]) == (v + Untimed(texts))[k := Entry(Str(x), None)]
  {
  }

  lemma OverrideNext<T>(h: map<bytes, T>, done: map<bytes, T>, k: bytes, x: T)
    ensures h + done[k := x] == (h + done)[k := x]
    ensures done == map[] ==> h + done == h
  {
  }

  lemma OverrideCount<T>(h: map<bytes, T>, done: map<bytes, T>, k: bytes, x: T)
    ensures |done[k := x].Keys - h.Keys| == |done.Keys - h.Keys| + if k !in h.Keys + done.Keys then 1 else 0
  {
    assert done[k := x].Keys == done.Keys + {k};
    AddNext(h.Keys, done.Keys, k);
  }

  lemma WriteHash(v: View, k: bytes, a: map<bytes, bytes>, b: map<bytes, bytes>)
    ensures Write(Write(v, k, Hash(a)), k, Hash(b)) == Write(v, k, Hash(b))
    ensures FieldsAt(Write(v, k, Hash(a)), k) == a && !Mistyped(Write(v, k, Hash(a)), k, HashKind)
  {
  }

  /** The view after some fields of one HSET were written. */
  ghost predicate FieldsWritten(now: View, v: View, key: bytes, done: map<bytes, bytes>, some: bool)
  {
    now == if some then Write(v, key, Hash(FieldsAt(v, key) + done)) else v
  }

  method SetField(store: Store, key: bytes, field: bytes, value: bytes, ghost v: View, ghost done: map<bytes, bytes>,
                  ghost more: map<bytes, bytes>, ghost some: bool, now: int)
    returns (isNew: bool)
    requires store.Valid() && !Mistyped(v, key, HashKind)
    requires FieldsWritten(store.Live(now), v, key, done, some) && (!some ==> done == map[])
    requires more == done[field := value]
    modifies store
    ensures store.Valid() && FieldsWritten(store.Live(now), v, key, more, true)
    ensures isNew == (field !in FieldsAt(v, key).Keys + done.Keys)
  {
    ghost var h := FieldsAt(v, key);
    OverrideNext(h, done, field, value);
    WriteHash(v, key, h + done, (h + done)[field := value]);
    hide LiveView, Consistent, AsI64;
    isNew := store.HSet(key, field, value, now);
  }

  /** The loop of HSET over fields. */
  method SetFields(store: Store, key: bytes, entries: seq<(bytes, bytes)>, now: int) returns (added: nat)
    requires store.Valid() && !Mistyped(store.Live(now), key, HashKind)
    modifies store
    ensures store.Valid()
    ensures FieldsWritten(store.Live(now), old(store.Live(now)), key, LastWins(entries), entries != [])
    ensures added == |LastWins(entries).Keys - FieldsAt(old(store.Live(now)), key).Keys|
  {
    ghost var v := store.Live(now);
    hide FieldsWritten, FieldsAt, Mistyped, LiveView, Consistent, LastWins;
    added := 0;
    NoneWritten(v, key);
    ghost var done: map<bytes, bytes> := map[];
    assert entries[..0] == [];
    for i := 0 to |entries|
      invariant store.Valid() && done == LastWins(entries[..i]) && (i == 0 ==> done == map[])
      invariant FieldsWritten(store.Live(now), v, key, done, i > 0)
      invariant added == |done.Keys - FieldsAt(v, key).Keys|
    {
      FieldsNext(entries, i, FieldsAt(v, key));
      ghost var more := LastWins(entries[..i + 1]);
      var isNew := SetField(store, key, entries[i].0, entries[i].1, v, done, more, i > 0, now);
      if isNew { added := added + 1; }
      done := more;
    }
    assert entries[..|entries|] == entries;
  }

  lemma FieldsNext(entries: seq<(bytes, bytes)>, i: nat, h: map<bytes, bytes>)
    requires i < |entries|
    ensures var done, more := LastWins(entries[..i]), LastWins(entries[..i + 1]);
      && more == done[entries[i].0 := entries[i].1]
      && |more.Keys - h.Keys| == |done.Keys - h.Keys| + if entries[i].0 !in h.Keys + done.Keys then 1 else 0
  {
    LastWinsNext(entries, i);
    OverrideCount(h, LastWins(entries[..i]), entries[i].0, entries[i].1);
  }

  lemma ScoresNext(scored: seq<(int, bytes)>, i: nat, z: map<bytes, int>)
    requires i < |scored|
    ensures var done, more := LastScores(scored[..i]), LastScores(scored[..i + 1]);
      && more == done[scored[i].1 := scored[i].0]
      && |more.Keys - z.Keys| == |done.Keys - z.Keys| + if scored[i].1 !in z.Keys + done.Keys then 1 else 0
  {
    LastScoresNext(scored, i);
    OverrideCount(z, LastScores(scored[..i]), scored[i].1, scored[i].0);
  }

  lemma NoneWritten(v: View, key: bytes)
    ensures FieldsWritten(v, v, key, map[], false) && ScoresWritten(v, v, key, map[], false)
    ensures LastWins([]) == map[] && LastScores([]) == map[]
  {
  }

  method HandleHSet(store: Store, key: bytes, entries: seq<(bytes, bytes)>, now: int) returns (r: Value)
    requires store.Valid()
    modifies store
    ensures store.Valid() && store.Live(now) == Next(old(store.Live(now)), HSet(key, entries), now)
    ensures r == ReplyOf(old(store.Live(now)), HSet(key, entries), now)
  {
    hide Next, ReplyOf;
    HashMeaning(store.Live(now), HSet(key, entries), now);
    hide LastWins, LiveView, Consistent;
    var wrong := EnsureType(store, key, HashKind, now);
    if wrong { return WRONG_TYPE; }
    var added := SetFields(store, key, entries, now);
    r := Count(added);
  }

  lemma WriteRanked(v: View, k: bytes, a: map<bytes, int>, b: map<bytes, int>)
    ensures Write(Write(v, k, Ranked(a)), k, Ranked(b)) == Write(v, k, Ranked(b))
    ensures ScoresAt(Write(v, k, Ranked(a)), k) == a && !Mistyped(Write(v, k, Ranked(a)), k, ZsetKind)
  {
  }

  /** The view after some members of one ZADD were scored. */
  ghost predicate ScoresWritten(now: View, v: View, key: bytes, done: map<bytes, int>, some: bool)
  {
    now == if some then Write(v, key, Ranked(ScoresAt(v, key) + done)) else v
  }

  method SetScore(store: Store, key: bytes, score: int, member: bytes, ghost v: View, ghost done: map<bytes, int>,
                  ghost more: map<bytes, int>, ghost some: bool, now: int)
    returns (isNew: bool)
    requires store.Valid() && !Mistyped(v, key, ZsetKind)
    requires ScoresWritten(store.Live(now), v, key, done, some) && (!some ==> done == map[])
    requires more == done[member := score]
    modifies store
    ensures store.Valid() && ScoresWritten(store.Live(now), v, key, more, true)
    ensures isNew == (member !in ScoresAt(v, key).Keys + done.Keys)
  {
    ghost var z := ScoresAt(v, key);
    OverrideNext(z, done, member, score);
    WriteRanked(v, key, z + done, (z + done)[member := score]);
    hide LiveView, Consistent, Ranked;
    isNew := store.ZAdd(key, score, member, now);
  }

  /** The loop of ZADD over scored members. */
  method SetScores(store: Store, key: bytes, scored: seq<(int, bytes)>, now: int) returns (changed: nat)
    requires store.Valid() && !Mistyped(store.Live(now), key, ZsetKind)
    modifies store
    ensures store.Valid()
    ensures ScoresWritten(store.Live(now), old(store.Live(now)), key, LastScores(scored), scored != [])
    ensures changed == |LastScores(scored).Keys - ScoresAt(old(store.Live(now)), key).Keys|
  {
    ghost var v := store.Live(now);
    hide ScoresWritten, ScoresAt, Mistyped, LiveView, Consistent, LastScores;
    changed := 0;
    NoneWritten(v, key);
    ghost var done: map<bytes, int> := map[];
    assert scored[..0] == [];
    for i := 0 to |scored|
      invariant store.Valid() && done == LastScores(scored[..i]) && (i == 0 ==> done == map[])
      invariant ScoresWritten(store.Live(now), v, key, done, i > 0)
      invariant changed == |done.Keys - ScoresAt(v, key).Keys|
    {
      ScoresNext(scored, i, ScoresAt(v, key));
      ghost var more := LastScores(scored[..i + 1]);
      var isNew := SetScore(store, key, scored[i].0, scored[i].1, v, done, more, i > 0, now);
      if isNew { changed := changed + 1; }
      done := more;
    }
    assert scored[..|scored|] == scored;
  }

  method HandleZAdd(store: Store, key: bytes, scored: seq<(int, bytes)>, now: int) returns (r: Value)
    requires store.Valid()
    modifies store
    ensures store.Valid() && store.Live(now) == Next(old(store.Live(now)), ZAdd(key, scored), now)
    ensures r == ReplyOf(old(store.Live(now)), ZAdd(key, scored), now)
  {
    hide Next, ReplyOf;
    SortedSetMeaning(store.Live(now), ZAdd(key, scored), now);
    hide LastScores, Ranked;
    hide LiveView, Consistent, AsI64;
    var wrong := EnsureType(store, key, ZsetKind, now);
    if wrong { return WRONG_TYPE; }
    var changed := SetScores(store, key, scored, now);
    r := Count(changed);
  }

  method HandleExists(store: Store, keys: seq<bytes>, now: int) returns (r: Value)
    requires store.Valid()
    modifies store
    ensures store.Valid() && store.Live(now) == old(store.Live(now))
    ensures r == ReplyOf(old(store.Live(now)), Exists(keys), now)
  {
    hide Next, ReplyOf;
    KeyMeaning(store.Live(now), Exists(keys), now);
    ghost var v := store.Live(now);
    var count := 0;
    for i := 0 to |keys|
      invariant store.Valid() && store.Live(now) == v
      invariant count + Present(keys[i..], v.Keys) == Present(keys, v.Keys)
    {
      var there := store.Exists(keys[i], now);
      assert keys[i..][1..] == keys[i + 1..];
      if there { count := count + 1; }
    }
    r := Count(count);
  }

  method HandleMGet(store: Store, keys: seq<bytes>, now: int) returns (r: Value)
    requires store.Valid()
    modifies store
    ensures store.Valid() && store.Live(now) == old(store.Live(now))
    ensures r == ReplyOf(old(store.Live(now)), MGet(keys), now)
  {
    hide Next, ReplyOf;
    KeyMeaning(store.Live(now), MGet(keys), now);
    ghost var v := store.Live(now);
    var values: seq<Value> := [];
    for i := 0 to |keys|
      invariant store.Valid() && store.Live(now) == v && |values| == i
      invariant forall j :: 0 <= j < i ==> values[j] == BulkOrNil(TextAt(v, keys[j]))
    {
      var found := store.Lookup(keys[i], now);
      values := values + [BulkOrNil(if found.Some? && found.value.Str? then Some(found.value.text) else None)];
    }
    assert values == seq(|keys|, i requires 0 <= i < |keys| => BulkOrNil(TextAt(v, keys[i])));
    r := Array(values);
  }

  // ------------------------------------------------------- handlers of one store call

  method HandleSet(store: Store, key: bytes, value: bytes, px: Option<u64>, condition: Condition, now: int)
    returns (r: Value)
    requires store.Valid()
    modifies store
    ensures store.Valid() && store.Live(now) == Next(old(store.Live(now)), Command.Set(key, value, px, condition), now)
    ensures r == ReplyOf(old(store.Live(now)), Command.Set(key, value, px, condition), now)
  {
    hide Next, ReplyOf;
    KeyMeaning(store.Live(now), Command.Set(key, value, px, condition), now);
    var exists_ := store.Exists(key, now);
    if (condition == Nx && exists_) || (condition == Xx && !exists_) { return Null; }
    store.Set(key, value, if px.Some? then Some(px.value) else None, now);
    r := OK;
  }

  method HandleAdjust(store: Store, c: Command, now: int) returns (r: Value)
    requires store.Valid() && (c.Incr? || c.Decr?)
    modifies store
    ensures store.Valid() && store.Live(now) == Next(old(store.Live(now)), c, now)
    ensures r == ReplyOf(old(store.Live(now)), c, now)
  {
    hide Next, ReplyOf;
    KeyMeaning(store.Live(now), c, now);
    var outcome := store.AdjustCounter(c.key, if c.Incr? then 1 else -1, now);
    match outcome {
      case Ok(n) => r := Integer(n);
      case Err(e) => r := Error(e);
    }
  }

  method HandleAppend(store: Store, key: bytes, value: bytes, now: int) returns (r: Value)
    requires store.Valid()
    modifies store
    ensures store.Valid() && store.Live(now) == Next(old(store.Live(now)), Append(key, value), now)
    ensures r == ReplyOf(old(store.Live(now)), Append(key, value), now)
  {
    hide Next, ReplyOf;
    KeyMeaning(store.Live(now), Append(key, value), now);
    hide LiveView, Consistent, AsI64, Mistyped, Write;
    var wrong := EnsureType(store, key, StringKind, now);
    if wrong { return WRONG_TYPE; }
    var len := store.Append(key, value, now);
    r := Count(len);
  }

  method HandleExpire(store: Store, key: bytes, ms: u64, now: int) returns (r: Value)
    requires store.Valid()
    modifies store
    ensures store.Valid() && store.Live(now) == Next(old(store.Live(now)), Expire(key, ms), now)
    ensures r == ReplyOf(old(store.Live(now)), Expire(key, ms), now)
  {
    hide Next, ReplyOf;
    KeyMeaning(store.Live(now), Expire(key, ms), now);
    var done := store.Expire(key, ms, now);
    r := IntBool(done);
  }

  /** DEL: the state is that of the reference; the count is that of the named keys still held,
      expired or not. */
  method HandleDel(store: Store, keys: seq<bytes>, now: int) returns (r: Value)
    requires store.Valid()
    modifies store
    ensures store.Valid() && store.Live(now) == Next(old(store.Live(now)), Del(keys), now)
    ensures Answers(old(store.Live(now)), Del(keys), now, Replied(r))
    ensures r == Count(|old(store.data).Keys * SetOf(keys)|)
  {
    hide Next, ReplyOf;
    KeyMeaning(store.Live(now), Del(keys), now);
    DelCountExactly(store.data, store.expirations, keys, now);
    var count := store.Del(keys, now);
    r := Count(count);
  }

  method HandleLPop(store: Store, key: bytes, now: int) returns (r: Value)
    requires store.Valid()
    modifies store
    ensures store.Valid() && store.Live(now) == Next(old(store.Live(now)), LPop(key), now)
    ensures r == ReplyOf(old(store.Live(now)), LPop(key), now)
  {
    hide Next, ReplyOf;
    ListMeaning(store.Live(now), LPop(key), now);
    hide LiveView, Consistent, AsI64;
    var wrong := EnsureType(store, key, ListKind, now);
    if wrong { return WRONG_TYPE; }
    var x := store.LPop(key, now);
    r := BulkOrNil(x);
  }

  method HandleRPop(store: Store, key: bytes, now: int) returns (r: Value)
    requires store.Valid()
    modifies store
    ensures store.Valid() && store.Live(now) == Next(old(store.Live(now)), RPop(key), now)
    ensures r == ReplyOf(old(store.Live(now)), RPop(key), now)
  {
    hide Next, ReplyOf;
    ListMeaning(store.Live(now), RPop(key), now);
    hide LiveView, Consistent, AsI64;
    var wrong := EnsureType(store, key, ListKind, now);
    if wrong { return WRONG_TYPE; }
    var x := store.RPop(key, now);
    r := BulkOrNil(x);
  }

  /** What there is of a kind at a key that holds another. */
  lemma MistypedHasNone(v: View, k: bytes)
    ensures Mistyped(v, k, SetKind) ==> MembersAt(v, k) == {}
    ensures Mistyped(v, k, HashKind) ==> FieldsAt(v, k) == map[]
    ensures Mistyped(v, k, ZsetKind) ==> ScoresAt(v, k) == map[]
  {
  }

  method HandleSAdd(store: Store, key: bytes, members: seq<bytes>, now: int) returns (r: Value)
    requires store.Valid() && members != []
    modifies store
    ensures store.Valid() && store.Live(now) == Next(old(store.Live(now)), SAdd(key, members), now)
    ensures r == ReplyOf(old(store.Live(now)), SAdd(key, members), now)
  {
    hide Next, ReplyOf;
    SetMeaning(store.Live(now), SAdd(key, members), now);
    hide LiveView, Consistent, AsI64;
    var wrong := EnsureType(store, key, SetKind, now);
    if wrong { return WRONG_TYPE; }
    var added := store.SAdd(key, members, now);
    r := Count(added);
  }

  lemma SRemLeaves(v: View, k: bytes, xs: seq<bytes>, now: int)
    ensures Next(v, SRem(k, xs), now) ==
      if MembersAt(v, k) == {} then v else Shrink(v, k, StoredValue.Set(MembersAt(v, k) - SetOf(xs)))
  {
    hide Next, ReplyOf;
    SetMeaning(v, SRem(k, xs), now);
    hide SetOf, Ranked, Shrink, AsI64, Mistyped, MembersAt;
  }

  lemma SRemReplies(v: View, k: bytes, xs: seq<bytes>, now: int)
    ensures ReplyOf(v, SRem(k, xs), now) ==
      if Mistyped(v, k, SetKind) then WRONG_TYPE else Count(|SetOf(xs) * MembersAt(v, k)|)
  {
    hide Next, ReplyOf;
    SetMeaning(v, SRem(k, xs), now);
    hide SetOf, Ranked, Shrink, AsI64, Mistyped, MembersAt;
  }

  method HandleSRem(store: Store, key: bytes, members: seq<bytes>, now: int) returns (r: Value)
    requires store.Valid()
    modifies store
    ensures store.Valid() && store.Live(now) == Next(old(store.Live(now)), SRem(key, members), now)
    ensures r == ReplyOf(old(store.Live(now)), SRem(key, members), now)
  {
    hide Next, ReplyOf;
    SetMeaning(store.Live(now), SRem(key, members), now);
    hide SetOf, Ranked, Shrink, LiveView, Consistent, AsI64, Mistyped, MembersAt;
    MistypedHasNone(store.Live(now), key);
    SRemLeaves(store.Live(now), key, members, now);
    SRemReplies(store.Live(now), key, members, now);
    var wrong := EnsureType(store, key, SetKind, now);
    if wrong { return WRONG_TYPE; }
    var removed := store.SRem(key, members, now);
    r := Count(removed);
  }

  lemma HDelLeaves(v: View, k: bytes, xs: seq<bytes>, now: int)
    ensures Next(v, HDel(k, xs), now) ==
      if FieldsAt(v, k) == map[] then v else Shrink(v, k, Hash(FieldsAt(v, k) - SetOf(xs)))
  {
    hide Next, ReplyOf;
    HashMeaning(v, HDel(k, xs), now);
    hide SetOf, Ranked, Shrink, AsI64, Mistyped, FieldsAt;
  }

  lemma HDelReplies(v: View, k: bytes, xs: seq<bytes>, now: int)
    ensures ReplyOf(v, HDel(k, xs), now) ==
      if Mistyped(v, k, HashKind) then WRONG_TYPE else Count(|SetOf(xs) * FieldsAt(v, k).Keys|)
  {
    hide Next, ReplyOf;
    HashMeaning(v, HDel(k, xs), now);
    hide SetOf, Ranked, Shrink, AsI64, Mistyped, FieldsAt;
  }

  method HandleHDel(store: Store, key: bytes, fields: seq<bytes>, now: int) returns (r: Value)
    requires store.Valid()
    modifies store
    ensures store.Valid() && store.Live(now) == Next(old(store.Live(now)), HDel(key, fields), now)
    ensures r == ReplyOf(old(store.Live(now)), HDel(key, fields), now)
  {
    hide Next, ReplyOf;
    HashMeaning(store.Live(now), HDel(key, fields), now);
    hide SetOf, Ranked, Shrink, LiveView, Consistent, AsI64, Mistyped, FieldsAt;
    MistypedHasNone(store.Live(now), key);
    HDelLeaves(store.Live(now), key, fields, now);
    HDelReplies(store.Live(now), key, fields, now);
    var wrong := EnsureType(store, key, HashKind, now);
    if wrong { return WRONG_TYPE; }
    var removed := store.HDel(key, fields, now);
    r := Count(removed);
  }

  lemma ZRemLeaves(v: View, k: bytes, xs: seq<bytes>, now: int)
    ensures Next(v, ZRem(k, xs), now) ==
      if ScoresAt(v, k) == map[] then v else Shrink(v, k, Ranked(ScoresAt(v, k) - SetOf(xs)))
  {
    hide Next, ReplyOf;
    SortedSetMeaning(v, ZRem(k, xs), now);
    hide SetOf, Ranked, Shrink, AsI64, Mistyped, ScoresAt;
  }

  lemma ZRemReplies(v: View, k: bytes, xs: seq<bytes>, now: int)
    ensures ReplyOf(v, ZRem(k, xs), now) ==
      if Mistyped(v, k, ZsetKind) then WRONG_TYPE else Count(|SetOf(xs) * ScoresAt(v, k).Keys|)
  {
    hide Next, ReplyOf;
    SortedSetMeaning(v, ZRem(k, xs), now);
    hide SetOf, Ranked, Shrink, AsI64, Mistyped, ScoresAt;
  }

  method HandleZRem(store: Store, key: bytes, members: seq<bytes>, now: int) returns (r: Value)
    requires store.Valid()
    modifies store
    ensures store.Valid() && store.Live(now) == Next(old(store.Live(now)), ZRem(key, members), now)
    ensures r == ReplyOf(old(store.Live(now)), ZRem(key, members), now)
  {
    hide Next, ReplyOf;
    SortedSetMeaning(store.Live(now), ZRem(key, members), now);
    hide SetOf, Ranked, Shrink, LiveView, Consistent, AsI64, Mistyped, ScoresAt;
    MistypedHasNone(store.Live(now), key);
    ZRemLeaves(store.Live(now), key, members, now);
    ZRemReplies(store.Live(now), key, members, now);
    var wrong := EnsureType(store, key, ZsetKind, now);
    if wrong { return WRONG_TYPE; }
    var removed := store.ZRem(key, members, now);
    r := Count(removed);
  }

  method HandleSPop(store: Store, key: bytes, count: Option<u64>, now: int) returns (r: Value)
    requires store.Valid()
    modifies store
    ensures store.Valid() && StepsSPop(old(store.Live(now)), SPop(key, count), store.Live(now), Replied(r))
  {
    hide LiveView, Consistent, AsI64;
    var wrong := EnsureType(store, key, SetKind, now);
    if wrong { return WRONG_TYPE; }
    var popped := store.SPop(key, if count.Some? then count.value else 1, now);
    r := if count.Some? then BulkArray(popped)
      else BulkOrNil(if popped == [] then None else Some(popped[|popped| - 1]));
  }

  method HandleKeys(store: Store, pattern: bytes, now: int) returns (r: Value)
    requires store.Valid()
    modifies store
    ensures store.Valid() && store.Live(now) == old(store.Live(now))
    ensures Answers(old(store.Live(now)), Keys(pattern), now, Replied(r))
  {
    if pattern != "*" { return BAD_PATTERN; }
    var any := store.Keys(now);
    LexIsTotalOrder();
    var q := Sort(LexLe, any);
    r := BulkArray(q);
  }

  method HandleTime(store: Store, c: Command, now: int) returns (r: Value)
    requires store.Valid() && (c.Ttl? || c.Pttl?)
    modifies store
    ensures store.Valid() && store.Live(now) == old(store.Live(now))
    ensures r == ReplyOf(old(store.Live(now)), c, now)
  {
    hide Next, ReplyOf;
    KeyMeaning(store.Live(now), c, now);
    var n;
    if c.Ttl? { n := store.Ttl(c.key, now); } else { n := store.Pttl(c.key, now); }
    r := Integer(n);
  }

  /** LRANGE replies with the reference slice, or panics where the slice bounds wrap. */
  method HandleLRange(store: Store, key: bytes, start: i64, stop: i64, now: int) returns (r: Reply)
    requires store.Valid()
    modifies store
    ensures store.Valid() && store.Live(now) == old(store.Live(now))
    ensures AnswersRange(old(store.Live(now)), LRange(key, start, stop), r)
  {
    hide LiveView, Consistent, AsI64;
    var wrong := EnsureType(store, key, ListKind, now);
    if wrong { return Replied(WRONG_TYPE); }
    var q := store.LRange(key, start, stop, now);
    ListWindowExactly(ListAt(store.Live(now), key), start, stop);
    r := if q.Some? then Replied(BulkArray(q.value)) else Panicked;
  }

  method HandleLIndex(store: Store, key: bytes, index: i64, now: int) returns (r: Value)
    requires store.Valid()
    modifies store
    ensures store.Valid() && store.Live(now) == old(store.Live(now))
    ensures r == ReplyOf(old(store.Live(now)), LIndex(key, index), now)
  {
    hide Next, ReplyOf;
    ListMeaning(store.Live(now), LIndex(key, index), now);
    hide LiveView, Consistent, AsI64;
    var wrong := EnsureType(store, key, ListKind, now);
    if wrong { return WRONG_TYPE; }
    var x := store.LIndex(key, index, now);
    ListIndexExactly(ListAt(store.Live(now), key), index);
    r := BulkOrNil(x);
  }

  method HandleZCount(store: Store, key: bytes, min: int, max: int, now: int) returns (r: Reply)
    requires store.Valid()
    modifies store
    ensures store.Valid() && store.Live(now) == old(store.Live(now))
    ensures AnswersZCount(old(store.Live(now)), ZCount(key, min, max), r)
  {
    hide LiveView, Consistent, AsI64;
    var wrong := EnsureType(store, key, ZsetKind, now);
    if wrong { return Replied(WRONG_TYPE); }
    var n := store.ZCount(key, min, max, now);
    r := if n.Some? then Replied(Count(n.value)) else Panicked;
  }

  method HandleRanking(store: Store, c: Command, now: int) returns (r: Value)
    requires store.Valid() && (c.ZRange? || c.ZRevRange?)
    modifies store
    ensures store.Valid() && store.Live(now) == old(store.Live(now))
    ensures AnswersRanking(old(store.Live(now)), c, Replied(r))
  {
    hide LiveView, Consistent, AsI64;
    var wrong := EnsureType(store, c.key, ZsetKind, now);
    if wrong { return WRONG_TYPE; }
    var q;
    if c.ZRange? {
      q := store.ZRange(c.key, c.start, c.stop, now);
    } else {
      q := store.ZRevRange(c.key, c.start, c.stop, now);
    }
    r := BulkArray(MembersOf(q));
  }

  method HandleListing(store: Store, c: Command, now: int) returns (r: Value)
    requires store.Valid() && (c.SMembers? || c.HKeys? || c.HVals? || c.HGetAll?)
    modifies store
    ensures store.Valid() && store.Live(now) == old(store.Live(now))
    ensures AnswersListing(old(store.Live(now)), c, Replied(r))
  {
    var found := store.Lookup(c.key, now);
    if c.SMembers? {
      if found.Some? && !found.value.Set? { return WRONG_TYPE; }
      var q := InLexOrder(if found.Some? then found.value.members else {});
      assert BulkArray(q) == BulkArray((q => q)(q));
      r := BulkArray(q);
    } else {
      if found.Some? && !found.value.Hash? { return WRONG_TYPE; }
      var h := if found.Some? then found.value.fields else map[];
      r := ListHash(c, h);
    }
  }

  method ListHash(c: Command, h: map<bytes, bytes>) returns (r: Value)
    requires c.HKeys? || c.HVals? || c.HGetAll?
    ensures c.HKeys? ==> InSomeOrder(h.Keys, false, q => q, Replied(r))
    ensures c.HVals? ==> InSomeOrder(h.Keys, false, q => ValuesAlong(q, h), Replied(r))
    ensures c.HGetAll? ==> InSomeOrder(h.Keys, true, q => PairsAlong(q, h), Replied(r))
  {
    if c.HGetAll? {
      var q := InLexOrder(h.Keys);
      r := BulkArray(PairsAlong(q, h));
    } else {
      var q := Enumerate(h.Keys);
      r := BulkArray(if c.HKeys? then q else ValuesAlong(q, h));
    }
  }

  /** The reads that look one key up and answer from what they find. */
  predicate LooksUpFlat(c: Command)
  {
    c.Get? || c.StrLen? || c.Type? || c.LLen? || c.SIsMember? || c.SCard?
  }

  predicate LooksUpHash(c: Command) { c.HGet? || c.HLen? || c.HExists? }

  predicate LooksUpScores(c: Command) { c.ZScore? || c.ZCard? }

  method HandleFlat(store: Store, c: Command, now: int) returns (r: Value)
    requires store.Valid() && LooksUpFlat(c)
    modifies store
    ensures store.Valid() && store.Live(now) == old(store.Live(now))
    ensures r == ReplyOf(old(store.Live(now)), c, now)
  {
    hide LiveView, Consistent, ReplyOf;
    var found := store.Lookup(c.key, now);
    if c.Get? || c.StrLen? || c.Type? {
      r := AnswerText(c, found, store.Live(now), now);
    } else {
      r := AnswerSize(c, found, store.Live(now), now);
    }
  }

  /** The value found at a key, if any. */
  predicate Finds(v: View, k: bytes, found: Option<StoredValue>)
  {
    found == if k in v then Some(v[k].value) else None
  }

  method AnswerText(c: Command, found: Option<StoredValue>, ghost v: View, ghost now: int) returns (r: Value)
    requires (c.Get? || c.StrLen? || c.Type?) && Finds(v, c.key, found)
    ensures r == ReplyOf(v, c, now)
  {
    hide Next, ReplyOf;
    KeyMeaning(v, c, now);
    hide AsI64;
    if c.Type? { return SimpleString(if found.None? then "none" else KindText(KindOf(found.value))); }
    if found.None? { return if c.Get? then NilBulk else Count(0); }
    var x := found.value;
    r := if !x.Str? then WRONG_TYPE else if c.Get? then BulkString(x.text) else Count(|x.text|);
  }

  method AnswerSize(c: Command, found: Option<StoredValue>, ghost v: View, ghost now: int) returns (r: Value)
    requires (c.LLen? || c.SIsMember? || c.SCard?) && Finds(v, c.key, found)
    ensures r == ReplyOf(v, c, now)
  {
    hide Next, ReplyOf;
    if OnList(c) { ListMeaning(v, c, now); } else { SetMeaning(v, c, now); }
    hide AsI64;
    if found.None? { return if c.SIsMember? then IntBool(false) else Count(0); }
    var x := found.value;
    if c.LLen? {
      r := if x.List? then Count(|x.items|) else WRONG_TYPE;
    } else {
      r := if !x.Set? then WRONG_TYPE
        else if c.SCard? then Count(|x.members|) else IntBool(c.member in x.members);
    }
  }

  method HandleHashRead(store: Store, c: Command, now: int) returns (r: Value)
    requires store.Valid() && LooksUpHash(c)
    modifies store
    ensures store.Valid() && store.Live(now) == old(store.Live(now))
    ensures r == ReplyOf(old(store.Live(now)), c, now)
  {
    hide LiveView, Consistent, ReplyOf;
    var found := store.Lookup(c.key, now);
    r := AnswerHash(c, found, store.Live(now), now);
  }

  method AnswerHash(c: Command, found: Option<StoredValue>, ghost v: View, ghost now: int) returns (r: Value)
    requires LooksUpHash(c) && Finds(v, c.key, found)
    ensures r == ReplyOf(v, c, now)
  {
    hide Next, ReplyOf;
    HashMeaning(v, c, now);
    hide AsI64;
    if found.Some? && !found.value.Hash? { return WRONG_TYPE; }
    var h := if found.Some? then found.value.fields else map[];
    r := if c.HLen? then Count(|h|)
      else if c.HExists? then IntBool(c.field in h)
      else BulkOrNil(if c.field in h then Some(h[c.field]) else None);
  }

  method HandleScoreRead(store: Store, c: Command, now: int) returns (r: Value)
    requires store.Valid() && LooksUpScores(c)
    modifies store
    ensures store.Valid() && store.Live(now) == old(store.Live(now))
    ensures r == ReplyOf(old(store.Live(now)), c, now)
  {
    hide LiveView, Consistent, ReplyOf;
    var found := store.Lookup(c.key, now);
    r := AnswerScore(c, found, store.Live(now), now);
  }

  method AnswerScore(c: Command, found: Option<StoredValue>, ghost v: View, ghost now: int) returns (r: Value)
    requires LooksUpScores(c) && Finds(v, c.key, found)
    ensures r == ReplyOf(v, c, now)
  {
    hide Next, ReplyOf;
    SortedSetMeaning(v, c, now);
    hide AsI64, IntText;
    if found.Some? && !found.value.SortedSet? { return WRONG_TYPE; }
    var z := if found.Some? then found.value.scores else map[];
    r := if c.ZCard? then Count(|z|)
      else BulkOrNil(if c.member in z then Some(IntText(z[c.member])) else None);
  }
}
