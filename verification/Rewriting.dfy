/** The rewrite at work: the store's values turned into commands and written as a new log. */
module Rewriting {
  import opened Bytes
  import opened Decimal
  import opened Resp
  import opened RespStream
  import opened Values
  import opened Enumerations
  import opened Semantics
  import opened Laws
  import opened Stores
  import opened Aof
  import opened Server
  import opened Rewrite

  // ------------------------------------------------------------ one value's command

  lemma BulkStringsSnoc(words: seq<bytes>, w: bytes)
    ensures BulkStrings(words + [w]) == BulkStrings(words) + [BulkString(w)]
  {
  }

  lemma PairSnoc(words: seq<bytes>, done: seq<bytes>, a: bytes, b: bytes)
    ensures BulkStrings(words + (done + [a, b])) == BulkStrings(words + done) + [BulkString(a)] + [BulkString(b)]
  {
    assert words + (done + [a, b]) == words + done + [a] + [b];
    BulkStringsSnoc(words + done, a);
    BulkStringsSnoc(words + done + [a], b);
    hide BulkStrings;
  }

  lemma {:induction false} PairsAlongSnoc(q: seq<bytes>, h: map<bytes, bytes>, f: bytes)
    requires f in h && forall i :: 0 <= i < |q| ==> q[i] in h
    ensures PairsAlong(q + [f], h) == PairsAlong(q, h) + [f, h[f]]
    decreases |q|
  {
    if q == [] {
      assert [f][1..] == [];
      assert PairsAlong([f], h) == [f, h[f]] + PairsAlong([], h);
    } else {
      assert (q + [f])[0] == q[0] && (q + [f])[1..] == q[1..] + [f];
      PairsAlongSnoc(q[1..], h, f);
    }
  }

  lemma {:induction false} ScoresAlongSnoc(q: seq<bytes>, z: map<bytes, int>, m: bytes)
    requires m in z && forall i :: 0 <= i < |q| ==> q[i] in z
    ensures ScoresAlong(q + [m], z) == ScoresAlong(q, z) + [IntText(z[m]), m]
    decreases |q|
  {
    hide IntText;
    if q == [] {
      assert [m][1..] == [];
      assert ScoresAlong([m], z) == [IntText(z[m]), m] + ScoresAlong([], z);
    } else {
      assert (q + [m])[0] == q[0] && (q + [m])[1..] == q[1..] + [m];
      ScoresAlongSnoc(q[1..], z, m);
    }
  }

  /** The command of a list or a set: its name, the key, and the elements one after another. */
  method ListArgs(name: bytes, key: bytes, items: seq<bytes>) returns (args: seq<Value>)
    ensures args == BulkStrings([name, key] + items)
  {
    args := [BulkString(name), BulkString(key)];
    assert [name, key] + items[..0] == [name, key];
    for i := 0 to |items|
      invariant args == BulkStrings([name, key] + items[..i])
    {
      assert [name, key] + items[..i + 1] == [name, key] + items[..i] + [items[i]];
      BulkStringsSnoc([name, key] + items[..i], items[i]);
      args := args + [BulkString(items[i])];
    }
    assert items[..|items|] == items;
  }

  method HashArgs(key: bytes, fields: map<bytes, bytes>, order: seq<bytes>) returns (args: seq<Value>)
    requires forall i :: 0 <= i < |order| ==> order[i] in fields
    ensures args == BulkStrings(["HSET", key] + PairsAlong(order, fields))
  {
    args := [BulkString("HSET"), BulkString(key)];
    assert ["HSET", key] + PairsAlong([], fields) == ["HSET", key];
    for i := 0 to |order|
      invariant args == BulkStrings(["HSET", key] + PairsAlong(order[..i], fields))
    {
      hide PairsAlong, BulkStrings;
      var field := order[i];
      assert order[..i + 1] == order[..i] + [field];
      PairsAlongSnoc(order[..i], fields, field);
      PairSnoc(["HSET", key], PairsAlong(order[..i], fields), field, fields[field]);
      args := args + [BulkString(field)];
      args := args + [BulkString(fields[field])];
    }
    assert order[..|order|] == order;
  }

  method SortedSetArgs(key: bytes, scores: map<bytes, int>, order: seq<bytes>) returns (args: seq<Value>)
    requires forall i :: 0 <= i < |order| ==> order[i] in scores
    ensures args == BulkStrings(["ZADD", key] + ScoresAlong(order, scores))
  {
    args := [BulkString("ZADD"), BulkString(key)];
    assert ["ZADD", key] + ScoresAlong([], scores) == ["ZADD", key];
    for i := 0 to |order|
      invariant args == BulkStrings(["ZADD", key] + ScoresAlong(order[..i], scores))
    {
      hide ScoresAlong, BulkStrings, IntText;
      var member := order[i];
      assert order[..i + 1] == order[..i] + [member];
      ScoresAlongSnoc(order[..i], scores, member);
      PairSnoc(["ZADD", key], ScoresAlong(order[..i], scores), IntText(scores[member]), member);
      args := args + [BulkString(IntText(scores[member]))];
      args := args + [BulkString(member)];
    }
    assert order[..|order|] == order;
  }

  /** The arms of `value_to_commands`; `order` is how the value's hash table happened to iterate. */
  method ValueArgs(key: bytes, x: StoredValue) returns (args: seq<Value>)
    ensures exists order :: OrderFor(x, order) && args == BulkStrings(ValueWords(key, x, order))
  {
    hide BulkStrings, PairsAlong, ScoresAlong;
    ghost var order: seq<bytes> := [];
    match x {
      case Str(text) => args := ListArgs("SET", key, [text]);
      case List(items) => args := ListArgs("RPUSH", key, items);
      case Set(members) =>
        var q := Enumerate(members);
        order := q;
        args := ListArgs("SADD", key, q);
      case Hash(fields) =>
        var q := Enumerate(fields.Keys);
        order := q;
        Covers(q, fields.Keys);
        args := HashArgs(key, fields, q);
      case SortedSet(scores, _) =>
        var q := Enumerate(scores.Keys);
        order := q;
        Covers(q, scores.Keys);
        args := SortedSetArgs(key, scores, q);
    }
    assert OrderFor(x, order) && args == BulkStrings(ValueWords(key, x, order));
  }

  method ValueToCommands(key: bytes, x: StoredValue, ttl: Option<nat>) returns (commands: seq<Value>)
    ensures exists order :: OrderFor(x, order) && commands == Frames(EntryWords(key, x, ttl, order))
  {
    hide BulkStrings, ValueWords, IntText, Frames, OrderFor;
    commands := [];
    var args := ValueArgs(key, x);
    ghost var order :| OrderFor(x, order) && args == BulkStrings(ValueWords(key, x, order));
    FramesOf([], ValueWords(key, x, order));
    if !Vacant(x) { commands := commands + [Array(args)]; }
    ghost var before := EntryWords(key, x, None, order);
    assert before == if Vacant(x) then [] else [ValueWords(key, x, order)];
    if ttl.Some? {
      FramesOf(before, ExpireWords(key, ttl.value));
      var expire := ListArgs("EXPIRE", key, [IntText(TtlSeconds(ttl.value))]);
      assert ["EXPIRE", key] + [IntText(TtlSeconds(ttl.value))] == ExpireWords(key, ttl.value);
      commands := commands + [Array(expire)];
      assert EntryWords(key, x, ttl, order) == before + [ExpireWords(key, ttl.value)];
    } else {
      assert EntryWords(key, x, ttl, order) == before;
    }
    assert OrderFor(x, order) && commands == Frames(EntryWords(key, x, ttl, order));
  }

  // ------------------------------------------------------------------ the whole log

  method AppendAll(temp: AofWriter, commands: seq<Value>)
    modifies temp
    ensures temp.file == old(temp.file) + EncodeAll(commands)
  {
    hide Encode;
    assert temp.file + [] == temp.file;
    for i := 0 to |commands|
      invariant temp.file == old(temp.file) + EncodeAll(commands[..i])
    {
      assert commands[..i + 1] == commands[..i] + [commands[i]];
      EncodeAllConcat(commands[..i], [commands[i]]);
      EncodeAllOne(commands[i]);
      temp.Append(commands[i]);
    }
    assert commands[..|commands|] == commands;
  }

  lemma FramesGrow(v: View, now: int, keys: seq<bytes>, i: nat, orders: map<bytes, seq<bytes>>, q: seq<bytes>)
    requires i < |keys| && keys[i] !in keys[..i]
    requires forall k :: k in keys[..i + 1] ==> k in v
    requires forall k :: k in keys[..i] ==> k in orders
    ensures var e := v[keys[i]];
      RewriteFrames(v, now, keys[..i + 1], orders[keys[i] := q]) ==
        RewriteFrames(v, now, keys[..i], orders) + Frames(EntryWords(keys[i], e.value, Remaining(e, now), q))
  {
    hide Frames, EntryWords;
    var k := keys[i];
    assert keys[..i + 1] == keys[..i] + [k];
    assert keys[..i + 1][..i] == keys[..i];
    assert forall j :: j in keys[..i] ==> j in keys[..i + 1];
    OtherOrders(v, now, keys[..i], orders, k, q);
  }

  lemma OneMoreOrder(v: View, keys: seq<bytes>, i: nat, orders: map<bytes, seq<bytes>>, q: seq<bytes>)
    requires i < |keys| && keys[i] in v && OrderFor(v[keys[i]].value, q) && GoodOrders(v, keys[..i], orders)
    ensures GoodOrders(v, keys[..i + 1], orders[keys[i] := q])
  {
    hide OrderFor;
    assert keys[..i + 1] == keys[..i] + [keys[i]];
  }

  /** One more key visited: its order recorded, its frames at the end of the log. */
  lemma RewriteGrows(v: View, now: int, keys: seq<bytes>, i: nat, orders: map<bytes, seq<bytes>>, q: seq<bytes>)
    requires i < |keys| && keys[i] !in keys[..i]
    requires keys[i] in v && OrderFor(v[keys[i]].value, q) && GoodOrders(v, keys[..i], orders)
    ensures GoodOrders(v, keys[..i + 1], orders[keys[i] := q])
    ensures var before := RewriteFrames(v, now, keys[..i], orders);
      var after := RewriteFrames(v, now, keys[..i + 1], orders[keys[i] := q]);
      var words := EntryWords(keys[i], v[keys[i]].value, Remaining(v[keys[i]], now), q);
      && |after| == |before| + |words|
      && EncodeAll(after) == EncodeAll(before) + EncodeAll(Frames(words))
  {
    hide OrderFor, EntryWords, EncodeAll;
    OneMoreOrder(v, keys, i, orders, q);
    FramesGrow(v, now, keys, i, orders, q);
    var words := EntryWords(keys[i], v[keys[i]].value, Remaining(v[keys[i]], now), q);
    EncodeAllConcat(RewriteFrames(v, now, keys[..i], orders), Frames(words));
  }

  lemma {:induction false} OtherOrders(v: View, now: int, keys: seq<bytes>, orders: map<bytes, seq<bytes>>,
                                       k: bytes, q: seq<bytes>)
    requires k !in keys && forall k :: k in keys ==> k in v && k in orders
    ensures RewriteFrames(v, now, keys, orders[k := q]) == RewriteFrames(v, now, keys, orders)
    decreases |keys|
  {
    hide Frames, EntryWords;
    if keys != [] { OtherOrders(v, now, keys[..|keys| - 1], orders, k, q); }
  }

  /** The body of the loop: one key's commands appended to the new log, at `now`; the keys were
      listed at `at`. */
  method RewriteKey(store: Store, temp: AofWriter, key: bytes, ghost at: int, now: int)
    returns (written: nat, ghost order: seq<bytes>)
    requires store.Valid() && key in store.Live(at)
    modifies temp
    ensures var e := store.Live(at)[key];
      && OrderFor(e.value, order)
      && temp.file == old(temp.file) + EncodeAll(Frames(EntryWords(key, e.value, Remaining(e, now), order)))
      && written == |EntryWords(key, e.value, Remaining(e, now), order)|
  {
    hide OrderFor, EntryWords, EncodeAll;
    var value := store.GetForRestore(key);
    var ttl := store.TtlMsForPersistence(key, now);
    var commands := ValueToCommands(key, value.value, ttl);
    order :| OrderFor(value.value, order) && commands == Frames(EntryWords(key, value.value, ttl, order));
    AppendAll(temp, commands);
    written := |commands|;
  }

  /** `rewrite_aof` into a fresh file: the keys are listed at `at`, their commands are written at
      `now`. A key that expires in between is written all the same. */
  method RewriteAof(store: Store, temp: AofWriter, at: int, now: int)
    returns (written: nat, ghost keys: seq<bytes>, ghost orders: map<bytes, seq<bytes>>)
    requires store.Valid() && temp.file == []
    modifies store, temp
    ensures store.Valid() && forall t :: t >= at ==> store.Live(t) == old(store.Live(t))
    ensures Enumerates(keys, store.Live(at).Keys) && GoodOrders(store.Live(at), keys, orders)
    ensures temp.file == EncodeAll(RewriteFrames(store.Live(at), now, keys, orders))
    ensures written == |RewriteFrames(store.Live(at), now, keys, orders)|
  {
    hide OrderFor, EntryWords, Frames, Encode, EncodeAll;
    var order := store.Keys(at);
    keys, orders, written := order, map[], 0;
    ghost var v := store.Live(at);
    VisitsAll(store.data, store.expirations, keys, at, now);
    hide Consistent, LiveView, GoodOrders, RewriteFrames;
    for i := 0 to |order|
      invariant store.Valid() && store.Live(at) == v
      invariant forall t :: t >= at ==> store.Live(t) == old(store.Live(t))
      invariant GoodOrders(v, keys[..i], orders)
      invariant temp.file == EncodeAll(RewriteFrames(v, now, keys[..i], orders))
      invariant written == |RewriteFrames(v, now, keys[..i], orders)|
    {
      var more;
      ghost var q;
      more, q := RewriteKey(store, temp, order[i], at, now);
      RewriteGrows(v, now, keys, i, orders, q);
      orders := orders[keys[i] := q];
      written := written + more;
    }
    assert keys[..|keys|] == keys;
  }

  lemma VisitsAll(data: Data, expirations: Expirations, keys: seq<bytes>, at: int, now: int)
    requires Enumerates(keys, LiveView(data, expirations, at).Keys)
    ensures var v := LiveView(data, expirations, at);
      && (forall i :: 0 <= i < |keys| ==> keys[i] in v && keys[i] !in keys[..i])
      && GoodOrders(v, [], map[]) && RewriteFrames(v, now, [], map[]) == [] && EncodeAll([]) == []
  {
    EnumerationIs(keys, LiveView(data, expirations, at).Keys);
    assert forall i :: 0 <= i < |keys| ==> keys[i] in SetOf(keys);
  }

  /** Rewrite and restart, end to end: whatever order anything is iterated in, replaying the
      new log into an empty store gives back every key that was listed. */
  method RewriteAndRecover(store: Store, info: bytes, at: int, now: int, t: int) returns (recovered: Store)
    requires store.Valid() && at <= now && InMemory(store.Live(at)) && Within(store.Live(at), at)
    modifies store
    ensures recovered.Valid() && recovered.Live(t) == Rebuilt(old(store.Live(at)), now, t)
  {
    hide InMemory, GoodOrders, RewriteFrames, EncodeAll, Reaches, Drain, Rebuilt;
    var temp := new AofWriter();
    LiveViewIsSound(store.data, store.expirations, at);
    ghost var v := store.Live(at);
    assert Within(v, now);
    hide Within;
    var written;
    ghost var keys, orders;
    written, keys, orders := RewriteAof(store, temp, at, now);
    recovered := new Store();
    assert recovered.Live(t) == map[];
    var count := Replay(recovered, temp.file, info, t);
    RewriteRestores(v, now, keys, orders, t, recovered.Live(t));
  }
}
