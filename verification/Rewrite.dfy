/** Rewriting the log: the store compiled to commands, written as a log, and what replaying
    that log rebuilds. */
module Rewrite {
  import opened Bytes
  import opened Decimal
  import opened Resp
  import opened RespStream
  import opened Commands
  import opened Wording
  import opened Values
  import opened Enumerations
  import opened Semantics
  import opened Laws
  import opened Aof

  // ---------------------------------------------------------------- generated commands

  /** Members with their scores as text, score first. */
  function ScoresAlong(q: seq<bytes>, z: map<bytes, int>): seq<bytes>
  {
    if q == [] || q[0] !in z then [] else [IntText(z[q[0]]), q[0]] + ScoresAlong(q[1..], z)
  }

  /** The words that write a value, given the order in which its hash table iterates. */
  function ValueWords(key: bytes, x: StoredValue, q: seq<bytes>): seq<bytes>
  {
    match x
    case Str(text) => ["SET", key, text]
    case List(items) => ["RPUSH", key] + items
    case Set(_) => ["SADD", key] + q
    case Hash(fields) => ["HSET", key] + PairsAlong(q, fields)
    case SortedSet(scores, _) => ["ZADD", key] + ScoresAlong(q, scores)
  }

  /** The orders in which the value's hash table can iterate. */
  ghost predicate OrderFor(x: StoredValue, q: seq<bytes>)
  {
    match x
    case Set(members) => Enumerates(q, members)
    case Hash(fields) => Enumerates(q, fields.Keys)
    case SortedSet(scores, _) => Enumerates(q, scores.Keys)
    case _ => true
  }

  /** Whole seconds, rounded up, at least one. */
  function TtlSeconds(ms: nat): nat
  {
    var up := (ms + 999) / 1000;
    if up < 1 then 1 else up
  }

  function ExpireWords(key: bytes, ms: nat): seq<bytes> { ["EXPIRE", key, IntText(TtlSeconds(ms))] }

  function EntryWords(key: bytes, x: StoredValue, ttl: Option<nat>, q: seq<bytes>): seq<seq<bytes>>
  {
    (if Vacant(x) then [] else [ValueWords(key, x, q)]) + (if ttl.Some? then [ExpireWords(key, ttl.value)] else [])
  }

  function Frames(words: seq<seq<bytes>>): (r: seq<Value>)
    ensures |r| == |words| && forall i :: 0 <= i < |r| ==> r[i] == BulkArray(words[i])
  {
    seq(|words|, i requires 0 <= i < |words| => BulkArray(words[i]))
  }

  // ----------------------------------------------------------- parsing them back

  function FieldPairs(q: seq<bytes>, h: map<bytes, bytes>): (r: seq<(bytes, bytes)>)
    requires forall i :: 0 <= i < |q| ==> q[i] in h
  {
    if q == [] then [] else [(q[0], h[q[0]])] + FieldPairs(q[1..], h)
  }

  function MemberPairs(q: seq<bytes>, z: map<bytes, int>): (r: seq<(int, bytes)>)
    requires forall i :: 0 <= i < |q| ==> q[i] in z
  {
    if q == [] then [] else [(z[q[0]], q[0])] + MemberPairs(q[1..], z)
  }

  lemma {:induction false} FieldsBack(q: seq<bytes>, h: map<bytes, bytes>)
    requires forall i :: 0 <= i < |q| ==> q[i] in h
    ensures LastWins(FieldPairs(q, h)) == map f | f in SetOf(q) :: h[f]
    decreases |q|
  {
    if q != [] {
      FieldsBack(q[1..], h);
      assert SetOf(q) == {q[0]} + SetOf(q[1..]);
      assert FieldPairs(q, h)[1..] == FieldPairs(q[1..], h);
    }
  }

  lemma {:induction false} MembersBack(q: seq<bytes>, z: map<bytes, int>)
    requires forall i :: 0 <= i < |q| ==> q[i] in z
    ensures LastScores(MemberPairs(q, z)) == map m | m in SetOf(q) :: z[m]
    decreases |q|
  {
    if q != [] {
      MembersBack(q[1..], z);
      assert SetOf(q) == {q[0]} + SetOf(q[1..]);
      assert MemberPairs(q, z)[1..] == MemberPairs(q[1..], z);
    }
  }

  // ------------------------------------------------------------- the commands parse back

  /** The words of a hash or a sorted set are those of its pairs. */
  lemma {:induction false} PairsWritten(q: seq<bytes>, h: map<bytes, bytes>)
    requires forall i :: 0 <= i < |q| ==> q[i] in h
    ensures PairsAlong(q, h) == PairWords(FieldPairs(q, h)) && |PairsAlong(q, h)| == 2 * |q|
    decreases |q|
  {
    if q != [] {
      PairsWritten(q[1..], h);
      assert FieldPairs(q, h)[1..] == FieldPairs(q[1..], h);
    }
  }

  lemma {:induction false} ScoresWritten(q: seq<bytes>, z: map<bytes, int>)
    requires forall i :: 0 <= i < |q| ==> q[i] in z
    ensures ScoresAlong(q, z) == ScoreWords(MemberPairs(q, z)) && |ScoresAlong(q, z)| == 2 * |q|
    decreases |q|
  {
    hide IntText;
    if q != [] {
      ScoresWritten(q[1..], z);
      assert MemberPairs(q, z)[1..] == MemberPairs(q[1..], z);
    }
  }

  lemma ExpireDispatch(args: seq<Value>)
    requires args != [] && args[0] == BulkString("EXPIRE")
    ensures TryFrom(args) == ParseExpire(args)
  {
    hide ParseExpire;
    assert Upper("EXPIRE") == "EXPIRE";
    assert TtlCommand("EXPIRE", args) == Some(ParseExpire(args));
  }

  lemma ExpireParses(key: bytes, secs: u64)
    ensures TryFrom(BulkStrings(["EXPIRE", key, IntText(secs)])) == Ok(Expire(key, AsU64(secs * 1000)))
  {
    var args := BulkStrings(["EXPIRE", key, IntText(secs)]);
    ExpireDispatch(args);
    U64TextRoundTrip(secs);
    hide TryFrom, IntText, ParseU64, AsU64;
  }

  // --------------------------------------------------------------- one key rebuilt

  /** The parsed form of the command that writes a value. */
  function ValueCommand(key: bytes, x: StoredValue, q: seq<bytes>): Command
    requires x.Hash? ==> forall i :: 0 <= i < |q| ==> q[i] in x.fields
    requires x.SortedSet? ==> forall i :: 0 <= i < |q| ==> q[i] in x.scores
  {
    match x
    case Str(text) => Command.Set(key, text, None, Always)
    case List(items) => RPush(key, items)
    case Set(_) => SAdd(key, q)
    case Hash(fields) => HSet(key, FieldPairs(q, fields))
    case SortedSet(scores, _) => ZAdd(key, MemberPairs(q, scores))
  }

  lemma {:induction false} OrderCovers(x: StoredValue, q: seq<bytes>)
    requires OrderFor(x, q) && !Vacant(x)
    ensures x.Set? ==> SetOf(q) == x.members && q != []
    ensures x.Hash? ==> SetOf(q) == x.fields.Keys && q != [] && forall i :: 0 <= i < |q| ==> q[i] in x.fields
    ensures x.SortedSet? ==> SetOf(q) == x.scores.Keys && q != [] && forall i :: 0 <= i < |q| ==> q[i] in x.scores
  {
    if x.Set? {
      Covers(q, x.members);
    } else if x.Hash? {
      Covers(q, x.fields.Keys);
      KeysAndMap(x.fields);
    } else if x.SortedSet? {
      Covers(q, x.scores.Keys);
      KeysAndMap(x.scores);
    }
  }

  lemma KeysAndMap<K, V>(m: map<K, V>)
    requires m != map[]
    ensures m.Keys != {}
  {
  }

  lemma Covers(q: seq<bytes>, s: set<bytes>)
    requires Enumerates(q, s)
    ensures SetOf(q) == s && forall i :: 0 <= i < |q| ==> q[i] in s
  {
    EnumerationIs(q, s);
    assert forall i :: 0 <= i < |q| ==> q[i] in SetOf(q);
  }

  lemma HashWorded(key: bytes, q: seq<bytes>, h: map<bytes, bytes>)
    requires q != [] && forall i :: 0 <= i < |q| ==> q[i] in h
    ensures FieldPairs(q, h) != []
    ensures BulkStrings(["HSET", key] + PairsAlong(q, h)) == Args(HSet(key, FieldPairs(q, h)))
  {
    hide BulkStrings, PairsAlong, PairWords;
    PairsWritten(q, h);
    assert ["HSET", key] + PairsAlong(q, h) == ["HSET"] + ([key] + PairsAlong(q, h));
  }

  lemma SortedSetWorded(key: bytes, q: seq<bytes>, z: map<bytes, int>)
    requires q != [] && forall i :: 0 <= i < |q| ==> q[i] in z
    ensures MemberPairs(q, z) != []
    ensures BulkStrings(["ZADD", key] + ScoresAlong(q, z)) == Args(ZAdd(key, MemberPairs(q, z)))
  {
    hide BulkStrings, ScoresAlong, ScoreWords;
    ScoresWritten(q, z);
    assert ["ZADD", key] + ScoresAlong(q, z) == ["ZADD"] + ([key] + ScoresAlong(q, z));
  }

  lemma PlainWorded(key: bytes, x: StoredValue, q: seq<bytes>)
    requires x.Str? || x.List? || x.Set?
    ensures BulkStrings(ValueWords(key, x, q)) == Args(ValueCommand(key, x, q))
  {
    hide BulkStrings;
    match x
    case Str(text) => assert [key, text] + ([] + []) == [key, text] && ["SET"] + [key, text] == ["SET", key, text];
    case List(items) => assert ["RPUSH", key] + items == ["RPUSH"] + ([key] + items);
    case Set(_) => assert ["SADD", key] + q == ["SADD"] + ([key] + q);
  }

  lemma ValueWorded(key: bytes, x: StoredValue, q: seq<bytes>)
    requires OrderFor(x, q) && !Vacant(x)
    requires x.Hash? ==> forall i :: 0 <= i < |q| ==> q[i] in x.fields
    requires x.SortedSet? ==> forall i :: 0 <= i < |q| ==> q[i] in x.scores
    ensures Expressible(ValueCommand(key, x, q))
    ensures BulkStrings(ValueWords(key, x, q)) == Args(ValueCommand(key, x, q))
  {
    OrderCovers(x, q);
    hide Args, BulkStrings, PairsAlong, ScoresAlong, FieldPairs, MemberPairs;
    if x.Hash? {
      HashWorded(key, q, x.fields);
    } else if x.SortedSet? {
      SortedSetWorded(key, q, x.scores);
    } else {
      PlainWorded(key, x, q);
    }
  }

  /** The generated words parse to the command that writes the value. */
  lemma ValueParses(key: bytes, x: StoredValue, q: seq<bytes>)
    requires OrderFor(x, q) && !Vacant(x)
    requires x.Hash? ==> forall i :: 0 <= i < |q| ==> q[i] in x.fields
    requires x.SortedSet? ==> forall i :: 0 <= i < |q| ==> q[i] in x.scores
    ensures TryFrom(BulkStrings(ValueWords(key, x, q))) == Ok(ValueCommand(key, x, q))
  {
    hide TryFrom, BulkStrings, Args, Expressible, ValueCommand, ValueWords, OrderFor;
    ValueWorded(key, x, q);
    WordsParse(ValueCommand(key, x, q));
  }

  /** Nothing is known of a key that is not there, and what is written to it has no deadline. */
  lemma AbsentKey(u: View, key: bytes)
    requires key !in u
    ensures forall kind :: !Mistyped(u, key, kind)
    ensures ListAt(u, key) == [] && MembersAt(u, key) == {} && FieldsAt(u, key) == map[] && ScoresAt(u, key) == map[]
    ensures forall x :: Write(u, key, x) == u[key := Entry(x, None)]
  {
  }

  lemma EmptyPlus<T>(m: map<bytes, T>)
    ensures map[] + m == m
  {
  }

  lemma HashWritten(u: View, key: bytes, pairs: seq<(bytes, bytes)>, t: int)
    requires key !in u && pairs != []
    ensures Next(u, HSet(key, pairs), t) == u[key := Entry(Hash(LastWins(pairs)), None)]
  {
    hide Next, ReplyOf, LastWins, Mistyped, FieldsAt, Write;
    AbsentKey(u, key);
    EmptyPlus(LastWins(pairs));
    HashMeaning(u, HSet(key, pairs), t);
  }

  lemma HashRebuilt(u: View, key: bytes, q: seq<bytes>, h: map<bytes, bytes>, t: int)
    requires key !in u && SetOf(q) == h.Keys && q != [] && forall i :: 0 <= i < |q| ==> q[i] in h
    ensures Next(u, HSet(key, FieldPairs(q, h)), t) == u[key := Entry(Hash(h), None)]
  {
    assert FieldPairs(q, h) != [];
    hide FieldPairs, LastWins, Next;
    FieldsBack(q, h);
    assert LastWins(FieldPairs(q, h)) == h;
    HashWritten(u, key, FieldPairs(q, h), t);
  }

  lemma SortedSetWritten(u: View, key: bytes, pairs: seq<(int, bytes)>, t: int)
    requires key !in u && pairs != []
    ensures Next(u, ZAdd(key, pairs), t) == u[key := Entry(Ranked(LastScores(pairs)), None)]
  {
    hide Next, ReplyOf, LastScores, Ranked, Mistyped, ScoresAt, Write;
    AbsentKey(u, key);
    EmptyPlus(LastScores(pairs));
    SortedSetMeaning(u, ZAdd(key, pairs), t);
  }

  lemma SortedSetRebuilt(u: View, key: bytes, q: seq<bytes>, z: map<bytes, int>, t: int)
    requires key !in u && SetOf(q) == z.Keys && q != [] && forall i :: 0 <= i < |q| ==> q[i] in z
    ensures Next(u, ZAdd(key, MemberPairs(q, z)), t) == u[key := Entry(Ranked(z), None)]
  {
    assert MemberPairs(q, z) != [];
    hide MemberPairs, LastScores, Ranked, Next;
    MembersBack(q, z);
    assert LastScores(MemberPairs(q, z)) == z;
    SortedSetWritten(u, key, MemberPairs(q, z), t);
  }

  lemma TextRebuilt(u: View, key: bytes, text: bytes, t: int)
    ensures Next(u, Command.Set(key, text, None, Always), t) == u[key := Entry(Str(text), None)]
  {
    KeyMeaning(u, Command.Set(key, text, None, Always), t);
    hide Next, ReplyOf;
  }

  lemma ListRebuilt(u: View, key: bytes, items: seq<bytes>, t: int)
    requires key !in u && items != []
    ensures Next(u, RPush(key, items), t) == u[key := Entry(List(items), None)]
  {
    AbsentKey(u, key);
    ListMeaning(u, RPush(key, items), t);
    hide Next, ReplyOf, Mistyped, ListAt, Write;
    assert [] + items == items;
  }

  lemma SetRebuilt(u: View, key: bytes, q: seq<bytes>, t: int)
    requires key !in u
    ensures Next(u, SAdd(key, q), t) == u[key := Entry(StoredValue.Set(SetOf(q)), None)]
  {
    AbsentKey(u, key);
    SetMeaning(u, SAdd(key, q), t);
    hide Next, ReplyOf, Mistyped, MembersAt, Write, SetOf;
    assert {} + SetOf(q) == SetOf(q);
  }

  lemma ApplyParsed(u: View, words: seq<bytes>, c: Command, t: int)
    requires TryFrom(BulkStrings(words)) == Ok(c)
    ensures Apply(u, BulkArray(words), t) == Next(u, c, t)
  {
    hide TryFrom, BulkStrings, Next;
  }

  /** Executed where the key is absent, that command puts the value back, without a deadline. */
  lemma ValueRebuilt(u: View, key: bytes, x: StoredValue, q: seq<bytes>, t: int)
    requires key !in u && Sound(x) && OrderFor(x, q)
    ensures Apply(u, BulkArray(ValueWords(key, x, q)), t) == u[key := Entry(x, None)]
  {
    OrderCovers(x, q);
    ValueParses(key, x, q);
    ApplyParsed(u, ValueWords(key, x, q), ValueCommand(key, x, q), t);
    hide TryFrom, ValueWords, BulkStrings, Next, Apply;
    if x.Hash? {
      HashRebuilt(u, key, q, x.fields, t);
    } else if x.SortedSet? {
      SortedSetRebuilt(u, key, q, x.scores, t);
    } else if x.Set? {
      SetRebuilt(u, key, q, t);
    } else if x.List? {
      ListRebuilt(u, key, x.items, t);
    } else {
      TextRebuilt(u, key, x.text, t);
    }
  }

  /** The lifetime EXPIRE gives back for a remaining `ms`: u64 arithmetic included. */
  function RestoredTtl(ms: nat): u64 { AsU64(TtlSeconds(ms) * 1000) }

  /** The lifetime comes back never shorter and less than one second longer, as the whole
      seconds above it, exactly up to 18446744073709551000 ms; above that the multiplication
      wraps and 384 ms are left. */
  lemma RestoredTtlExactly(ms: nat)
    requires 1 <= ms < TWO_TO_64
    ensures TtlSeconds(ms) < TWO_TO_64
    ensures RestoredTtl(ms) > 0
    ensures ms <= RestoredTtl(ms) < ms + 1000 <==> ms <= 18446744073709551000
    ensures RestoredTtl(ms) == if ms <= 18446744073709551000 then (ms + 999) / 1000 * 1000 else 384
  {
    var seconds := TtlSeconds(ms);
    SecondsAbove(ms);
    hide TtlSeconds, AsU64;
    if ms <= 18446744073709551000 {
      assert AsU64(seconds * 1000) == seconds * 1000;
    } else {
      assert seconds == 18446744073709552;
      Wrapped();
    }
  }

  lemma SecondsAbove(ms: nat)
    requires ms >= 1
    ensures TtlSeconds(ms) == (ms + 999) / 1000
    ensures ms <= 1000 * TtlSeconds(ms) < ms + 1000
  {
  }

  lemma Wrapped()
    ensures AsU64(18446744073709552 * 1000) == 384
  {
  }

  /** EXPIRE with a lifetime ahead, on a key that is there. */
  lemma ExpireApplies(u: View, key: bytes, x: StoredValue, ms: u64, t: int)
    requires key in u && u[key].value == x && ms > 0
    ensures Next(u, Expire(key, ms), t) == u[key := Entry(x, Some(t + ms))]
  {
    KeyMeaning(u, Expire(key, ms), t);
    hide Next, ReplyOf;
  }

  /** The generated EXPIRE parses to the restored lifetime, which is not over. */
  lemma ExpireRead(key: bytes, ms: nat)
    requires 1 <= ms < TWO_TO_64
    ensures TryFrom(BulkStrings(ExpireWords(key, ms))) == Ok(Expire(key, RestoredTtl(ms))) && RestoredTtl(ms) > 0
  {
    hide TryFrom, BulkStrings, TtlSeconds, AsU64;
    RestoredTtlExactly(ms);
    ExpireParses(key, TtlSeconds(ms));
  }

  lemma DeadlineRebuilt(u: View, key: bytes, x: StoredValue, ms: nat, t: int)
    requires key in u && u[key].value == x && 1 <= ms < TWO_TO_64
    ensures Apply(u, BulkArray(ExpireWords(key, ms)), t) == u[key := Entry(x, Some(t + RestoredTtl(ms)))]
  {
    hide TryFrom, BulkStrings, ExpireWords, RestoredTtl, Next, Apply;
    ExpireRead(key, ms);
    ApplyParsed(u, ExpireWords(key, ms), Expire(key, RestoredTtl(ms)), t);
    ExpireApplies(u, key, x, RestoredTtl(ms), t);
  }

  lemma ApplyOne(u: View, request: Value, t: int)
    ensures ApplyAll(u, [request], t) == Apply(u, request, t)
  {
    hide Apply;
    assert [request][1..] == [];
  }

  lemma FramesOf(words: seq<seq<bytes>>, w: seq<bytes>)
    ensures Frames([w]) == [BulkArray(w)] && Frames([]) == []
    ensures Frames(words + [w]) == Frames(words) + [BulkArray(w)]
  {
    hide BulkArray;
  }

  lemma {:induction false} ApplyConcat(v: View, a: seq<Value>, b: seq<Value>, t: int)
    ensures ApplyAll(v, a + b, t) == ApplyAll(ApplyAll(v, a, t), b, t)
    decreases |a|
  {
    hide Apply;
    if a == [] {
      assert a + b == b;
    } else {
      assert (a + b)[0] == a[0] && (a + b)[1..] == a[1..] + b;
      ApplyConcat(Apply(v, a[0], t), a[1..], b, t);
    }
  }

  /** One key's commands put its entry back. */
  lemma EntryRebuilt(u: View, key: bytes, x: StoredValue, ttl: Option<nat>, q: seq<bytes>, t: int)
    requires key !in u && Sound(x) && OrderFor(x, q) && (ttl.Some? ==> 1 <= ttl.value < TWO_TO_64)
    ensures ApplyAll(u, Frames(EntryWords(key, x, ttl, q)), t) ==
      u[key := Entry(x, if ttl.Some? then Some(t + RestoredTtl(ttl.value)) else None)]
  {
    hide OrderFor, Apply, ApplyAll, Frames, ValueWords, ExpireWords, BulkArray, RestoredTtl;
    ValueRebuilt(u, key, x, q, t);
    var value := ValueWords(key, x, q);
    ApplyOne(u, BulkArray(value), t);
    FramesOf([], value);
    if ttl.Some? {
      var w, expire := u[key := Entry(x, None)], ExpireWords(key, ttl.value);
      DeadlineRebuilt(w, key, x, ttl.value, t);
      ApplyOne(w, BulkArray(expire), t);
      FramesOf([value], expire);
      ApplyConcat(u, [BulkArray(value)], [BulkArray(expire)], t);
    } else {
      assert [value] + [] == [value];
    }
  }

  // -------------------------------------------------------------- the whole store

  /** What is left until a deadline, at least one millisecond: a deadline that has passed since
      the keys were listed counts as one that is about to. */
  function LeftUntil(deadline: int, now: int): nat
  {
    if deadline - now < 1 then 1 else deadline - now
  }

  /** What is left of an entry's lifetime, cast to u64. */
  function Remaining(e: Entry, now: int): Option<nat>
  {
    if e.deadline.Some? then Some(AsU64(LeftUntil(e.deadline.value, now))) else None
  }

  /** The frames of a rewrite: key after key, each with the order its hash table iterates in. */
  function RewriteFrames(v: View, now: int, keys: seq<bytes>, orders: map<bytes, seq<bytes>>): seq<Value>
    requires forall k :: k in keys ==> k in v && k in orders
    decreases |keys|
  {
    if keys == [] then []
    else
      var last := keys[|keys| - 1];
      RewriteFrames(v, now, keys[..|keys| - 1], orders)
        + Frames(EntryWords(last, v[last].value, Remaining(v[last], now), orders[last]))
  }

  /** An entry as a replay at `t` rebuilds it from a rewrite at `now`. */
  function RebuiltEntry(e: Entry, now: int, t: int): Entry
  {
    Entry(e.value, if e.deadline.Some? then Some(t + RestoredTtl(LeftUntil(e.deadline.value, now))) else None)
  }

  function RebuiltKeys(v: View, now: int, keys: set<bytes>, t: int): View
  {
    map k | k in keys && k in v :: RebuiltEntry(v[k], now, t)
  }

  /** The view a replay at `t` rebuilds: the same keys with the same values. */
  function Rebuilt(v: View, now: int, t: int): View { RebuiltKeys(v, now, v.Keys, t) }

  /** A length that a Rust vector can have. */
  predicate Fits(b: bytes) { |b| < TWO_TO_63 }

  predicate ValueFits(x: StoredValue)
  {
    match x
    case Str(text) => Fits(text)
    case List(items) => |items| + 2 < TWO_TO_63 && forall i :: 0 <= i < |items| ==> Fits(items[i])
    case Set(members) => |members| + 2 < TWO_TO_63 && forall m :: m in members ==> Fits(m)
    case Hash(fields) => 2 * |fields| + 2 < TWO_TO_63 && forall f :: f in fields ==> Fits(f) && Fits(fields[f])
    case SortedSet(scores, _) =>
      2 * |scores| + 2 < TWO_TO_63 && forall m :: m in scores ==> Fits(m) && Fits(IntText(scores[m]))
  }

  /** Everything in the view is of a size that can be held in memory. */
  predicate InMemory(v: View) { forall k :: k in v ==> Fits(k) && ValueFits(v[k].value) }

  ghost predicate GoodOrders(v: View, keys: seq<bytes>, orders: map<bytes, seq<bytes>>)
  {
    forall k :: k in keys ==> k in v && k in orders && OrderFor(v[k].value, orders[k])
  }

  lemma OneMoreRebuilt(v: View, now: int, keys: set<bytes>, k: bytes, t: int)
    requires k in v && k !in keys
    ensures RebuiltKeys(v, now, keys + {k}, t) == RebuiltKeys(v, now, keys, t)[k := RebuiltEntry(v[k], now, t)]
    ensures k !in RebuiltKeys(v, now, keys, t)
  {
    hide RestoredTtl;
  }

  /** Executing a rewrite in an empty store rebuilds every key it visited. */
  lemma {:induction false} KeysRebuilt(v: View, now: int, keys: seq<bytes>, orders: map<bytes, seq<bytes>>, t: int)
    requires SoundView(v) && Within(v, now) && GoodOrders(v, keys, orders)
    requires forall i, j :: 0 <= i < j < |keys| ==> keys[i] != keys[j]
    ensures ApplyAll(map[], RewriteFrames(v, now, keys, orders), t) == RebuiltKeys(v, now, SetOf(keys), t)
    decreases |keys|
  {
    hide Frames, EntryWords, ApplyAll, RestoredTtl, OrderFor, Sound, RebuiltKeys;
    if keys == [] {
      NothingRebuilt(v, now, t);
    } else {
      var rest, last := keys[..|keys| - 1], keys[|keys| - 1];
      KeysRebuilt(v, now, rest, orders, t);
      var u := RebuiltKeys(v, now, SetOf(rest), t);
      var frames := Frames(EntryWords(last, v[last].value, Remaining(v[last], now), orders[last]));
      ApplyConcat(map[], RewriteFrames(v, now, rest, orders), frames, t);
      assert keys == rest + [last] && SetOf(keys) == SetOf(rest) + {last} && last !in rest;
      OneMoreRebuilt(v, now, SetOf(rest), last, t);
      EntryRebuilt(u, last, v[last].value, Remaining(v[last], now), orders[last], t);
    }
  }

  lemma NothingRebuilt(v: View, now: int, t: int)
    ensures ApplyAll(map[], [], t) == RebuiltKeys(v, now, {}, t)
    ensures SetOf<bytes>([]) == {}
  {
  }

  // ------------------------------------------------------- the frames survive the wire

  lemma WordsDecodable(words: seq<bytes>)
    requires |words| < TWO_TO_63 && forall i :: 0 <= i < |words| ==> Fits(words[i])
    ensures Decodable(BulkArray(words))
  {
    var items := BulkStrings(words);
    DecodableItems(items);
    hide BulkStrings;
  }

  lemma {:induction false} PairsFit(q: seq<bytes>, h: map<bytes, bytes>)
    requires forall f :: f in h ==> Fits(f) && Fits(h[f])
    ensures forall i :: 0 <= i < |PairsAlong(q, h)| ==> Fits(PairsAlong(q, h)[i])
    ensures |PairsAlong(q, h)| <= 2 * |q|
    decreases |q|
  {
    if q != [] { PairsFit(q[1..], h); }
  }

  lemma {:induction false} ScoresFit(q: seq<bytes>, z: map<bytes, int>)
    requires forall m :: m in z ==> Fits(m) && Fits(IntText(z[m]))
    ensures forall i :: 0 <= i < |ScoresAlong(q, z)| ==> Fits(ScoresAlong(q, z)[i])
    ensures |ScoresAlong(q, z)| <= 2 * |q|
    decreases |q|
  {
    hide IntText;
    if q != [] { ScoresFit(q[1..], z); }
  }

  lemma ValueWordsFit(key: bytes, x: StoredValue, q: seq<bytes>)
    requires Fits(key) && ValueFits(x) && OrderFor(x, q)
    ensures |ValueWords(key, x, q)| < TWO_TO_63
    ensures forall i :: 0 <= i < |ValueWords(key, x, q)| ==> Fits(ValueWords(key, x, q)[i])
  {
    hide IntText, PairsAlong, ScoresAlong;
    if x.Set? {
      EnumerationIs(q, x.members);
      assert forall i :: 0 <= i < |q| ==> q[i] in SetOf(q);
    } else if x.Hash? {
      EnumerationIs(q, x.fields.Keys);
      PairsFit(q, x.fields);
    } else if x.SortedSet? {
      EnumerationIs(q, x.scores.Keys);
      ScoresFit(q, x.scores);
    }
  }

  lemma {:induction false} FewDigits(n: nat)
    ensures |Digits(n)| <= n / 4 + 2
  {
    if n >= 10 { FewDigits(n / 10); }
  }

  /** A frame that decodes to itself and holds a command whose outcome is determined. */
  ghost predicate Replayable(frame: Value) { Decodable(frame) && Determined(frame) }

  lemma ValueReplayable(key: bytes, x: StoredValue, q: seq<bytes>)
    requires Fits(key) && ValueFits(x) && OrderFor(x, q) && !Vacant(x)
    ensures Replayable(BulkArray(ValueWords(key, x, q)))
  {
    hide TryFrom, Decodable, ValueWords, BulkStrings, Fits;
    ValueWordsFit(key, x, q);
    WordsDecodable(ValueWords(key, x, q));
    OrderCovers(x, q);
    ValueParses(key, x, q);
  }

  lemma ExpireReplayable(key: bytes, ms: nat)
    requires Fits(key) && ms < TWO_TO_64
    ensures Replayable(BulkArray(ExpireWords(key, ms)))
  {
    hide TryFrom, Decodable, BulkStrings;
    FewDigits(TtlSeconds(ms));
    WordsDecodable(ExpireWords(key, ms));
    ExpireParses(key, TtlSeconds(ms));
  }

  ghost predicate AllReplayable(frames: seq<Value>) { forall i :: 0 <= i < |frames| ==> Replayable(frames[i]) }

  lemma EntryReplayable(key: bytes, x: StoredValue, ttl: Option<nat>, q: seq<bytes>)
    requires Fits(key) && ValueFits(x) && OrderFor(x, q) && (ttl.Some? ==> ttl.value < TWO_TO_64)
    ensures AllReplayable(Frames(EntryWords(key, x, ttl, q)))
  {
    hide ValueWords, ExpireWords, Replayable, BulkArray, OrderFor, ValueFits, Fits;
    if !Vacant(x) { ValueReplayable(key, x, q); }
    if ttl.Some? { ExpireReplayable(key, ttl.value); }
  }

  lemma AppendReplayable(a: seq<Value>, b: seq<Value>)
    requires AllReplayable(a) && AllReplayable(b)
    ensures AllReplayable(a + b)
  {
    hide Replayable;
  }

  lemma {:induction false} RewriteReplayable(v: View, now: int, keys: seq<bytes>, orders: map<bytes, seq<bytes>>)
    requires InMemory(v) && GoodOrders(v, keys, orders)
    ensures AllReplayable(RewriteFrames(v, now, keys, orders))
    decreases |keys|
  {
    hide Frames, EntryWords, OrderFor, ValueFits, Fits, Replayable, AllReplayable;
    if keys == [] {
      NoneReplayable();
    } else {
      var last := keys[|keys| - 1];
      var frames := Frames(EntryWords(last, v[last].value, Remaining(v[last], now), orders[last]));
      RewriteReplayable(v, now, keys[..|keys| - 1], orders);
      EntryReplayable(last, v[last].value, Remaining(v[last], now), orders[last]);
      AppendReplayable(RewriteFrames(v, now, keys[..|keys| - 1], orders), frames);
    }
  }

  lemma NoneReplayable()
    ensures AllReplayable([])
  {
  }

  lemma ReplayableStream(frames: seq<Value>)
    requires AllReplayable(frames)
    ensures DecodableAll(frames) && forall i :: 0 <= i < |frames| ==> Determined(frames[i])
  {
    hide Decodable, DecodableAll, Determined;
    DecodableItems(frames);
  }

  /** Everything of a stream of frames is drained from it. */
  lemma WholeStream(frames: seq<Value>)
    requires DecodableAll(frames)
    ensures Drain(EncodeAll(frames)).values == frames
  {
    hide DecodableAll, Drain, EncodeAll;
    var k := |EncodeAll(frames)|;
    CutStream(frames, k);
    WholeFramesFit(frames, k);
    assert EncodeAll(frames)[..k] == EncodeAll(frames);
    assert frames[..|frames|] == frames;
  }

  /** Rewriting preserves meaning. Whatever order the keys and each hash table are visited
      in, all that a replay of the rewritten log into an empty store can give is the same
      keys with the same values of all five types; a key without a deadline has none, and
      one with `ms` left at the time of writing, or one that has passed since the keys were
      listed, counted as 1, has `RestoredTtl(ms)` left. */
  lemma RewriteRestores(v: View, now: int, keys: seq<bytes>, orders: map<bytes, seq<bytes>>, t: int, v': View)
    requires SoundView(v) && InMemory(v) && Within(v, now)
    requires Enumerates(keys, v.Keys) && GoodOrders(v, keys, orders)
    requires Replays(map[], EncodeAll(RewriteFrames(v, now, keys, orders)), t, v')
    ensures v' == Rebuilt(v, now, t)
  {
    hide AllReplayable, RewriteFrames, EncodeAll, DecodableAll, Drain, Reaches, GoodOrders, Determined, ApplyAll;
    EnumerationIs(keys, v.Keys);
    GoodOrdersIn(v, keys, orders);
    var frames := RewriteFrames(v, now, keys, orders);
    RewriteReplayable(v, now, keys, orders);
    ReplayableStream(frames);
    WholeStream(frames);
    RunAtOnce(map[], frames, t, v');
    KeysRebuilt(v, now, keys, orders, t);
  }

  lemma GoodOrdersIn(v: View, keys: seq<bytes>, orders: map<bytes, seq<bytes>>)
    requires GoodOrders(v, keys, orders)
    ensures forall k :: k in keys ==> k in v && k in orders
  {
  }
}
