/** The store: two maps that methods update in place, with lazy expiry on access. The clock
    reading of a call is its parameter `now`. */
module Stores {
  import opened Bytes
  import opened Decimal
  import opened Values
  import opened Enumerations
  import opened Semantics
  import opened SortedSets
  import opened Windows

  /** Which keys DEL counts: those still held, expired or not. The count is the number of
      live keys exactly when none of the named keys has expired and not been evicted. */
  lemma DelCountExactly(data: Data, expirations: Expirations, ks: seq<bytes>, now: int)
    ensures var v := LiveView(data, expirations, now);
      && |v.Keys * SetOf(ks)| <= |data.Keys * SetOf(ks)| <= |SetOf(ks)|
      && (|data.Keys * SetOf(ks)| == |v.Keys * SetOf(ks)| <==> forall k :: k in ks && k in data ==> k in v)
  {
    var v := LiveView(data, expirations, now);
    var live, held, named := v.Keys * SetOf(ks), data.Keys * SetOf(ks), SetOf(ks);
    SubsetSize(live, held);
    SubsetSize(held, named);
    if |held| == |live| {
      forall k | k in ks && k in data ensures k in v { assert k in held; }
    }
    if forall k :: k in ks && k in data ==> k in v { assert held == live; }
  }

  lemma {:induction false} SubsetSize<T>(a: set<T>, b: set<T>)
    requires a <= b
    ensures |a| <= |b|
    ensures |a| == |b| ==> a == b
  {
    if a != {} {
      var x :| x in a;
      SubsetSize(a - {x}, b - {x});
    } else if b != {} {
      var x :| x in b;
      assert |b| == |b - {x}| + 1;
    }
  }

  class Store {
    var data: Data
    var expirations: Expirations

    ghost predicate Valid()
      reads this
    {
      Consistent(data, expirations)
    }

    /** What a client can see at `now`. */
    ghost function Live(now: int): View
      reads this
    {
      LiveView(data, expirations, now)
    }

    constructor ()
      ensures Valid() && data == map[] && expirations == map[]
    {
      data, expirations := map[], map[];
    }

    // ---------------------------------------------------------------- expiry

    /** Removes the key if its deadline has passed. */
    method CheckExpiration(key: bytes, now: int) returns (expired: bool)
      requires Valid()
      modifies this
      ensures Valid() && Live(now) == old(Live(now))
      ensures expired <==> key in old(expirations) && now >= old(expirations)[key]
      ensures var gone: set<bytes> := if expired then {key} else {};
        data == old(data) - gone && expirations == old(expirations) - gone
      ensures key in expirations ==> now < expirations[key]
      ensures key in data <==> key in Live(now)
      ensures key in data ==> Live(now)[key].value == data[key]
    {
      expired := false;
      if key in expirations && now >= expirations[key] {
        EvictionInvisible(data, expirations, {key}, now);
        data := data - {key};
        expirations := expirations - {key};
        expired := true;
      }
    }

    /** Background eviction: nothing that can be seen now or later changes, and nothing
        expired is held any more. */
    method EvictExpired(now: int) returns (evicted: nat)
      requires Valid()
      modifies this
      ensures Valid()
      ensures forall t :: t >= now ==> Live(t) == old(Live(t))
      ensures forall k :: k in expirations ==> now < expirations[k]
      ensures data.Keys == Live(now).Keys && evicted == |old(data)| - |data|
    {
      var expired := set k | k in expirations && now >= expirations[k];
      var order := Enumerate(expired);
      EnumerationIs(order, expired);
      evicted := DropEach(order);
      forall t | t >= now ensures Live(t) == old(Live(t)) {
        EvictionInvisible(old(data), old(expirations), expired, t);
      }
      DroppedCount(old(data), expired);
    }

    /** The loop of `evict_expired` and of `del`: how many of the keys held data. */
    method DropEach(keys: seq<bytes>) returns (count: nat)
      modifies this
      ensures data == old(data) - SetOf(keys) && expirations == old(expirations) - SetOf(keys)
      ensures count == |old(data).Keys * SetOf(keys)|
    {
      ghost var d, e := data, expirations;
      ghost var done: set<bytes> := {};
      count := 0;
      for i := 0 to |keys|
        invariant done == SetOf(keys[..i])
        invariant data == d - done && expirations == e - done && count == |d.Keys * done|
      {
        SetOfNext(keys, i);
        var one := DropKey(keys[i]);
        DropNext(d, done, keys[i]);
        DropNext(e, done, keys[i]);
        count := count + one;
        done := done + {keys[i]};
      }
      assert keys[..|keys|] == keys;
    }

    method DropKey(key: bytes) returns (count: nat)
      modifies this
      ensures data == old(data) - {key} && expirations == old(expirations) - {key}
      ensures count == if key in old(data) then 1 else 0
    {
      count := if key in data then 1 else 0;
      data := data - {key};
      expirations := expirations - {key};
    }

    /** `set_expiration`. */
    method SetExpiration(key: bytes, deadline: Option<int>)
      modifies this`expirations
      ensures expirations == match deadline
        case Some(t) => old(expirations)[key := t]
        case None => old(expirations) - {key}
    {
      if deadline.Some? {
        expirations := expirations[key := deadline.value];
      } else {
        expirations := expirations - {key};
      }
    }

    // ------------------------------------------------------- writing an entry back

    /** Writes a value through an entry: the deadline stays. */
    method PutValue(key: bytes, x: StoredValue, now: int)
      requires Valid() && (key in expirations ==> now < expirations[key])
      modifies this`data
      ensures Live(now) == Write(old(Live(now)), key, x)
      ensures Sound(x) ==> Valid()
    {
      WriteValue(data, expirations, key, x, now);
      data := data[key := x];
    }

    /** Removes a key and its deadline. */
    method Remove(key: bytes, ghost now: int)
      requires Valid()
      modifies this
      ensures Valid() && Live(now) == old(Live(now)) - {key}
    {
      RemoveKeys(data, expirations, {key}, now);
      data := data - {key};
      expirations := expirations - {key};
    }

    /** Writes a shrunk collection back, or removes the key with its last element. */
    method PutOrRemove(key: bytes, x: StoredValue, now: int)
      requires Valid() && (key in expirations ==> now < expirations[key])
      requires Vacant(x) || Sound(x)
      modifies this
      ensures Valid() && Live(now) == Shrink(old(Live(now)), key, x)
    {
      if Vacant(x) {
        Remove(key, now);
      } else {
        PutValue(key, x, now);
      }
    }

    // ------------------------------------------------------------------- keys

    /** `get` on the data map after the expiry check: what every read starts with. */
    method Lookup(key: bytes, now: int) returns (x: Option<StoredValue>)
      requires Valid()
      modifies this
      ensures Valid() && Live(now) == old(Live(now)) && data.Keys <= old(data).Keys
      ensures x == if key in Live(now) then Some(Live(now)[key].value) else None
      ensures key in expirations ==> now < expirations[key]
      ensures x.Some? ==> Sound(x.value)
    {
      var expired := CheckExpiration(key, now);
      x := if key in data then Some(data[key]) else None;
    }

    method Exists(key: bytes, now: int) returns (there: bool)
      requires Valid()
      modifies this
      ensures Valid() && Live(now) == old(Live(now)) && there == (key in Live(now))
    {
      var expired := CheckExpiration(key, now);
      there := !expired && key in data;
    }

    /** DEL does not check deadlines first: it counts every key it finds. */
    method Del(keys: seq<bytes>, ghost now: int) returns (count: nat)
      requires Valid()
      modifies this
      ensures Valid() && Live(now) == old(Live(now)) - SetOf(keys)
      ensures count == |old(data).Keys * SetOf(keys)|
    {
      RemoveKeys(data, expirations, SetOf(keys), now);
      count := DropEach(keys);
    }

    /** `keys`: eviction first, then the data map in hash order. */
    method Keys(now: int) returns (q: seq<bytes>)
      requires Valid()
      modifies this
      ensures Valid() && forall t :: t >= now ==> Live(t) == old(Live(t))
      ensures Enumerates(q, Live(now).Keys) && data.Keys == Live(now).Keys
      ensures forall k :: k in expirations ==> now < expirations[k]
    {
      var evicted := EvictExpired(now);
      q := Enumerate(data.Keys);
    }

    method FlushAll()
      modifies this
      ensures Valid() && data == map[] && expirations == map[]
      ensures forall t :: Live(t) == map[]
    {
      data, expirations := map[], map[];
    }

    method Expire(key: bytes, ms: nat, now: int) returns (done: bool)
      requires Valid()
      modifies this
      ensures Valid() && done == (key in old(Live(now)))
      ensures Live(now) == var v := old(Live(now));
        if key in v then Put(v, key, v[key].value, Some(now + ms), now) else v
    {
      hide LiveView, Consistent;
      var expired := CheckExpiration(key, now);
      if expired { return false; }
      done := key in data;
      if done {
        ExpireEntry(data, expirations, key, now + ms, now);
        SetExpiration(key, Some(now + ms));
      }
    }

    method Pttl(key: bytes, now: int) returns (ms: i64)
      requires Valid()
      modifies this
      ensures Valid() && Live(now) == old(Live(now)) && ms == PttlOf(Live(now), key, now)
    {
      var there := Exists(key, now);
      if !there { return -2; }
      ms := if key in expirations
        then AsI64(if expirations[key] < now then 0 else expirations[key] - now) else -1;
    }

    method Ttl(key: bytes, now: int) returns (seconds: i64)
      requires Valid()
      modifies this
      ensures Valid() && Live(now) == old(Live(now)) && seconds == TtlOf(Live(now), key, now)
    {
      var ms: int := Pttl(key, now);
      seconds := if ms == -2 then -2 else if ms == -1 then -1
        else if ms < 0 then -((-ms) / 1000) else ms / 1000;
    }

    // ------------------------------------------------------------ persistence access

    /** `snapshot`: eviction first, then copies of both maps. */
    method Snapshot(now: int) returns (d: Data, e: Expirations)
      requires Valid()
      modifies this
      ensures Valid() && d == data && e == expirations
      ensures forall t :: t >= now ==> Live(t) == old(Live(t))
    {
      var evicted := EvictExpired(now);
      d, e := data, expirations;
    }

    /** `restore`: a value without touching the deadlines. */
    method Restore(key: bytes, x: StoredValue)
      modifies this`data
      ensures data == old(data)[key := x]
    {
      data := data[key := x];
    }

    /** `set_with_ttl`. */
    method SetWithTtl(key: bytes, x: StoredValue, ms: nat, now: int)
      modifies this
      ensures data == old(data)[key := x] && expirations == old(expirations)[key := now + ms]
    {
      data := data[key := x];
      expirations := expirations[key := now + ms];
    }

    /** `get_for_restore`: the value without an expiry check. */
    method GetForRestore(key: bytes) returns (x: Option<StoredValue>)
      ensures x == if key in data then Some(data[key]) else None
    {
      x := if key in data then Some(data[key]) else None;
    }

    /** `ttl_ms_for_persistence`: what remains, at least one millisecond, cast to u64. */
    method TtlMsForPersistence(key: bytes, now: int) returns (ms: Option<u64>)
      ensures key !in expirations ==> ms == None
      ensures key in expirations && now < expirations[key] ==> ms == Some(AsU64(expirations[key] - now))
      ensures key in expirations && expirations[key] <= now ==> ms == Some(1)
    {
      if key !in expirations { return None; }
      var left := if expirations[key] < now then 0 else expirations[key] - now;
      ms := Some(AsU64(if left < 1 then 1 else left));
    }

    // ---------------------------------------------------------------- strings

    method Set(key: bytes, value: bytes, px: Option<nat>, now: int)
      requires Valid()
      modifies this
      ensures Valid()
      ensures Live(now) == Put(old(Live(now)), key, Str(value), if px.Some? then Some(now + px.value) else None, now)
    {
      if px.Some? {
        WriteTimed(data, expirations, key, Str(value), now + px.value, now);
      } else {
        WriteUntimed(data, expirations, key, Str(value), now);
      }
      data := data[key := Str(value)];
      SetExpiration(key, if px.Some? then Some(now + px.value) else None);
    }

    method AdjustCounter(key: bytes, delta: int, now: int) returns (r: Result<i64, bytes>)
      requires Valid()
      modifies this
      ensures Valid() && r == Adjusted(old(Live(now)), key, delta)
      ensures Live(now) == Counted(old(Live(now)), key, delta)
    {
      hide LiveView, Consistent;
      var found := Lookup(key, now);
      var entry := if found.Some? then found.value else Str("0");
      if !entry.Str? { return Err("Key does not hold a string value"); }
      var current := ParseI64(entry.text);
      if current.None? { return Err("Value is not an integer"); }
      var n := current.value + delta;
      if !(-TWO_TO_63 <= n < TWO_TO_63) { return Err("Integer overflow"); }
      PutValue(key, Str(IntText(n)), now);
      r := Ok(n);
    }

    method Append(key: bytes, value: bytes, now: int) returns (len: nat)
      requires Valid()
      modifies this
      ensures Valid()
      ensures Live(now) == var v := old(Live(now));
        if Mistyped(v, key, StringKind) then v
        else Write(v, key, Str((if key in v then v[key].value.text else []) + value))
      ensures var v := old(Live(now));
        len == if Mistyped(v, key, StringKind) then 0 else (if key in v then |v[key].value.text| else 0) + |value|
    {
      hide LiveView, Consistent;
      var found := Lookup(key, now);
      var entry := if found.Some? then found.value else Str([]);
      if !entry.Str? { return 0; }
      len := |entry.text + value|;
      PutValue(key, Str(entry.text + value), now);
    }

    // ------------------------------------------------------------------ lists

    method LPush(key: bytes, value: bytes, now: int) returns (len: nat)
      requires Valid()
      modifies this
      ensures Valid()
      ensures var v := old(Live(now));
        if Mistyped(v, key, ListKind) then Live(now) == v && len == 0
        else Live(now) == Write(v, key, List([value] + ListAt(v, key))) && len == |ListAt(v, key)| + 1
    {
      hide LiveView, Consistent;
      var found := Lookup(key, now);
      var entry := if found.Some? then found.value else List([]);
      if !entry.List? { return 0; }
      PutValue(key, List([value] + entry.items), now);
      len := |entry.items| + 1;
    }

    method RPush(key: bytes, value: bytes, now: int) returns (len: nat)
      requires Valid()
      modifies this
      ensures Valid()
      ensures var v := old(Live(now));
        if Mistyped(v, key, ListKind) then Live(now) == v && len == 0
        else Live(now) == Write(v, key, List(ListAt(v, key) + [value])) && len == |ListAt(v, key)| + 1
    {
      hide LiveView, Consistent;
      var found := Lookup(key, now);
      var entry := if found.Some? then found.value else List([]);
      if !entry.List? { return 0; }
      PutValue(key, List(entry.items + [value]), now);
      len := |entry.items| + 1;
    }

    method LPop(key: bytes, now: int) returns (x: Option<bytes>)
      requires Valid()
      modifies this
      ensures Valid()
      ensures var v, l := old(Live(now)), ListAt(old(Live(now)), key);
        if l == [] then Live(now) == v && x == None
        else Live(now) == Shrink(v, key, List(l[1..])) && x == Some(l[0])
    {
      hide LiveView, Consistent;
      var found := Lookup(key, now);
      if found.None? || !found.value.List? { return None; }
      var items := found.value.items;
      PutOrRemove(key, List(items[1..]), now);
      x := Some(items[0]);
    }

    method RPop(key: bytes, now: int) returns (x: Option<bytes>)
      requires Valid()
      modifies this
      ensures Valid()
      ensures var v, l := old(Live(now)), ListAt(old(Live(now)), key);
        if l == [] then Live(now) == v && x == None
        else Live(now) == Shrink(v, key, List(l[..|l| - 1])) && x == Some(l[|l| - 1])
    {
      hide LiveView, Consistent;
      var found := Lookup(key, now);
      if found.None? || !found.value.List? { return None; }
      var items := found.value.items;
      PutOrRemove(key, List(items[..|items| - 1]), now);
      x := Some(items[|items| - 1]);
    }

    /** `l_range`; None stands for the panic of an out-of-bounds range. */
    method LRange(key: bytes, start: i64, stop: i64, now: int) returns (q: Option<seq<bytes>>)
      requires Valid()
      modifies this
      ensures Valid() && Live(now) == old(Live(now))
      ensures q == ListWindow(ListAt(Live(now), key), start, stop)
    {
      hide LiveView, Consistent;
      var found := Lookup(key, now);
      if found.None? || !found.value.List? { return Some([]); }
      q := ListWindow(found.value.items, start, stop);
    }

    method LIndex(key: bytes, index: i64, now: int) returns (x: Option<bytes>)
      requires Valid()
      modifies this
      ensures Valid() && Live(now) == old(Live(now))
      ensures x == ListIndex(ListAt(Live(now), key), index)
    {
      hide LiveView, Consistent;
      var found := Lookup(key, now);
      if found.None? || !found.value.List? { return None; }
      x := ListIndex(found.value.items, index);
    }

    // ------------------------------------------------------------------- sets

    method SAdd(key: bytes, members: seq<bytes>, now: int) returns (added: nat)
      requires Valid()
      modifies this
      ensures members != [] ==> Valid()
      ensures var v := old(Live(now));
        if Mistyped(v, key, SetKind) then Live(now) == v && added == 0
        else (Live(now) == Write(v, key, StoredValue.Set(MembersAt(v, key) + SetOf(members)))
              && added == |SetOf(members) - MembersAt(v, key)|)
    {
      hide LiveView, Consistent;
      var found := Lookup(key, now);
      var entry := if found.Some? then found.value else StoredValue.Set({});
      if !entry.Set? { return 0; }
      var s: set<bytes>;
      s, added := InsertEach(entry.members, members);
      if members != [] { assert members[0] in s; }
      PutValue(key, StoredValue.Set(s), now);
    }

    method SRem(key: bytes, members: seq<bytes>, now: int) returns (removed: nat)
      requires Valid()
      modifies this
      ensures Valid()
      ensures var v, s := old(Live(now)), MembersAt(old(Live(now)), key);
        && removed == |SetOf(members) * s|
        && Live(now) == if s == {} then v else Shrink(v, key, StoredValue.Set(s - SetOf(members)))
    {
      hide LiveView, Consistent;
      var found := Lookup(key, now);
      if found.None? || !found.value.Set? {
        assert SetOf(members) * {} == {};
        return 0;
      }
      var s: set<bytes>;
      s, removed := RemoveEach(found.value.members, members);
      PutOrRemove(key, StoredValue.Set(s), now);
    }

    /** Takes `count` members, in the order the hash set happens to iterate. */
    method SPop(key: bytes, count: nat, now: int) returns (popped: seq<bytes>)
      requires Valid()
      modifies this
      ensures Valid() && Pops(old(Live(now)), key, count, Live(now), popped)
    {
      hide LiveView, Consistent;
      var found := Lookup(key, now);
      if found.None? || !found.value.Set? {
        assert SetOf<bytes>([]) == {};
        return [];
      }
      var s: set<bytes>;
      s, popped := TakeSome(found.value.members, count);
      PutOrRemove(key, StoredValue.Set(s), now);
    }

    // ----------------------------------------------------------------- hashes

    method HSet(key: bytes, field: bytes, value: bytes, now: int) returns (isNew: bool)
      requires Valid()
      modifies this
      ensures Valid()
      ensures var v := old(Live(now));
        if Mistyped(v, key, HashKind) then Live(now) == v && !isNew
        else (Live(now) == Write(v, key, Hash(FieldsAt(v, key)[field := value]))
              && isNew == (field !in FieldsAt(v, key)))
    {
      hide LiveView, Consistent;
      var found := Lookup(key, now);
      var entry := if found.Some? then found.value else Hash(map[]);
      if !entry.Hash? { return false; }
      isNew := field !in entry.fields;
      var fields := entry.fields[field := value];
      assert field in fields;
      PutValue(key, Hash(fields), now);
    }

    method HDel(key: bytes, fields: seq<bytes>, now: int) returns (removed: nat)
      requires Valid()
      modifies this
      ensures Valid()
      ensures var v, h := old(Live(now)), FieldsAt(old(Live(now)), key);
        && removed == |SetOf(fields) * h.Keys|
        && Live(now) == if h == map[] then v else Shrink(v, key, Hash(h - SetOf(fields)))
    {
      hide LiveView, Consistent;
      var found := Lookup(key, now);
      if found.None? || !found.value.Hash? {
        assert SetOf(fields) * {} == {};
        return 0;
      }
      var h: map<bytes, bytes>;
      h, removed := RemoveFields(found.value.fields, fields);
      PutOrRemove(key, Hash(h), now);
    }

    // ------------------------------------------------------------ sorted sets

    method ZAdd(key: bytes, score: int, member: bytes, now: int) returns (isNew: bool)
      requires Valid()
      modifies this
      ensures Valid()
      ensures var v := old(Live(now));
        if Mistyped(v, key, ZsetKind) then Live(now) == v && !isNew
        else (Live(now) == Write(v, key, Ranked(ScoresAt(v, key)[member := score]))
              && isNew == (member !in ScoresAt(v, key)))
    {
      hide LiveView, Consistent;
      var found := Lookup(key, now);
      var entry := if found.Some? then found.value else SortedSet(map[], map[]);
      if !entry.SortedSet? { return false; }
      assert TreeOf(map[]) == map[];
      var scores, tree;
      scores, tree, isNew := Score(entry.scores, entry.tree, score, member);
      assert member in scores;
      PutValue(key, SortedSet(scores, tree), now);
    }

    method ZRem(key: bytes, members: seq<bytes>, now: int) returns (removed: nat)
      requires Valid()
      modifies this
      ensures Valid()
      ensures var v, z := old(Live(now)), ScoresAt(old(Live(now)), key);
        && removed == |SetOf(members) * z.Keys|
        && Live(now) == if z == map[] then v else Shrink(v, key, Ranked(z - SetOf(members)))
    {
      hide LiveView, Consistent;
      var found := Lookup(key, now);
      if found.None? || !found.value.SortedSet? {
        assert SetOf(members) * {} == {};
        return 0;
      }
      var scores, tree;
      scores, tree, removed := Unscore(found.value.scores, found.value.tree, members);
      ghost var z := found.value.scores;
      DroppedCount(z, SetOf(members));
      assert z.Keys * SetOf(members) == SetOf(members) * z.Keys;
      PutOrRemove(key, SortedSet(scores, tree), now);
    }

    /** `z_range`: the members by rank, then the window. */
    method ZRange(key: bytes, start: i64, stop: i64, now: int) returns (q: seq<Scored>)
      requires Valid()
      modifies this
      ensures Valid() && Live(now) == old(Live(now))
      ensures exists all :: ByRank(all, ScoresAt(Live(now), key)) && q == RankWindow(all, start, stop)
    {
      hide LiveView, Consistent;
      var found := Lookup(key, now);
      if found.None? || !found.value.SortedSet? {
        NoEntries();
        q := [];
        assert ByRank(q, ScoresAt(Live(now), key)) && q == RankWindow(q, start, stop);
        return;
      }
      var entries := RankAscending(found.value.scores, found.value.tree);
      q := RankWindow(entries, start, stop);
    }

    method ZRevRange(key: bytes, start: i64, stop: i64, now: int) returns (q: seq<Scored>)
      requires Valid()
      modifies this
      ensures Valid() && Live(now) == old(Live(now))
      ensures exists all :: ByReverseRank(all, ScoresAt(Live(now), key)) && q == RankWindow(all, start, stop)
    {
      hide LiveView, Consistent;
      var found := Lookup(key, now);
      if found.None? || !found.value.SortedSet? {
        NoEntries();
        q := [];
        assert ByReverseRank(q, ScoresAt(Live(now), key)) && q == RankWindow(q, start, stop);
        return;
      }
      var entries := RankDescending(found.value.scores, found.value.tree);
      q := RankWindow(entries, start, stop);
    }

    /** `z_count`; None stands for the panic of an inverted range. */
    method ZCount(key: bytes, min: int, max: int, now: int) returns (n: Option<nat>)
      requires Valid()
      modifies this
      ensures Valid() && Live(now) == old(Live(now))
      ensures n == if key in Live(now) && Live(now)[key].value.SortedSet? && max < min then None
        else Some(|InRange(ScoresAt(Live(now), key), min, max)|)
    {
      hide LiveView, Consistent;
      var found := Lookup(key, now);
      if found.None? || !found.value.SortedSet? {
        assert InRange(map[], min, max) == {};
        return Some(0);
      }
      if max < min { return None; }
      var count := CountRange(found.value.scores, found.value.tree, min, max);
      n := Some(count);
    }
  }

  // ------------------------------------------------ the loops over one collection

  /** The loop of `s_add`. */
  method InsertEach(before: set<bytes>, members: seq<bytes>) returns (s: set<bytes>, added: nat)
    ensures s == before + SetOf(members) && added == |SetOf(members) - before|
  {
    s, added := before, 0;
    for i := 0 to |members|
      invariant s == before + SetOf(members[..i]) && added == |SetOf(members[..i]) - before|
    {
      SetOfNext(members, i);
      AddNext(before, SetOf(members[..i]), members[i]);
      if members[i] !in s { added := added + 1; }
      s := s + {members[i]};
    }
    assert members[..|members|] == members;
  }

  /** The loop of `s_rem`. */
  method RemoveEach(before: set<bytes>, members: seq<bytes>) returns (s: set<bytes>, removed: nat)
    ensures s == before - SetOf(members) && removed == |SetOf(members) * before|
  {
    s, removed := before, 0;
    for i := 0 to |members|
      invariant s == before - SetOf(members[..i]) && removed == |before * SetOf(members[..i])|
    {
      SetOfNext(members, i);
      CountNext(before, SetOf(members[..i]), members[i]);
      if members[i] in s { removed := removed + 1; }
      s := s - {members[i]};
    }
    assert members[..|members|] == members;
    assert SetOf(members) * before == before * SetOf(members);
  }

  /** The loop of `h_del`. */
  method RemoveFields(before: map<bytes, bytes>, fields: seq<bytes>) returns (h: map<bytes, bytes>, removed: nat)
    ensures h == before - SetOf(fields) && removed == |SetOf(fields) * before.Keys|
  {
    h, removed := before, 0;
    ghost var done: set<bytes> := {};
    for i := 0 to |fields|
      invariant done == SetOf(fields[..i])
      invariant h == before - done && removed == |before.Keys * done|
    {
      SetOfNext(fields, i);
      var more;
      h, more := RemoveField(before, done, h, fields[i]);
      removed := removed + more;
      done := done + {fields[i]};
    }
    assert fields[..|fields|] == fields;
    assert SetOf(fields) * before.Keys == before.Keys * SetOf(fields);
  }

  method RemoveField(ghost before: map<bytes, bytes>, ghost done: set<bytes>, h: map<bytes, bytes>, field: bytes)
    returns (h': map<bytes, bytes>, removed: nat)
    requires h == before - done
    ensures h' == before - (done + {field})
    ensures |before.Keys * (done + {field})| == |before.Keys * done| + removed
  {
    CountNext(before.Keys, done, field);
    removed := if field in h then 1 else 0;
    h' := h - {field};
  }

  /** The loop of `s_pop`: members in the order the hash set happens to iterate. */
  method TakeSome(all: set<bytes>, count: nat) returns (s: set<bytes>, popped: seq<bytes>)
    ensures Enumerates(popped, SetOf(popped)) && SetOf(popped) <= all && s == all - SetOf(popped)
    ensures |popped| == if count < |all| then count else |all|
  {
    s, popped := all, [];
    ghost var taken: set<bytes> := {};
    while |popped| < count && s != {}
      invariant taken + s == all && taken !! s && Enumerates(popped, taken) && |popped| <= count
      decreases s
    {
      var member :| member in s;
      TakeOne(popped, taken, member);
      s := s - {member};
      taken := taken + {member};
      popped := popped + [member];
    }
    EnumerationIs(popped, taken);
  }

  lemma TakeOne(popped: seq<bytes>, taken: set<bytes>, member: bytes)
    requires Enumerates(popped, taken) && member !in taken
    ensures Enumerates(popped + [member], taken + {member})
  {
    assert multiset(taken + {member}) == multiset(taken) + multiset{member};
  }

  lemma SetOfNext<T>(q: seq<T>, i: nat)
    requires i < |q|
    ensures SetOf(q[..i + 1]) == SetOf(q[..i]) + {q[i]}
  {
  }

  lemma DropNext<K, V>(m: map<K, V>, done: set<K>, k: K)
    ensures m - (done + {k}) == m - done - {k}
    ensures |m.Keys * (done + {k})| == |m.Keys * done| + if k in m - done then 1 else 0
  {
    CountNext(m.Keys, done, k);
  }

  lemma DroppedCount<K, V>(m: map<K, V>, gone: set<K>)
    ensures |m.Keys * gone| == |m| - |m - gone|
  {
    assert (m - gone).Keys == m.Keys - gone;
    assert m.Keys == (m.Keys - gone) + m.Keys * gone;
  }

  lemma CountNext<T>(all: set<T>, done: set<T>, x: T)
    ensures |all * (done + {x})| == |all * done| + if x in all - done then 1 else 0
  {
    if x in all - done {
      assert all * (done + {x}) == all * done + {x};
    } else {
      assert all * (done + {x}) == all * done;
    }
  }

  lemma AddNext<T>(before: set<T>, done: set<T>, x: T)
    ensures |done + {x} - before| == |done - before| + if x !in before + done then 1 else 0
  {
    if x !in before + done {
      assert done + {x} - before == (done - before) + {x};
    } else {
      assert done + {x} - before == done - before;
    }
  }

  /** A new deadline on a key that is there. */
  lemma ExpireEntry(data: Data, expirations: Expirations, key: bytes, deadline: int, now: int)
    requires Consistent(data, expirations) && key in data
    ensures Consistent(data, expirations[key := deadline])
    ensures LiveView(data, expirations[key := deadline], now) ==
      Put(LiveView(data, expirations, now), key, data[key], Some(deadline), now)
  {
    WriteTimed(data, expirations, key, data[key], deadline, now);
    assert data[key := data[key]] == data;
  }

  lemma NoEntries()
    ensures Entries(map[]) == {} && ByRank([], map[]) && ByReverseRank([], map[])
    ensures forall start: i64, stop: i64 :: RankWindow<Scored>([], start, stop) == []
  {
    var none: seq<Scored> := [];
    assert Entries(map[]) == {};
    assert multiset(none) == multiset(Entries(map[]));
  }
}
