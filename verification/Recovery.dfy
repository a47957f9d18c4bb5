/** The persistence theorems for everything a server can get into its store. */
module Recovery {
  import opened Bytes
  import opened Resp
  import opened Values
  import opened Enumerations
  import opened Laws
  import opened Aof
  import opened Rewrite
  import opened RdbFile
  import opened Runs

  /** What any run from an empty store leaves to be seen at `now`. */
  ghost predicate Reachable(v: View, now: int)
  {
    exists events, from, w :: Reaches(map[], events, w) && Aof.InOrder(events, from, now) && v == Prune(w, now)
  }

  lemma ReachableIsSound(v: View, now: int)
    requires Reachable(v, now)
    ensures SoundView(v) && Within(v, now) && Prune(v, now) == v && forall k :: k in v ==> AliveAt(v[k], now)
  {
    hide Reaches, Aof.InOrder, Sound;
    var events, from, w :| Reaches(map[], events, w) && Aof.InOrder(events, from, now) && v == Prune(w, now);
    RunKeeps(map[], events, from, now, w);
    PruneSound(w, now);
  }

  /** Rewriting the log of any reachable store, its keys listed at `at` and written at `now`, and
      replaying it at `t`: the same keys with the same values. A key without a deadline gets
      none. A remaining lifetime of ms becomes ms rounded up to whole seconds, which is never
      shorter and less than a second longer, exactly when ms is at most 18446744073709551000;
      beyond that 384 ms are left. A key that expired between `at` and `now` comes back for one
      second. */
  lemma RewriteOfReachable(v: View, at: int, now: int, keys: seq<bytes>, orders: map<bytes, seq<bytes>>, t: int, v': View)
    requires Reachable(v, at) && at <= now && InMemory(v) && Enumerates(keys, v.Keys) && GoodOrders(v, keys, orders)
    requires Replays(map[], EncodeAll(RewriteFrames(v, now, keys, orders)), t, v')
    ensures v'.Keys == v.Keys
    ensures forall k :: k in v ==> v'[k].value == v[k].value && (v'[k].deadline.None? <==> v[k].deadline.None?)
    ensures forall k :: k in v && v[k].deadline.Some? ==> Lifetime(v[k].deadline.value - now, v'[k].deadline.value - t)
  {
    hide Reachable, Replays, InMemory, GoodOrders, RewriteFrames, EncodeAll, SoundView, RestoredTtl;
    ReachableIsSound(v, at);
    assert Within(v, now);
    hide Within;
    RewriteRestores(v, now, keys, orders, t, v');
    forall k | k in v && v[k].deadline.Some? ensures Lifetime(v[k].deadline.value - now, v'[k].deadline.value - t) {
      WithinAt(v, at, k);
      RestoredTtlExactly(LeftUntil(v[k].deadline.value, now));
    }
  }

  /** A lifetime of `ms` at the time of writing and the one it is restored to. */
  predicate Lifetime(ms: int, restored: int)
  {
    if ms <= 0 then restored == 1000
    else
      && (ms <= 18446744073709551000 <==> ms <= restored < ms + 1000)
      && (ms <= 18446744073709551000 ==> restored == (ms + 999) / 1000 * 1000)
      && (ms > 18446744073709551000 ==> restored == 384)
  }

  /** So a rewrite that takes time can bring back a key that a client has seen expire: exactly
      those do come back whose deadline lies between the two moments. */
  lemma ExpiredKeysReturn(v: View, at: int, now: int, keys: seq<bytes>, orders: map<bytes, seq<bytes>>, t: int, v': View,
                          k: bytes)
    requires Reachable(v, at) && at <= now && InMemory(v) && Enumerates(keys, v.Keys) && GoodOrders(v, keys, orders)
    requires Replays(map[], EncodeAll(RewriteFrames(v, now, keys, orders)), t, v')
    ensures k in v' && k !in Prune(v, now) <==> k in v && v[k].deadline.Some? && at < v[k].deadline.value <= now
    ensures k in v' && k !in Prune(v, now) ==> v'[k] == Entry(v[k].value, Some(t + 1000))
  {
    hide Reachable, Replays, InMemory, GoodOrders, RewriteFrames, EncodeAll, SoundView, Within;
    RewriteOfReachable(v, at, now, keys, orders, t, v');
    ReachableIsSound(v, at);
    if k in v { assert AliveAt(v[k], at); }
  }

  lemma WithinAt(v: View, now: int, k: bytes)
    requires Within(v, now) && Prune(v, now) == v && k in v && v[k].deadline.Some?
    ensures 1 <= v[k].deadline.value - now < TWO_TO_64
  {
    assert k in Prune(v, now);
  }

  /** Loading the snapshot of any reachable store, at any later time: a key is there exactly
      when it was saved and its absolute deadline, if it has one, is ahead and fits 64 bits;
      its value is the same, and so is its absolute deadline. */
  lemma SnapshotOfReachable(v: View, keys: seq<bytes>, orders: map<bytes, seq<bytes>>, n: nat, timed: nat, t: Times)
    requires Reachable(v, t.now) && Enumerates(keys, v.Keys) && GoodOrders(v, keys, orders)
    requires t.wall < TWO_TO_64 && t.wall <= t.wall'
    requires Fits(FileBytes(t.wall, n, timed, Saved(v, t.now, t.wall, keys, orders)))
    ensures var scanned := Scan(FileBytes(t.wall, n, timed, Saved(v, t.now, t.wall, keys, orders)), 9);
      var s := LoadAll((map[], map[]), scanned.records, t.wall', t.now');
      var v' := LiveView(s.0, s.1, t.now');
      && scanned.ending == Finished && Consistent(s.0, s.1)
      && (forall k :: k in v' <==> k in v && ComesBack(v[k], t))
      && (forall k :: k in v' ==> v'[k].value == v[k].value && (v'[k].deadline.None? <==> v[k].deadline.None?))
      && (forall k :: k in v' && v[k].deadline.Some? ==>
            (v'[k].deadline.value - t.now') + t.wall' == AbsoluteDeadline(v[k].deadline.value, t))
  {
    hide Reachable, GoodOrders, FileBytes, Saved, Scan, LoadAll, SoundView, Within, LiveView, Consistent;
    ReachableIsSound(v, t.now);
    SnapshotRestores(v, keys, orders, n, timed, t);
  }
}
