/** The append-only log: what the server writes to it, what replaying it does, and what a log
    cut off anywhere still holds. */
module Aof {
  import opened Bytes
  import opened Resp
  import opened RespStream
  import opened Commands
  import opened Values
  import opened Semantics
  import opened Laws

  // ------------------------------------------------------------------- the filter

  /** The names that are not logged. */
  predicate IsReadName(name: bytes)
  {
    name in {
      "GET", "MGET", "EXISTS", "TTL", "PTTL", "TYPE", "KEYS", "SCAN",
      "LRANGE", "LLEN", "LINDEX",
      "SMEMBERS", "SCARD", "SISMEMBER", "SRANDMEMBER",
      "HGET", "HMGET", "HGETALL", "HKEYS", "HVALS", "HLEN", "HEXISTS",
      "ZRANGE", "ZREVRANGE", "ZRANGEBYSCORE", "ZREVRANGEBYSCORE", "ZCARD", "ZSCORE", "ZRANK", "ZREVRANK", "ZCOUNT",
      "PING", "ECHO", "INFO", "QUIT", "SELECT", "DBSIZE"
    }
  }

  predicate ShouldLog(name: bytes) { !IsReadName(Upper(name)) }

  /** The filter in terms of commands: everything that can change the store is logged, and of
      the rest only STRLEN, which the list of names leaves out. */
  lemma FilterExactly(c: Command)
    ensures !IsReadName(NameOf(c)) <==> Mutates(c) || c.StrLen?
  {
    hide IsReadName, NameOf, Mutates;
    if c.LRange? || c.LLen? || c.LIndex? || c.SMembers? || c.SCard? || c.SIsMember? {
      ListReads(c);
    } else if c.HGet? || c.HGetAll? || c.HKeys? || c.HVals? || c.HLen? || c.HExists? {
      HashReads(c);
    } else if c.ZRange? || c.ZRevRange? || c.ZCard? || c.ZScore? || c.ZCount? {
      SortedSetReads(c);
    } else if c.Get? || c.MGet? || c.Exists? || c.Ttl? || c.Pttl? || c.Type? || c.Keys? {
      KeyReads(c);
    } else if c.Ping? || c.Echo? || c.Info? || c.Quit? {
      ConnectionReads(c);
    } else if c.Set? || c.Del? || c.Expire? || c.Incr? || c.Decr? || c.MSet? || c.Append? || c.FlushAll? || c.StrLen? {
      KeyWrites(c);
    } else {
      CollectionWrites(c);
    }
  }

  lemma KeyReads(c: Command)
    requires c.Get? || c.MGet? || c.Exists? || c.Ttl? || c.Pttl? || c.Type? || c.Keys?
    ensures IsReadName(NameOf(c)) && !Mutates(c)
  {
  }

  lemma ListReads(c: Command)
    requires c.LRange? || c.LLen? || c.LIndex? || c.SMembers? || c.SCard? || c.SIsMember?
    ensures IsReadName(NameOf(c)) && !Mutates(c)
  {
  }

  lemma HashReads(c: Command)
    requires c.HGet? || c.HGetAll? || c.HKeys? || c.HVals? || c.HLen? || c.HExists?
    ensures IsReadName(NameOf(c)) && !Mutates(c)
  {
  }

  lemma SortedSetReads(c: Command)
    requires c.ZRange? || c.ZRevRange? || c.ZCard? || c.ZScore? || c.ZCount?
    ensures IsReadName(NameOf(c)) && !Mutates(c)
  {
  }

  lemma ConnectionReads(c: Command)
    requires c.Ping? || c.Echo? || c.Info? || c.Quit?
    ensures IsReadName(NameOf(c)) && !Mutates(c)
  {
  }

  lemma KeyWrites(c: Command)
    requires c.Set? || c.Del? || c.Expire? || c.Incr? || c.Decr? || c.MSet? || c.Append? || c.FlushAll? || c.StrLen?
    ensures !IsReadName(NameOf(c)) && (Mutates(c) || c.StrLen?)
  {
  }

  lemma CollectionWrites(c: Command)
    requires c.LPush? || c.RPush? || c.LPop? || c.RPop? || c.SAdd? || c.SRem? || c.SPop?
      || c.HSet? || c.HDel? || c.ZAdd? || c.ZRem?
    ensures !IsReadName(NameOf(c)) && Mutates(c)
  {
  }

  /** Whether a request is logged: `handle_connection` looks at its first element. */
  predicate Logged(request: Value)
  {
    && request.Array? && request.items != []
    && request.items[0].BulkString? && request.items[0].bulk != []
    && ShouldLog(request.items[0].bulk)
  }

  /** A request whose first word names a command, in any letter case and with any arguments, is
      logged exactly when that command can change the store, or is STRLEN. */
  lemma LoggedByName(request: Value, c: Command)
    requires request.Array? && request.items != [] && request.items[0].BulkString?
    requires Upper(request.items[0].bulk) == NameOf(c)
    ensures Logged(request) <==> Mutates(c) || c.StrLen?
  {
    hide NameOf, Mutates, IsReadName;
    FilterExactly(c);
  }

  /** So a request that parses is logged exactly when it is one of those. */
  lemma LoggedExactly(request: Value)
    requires request.Array? && TryFrom(request.items).Ok?
    ensures Logged(request) <==> Mutates(TryFrom(request.items).value) || TryFrom(request.items).value.StrLen?
  {
    hide TryFrom, Logged, Mutates;
    LoggedByName(request, TryFrom(request.items).value);
  }

  // ---------------------------------------------------------------- runs of requests

  /** A request and the time at which it is executed. */
  datatype Event = Event(request: Value, at: int)

  /** What one request can do to a view; requests that do not parse do nothing. */
  ghost predicate Handles(v: View, request: Value, now: int, v': View)
  {
    if request.Array? && TryFrom(request.items).Ok? then
      exists reply :: Steps(v, TryFrom(request.items).value, now, v', reply)
    else v' == v
  }

  /** The same with the reply. */
  ghost predicate Responds(v: View, request: Value, now: int, v': View, reply: Reply)
  {
    if !request.Array? then v' == v && reply == Replied(Error("ERR invalid request format"))
    else if TryFrom(request.items).Ok? then Steps(v, TryFrom(request.items).value, now, v', reply)
    else v' == v && reply == Replied(Error(TryFrom(request.items).error))
  }

  lemma RespondsHandles(v: View, request: Value, now: int, v': View, reply: Reply)
    requires Responds(v, request, now, v', reply)
    ensures Handles(v, request, now, v')
  {
    hide TryFrom, Steps;
  }

  /** The views a run of requests can end in. Keys expire between requests. */
  ghost predicate Reaches(v: View, events: seq<Event>, v': View)
    decreases |events|
  {
    if events == [] then v' == v
    else exists w :: Handles(Prune(v, events[0].at), events[0].request, events[0].at, w) && Reaches(w, events[1..], v')
  }

  /** Times do not go back, from `from` to `until`. */
  predicate InOrder(events: seq<Event>, from: int, until: int)
    decreases |events|
  {
    if events == [] then from <= until
    else from <= events[0].at && InOrder(events[1..], events[0].at, until)
  }

  lemma {:induction false} ReachesSnoc(v: View, events: seq<Event>, w: View, e: Event, v': View)
    requires Reaches(v, events, w) && Handles(Prune(w, e.at), e.request, e.at, v')
    ensures Reaches(v, events + [e], v')
    decreases |events|
  {
    hide Handles;
    if events == [] {
      assert events + [e] == [e];
      assert Reaches(v', [], v') && [e][1..] == [];
    } else {
      var m :| Handles(Prune(v, events[0].at), events[0].request, events[0].at, m) && Reaches(m, events[1..], w);
      ReachesSnoc(m, events[1..], w, e, v');
      assert (events + [e])[0] == events[0] && (events + [e])[1..] == events[1..] + [e];
    }
  }

  // ------------------------------------------------------------- soundness of the filter

  function LoggedOnly(events: seq<Event>): seq<Event>
    decreases |events|
  {
    if events == [] then []
    else (if Logged(events[0].request) then [events[0]] else []) + LoggedOnly(events[1..])
  }

  /** A request that is not logged changes nothing, whether it parses, reads or fails. */
  lemma UnloggedChangesNothing(v: View, request: Value, now: int, v': View)
    requires !Logged(request) && Handles(v, request, now, v')
    ensures v' == v
  {
    hide TryFrom, Steps, IsReadName, NameOf;
    if request.Array? && TryFrom(request.items).Ok? {
      var c := TryFrom(request.items).value;
      FilterExactly(c);
      var reply :| Steps(v, c, now, v', reply);
      ReadersChangeNothing(v, c, now, v', reply);
    }
  }

  lemma PruneTwice(v: View, t: int, later: int)
    requires t <= later
    ensures Prune(Prune(v, t), later) == Prune(v, later)
  {
  }

  /** A run does not notice what its first request would have found expired. */
  lemma StartPruned(v: View, t: int, events: seq<Event>, until: int, w: View)
    requires Reaches(Prune(v, t), events, w) && InOrder(events, t, until)
    ensures exists w' :: Reaches(v, events, w') && Prune(w', until) == Prune(w, until)
  {
    hide Handles;
    if events == [] {
      PruneTwice(v, t, until);
      assert Reaches(v, [], v);
    } else {
      PruneTwice(v, t, events[0].at);
      assert Reaches(v, events, w);
    }
  }

  /** Executing only what the filter keeps can end in the same view as executing everything:
      deadlines, failures, unknown names, conditional commands and SPOP included. */
  lemma {:induction false} LogFilterSound(v: View, events: seq<Event>, from: int, until: int, v': View)
    requires Reaches(v, events, v') && InOrder(events, from, until)
    ensures InOrder(LoggedOnly(events), from, until)
    ensures exists w :: Reaches(v, LoggedOnly(events), w) && Prune(w, until) == Prune(v', until)
    decreases |events|
  {
    if events == [] {
      assert Reaches(v, LoggedOnly(events), v);
    } else {
      var e, rest := events[0], events[1..];
      var now := Prune(v, e.at);
      var m :| Handles(now, e.request, e.at, m) && Reaches(m, rest, v');
      LogFilterSound(m, rest, e.at, until, v');
      var w :| Reaches(m, LoggedOnly(rest), w) && Prune(w, until) == Prune(v', until);
      if Logged(e.request) {
        assert LoggedOnly(events)[0] == e && LoggedOnly(events)[1..] == LoggedOnly(rest);
        assert Reaches(v, LoggedOnly(events), w);
      } else {
        UnloggedChangesNothing(now, e.request, e.at, m);
        assert LoggedOnly(events) == LoggedOnly(rest);
        StartPruned(v, e.at, LoggedOnly(rest), until, w);
        EarlierStart(LoggedOnly(rest), from, e.at, until);
      }
    }
  }

  lemma EarlierStart(events: seq<Event>, from: int, start: int, until: int)
    requires InOrder(events, start, until) && from <= start
    ensures InOrder(events, from, until)
  {
  }

  // ----------------------------------------------------------- runs without time or chance

  /** Requests that set no deadline and leave nothing to hash order. */
  predicate Timeless(request: Value)
  {
    request.Array? && TryFrom(request.items).Ok? ==>
      Untimed(TryFrom(request.items).value) && !TryFrom(request.items).value.SPop?
  }

  /** What a request other than SPOP does at `now`. */
  function Apply(v: View, request: Value, now: int): View
  {
    if request.Array? && TryFrom(request.items).Ok? then Next(v, TryFrom(request.items).value, now) else v
  }

  function ApplyAll(v: View, requests: seq<Value>, now: int): View
    decreases |requests|
  {
    if requests == [] then v else ApplyAll(Apply(v, requests[0], now), requests[1..], now)
  }

  function Requests(events: seq<Event>): (r: seq<Value>)
    ensures |r| == |events| && forall i :: 0 <= i < |events| ==> r[i] == events[i].request
  {
    seq(|events|, i requires 0 <= i < |events| => events[i].request)
  }

  predicate AllTimeless(events: seq<Event>) { forall i :: 0 <= i < |events| ==> Timeless(events[i].request) }

  lemma TimelessHandles(v: View, request: Value, now: int, v': View, clock: int)
    requires NoDeadlines(v) && Timeless(request) && Handles(v, request, now, v')
    ensures v' == Apply(v, request, clock) && NoDeadlines(v')
  {
    hide TryFrom, Next, Answers, NoDeadlines;
    if request.Array? && TryFrom(request.items).Ok? {
      UntimedStep(v, TryFrom(request.items).value, now, clock);
    }
  }

  /** A timeless run from a view without deadlines has one outcome, whenever it runs. */
  lemma {:induction false} TimelessRun(v: View, events: seq<Event>, v': View, clock: int)
    requires NoDeadlines(v) && AllTimeless(events) && Reaches(v, events, v')
    ensures v' == ApplyAll(v, Requests(events), clock) && NoDeadlines(v')
    decreases |events|
  {
    if events == [] {
      assert Requests(events) == [];
    } else {
      hide Handles, Timeless, Apply;
      assert Prune(v, events[0].at) == v;
      var w :| Handles(v, events[0].request, events[0].at, w) && Reaches(w, events[1..], v');
      TimelessHandles(v, events[0].request, events[0].at, w, clock);
      TimelessRun(w, events[1..], v', clock);
      assert Requests(events)[1..] == Requests(events[1..]);
    }
  }

  lemma {:induction false} ReachesPrefix(v: View, events: seq<Event>, v': View, p: nat) returns (w: View)
    requires Reaches(v, events, v') && p <= |events|
    ensures Reaches(v, events[..p], w)
    decreases p
  {
    hide Handles;
    if p == 0 {
      w := v;
    } else {
      var m :| Handles(Prune(v, events[0].at), events[0].request, events[0].at, m) && Reaches(m, events[1..], v');
      w := ReachesPrefix(m, events[1..], v', p - 1);
      assert events[..p][0] == events[0] && events[..p][1..] == events[1..][..p - 1];
    }
  }

  /** The view a timeless run from an empty store has after its first p requests. */
  lemma TimelessPrefix(events: seq<Event>, v': View, p: nat, clock: int)
    requires AllTimeless(events) && Reaches(map[], events, v') && p <= |events|
    ensures var s := ApplyAll(map[], Requests(events)[..p], clock);
      Reaches(map[], events[..p], s) && forall w :: Reaches(map[], events[..p], w) ==> w == s
  {
    hide Reaches, Timeless, ApplyAll;
    assert Requests(events[..p]) == Requests(events)[..p];
    var u := ReachesPrefix(map[], events, v', p);
    forall w | Reaches(map[], events[..p], w) ensures w == ApplyAll(map[], Requests(events)[..p], clock) {
      TimelessRun(map[], events[..p], w, clock);
    }
  }

  // ------------------------------------------------------------------------ durability

  function LoggedValues(requests: seq<Value>): seq<Value>
    decreases |requests|
  {
    if requests == [] then []
    else (if Logged(requests[0]) then [requests[0]] else []) + LoggedValues(requests[1..])
  }

  /** A run up to the request that wrote the n-th frame, or to the start. */
  function RunUpTo(requests: seq<Value>, n: nat): (p: nat)
    ensures p <= |requests|
    decreases |requests|
  {
    if requests == [] || n == 0 then 0
    else 1 + RunUpTo(requests[1..], if Logged(requests[0]) then n - 1 else n)
  }

  lemma UnloggedApply(v: View, request: Value, now: int)
    requires !Logged(request)
    ensures Apply(v, request, now) == v
  {
    hide TryFrom, IsReadName, NameOf, Next;
    if request.Array? && TryFrom(request.items).Ok? {
      var c := TryFrom(request.items).value;
      FilterExactly(c);
      NextOfReader(v, c, now);
    }
  }

  lemma LoggedFirst(requests: seq<Value>)
    ensures LoggedValues([]) == []
    ensures requests != [] ==>
      var all, rest := LoggedValues(requests), LoggedValues(requests[1..]);
      if Logged(requests[0]) then all != [] && all[0] == requests[0] && all[1..] == rest else all == rest
  {
    hide Logged;
  }

  /** The first n logged requests do what the run up to the n-th logged one did. */
  lemma {:induction false} LoggedPrefix(v: View, requests: seq<Value>, n: nat, now: int)
    requires n <= |LoggedValues(requests)|
    ensures var p := RunUpTo(requests, n);
      && LoggedValues(requests[..p]) == LoggedValues(requests)[..n]
      && ApplyAll(v, LoggedValues(requests)[..n], now) == ApplyAll(v, requests[..p], now)
    decreases |requests|
  {
    hide Logged, Apply, LoggedValues;
    var all, p := LoggedValues(requests), RunUpTo(requests, n);
    LoggedFirst(requests);
    if requests == [] || n == 0 {
      assert requests[..p] == [] && all[..n] == [];
    } else {
      var r, rest := requests[0], requests[1..];
      LoggedFirst(requests[..p]);
      assert requests[..p][0] == r && requests[..p][1..] == rest[..p - 1];
      var v' := Apply(v, r, now);
      if Logged(r) {
        LoggedPrefix(v', rest, n - 1, now);
        assert all[..n][0] == r && all[..n][1..] == LoggedValues(rest)[..n - 1];
        assert LoggedValues(requests[..p]) == [r] + LoggedValues(rest)[..n - 1];
      } else {
        UnloggedApply(v, r, now);
        LoggedPrefix(v', rest, n, now);
      }
    }
  }

  /** Replaying a log: its whole frames, executed in order. */
  ghost predicate Replays(v: View, log: bytes, now: int, v': View)
  {
    Reaches(v, At(Drain(log).values, now), v')
  }

  function At(requests: seq<Value>, now: int): (r: seq<Event>)
    ensures |r| == |requests| && forall i :: 0 <= i < |r| ==> r[i] == Event(requests[i], now)
  {
    seq(|requests|, i requires 0 <= i < |requests| => Event(requests[i], now))
  }

  lemma {:induction false} LoggedValuesKeep(requests: seq<Value>)
    requires forall i :: 0 <= i < |requests| ==> Decodable(requests[i]) && Timeless(requests[i])
    ensures DecodableAll(LoggedValues(requests))
    ensures forall i :: 0 <= i < |LoggedValues(requests)| ==> Timeless(LoggedValues(requests)[i])
    decreases |requests|
  {
    hide Decodable, Timeless, Logged;
    var all := LoggedValues(requests);
    if requests == [] {
      DecodableItems(all);
    } else {
      LoggedValuesKeep(requests[1..]);
      DecodableItems(LoggedValues(requests[1..]));
      DecodableItems(all);
    }
  }

  /** Crash-prefix durability. The log of a timeless run is cut after any number of bytes k.
      Whatever replaying what is left into an empty store can give, it gives the state that
      the run itself had after the request that wrote the last whole frame; with nothing cut
      off, that is the state at the end of the run. */
  lemma CrashPrefix(requests: seq<Value>, k: nat, now: int, v': View)
    requires forall i :: 0 <= i < |requests| ==> Decodable(requests[i]) && Timeless(requests[i])
    requires k <= |EncodeAll(LoggedValues(requests))|
    requires Replays(map[], EncodeAll(LoggedValues(requests))[..k], now, v')
    ensures var whole := WholeFrames(LoggedValues(requests), k);
      var p := RunUpTo(requests, whole);
      && LoggedValues(requests[..p]) == LoggedValues(requests)[..whole]
      && v' == ApplyAll(map[], requests[..p], now)
    ensures k == |EncodeAll(LoggedValues(requests))| ==> v' == ApplyAll(map[], requests, now)
  {
    hide Timeless, Decodable, Drain, Reaches;
    var logged := LoggedValues(requests);
    LoggedValuesKeep(requests);
    CutStream(logged, k);
    var whole := WholeFrames(logged, k);
    var events := At(logged[..whole], now);
    TimelessRun(map[], events, v', now);
    assert Requests(events) == logged[..whole];
    LoggedPrefix(map[], requests, whole, now);
    if k == |EncodeAll(logged)| {
      WholeFramesFit(logged, k);
      assert logged[..|logged|] == logged;
      assert whole == |logged|;
      LoggedAll(map[], requests, now);
    }
  }

  lemma {:induction false} LoggedAll(v: View, requests: seq<Value>, now: int)
    ensures ApplyAll(v, LoggedValues(requests), now) == ApplyAll(v, requests, now)
    decreases |requests|
  {
    if requests != [] {
      hide Logged, Apply, LoggedValues;
      LoggedFirst(requests);
      if !Logged(requests[0]) { UnloggedApply(v, requests[0], now); }
      LoggedAll(Apply(v, requests[0], now), requests[1..], now);
    }
  }

  // ---------------------------------------------------------- replay at one moment

  /** No SPOP among the requests. */
  predicate Determined(request: Value)
  {
    request.Array? && TryFrom(request.items).Ok? ==> !TryFrom(request.items).value.SPop?
  }

  lemma DeterminedHandles(v: View, request: Value, now: int, v': View)
    requires Prune(v, now) == v && Determined(request) && Handles(v, request, now, v')
    ensures v' == Apply(v, request, now) && Prune(v', now) == v'
  {
    hide TryFrom, Next, Answers, Prune;
    if request.Array? && TryFrom(request.items).Ok? {
      NextKeepsAlive(v, TryFrom(request.items).value, now);
    }
  }

  /** Without SPOP a run has one outcome, deadlines included. */
  lemma {:induction false} RunDetermined(v: View, events: seq<Event>, a: View, b: View)
    requires forall i :: 0 <= i < |events| ==> Determined(events[i].request)
    requires Reaches(v, events, a) && Reaches(v, events, b)
    ensures a == b
    decreases |events|
  {
    hide Handles, Determined, Apply, Prune;
    if events != [] {
      var e := events[0];
      var x :| Handles(Prune(v, e.at), e.request, e.at, x) && Reaches(x, events[1..], a);
      var y :| Handles(Prune(v, e.at), e.request, e.at, y) && Reaches(y, events[1..], b);
      PruneTwice(v, e.at, e.at);
      DeterminedHandles(Prune(v, e.at), e.request, e.at, x);
      DeterminedHandles(Prune(v, e.at), e.request, e.at, y);
      RunDetermined(x, events[1..], a, b);
    }
  }

  lemma {:induction false} LoggedOnlyDetermined(events: seq<Event>)
    requires forall i :: 0 <= i < |events| ==> Determined(events[i].request)
    ensures forall i :: 0 <= i < |LoggedOnly(events)| ==> Determined(LoggedOnly(events)[i].request)
    decreases |events|
  {
    hide Determined, Logged;
    if events != [] { LoggedOnlyDetermined(events[1..]); }
  }

  /** Without SPOP, executing only what the filter keeps ends in the same view as executing
      everything: deadlines, failures, unknown names and conditional commands included. */
  lemma LogFilterExact(v: View, events: seq<Event>, from: int, until: int, all: View, kept: View)
    requires InOrder(events, from, until) && forall i :: 0 <= i < |events| ==> Determined(events[i].request)
    requires Reaches(v, events, all) && Reaches(v, LoggedOnly(events), kept)
    ensures Prune(kept, until) == Prune(all, until)
  {
    hide Reaches, Determined, LoggedOnly, InOrder, Prune;
    LogFilterSound(v, events, from, until, all);
    var w :| Reaches(v, LoggedOnly(events), w) && Prune(w, until) == Prune(all, until);
    LoggedOnlyDetermined(events);
    RunDetermined(v, LoggedOnly(events), w, kept);
  }

  /** Executed at one moment, requests without SPOP have one outcome. */
  lemma {:induction false} RunAtOnce(v: View, requests: seq<Value>, now: int, v': View)
    requires Prune(v, now) == v && forall i :: 0 <= i < |requests| ==> Determined(requests[i])
    requires Reaches(v, At(requests, now), v')
    ensures v' == ApplyAll(v, requests, now)
    decreases |requests|
  {
    if requests != [] {
      hide Handles, Determined, Apply;
      var events := At(requests, now);
      var w :| Handles(v, requests[0], now, w) && Reaches(w, events[1..], v');
      DeterminedHandles(v, requests[0], now, w);
      assert events[1..] == At(requests[1..], now);
      RunAtOnce(w, requests[1..], now, v');
    }
  }
}
