/** What holds over whole runs of requests: the store's invariants, expiry that nobody sees,
    counters. */
module Runs {
  import opened Bytes
  import opened Decimal
  import opened Resp
  import opened Commands
  import opened Values
  import opened Enumerations
  import opened Windows
  import opened Semantics
  import opened Laws
  import opened Stores
  import opened Execution
  import opened Aof
  import opened Server

  // ------------------------------------------------------------------------ invariants

  lemma PruneSound(v: View, now: int)
    requires SoundView(v)
    ensures SoundView(Prune(v, now))
  {
    hide Sound;
  }

  lemma HandlesKeeps(v: View, request: Value, now: int, v': View)
    requires Handles(v, request, now, v') && SoundView(v) && Within(v, now)
    ensures SoundView(v') && Within(v', now)
  {
    hide TryFrom, Steps, SoundView, Within, Inhabited;
    if request.Array? && TryFrom(request.items).Ok? {
      var c := TryFrom(request.items).value;
      var reply :| Steps(v, c, now, v', reply);
      StepKeepsSound(v, c, now, v', reply);
      StepKeepsWithin(v, c, now, v', reply);
    }
  }

  /** Invariants of every run, whatever is requested: no list, set, hash or sorted set is ever
      empty, the two indices of every sorted set agree, and no lifetime exceeds 64 bits. */
  lemma {:induction false} RunKeeps(v: View, events: seq<Event>, from: int, until: int, v': View)
    requires Reaches(v, events, v') && InOrder(events, from, until) && SoundView(v) && Within(v, from)
    ensures SoundView(v') && Within(v', until)
    decreases |events|
  {
    if events != [] {
      hide Handles, Sound;
      var e := events[0];
      var w :| Handles(Prune(v, e.at), e.request, e.at, w) && Reaches(w, events[1..], v');
      PruneSound(v, e.at);
      HandlesKeeps(Prune(v, e.at), e.request, e.at, w);
      RunKeeps(w, events[1..], e.at, until, v');
    }
  }

  /** After any run from an empty store every sorted set is coherent: a member is in the
      bucket of a score exactly when it has that score, and no bucket is empty. */
  lemma SortedSetsCoherent(events: seq<Event>, from: int, until: int, v: View, k: bytes)
    requires Reaches(map[], events, v) && InOrder(events, from, until)
    requires k in v && v[k].value.SortedSet?
    ensures Coherent(v[k].value.scores, v[k].value.tree) && v[k].value.scores != map[]
  {
    hide Reaches, InOrder, Coherent, TreeOf;
    RunKeeps(map[], events, from, until, v);
    CoherentExactly(v[k].value.scores, v[k].value.tree);
  }

  /** A key that was not there has no deadline after a command that sets none: what a removed
      or emptied key had is gone with it. */
  lemma RecreatedWithoutDeadline(v: View, c: Command, now: int, v': View, reply: Reply, k: bytes)
    requires Steps(v, c, now, v', reply) && Untimed(c) && k !in v && k in v'
    ensures v'[k].deadline == None
  {
    hide Answers, SetOf, BulkArray, Next, StepsSPop;
    forall j, x { WrittenAnew(v, j, x, k, now); }
    hide Write, Shrink, Put, AllSet;
    if c.SPop? {
      PoppedAnew(v, c, v', reply, k);
    } else if Overwrites(c) {
      NextOverwrites(v, c, now);
      if c.MSet? { MSetAnew(v, c.entries, k); }
    } else {
      NextEdits(v, c, now);
    }
  }

  lemma WrittenAnew(v: View, j: bytes, x: StoredValue, k: bytes, now: int)
    requires k !in v
    ensures k in Write(v, j, x) ==> Write(v, j, x)[k].deadline == None
    ensures k in Shrink(v, j, x) ==> Shrink(v, j, x)[k].deadline == None
    ensures k in Put(v, j, x, None, now) ==> Put(v, j, x, None, now)[k].deadline == None
  {
    hide Vacant;
  }

  lemma MSetAnew(v: View, pairs: seq<(bytes, bytes)>, k: bytes)
    requires k !in v && k in AllSet(v, pairs)
    ensures AllSet(v, pairs)[k].deadline == None
  {
    hide LastWins;
  }

  lemma PoppedAnew(v: View, c: Command, v': View, reply: Reply, k: bytes)
    requires c.SPop? && StepsSPop(v, c, v', reply) && k !in v
    ensures k !in v'
  {
    hide BulkArray, Vacant;
  }

  /** A collection that loses its last element loses its key. */
  lemma EmptiedKeyIsGone(v: View, c: Command, now: int, v': View, reply: Reply, k: bytes)
    requires SoundView(v) && Inhabited(c) && Steps(v, c, now, v', reply) && k in v'
    ensures !Vacant(v'[k].value)
  {
    hide Steps, Vacant;
    StepKeepsSound(v, c, now, v', reply);
  }

  /** Whatever the argument vector and the state, an error reply, of the parser or of the
      command, leaves every key and every deadline as it was. */
  lemma ErrorRepliesChangeNothing(v: View, request: Value, now: int, v': View, text: bytes)
    requires Responds(v, request, now, v', Replied(Error(text)))
    ensures v' == v
  {
    hide TryFrom, Steps;
    if request.Array? && TryFrom(request.items).Ok? {
      ErrorsChangeNothing(v, TryFrom(request.items).value, now, v', text);
    }
  }

  // ---------------------------------------------------- replies determined by the view

  /** The commands whose reply does not depend on hash order, on keys that have expired but
      are still held, or on the server's statistics. */
  predicate Settled(c: Command)
  {
    !(c.Del? || c.Info? || c.SPop? || c.HKeys? || c.HVals? || c.ZRange? || c.ZRevRange?)
  }

  lemma SortedReplyOnce(s: set<bytes>, show: seq<bytes> -> seq<bytes>, r1: Reply, r2: Reply)
    requires InSomeOrder(s, true, show, r1) && InSomeOrder(s, true, show, r2)
    ensures r1 == r2
  {
    var p :| Enumerates(p, s) && SortedBy(LexLe, p) && r1 == Replied(BulkArray(show(p)));
    var q :| Enumerates(q, s) && SortedBy(LexLe, q) && r2 == Replied(BulkArray(show(q)));
    LexIsTotalOrder();
    SortedOnce(LexLe, p, q);
  }

  lemma SettledListing(v: View, c: Command, r1: Reply, r2: Reply)
    requires (c.SMembers? || c.HGetAll?) && AnswersListing(v, c, r1) && AnswersListing(v, c, r2)
    ensures r1 == r2
  {
    hide InSomeOrder;
    if !Mistyped(v, c.key, if c.SMembers? then SetKind else HashKind) {
      if c.SMembers? {
        SortedReplyOnce(MembersAt(v, c.key), q => q, r1, r2);
      } else {
        var h := FieldsAt(v, c.key);
        SortedReplyOnce(h.Keys, q => PairsAlong(q, h), r1, r2);
      }
    }
  }

  /** Reply and new view depend on nothing but the live view and the time. */
  lemma RepliesDetermined(v: View, c: Command, now: int, v1: View, r1: Reply, v2: View, r2: Reply)
    requires Settled(c) && Steps(v, c, now, v1, r1) && Steps(v, c, now, v2, r2)
    ensures v1 == v2 && r1 == r2
  {
    hide Next, ReplyOf, BulkArray, Slice, InSomeOrder, AnswersListing, AsI64;
    if c.SMembers? || c.HGetAll? {
      SettledListing(v, c, r1, r2);
    } else if c.Keys? && c.pattern == "*" {
      SortedReplyOnce(v.Keys, q => q, r1, r2);
    }
  }

  /** DEL: the view is determined, the count is not. */
  lemma DelDetermined(v: View, c: Command, now: int, v1: View, r1: Reply, v2: View, r2: Reply)
    requires c.Del? && Steps(v, c, now, v1, r1) && Steps(v, c, now, v2, r2)
    ensures v1 == v2 == v - SetOf(c.keys)
  {
    hide Answers;
  }

  /** What DEL reports is not: an expired key that is still held is counted, one that has been
      evicted is not, and no client can tell the two stores apart before. */
  lemma DelCountSeesEviction()
    ensures var held: Data := map["k" := Str("v")];
      var timed: Expirations := map["k" := 5];
      var evicted: Data := map[];
      var none: Expirations := map[];
      && Consistent(held, timed) && Consistent(evicted, none)
      && LiveView(held, timed, 10) == LiveView(evicted, none, 10)
      && |held.Keys * SetOf(["k"])| == 1 && |evicted.Keys * SetOf(["k"])| == 0
  {
    var held: Data := map["k" := Str("v")];
    var evicted: Data := map[];
    assert held.Keys * SetOf(["k"]) == {"k"};
    assert evicted.Keys * SetOf(["k"]) == {};
  }

  /** The same by running the server: SET with a lifetime of 5 ms, then DEL at 10 ms, with and
      without a round of eviction in between. */
  method DelAfterEviction(info: bytes) returns (held: Reply, evicted: Reply)
    ensures held == Replied(Integer(1)) && evicted == Replied(Integer(0))
  {
    held := SetThenDel(false, info);
    evicted := SetThenDel(true, info);
  }

  method SetThenDel(evict: bool, info: bytes) returns (reply: Reply)
    ensures reply == Replied(Integer(if evict then 0 else 1))
  {
    hide Next, ReplyOf, Answers;
    KeyMeaning(map[], Command.Set("k", "v", Some(5), Always), 0);
    var store := new Store();
    assert store.Live(0) == map[];
    var reply0 := Execute(store, Command.Set("k", "v", Some(5), Always), info, 0);
    assert store.Live(0) == map["k" := Entry(Str("v"), Some(5))];
    LiveViewLater(store.data, store.expirations, 0, 10);
    if evict {
      var count := store.EvictExpired(10);
    }
    DelHeld(store.data, store.expirations, evict);
    reply := Execute(store, Del(["k"]), info, 10);
  }

  lemma DelHeld(data: Data, expirations: Expirations, evicted: bool)
    requires if evicted then data.Keys == LiveView(data, expirations, 10).Keys == {}
      else LiveView(data, expirations, 0) == map["k" := Entry(Str("v"), Some(5))]
    ensures |data.Keys * SetOf(["k"])| == if evicted then 0 else 1
  {
    if evicted {
      assert data.Keys * SetOf(["k"]) == {};
    } else {
      assert "k" in LiveView(data, expirations, 0);
      assert data.Keys * SetOf(["k"]) == {"k"};
    }
  }

  // ------------------------------------------------------------ expiry that nobody sees

  /** A run with its replies. */
  ghost predicate Answered(v: View, events: seq<Event>, replies: seq<Reply>, v': View)
    decreases |events|
  {
    if events == [] then v' == v && replies == []
    else
      && replies != []
      && exists w ::
        && Responds(Prune(v, events[0].at), events[0].request, events[0].at, w, replies[0])
        && Answered(w, events[1..], replies[1..], v')
  }

  lemma {:induction false} AnsweredSnoc(v: View, events: seq<Event>, replies: seq<Reply>, w: View,
                                        e: Event, r: Reply, v': View)
    requires Answered(v, events, replies, w) && Responds(Prune(w, e.at), e.request, e.at, v', r)
    ensures Answered(v, events + [e], replies + [r], v')
    decreases |events|
  {
    hide Responds;
    if events == [] {
      assert events + [e] == [e] && replies + [r] == [r];
      assert Answered(v', [], [], v') && [e][1..] == [] && [r][1..] == [];
    } else {
      var m :| Responds(Prune(v, events[0].at), events[0].request, events[0].at, m, replies[0])
            && Answered(m, events[1..], replies[1..], w);
      AnsweredSnoc(m, events[1..], replies[1..], w, e, r, v');
      assert (events + [e])[0] == events[0] && (events + [e])[1..] == events[1..] + [e];
      assert (replies + [r])[0] == replies[0] && (replies + [r])[1..] == replies[1..] + [r];
    }
  }

  /** What can happen to a running server: a request, or a round of background eviction. */
  datatype Happening = Request(event: Event) | Eviction(at: int)

  function TimeOf(h: Happening): int { if h.Request? then h.event.at else h.at }

  function TimeBefore(happenings: seq<Happening>, i: nat, from: int): int
    requires i <= |happenings|
  {
    if i == 0 then from else TimeOf(happenings[i - 1])
  }

  predicate InTime(happenings: seq<Happening>, from: int)
  {
    forall i :: 0 <= i < |happenings| ==> TimeBefore(happenings, i, from) <= TimeOf(happenings[i])
  }

  /** The requests among them. */
  function EventsOf(happenings: seq<Happening>): seq<Event>
  {
    if happenings == [] then []
    else
      var last := happenings[|happenings| - 1];
      EventsOf(happenings[..|happenings| - 1]) + if last.Request? then [last.event] else []
  }

  /** A run with background eviction inserted anywhere: replies and final view are among those
      that the requests alone can have on a map with deadlines. */
  method RunWithEvictions(store: Store, aof: AofWriter, happenings: seq<Happening>, info: bytes, from: int)
    returns (replies: seq<Reply>, until: int)
    requires store.Valid() && InTime(happenings, from)
    modifies store, aof
    ensures store.Valid() && until == TimeBefore(happenings, |happenings|, from)
    ensures exists w ::
      && Answered(old(store.Live(from)), EventsOf(happenings), replies, w)
      && store.Live(until) == Prune(w, until)
  {
    hide Responds, LiveView, Consistent;
    ghost var v, w := store.Live(from), store.Live(from);
    replies, until := [], from;
    LivePruned(store.data, store.expirations, from);
    for i := 0 to |happenings|
      invariant store.Valid() && until == TimeBefore(happenings, i, from)
      invariant Answered(v, EventsOf(happenings[..i]), replies, w)
      invariant store.Live(until) == Prune(w, until)
    {
      var h := happenings[i];
      assert happenings[..i + 1][..i] == happenings[..i] && happenings[..i + 1][i] == h;
      LiveViewLater(store.data, store.expirations, until, TimeOf(h));
      PruneTwice(w, until, TimeOf(h));
      match h {
        case Eviction(at) =>
          var evicted := store.EvictExpired(at);
          assert EventsOf(happenings[..i + 1]) == EventsOf(happenings[..i]);
        case Request(event) =>
          var reply := HandleRequest(store, aof, event.request, info, event.at);
          AnsweredSnoc(v, EventsOf(happenings[..i]), replies, w, event, reply, store.Live(event.at));
          w := store.Live(event.at);
          LivePruned(store.data, store.expirations, event.at);
          replies := replies + [reply];
      }
      until := TimeOf(h);
    }
    assert happenings[..|happenings|] == happenings;
  }

  lemma LivePruned(data: Data, expirations: Expirations, now: int)
    ensures Prune(LiveView(data, expirations, now), now) == LiveView(data, expirations, now)
  {
  }

  /** A request whose reply, too, is settled: what does not parse, and the settled commands. */
  predicate Steady(request: Value)
  {
    request.Array? && TryFrom(request.items).Ok? ==> Settled(TryFrom(request.items).value)
  }

  lemma ResponsesDetermined(v: View, request: Value, now: int, v1: View, r1: Reply, v2: View, r2: Reply)
    requires Determined(request) && Responds(v, request, now, v1, r1) && Responds(v, request, now, v2, r2)
    ensures v1 == v2 && (Steady(request) ==> r1 == r2)
  {
    hide TryFrom, Next, Answers, Settled;
    if request.Array? && TryFrom(request.items).Ok? {
      if Steady(request) { RepliesDetermined(v, TryFrom(request.items).value, now, v1, r1, v2, r2); }
    }
  }

  /** A run without SPOP has one final view, and one reply to each request that is steady. */
  lemma {:induction false} AnswersDetermined(v: View, events: seq<Event>, r1: seq<Reply>, v1: View,
                                             r2: seq<Reply>, v2: View)
    requires forall i :: 0 <= i < |events| ==> Determined(events[i].request)
    requires Answered(v, events, r1, v1) && Answered(v, events, r2, v2)
    ensures v1 == v2 && |r1| == |r2| == |events|
    ensures forall i :: 0 <= i < |events| && Steady(events[i].request) ==> r1[i] == r2[i]
    decreases |events|
  {
    if events != [] {
      hide Responds, Steady, Determined, Prune;
      var e := events[0];
      var x :| Responds(Prune(v, e.at), e.request, e.at, x, r1[0]) && Answered(x, events[1..], r1[1..], v1);
      var y :| Responds(Prune(v, e.at), e.request, e.at, y, r2[0]) && Answered(y, events[1..], r2[1..], v2);
      ResponsesDetermined(Prune(v, e.at), e.request, e.at, x, r1[0], y, r2[0]);
      AnswersDetermined(x, events[1..], r1[1..], v1, r2[1..], v2);
      AgreeFromFirst(events, r1, r2);
    }
  }

  lemma AgreeFromFirst(events: seq<Event>, r1: seq<Reply>, r2: seq<Reply>)
    requires |r1| == |r2| == |events| > 0 && (Steady(events[0].request) ==> r1[0] == r2[0])
    requires forall i :: 0 <= i < |events[1..]| && Steady(events[1..][i].request) ==> r1[1..][i] == r2[1..][i]
    ensures forall i :: 0 <= i < |events| && Steady(events[i].request) ==> r1[i] == r2[i]
  {
    hide Steady;
    forall i | 0 < i < |events| && Steady(events[i].request) ensures r1[i] == r2[i] {
      assert events[1..][i - 1] == events[i] && r1[1..][i - 1] == r1[i] && r2[1..][i - 1] == r2[i];
    }
  }

  /** Eviction is unobservable. Two stores that look alike serve the same requests, with rounds
      of eviction anywhere in either run: every reply is the same, but for those to DEL and to
      the commands that hash order or statistics show in, and from then on the stores look
      alike again. The reply to DEL is the number of held keys among those named, which
      `HandleRequest` states and `DelCountExactly` compares with the live ones. */
  method RunTwice(a: Store, b: Store, logA: AofWriter, logB: AofWriter, withA: seq<Happening>, withB: seq<Happening>,
                  info: bytes, from: int)
    returns (repliesA: seq<Reply>, repliesB: seq<Reply>)
    requires a.Valid() && b.Valid() && a != b && logA != logB && a.Live(from) == b.Live(from)
    requires InTime(withA, from) && InTime(withB, from) && EventsOf(withA) == EventsOf(withB)
    requires forall i :: 0 <= i < |EventsOf(withA)| ==> Determined(EventsOf(withA)[i].request)
    modifies a, b, logA, logB
    ensures a.Valid() && b.Valid() && |repliesA| == |repliesB| == |EventsOf(withA)|
    ensures forall i :: 0 <= i < |repliesA| && Steady(EventsOf(withA)[i].request) ==> repliesA[i] == repliesB[i]
    ensures forall t :: TimeBefore(withA, |withA|, from) <= t && TimeBefore(withB, |withB|, from) <= t ==>
      a.Live(t) == b.Live(t)
  {
    hide Answered, Determined, Steady, LiveView, Consistent, Prune, EventsOf, InTime;
    ghost var v, events := a.Live(from), EventsOf(withA);
    var untilA, untilB;
    repliesA, untilA := RunWithEvictions(a, logA, withA, info, from);
    repliesB, untilB := RunWithEvictions(b, logB, withB, info, from);
    ghost var x :| Answered(v, events, repliesA, x) && a.Live(untilA) == Prune(x, untilA);
    ghost var y :| Answered(v, events, repliesB, y) && b.Live(untilB) == Prune(y, untilB);
    AnswersDetermined(v, events, repliesA, x, repliesB, y);
    forall t | untilA <= t && untilB <= t ensures a.Live(t) == b.Live(t) {
      LiveViewLater(a.data, a.expirations, untilA, t);
      LiveViewLater(b.data, b.expirations, untilB, t);
      PruneTwice(x, untilA, t);
      PruneTwice(y, untilB, t);
    }
  }

  // -------------------------------------------------------------------------- counters

  predicate InI64(n: int) { -TWO_TO_63 <= n < TWO_TO_63 }

  /** A counter that does not leave the i64 range. */
  function Bump(n: i64, up: bool): i64
  {
    var m := if up then n + 1 else n - 1;
    if InI64(m) then m else n
  }

  function Tally(n: i64, ups: seq<bool>): i64
    decreases |ups|
  {
    if ups == [] then n else Tally(Bump(n, ups[0]), ups[1..])
  }

  /** The running sums, as long as they stay in range, are sums. */
  function Sum(ups: seq<bool>): int
  {
    if ups == [] then 0 else (if ups[0] then 1 else -1) + Sum(ups[1..])
  }

  lemma {:induction false} TallyIsSum(n: i64, ups: seq<bool>)
    requires forall i :: 0 <= i <= |ups| ==> InI64(n + Sum(ups[..i]))
    ensures Tally(n, ups) == n + Sum(ups)
    decreases |ups|
  {
    assert ups[..|ups|] == ups;
    if ups != [] {
      forall i | 0 <= i <= |ups[1..]|
        ensures n + Sum(ups[..i + 1]) == n + (if ups[0] then 1 else -1) + Sum(ups[1..][..i])
      {
        assert ups[..i + 1][1..] == ups[1..][..i];
      }
      assert ups[1..][..0] == [] && InI64(n + Sum(ups[..1]));
      var m := Bump(n, ups[0]);
      assert m == n + (if ups[0] then 1 else -1);
      forall i | 0 <= i <= |ups[1..]| ensures InI64(m + Sum(ups[1..][..i])) {
        assert InI64(n + Sum(ups[..i + 1]));
      }
      TallyIsSum(m, ups[1..]);
    }
  }

  function CounterCommand(k: bytes, up: bool): Command { if up then Incr(k) else Decr(k) }

  /** The counter at a key: its text parsed, or 0 for a key that is not there. */
  predicate CountsFrom(v: View, k: bytes, n: i64)
  {
    if k in v then v[k].value.Str? && ParseI64(v[k].value.text) == Some(n) else n == 0
  }

  /** One step: it fails exactly when the sum would leave the range, and then changes nothing;
      otherwise the canonical text of the sum is stored under the same deadline. */
  lemma CounterStep(v: View, k: bytes, up: bool, n: i64, now: int, v': View, reply: Reply)
    requires CountsFrom(v, k, n) && Steps(v, CounterCommand(k, up), now, v', reply)
    ensures var m := if up then n + 1 else n - 1;
      if InI64(m) then v' == v[k := Entry(Str(IntText(m)), DeadlineOf(v, k))] && reply == Replied(Integer(m))
      else v' == v && reply == Replied(Error("Integer overflow"))
  {
    hide ParseI64, IntText, Next, ReplyOf, CounterCommand;
    CounterMeaning(v, k, up, now);
    ZeroText();
  }

  lemma CounterMeaning(v: View, k: bytes, up: bool, now: int)
    ensures var c, delta := CounterCommand(k, up), if up then 1 else -1;
      && (c.Incr? || c.Decr?)
      && Next(v, c, now) == Counted(v, k, delta)
      && ReplyOf(v, c, now) == var a := Adjusted(v, k, delta); if a.Ok? then Integer(a.value) else Error(a.error)
  {
    hide Next, ReplyOf, Counted, Adjusted;
    KeyMeaning(v, CounterCommand(k, up), now);
  }

  lemma ZeroText()
    ensures ParseI64("0") == Some(0)
  {
    assert IntText(0) == "0";
    I64TextRoundTrip(0);
  }

  /** A run of INCR and DECR on one key at any times, in any interleaving. */
  ghost predicate CounterRun(v: View, k: bytes, ups: seq<bool>, times: seq<int>, replies: seq<Reply>, v': View)
    requires |times| == |ups|
    decreases |ups|
  {
    if ups == [] then v' == v && replies == []
    else
      && replies != []
      && exists w ::
        && Steps(Prune(v, times[0]), CounterCommand(k, ups[0]), times[0], w, replies[0])
        && CounterRun(w, k, ups[1..], times[1..], replies[1..], v')
  }

  /** The i-th reply: the running sum, or the overflow error exactly when it would leave the range. */
  predicate TallyReplies(n: i64, ups: seq<bool>, replies: seq<Reply>)
    decreases |ups|
  {
    && |replies| == |ups|
    && (ups == [] ||
        (var m := if ups[0] then n + 1 else n - 1;
         && replies[0] == (if InI64(m) then Replied(Integer(m)) else Replied(Error("Integer overflow")))
         && TallyReplies(Bump(n, ups[0]), ups[1..], replies[1..])))
  }

  predicate OutlivesAll(deadline: Option<int>, times: seq<int>)
  {
    deadline.Some? ==> forall i :: 0 <= i < |times| ==> times[i] < deadline.value
  }

  /** The counter's canonical text. */
  predicate Canonical(v: View, k: bytes, n: i64) { k in v && v[k].value == Str(IntText(n)) }

  /** One step of a run. */
  lemma CounterTurn(v: View, k: bytes, up: bool, n: i64, now: int, w: View, reply: Reply)
    requires CountsFrom(v, k, n) && (DeadlineOf(v, k).Some? ==> now < DeadlineOf(v, k).value)
    requires Steps(Prune(v, now), CounterCommand(k, up), now, w, reply)
    ensures CountsFrom(w, k, Bump(n, up)) && DeadlineOf(w, k) == DeadlineOf(v, k)
    ensures var m := if up then n + 1 else n - 1;
      if InI64(m) then reply == Replied(Integer(m)) && Canonical(w, k, m)
      else reply == Replied(Error("Integer overflow"))
    ensures Canonical(v, k, n) ==> Canonical(w, k, Bump(n, up))
  {
    hide Steps, IntText, ParseI64;
    var m := if up then n + 1 else n - 1;
    CounterStep(Prune(v, now), k, up, n, now, w, reply);
    if InI64(m) { I64TextRoundTrip(m); }
  }

  /** Counters. Starting at n, after any interleaving the key holds the running sum under the
      deadline it had, and each step fails exactly when the sum would leave the i64 range. */
  lemma {:induction false} CountersAddUp(v: View, k: bytes, n: i64, ups: seq<bool>, times: seq<int>,
                                         replies: seq<Reply>, v': View)
    requires |times| == |ups| && CounterRun(v, k, ups, times, replies, v')
    requires CountsFrom(v, k, n) && OutlivesAll(DeadlineOf(v, k), times)
    ensures CountsFrom(v', k, Tally(n, ups)) && TallyReplies(n, ups, replies) && DeadlineOf(v', k) == DeadlineOf(v, k)
    ensures Canonical(v, k, n) ==> Canonical(v', k, Tally(n, ups))
    decreases |ups|
  {
    if ups != [] {
      hide Steps, Canonical, CountsFrom, CounterCommand;
      var now := times[0];
      var w :| Steps(Prune(v, now), CounterCommand(k, ups[0]), now, w, replies[0])
            && CounterRun(w, k, ups[1..], times[1..], replies[1..], v');
      CounterTurn(v, k, ups[0], n, now, w, replies[0]);
      CountersAddUp(w, k, Bump(n, ups[0]), ups[1..], times[1..], replies[1..], v');
    }
  }

  /** Once a step has succeeded the stored bytes are the canonical decimal of the sum. */
  lemma {:induction false} CountersAreCanonical(v: View, k: bytes, n: i64, ups: seq<bool>, times: seq<int>,
                                                replies: seq<Reply>, v': View)
    requires |times| == |ups| && CounterRun(v, k, ups, times, replies, v')
    requires CountsFrom(v, k, n) && OutlivesAll(DeadlineOf(v, k), times)
    requires exists i :: 0 <= i < |replies| && replies[i] != Replied(Error("Integer overflow"))
    ensures Canonical(v', k, Tally(n, ups))
    decreases |ups|
  {
    hide Steps, Canonical, CountsFrom, CounterCommand;
    var now := times[0];
    var w :| Steps(Prune(v, now), CounterCommand(k, ups[0]), now, w, replies[0])
          && CounterRun(w, k, ups[1..], times[1..], replies[1..], v');
    CounterTurn(v, k, ups[0], n, now, w, replies[0]);
    if replies[0] == Replied(Error("Integer overflow")) {
      var i :| 0 <= i < |replies| && replies[i] != Replied(Error("Integer overflow"));
      assert replies[1..][i - 1] == replies[i];
      CountersAreCanonical(w, k, Bump(n, ups[0]), ups[1..], times[1..], replies[1..], v');
    } else {
      CountersAddUp(w, k, Bump(n, ups[0]), ups[1..], times[1..], replies[1..], v');
    }
  }
}
