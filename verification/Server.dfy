/** The log at work: requests logged and then executed against the store, and the replay of
    a log into a store. */
module Server {
  import opened Bytes
  import opened Resp
  import opened RespStream
  import opened Commands
  import opened Values
  import opened Enumerations
  import opened Semantics
  import opened Stores
  import opened Execution
  import opened Aof

  /** The log file and its writer. */
  class AofWriter {
    var file: bytes
    var bytesWritten: nat

    constructor ()
      ensures file == [] && bytesWritten == 0
    {
      file, bytesWritten := [], 0;
    }

    /** `append`: one frame at the end of the file. */
    method Append(command: Value)
      modifies this
      ensures file == old(file) + Encode(command)
      ensures bytesWritten == old(bytesWritten) + |Encode(command)|
    {
      hide Encode;
      var buf := new BytesMut([]);
      EncodeTo(command, buf);
      assert [] + Encode(command) == Encode(command);
      file := file + buf.contents;
      bytesWritten := bytesWritten + |buf.contents|;
    }
  }

  /** The keys that a request to delete names. */
  function DelNames(request: Value): Option<seq<bytes>>
  {
    if request.Array? && TryFrom(request.items).Ok? && TryFrom(request.items).value.Del?
    then Some(TryFrom(request.items).value.keys) else None
  }

  /** A request as `handle_connection` treats it: logged first, if it is a logged one, then
      executed. */
  method HandleRequest(store: Store, aof: AofWriter, request: Value, info: bytes, now: int) returns (reply: Reply)
    requires store.Valid()
    modifies store, aof
    ensures store.Valid() && Responds(old(store.Live(now)), request, now, store.Live(now), reply)
    ensures DelNames(request).Some? ==>
      reply == Replied(Count(|old(store.data).Keys * SetOf(DelNames(request).value)|))
    ensures aof.file == old(aof.file) + if Logged(request) then Encode(request) else []
    ensures request.Array? && TryFrom(request.items).Ok? ==>
      var c := TryFrom(request.items).value;
      if Mutates(c) || c.StrLen? then aof.file == old(aof.file) + Encode(request) else aof.file == old(aof.file)
  {
    hide TryFrom, IsReadName, Encode, Steps, LiveView, Consistent, Mutates;
    assert aof.file + [] == aof.file;
    if request.Array? && TryFrom(request.items).Ok? { LoggedExactly(request); }
    if !request.Array? { return Replied(Error("ERR invalid request format")); }
    if request.items == [] {
      EmptyCommand();
      return Replied(Error("ERR empty command"));
    }
    var args := request.items;
    var name := if args[0].BulkString? then args[0].bulk else [];
    if name != [] && ShouldLog(name) { aof.Append(request); }
    reply := ParseAndExecute(store, args, info, now);
  }

  lemma EmptyCommand()
    ensures TryFrom([]) == Err("ERR empty command")
  {
  }

  method ParseAndExecute(store: Store, args: seq<Value>, info: bytes, now: int) returns (reply: Reply)
    requires store.Valid()
    modifies store
    ensures store.Valid() && Responds(old(store.Live(now)), Array(args), now, store.Live(now), reply)
    ensures DelNames(Array(args)).Some? ==>
      reply == Replied(Count(|old(store.data).Keys * SetOf(DelNames(Array(args)).value)|))
  {
    hide TryFrom, Steps, LiveView, Consistent;
    var parsed := TryFrom(args);
    match parsed {
      case Err(text) => reply := Replied(Error(text));
      case Ok(c) => reply := Execute(store, c, info, now);
    }
  }

  /** A run of requests over time: what can be seen afterwards is a view the requests reach,
      and the log has grown by the frames of the logged ones. */
  method Serve(store: Store, aof: AofWriter, events: seq<Event>, info: bytes, from: int) returns (until: int)
    requires store.Valid() && (events != [] ==> InOrder(events, from, events[|events| - 1].at))
    modifies store, aof
    ensures store.Valid() && until == (if events == [] then from else events[|events| - 1].at)
    ensures Reaches(old(store.Live(from)), events, store.Live(until))
    ensures aof.file == old(aof.file) + EncodeAll(LoggedValues(Requests(events)))
  {
    hide LiveView, Consistent, EncodeAll, LoggedValues, Requests, Reaches, InOrder;
    ghost var v := store.Live(from);
    until := from;
    NothingServed(v);
    assert aof.file + [] == aof.file && events[..0] == [];
    for i := 0 to |events|
      invariant store.Valid() && until == if i == 0 then from else events[i - 1].at
      invariant Reaches(v, events[..i], store.Live(until))
      invariant aof.file == old(aof.file) + EncodeAll(LoggedValues(Requests(events[..i])))
    {
      OrderedAt(events, from, i);
      ServeOne(store, aof, events[i], info, until, v, events[..i], old(aof.file));
      assert events[..i + 1] == events[..i] + [events[i]];
      until := events[i].at;
    }
    assert events[..|events|] == events;
  }

  /** One more request served. */
  method ServeOne(store: Store, aof: AofWriter, e: Event, info: bytes, ghost until: int, ghost v: View,
                  ghost done: seq<Event>, ghost file: bytes)
    requires store.Valid() && until <= e.at && Reaches(v, done, store.Live(until))
    requires aof.file == file + EncodeAll(LoggedValues(Requests(done)))
    modifies store, aof
    ensures store.Valid() && Reaches(v, done + [e], store.Live(e.at))
    ensures aof.file == file + EncodeAll(LoggedValues(Requests(done + [e])))
  {
    hide Handles, Responds, Logged, Encode, LiveView, Consistent, EncodeAll, LoggedValues, Requests, Reaches;
    hide DelNames, TryFrom;
    LiveViewLater(store.data, store.expirations, until, e.at);
    ghost var w := store.Live(until);
    var reply := HandleRequest(store, aof, e.request, info, e.at);
    RespondsHandles(Prune(w, e.at), e.request, e.at, store.Live(e.at), reply);
    ReachesSnoc(v, done, w, e, store.Live(e.at));
    LogGrows(file, done, e);
  }

  lemma NothingServed(v: View)
    ensures Reaches(v, [], v) && EncodeAll(LoggedValues(Requests([]))) == []
  {
  }

  lemma {:induction false} OrderedAt(events: seq<Event>, from: int, i: nat)
    requires i < |events| && InOrder(events, from, events[|events| - 1].at)
    ensures (if i == 0 then from else events[i - 1].at) <= events[i].at
    decreases |events|
  {
    if i > 0 {
      assert events[1..][|events| - 2] == events[|events| - 1];
      OrderedAt(events[1..], events[0].at, i - 1);
    }
  }

  lemma {:induction false} LoggedValuesSnoc(requests: seq<Value>, r: Value)
    ensures LoggedValues(requests + [r]) == LoggedValues(requests) + if Logged(r) then [r] else []
    decreases |requests|
  {
    hide Logged;
    if requests == [] {
      assert requests + [r] == [r] && [r][1..] == [];
    } else {
      assert (requests + [r])[0] == requests[0] && (requests + [r])[1..] == requests[1..] + [r];
      LoggedValuesSnoc(requests[1..], r);
      var head := if Logged(requests[0]) then [requests[0]] else [];
      var more := if Logged(r) then [r] else [];
      assert head + (LoggedValues(requests[1..]) + more) == head + LoggedValues(requests[1..]) + more;
    }
  }

  lemma LogGrows(file: bytes, done: seq<Event>, e: Event)
    ensures file + EncodeAll(LoggedValues(Requests(done))) + (if Logged(e.request) then Encode(e.request) else [])
      == file + EncodeAll(LoggedValues(Requests(done + [e])))
  {
    hide Logged, Encode;
    var r, before := e.request, Requests(done);
    assert Requests(done + [e]) == before + [r];
    LoggedValuesSnoc(before, r);
    var more: seq<Value> := if Logged(r) then [r] else [];
    EncodeAllConcat(LoggedValues(before), more);
    EncodeAllOne(r);
  }

  lemma EncodeAllOne(r: Value)
    ensures EncodeAll([r]) == Encode(r)
  {
    assert EncodeAll([r]) == Encode(r) + EncodeAll([r][1..]);
    assert Encode(r) + [] == Encode(r);
  }

  /** `replay_with_metrics`: decode, execute, and stop at the first incomplete or invalid frame. */
  method Replay(store: Store, file: bytes, info: bytes, now: int) returns (count: nat)
    requires store.Valid()
    modifies store
    ensures store.Valid() && count == |Drain(file).values|
    ensures Replays(old(store.Live(now)), file, now, store.Live(now))
  {
    hide Handles, ParseValue, LiveView, Consistent;
    ghost var v := store.Live(now);
    var src := new BytesMut(file);
    ghost var taken: seq<Value> := [];
    count := 0;
    AfterAfter([], [], Drain(file));
    while src.contents != []
      invariant store.Valid() && count == |taken| && fresh(src)
      invariant Drain(file) == After(taken, Drain(src.contents))
      invariant Reaches(v, At(taken, now), store.Live(now))
      decreases |src.contents|
    {
      ghost var left := src.contents;
      var frame := Decode(src);
      match frame {
        case Ok(Some(request)) =>
          AfterAfter(taken, [request], Drain(src.contents));
          ghost var w := store.Live(now);
          LiveViewLater(store.data, store.expirations, now, now);
          ReplayOne(store, request, info, now);
          assert At(taken + [request], now) == At(taken, now) + [Event(request, now)];
          ReachesSnoc(v, At(taken, now), w, Event(request, now), store.Live(now));
          taken := taken + [request];
          count := count + 1;
        case Ok(None) => break;
        case Err(_) => break;
      }
    }
    NothingLeft(src.contents);
    assert taken + [] == taken;
  }

  lemma NothingLeft(buf: bytes)
    requires !ParseValue(buf).Done?
    ensures Drain(buf).values == []
  {
  }

  /** `execute_command`: frames that are not arrays, and commands that do not parse, are skipped. */
  method ReplayOne(store: Store, request: Value, info: bytes, now: int)
    requires store.Valid()
    modifies store
    ensures store.Valid() && Handles(old(store.Live(now)), request, now, store.Live(now))
  {
    hide TryFrom, Steps, LiveView, Consistent;
    if request.Array? {
      ghost var v := store.Live(now);
      var reply := ParseAndExecute(store, request.items, info, now);
      RespondsHandles(v, request, now, store.Live(now), reply);
    }
  }

  /** Crash and restart, end to end: a timeless run is served into an empty store and log, the
      log is cut after any k bytes, and what is left is replayed into another empty store. The
      recovered store shows the one view that the run can have had, and had, after the request
      that wrote the last whole frame. */
  method CrashAndRecover(events: seq<Event>, info: bytes, from: int, k: nat, now: int) returns (recovered: Store)
    requires events != [] ==> InOrder(events, from, events[|events| - 1].at)
    requires forall i :: 0 <= i < |events| ==> Decodable(events[i].request) && Timeless(events[i].request)
    requires k <= |EncodeAll(LoggedValues(Requests(events)))|
    ensures recovered.Valid()
    ensures var requests := Requests(events);
      var p := RunUpTo(requests, WholeFrames(LoggedValues(requests), k));
      && recovered.Live(now) == ApplyAll(map[], requests[..p], now)
      && Reaches(map[], events[..p], recovered.Live(now))
      && forall w :: Reaches(map[], events[..p], w) ==> w == recovered.Live(now)
  {
    hide Decodable, Timeless, Drain, Reaches, Encode, ApplyAll, Logged, EncodeAll, RunUpTo, WholeFrames;
    var store := new Store();
    var aof := new AofWriter();
    assert store.Live(from) == map[];
    var until := Serve(store, aof, events, info, from);
    ghost var requests := Requests(events);
    ghost var p := RunUpTo(requests, WholeFrames(LoggedValues(requests), k));
    assert [] + EncodeAll(LoggedValues(Requests(events))) == EncodeAll(LoggedValues(Requests(events)));
    recovered := new Store();
    assert recovered.Live(now) == map[];
    var count := Replay(recovered, aof.file[..k], info, now);
    CrashPrefix(Requests(events), k, now, recovered.Live(now));
    TimelessPrefix(events, store.Live(until), p, now);
  }
}
