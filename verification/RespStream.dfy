/** The codec as the server and the log use it: over a growing buffer, frame after frame. */
module RespStream {
  import opened Bytes
  import opened Resp

  // -------------------------------------------------------- draining a buffer

  /** The values taken from the front of a buffer until a frame is incomplete or invalid. */
  datatype Drained = Drained(values: seq<Value>, rest: bytes, error: Option<RespError>)

  function Drain(buf: bytes): (d: Drained)
    ensures |d.rest| <= |buf|
    decreases |buf|
  {
    match ParseValue(buf)
    case Incomplete => Drained([], buf, None)
    case Invalid(e) => Drained([], buf, Some(e))
    case Done(v, consumed) =>
      var d := Drain(buf[consumed..]);
      d.(values := [v] + d.values)
  }

  /** `d` after the values `vs`. */
  function After(vs: seq<Value>, d: Drained): Drained { d.(values := vs + d.values) }

  lemma AfterAfter(us: seq<Value>, vs: seq<Value>, d: Drained)
    ensures After(us, After(vs, d)) == After(us + vs, d)
    ensures After([], d) == d
  {
    assert us + (vs + d.values) == us + vs + d.values;
    assert [] + d.values == d.values;
  }

  /** One frame off the front, with or without more bytes behind. */
  lemma DrainTake(buf: bytes, more: bytes)
    requires ParseValue(buf).Done?
    ensures var v, rest := ParseValue(buf).value, buf[ParseValue(buf).consumed..];
      Drain(buf) == After([v], Drain(rest)) && Drain(buf + more) == After([v], Drain(rest + more))
  {
    ParseStable(buf, more);
    var consumed := ParseValue(buf).consumed;
    assert (buf + more)[consumed..] == buf[consumed..] + more;
  }

  /** Draining can be interrupted anywhere: what was taken stays taken and what was left is
      taken up again with the bytes that follow. */
  lemma {:induction false} DrainAppend(buf: bytes, more: bytes)
    requires Drain(buf).error.None?
    ensures Drain(buf + more) == After(Drain(buf).values, Drain(Drain(buf).rest + more))
    decreases |buf|
  {
    if ParseValue(buf).Done? {
      DrainTake(buf, more);
      var v, rest := ParseValue(buf).value, buf[ParseValue(buf).consumed..];
      DrainAppend(rest, more);
      AfterAfter([v], Drain(rest).values, Drain(Drain(rest).rest + more));
    } else {
      AfterAfter([], [], Drain(buf + more));
    }
  }

  /** An error is final. */
  lemma {:induction false} DrainAppendError(buf: bytes, more: bytes)
    requires Drain(buf).error.Some?
    ensures Drain(buf + more).values == Drain(buf).values && Drain(buf + more).error == Drain(buf).error
    decreases |buf|
  {
    if ParseValue(buf).Done? {
      DrainTake(buf, more);
      DrainAppendError(buf[ParseValue(buf).consumed..], more);
    } else {
      ParseStable(buf, more);
    }
  }

  function Flat(chunks: seq<bytes>): bytes
  {
    if chunks == [] then [] else chunks[0] + Flat(chunks[1..])
  }

  /** A reader's state after some chunks: the values so far, the bytes kept, the error that
      ended the stream if there was one. */
  function Feed(state: Drained, chunk: bytes): Drained
  {
    if state.error.Some? then state
    else After(state.values, Drain(state.rest + chunk))
  }

  function FeedAll(state: Drained, chunks: seq<bytes>): Drained
    decreases |chunks|
  {
    if chunks == [] then state else FeedAll(Feed(state, chunks[0]), chunks[1..])
  }

  const FRESH: Drained := Drained([], [], None)

  lemma {:induction false} FeedAllAfterError(state: Drained, chunks: seq<bytes>)
    requires state.error.Some?
    ensures FeedAll(state, chunks) == state
    decreases |chunks|
  {
    if chunks != [] { FeedAllAfterError(state, chunks[1..]); }
  }

  /** The whole of what a reader in state `state` sees. */
  predicate SameOutcome(d: Drained, e: Drained)
  {
    d.values == e.values && d.error == e.error && (d.error.None? ==> d.rest == e.rest)
  }

  lemma {:induction false} FeedAllFrom(state: Drained, chunks: seq<bytes>)
    requires state.error.None? && Drain(state.rest) == Drained([], state.rest, None)
    ensures SameOutcome(FeedAll(state, chunks), After(state.values, Drain(state.rest + Flat(chunks))))
    decreases |chunks|
  {
    if chunks == [] {
      assert state.rest + Flat(chunks) == state.rest;
    } else {
      var buf, later := state.rest + chunks[0], Flat(chunks[1..]);
      var next := Feed(state, chunks[0]);
      assert buf + later == state.rest + Flat(chunks);
      if next.error.None? {
        DrainAppend(buf, later);
        RestIsIncomplete(buf);
        FeedAllFrom(next, chunks[1..]);
        AfterAfter(state.values, Drain(buf).values, Drain(next.rest + later));
      } else {
        DrainAppendError(buf, later);
        FeedAllAfterError(next, chunks[1..]);
      }
    }
  }

  lemma {:induction false} RestIsIncomplete(buf: bytes)
    requires Drain(buf).error.None?
    ensures Drain(Drain(buf).rest) == Drained([], Drain(buf).rest, None)
    decreases |buf|
  {
    if ParseValue(buf).Done? { RestIsIncomplete(buf[ParseValue(buf).consumed..]); }
  }

  /** Fragmentation does not matter: however a stream is cut into chunks, the reader ends
      with the values, the first error and the kept bytes of the whole stream. */
  lemma FragmentationIndependent(chunks: seq<bytes>)
    ensures SameOutcome(FeedAll(FRESH, chunks), Drain(Flat(chunks)))
  {
    FeedAllFrom(FRESH, chunks);
    AfterAfter([], [], Drain(Flat(chunks)));
    assert FRESH.rest + Flat(chunks) == Flat(chunks);
  }

  // ----------------------------------------------------- draining whole frames

  /** How many of the frames of `vs` lie wholly within the first k bytes. */
  function WholeFrames(vs: seq<Value>, k: nat): (n: nat)
    ensures n <= |vs|
    decreases |vs|
  {
    if vs == [] || k < |Encode(vs[0])| then 0
    else 1 + WholeFrames(vs[1..], k - |Encode(vs[0])|)
  }

  /** `WholeFrames` is the largest number of frames that fit. */
  lemma {:induction false} WholeFramesFit(vs: seq<Value>, k: nat)
    ensures |EncodeAll(vs[..WholeFrames(vs, k)])| <= k
    ensures forall n :: WholeFrames(vs, k) < n <= |vs| ==> k < |EncodeAll(vs[..n])|
    decreases |vs|
  {
    forall n: nat | 0 < n <= |vs|
      ensures EncodeAll(vs[..n]) == Encode(vs[0]) + EncodeAll(vs[1..][..n - 1])
    {
      assert vs[..n][1..] == vs[1..][..n - 1];
    }
    if vs != [] && k >= |Encode(vs[0])| {
      var left := k - |Encode(vs[0])|;
      WholeFramesFit(vs[1..], left);
      forall n | WholeFrames(vs, k) < n <= |vs| ensures k < |EncodeAll(vs[..n])| {
        assert left < |EncodeAll(vs[1..][..n - 1])|;
      }
    }
  }

  lemma CutConcat(head: bytes, tail: bytes, k: nat)
    requires k <= |head| + |tail|
    ensures (head + tail)[..k] == if k < |head| then head[..k] else head + tail[..k - |head|]
  {
  }

  lemma TakenFront(head: bytes, v: Value, tail: bytes)
    requires ParseValue(head + tail) == Done(v, |head|)
    ensures Drain(head + tail) == After([v], Drain(tail))
  {
    assert (head + tail)[|head|..] == tail;
  }

  lemma PartOfFrame(head: bytes, v: Value, k: nat)
    requires ParseValue(head) == Done(v, |head|) && k < |head|
    ensures Drain(head[..k]) == Drained([], head[..k], None)
  {
    ProperPrefixIncomplete(head, k);
  }

  /** The front of a stream: a whole frame is taken, part of one is not. */
  lemma FrontFrame(v: Value, tail: bytes, k: nat)
    requires Decodable(v) && k <= |Encode(v)| + |tail|
    ensures Drain((Encode(v) + tail)[..k]) ==
      if k < |Encode(v)| then Drained([], Encode(v)[..k], None) else After([v], Drain(tail[..k - |Encode(v)|]))
  {
    hide ParseValue, Drain, Encode;
    CutConcat(Encode(v), tail, k);
    if k < |Encode(v)| {
      DecodableExactly(v);
      PartOfFrame(Encode(v), v, k);
    } else {
      RoundTrip(v, tail[..k - |Encode(v)|]);
      TakenFront(Encode(v), v, tail[..k - |Encode(v)|]);
    }
  }

  lemma DecodableFront(vs: seq<Value>)
    requires DecodableAll(vs) && vs != []
    ensures Decodable(vs[0]) && DecodableAll(vs[1..]) && EncodeAll(vs) == Encode(vs[0]) + EncodeAll(vs[1..])
  {
    assert CollapseAll(vs)[0] == vs[0] && CollapseAll(vs)[1..] == vs[1..];
  }

  lemma NothingToCut(k: nat)
    requires k <= |EncodeAll([])|
    ensures Drain(EncodeAll([])[..k]) == Drained([], [], None)
  {
  }

  /** A stream of frames cut after k bytes drains to the frames that are whole, without an error. */
  lemma {:induction false} CutStream(vs: seq<Value>, k: nat)
    requires DecodableAll(vs) && k <= |EncodeAll(vs)|
    ensures Drain(EncodeAll(vs)[..k]).values == vs[..WholeFrames(vs, k)]
    ensures Drain(EncodeAll(vs)[..k]).error.None?
    decreases |vs|
  {
    hide ParseValue, Drain, Encode, EncodeAll, Decodable, DecodableAll;
    if vs == [] {
      NothingToCut(k);
    } else {
      DecodableFront(vs);
      var tail := EncodeAll(vs[1..]);
      var left := k - |Encode(vs[0])|;
      FrontFrame(vs[0], tail, k);
      if left >= 0 {
        CutStream(vs[1..], left);
        CutLength(vs, left);
      }
    }
  }

  lemma CutLength(vs: seq<Value>, left: nat)
    requires vs != []
    ensures vs[..WholeFrames(vs[1..], left) + 1] == [vs[0]] + vs[1..][..WholeFrames(vs[1..], left)]
  {
  }

  lemma {:induction false} EncodeAllConcat(a: seq<Value>, b: seq<Value>)
    ensures EncodeAll(a + b) == EncodeAll(a) + EncodeAll(b)
    decreases |a|
  {
    if a == [] {
      assert a + b == b;
    } else {
      assert (a + b)[0] == a[0] && (a + b)[1..] == a[1..] + b;
      EncodeAllConcat(a[1..], b);
    }
  }

  lemma Concat3(a: bytes, b: bytes, c: bytes, d: bytes)
    ensures a + b + c + d == a + (b + c + d)
    ensures a + [] == a
  {
  }

  // ------------------------------------------------- the codec over its buffer

  class BytesMut {
    var contents: bytes

    constructor (initial: bytes)
      ensures contents == initial
    {
      contents := initial;
    }
  }

  /** The loop of `parse_array` run to its end: with `count` values still to read at `offset`,
      the outcome is `all`. */
  ghost predicate Pending(all: Parsed<seq<Value>>, items: seq<Value>, buf: bytes, offset: nat, count: nat)
    decreases count
  {
    && offset <= |buf|
    && if count == 0 then all == Done(items, offset)
       else
         var turn := ParseValue(buf[offset..]);
         if turn.Done? then Pending(all, items + [turn.value], buf, offset + turn.consumed, count - 1)
         else all == Without(turn)
  }

  lemma ResumeResume(items: seq<Value>, consumed: nat, v: Value, n: nat, rest: Parsed<seq<Value>>)
    ensures Resume(items, consumed, Resume([v], n, rest)) == Resume(items + [v], consumed + n, rest)
    ensures Resume([], 0, rest) == rest
  {
    if rest.Done? {
      assert items + ([v] + rest.value) == items + [v] + rest.value;
      assert [] + rest.value == rest.value;
    }
  }

  lemma {:induction false} PendingIs(items: seq<Value>, buf: bytes, offset: nat, count: nat)
    requires offset <= |buf|
    ensures Pending(Resume(items, offset, ParseItems(buf[offset..], count)), items, buf, offset, count)
    decreases count
  {
    hide ParseValue, ParseItems;
    if count == 0 {
      ItemsNone(buf[offset..]);
      assert items + [] == items;
    } else {
      var turn := ParseValue(buf[offset..]);
      ItemsStep(buf[offset..], count, turn);
      if turn.Done? {
        assert buf[offset..][turn.consumed..] == buf[offset + turn.consumed..];
        ResumeResume(items, offset, turn.value, turn.consumed, ParseItems(buf[offset + turn.consumed..], count - 1));
        PendingIs(items + [turn.value], buf, offset + turn.consumed, count - 1);
      }
    }
  }

  lemma PendingStart(buf: bytes, count: nat)
    ensures Pending(ParseItems(buf, count), [], buf, 0, count)
  {
    assert buf[0..] == buf;
    PendingIs([], buf, 0, count);
    ResumeResume([], 0, Null, 0, ParseItems(buf, count));
  }

  /** `parse_value`, with the loop of `parse_array`. */
  method ParseFrame(buf: bytes) returns (r: Parsed<Value>)
    ensures r == ParseValue(buf)
    decreases |buf|, 1
  {
    if buf == [] || buf[0] != '*' {
      return ParseValue(buf);
    }
    r := ParseArray(buf);
  }

  method ParseArray(buf: bytes) returns (r: Parsed<Value>)
    requires buf != [] && buf[0] == '*'
    ensures r == ParseValue(buf)
    decreases |buf|, 0
  {
    var head := ParseLine(buf, 1);
    if head.None? { return Incomplete; }
    var (line, start) := head.value;
    var count := Decimal.ParseI64(line);
    if count.None? { return Invalid(InvalidArrayLength(line)); }
    if count.value < 0 { return Done(Null, start); }
    var body := ParseArrayBody(buf[start..], count.value);
    match body {
      case Done(items, consumed) => return Done(Array(items), start + consumed);
      case Incomplete => return Incomplete;
      case Invalid(e) => return Invalid(e);
    }
  }

  method ParseArrayBody(buf: bytes, len: nat) returns (r: Parsed<seq<Value>>)
    ensures r == ParseItems(buf, len)
    decreases |buf|, 2
  {
    hide ParseValue, ParseItems;
    var items: seq<Value> := [];
    var offset: nat := 0;
    ghost var all := ParseItems(buf, len);
    PendingStart(buf, len);
    for i := 0 to len
      invariant Pending(all, items, buf, offset, len - i)
    {
      var item := ParseFrame(buf[offset..]);
      if !item.Done? { return Without(item); }
      items := items + [item.value];
      offset := offset + item.consumed;
    }
    r := Done(items, offset);
  }

  /** `decode`: takes one frame off the front of the buffer, or leaves it as it was. */
  method Decode(src: BytesMut) returns (r: Result<Option<Value>, RespError>)
    modifies src
    ensures match ParseValue(old(src.contents))
      case Done(v, consumed) => r == Ok(Some(v)) && src.contents == old(src.contents)[consumed..]
      case Incomplete => r == Ok(None) && src.contents == old(src.contents)
      case Invalid(e) => r == Err(e) && src.contents == old(src.contents)
  {
    if src.contents == [] { return Ok(None); }
    var frame := ParseFrame(src.contents);
    match frame {
      case Done(value, consumed) =>
        src.contents := src.contents[consumed..];
        return Ok(Some(value));
      case Incomplete => return Ok(None);
      case Invalid(e) => return Err(e);
    }
  }

  /** `encode`: appends the frame of `item`. */
  method EncodeTo(item: Value, dst: BytesMut)
    modifies dst
    ensures dst.contents == old(dst.contents) + Encode(item)
    decreases item, 1
  {
    match item {
      case SimpleString(s) => dst.contents := dst.contents + ("+" + s + CRLF);
      case Error(s) => dst.contents := dst.contents + ("-" + s + CRLF);
      case Integer(i) => dst.contents := dst.contents + (":" + Decimal.IntText(i) + CRLF);
      case NilBulk => dst.contents := dst.contents + "$-1\r\n";
      case Null => dst.contents := dst.contents + "$-1\r\n";
      case BulkString(b) => EncodeBulkTo(b, dst);
      case NilArray => dst.contents := dst.contents + "*-1\r\n";
      case Array(items) => EncodeArrayTo(items, dst);
    }
  }

  method EncodeBulkTo(b: bytes, dst: BytesMut)
    modifies dst
    ensures dst.contents == old(dst.contents) + Encode(BulkString(b))
  {
    var head := "$" + Decimal.IntText(|b|) + CRLF;
    dst.contents := dst.contents + head;
    dst.contents := dst.contents + b;
    dst.contents := dst.contents + CRLF;
    Concat3(old(dst.contents), head, b, CRLF);
    assert Encode(BulkString(b)) == head + b + CRLF;
  }

  method EncodeArrayTo(items: seq<Value>, dst: BytesMut)
    modifies dst
    ensures dst.contents == old(dst.contents) + Encode(Array(items))
    decreases items, 0
  {
    var head := "*" + Decimal.IntText(|items|) + CRLF;
    ghost var whole := old(dst.contents) + Encode(Array(items));
    Concat3(old(dst.contents), head, EncodeAll(items), []);
    assert items[0..] == items;
    dst.contents := dst.contents + head;
    for i := 0 to |items|
      invariant whole == dst.contents + EncodeAll(items[i..])
    {
      EncodeNext(dst.contents, items, i);
      EncodeTo(items[i], dst);
    }
  }

  lemma EncodeNext(done: bytes, items: seq<Value>, i: nat)
    requires i < |items|
    ensures done + EncodeAll(items[i..]) == done + Encode(items[i]) + EncodeAll(items[i + 1..])
  {
    assert items[i..][1..] == items[i + 1..];
    Concat3(done, Encode(items[i]), EncodeAll(items[i + 1..]), []);
  }

  /** A connection's reader: buffers what arrives and drains it after each chunk. */
  class FrameReader {
    const src: BytesMut
    var values: seq<Value>
    var error: Option<RespError>

    constructor ()
      ensures State() == FRESH && fresh(src)
    {
      src := new BytesMut([]);
      values, error := [], None;
    }

    ghost function State(): Drained
      reads this, src
    {
      Drained(values, src.contents, error)
    }

    method OnChunk(chunk: bytes)
      modifies this, src
      ensures State() == Feed(old(State()), chunk)
    {
      if error.Some? { return; }
      src.contents := src.contents + chunk;
      ghost var whole := Drain(src.contents);
      ghost var taken: seq<Value> := [];
      AfterAfter([], [], whole);
      while true
        invariant error.None?
        invariant values == old(values) + taken && whole == After(taken, Drain(src.contents))
        decreases |src.contents|
      {
        ghost var left := src.contents;
        var frame := Decode(src);
        match frame {
          case Ok(Some(value)) =>
            AfterAfter(taken, [value], Drain(src.contents));
            values := values + [value];
            taken := taken + [value];
          case Ok(None) => break;
          case Err(e) => error := Some(e); break;
        }
      }
    }

    /** Any chunking of a stream leaves the values and the first error of the whole stream. */
    method OnChunks(chunks: seq<bytes>)
      requires State() == FRESH
      modifies this, src
      ensures values == Drain(Flat(chunks)).values && error == Drain(Flat(chunks)).error
    {
      for i := 0 to |chunks|
        invariant FeedAll(FRESH, chunks) == FeedAll(State(), chunks[i..])
      {
        OnChunk(chunks[i]);
      }
      FragmentationIndependent(chunks);
    }
  }
}
