/** What a client sees of a list: which end a command works at, seen through the commands at
    the other end and through LRANGE. */
module ListLaws {
  import opened Bytes
  import opened Resp
  import opened Commands
  import opened Values
  import opened Windows
  import opened Semantics
  import opened KeyLaws

  lemma ListStep(v: View, c: Command, now: int, w: View, r: Reply)
    requires OnList(c) && !c.LRange? && Steps(v, c, now, w, r)
    ensures w == ListNext(v, c) && r == Replied(ListReply(v, c))
  {
    hide Next, ReplyOf, Steps, ListNext, ListReply;
    PlainStep(v, c, now, w, r);
    ListMeaning(v, c, now);
  }

  /** The key holds a value, and that is no list. */
  predicate NoList(v: View, k: bytes) { k in v && !v[k].value.List? }

  lemma TypeErrors(v: View, c: Command, now: int, w: View, r: Reply)
    requires OnList(c) && Steps(v, c, now, w, r) && NoList(v, c.key)
    ensures w == v && r == WRONG_KIND
  {
    if c.LRange? {
      Ranges(v, c.key, c.start, c.stop, now, w, r);
    } else {
      ListStep(v, c, now, w, r);
      hide Steps;
    }
  }

  // --------------------------------------------------------------------------- one command

  /** `v` with the list `q` at a key, under the deadline it had; an empty list is no key. */
  function Holding(v: View, k: bytes, q: seq<bytes>): View
  {
    if q == [] then v - {k} else v[k := Entry(List(q), if k in v then v[k].deadline else None)]
  }

  /** LPUSH puts the words before what is there, in their order. */
  lemma PushesFront(v: View, k: bytes, xs: seq<bytes>, now: int, w: View, r: Reply)
    requires Steps(v, LPush(k, xs), now, w, r) && xs != []
    ensures k !in v ==> w == Holding(v, k, xs)
    ensures k !in v && |xs| < TWO_TO_63 ==> r == Number(|xs|)
    ensures k in v && v[k].value.List? ==> w == Holding(v, k, xs + v[k].value.items)
    ensures k in v && v[k].value.List? && |v[k].value.items| + |xs| < TWO_TO_63 ==>
      r == Number(|v[k].value.items| + |xs|)
  {
    ListStep(v, LPush(k, xs), now, w, r);
    hide Steps;
    assert xs + [] == xs;
  }

  /** RPUSH puts the words behind what is there, in their order. */
  lemma PushesBack(v: View, k: bytes, xs: seq<bytes>, now: int, w: View, r: Reply)
    requires Steps(v, RPush(k, xs), now, w, r) && xs != []
    ensures k !in v ==> w == Holding(v, k, xs)
    ensures k !in v && |xs| < TWO_TO_63 ==> r == Number(|xs|)
    ensures k in v && v[k].value.List? ==> w == Holding(v, k, v[k].value.items + xs)
    ensures k in v && v[k].value.List? && |v[k].value.items| + |xs| < TWO_TO_63 ==>
      r == Number(|v[k].value.items| + |xs|)
  {
    ListStep(v, RPush(k, xs), now, w, r);
    hide Steps;
    assert [] + xs == xs;
  }

  /** A pop without a list replies with the null bulk. */
  lemma NothingToPop(v: View, c: Command, now: int, w: View, r: Reply)
    requires (c.LPop? || c.RPop?) && Steps(v, c, now, w, r) && c.key !in v
    ensures w == v && r == Bulk(None)
  {
    ListStep(v, c, now, w, r);
    hide Steps;
  }

  lemma HoldingAgain(v: View, k: bytes, q: seq<bytes>, p: seq<bytes>)
    requires q != []
    ensures Holding(Holding(v, k, q), k, p) == Holding(v, k, p)
  {
    if p == [] { assert Holding(v, k, q) - {k} == v - {k}; }
  }

  lemma PopsFirst(v: View, k: bytes, q: seq<bytes>, now: int, w: View, r: Reply)
    requires q != [] && Steps(Holding(v, k, q), LPop(k), now, w, r)
    ensures r == Bulk(Some(q[0])) && w == Holding(v, k, q[1..])
  {
    var u := Holding(v, k, q);
    ListStep(u, LPop(k), now, w, r);
    hide Steps;
    HoldingAgain(v, k, q, q[1..]);
    assert w == Holding(u, k, q[1..]);
  }

  lemma PopsLast(v: View, k: bytes, q: seq<bytes>, now: int, w: View, r: Reply)
    requires q != [] && Steps(Holding(v, k, q), RPop(k), now, w, r)
    ensures r == Bulk(Some(q[|q| - 1])) && w == Holding(v, k, q[..|q| - 1])
  {
    var u := Holding(v, k, q);
    ListStep(u, RPop(k), now, w, r);
    hide Steps;
    HoldingAgain(v, k, q, q[..|q| - 1]);
    assert w == Holding(u, k, q[..|q| - 1]);
  }

  lemma Measures(v: View, k: bytes, now: int, w: View, r: Reply)
    requires Steps(v, LLen(k), now, w, r)
    ensures w == v
    ensures k !in v ==> r == Number(0)
    ensures k in v && v[k].value.List? && |v[k].value.items| < TWO_TO_63 ==> r == Number(|v[k].value.items|)
  {
    ListStep(v, LLen(k), now, w, r);
    hide Steps;
  }

  /** LINDEX: from the front, from the back with a negative index, or the null bulk. */
  lemma Indexes(v: View, k: bytes, index: i64, now: int, w: View, r: Reply)
    requires Steps(v, LIndex(k, index), now, w, r)
    ensures w == v
    ensures k !in v ==> r == Bulk(None)
    ensures k in v && v[k].value.List? ==>
      var q := v[k].value.items;
      r == Bulk(if 0 <= index < |q| then Some(q[index]) else if -|q| <= index < 0 then Some(q[|q| + index]) else None)
  {
    ListStep(v, LIndex(k, index), now, w, r);
    hide Steps;
    var q := ListAt(v, k);
    var p := Position(|q|, index);
    SliceFromIs(q, 0, p, p);
    hide SliceFrom;
  }

  /** LRANGE: the whole list with 0 and -1, the stretch between two positions of the list with
      both ends, and a panic exactly when the stop lies before the list and the start does not
      lie behind it. */
  lemma Ranges(v: View, k: bytes, start: i64, stop: i64, now: int, w: View, r: Reply)
    requires Steps(v, LRange(k, start, stop), now, w, r)
    ensures w == v
    ensures NoList(v, k) ==> r == WRONG_KIND
    ensures k !in v ==> r == Replied(Array([]))
    ensures k in v && v[k].value.List? ==>
      var q := v[k].value.items;
      && (start == 0 && stop == -1 ==> r == Replied(Array(BulkStrings(q))))
      && (0 <= start <= stop < |q| ==> r == Replied(Array(BulkStrings(q[start..stop + 1]))))
      && (r == Panicked <==> stop < -|q| && start < |q| && q != [])
  {
    hide Next, ReplyOf;
    RangeStep(v, k, start, stop, now, w, r);
    hide Steps;
    var q := ListAt(v, k);
    SliceFromIs(q, 0, Position(|q|, start), Position(|q|, stop));
    hide SliceFrom, BulkStrings;
    assert k !in v ==> BulkStrings([]) == [];
  }

  lemma RangeStep(v: View, k: bytes, start: i64, stop: i64, now: int, w: View, r: Reply)
    requires Steps(v, LRange(k, start, stop), now, w, r)
    ensures w == v && AnswersRange(v, LRange(k, start, stop), r)
  {
    hide Next, ReplyOf, AnswersRange;
    ListMeaning(v, LRange(k, start, stop), now);
  }

  // ------------------------------------------------------------ one end seen from another

  /** `LPOP k`, or `RPOP k`, one time for each reply. */
  ghost predicate PopRun(v: View, c: Command, now: int, replies: seq<Reply>, w: View)
    decreases |replies|
  {
    if replies == [] then w == v
    else exists u :: Steps(v, c, now, u, replies[0]) && PopRun(u, c, now, replies[1..], w)
  }

  lemma {:induction false} PopsFromFront(v: View, k: bytes, xs: seq<bytes>, q: seq<bytes>, now: int,
                                         replies: seq<Reply>, w: View)
    requires PopRun(Holding(v, k, xs + q), LPop(k), now, replies, w) && |replies| == |xs|
    ensures w == Holding(v, k, q) && forall i :: 0 <= i < |xs| ==> replies[i] == Bulk(Some(xs[i]))
    decreases |xs|
  {
    hide Steps, Holding;
    if xs == [] {
      assert xs + q == q;
    } else {
      var u :| Steps(Holding(v, k, xs + q), LPop(k), now, u, replies[0]) && PopRun(u, LPop(k), now, replies[1..], w);
      PopsFirst(v, k, xs + q, now, u, replies[0]);
      assert (xs + q)[1..] == xs[1..] + q;
      PopsFromFront(v, k, xs[1..], q, now, replies[1..], w);
    }
  }

  lemma {:induction false} PopsFromBack(v: View, k: bytes, q: seq<bytes>, xs: seq<bytes>, now: int,
                                        replies: seq<Reply>, w: View)
    requires PopRun(Holding(v, k, q + xs), RPop(k), now, replies, w) && |replies| == |xs|
    ensures w == Holding(v, k, q) && forall i :: 0 <= i < |xs| ==> replies[i] == Bulk(Some(xs[|xs| - 1 - i]))
    decreases |xs|
  {
    hide Steps, Holding;
    if xs == [] {
      assert q + xs == q;
    } else {
      var n := |xs| - 1;
      var u :| Steps(Holding(v, k, q + xs), RPop(k), now, u, replies[0]) && PopRun(u, RPop(k), now, replies[1..], w);
      PopsLast(v, k, q + xs, now, u, replies[0]);
      assert (q + xs)[..|q + xs| - 1] == q + xs[..n] && (q + xs)[|q + xs| - 1] == xs[n];
      PopsFromBack(v, k, q, xs[..n], now, replies[1..], w);
    }
  }

  /** What a key without another type holds, as a list. */
  function Items(v: View, k: bytes): seq<bytes>
    requires !NoList(v, k)
  {
    if k in v then v[k].value.items else []
  }

  lemma HeldAlready(v: View, k: bytes)
    requires SoundView(v) && !NoList(v, k)
    ensures Holding(v, k, Items(v, k)) == v
  {
    if k in v { assert Sound(v[k].value); } else { assert v - {k} == v; }
  }

  /** A list is a stack at its left end: as many LPOPs as LPUSH had words reply with these in
      order and leave everything as it was before. */
  lemma PushThenPop(v: View, k: bytes, xs: seq<bytes>, now: int, w: View, r: Reply, replies: seq<Reply>, u: View)
    requires SoundView(v) && !NoList(v, k) && xs != [] && Steps(v, LPush(k, xs), now, w, r)
    requires PopRun(w, LPop(k), now, replies, u) && |replies| == |xs|
    ensures u == v && forall i :: 0 <= i < |xs| ==> replies[i] == Bulk(Some(xs[i]))
  {
    hide Steps, PopRun, Holding;
    PushesFront(v, k, xs, now, w, r);
    assert xs + [] == xs;
    PopsFromFront(v, k, xs, Items(v, k), now, replies, u);
    HeldAlready(v, k);
  }

  /** And at its right end, where the last word comes back first. */
  lemma PushThenPopRight(v: View, k: bytes, xs: seq<bytes>, now: int, w: View, r: Reply, replies: seq<Reply>, u: View)
    requires SoundView(v) && !NoList(v, k) && xs != [] && Steps(v, RPush(k, xs), now, w, r)
    requires PopRun(w, RPop(k), now, replies, u) && |replies| == |xs|
    ensures u == v && forall i :: 0 <= i < |xs| ==> replies[i] == Bulk(Some(xs[|xs| - 1 - i]))
  {
    hide Steps, PopRun, Holding;
    PushesBack(v, k, xs, now, w, r);
    assert [] + xs == xs;
    PopsFromBack(v, k, Items(v, k), xs, now, replies, u);
    HeldAlready(v, k);
  }

  /** From the right end to the left it is a queue: LPOP replies with what was there before,
      then with the words of the RPUSH, and the key is gone with the last of them. */
  lemma FirstInFirstOut(v: View, k: bytes, xs: seq<bytes>, now: int, w: View, r: Reply, replies: seq<Reply>, u: View)
    requires !NoList(v, k) && xs != [] && Steps(v, RPush(k, xs), now, w, r)
    requires PopRun(w, LPop(k), now, replies, u) && |replies| == |Items(v, k)| + |xs|
    ensures k !in u && forall i :: 0 <= i < |replies| ==> replies[i] == Bulk(Some((Items(v, k) + xs)[i]))
  {
    hide Steps, PopRun;
    PushesBack(v, k, xs, now, w, r);
    var q := Items(v, k) + xs;
    assert [] + xs == xs && q + [] == q;
    PopsFromFront(v, k, q, [], now, replies, u);
  }

  lemma BulkAppend(p: seq<bytes>, q: seq<bytes>)
    ensures BulkStrings(p + q) == BulkStrings(p) + BulkStrings(q)
  {
  }

  /** `LRANGE k 0 -1` after a push: the words in front of what it gave before, or behind. */
  lemma RangeAfterPush(v: View, c: Command, now: int, w: View, r: Reply, before: Reply, behind: Reply)
    requires (c.LPush? || c.RPush?) && c.vals != [] && !NoList(v, c.key) && Steps(v, c, now, w, r)
    requires Steps(v, LRange(c.key, 0, -1), now, v, before) && Steps(w, LRange(c.key, 0, -1), now, w, behind)
    ensures before.Replied? && before.value.Array?
    ensures c.LPush? ==> behind == Replied(Array(BulkStrings(c.vals) + before.value.items))
    ensures c.RPush? ==> behind == Replied(Array(before.value.items + BulkStrings(c.vals)))
  {
    hide Steps;
    var q := Items(v, c.key);
    Ranges(v, c.key, 0, -1, now, v, before);
    Ranges(w, c.key, 0, -1, now, w, behind);
    assert c.vals + [] == c.vals == [] + c.vals;
    assert c.key !in v ==> BulkStrings(q) == [];
    if c.LPush? {
      PushesFront(v, c.key, c.vals, now, w, r);
      BulkAppend(c.vals, q);
    } else {
      PushesBack(v, c.key, c.vals, now, w, r);
      BulkAppend(q, c.vals);
    }
    hide BulkStrings;
  }
}
