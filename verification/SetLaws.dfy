/** What a client sees of a set: SADD, SREM and SPOP through SISMEMBER, SCARD and SMEMBERS. */
module SetLaws {
  import opened Bytes
  import opened Resp
  import opened Commands
  import opened Values
  import opened Enumerations
  import opened Semantics
  import opened KeyLaws

  lemma SetStep(v: View, c: Command, now: int, w: View, r: Reply)
    requires OnSet(c) && !c.SPop? && !c.SMembers? && Steps(v, c, now, w, r)
    ensures w == SetNext(v, c) && r == Replied(SetReply(v, c))
  {
    hide Next, ReplyOf, Steps, SetNext, SetReply;
    PlainStep(v, c, now, w, r);
    SetMeaning(v, c, now);
  }

  /** The key holds a value, and that is no set. */
  predicate NoSet(v: View, k: bytes) { k in v && !v[k].value.Set? }

  lemma TypeErrors(v: View, c: Command, now: int, w: View, r: Reply)
    requires OnSet(c) && Steps(v, c, now, w, r) && NoSet(v, c.key)
    ensures w == v && r == WRONG_KIND
  {
    hide Next, ReplyOf, Pops, BulkArray;
    SetMeaning(v, c, now);
    if !c.SPop? && !c.SMembers? { SetStep(v, c, now, w, r); }
    hide Steps;
  }

  /** What a key without another type holds, as a set. */
  function Elements(v: View, k: bytes): set<bytes>
    requires !NoSet(v, k)
  {
    if k in v then v[k].value.members else {}
  }

  /** `v` with the set `s` at a key, under the deadline it had; an empty set is no key. */
  function Grouping(v: View, k: bytes, s: set<bytes>): View
  {
    if s == {} then v - {k} else v[k := Entry(StoredValue.Set(s), if k in v then v[k].deadline else None)]
  }

  // --------------------------------------------------------------------------- the readers

  lemma IsMember(v: View, k: bytes, m: bytes, now: int, w: View, r: Reply)
    requires Steps(v, SIsMember(k, m), now, w, r) && !NoSet(v, k)
    ensures w == v && r == Number(if m in Elements(v, k) then 1 else 0)
  {
    SetStep(v, SIsMember(k, m), now, w, r);
    hide Steps;
  }

  lemma Cardinality(v: View, k: bytes, now: int, w: View, r: Reply)
    requires Steps(v, SCard(k), now, w, r) && !NoSet(v, k) && |Elements(v, k)| < TWO_TO_63
    ensures w == v && r == Number(|Elements(v, k)|)
  {
    SetStep(v, SCard(k), now, w, r);
    hide Steps;
  }

  /** SMEMBERS: every member once, in ascending order. */
  lemma ListsMembers(v: View, k: bytes, now: int, w: View, r: Reply)
    requires Steps(v, SMembers(k), now, w, r) && !NoSet(v, k)
    ensures w == v
    ensures exists q :: Enumerates(q, Elements(v, k)) && SortedBy(LexLe, q) && r == Replied(Array(BulkStrings(q)))
  {
    hide Next, ReplyOf;
    SetMeaning(v, SMembers(k), now);
    assert MembersAt(v, k) == Elements(v, k);
    hide Elements, MembersAt, SetReply;
  }

  // --------------------------------------------------------------------------- the writers

  lemma Adds(v: View, k: bytes, ms: seq<bytes>, now: int, w: View, r: Reply)
    requires Steps(v, SAdd(k, ms), now, w, r) && !NoSet(v, k) && ms != []
    ensures w == Grouping(v, k, Elements(v, k) + SetOf(ms))
    ensures |SetOf(ms) - Elements(v, k)| < TWO_TO_63 ==> r == Number(|SetOf(ms) - Elements(v, k)|)
  {
    hide Steps;
    SetStep(v, SAdd(k, ms), now, w, r);
    assert ms[0] in SetOf(ms) && ms[0] in Elements(v, k) + SetOf(ms);
    hide SetOf;
  }

  lemma NoGrouping(v: View, k: bytes, s: set<bytes>)
    requires k !in v
    ensures Grouping(v, k, Elements(v, k) - s) == v
  {
    assert {} - s == {};
  }

  lemma Removes(v: View, k: bytes, ms: seq<bytes>, now: int, w: View, r: Reply)
    requires Steps(v, SRem(k, ms), now, w, r) && SoundView(v) && !NoSet(v, k)
    ensures w == Grouping(v, k, Elements(v, k) - SetOf(ms))
    ensures |SetOf(ms) * Elements(v, k)| < TWO_TO_63 ==> r == Number(|SetOf(ms) * Elements(v, k)|)
  {
    hide Steps, SetOf, Ranked;
    SetStep(v, SRem(k, ms), now, w, r);
    if k in v {
      assert Sound(v[k].value);
    } else {
      NoGrouping(v, k, SetOf(ms));
      hide Grouping;
    }
  }

  lemma GroupingHolds(v: View, k: bytes, s: set<bytes>)
    ensures !NoSet(Grouping(v, k, s), k) && Elements(Grouping(v, k, s), k) == s
  {
  }

  /** SADD, seen through SISMEMBER: its words are members afterwards, and nothing else changes. */
  lemma AddThenIsMember(v: View, k: bytes, ms: seq<bytes>, m: bytes, now: int, w: View, r: Reply,
                        before: Reply, behind: Reply)
    requires Steps(v, SAdd(k, ms), now, w, r) && !NoSet(v, k) && ms != []
    requires Steps(v, SIsMember(k, m), now, v, before) && Steps(w, SIsMember(k, m), now, w, behind)
    ensures behind == if m in ms then Number(1) else before
  {
    hide Steps, Grouping, Elements;
    Adds(v, k, ms, now, w, r);
    GroupingHolds(v, k, Elements(v, k) + SetOf(ms));
    IsMember(v, k, m, now, v, before);
    IsMember(w, k, m, now, w, behind);
  }

  lemma RemoveThenIsMember(v: View, k: bytes, ms: seq<bytes>, m: bytes, now: int, w: View, r: Reply,
                           before: Reply, behind: Reply)
    requires Steps(v, SRem(k, ms), now, w, r) && SoundView(v) && !NoSet(v, k)
    requires Steps(v, SIsMember(k, m), now, v, before) && Steps(w, SIsMember(k, m), now, w, behind)
    ensures behind == if m in ms then Number(0) else before
  {
    hide Steps, Grouping, Elements;
    Removes(v, k, ms, now, w, r);
    GroupingHolds(v, k, Elements(v, k) - SetOf(ms));
    IsMember(v, k, m, now, v, before);
    IsMember(w, k, m, now, w, behind);
  }

  lemma Sizes(e: set<bytes>, s: set<bytes>)
    ensures |e + s| == |e| + |s - e| <= |e| + |s| && |e - s| == |e| - |s * e| && |s * e| <= |s|
  {
    assert e + s == e + (s - e);
    assert e == (e - s) + s * e;
    assert s == (s - e) + s * e;
  }

  /** The replies of SADD and SREM balance: they are by how much SCARD grows and shrinks. */
  lemma CardinalityBalances(v: View, c: Command, now: int, w: View, r: Reply,
                            before: Reply, behind: Reply)
    requires (c.SAdd? || c.SRem?) && c.members != [] && Steps(v, c, now, w, r) && SoundView(v) && !NoSet(v, c.key)
    requires |Elements(v, c.key)| + |SetOf(c.members)| < TWO_TO_63
    requires Steps(v, SCard(c.key), now, v, before) && Steps(w, SCard(c.key), now, w, behind)
    ensures before.Replied? && before.value.Integer? && behind.Replied? && behind.value.Integer?
    ensures r.Replied? && r.value.Integer?
    ensures c.SAdd? ==> behind.value.n == before.value.n + r.value.n
    ensures c.SRem? ==> behind.value.n == before.value.n - r.value.n
  {
    hide Steps, Grouping, Elements, SetOf;
    var k, e, s := c.key, Elements(v, c.key), SetOf(c.members);
    Sizes(e, s);
    Cardinality(v, k, now, v, before);
    if c.SAdd? {
      Adds(v, k, c.members, now, w, r);
      GroupingHolds(v, k, e + s);
    } else {
      Removes(v, k, c.members, now, w, r);
      GroupingHolds(v, k, e - s);
    }
    Cardinality(w, k, now, w, behind);
  }

  /** SPOP with a count: that many different members, or all, leave the set and no other. */
  lemma PopsMany(v: View, k: bytes, count: u64, now: int, w: View, r: Reply)
    requires Steps(v, SPop(k, Some(count)), now, w, r) && SoundView(v) && !NoSet(v, k)
    ensures exists q: seq<bytes> ::
      && r == Replied(Array(BulkStrings(q))) && Enumerates(q, SetOf(q)) && SetOf(q) <= Elements(v, k)
      && |q| == (if count < |Elements(v, k)| then count else |Elements(v, k)|)
      && w == Grouping(v, k, Elements(v, k) - SetOf(q))
  {
    var q :| Pops(v, k, count, w, q) && r == Replied(BulkArray(q));
    PopGroups(v, k, count, w, q);
    hide Pops, Grouping, Elements, SetOf, Enumerates;
  }

  lemma OnePopped(v: View, k: bytes, now: int, w: View, r: Reply) returns (q: seq<bytes>)
    requires Steps(v, SPop(k, None), now, w, r) && !NoSet(v, k)
    ensures Pops(v, k, 1, w, q) && r == Bulk(if q == [] then None else Some(q[|q| - 1]))
  {
    q :| Pops(v, k, 1, w, q) && r == Replied(BulkOrNil(if q == [] then None else Some(q[|q| - 1])));
  }

  /** SPOP without one: any one member, or the null bulk when there is none. */
  lemma PopsOne(v: View, k: bytes, now: int, w: View, r: Reply)
    requires Steps(v, SPop(k, None), now, w, r) && SoundView(v) && !NoSet(v, k)
    ensures k !in v ==> w == v && r == Bulk(None)
    ensures k in v ==> exists m :: m in Elements(v, k) && r == Bulk(Some(m)) && w == Grouping(v, k, Elements(v, k) - {m})
  {
    var q := OnePopped(v, k, now, w, r);
    PopGroups(v, k, 1, w, q);
    hide Steps, Pops, Enumerates, Grouping, Ranked;
    if k in v {
      assert Sound(v[k].value);
      assert q == [q[0]];
      assert SetOf(q) == {q[0]};
    } else {
      hide SetOf;
      NoGrouping(v, k, SetOf(q));
    }
  }

  lemma PopGroups(v: View, k: bytes, count: nat, w: View, q: seq<bytes>)
    requires Pops(v, k, count, w, q) && SoundView(v) && !NoSet(v, k)
    ensures w == Grouping(v, k, Elements(v, k) - SetOf(q)) && SetOf(q) <= Elements(v, k)
    ensures Enumerates(q, SetOf(q)) && |q| == if count < |Elements(v, k)| then count else |Elements(v, k)|
  {
    hide SetOf, Enumerates;
    if k in v { assert Sound(v[k].value); } else { assert v - {k} == v; }
  }

  /** A popped member is a member no longer; the others are as they were. */
  lemma PopThenIsMember(v: View, k: bytes, now: int, w: View, r: Reply, m: bytes, x: bytes,
                        before: Reply, behind: Reply)
    requires Steps(v, SPop(k, None), now, w, r) && SoundView(v) && !NoSet(v, k) && r == Bulk(Some(m))
    requires Steps(v, SIsMember(k, x), now, v, before) && Steps(w, SIsMember(k, x), now, w, behind)
    ensures x == m ==> before == Number(1) && behind == Number(0)
    ensures x != m ==> before == behind
  {
    hide Steps, Grouping, Elements;
    PopsOne(v, k, now, w, r);
    GroupingHolds(v, k, Elements(v, k) - {m});
    IsMember(v, k, x, now, v, before);
    IsMember(w, k, x, now, w, behind);
  }
}
