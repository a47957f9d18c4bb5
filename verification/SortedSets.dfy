/** A sorted set held in two indices: the updates that keep them in step, and the queries
    that read the tree but answer for the score map. */
module SortedSets {
  import opened Bytes
  import opened Values
  import opened Enumerations

  // ------------------------------------------------------------------- updates

  /** Taking a member out of the bucket of its score; an emptied bucket goes. */
  method Unfile(ghost scores: map<bytes, int>, tree: map<int, set<bytes>>, member: bytes, score: int)
    returns (tree': map<int, set<bytes>>)
    requires tree == TreeOf(scores) && member in scores && scores[member] == score
    ensures tree' == TreeOf(scores - {member})
  {
    CoherentExactly(scores, tree);
    tree' := tree;
    if score in tree {
      var left := tree[score] - {member};
      tree' := if left == {} then tree - {score} else tree[score := left];
    }
    CoherentExactly(scores - {member}, tree');
  }

  /** The body of `z_add`: a member that changes score moves from one bucket to another. */
  method Score(scores: map<bytes, int>, tree: map<int, set<bytes>>, score: int, member: bytes)
    returns (scores': map<bytes, int>, tree': map<int, set<bytes>>, isNew: bool)
    requires tree == TreeOf(scores)
    ensures scores' == scores[member := score] && tree' == TreeOf(scores')
    ensures isNew <==> member !in scores
  {
    isNew := member !in scores;
    scores', tree' := scores, tree;
    if member in scores {
      tree' := Unfile(scores, tree, member, scores[member]);
      scores' := scores' - {member};
    }
    assert scores' == scores - {member};
    FiledCoherently(scores', tree', score, member);
    scores' := scores'[member := score];
    tree' := tree'[score := (if score in tree' then tree'[score] else {}) + {member}];
    assert scores' == scores[member := score];
  }

  lemma FiledCoherently(scores: map<bytes, int>, tree: map<int, set<bytes>>, score: int, member: bytes)
    requires tree == TreeOf(scores) && member !in scores
    ensures tree[score := (if score in tree then tree[score] else {}) + {member}] == TreeOf(scores[member := score])
  {
    CoherentExactly(scores, tree);
    var scores' := scores[member := score];
    var tree' := tree[score := (if score in tree then tree[score] else {}) + {member}];
    assert Coherent(scores', tree');
    CoherentExactly(scores', tree');
  }

  lemma RemovedSize(scores: map<bytes, int>, member: bytes)
    ensures |scores - {member}| == if member in scores then |scores| - 1 else |scores|
    ensures member !in scores ==> scores - {member} == scores
  {
    if member in scores {
      assert scores.Keys == (scores - {member}).Keys + {member};
    } else {
      assert scores - {member} == scores;
    }
  }

  method UnscoreOne(scores: map<bytes, int>, tree: map<int, set<bytes>>, member: bytes)
    returns (scores': map<bytes, int>, tree': map<int, set<bytes>>, removed: nat)
    requires tree == TreeOf(scores)
    ensures scores' == scores - {member} && tree' == TreeOf(scores')
    ensures removed == |scores| - |scores'|
  {
    RemovedSize(scores, member);
    if member in scores {
      tree' := Unfile(scores, tree, member, scores[member]);
      scores', removed := scores - {member}, 1;
    } else {
      scores', tree', removed := scores, tree, 0;
    }
  }

  lemma RemoveNext(scores: map<bytes, int>, members: seq<bytes>, i: nat)
    requires i < |members|
    ensures scores - SetOf(members[..i]) - {members[i]} == scores - SetOf(members[..i + 1])
  {
    assert SetOf(members[..i + 1]) == SetOf(members[..i]) + {members[i]};
  }

  /** The loop of `z_rem`; a member named twice is removed, and counted, once. */
  method Unscore(scores: map<bytes, int>, tree: map<int, set<bytes>>, members: seq<bytes>)
    returns (scores': map<bytes, int>, tree': map<int, set<bytes>>, removed: nat)
    requires tree == TreeOf(scores)
    ensures scores' == scores - SetOf(members) && tree' == TreeOf(scores')
    ensures removed == |scores| - |scores'|
  {
    scores', tree', removed := scores, tree, 0;
    assert scores - SetOf(members[..0]) == scores;
    for i := 0 to |members|
      invariant scores' == scores - SetOf(members[..i]) && tree' == TreeOf(scores')
      invariant removed == |scores| - |scores'|
    {
      RemoveNext(scores, members, i);
      var scores1, tree1, one := UnscoreOne(scores', tree', members[i]);
      scores', tree', removed := scores1, tree1, removed + one;
    }
    assert members[..|members|] == members;
  }

  // ------------------------------------------------------------------- queries

  /** A member with its score. */
  type Scored = (bytes, int)

  predicate ScoreLe(a: Scored, b: Scored) { a.1 <= b.1 }

  predicate ScoreGe(a: Scored, b: Scored) { b.1 <= a.1 }

  function Entries(scores: map<bytes, int>): set<Scored> { set m | m in scores :: (m, scores[m]) }

  /** The members of a sorted set by rank: every member once, scores never decreasing. */
  ghost predicate ByRank(q: seq<Scored>, scores: map<bytes, int>)
  {
    Enumerates(q, Entries(scores)) && SortedBy(ScoreLe, q)
  }

  /** The same from the highest score down. */
  ghost predicate ByReverseRank(q: seq<Scored>, scores: map<bytes, int>)
  {
    Enumerates(q, Entries(scores)) && SortedBy(ScoreGe, q)
  }

  /** The entries whose score is one of `order`. */
  function WithScores(scores: map<bytes, int>, order: set<int>): set<Scored>
  {
    set m | m in scores && scores[m] in order :: (m, scores[m])
  }

  /** One bucket of the tree, in hash order. */
  method BucketEntries(ghost scores: map<bytes, int>, tree: map<int, set<bytes>>, score: int) returns (q: seq<Scored>)
    requires tree == TreeOf(scores) && score in tree
    ensures Enumerates(q, WithScores(scores, {score}))
    ensures forall i :: 0 <= i < |q| ==> q[i].1 == score
  {
    var members := Enumerate(tree[score]);
    EnumerationIs(members, tree[score]);
    q := seq(|members|, i requires 0 <= i < |members| => (members[i], score));
    CoherentExactly(scores, tree);
    forall e ensures e in SetOf(q) <==> e in WithScores(scores, {score}) {
      if e in q { var i :| 0 <= i < |q| && q[i] == e; assert members[i] in tree[score]; }
      if e in WithScores(scores, {score}) {
        assert e.0 in SetOf(members);
        var i :| 0 <= i < |members| && members[i] == e.0;
        assert q[i] == e;
      }
    }
    DistinctEnumerates(q, WithScores(scores, {score}));
  }

  lemma JoinBuckets(p: seq<Scored>, q: seq<Scored>, scores: map<bytes, int>, done: set<int>, score: int)
    requires Enumerates(p, WithScores(scores, done)) && Enumerates(q, WithScores(scores, {score})) && score !in done
    ensures Enumerates(p + q, WithScores(scores, done + {score}))
  {
    var a, b, c := WithScores(scores, done), WithScores(scores, {score}), WithScores(scores, done + {score});
    assert a !! b;
    forall e ensures e in c <==> e in a || e in b {
      if e in c { assert e.0 in scores && scores[e.0] == e.1; }
    }
    assert c == a + b;
    assert multiset(c) == multiset(a) + multiset(b);
  }

  /** `tree.iter().flat_map(...)`: bucket after bucket, scores ascending. */
  method RankAscending(ghost scores: map<bytes, int>, tree: map<int, set<bytes>>) returns (q: seq<Scored>)
    requires tree == TreeOf(scores)
    ensures ByRank(q, scores)
  {
    var order := Ascending(tree.Keys);
    q := [];
    for k := 0 to |order|
      invariant Enumerates(q, WithScores(scores, SetOf(order[..k])))
      invariant SortedBy(ScoreLe, q)
      invariant forall i, j :: 0 <= i < |q| && k <= j < |order| ==> q[i].1 < order[j]
    {
      assert order[k] in SetOf(order);
      var bucket := BucketEntries(scores, tree, order[k]);
      assert SetOf(order[..k + 1]) == SetOf(order[..k]) + {order[k]};
      assert order[k] !in SetOf(order[..k]);
      JoinBuckets(q, bucket, scores, SetOf(order[..k]), order[k]);
      q := q + bucket;
    }
    assert order[..|order|] == order;
    AllScores(scores);
  }

  /** `tree.iter().rev().flat_map(...)`: buckets by descending score, each in hash order. */
  method RankDescending(ghost scores: map<bytes, int>, tree: map<int, set<bytes>>) returns (q: seq<Scored>)
    requires tree == TreeOf(scores)
    ensures ByReverseRank(q, scores)
  {
    var order := Ascending(tree.Keys);
    q := [];
    for k := |order| downto 0
      invariant Enumerates(q, WithScores(scores, SetOf(order[k..])))
      invariant SortedBy(ScoreGe, q)
      invariant forall i, j :: 0 <= i < |q| && 0 <= j < k ==> order[j] < q[i].1
    {
      assert order[k] in SetOf(order);
      var bucket := BucketEntries(scores, tree, order[k]);
      assert SetOf(order[k..]) == SetOf(order[k + 1..]) + {order[k]} by {
        assert order[k..] == [order[k]] + order[k + 1..];
      }
      assert order[k] !in SetOf(order[k + 1..]);
      JoinBuckets(q, bucket, scores, SetOf(order[k + 1..]), order[k]);
      q := q + bucket;
    }
    assert order[0..] == order;
    AllScores(scores);
  }

  lemma AllScores(scores: map<bytes, int>)
    ensures WithScores(scores, TreeOf(scores).Keys) == Entries(scores)
  {
    forall m | m in scores ensures scores[m] in TreeOf(scores) {
      assert scores[m] in scores.Values;
    }
    forall e ensures e in WithScores(scores, TreeOf(scores).Keys) <==> e in Entries(scores) {
      if e in Entries(scores) { assert e.0 in scores && e == (e.0, scores[e.0]); }
    }
  }

  /** The members with a score between two bounds. */
  function InRange(scores: map<bytes, int>, min: int, max: int): set<bytes>
  {
    set m | m in scores && min <= scores[m] <= max
  }

  /** The members in range whose bucket is not among those left. */
  function InRangeBut(scores: map<bytes, int>, min: int, max: int, left: set<int>): set<bytes>
  {
    set m | m in scores && min <= scores[m] <= max && scores[m] !in left
  }

  lemma CountBucket(scores: map<bytes, int>, min: int, max: int, left: set<int>, s: int)
    requires s in TreeOf(scores) && s in left && min <= s <= max
    ensures |InRangeBut(scores, min, max, left - {s})| == |InRangeBut(scores, min, max, left)| + |TreeOf(scores)[s]|
  {
    var bucket, before := TreeOf(scores)[s], InRangeBut(scores, min, max, left);
    assert bucket !! before;
    assert InRangeBut(scores, min, max, left - {s}) == before + bucket;
  }

  lemma CountEnds(scores: map<bytes, int>, min: int, max: int)
    ensures InRangeBut(scores, min, max, {}) == InRange(scores, min, max)
    ensures InRangeBut(scores, min, max, set s | s in TreeOf(scores) && min <= s <= max) == {}
  {
    forall m | m in scores ensures scores[m] in TreeOf(scores) {
      assert scores[m] in scores.Values;
    }
  }

  /** `z_count`: the sizes of the buckets in range add up to the members in range. */
  method CountRange(ghost scores: map<bytes, int>, tree: map<int, set<bytes>>, min: int, max: int) returns (n: nat)
    requires tree == TreeOf(scores)
    ensures n == |InRange(scores, min, max)|
  {
    n := 0;
    var range := set s | s in tree && min <= s <= max;
    var order := Ascending(range);
    ghost var left := range;
    CountEnds(scores, min, max);
    hide TreeOf, InRangeBut;
    for i := 0 to |order|
      invariant left == SetOf(order[i..]) && n == |InRangeBut(scores, min, max, left)|
    {
      var s := order[i];
      assert s in SetOf(order[i..]) && s in SetOf(order);
      assert SetOf(order[i..]) - {s} == SetOf(order[i + 1..]) by {
        assert order[i..] == [s] + order[i + 1..];
      }
      CountBucket(scores, min, max, left, s);
      n := n + |tree[s]|;
      left := left - {s};
    }
    assert order[|order|..] == [] && left == {};
  }

  // --------------------------------------------------- ZRANGE and ZREVRANGE together

  function ScoresOf(q: seq<Scored>): (r: seq<int>)
    ensures |r| == |q| && forall i :: 0 <= i < |q| ==> r[i] == q[i].1
  {
    seq(|q|, i requires 0 <= i < |q| => q[i].1)
  }

  function Reverse<T>(q: seq<T>): (r: seq<T>)
    ensures |r| == |q| && forall i :: 0 <= i < |q| ==> r[i] == q[|q| - 1 - i]
  {
    seq(|q|, i requires 0 <= i < |q| => q[|q| - 1 - i])
  }

  lemma ScoresConcat(p: seq<Scored>, q: seq<Scored>)
    ensures ScoresOf(p + q) == ScoresOf(p) + ScoresOf(q)
  {
  }

  lemma WithoutOne(q: seq<Scored>, k: nat)
    requires k < |q|
    ensures multiset(q) == multiset(q[..k] + q[k + 1..]) + multiset{q[k]}
    ensures multiset(ScoresOf(q)) == multiset(ScoresOf(q[..k] + q[k + 1..])) + multiset{q[k].1}
  {
    var before, one, behind := q[..k], [q[k]], q[k + 1..];
    assert q == before + one + behind;
    ScoresConcat(before, behind);
    ScoresConcat(before + one, behind);
    ScoresConcat(before, one);
    assert ScoresOf(one) == [q[k].1];
    hide ScoresOf;
    assert multiset(before + one + behind) == multiset(before) + multiset(one) + multiset(behind);
  }

  lemma {:induction false} ScoresPermute(p: seq<Scored>, q: seq<Scored>)
    requires multiset(p) == multiset(q)
    ensures multiset(ScoresOf(p)) == multiset(ScoresOf(q))
    decreases |p|
  {
    assert |p| == |multiset(p)| == |multiset(q)| == |q|;
    if p != [] {
      assert p[0] in multiset(q);
      var k :| 0 <= k < |q| && q[k] == p[0];
      WithoutOne(p, 0);
      WithoutOne(q, k);
      assert multiset(p[..0] + p[1..]) == multiset(p) - multiset{p[0]};
      assert multiset(q[..k] + q[k + 1..]) == multiset(q) - multiset{q[k]};
      ScoresPermute(p[..0] + p[1..], q[..k] + q[k + 1..]);
    }
  }

  lemma {:induction false} ReverseMultiset<T>(q: seq<T>)
    ensures multiset(Reverse(q)) == multiset(q)
    decreases |q|
  {
    if q != [] {
      ReverseMultiset(q[1..]);
      assert Reverse(q) == Reverse(q[1..]) + [q[0]];
      assert q == [q[0]] + q[1..];
    }
  }

  /** Whatever the hash orders of ties, the two rankings list the same members and their
      score sequences are each other's reverse. */
  lemma RankingsMirror(up: seq<Scored>, down: seq<Scored>, scores: map<bytes, int>)
    requires ByRank(up, scores) && ByReverseRank(down, scores)
    ensures multiset(up) == multiset(down)
    ensures ScoresOf(down) == Reverse(ScoresOf(up))
  {
    ScoresPermute(up, down);
    ReverseMultiset(ScoresOf(down));
    var a, b := ScoresOf(up), Reverse(ScoresOf(down));
    forall i, j | 0 <= i < j < |a| ensures IntLe(a[i], a[j]) { assert ScoreLe(up[i], up[j]); }
    forall i, j | 0 <= i < j < |b| ensures IntLe(b[i], b[j]) {
      assert ScoreGe(down[|b| - 1 - j], down[|b| - 1 - i]);
    }
    SortedOnce(IntLe, a, b);
  }
}
