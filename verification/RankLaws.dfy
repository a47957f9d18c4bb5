/** What a client sees of a sorted set: ZADD and ZREM through ZSCORE and ZCARD, the count of a
    range, and which way round each of the two ranges runs. */
module RankLaws {
  import opened Bytes
  import opened Decimal
  import opened Resp
  import opened Commands
  import opened Values
  import opened Enumerations
  import opened Windows
  import opened SortedSets
  import opened Semantics
  import opened KeyLaws
  import opened SetLaws

  lemma ScoreStep(v: View, c: Command, now: int, w: View, r: Reply)
    requires (c.ZAdd? || c.ZScore? || c.ZRem? || c.ZCard?) && Steps(v, c, now, w, r)
    ensures w == SortedSetNext(v, c) && r == Replied(SortedSetReply(v, c))
  {
    hide Next, ReplyOf, Steps, SortedSetNext, SortedSetReply;
    PlainStep(v, c, now, w, r);
    SortedSetMeaning(v, c, now);
  }

  lemma RangeStep(v: View, c: Command, now: int, w: View, r: Reply)
    requires (c.ZRange? || c.ZRevRange? || c.ZCount?) && Steps(v, c, now, w, r)
    ensures w == v
    ensures !c.ZCount? ==> AnswersRanking(v, c, r)
    ensures c.ZCount? ==> AnswersZCount(v, c, r)
  {
    hide Next, ReplyOf, AnswersRanking, AnswersZCount, SortedSetReply;
    SortedSetMeaning(v, c, now);
  }

  /** The key holds a value, and that is no sorted set. */
  predicate NoRanking(v: View, k: bytes) { k in v && !v[k].value.SortedSet? }

  lemma TypeErrors(v: View, c: Command, now: int, w: View, r: Reply)
    requires OnSortedSet(c) && Steps(v, c, now, w, r) && NoRanking(v, c.key)
    ensures w == v && r == WRONG_KIND
  {
    hide Steps, SortedSetNext, SortedSetReply, AnswersRanking, AnswersZCount, NoRanking;
    if c.ZRange? || c.ZRevRange? || c.ZCount? {
      RangeStep(v, c, now, w, r);
      RangeTypeErrors(v, c, r);
    } else {
      ScoreStep(v, c, now, w, r);
      ScoreTypeErrors(v, c);
    }
  }

  lemma RangeTypeErrors(v: View, c: Command, r: Reply)
    requires (c.ZRange? || c.ZRevRange? || c.ZCount?) && NoRanking(v, c.key)
    requires if c.ZCount? then AnswersZCount(v, c, r) else AnswersRanking(v, c, r)
    ensures r == WRONG_KIND
  {
    hide ByRank, ByReverseRank, InRange, BulkArray, AsI64;
  }

  lemma ScoreTypeErrors(v: View, c: Command)
    requires (c.ZAdd? || c.ZScore? || c.ZRem? || c.ZCard?) && NoRanking(v, c.key)
    ensures SortedSetNext(v, c) == v && Replied(SortedSetReply(v, c)) == WRONG_KIND
  {
    NothingRanked(v, c.key);
    hide LastScores, Ranked, SetOf, IntText, AsI64, Shrink, Write, ScoresAt, Mistyped, NoRanking;
  }

  lemma NothingRanked(v: View, k: bytes)
    requires NoRanking(v, k)
    ensures ScoresAt(v, k) == map[] && Mistyped(v, k, ZsetKind)
  {
  }

  /** What a key without another type holds, as the scores of its members. */
  function Scores(v: View, k: bytes): map<bytes, int>
    requires !NoRanking(v, k)
  {
    if k in v then v[k].value.scores else map[]
  }

  /** `v` with these scores at a key, under the deadline it had; no scores are no key. */
  function Scoring(v: View, k: bytes, z: map<bytes, int>): View
  {
    if z == map[] then v - {k} else v[k := Entry(Ranked(z), if k in v then v[k].deadline else None)]
  }

  lemma ScoringHolds(v: View, k: bytes, z: map<bytes, int>)
    ensures !NoRanking(Scoring(v, k, z), k) && Scores(Scoring(v, k, z), k) == z
  {
    hide TreeOf;
  }

  // ------------------------------------------------------------------------- single scores

  /** ZSCORE: the score as a text, or the null bulk. */
  lemma GetsScore(v: View, k: bytes, m: bytes, now: int, w: View, r: Reply)
    requires Steps(v, ZScore(k, m), now, w, r) && !NoRanking(v, k)
    ensures w == v && r == Bulk(if m in Scores(v, k) then Some(IntText(Scores(v, k)[m])) else None)
  {
    hide Steps, IntText;
    ScoreStep(v, ZScore(k, m), now, w, r);
  }

  lemma Cardinality(v: View, k: bytes, now: int, w: View, r: Reply)
    requires Steps(v, ZCard(k), now, w, r) && !NoRanking(v, k) && |Scores(v, k).Keys| < TWO_TO_63
    ensures w == v && r == Number(|Scores(v, k).Keys|)
  {
    hide Steps;
    ScoreStep(v, ZCard(k), now, w, r);
    ScoresSize(Scores(v, k));
  }

  lemma ScoresSize(z: map<bytes, int>)
    ensures |z| == |z.Keys|
  {
  }

  /** ZCOUNT: the members between the bounds, both included; a panic exactly when the bounds are
      the wrong way round on a key that is there. */
  lemma CountsRange(v: View, k: bytes, min: int, max: int, now: int, w: View, r: Reply)
    requires Steps(v, ZCount(k, min, max), now, w, r) && !NoRanking(v, k)
    ensures w == v && (r == Panicked <==> k in v && max < min)
    ensures var inside := set m | m in Scores(v, k) && min <= Scores(v, k)[m] <= max;
      r != Panicked && |inside| < TWO_TO_63 ==> r == Number(|inside|)
  {
    hide Steps;
    RangeStep(v, ZCount(k, min, max), now, w, r);
    assert ScoresAt(v, k) == Scores(v, k);
    hide Scores, ScoresAt;
  }

  // ------------------------------------------------------------------------------- updates

  lemma {:induction false} LastScoreOf(pairs: seq<(int, bytes)>, i: nat)
    requires i < |pairs| && forall j :: i < j < |pairs| ==> pairs[j].1 != pairs[i].1
    ensures pairs[i].1 in LastScores(pairs) && LastScores(pairs)[pairs[i].1] == pairs[i].0
    decreases |pairs|
  {
    if i > 0 {
      LastScoreOf(pairs[1..], i - 1);
    } else {
      NoScore(pairs[1..], pairs[0].1);
    }
  }

  lemma {:induction false} NoScore(pairs: seq<(int, bytes)>, m: bytes)
    requires forall i :: 0 <= i < |pairs| ==> pairs[i].1 != m
    ensures m !in LastScores(pairs)
    decreases |pairs|
  {
    if pairs != [] { NoScore(pairs[1..], m); }
  }

  lemma AddsScores(v: View, k: bytes, pairs: seq<(int, bytes)>, now: int, w: View, r: Reply)
    requires Steps(v, ZAdd(k, pairs), now, w, r) && !NoRanking(v, k) && pairs != []
    ensures w == Scoring(v, k, Scores(v, k) + LastScores(pairs))
    ensures |LastScores(pairs).Keys - Scores(v, k).Keys| < TWO_TO_63 ==>
      r == Number(|LastScores(pairs).Keys - Scores(v, k).Keys|)
  {
    hide Steps, LastScores, Scores, Ranked;
    ScoreStep(v, ZAdd(k, pairs), now, w, r);
    NotEmptied(Scores(v, k), pairs);
    ScoresWritten(v, k, pairs);
    hide SortedSetNext, SortedSetReply;
  }

  lemma NotEmptied(z: map<bytes, int>, pairs: seq<(int, bytes)>)
    requires pairs != []
    ensures z + LastScores(pairs) != map[]
  {
    assert pairs[0].1 in z + LastScores(pairs);
  }

  lemma ScoresWritten(v: View, k: bytes, pairs: seq<(int, bytes)>)
    requires !NoRanking(v, k) && pairs != []
    ensures SortedSetNext(v, ZAdd(k, pairs)) == Write(v, k, Ranked(Scores(v, k) + LastScores(pairs)))
    ensures SortedSetReply(v, ZAdd(k, pairs)) == Count(|LastScores(pairs).Keys - Scores(v, k).Keys|)
  {
    hide Write, LastScores, Ranked;
  }

  lemma DropsScores(v: View, k: bytes, ms: seq<bytes>, now: int, w: View, r: Reply)
    requires Steps(v, ZRem(k, ms), now, w, r) && SoundView(v) && !NoRanking(v, k)
    ensures w == Scoring(v, k, Scores(v, k) - SetOf(ms))
    ensures |SetOf(ms) * Scores(v, k).Keys| < TWO_TO_63 ==> r == Number(|SetOf(ms) * Scores(v, k).Keys|)
  {
    hide Steps, SetOf, TreeOf, Scores;
    ScoreStep(v, ZRem(k, ms), now, w, r);
    ScoresDropped(v, k, ms);
    hide SortedSetNext, SortedSetReply;
    if k !in v {
      NoScoring(v, k, SetOf(ms));
      hide Scoring;
    }
  }

  lemma ScoresDropped(v: View, k: bytes, ms: seq<bytes>)
    requires !NoRanking(v, k) && (k in v ==> Sound(v[k].value))
    ensures SortedSetNext(v, ZRem(k, ms)) == if k in v then Shrink(v, k, Ranked(Scores(v, k) - SetOf(ms))) else v
    ensures SortedSetReply(v, ZRem(k, ms)) == Count(|SetOf(ms) * Scores(v, k).Keys|)
  {
    hide Shrink, SetOf, Ranked, LastScores, Scores, ScoresAt, Sound, Mistyped, IntText, Write;
    ScoresThere(v, k);
  }

  lemma ScoresThere(v: View, k: bytes)
    requires !NoRanking(v, k) && (k in v ==> Sound(v[k].value))
    ensures ScoresAt(v, k) == Scores(v, k) && (k in v <==> Scores(v, k) != map[]) && !Mistyped(v, k, ZsetKind)
  {
  }

  lemma NoScoring(v: View, k: bytes, gone: set<bytes>)
    requires k !in v
    ensures Scoring(v, k, Scores(v, k) - gone) == v
  {
    assert Scores(v, k) - gone == map[];
    assert v - {k} == v;
  }

  /** ZADD, seen through ZSCORE: the last score given for a member, and the others as before. */
  lemma AddThenScore(v: View, k: bytes, pairs: seq<(int, bytes)>, now: int, w: View, r: Reply,
                     m: bytes, before: Reply, behind: Reply)
    requires Steps(v, ZAdd(k, pairs), now, w, r) && !NoRanking(v, k) && pairs != []
    requires Steps(v, ZScore(k, m), now, v, before) && Steps(w, ZScore(k, m), now, w, behind)
    ensures forall i :: 0 <= i < |pairs| && pairs[i].1 == m && (forall j :: i < j < |pairs| ==> pairs[j].1 != m) ==>
      behind == Bulk(Some(IntText(pairs[i].0)))
    ensures (forall i :: 0 <= i < |pairs| ==> pairs[i].1 != m) ==> behind == before
  {
    hide Steps, Scoring, Scores, LastScores, IntText;
    AddsScores(v, k, pairs, now, w, r);
    ScoringHolds(v, k, Scores(v, k) + LastScores(pairs));
    GetsScore(v, k, m, now, v, before);
    GetsScore(w, k, m, now, w, behind);
    if forall i :: 0 <= i < |pairs| ==> pairs[i].1 != m { NoScore(pairs, m); }
    forall i | 0 <= i < |pairs| && pairs[i].1 == m && (forall j :: i < j < |pairs| ==> pairs[j].1 != m)
      ensures behind == Bulk(Some(IntText(pairs[i].0)))
    {
      LastScoreOf(pairs, i);
    }
  }

  lemma RemoveThenScore(v: View, k: bytes, ms: seq<bytes>, now: int, w: View, r: Reply,
                        m: bytes, before: Reply, behind: Reply)
    requires Steps(v, ZRem(k, ms), now, w, r) && SoundView(v) && !NoRanking(v, k)
    requires Steps(v, ZScore(k, m), now, v, before) && Steps(w, ZScore(k, m), now, w, behind)
    ensures behind == if m in ms then Bulk(None) else before
  {
    hide Steps, Scoring, Scores, IntText;
    DropsScores(v, k, ms, now, w, r);
    ScoringHolds(v, k, Scores(v, k) - SetOf(ms));
    GetsScore(v, k, m, now, v, before);
    GetsScore(w, k, m, now, w, behind);
  }

  lemma ScoreKeys(z: map<bytes, int>, g: map<bytes, int>, s: set<bytes>)
    ensures (z + g).Keys == z.Keys + g.Keys
    ensures (z - s).Keys == z.Keys - s
  {
  }

  /** The replies of ZADD and ZREM balance: they are by how much ZCARD grows and shrinks. */
  lemma AddsBalance(v: View, k: bytes, pairs: seq<(int, bytes)>, now: int, w: View, r: Reply,
                    before: Reply, behind: Reply)
    requires Steps(v, ZAdd(k, pairs), now, w, r) && !NoRanking(v, k) && pairs != []
    requires |Scores(v, k).Keys| + |LastScores(pairs).Keys| < TWO_TO_63
    requires Steps(v, ZCard(k), now, v, before) && Steps(w, ZCard(k), now, w, behind)
    ensures r.Replied? && r.value.Integer? && before.Replied? && before.value.Integer?
    ensures behind.Replied? && behind.value.Integer? && behind.value.n == before.value.n + r.value.n
  {
    hide Steps, Scoring, Scores, LastScores;
    ScoreKeys(Scores(v, k), LastScores(pairs), {});
    Sizes(Scores(v, k).Keys, LastScores(pairs).Keys);
    AddsScores(v, k, pairs, now, w, r);
    ScoringHolds(v, k, Scores(v, k) + LastScores(pairs));
    Cardinality(v, k, now, v, before);
    Cardinality(w, k, now, w, behind);
  }

  lemma RemovesBalance(v: View, k: bytes, ms: seq<bytes>, now: int, w: View, r: Reply,
                       before: Reply, behind: Reply)
    requires Steps(v, ZRem(k, ms), now, w, r) && SoundView(v) && !NoRanking(v, k)
    requires |Scores(v, k).Keys| < TWO_TO_63
    requires Steps(v, ZCard(k), now, v, before) && Steps(w, ZCard(k), now, w, behind)
    ensures r.Replied? && r.value.Integer? && before.Replied? && before.value.Integer?
    ensures behind.Replied? && behind.value.Integer? && behind.value.n == before.value.n - r.value.n
  {
    hide Steps, Scoring, Scores, SetOf;
    ScoreKeys(Scores(v, k), map[], SetOf(ms));
    Sizes(Scores(v, k).Keys, SetOf(ms));
    DropsScores(v, k, ms, now, w, r);
    ScoringHolds(v, k, Scores(v, k) - SetOf(ms));
    Cardinality(v, k, now, v, before);
    Cardinality(w, k, now, w, behind);
  }

  // ------------------------------------------------------------------------------ rankings

  lemma MembersRanked(q: seq<Scored>, z: map<bytes, int>)
    requires Enumerates(q, Entries(z))
    ensures Enumerates(MembersOf(q), z.Keys)
    ensures forall i :: 0 <= i < |q| ==> MembersOf(q)[i] == q[i].0 && q[i].0 in z && z[q[i].0] == q[i].1
  {
    EnumerationIs(q, Entries(z));
    var ms := MembersOf(q);
    forall i | 0 <= i < |q| ensures q[i].0 in z && z[q[i].0] == q[i].1 {
      assert q[i] in SetOf(q);
    }
    forall i, j | 0 <= i < j < |ms| ensures ms[i] != ms[j] {
      assert q[i] != q[j];
    }
    forall m ensures m in SetOf(ms) <==> m in z.Keys {
      if m in ms { var i :| 0 <= i < |ms| && ms[i] == m; }
      if m in z {
        assert (m, z[m]) in SetOf(q);
        var i :| 0 <= i < |q| && q[i] == (m, z[m]);
        assert ms[i] == m;
      }
    }
    DistinctEnumerates(ms, z.Keys);
  }

  lemma WindowOfMembers(q: seq<Scored>, start: i64, stop: i64)
    ensures MembersOf(RankWindow(q, start, stop)) == RankWindow(MembersOf(q), start, stop)
  {
  }

  /** Every member once, with scores that never decrease from one to the next. */
  ghost predicate Rising(q: seq<bytes>, z: map<bytes, int>)
  {
    && Enumerates(q, z.Keys) && (forall i :: 0 <= i < |q| ==> q[i] in z)
    && forall i, j :: 0 <= i < j < |q| ==> z[q[i]] <= z[q[j]]
  }

  /** Every member once, with scores that never increase from one to the next. */
  ghost predicate Falling(q: seq<bytes>, z: map<bytes, int>)
  {
    && Enumerates(q, z.Keys) && (forall i :: 0 <= i < |q| ==> q[i] in z)
    && forall i, j :: 0 <= i < j < |q| ==> z[q[i]] >= z[q[j]]
  }

  /** The order of ZRANGE, and that of ZREVRANGE. */
  ghost predicate InOrder(c: Command, q: seq<bytes>, z: map<bytes, int>)
  {
    if c.ZRange? then Rising(q, z) else Falling(q, z)
  }

  lemma RankingChosen(v: View, c: Command, now: int, w: View, r: Reply) returns (q: seq<Scored>)
    requires (c.ZRange? || c.ZRevRange?) && Steps(v, c, now, w, r) && !NoRanking(v, c.key)
    ensures w == v && if c.ZRange? then ByRank(q, Scores(v, c.key)) else ByReverseRank(q, Scores(v, c.key))
    ensures r == Replied(BulkArray(MembersOf(RankWindow(q, c.start, c.stop))))
  {
    hide Steps, ByRank, ByReverseRank, BulkArray, MembersOf, RankWindow;
    RangeStep(v, c, now, w, r);
    assert ScoresAt(v, c.key) == Scores(v, c.key);
    hide Scores, ScoresAt;
    q :| (if c.ZRange? then ByRank(q, Scores(v, c.key)) else ByReverseRank(q, Scores(v, c.key)))
      && r == Replied(BulkArray(MembersOf(RankWindow(q, c.start, c.stop))));
  }

  lemma MembersInOrder(c: Command, q: seq<Scored>, z: map<bytes, int>)
    requires if c.ZRange? then ByRank(q, z) else ByReverseRank(q, z)
    ensures InOrder(c, MembersOf(q), z)
  {
    hide Entries;
    MembersRanked(q, z);
    hide MembersOf, Enumerates;
    forall i, j | 0 <= i < j < |q| ensures if c.ZRange? then q[i].1 <= q[j].1 else q[i].1 >= q[j].1 {
      if c.ZRange? { assert ScoreLe(q[i], q[j]); } else { assert ScoreGe(q[i], q[j]); }
    }
  }

  lemma RankingShown(v: View, c: Command, now: int, w: View, r: Reply) returns (ms: seq<bytes>)
    requires (c.ZRange? || c.ZRevRange?) && Steps(v, c, now, w, r) && !NoRanking(v, c.key)
    ensures w == v && InOrder(c, ms, Scores(v, c.key))
    ensures r == Replied(Array(BulkStrings(RankWindow(ms, c.start, c.stop))))
  {
    var q := RankingChosen(v, c, now, w, r);
    hide Steps, Scores, InOrder, ByRank, ByReverseRank;
    ms := MembersOf(q);
    MembersInOrder(c, q, Scores(v, c.key));
    WindowOfMembers(q, c.start, c.stop);
    hide MembersOf, RankWindow, BulkStrings;
  }

  /** ZRANGE replies with a window of the members in rising order, ZREVRANGE of the members in
      falling order. */
  lemma RanksWindow(v: View, c: Command, now: int, w: View, r: Reply)
    requires (c.ZRange? || c.ZRevRange?) && Steps(v, c, now, w, r) && !NoRanking(v, c.key)
    ensures w == v
    ensures exists q :: InOrder(c, q, Scores(v, c.key)) && r == Replied(Array(BulkStrings(RankWindow(q, c.start, c.stop))))
  {
    var q := RankingShown(v, c, now, w, r);
    hide *;
  }

  /** The reply is this ranking with the full range, and with two positions inside it the
      stretch between them, both included. */
  ghost predicate Shows(c: Command, q: seq<bytes>, r: Reply)
    requires c.ZRange? || c.ZRevRange?
  {
    && (c.start == 0 && c.stop == -1 ==> r == Replied(Array(BulkStrings(q))))
    && (0 <= c.start <= c.stop < |q| ==> r == Replied(Array(BulkStrings(q[c.start..c.stop + 1]))))
  }

  lemma WindowEnds(q: seq<bytes>, start: i64, stop: i64)
    ensures RankWindow(q, 0, -1) == q
    ensures 0 <= start <= stop < |q| ==> RankWindow(q, start, stop) == q[start..stop + 1]
  {
  }

  lemma WindowShows(c: Command, q: seq<bytes>, r: Reply)
    requires c.ZRange? || c.ZRevRange?
    requires r == Replied(Array(BulkStrings(RankWindow(q, c.start, c.stop))))
    ensures Shows(c, q, r)
  {
    WindowEnds(q, c.start, c.stop);
    hide RankWindow, BulkStrings;
  }

  /** The full range lists every member once, rising with ZRANGE and falling with ZREVRANGE. */
  lemma RanksAll(v: View, c: Command, now: int, w: View, r: Reply)
    requires (c.ZRange? || c.ZRevRange?) && Steps(v, c, now, w, r) && !NoRanking(v, c.key)
    ensures exists q :: InOrder(c, q, Scores(v, c.key)) && Shows(c, q, r)
  {
    hide Steps, Scores, InOrder, NoRanking, Shows;
    var q := RankingShown(v, c, now, w, r);
    WindowShows(c, q, r);
  }
}
