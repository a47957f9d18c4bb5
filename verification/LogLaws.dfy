/** The log filter against what commands can do: a request is left out of the log exactly when
    its command can never change a store. */
module LogLaws {
  import opened Bytes
  import opened Resp
  import opened Commands
  import opened Values
  import opened Enumerations
  import opened Semantics
  import opened Laws
  import opened Grammar
  import opened Aof
  import opened KeyLaws
  import opened ListLaws
  import opened SetLaws
  import opened HashLaws
  import opened RankLaws

  /** Somewhere, at some time, the command changes what a client can see. */
  ghost predicate CanChange(c: Command)
  {
    exists v, now, w, r :: SoundView(v) && Steps(v, c, now, w, r) && w != v
  }

  /** Two commands that write nothing because of their numbers: SPOP of no members, and SET with
      NX and no lifetime at all. */
  predicate Idle(c: Command)
  {
    (c.SPop? && c.count == Some(0)) || (c.Set? && c.condition == Nx && c.px == Some(0))
  }

  /** No list of operands is empty. */
  predicate Filled(c: Command)
  {
    && (c.Del? ==> c.keys != []) && (c.MSet? || c.HSet? ==> c.entries != [])
    && (c.LPush? || c.RPush? ==> c.vals != []) && (c.SAdd? || c.SRem? || c.ZRem? ==> c.members != [])
    && (c.HDel? ==> c.fields != []) && (c.ZAdd? ==> c.scored != [])
  }

  lemma SpelledIsFilled(args: seq<Value>, c: Command)
    requires Spells(args, c)
    ensures Filled(c)
  {
    hide Called, SetSpelled, ExpireSpelled, SPopSpelled, KeyWindow, SpellsI64, SpellsScore, Pairs, ScoredPairs;
  }

  lemma Taken(v: View, c: Command, now: int) returns (r: Reply)
    requires Plain(c)
    ensures Steps(v, c, now, Next(v, c, now), r)
  {
    hide Next, ReplyOf;
    r := Replied(ReplyOf(v, c, now));
  }

  /** A store with one key. */
  function Only(k: bytes, x: StoredValue): View { map[k := Entry(x, None)] }

  // ------------------------------------------------------------------------- kind by kind

  lemma SetChanges(c: Command)
    requires c.Set? && !Idle(c)
    ensures CanChange(c)
  {
    hide Next, ReplyOf, Steps;
    var v := if c.condition == Xx || c.px == Some(0) then Only(c.key, List([""])) else map[];
    var r := Taken(v, c, 0);
    var w := Next(v, c, 0);
    if c.condition == Nx {
      SetIfAbsent(v, c.key, c.value, c.px, 0, w, r);
    } else if c.condition == Xx {
      SetIfPresent(v, c.key, c.value, c.px, 0, w, r);
    }
    SetReplaces(v, c.key, c.value, c.px, 0, w, r);
    assert c.key in w ==> w[c.key].value.Str?;
  }

  lemma DelChanges(c: Command)
    requires c.Del? && c.keys != []
    ensures CanChange(c)
  {
    hide Next, ReplyOf;
    var v := Only(c.keys[0], Str([]));
    var r := Replied(Count(|v.Keys * SetOf(c.keys)|));
    var w := Next(v, c, 0);
    FewerMembers(v.Keys, SetOf(c.keys));
    assert Steps(v, c, 0, w, r);
    hide Steps;
    Deletes(v, c.keys, 0, w, r);
    assert c.keys[0] in v && c.keys[0] !in w;
  }

  lemma FewerMembers(a: set<bytes>, b: set<bytes>)
    ensures |a * b| <= |b|
  {
    assert b == a * b + (b - a);
  }

  lemma KeyChanges(c: Command)
    requires c.Expire? || c.MSet? || c.Append? || c.FlushAll?
    requires Filled(c)
    ensures CanChange(c)
  {
    hide Next, ReplyOf, Steps;
    var v := if c.Expire? then Only(c.key, Str([])) else if c.FlushAll? then Only([], Str([])) else map[];
    var r := Taken(v, c, 0);
    var w := Next(v, c, 0);
    if c.Expire? {
      Expires(v, c.key, c.ms, 0, w, r);
    } else if c.MSet? {
      MSetWrites(v, c.entries, 0, w, r);
      var last := c.entries[|c.entries| - 1].0;
      assert last in w;
    } else if c.Append? {
      AppendsSomething(c.key, c.value, w, r);
    } else {
      FlushesAll(v, 0, w, r);
      assert [] in v && [] !in w;
    }
  }

  lemma AppendsSomething(k: bytes, x: bytes, w: View, r: Reply)
    requires Steps(map[], Append(k, x), 0, w, r)
    ensures k in w
  {
    KeyStep(map[], Append(k, x), 0, w, r);
    hide Steps;
  }

  lemma CounterChanges(c: Command)
    requires c.Incr? || c.Decr?
    ensures CanChange(c)
  {
    hide Next, ReplyOf, Steps;
    var r := Taken(map[], c, 0);
    var w := Next(map[], c, 0);
    KeyStep(map[], c, 0, w, r);
    assert Decimal.ParseI64("0") == Some(0);
    assert c.key in w;
  }

  lemma ListChanges(c: Command)
    requires (c.LPush? || c.RPush? || c.LPop? || c.RPop?) && Filled(c)
    ensures CanChange(c)
  {
    hide Next, ReplyOf, Steps;
    var k := c.key;
    var v := if c.LPush? || c.RPush? then map[] else Holding(map[], k, [""]);
    var r := Taken(v, c, 0);
    var w := Next(v, c, 0);
    if c.LPush? {
      PushesFront(v, k, c.vals, 0, w, r);
    } else if c.RPush? {
      PushesBack(v, k, c.vals, 0, w, r);
    } else if c.LPop? {
      PopsFirst(map[], k, [""], 0, w, r);
      assert k !in w;
    } else {
      PopsLast(map[], k, [""], 0, w, r);
      assert k !in w;
    }
    assert k in v <==> k !in w;
  }

  lemma SetMembersChange(c: Command)
    requires (c.SAdd? || c.SRem?) && Filled(c)
    ensures CanChange(c)
  {
    hide Next, ReplyOf, Steps;
    var m := c.members[0];
    var v := if c.SAdd? then map[] else Only(c.key, StoredValue.Set({m}));
    var r := Taken(v, c, 0);
    var w := Next(v, c, 0);
    assert m in SetOf(c.members);
    hide SetOf;
    if c.SAdd? {
      Adds(v, c.key, c.members, 0, w, r);
    } else {
      Removes(v, c.key, c.members, 0, w, r);
      assert {m} - SetOf(c.members) == {};
    }
    assert c.key in v <==> c.key !in w;
  }

  lemma OnePopped(k: bytes, count: nat)
    requires count > 0
    ensures Pops(Only(k, StoredValue.Set({""})), k, count, Only(k, StoredValue.Set({""})) - {k}, [""])
  {
    assert SetOf([""]) == {""};
    assert {""} - SetOf([""]) == {};
    assert multiset([""]) == multiset({""});
    hide SetOf;
  }

  lemma PopChanges(c: Command)
    requires c.SPop? && !Idle(c)
    ensures CanChange(c)
  {
    var v := Only(c.key, StoredValue.Set({""}));
    var w := v - {c.key};
    var r := Replied(if c.count.Some? then BulkArray([""]) else BulkString(""));
    OnePopped(c.key, if c.count.Some? then c.count.value else 1);
    hide Pops, Next, Answers, BulkArray;
    assert StepsSPop(v, c, w, r);
    assert Steps(v, c, 0, w, r);
    hide Steps, StepsSPop;
    assert c.key in v && c.key !in w;
  }

  lemma OneField(k: bytes, fs: seq<bytes>) returns (v: View)
    requires fs != []
    ensures SoundView(v) && k in v && !NoHash(v, k) && Fields(v, k) - SetOf(fs) == map[]
  {
    var h := map[fs[0] := ""];
    assert fs[0] in h && fs[0] in SetOf(fs);
    v := Only(k, Hash(h));
  }

  lemma HashThere(v: View, k: bytes, h: map<bytes, bytes>)
    ensures k in Recording(v, k, h) <==> h != map[]
  {
  }

  lemma HashChanges(c: Command)
    requires (c.HSet? || c.HDel?) && Filled(c)
    ensures CanChange(c)
  {
    hide Next, ReplyOf, Steps, LastWins, SetOf, Fields, Recording;
    var v: View := map[];
    if c.HDel? { v := OneField(c.key, c.fields); }
    var r := Taken(v, c, 0);
    var w := Next(v, c, 0);
    if c.HSet? {
      SetsFields(v, c.key, c.entries, 0, w, r);
      HashLaws.NotEmptied(Fields(v, c.key), c.entries);
      HashThere(v, c.key, Fields(v, c.key) + LastWins(c.entries));
    } else {
      DropsFields(v, c.key, c.fields, 0, w, r);
      HashThere(v, c.key, Fields(v, c.key) - SetOf(c.fields));
    }
    assert c.key in v <==> c.key !in w;
  }

  lemma OneScore(k: bytes, ms: seq<bytes>) returns (v: View)
    requires ms != []
    ensures SoundView(v) && k in v && !NoRanking(v, k) && Scores(v, k) - SetOf(ms) == map[]
  {
    hide TreeOf;
    var z := map[ms[0] := 0];
    assert ms[0] in z && ms[0] in SetOf(ms);
    v := Only(k, Ranked(z));
  }

  lemma RankingThere(v: View, k: bytes, z: map<bytes, int>)
    ensures k in Scoring(v, k, z) <==> z != map[]
  {
    hide TreeOf;
  }

  lemma ScoreChanges(c: Command)
    requires (c.ZAdd? || c.ZRem?) && Filled(c)
    ensures CanChange(c)
  {
    hide Next, ReplyOf, Steps, LastScores, SetOf, Scores, TreeOf, Scoring;
    var v: View := map[];
    if c.ZRem? { v := OneScore(c.key, c.members); }
    var r := Taken(v, c, 0);
    var w := Next(v, c, 0);
    if c.ZAdd? {
      AddsScores(v, c.key, c.scored, 0, w, r);
      RankLaws.NotEmptied(Scores(v, c.key), c.scored);
      RankingThere(v, c.key, Scores(v, c.key) + LastScores(c.scored));
    } else {
      DropsScores(v, c.key, c.members, 0, w, r);
      RankingThere(v, c.key, Scores(v, c.key) - SetOf(c.members));
    }
    assert c.key in v <==> c.key !in w;
  }

  // ------------------------------------------------------------------------------- exactly

  lemma MutatorsChange(c: Command)
    requires Mutates(c) && Filled(c) && !Idle(c)
    ensures CanChange(c)
  {
    hide CanChange, Idle;
    if c.Set? {
      SetChanges(c);
    } else if c.Del? {
      DelChanges(c);
    } else if c.Incr? || c.Decr? {
      CounterChanges(c);
    } else if c.LPush? || c.RPush? || c.LPop? || c.RPop? {
      ListChanges(c);
    } else if c.SAdd? || c.SRem? {
      SetMembersChange(c);
    } else if c.SPop? {
      PopChanges(c);
    } else if c.HSet? || c.HDel? {
      HashChanges(c);
    } else if c.ZAdd? || c.ZRem? {
      ScoreChanges(c);
    } else {
      KeyChanges(c);
    }
  }

  /** A request that parses is logged exactly when its command can change some store, apart from
      STRLEN, which the list of read commands forgets, and the two idle commands, which are
      logged by their names. */
  lemma LoggedIfChanging(request: Value, c: Command)
    requires request.Array? && TryFrom(request.items) == Ok(c)
    ensures Logged(request) <==> CanChange(c) || c.StrLen? || Idle(c)
  {
    hide TryFrom, Logged, Mutates, CanChange, Spells, Filled, Steps;
    LoggedExactly(request);
    ParsesExactly(request.items, c);
    SpelledIsFilled(request.items, c);
    if Mutates(c) && !Idle(c) { MutatorsChange(c); }
    if !Mutates(c) { ReadersNeverChange(c); }
    assert Idle(c) ==> Mutates(c) by { IdleByName(c); }
  }

  lemma IdleByName(c: Command)
    ensures Idle(c) ==> Mutates(c)
  {
  }

  lemma ReadersNeverChange(c: Command)
    requires !Mutates(c)
    ensures !CanChange(c)
  {
    hide Steps, Mutates;
    forall v, now, w, r | Steps(v, c, now, w, r) ensures w == v {
      ReadersChangeNothing(v, c, now, w, r);
    }
  }
}
