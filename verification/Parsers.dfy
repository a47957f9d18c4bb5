/** The parsers that loop over their arguments, and the grammar of SET's options. */
module Parsers {
  import opened Bytes
  import opened Resp
  import opened Commands

  // ------------------------------------------------------ the loop of parse_set

  /** `parse_set`, with its scan over `idx`, `px` and `condition`. */
  method ScanSet(args: seq<Value>) returns (r: Outcome)
    ensures r == ParseSet(args)
  {
    if |args| < 3 { return Err("ERR wrong number of arguments for 'set'"); }
    var key :- BulkText(args[1]);
    var value :- BulkText(args[2]);
    var px: Option<u64> := None;
    var condition := Always;
    var idx := 3;
    while idx < |args|
      invariant 3 <= idx <= |args|
      invariant SetOptions(args[3..], None, Always) == SetOptions(args[idx..], px, condition)
    {
      var text :- BulkText(args[idx]);
      var opt := Upper(text);
      assert args[idx..][1..] == args[idx + 1..];
      if opt == "EX" || opt == "PX" {
        if px.Some? || idx + 1 >= |args| { return Err(SYNTAX_ERROR); }
        assert args[idx..][2..] == args[idx + 2..];
        var ttl :- BulkToU64(args[idx + 1]);
        if opt == "EX" {
          if ttl * 1000 >= TWO_TO_64 { return Err("ERR invalid expire time in 'set' command"); }
          px := Some(ttl * 1000);
        } else {
          px := Some(ttl);
        }
        idx := idx + 2;
      } else if opt == "NX" || opt == "XX" {
        if condition != Always { return Err(SYNTAX_ERROR); }
        condition := if opt == "NX" then Nx else Xx;
        idx := idx + 1;
      } else {
        return Err(SYNTAX_ERROR);
      }
    }
    r := Ok(Set(key, value, px, condition));
  }

  // ------------------------------------------------- the grammar of the options

  /** One well-formed option of SET. */
  datatype SetOption = Expiry(ms: u64) | Only(condition: Condition)

  /** The words that write one option, in any letter case. */
  predicate Writes(words: seq<Value>, o: SetOption)
  {
    match o
    case Only(c) =>
      (|words| == 1 && words[0].BulkString? && c != Always &&
       Upper(words[0].bulk) == (if c == Nx then "NX" else "XX"))
    case Expiry(ms) =>
      (|words| == 2 && words[0].BulkString? && BulkToU64(words[1]).Ok? &&
       var n := BulkToU64(words[1]).value;
       (Upper(words[0].bulk) == "PX" && ms == n) || (Upper(words[0].bulk) == "EX" && ms == n * 1000))
  }

  function WordCount(o: SetOption): nat { if o.Expiry? then 2 else 1 }

  /** The words that write a list of options, one after the other. */
  predicate WritesAll(words: seq<Value>, os: seq<SetOption>)
  {
    if os == [] then words == []
    else
      && |words| >= WordCount(os[0])
      && Writes(words[..WordCount(os[0])], os[0])
      && WritesAll(words[WordCount(os[0])..], os[1..])
  }

  /** At most one expiry and at most one of NX and XX. */
  predicate Compatible(os: seq<SetOption>)
  {
    forall i, j :: 0 <= i < j < |os| ==> os[i].Expiry? != os[j].Expiry?
  }

  /** The first option written by the words, if they start with one. */
  function FirstOption(words: seq<Value>): (r: Option<SetOption>)
    ensures r.Some? ==> |words| >= WordCount(r.value) && Writes(words[..WordCount(r.value)], r.value)
    ensures r.None? ==> forall o :: |words| >= WordCount(o) ==> !Writes(words[..WordCount(o)], o)
  {
    if words == [] || !words[0].BulkString? then None
    else
      var opt := Upper(words[0].bulk);
      if opt == "NX" then Some(Only(Nx))
      else if opt == "XX" then Some(Only(Xx))
      else if |words| >= 2 && BulkToU64(words[1]).Ok? then
        var n := BulkToU64(words[1]).value;
        if opt == "PX" then Some(Expiry(n))
        else if opt == "EX" && n * 1000 < TWO_TO_64 then Some(Expiry(n * 1000))
        else None
      else None
  }

  lemma WritesOne(words: seq<Value>, o: SetOption, o': SetOption)
    requires |words| >= WordCount(o) && Writes(words[..WordCount(o)], o)
    requires |words| >= WordCount(o') && Writes(words[..WordCount(o')], o')
    ensures o == o'
  {
    assert words[..WordCount(o)][0] == words[0] == words[..WordCount(o')][0];
    var kw := Upper(words[0].bulk);
    assert kw == "EX" || kw == "PX" || kw == "NX" || kw == "XX";
    if o.Expiry? && o'.Expiry? {
      assert words[..WordCount(o)][1] == words[1] == words[..WordCount(o')][1];
    }
  }

  /** One turn of the scan, in terms of the option at the front. */
  lemma ScanOne(words: seq<Value>, px: Option<u64>, condition: Condition)
    requires words != []
    ensures var o, r := FirstOption(words), SetOptions(words, px, condition);
      if o.None? then r.Err?
      else if o.value.Expiry? then
        if px.Some? then r.Err? else r == SetOptions(words[2..], Some(o.value.ms), condition)
      else
        if condition != Always then r.Err? else r == SetOptions(words[1..], px, o.value.condition)
  {
  }

  /** The options still allowed after `px` and `condition` were seen. */
  predicate Allowed(os: seq<SetOption>, px: Option<u64>, condition: Condition)
  {
    && Compatible(os)
    && (px.Some? ==> forall i :: 0 <= i < |os| ==> !os[i].Expiry?)
    && (condition != Always ==> forall i :: 0 <= i < |os| ==> os[i].Expiry?)
  }

  /** What options seen and options to come ask for together. */
  predicate Asks(os: seq<SetOption>, px: Option<u64>, condition: Condition, r: (Option<u64>, Condition))
  {
    && (if px.Some? then r.0 == px else
          (r.0.Some? <==> exists i :: 0 <= i < |os| && os[i].Expiry?) && (r.0.Some? ==> Expiry(r.0.value) in os))
    && (if condition != Always then r.1 == condition else
          (r.1 == Always <==> forall i :: 0 <= i < |os| ==> os[i].Expiry?) && (r.1 != Always ==> Only(r.1) in os))
  }

  lemma {:induction false} ScanAccepts(words: seq<Value>, os: seq<SetOption>, px: Option<u64>, condition: Condition)
    requires WritesAll(words, os) && forall i :: 0 <= i < |os| ==> os[i] != Only(Always)
    ensures SetOptions(words, px, condition).Ok? <==> Allowed(os, px, condition)
    ensures SetOptions(words, px, condition).Ok? ==> Asks(os, px, condition, SetOptions(words, px, condition).value)
    decreases |os|
  {
    if os != [] {
      var o, rest := os[0], words[WordCount(os[0])..];
      ScanOne(words, px, condition);
      WritesOne(words, o, FirstOption(words).value);
      assert os == [o] + os[1..];
      var px' := if o.Expiry? then Some(o.ms) else px;
      var condition' := if o.Expiry? then condition else o.condition;
      if (if o.Expiry? then px.None? else condition == Always) {
        ScanAccepts(rest, os[1..], px', condition');
        AllowedStep(o, os[1..], px, condition, px', condition');
        if SetOptions(words, px, condition).Ok? {
          AsksStep(o, os[1..], px, condition, px', condition', SetOptions(rest, px', condition').value);
        }
      } else {
        assert os[0] == o;
      }
    }
  }

  lemma AllowedStep(o: SetOption, os: seq<SetOption>, px: Option<u64>, condition: Condition,
                    px': Option<u64>, condition': Condition)
    requires if o.Expiry? then px.None? && px' == Some(o.ms) && condition' == condition
      else condition == Always && o.condition != Always && px' == px && condition' == o.condition
    ensures Allowed(os, px', condition') <==> Allowed([o] + os, px, condition)
  {
    var all := [o] + os;
    assert forall i :: 0 <= i < |os| ==> all[i + 1] == os[i];
    if Allowed(os, px', condition') {
      forall i, j | 0 <= i < j < |all| ensures all[i].Expiry? != all[j].Expiry? {
        assert all[j] == os[j - 1];
      }
    }
    if Allowed(all, px, condition) {
      forall i | 0 <= i < |os| ensures os[i].Expiry? != o.Expiry? {
        assert all[i + 1] == os[i] && all[0] == o;
      }
    }
  }

  lemma AsksStep(o: SetOption, os: seq<SetOption>, px: Option<u64>, condition: Condition,
                 px': Option<u64>, condition': Condition, r: (Option<u64>, Condition))
    requires if o.Expiry? then px.None? && px' == Some(o.ms) && condition' == condition
      else condition == Always && o.condition != Always && px' == px && condition' == o.condition
    requires Asks(os, px', condition', r)
    ensures Asks([o] + os, px, condition, r)
  {
    var all := [o] + os;
    assert all[0] == o && forall i :: 0 <= i < |os| ==> all[i + 1] == os[i];
  }

  lemma {:induction false} ScanReads(words: seq<Value>, px: Option<u64>, condition: Condition)
    returns (os: seq<SetOption>)
    requires SetOptions(words, px, condition).Ok?
    ensures WritesAll(words, os) && forall i :: 0 <= i < |os| ==> os[i] != Only(Always)
    decreases |words|
  {
    if words == [] {
      os := [];
    } else {
      ScanOne(words, px, condition);
      var o := FirstOption(words).value;
      var rest := ScanReads(words[WordCount(o)..],
        if o.Expiry? then Some(o.ms) else px, if o.Expiry? then condition else o.condition);
      os := [o] + rest;
    }
  }

  /** SET accepts exactly the option words that write a list of options with at most one
      expiry and at most one of NX and XX; the command asks for what that list asks for. */
  lemma SetGrammar(words: seq<Value>)
    ensures SetOptions(words, None, Always).Ok? <==>
      exists os :: WritesAll(words, os) && Compatible(os)
    ensures forall os :: WritesAll(words, os) && Compatible(os) ==>
      SetOptions(words, None, Always).Ok? &&
      Asks(os, None, Always, SetOptions(words, None, Always).value)
  {
    forall os | WritesAll(words, os) && Compatible(os)
      ensures SetOptions(words, None, Always).Ok?
      ensures Asks(os, None, Always, SetOptions(words, None, Always).value)
    {
      WrittenConditions(words, os);
      ScanAccepts(words, os, None, Always);
    }
    if SetOptions(words, None, Always).Ok? {
      var os := ScanReads(words, None, Always);
      ScanAccepts(words, os, None, Always);
    }
  }

  lemma {:induction false} WrittenConditions(words: seq<Value>, os: seq<SetOption>)
    requires WritesAll(words, os)
    ensures forall i :: 0 <= i < |os| ==> os[i] != Only(Always)
    decreases |os|
  {
    if os != [] {
      WrittenConditions(words[WordCount(os[0])..], os[1..]);
      assert forall i :: 1 <= i < |os| ==> os[i] == os[1..][i - 1];
    }
  }

  /** The order of the options does not matter. */
  lemma SetOptionOrder(words: seq<Value>, os: seq<SetOption>, words': seq<Value>, os': seq<SetOption>)
    requires WritesAll(words, os) && WritesAll(words', os') && multiset(os) == multiset(os')
    requires Compatible(os) && Compatible(os')
    ensures SetOptions(words, None, Always).Ok? && SetOptions(words, None, Always) == SetOptions(words', None, Always)
  {
    SetGrammar(words);
    SetGrammar(words');
    forall o ensures o in os <==> o in os' {
      assert o in os <==> o in multiset(os);
      assert o in os' <==> o in multiset(os');
    }
    var r, r' := SetOptions(words, None, Always).value, SetOptions(words', None, Always).value;
    assert (exists i :: 0 <= i < |os| && os[i].Expiry?) <==> (exists o :: o in os && o.Expiry?);
    assert (exists i :: 0 <= i < |os'| && os'[i].Expiry?) <==> (exists o :: o in os' && o.Expiry?);
    OneExpiry(os, r.0, r'.0);
    OneCondition(os, r.1, r'.1);
  }

  lemma OneExpiry(os: seq<SetOption>, a: Option<u64>, b: Option<u64>)
    requires Compatible(os)
    requires a.Some? ==> Expiry(a.value) in os
    requires b.Some? ==> Expiry(b.value) in os
    ensures a.Some? && b.Some? ==> a == b
  {
  }

  lemma OneCondition(os: seq<SetOption>, a: Condition, b: Condition)
    requires Compatible(os)
    requires a != Always ==> Only(a) in os
    requires b != Always ==> Only(b) in os
    ensures a != Always && b != Always ==> a == b
  {
  }

  // ------------------------------------------------------- the loops over pairs

  /** The loop of `parse_mset` and `parse_h_set`. */
  method CollectPairs(vs: seq<Value>) returns (r: Result<seq<(bytes, bytes)>, bytes>)
    requires |vs| % 2 == 0
    ensures r == TextPairs(vs)
  {
    var entries: seq<(bytes, bytes)> := [];
    var i := 0;
    assert vs[0..] == vs && (TextPairs(vs).Ok? ==> [] + TextPairs(vs).value == TextPairs(vs).value);
    while i < |vs|
      invariant 0 <= i <= |vs| && i % 2 == 0
      invariant match TextPairs(vs[i..])
        case Ok(rest) => TextPairs(vs) == Ok(entries + rest)
        case Err(e) => TextPairs(vs) == Err(e)
    {
      assert vs[i..][2..] == vs[i + 2..];
      var first :- BulkText(vs[i]);
      var second :- BulkText(vs[i + 1]);
      ghost var rest := TextPairs(vs[i + 2..]);
      assert rest.Ok? ==> entries + ([(first, second)] + rest.value) == entries + [(first, second)] + rest.value;
      entries := entries + [(first, second)];
      i := i + 2;
    }
    assert entries + [] == entries;
    r := Ok(entries);
  }

  /** The loop of `parse_z_add`. */
  method CollectScores(vs: seq<Value>) returns (r: Result<seq<(int, bytes)>, bytes>)
    requires |vs| % 2 == 0
    ensures r == ScorePairs(vs)
  {
    var entries: seq<(int, bytes)> := [];
    var i := 0;
    assert vs[0..] == vs && (ScorePairs(vs).Ok? ==> [] + ScorePairs(vs).value == ScorePairs(vs).value);
    while i < |vs|
      invariant 0 <= i <= |vs| && i % 2 == 0
      invariant match ScorePairs(vs[i..])
        case Ok(rest) => ScorePairs(vs) == Ok(entries + rest)
        case Err(e) => ScorePairs(vs) == Err(e)
    {
      assert vs[i..][2..] == vs[i + 2..];
      var score :- BulkToScore(vs[i]);
      var member :- BulkText(vs[i + 1]);
      ghost var rest := ScorePairs(vs[i + 2..]);
      assert rest.Ok? ==> entries + ([(score, member)] + rest.value) == entries + [(score, member)] + rest.value;
      entries := entries + [(score, member)];
      i := i + 2;
    }
    assert entries + [] == entries;
    r := Ok(entries);
  }
}
