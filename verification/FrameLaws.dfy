/** What a command leaves alone: the keys it does not name, and the deadlines of the keys whose
    value it only edits. */
module FrameLaws {
  import opened Bytes
  import opened Decimal
  import opened Commands
  import opened Values
  import opened Enumerations
  import opened Semantics
  import opened Laws
  import opened KeyLaws

  predicate AnyKey(c: Command) { c.Ping? || c.Echo? || c.Quit? || c.Info? || c.Keys? || c.FlushAll? }

  predicate ManyKeys(c: Command) { c.Del? || c.Exists? || c.MGet? }

  /** The key is one of the command's words. */
  predicate Names(c: Command, k: bytes)
  {
    if AnyKey(c) then c.FlushAll?
    else if ManyKeys(c) then k in c.keys
    else if c.MSet? then exists i :: 0 <= i < |c.entries| && c.entries[i].0 == k
    else k == c.key
  }

  predicate SameAt(v: View, w: View, k: bytes) { (k in w <==> k in v) && (k in v ==> w[k] == v[k]) }

  lemma WrittenElsewhere(v: View, j: bytes, x: StoredValue, k: bytes)
    requires k != j
    ensures SameAt(v, Write(v, j, x), k) && SameAt(v, Shrink(v, j, x), k)
    ensures forall deadline, now :: SameAt(v, Put(v, j, x, deadline, now), k)
  {
    hide Vacant;
  }

  lemma AllSetElsewhere(v: View, pairs: seq<(bytes, bytes)>, k: bytes)
    requires forall i :: 0 <= i < |pairs| ==> pairs[i].0 != k
    ensures SameAt(v, AllSet(v, pairs), k)
  {
    LastWinsAre(pairs);
    hide LastWins;
  }

  lemma CollectionElsewhere(v: View, c: Command, k: bytes)
    requires !AnyKey(c) && !ManyKeys(c) && !c.MSet? && k != c.key
    ensures SameAt(v, ListNext(v, c), k) && SameAt(v, SetNext(v, c), k)
    ensures SameAt(v, HashNext(v, c), k) && SameAt(v, SortedSetNext(v, c), k)
  {
    forall x { WrittenElsewhere(v, c.key, x, k); }
    hide Write, Shrink, SetOf, LastWins, LastScores, Ranked, Mistyped, ListAt, MembersAt, FieldsAt, ScoresAt;
  }

  lemma CountedElsewhere(v: View, j: bytes, delta: int, k: bytes)
    requires k != j
    ensures SameAt(v, Counted(v, j, delta), k)
  {
    forall x { WrittenElsewhere(v, j, x, k); }
    hide Write, Adjusted, IntText;
  }

  lemma DroppedElsewhere(v: View, ks: seq<bytes>, k: bytes)
    requires k !in ks
    ensures SameAt(v, v - SetOf(ks), k)
  {
  }

  lemma OneElsewhere(v: View, c: Command, now: int, k: bytes)
    requires (c.Set? || c.Expire? || c.Incr? || c.Decr? || c.Append?) && k != c.key
    ensures SameAt(v, KeyNext(v, c, now), k)
  {
    CountedElsewhere(v, c.key, 1, k);
    CountedElsewhere(v, c.key, -1, k);
    forall x { WrittenElsewhere(v, c.key, x, k); }
    hide Write, Put, Counted, SetOf, LastWins, Mistyped;
  }

  lemma KeyElsewhere(v: View, c: Command, now: int, k: bytes)
    requires !Names(c, k)
    ensures SameAt(v, KeyNext(v, c, now), k)
  {
    hide Write, Put, Counted, LastWins, SetOf, Mistyped;
    if c.Set? || c.Expire? || c.Incr? || c.Decr? || c.Append? {
      OneElsewhere(v, c, now, k);
    } else if c.MSet? {
      AllSetElsewhere(v, c.entries, k);
    } else if c.Del? {
      DroppedElsewhere(v, c.keys, k);
    }
  }

  lemma PoppedElsewhere(v: View, c: Command, w: View, r: Reply, k: bytes)
    requires c.SPop? && StepsSPop(v, c, w, r) && k != c.key
    ensures SameAt(v, w, k)
  {
    forall x { WrittenElsewhere(v, c.key, x, k); }
    hide Shrink, BulkArray, Mistyped;
  }

  /** A command touches no key outside its own words, except FLUSHALL. */
  lemma OthersUntouched(v: View, c: Command, now: int, w: View, r: Reply, k: bytes)
    requires Steps(v, c, now, w, r) && !Names(c, k)
    ensures SameAt(v, w, k)
  {
    hide Answers, Next, ReplyOf, ListNext, SetNext, HashNext, SortedSetNext, KeyNext, StepsSPop, SameAt;
    if c.SPop? {
      PoppedElsewhere(v, c, w, r, k);
    } else {
      NextElsewhere(v, c, now, k);
    }
  }

  lemma NextElsewhere(v: View, c: Command, now: int, k: bytes)
    requires !Names(c, k)
    ensures SameAt(v, Next(v, c, now), k)
  {
    hide Next, ReplyOf, ListNext, SetNext, HashNext, SortedSetNext, KeyNext, SameAt;
    hide ListReply, SetReply, HashReply, SortedSetReply, KeyReply;
    if OnKey(c) {
      KeyMeaning(v, c, now);
      KeyElsewhere(v, c, now, k);
    } else {
      CollectionElsewhere(v, c, k);
      if OnList(c) {
        ListMeaning(v, c, now);
      } else if OnSet(c) {
        SetMeaning(v, c, now);
      } else if OnHash(c) {
        HashMeaning(v, c, now);
      } else {
        SortedSetMeaning(v, c, now);
      }
    }
  }

  /** Only SET, EXPIRE and MSET give a key another deadline: an edited value keeps its own. */
  lemma DeadlinesKept(v: View, c: Command, now: int, w: View, r: Reply, k: bytes)
    requires Steps(v, c, now, w, r) && !c.Set? && !c.Expire? && !c.MSet? && k in v && k in w
    ensures w[k].deadline == v[k].deadline
  {
    hide Answers, Next, StepsSPop;
    if c.SPop? {
      PoppedDeadlines(v, c, w, r, k);
    } else if c.Del? || c.FlushAll? {
      NextOverwrites(v, c, now);
    } else {
      NextEdits(v, c, now);
      hide Vacant;
    }
  }

  lemma PoppedDeadlines(v: View, c: Command, w: View, r: Reply, k: bytes)
    requires c.SPop? && StepsSPop(v, c, w, r) && k in v && k in w
    ensures w[k].deadline == v[k].deadline
  {
    hide BulkArray, Vacant;
  }
}
