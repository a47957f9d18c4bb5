/** Laws of the reference semantics that hold for every command and every view. */
module Laws {
  import opened Bytes
  import opened Decimal
  import opened Resp
  import opened Commands
  import opened Values
  import opened Enumerations
  import opened Semantics

  /** The commands outside `Mutates` only read. */
  lemma ReadersChangeNothing(v: View, c: Command, now: int, v': View, reply: Reply)
    requires Steps(v, c, now, v', reply) && !Mutates(c)
    ensures v' == v
  {
    hide Answers, Next, StepsSPop;
    NextOfReader(v, c, now);
  }

  lemma NextOfReader(v: View, c: Command, now: int)
    ensures !Mutates(c) || c.SPop? ==> Next(v, c, now) == v
  {
    hide Next, ReplyOf, SetOf, LastWins, LastScores, Ranked, Write, Shrink, Put, Counted;
    hide ListReply, SetReply, HashReply, SortedSetReply, KeyReply;
    if OnList(c) {
      ListMeaning(v, c, now);
    } else if OnSet(c) {
      SetMeaning(v, c, now);
    } else if OnHash(c) {
      HashMeaning(v, c, now);
    } else if OnSortedSet(c) {
      SortedSetMeaning(v, c, now);
    } else {
      KeyMeaning(v, c, now);
    }
  }

  lemma CountersErrors(v: View, c: Command, now: int)
    requires (c.Incr? || c.Decr?) && ReplyOf(v, c, now).Error?
    ensures Next(v, c, now) == v
  {
    KeyMeaning(v, c, now);
    hide Next, ReplyOf;
    hide ParseI64, IntText, Write;
  }

  lemma WritersErrors(v: View, c: Command, now: int)
    requires Mutates(c) && !c.SPop? && !c.Del? && !c.Incr? && !c.Decr? && ReplyOf(v, c, now).Error?
    ensures Next(v, c, now) == v
  {
    hide Next, ReplyOf, SetOf, LastWins, LastScores, Ranked, AsI64, ParseI64;
    hide IntText, Write, Shrink, Put, Counted, Adjusted;
    if OnList(c) {
      ListMeaning(v, c, now);
    } else if OnSet(c) {
      SetMeaning(v, c, now);
    } else if OnHash(c) {
      HashMeaning(v, c, now);
    } else if OnSortedSet(c) {
      SortedSetMeaning(v, c, now);
    } else {
      KeyMeaning(v, c, now);
    }
  }

  lemma SPopErrors(v: View, c: Command, v': View, text: bytes)
    requires c.SPop? && StepsSPop(v, c, v', Replied(Error(text)))
    ensures v' == v
  {
    hide Pops, BulkArray, Mistyped;
  }

  /** An error reply, whatever its cause, leaves every key and every deadline as it was. */
  lemma ErrorsChangeNothing(v: View, c: Command, now: int, v': View, text: bytes)
    requires Steps(v, c, now, v', Replied(Error(text)))
    ensures v' == v
  {
    hide ReplyOf, Next, BulkArray, StepsSPop, AnswersRange, AnswersZCount, AnswersListing, AnswersRanking;
    if c.SPop? {
      SPopErrors(v, c, v', text);
    } else if !Mutates(c) {
      ReadersChangeNothing(v, c, now, v', Replied(Error(text)));
    } else if c.Incr? || c.Decr? {
      CountersErrors(v, c, now);
    } else {
      WritersErrors(v, c, now);
    }
  }

  lemma ListingsReply(v: View, c: Command)
    ensures c.SMembers? || c.HKeys? || c.HVals? || c.HGetAll? ==> !AnswersListing(v, c, Panicked)
    ensures c.ZRange? || c.ZRevRange? ==> !AnswersRanking(v, c, Panicked)
  {
    hide BulkArray, FieldsAt, MembersAt, ScoresAt;
  }

  lemma OnlyRangesPanic(v: View, c: Command, now: int)
    requires !c.LRange? && !c.ZCount? && !c.SPop?
    ensures !Answers(v, c, now, Panicked)
  {
    hide ReplyOf, BulkArray, AsI64, AnswersListing, AnswersRanking;
    ListingsReply(v, c);
  }

  /** So does a panic of the connection's task. */
  lemma PanicsChangeNothing(v: View, c: Command, now: int, v': View)
    requires Steps(v, c, now, v', Panicked)
    ensures v' == v && (c.LRange? || c.ZCount?)
  {
    hide Next, ReplyOf, AnswersRange, AnswersZCount, AnswersListing, AnswersRanking, BulkArray, AsI64;
    assert c.LRange? || c.ZCount? by { if !c.LRange? && !c.ZCount? { OnlyRangesPanic(v, c, now); } }
    ReadersChangeNothing(v, c, now, v', Panicked);
  }

  lemma WriteSound(v: View, k: bytes, x: StoredValue)
    requires SoundView(v)
    ensures Sound(x) ==> SoundView(Write(v, k, x))
    ensures Vacant(x) || Sound(x) ==> SoundView(Shrink(v, k, x))
    ensures Sound(x) ==> forall deadline, now :: SoundView(Put(v, k, x, deadline, now))
  {
  }

  lemma MSetSound(v: View, pairs: seq<(bytes, bytes)>)
    requires SoundView(v)
    ensures SoundView(v + map k | k in LastWins(pairs) :: Entry(Str(LastWins(pairs)[k]), None))
  {
    hide LastWins;
  }

  /** What a command writes when it writes. */
  lemma WrittenValuesSound(c: Command)
    requires Inhabited(c)
    ensures c.SAdd? ==> forall s :: !Vacant(StoredValue.Set(s + SetOf(c.members)))
    ensures c.HSet? && c.entries != [] ==> forall h :: !Vacant(Hash(h + LastWins(c.entries)))
    ensures c.ZAdd? && c.scored != [] ==> forall z :: !Vacant(Ranked(z + LastScores(c.scored)))
  {
    hide TreeOf;
    if c.SAdd? { assert c.members[0] in SetOf(c.members); }
    if c.HSet? && c.entries != [] { assert c.entries[0].0 in LastWins(c.entries); }
    if c.ZAdd? && c.scored != [] { assert c.scored[0].1 in LastScores(c.scored); }
  }

  lemma ListsSound(v: View, c: Command, now: int)
    requires SoundView(v) && (c.LPush? || c.RPush? || c.LPop? || c.RPop?)
    ensures SoundView(Next(v, c, now))
  {
    ListMeaning(v, c, now);
    hide Next, ReplyOf;
    var l := ListAt(v, c.key);
    forall x { WriteSound(v, c.key, x); }
    hide SoundView, Write, Shrink;
  }

  lemma SetsSound(v: View, c: Command, now: int)
    requires SoundView(v) && Inhabited(c) && (c.SAdd? || c.SRem?)
    ensures SoundView(Next(v, c, now))
  {
    WrittenValuesSound(c);
    forall x { WriteSound(v, c.key, x); }
    hide SetOf, SoundView, Write, Shrink, Next, ReplyOf;
    SetMeaning(v, c, now);
  }

  lemma HashIsSound(h: map<bytes, bytes>)
    ensures Vacant(Hash(h)) || Sound(Hash(h))
  {
  }

  lemma HashesSound(v: View, c: Command, now: int)
    requires SoundView(v) && Inhabited(c) && (c.HSet? || c.HDel?)
    ensures SoundView(Next(v, c, now))
  {
    hide Next, ReplyOf, SetOf, LastWins, SoundView, Write, Shrink, Vacant, Sound, Mistyped, FieldsAt, Inhabited;
    WrittenValuesSound(c);
    HashMeaning(v, c, now);
    var h := FieldsAt(v, c.key);
    var x := if c.HSet? then Hash(h + LastWins(c.entries)) else Hash(h - SetOf(c.fields));
    HashIsSound(x.fields);
    WriteSound(v, c.key, x);
  }

  lemma SortedSetsSound(v: View, c: Command, now: int)
    requires SoundView(v) && Inhabited(c) && (c.ZAdd? || c.ZRem?)
    ensures SoundView(Next(v, c, now))
  {
    WrittenValuesSound(c);
    forall x { WriteSound(v, c.key, x); }
    hide SetOf, LastScores, TreeOf, SoundView, Write, Shrink, Next, ReplyOf;
    SortedSetMeaning(v, c, now);
  }

  lemma OthersSound(v: View, c: Command, now: int)
    requires SoundView(v)
    requires c.Set? || c.Del? || c.Expire? || c.Incr? || c.Decr? || c.MSet? || c.Append? || c.FlushAll?
    ensures SoundView(Next(v, c, now))
  {
    KeyMeaning(v, c, now);
    hide Next, ReplyOf;
    if c.MSet? { MSetSound(v, c.entries); }
    hide SetOf, LastWins, TreeOf, ParseI64, IntText;
  }

  /** No command leaves an empty collection or an incoherent sorted set in view. */
  lemma NextKeepsSound(v: View, c: Command, now: int)
    requires SoundView(v) && Inhabited(c)
    ensures SoundView(Next(v, c, now))
  {
    hide SoundView, Next;
    if c.LPush? || c.RPush? || c.LPop? || c.RPop? {
      ListsSound(v, c, now);
    } else if c.SAdd? || c.SRem? {
      SetsSound(v, c, now);
    } else if c.HSet? || c.HDel? {
      HashesSound(v, c, now);
    } else if c.ZAdd? || c.ZRem? {
      SortedSetsSound(v, c, now);
    } else if Overwrites(c) || c.Incr? || c.Decr? || c.Append? {
      OthersSound(v, c, now);
    } else {
      NextOfReader(v, c, now);
      assert !Mutates(c) || c.SPop?;
    }
  }

  /** SPOP included. */
  lemma StepKeepsSound(v: View, c: Command, now: int, v': View, reply: Reply)
    requires Steps(v, c, now, v', reply) && SoundView(v) && Inhabited(c)
    ensures SoundView(v')
  {
    hide Answers, SetOf, BulkArray, Next;
    if !c.SPop? { NextKeepsSound(v, c, now); }
  }

  // ------------------------------------------------------- what a command can do to a view

  /** One value written under its key's deadline, or its key removed. */
  ghost predicate Edited(v: View, v': View)
  {
    || v' == v
    || (exists k, x :: v' == Write(v, k, x))
    || (exists k, x :: v' == Shrink(v, k, x))
  }

  /** The commands that write, or drop, keys as a whole. */
  predicate Overwrites(c: Command) { c.Set? || c.Del? || c.Expire? || c.MSet? || c.FlushAll? }

  lemma ListEdits(v: View, c: Command)
    ensures Edited(v, ListNext(v, c))
  {
    hide Write, Shrink, Mistyped, ListAt;
  }

  lemma SetEdits(v: View, c: Command)
    ensures Edited(v, SetNext(v, c))
  {
    hide Write, Shrink, Mistyped, MembersAt, SetOf;
  }

  lemma HashEdits(v: View, c: Command)
    ensures Edited(v, HashNext(v, c))
  {
    hide Write, Shrink, Mistyped, FieldsAt, LastWins, SetOf;
  }

  lemma SortedSetEdits(v: View, c: Command)
    ensures Edited(v, SortedSetNext(v, c))
  {
    hide Write, Shrink, Mistyped, ScoresAt, LastScores, SetOf, Ranked;
  }

  lemma CountedEdits(v: View, k: bytes, delta: int)
    ensures Edited(v, Counted(v, k, delta))
  {
    hide Adjusted, IntText, Write;
    var n := Adjusted(v, k, delta);
    if n.Ok? { assert Counted(v, k, delta) == Write(v, k, Str(IntText(n.value))); }
  }

  lemma KeyEdits(v: View, c: Command, now: int)
    requires !Overwrites(c)
    ensures Edited(v, KeyNext(v, c, now))
  {
    if c.Incr? || c.Decr? { CountedEdits(v, c.key, if c.Incr? then 1 else -1); }
    hide Write, Shrink, Mistyped, Counted;
  }

  /** All the other commands change at most one value, and no deadline. */
  lemma NextEdits(v: View, c: Command, now: int)
    requires !Overwrites(c)
    ensures Edited(v, Next(v, c, now))
  {
    hide Next, ReplyOf, ListNext, SetNext, HashNext, SortedSetNext, KeyNext, Edited, Overwrites;
    hide ListReply, SetReply, HashReply, SortedSetReply, KeyReply;
    if OnList(c) {
      ListMeaning(v, c, now);
      ListEdits(v, c);
    } else if OnSet(c) {
      SetMeaning(v, c, now);
      SetEdits(v, c);
    } else if OnHash(c) {
      HashMeaning(v, c, now);
      HashEdits(v, c);
    } else if OnSortedSet(c) {
      SortedSetMeaning(v, c, now);
      SortedSetEdits(v, c);
    } else {
      KeyMeaning(v, c, now);
      KeyEdits(v, c, now);
    }
  }

  /** The view after an MSET. */
  function AllSet(v: View, pairs: seq<(bytes, bytes)>): View
  {
    v + map k | k in LastWins(pairs) :: Entry(Str(LastWins(pairs)[k]), None)
  }

  lemma NextOverwrites(v: View, c: Command, now: int)
    requires Overwrites(c)
    ensures c.Set? ==>
      var deadline := if c.px.Some? then Some(now + c.px.value) else None;
      Next(v, c, now) == v || Next(v, c, now) == Put(v, c.key, Str(c.value), deadline, now)
    ensures c.Expire? ==>
      Next(v, c, now) == if c.key in v then Put(v, c.key, v[c.key].value, Some(now + c.ms), now) else v
    ensures c.MSet? ==> Next(v, c, now) == AllSet(v, c.entries)
    ensures c.Del? ==> Next(v, c, now) == v - SetOf(c.keys)
    ensures c.FlushAll? ==> Next(v, c, now) == map[]
  {
    hide Next, ReplyOf, Put, LastWins, SetOf;
    KeyMeaning(v, c, now);
  }

  lemma WriteAlive(v: View, k: bytes, x: StoredValue, now: int)
    requires Prune(v, now) == v
    ensures Prune(Write(v, k, x), now) == Write(v, k, x)
    ensures Prune(Shrink(v, k, x), now) == Shrink(v, k, x)
    ensures forall deadline :: Prune(Put(v, k, x, deadline, now), now) == Put(v, k, x, deadline, now)
  {
    assert forall j :: j in v ==> AliveAt(v[j], now);
    assert k !in v ==> DeadlineOf(v, k) == None;
  }

  lemma MSetAlive(v: View, pairs: seq<(bytes, bytes)>, now: int)
    requires Prune(v, now) == v
    ensures Prune(AllSet(v, pairs), now) == AllSet(v, pairs)
  {
    hide LastWins;
    assert forall j :: j in v ==> AliveAt(v[j], now);
  }

  lemma DropAlive(v: View, gone: set<bytes>, now: int)
    requires Prune(v, now) == v
    ensures Prune(v - gone, now) == v - gone && Prune(map[], now) == map[]
  {
    assert forall j :: j in v ==> AliveAt(v[j], now);
  }

  /** A view without expired keys steps to one without expired keys. */
  lemma NextKeepsAlive(v: View, c: Command, now: int)
    requires Prune(v, now) == v
    ensures Prune(Next(v, c, now), now) == Next(v, c, now)
  {
    hide Next, SetOf;
    forall k, x { WriteAlive(v, k, x, now); }
    hide Write, Shrink, Put, Prune, AllSet;
    if Overwrites(c) {
      NextOverwrites(v, c, now);
      if c.MSet? { MSetAlive(v, c.entries, now); }
      DropAlive(v, if c.Del? then SetOf(c.keys) else {}, now);
    } else {
      NextEdits(v, c, now);
    }
  }

  /** Every lifetime is one that 64 bits of milliseconds can say. */
  predicate Within(v: View, now: int)
  {
    forall k :: k in v && v[k].deadline.Some? ==> v[k].deadline.value < now + TWO_TO_64
  }

  lemma WriteWithin(v: View, k: bytes, x: StoredValue, now: int)
    requires Within(v, now)
    ensures Within(Write(v, k, x), now) && Within(Shrink(v, k, x), now)
    ensures forall deadline: Option<int> :: (deadline.Some? ==> deadline.value < now + TWO_TO_64) ==>
      Within(Put(v, k, x, deadline, now), now)
  {
    hide Vacant;
  }

  lemma MSetWithin(v: View, pairs: seq<(bytes, bytes)>, now: int)
    requires Within(v, now)
    ensures Within(AllSet(v, pairs), now)
  {
    hide LastWins;
  }

  lemma DropWithin(v: View, gone: set<bytes>, now: int)
    requires Within(v, now)
    ensures Within(v - gone, now) && Within(map[], now)
  {
  }

  /** No command sets a longer lifetime, and time only shortens it. */
  lemma NextKeepsWithin(v: View, c: Command, now: int)
    requires Within(v, now)
    ensures Within(Next(v, c, now), now)
  {
    hide Next, SetOf;
    forall k, x { WriteWithin(v, k, x, now); }
    hide Write, Shrink, Put, Within, AllSet;
    if Overwrites(c) {
      NextOverwrites(v, c, now);
      if c.MSet? { MSetWithin(v, c.entries, now); }
      DropWithin(v, if c.Del? then SetOf(c.keys) else {}, now);
    } else {
      NextEdits(v, c, now);
    }
  }

  lemma StepKeepsWithin(v: View, c: Command, now: int, v': View, reply: Reply)
    requires Steps(v, c, now, v', reply) && Within(v, now)
    ensures Within(v', now)
  {
    hide Answers, SetOf, BulkArray, Next;
    if !c.SPop? { NextKeepsWithin(v, c, now); }
  }

  /** The commands that set no deadline. */
  predicate Untimed(c: Command) { !c.Expire? && (c.Set? ==> c.px.None?) }

  predicate NoDeadlines(v: View) { forall k :: k in v ==> v[k].deadline.None? }

  lemma WriteLeavesNone(v: View, k: bytes, x: StoredValue)
    requires NoDeadlines(v)
    ensures NoDeadlines(Write(v, k, x)) && NoDeadlines(Shrink(v, k, x))
    ensures forall now :: Put(v, k, x, None, now) == v[k := Entry(x, None)] && NoDeadlines(v[k := Entry(x, None)])
  {
    hide Vacant;
  }

  lemma MSetLeavesNone(v: View, pairs: seq<(bytes, bytes)>)
    requires NoDeadlines(v)
    ensures NoDeadlines(AllSet(v, pairs))
  {
    hide LastWins;
  }

  lemma DropLeavesNone(v: View, gone: set<bytes>)
    requires NoDeadlines(v)
    ensures NoDeadlines(v - gone) && NoDeadlines(map[])
  {
  }

  /** The time shows in a command's effect only through deadlines. */
  lemma UntimedNext(v: View, c: Command, now: int, later: int)
    requires Untimed(c)
    ensures Next(v, c, now) == Next(v, c, later)
  {
    hide Next, ReplyOf, ListNext, SetNext, HashNext, SortedSetNext, LastWins, SetOf, Counted;
    hide ListReply, SetReply, HashReply, SortedSetReply, KeyReply;
    if OnList(c) {
      ListMeaning(v, c, now);
      ListMeaning(v, c, later);
    } else if OnSet(c) {
      SetMeaning(v, c, now);
      SetMeaning(v, c, later);
    } else if OnHash(c) {
      HashMeaning(v, c, now);
      HashMeaning(v, c, later);
    } else if OnSortedSet(c) {
      SortedSetMeaning(v, c, now);
      SortedSetMeaning(v, c, later);
    } else {
      KeyMeaning(v, c, now);
      KeyMeaning(v, c, later);
    }
  }

  /** Where there are no deadlines, an untimed command does the same at any time and
      leaves none. */
  lemma UntimedStep(v: View, c: Command, now: int, later: int)
    requires NoDeadlines(v) && Untimed(c)
    ensures Next(v, c, now) == Next(v, c, later) && NoDeadlines(Next(v, c, now))
  {
    hide Next, SetOf;
    UntimedNext(v, c, now, later);
    forall k, x { WriteLeavesNone(v, k, x); }
    hide Write, Shrink, Put, NoDeadlines, AllSet;
    if Overwrites(c) {
      NextOverwrites(v, c, now);
      if c.MSet? { MSetLeavesNone(v, c.entries); }
      DropLeavesNone(v, if c.Del? then SetOf(c.keys) else {});
    } else {
      NextEdits(v, c, now);
    }
  }
}
