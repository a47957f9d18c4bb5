/** `Command::execute` over the store. */
module Execution {
  import opened Bytes
  import opened Resp
  import opened Commands
  import opened Values
  import opened Enumerations
  import opened Semantics
  import opened Laws
  import opened Stores
  import opened Handlers

  method ExecuteWrite(store: Store, c: Command, now: int) returns (r: Value)
    requires store.Valid() && Inhabited(c) && Mutates(c) && !c.SPop? && !c.Del?
    modifies store
    ensures store.Valid() && store.Live(now) == Next(old(store.Live(now)), c, now)
    ensures r == ReplyOf(old(store.Live(now)), c, now)
  {
    hide Next, ReplyOf, LiveView, Consistent;
    match c {
      case Set(key, value, px, condition) => r := HandleSet(store, key, value, px, condition, now);
      case Expire(key, ms) => r := HandleExpire(store, key, ms, now);
      case Incr(_) => r := HandleAdjust(store, c, now);
      case Decr(_) => r := HandleAdjust(store, c, now);
      case MSet(entries) => r := HandleMSet(store, entries, now);
      case Append(key, value) => r := HandleAppend(store, key, value, now);
      case FlushAll => r := HandleFlushAll(store, now);
      case LPush(key, vals) => r := HandleLPush(store, key, vals, now);
      case RPush(key, vals) => r := HandleRPush(store, key, vals, now);
      case LPop(key) => r := HandleLPop(store, key, now);
      case RPop(key) => r := HandleRPop(store, key, now);
      case SAdd(key, members) => r := HandleSAdd(store, key, members, now);
      case SRem(key, members) => r := HandleSRem(store, key, members, now);
      case HSet(key, entries) => r := HandleHSet(store, key, entries, now);
      case HDel(key, fields) => r := HandleHDel(store, key, fields, now);
      case ZAdd(key, scored) => r := HandleZAdd(store, key, scored, now);
      case ZRem(key, members) => r := HandleZRem(store, key, members, now);
    }
  }

  method HandleFlushAll(store: Store, now: int) returns (r: Value)
    modifies store
    ensures store.Valid() && store.Live(now) == Next(old(store.Live(now)), FlushAll, now)
    ensures r == ReplyOf(old(store.Live(now)), FlushAll, now)
  {
    hide Next, ReplyOf;
    KeyMeaning(store.Live(now), FlushAll, now);
    store.FlushAll();
    r := OK;
  }

  method ExecuteConnection(c: Command, ghost v: View, ghost now: int) returns (r: Value)
    requires c.Ping? || c.Echo? || c.Quit?
    ensures r == ReplyOf(v, c, now)
  {
    hide Next, ReplyOf;
    KeyMeaning(v, c, now);
    r := if c.Ping? then SimpleString("PONG") else if c.Echo? then BulkString(c.msg) else OK;
  }

  /** `info` is the text that INFO reports. */
  method ExecuteRead(store: Store, c: Command, info: bytes, now: int) returns (r: Reply)
    requires store.Valid() && !Mutates(c)
    modifies store
    ensures store.Valid() && store.Live(now) == old(store.Live(now))
    ensures Answers(old(store.Live(now)), c, now, r)
  {
    hide ReplyOf, LiveView, Consistent, AnswersRange, AnswersZCount, AnswersListing, AnswersRanking;
    if c.LRange? {
      r := HandleLRange(store, c.key, c.start, c.stop, now);
    } else if c.ZCount? {
      r := HandleZCount(store, c.key, c.min, c.max, now);
    } else {
      var value;
      if c.Info? {
        value := BulkString(info);
      } else if c.Keys? {
        value := HandleKeys(store, c.pattern, now);
      } else if c.SMembers? || c.HKeys? || c.HVals? || c.HGetAll? {
        value := HandleListing(store, c, now);
      } else if c.ZRange? || c.ZRevRange? {
        value := HandleRanking(store, c, now);
      } else {
        value := ExecuteQuery(store, c, now);
      }
      r := Replied(value);
    }
  }

  /** The reads whose reply the view determines. */
  method ExecuteQuery(store: Store, c: Command, now: int) returns (r: Value)
    requires store.Valid() && !Mutates(c)
    requires !(c.LRange? || c.ZCount? || c.Info? || c.Keys? || c.SMembers? || c.HKeys? || c.HVals? || c.HGetAll?
      || c.ZRange? || c.ZRevRange?)
    modifies store
    ensures store.Valid() && store.Live(now) == old(store.Live(now))
    ensures r == ReplyOf(old(store.Live(now)), c, now)
  {
    hide ReplyOf, LiveView, Consistent;
    if c.Exists? {
      r := HandleExists(store, c.keys, now);
    } else if c.MGet? {
      r := HandleMGet(store, c.keys, now);
    } else if c.Ttl? || c.Pttl? {
      r := HandleTime(store, c, now);
    } else if c.LIndex? {
      r := HandleLIndex(store, c.key, c.index, now);
    } else if LooksUpFlat(c) {
      r := HandleFlat(store, c, now);
    } else if LooksUpHash(c) {
      r := HandleHashRead(store, c, now);
    } else if LooksUpScores(c) {
      r := HandleScoreRead(store, c, now);
    } else {
      r := ExecuteConnection(c, store.Live(now), now);
    }
  }

  /** Every command leaves a view and gives a reply that the view before it and the time allow.
      What is held but has expired matters to one reply alone: DEL counts it. */
  method Execute(store: Store, c: Command, info: bytes, now: int) returns (r: Reply)
    requires store.Valid() && Inhabited(c)
    modifies store
    ensures store.Valid() && Steps(old(store.Live(now)), c, now, store.Live(now), r)
    ensures c.Del? ==> r == Replied(Count(|old(store.data).Keys * SetOf(c.keys)|))
  {
    hide Next, ReplyOf, LiveView, Consistent, StepsSPop, Answers;
    NextOfReader(store.Live(now), c, now);
    if c.SPop? {
      var value := HandleSPop(store, c.key, c.count, now);
      r := Replied(value);
    } else if c.Del? {
      var value := HandleDel(store, c.keys, now);
      r := Replied(value);
    } else if Mutates(c) {
      WritersAnswer(store.Live(now), c, now);
      var value := ExecuteWrite(store, c, now);
      r := Replied(value);
    } else {
      r := ExecuteRead(store, c, info, now);
    }
  }

  lemma WritersAnswer(v: View, c: Command, now: int)
    requires Mutates(c) && !c.SPop? && !c.Del?
    ensures Answers(v, c, now, Replied(ReplyOf(v, c, now)))
  {
    hide ReplyOf;
  }
}
