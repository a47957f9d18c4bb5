/** The reference: what each command means on a map with deadlines, in set, map and sequence
    algebra. The store's methods are proved against it. */
module Semantics {
  import opened Bytes
  import opened Decimal
  import opened Resp
  import opened Commands
  import opened Values
  import opened Enumerations
  import opened Windows
  import opened SortedSets

  /** The outcome of executing a command: a reply, or a panic of the connection's task. */
  datatype Reply = Replied(value: Value) | Panicked

  // -------------------------------------------------------------- reading a view

  datatype Kind = StringKind | ListKind | SetKind | HashKind | ZsetKind

  function KindOf(x: StoredValue): Kind
  {
    match x
    case Str(_) => StringKind
    case List(_) => ListKind
    case Set(_) => SetKind
    case Hash(_) => HashKind
    case SortedSet(_, _) => ZsetKind
  }

  function KindText(kind: Kind): bytes
  {
    match kind
    case StringKind => "string"
    case ListKind => "list"
    case SetKind => "set"
    case HashKind => "hash"
    case ZsetKind => "zset"
  }

  /** The key holds a value of another kind. */
  predicate Mistyped(v: View, k: bytes, kind: Kind) { k in v && KindOf(v[k].value) != kind }

  function ListAt(v: View, k: bytes): seq<bytes>
  {
    if k in v && v[k].value.List? then v[k].value.items else []
  }

  function MembersAt(v: View, k: bytes): set<bytes>
  {
    if k in v && v[k].value.Set? then v[k].value.members else {}
  }

  function FieldsAt(v: View, k: bytes): map<bytes, bytes>
  {
    if k in v && v[k].value.Hash? then v[k].value.fields else map[]
  }

  function ScoresAt(v: View, k: bytes): map<bytes, int>
  {
    if k in v && v[k].value.SortedSet? then v[k].value.scores else map[]
  }

  function TextAt(v: View, k: bytes): Option<bytes>
  {
    if k in v && v[k].value.Str? then Some(v[k].value.text) else None
  }

  // -------------------------------------------------------------- writing a view

  /** A new value under the key's old deadline. */
  function Write(v: View, k: bytes, x: StoredValue): View { v[k := Entry(x, DeadlineOf(v, k))] }

  /** A shrunk collection; the key goes with the last element. */
  function Shrink(v: View, k: bytes, x: StoredValue): View
  {
    if Vacant(x) then v - {k} else Write(v, k, x)
  }

  /** A value with a deadline of its own, which may already have passed. */
  function Put(v: View, k: bytes, x: StoredValue, deadline: Option<int>, now: int): View
  {
    if deadline.None? || now < deadline.value then v[k := Entry(x, deadline)] else v - {k}
  }

  /** The pairs as a map; a later pair overrides an earlier one with the same key. */
  function LastWins(pairs: seq<(bytes, bytes)>): map<bytes, bytes>
  {
    if pairs == [] then map[] else map[pairs[0].0 := pairs[0].1] + LastWins(pairs[1..])
  }

  function LastScores(pairs: seq<(int, bytes)>): map<bytes, int>
  {
    if pairs == [] then map[] else map[pairs[0].1 := pairs[0].0] + LastScores(pairs[1..])
  }

  /** The counter at a key after a step, or why there is none. */
  function Adjusted(v: View, k: bytes, delta: int): Result<i64, bytes>
  {
    if Mistyped(v, k, StringKind) then Err("Key does not hold a string value")
    else
      match ParseI64(if k in v then v[k].value.text else "0")
      case None => Err("Value is not an integer")
      case Some(n) =>
        if -TWO_TO_63 <= n + delta < TWO_TO_63 then Ok(n + delta) else Err("Integer overflow")
  }

  function Counted(v: View, k: bytes, delta: int): View
  {
    match Adjusted(v, k, delta)
    case Ok(n) => Write(v, k, Str(IntText(n)))
    case Err(_) => v
  }

  // -------------------------------------------------------------- the state after

  /** The commands that can change the store. */
  predicate Mutates(c: Command)
  {
    match c
    case Set(_, _, _, _) => true
    case Del(_) => true
    case Expire(_, _) => true
    case Incr(_) => true
    case Decr(_) => true
    case MSet(_) => true
    case Append(_, _) => true
    case FlushAll => true
    case LPush(_, _) => true
    case RPush(_, _) => true
    case LPop(_) => true
    case RPop(_) => true
    case SAdd(_, _) => true
    case SRem(_, _) => true
    case SPop(_, _) => true
    case HSet(_, _) => true
    case HDel(_, _) => true
    case ZAdd(_, _) => true
    case ZRem(_, _) => true
    case _ => false
  }

  // The commands on each kind of collection.

  predicate OnList(c: Command)
  {
    c.LPush? || c.RPush? || c.LPop? || c.RPop? || c.LLen? || c.LIndex? || c.LRange?
  }

  predicate OnSet(c: Command) { c.SAdd? || c.SRem? || c.SMembers? || c.SIsMember? || c.SCard? || c.SPop? }

  predicate OnHash(c: Command)
  {
    c.HSet? || c.HGet? || c.HDel? || c.HLen? || c.HExists? || c.HKeys? || c.HVals? || c.HGetAll?
  }

  predicate OnSortedSet(c: Command)
  {
    c.ZAdd? || c.ZRange? || c.ZRevRange? || c.ZScore? || c.ZRem? || c.ZCard? || c.ZCount?
  }

  predicate OnKey(c: Command) { !OnList(c) && !OnSet(c) && !OnHash(c) && !OnSortedSet(c) }

  /** The view after a command other than SPOP. */
  function Next(v: View, c: Command, now: int): View
  {
    if OnList(c) then ListNext(v, c)
    else if OnSet(c) then SetNext(v, c)
    else if OnHash(c) then HashNext(v, c)
    else if OnSortedSet(c) then SortedSetNext(v, c)
    else KeyNext(v, c, now)
  }

  function KeyNext(v: View, c: Command, now: int): View
  {
    match c
    case Set(k, x, px, condition) =>
      if (condition == Nx && k in v) || (condition == Xx && k !in v) then v
      else Put(v, k, Str(x), if px.Some? then Some(now + px.value) else None, now)
    case Del(ks) => v - SetOf(ks)
    case Expire(k, ms) => if k in v then Put(v, k, v[k].value, Some(now + ms), now) else v
    case Incr(k) => Counted(v, k, 1)
    case Decr(k) => Counted(v, k, -1)
    case MSet(pairs) => v + map k | k in LastWins(pairs) :: Entry(Str(LastWins(pairs)[k]), None)
    case Append(k, x) =>
      if Mistyped(v, k, StringKind) then v
      else Write(v, k, Str((if k in v then v[k].value.text else []) + x))
    case FlushAll => map[]
    case _ => v
  }

  function ListNext(v: View, c: Command): View
  {
    match c
    case LPush(k, xs) => if Mistyped(v, k, ListKind) || xs == [] then v else Write(v, k, List(xs + ListAt(v, k)))
    case RPush(k, xs) => if Mistyped(v, k, ListKind) || xs == [] then v else Write(v, k, List(ListAt(v, k) + xs))
    case LPop(k) => if ListAt(v, k) == [] then v else Shrink(v, k, List(ListAt(v, k)[1..]))
    case RPop(k) => if ListAt(v, k) == [] then v else Shrink(v, k, List(ListAt(v, k)[..|ListAt(v, k)| - 1]))
    case _ => v
  }

  function SetNext(v: View, c: Command): View
  {
    match c
    case SAdd(k, ms) => if Mistyped(v, k, SetKind) then v else Write(v, k, StoredValue.Set(MembersAt(v, k) + SetOf(ms)))
    case SRem(k, ms) => if MembersAt(v, k) == {} then v else Shrink(v, k, StoredValue.Set(MembersAt(v, k) - SetOf(ms)))
    case _ => v
  }

  function HashNext(v: View, c: Command): View
  {
    match c
    case HSet(k, pairs) =>
      if Mistyped(v, k, HashKind) || pairs == [] then v else Write(v, k, Hash(FieldsAt(v, k) + LastWins(pairs)))
    case HDel(k, fs) => if FieldsAt(v, k) == map[] then v else Shrink(v, k, Hash(FieldsAt(v, k) - SetOf(fs)))
    case _ => v
  }

  function SortedSetNext(v: View, c: Command): View
  {
    match c
    case ZAdd(k, pairs) =>
      if Mistyped(v, k, ZsetKind) || pairs == [] then v else Write(v, k, Ranked(ScoresAt(v, k) + LastScores(pairs)))
    case ZRem(k, ms) => if ScoresAt(v, k) == map[] then v else Shrink(v, k, Ranked(ScoresAt(v, k) - SetOf(ms)))
    case _ => v
  }

  // -------------------------------------------------------------- the replies

  const WRONG_TYPE: Value := Error("WRONGTYPE Operation against a key holding the wrong kind of value")

  const OK: Value := SimpleString("OK")

  function Count(n: int): Value { Integer(AsI64(n)) }

  function BulkOrNil(x: Option<bytes>): Value { if x.Some? then BulkString(x.value) else NilBulk }

  function BulkStrings(q: seq<bytes>): (r: seq<Value>)
    ensures |r| == |q| && forall i :: 0 <= i < |q| ==> r[i] == BulkString(q[i])
  {
    seq(|q|, i requires 0 <= i < |q| => BulkString(q[i]))
  }

  function BulkArray(q: seq<bytes>): (r: Value)
    ensures r.Array?
  {
    Array(BulkStrings(q))
  }

  function IntBool(b: bool): Value { Integer(if b then 1 else 0) }

  /** How many of the named keys exist, counting repetitions. */
  function Present(ks: seq<bytes>, domain: set<bytes>): nat
  {
    if ks == [] then 0 else (if ks[0] in domain then 1 else 0) + Present(ks[1..], domain)
  }

  function PttlOf(v: View, k: bytes, now: int): i64
  {
    if k !in v then -2
    else if v[k].deadline.None? then -1
    else AsI64(v[k].deadline.value - now)
  }

  /** i64 division truncates toward zero. */
  function TtlOf(v: View, k: bytes, now: int): i64
  {
    var ms: int := PttlOf(v, k, now);
    if ms == -2 || ms == -1 then ms else if ms < 0 then -((-ms) / 1000) else ms / 1000
  }

  function MembersOf(q: seq<Scored>): (r: seq<bytes>)
    ensures |r| == |q|
  {
    seq(|q|, i requires 0 <= i < |q| => q[i].0)
  }

  /** The reply of the commands whose reply is determined by the view; Null stands in for
      the others, see `Answers`. */
  function ReplyOf(v: View, c: Command, now: int): Value
  {
    if OnList(c) then ListReply(v, c)
    else if OnSet(c) then SetReply(v, c)
    else if OnHash(c) then HashReply(v, c)
    else if OnSortedSet(c) then SortedSetReply(v, c)
    else KeyReply(v, c, now)
  }

  function KeyReply(v: View, c: Command, now: int): Value
  {
    match c
    case Ping => SimpleString("PONG")
    case Echo(msg) => BulkString(msg)
    case Quit => OK
    case Get(k) => if Mistyped(v, k, StringKind) then WRONG_TYPE else BulkOrNil(TextAt(v, k))
    case Set(k, _, _, condition) =>
      if (condition == Nx && k in v) || (condition == Xx && k !in v) then Null else OK
    case Exists(ks) => Count(Present(ks, v.Keys))
    case Expire(k, _) => IntBool(k in v)
    case Ttl(k) => Integer(TtlOf(v, k, now))
    case Pttl(k) => Integer(PttlOf(v, k, now))
    case Incr(k) => var a := Adjusted(v, k, 1); if a.Ok? then Integer(a.value) else Error(a.error)
    case Decr(k) => var a := Adjusted(v, k, -1); if a.Ok? then Integer(a.value) else Error(a.error)
    case MGet(ks) => Array(seq(|ks|, i requires 0 <= i < |ks| => BulkOrNil(TextAt(v, ks[i]))))
    case MSet(_) => OK
    case Append(k, x) =>
      if Mistyped(v, k, StringKind) then WRONG_TYPE else Count((if k in v then |v[k].value.text| else 0) + |x|)
    case StrLen(k) =>
      if Mistyped(v, k, StringKind) then WRONG_TYPE else Count(if k in v then |v[k].value.text| else 0)
    case Type(k) => SimpleString(if k in v then KindText(KindOf(v[k].value)) else "none")
    case FlushAll => OK
    case _ => Null
  }

  function ListReply(v: View, c: Command): Value
  {
    match c
    case LPush(k, xs) =>
      if Mistyped(v, k, ListKind) then WRONG_TYPE else Count(if xs == [] then 0 else |xs| + |ListAt(v, k)|)
    case RPush(k, xs) =>
      if Mistyped(v, k, ListKind) then WRONG_TYPE else Count(if xs == [] then 0 else |ListAt(v, k)| + |xs|)
    case LPop(k) =>
      if Mistyped(v, k, ListKind) then WRONG_TYPE
      else BulkOrNil(if ListAt(v, k) == [] then None else Some(ListAt(v, k)[0]))
    case RPop(k) =>
      if Mistyped(v, k, ListKind) then WRONG_TYPE
      else BulkOrNil(if ListAt(v, k) == [] then None else Some(ListAt(v, k)[|ListAt(v, k)| - 1]))
    case LLen(k) => if Mistyped(v, k, ListKind) then WRONG_TYPE else Count(|ListAt(v, k)|)
    case LIndex(k, index) =>
      if Mistyped(v, k, ListKind) then WRONG_TYPE
      else
        var found := Slice(ListAt(v, k), index, index);
        BulkOrNil(if found == [] then None else Some(found[0]))
    case _ => Null
  }

  function SetReply(v: View, c: Command): Value
  {
    match c
    case SAdd(k, ms) =>
      if Mistyped(v, k, SetKind) then WRONG_TYPE else Count(|SetOf(ms) - MembersAt(v, k)|)
    case SRem(k, ms) =>
      if Mistyped(v, k, SetKind) then WRONG_TYPE else Count(|SetOf(ms) * MembersAt(v, k)|)
    case SIsMember(k, m) => if Mistyped(v, k, SetKind) then WRONG_TYPE else IntBool(m in MembersAt(v, k))
    case SCard(k) => if Mistyped(v, k, SetKind) then WRONG_TYPE else Count(|MembersAt(v, k)|)
    case _ => Null
  }

  function HashReply(v: View, c: Command): Value
  {
    match c
    case HSet(k, pairs) =>
      if Mistyped(v, k, HashKind) then WRONG_TYPE else Count(|LastWins(pairs).Keys - FieldsAt(v, k).Keys|)
    case HGet(k, f) =>
      if Mistyped(v, k, HashKind) then WRONG_TYPE
      else BulkOrNil(if f in FieldsAt(v, k) then Some(FieldsAt(v, k)[f]) else None)
    case HDel(k, fs) =>
      if Mistyped(v, k, HashKind) then WRONG_TYPE else Count(|SetOf(fs) * FieldsAt(v, k).Keys|)
    case HLen(k) => if Mistyped(v, k, HashKind) then WRONG_TYPE else Count(|FieldsAt(v, k)|)
    case HExists(k, f) => if Mistyped(v, k, HashKind) then WRONG_TYPE else IntBool(f in FieldsAt(v, k))
    case _ => Null
  }

  function SortedSetReply(v: View, c: Command): Value
  {
    match c
    case ZAdd(k, pairs) =>
      if Mistyped(v, k, ZsetKind) then WRONG_TYPE else Count(|LastScores(pairs).Keys - ScoresAt(v, k).Keys|)
    case ZScore(k, m) =>
      if Mistyped(v, k, ZsetKind) then WRONG_TYPE
      else BulkOrNil(if m in ScoresAt(v, k) then Some(IntText(ScoresAt(v, k)[m])) else None)
    case ZRem(k, ms) =>
      if Mistyped(v, k, ZsetKind) then WRONG_TYPE else Count(|SetOf(ms) * ScoresAt(v, k).Keys|)
    case ZCard(k) => if Mistyped(v, k, ZsetKind) then WRONG_TYPE else Count(|ScoresAt(v, k)|)
    case _ => Null
  }

  lemma ListMeaning(v: View, c: Command, now: int)
    requires OnList(c)
    ensures Next(v, c, now) == ListNext(v, c) && ReplyOf(v, c, now) == ListReply(v, c)
  {
    hide KeyNext, ListNext, SetNext, HashNext, SortedSetNext;
    hide KeyReply, ListReply, SetReply, HashReply, SortedSetReply;
  }

  lemma SetMeaning(v: View, c: Command, now: int)
    requires OnSet(c)
    ensures Next(v, c, now) == SetNext(v, c) && ReplyOf(v, c, now) == SetReply(v, c)
  {
    hide KeyNext, ListNext, SetNext, HashNext, SortedSetNext;
    hide KeyReply, ListReply, SetReply, HashReply, SortedSetReply;
  }

  lemma HashMeaning(v: View, c: Command, now: int)
    requires OnHash(c)
    ensures Next(v, c, now) == HashNext(v, c) && ReplyOf(v, c, now) == HashReply(v, c)
  {
    hide KeyNext, ListNext, SetNext, HashNext, SortedSetNext;
    hide KeyReply, ListReply, SetReply, HashReply, SortedSetReply;
  }

  lemma SortedSetMeaning(v: View, c: Command, now: int)
    requires OnSortedSet(c)
    ensures Next(v, c, now) == SortedSetNext(v, c) && ReplyOf(v, c, now) == SortedSetReply(v, c)
  {
    hide KeyNext, ListNext, SetNext, HashNext, SortedSetNext;
    hide KeyReply, ListReply, SetReply, HashReply, SortedSetReply;
  }

  lemma KeyMeaning(v: View, c: Command, now: int)
    requires OnKey(c)
    ensures Next(v, c, now) == KeyNext(v, c, now) && ReplyOf(v, c, now) == KeyReply(v, c, now)
  {
    hide KeyNext, ListNext, SetNext, HashNext, SortedSetNext;
    hide KeyReply, ListReply, SetReply, HashReply, SortedSetReply;
  }

  const BAD_PATTERN: Value := Error("ERR only '*' pattern is currently supported")

  /** The replies a command may give. Hash order shows only in HKEYS, HVALS and in ties
      between scores; DEL may count keys that have expired but are still held. */
  ghost predicate Answers(v: View, c: Command, now: int, reply: Reply)
  {
    if c.LRange? then AnswersRange(v, c, reply)
    else if c.ZCount? then AnswersZCount(v, c, reply)
    else if c.Info? then reply.Replied? && reply.value.BulkString?
    else if c.Del? then exists n :: |v.Keys * SetOf(c.keys)| <= n <= |SetOf(c.keys)| && reply == Replied(Count(n))
    else if c.Keys? then
      if c.pattern != "*" then reply == Replied(BAD_PATTERN) else InSomeOrder(v.Keys, true, q => q, reply)
    else if c.SMembers? || c.HKeys? || c.HVals? || c.HGetAll? then AnswersListing(v, c, reply)
    else if c.ZRange? || c.ZRevRange? then AnswersRanking(v, c, reply)
    else reply == Replied(ReplyOf(v, c, now))
  }

  ghost predicate AnswersRange(v: View, c: Command, reply: Reply)
    requires c.LRange?
  {
    if Mistyped(v, c.key, ListKind) then reply == Replied(WRONG_TYPE)
    else if StopsBeforeStart(|ListAt(v, c.key)|, c.start, c.stop) then reply == Panicked
    else reply == Replied(BulkArray(Slice(ListAt(v, c.key), c.start, c.stop)))
  }

  ghost predicate AnswersZCount(v: View, c: Command, reply: Reply)
    requires c.ZCount?
  {
    if Mistyped(v, c.key, ZsetKind) then reply == Replied(WRONG_TYPE)
    else if c.key in v && c.max < c.min then reply == Panicked
    else reply == Replied(Count(|InRange(ScoresAt(v, c.key), c.min, c.max)|))
  }

  /** The elements of a set in an order of the table's choosing, or sorted, put into a reply. */
  ghost predicate InSomeOrder(s: set<bytes>, sorted: bool, show: seq<bytes> -> seq<bytes>, reply: Reply)
  {
    exists q :: Enumerates(q, s) && (sorted ==> SortedBy(LexLe, q)) && reply == Replied(BulkArray(show(q)))
  }

  ghost predicate AnswersListing(v: View, c: Command, reply: Reply)
    requires c.SMembers? || c.HKeys? || c.HVals? || c.HGetAll?
  {
    var h := FieldsAt(v, c.key);
    if Mistyped(v, c.key, if c.SMembers? then SetKind else HashKind) then reply == Replied(WRONG_TYPE)
    else if c.SMembers? then InSomeOrder(MembersAt(v, c.key), true, q => q, reply)
    else if c.HKeys? then InSomeOrder(h.Keys, false, q => q, reply)
    else if c.HVals? then InSomeOrder(h.Keys, false, q => ValuesAlong(q, h), reply)
    else InSomeOrder(h.Keys, true, q => PairsAlong(q, h), reply)
  }

  ghost predicate AnswersRanking(v: View, c: Command, reply: Reply)
    requires c.ZRange? || c.ZRevRange?
  {
    if Mistyped(v, c.key, ZsetKind) then reply == Replied(WRONG_TYPE)
    else exists q ::
      && (if c.ZRange? then ByRank(q, ScoresAt(v, c.key)) else ByReverseRank(q, ScoresAt(v, c.key)))
      && reply == Replied(BulkArray(MembersOf(RankWindow(q, c.start, c.stop))))
  }

  function ValuesAlong(q: seq<bytes>, fields: map<bytes, bytes>): seq<bytes>
  {
    if q == [] || q[0] !in fields then [] else [fields[q[0]]] + ValuesAlong(q[1..], fields)
  }

  function PairsAlong(q: seq<bytes>, fields: map<bytes, bytes>): seq<bytes>
  {
    if q == [] || q[0] !in fields then [] else [q[0], fields[q[0]]] + PairsAlong(q[1..], fields)
  }

  /** SPOP takes as many members as asked for, or all of them, whichever they are. */
  ghost predicate Pops(v: View, k: bytes, count: nat, v': View, popped: seq<bytes>)
  {
    var s := MembersAt(v, k);
    && Enumerates(popped, SetOf(popped)) && SetOf(popped) <= s
    && |popped| == (if count < |s| then count else |s|)
    && v' == if s == {} then v else Shrink(v, k, StoredValue.Set(s - SetOf(popped)))
  }

  /** One command: the view before and after, and the reply. */
  ghost predicate Steps(v: View, c: Command, now: int, v': View, reply: Reply)
  {
    if c.SPop? then StepsSPop(v, c, v', reply)
    else v' == Next(v, c, now) && Answers(v, c, now, reply)
  }

  ghost predicate StepsSPop(v: View, c: Command, v': View, reply: Reply)
    requires c.SPop?
  {
    if Mistyped(v, c.key, SetKind) then v' == v && reply == Replied(WRONG_TYPE)
    else exists popped ::
      && Pops(v, c.key, if c.count.Some? then c.count.value else 1, v', popped)
      && reply == Replied(if c.count.Some? then BulkArray(popped)
                          else BulkOrNil(if popped == [] then None else Some(popped[|popped| - 1])))
  }
}
