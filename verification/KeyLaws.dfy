/** What a client sees of one command through another: keys, strings and lifetimes. The laws
    speak of views before and after a step and of replies, in the words of the protocol. */
module KeyLaws {
  import opened Bytes
  import opened Decimal
  import opened Resp
  import opened Commands
  import opened Values
  import opened Enumerations
  import opened Semantics
  import opened Laws

  /** The commands whose reply the reference gives outright. */
  predicate Plain(c: Command)
  {
    !(c.LRange? || c.ZCount? || c.Info? || c.Del? || c.Keys? || c.SMembers? || c.HKeys? || c.HVals? || c.HGetAll?
      || c.ZRange? || c.ZRevRange? || c.SPop?)
  }

  lemma PlainStep(v: View, c: Command, now: int, w: View, r: Reply)
    requires Plain(c) && Steps(v, c, now, w, r)
    ensures w == Next(v, c, now) && r == Replied(ReplyOf(v, c, now))
  {
    hide Next, ReplyOf, StepsSPop, AnswersRange, AnswersZCount, AnswersListing, AnswersRanking;
  }

  lemma KeyStep(v: View, c: Command, now: int, w: View, r: Reply)
    requires Plain(c) && OnKey(c) && Steps(v, c, now, w, r)
    ensures w == KeyNext(v, c, now) && r == Replied(KeyReply(v, c, now))
  {
    hide Next, ReplyOf, Steps, KeyNext, KeyReply, Plain;
    PlainStep(v, c, now, w, r);
    KeyMeaning(v, c, now);
  }

  /** Bulk text, or the null bulk. */
  function Bulk(x: Option<bytes>): Reply { Replied(if x.Some? then BulkString(x.value) else NilBulk) }

  function Number(n: int): Reply
    requires -TWO_TO_63 <= n < TWO_TO_63
  {
    Replied(Integer(n))
  }

  const WRONG_KIND: Reply := Replied(Error("WRONGTYPE Operation against a key holding the wrong kind of value"))

  const DONE: Reply := Replied(SimpleString("OK"))

  // --------------------------------------------------------------------------- connection

  lemma Connection(v: View, c: Command, now: int, w: View, r: Reply)
    requires (c.Ping? || c.Echo? || c.Quit?) && Steps(v, c, now, w, r)
    ensures w == v
    ensures c.Ping? ==> r == Replied(SimpleString("PONG"))
    ensures c.Echo? ==> r == Bulk(Some(c.msg))
    ensures c.Quit? ==> r == DONE
  {
    KeyStep(v, c, now, w, r);
    hide Steps;
  }

  // ------------------------------------------------------------------------------ SET and GET

  /** SET replaces whatever was there, its deadline included. */
  lemma SetReplaces(v: View, k: bytes, x: bytes, px: Option<u64>, now: int, w: View, r: Reply)
    requires Steps(v, Command.Set(k, x, px, Always), now, w, r)
    ensures r == DONE
    ensures px.None? ==> w == v[k := Entry(Str(x), None)]
    ensures px.Some? && px.value > 0 ==> w == v[k := Entry(Str(x), Some(now + px.value))]
    ensures px == Some(0) ==> w == v - {k}
  {
    KeyStep(v, Command.Set(k, x, px, Always), now, w, r);
    hide Steps;
  }

  /** NX: nothing on a key that is there, a plain SET on one that is not. */
  lemma SetIfAbsent(v: View, k: bytes, x: bytes, px: Option<u64>, now: int, w: View, r: Reply)
    requires Steps(v, Command.Set(k, x, px, Nx), now, w, r)
    ensures k in v ==> w == v && r == Replied(Null)
    ensures k !in v ==> r == DONE && Steps(v, Command.Set(k, x, px, Always), now, w, r)
    ensures k !in v && px.None? ==> w == v[k := Entry(Str(x), None)]
  {
    hide Next, ReplyOf;
    KeyStep(v, Command.Set(k, x, px, Nx), now, w, r);
    KeyMeaning(v, Command.Set(k, x, px, Always), now);
  }

  /** XX: a plain SET on a key that is there, nothing on one that is not. */
  lemma SetIfPresent(v: View, k: bytes, x: bytes, px: Option<u64>, now: int, w: View, r: Reply)
    requires Steps(v, Command.Set(k, x, px, Xx), now, w, r)
    ensures k !in v ==> w == v && r == Replied(Null)
    ensures k in v ==> r == DONE && Steps(v, Command.Set(k, x, px, Always), now, w, r)
    ensures k in v && px.None? ==> w == v[k := Entry(Str(x), None)]
  {
    hide Next, ReplyOf;
    KeyStep(v, Command.Set(k, x, px, Xx), now, w, r);
    KeyMeaning(v, Command.Set(k, x, px, Always), now);
  }

  /** Of two clients that SET with NX in a row on a key that is not there, the first alone
      succeeds. */
  lemma FirstWins(v: View, k: bytes, x: bytes, y: bytes, now: int, w: View, r: Reply, u: View, s: Reply)
    requires k !in v && Steps(v, Command.Set(k, x, None, Nx), now, w, r) && Steps(w, Command.Set(k, y, None, Nx), now, u, s)
    ensures r == DONE && s == Replied(Null) && u == w == v[k := Entry(Str(x), None)]
  {
    hide Steps;
    SetIfAbsent(v, k, x, None, now, w, r);
    SetIfAbsent(w, k, y, None, now, u, s);
  }

  /** GET: the text, the null bulk, or the type error. */
  lemma Gets(v: View, k: bytes, now: int, w: View, r: Reply)
    requires Steps(v, Get(k), now, w, r)
    ensures w == v
    ensures k !in v ==> r == Bulk(None)
    ensures k in v && v[k].value.Str? ==> r == Bulk(Some(v[k].value.text))
    ensures k in v && !v[k].value.Str? ==> r == WRONG_KIND
  {
    KeyStep(v, Get(k), now, w, r);
    hide Steps;
  }

  lemma SetThenGet(v: View, k: bytes, x: bytes, px: Option<u64>, now: int, w: View, r: Reply, j: bytes, u: View, s: Reply)
    requires Steps(v, Command.Set(k, x, px, Always), now, w, r) && Steps(w, Get(j), now, u, s)
    requires px != Some(0)
    ensures j == k ==> s == Bulk(Some(x))
    ensures j != k ==> Steps(v, Get(j), now, v, s)
  {
    hide Next, ReplyOf;
    SetReplaces(v, k, x, px, now, w, r);
    KeyStep(w, Get(j), now, u, s);
    KeyMeaning(v, Get(j), now);
    hide Put;
  }

  /** MGET is GET of each key, with the null bulk in place of a type error. */
  lemma MGetIsGets(v: View, ks: seq<bytes>, now: int, w: View, r: Reply, i: nat, s: Reply)
    requires Steps(v, MGet(ks), now, w, r) && i < |ks| && Steps(v, Get(ks[i]), now, v, s)
    ensures w == v && r.Replied? && r.value.Array? && |r.value.items| == |ks|
    ensures Replied(r.value.items[i]) == if s == WRONG_KIND then Bulk(None) else s
  {
    hide Steps;
    KeyStep(v, MGet(ks), now, w, r);
    Gets(v, ks[i], now, v, s);
  }

  /** MSET: the last of the pairs with a key gives its text, without a deadline; the other keys
      stay as they were. */
  lemma MSetWrites(v: View, pairs: seq<(bytes, bytes)>, now: int, w: View, r: Reply)
    requires Steps(v, MSet(pairs), now, w, r)
    ensures r == DONE
    ensures forall i :: 0 <= i < |pairs| && (forall j :: i < j < |pairs| ==> pairs[j].0 != pairs[i].0) ==>
      pairs[i].0 in w && w[pairs[i].0] == Entry(Str(pairs[i].1), None)
    ensures forall k :: (forall i :: 0 <= i < |pairs| ==> pairs[i].0 != k) ==>
      (k in w <==> k in v) && (k in w ==> w[k] == v[k])
  {
    hide Steps, LastWins;
    KeyStep(v, MSet(pairs), now, w, r);
    LastWinsAre(pairs);
    AllSetIs(v, pairs);
    hide KeyNext, KeyReply, AllSet;
    assert w == AllSet(v, pairs);
  }

  lemma AllSetIs(v: View, pairs: seq<(bytes, bytes)>)
    ensures forall k :: k in AllSet(v, pairs) <==> k in v || k in LastWins(pairs)
    ensures forall k :: k in LastWins(pairs) ==> AllSet(v, pairs)[k] == Entry(Str(LastWins(pairs)[k]), None)
    ensures forall k :: k in v && k !in LastWins(pairs) ==> AllSet(v, pairs)[k] == v[k]
  {
    hide LastWins;
  }

  /** A map made from pairs, said of each pair. */
  lemma {:induction false} LastWinsAre(pairs: seq<(bytes, bytes)>)
    ensures forall i :: 0 <= i < |pairs| ==> pairs[i].0 in LastWins(pairs)
    ensures forall i :: 0 <= i < |pairs| && (forall j :: i < j < |pairs| ==> pairs[j].0 != pairs[i].0) ==>
      LastWins(pairs)[pairs[i].0] == pairs[i].1
    ensures forall k :: k in LastWins(pairs) ==> exists i :: 0 <= i < |pairs| && pairs[i].0 == k
    decreases |pairs|
  {
    if pairs != [] {
      var rest := pairs[1..];
      LastWinsAre(rest);
      forall i | 0 <= i < |pairs|
        ensures pairs[i].0 in LastWins(pairs)
        ensures (forall j :: i < j < |pairs| ==> pairs[j].0 != pairs[i].0) ==> LastWins(pairs)[pairs[i].0] == pairs[i].1
      {
        if i > 0 {
          assert rest[i - 1] == pairs[i];
          if forall j :: i < j < |pairs| ==> pairs[j].0 != pairs[i].0 {
            assert forall j :: i - 1 < j < |rest| ==> rest[j] == pairs[j + 1] && rest[j].0 != rest[i - 1].0;
          }
        } else if forall j :: 0 < j < |pairs| ==> pairs[j].0 != pairs[0].0 {
          forall m | 0 <= m < |rest| ensures rest[m].0 != pairs[0].0 { assert rest[m] == pairs[m + 1]; }
        }
      }
      forall k | k in LastWins(pairs) ensures exists i :: 0 <= i < |pairs| && pairs[i].0 == k {
        if k in LastWins(rest) {
          var m :| 0 <= m < |rest| && rest[m].0 == k;
          assert pairs[m + 1].0 == k;
        } else {
          assert pairs[0].0 == k;
        }
      }
    }
  }

  /** APPEND adds at the end, keeps the deadline, and replies with the new length, which is what
      STRLEN replies afterwards. */
  lemma Appends(v: View, k: bytes, x: bytes, now: int, w: View, r: Reply)
    requires Steps(v, Append(k, x), now, w, r)
    ensures k in v && !v[k].value.Str? ==> w == v && r == WRONG_KIND
    ensures k !in v && |x| < TWO_TO_63 ==> w == v[k := Entry(Str(x), None)] && r == Number(|x|)
    ensures k in v && v[k].value.Str? && |v[k].value.text + x| < TWO_TO_63 ==>
      w == v[k := Entry(Str(v[k].value.text + x), v[k].deadline)] && r == Number(|v[k].value.text + x|)
  {
    KeyStep(v, Append(k, x), now, w, r);
    hide Steps;
    assert [] + x == x;
  }

  lemma Lengths(v: View, k: bytes, now: int, w: View, r: Reply)
    requires Steps(v, StrLen(k), now, w, r)
    ensures w == v
    ensures k !in v ==> r == Number(0)
    ensures k in v && v[k].value.Str? && |v[k].value.text| < TWO_TO_63 ==> r == Number(|v[k].value.text|)
    ensures k in v && !v[k].value.Str? ==> r == WRONG_KIND
  {
    KeyStep(v, StrLen(k), now, w, r);
    hide Steps;
  }

  lemma AppendThenGet(v: View, k: bytes, x: bytes, y: bytes, now: int, w: View, r: Reply,
                      u: View, s: Reply, g: Reply, n: Reply)
    requires Steps(v, Command.Set(k, x, None, Always), now, w, r) && Steps(w, Append(k, y), now, u, s)
    requires Steps(u, Get(k), now, u, g) && Steps(u, StrLen(k), now, u, n) && |x + y| < TWO_TO_63
    ensures g == Bulk(Some(x + y)) && s == n == Number(|x + y|)
  {
    hide Steps;
    SetReplaces(v, k, x, None, now, w, r);
    Appends(w, k, y, now, u, s);
    Gets(u, k, now, u, g);
    Lengths(u, k, now, u, n);
  }

  // ------------------------------------------------------------------------- keys as such

  /** EXISTS counts each word whose key is there, repetitions included. */
  lemma Exist(v: View, ks: seq<bytes>, now: int, w: View, r: Reply)
    requires Steps(v, Exists(ks), now, w, r) && |ks| < TWO_TO_63
    ensures w == v && r.Replied? && r.value.Integer? && 0 <= r.value.n <= |ks|
    ensures ks == [] ==> r == Number(0)
    ensures |ks| == 1 ==> r == Number(if ks[0] in v then 1 else 0)
  {
    hide Steps;
    KeyStep(v, Exists(ks), now, w, r);
    PresentBound(ks, v.Keys);
  }

  lemma {:induction false} PresentBound(ks: seq<bytes>, domain: set<bytes>)
    ensures Present(ks, domain) <= |ks|
    decreases |ks|
  {
    if ks != [] { PresentBound(ks[1..], domain); }
  }

  lemma {:induction false} PresentAdds(ks: seq<bytes>, js: seq<bytes>, domain: set<bytes>)
    ensures Present(ks + js, domain) == Present(ks, domain) + Present(js, domain)
    decreases |ks|
  {
    if ks == [] {
      assert ks + js == js;
    } else {
      assert (ks + js)[0] == ks[0] && (ks + js)[1..] == ks[1..] + js;
      PresentAdds(ks[1..], js, domain);
    }
  }

  lemma ExistAdds(v: View, ks: seq<bytes>, js: seq<bytes>, now: int, r: Reply, s: Reply, t: Reply)
    requires Steps(v, Exists(ks), now, v, r) && Steps(v, Exists(js), now, v, s) && Steps(v, Exists(ks + js), now, v, t)
    requires |ks + js| < TWO_TO_63
    ensures r.Replied? && s.Replied? && t.Replied? && r.value.Integer? && s.value.Integer? && t.value.Integer?
    ensures t.value.n == r.value.n + s.value.n
  {
    hide Steps;
    KeyStep(v, Exists(ks), now, v, r);
    KeyStep(v, Exists(js), now, v, s);
    KeyStep(v, Exists(ks + js), now, v, t);
    PresentAdds(ks, js, v.Keys);
    PresentBound(ks + js, v.Keys);
  }

  /** TYPE names the kind of value, or says that there is none. */
  lemma Types(v: View, k: bytes, now: int, w: View, r: Reply)
    requires Steps(v, Type(k), now, w, r)
    ensures w == v
    ensures k !in v ==> r == Replied(SimpleString("none"))
    ensures k in v && v[k].value.Str? ==> r == Replied(SimpleString("string"))
    ensures k in v && v[k].value.List? ==> r == Replied(SimpleString("list"))
    ensures k in v && v[k].value.Set? ==> r == Replied(SimpleString("set"))
    ensures k in v && v[k].value.Hash? ==> r == Replied(SimpleString("hash"))
    ensures k in v && v[k].value.SortedSet? ==> r == Replied(SimpleString("zset"))
  {
    KeyStep(v, Type(k), now, w, r);
    hide Steps;
  }

  /** DEL drops the named keys and no other. */
  lemma Deletes(v: View, ks: seq<bytes>, now: int, w: View, r: Reply)
    requires Steps(v, Del(ks), now, w, r)
    ensures forall k :: k in w <==> k in v && k !in ks
    ensures forall k :: k in w ==> w[k] == v[k]
  {
    hide Next, ReplyOf, Answers;
    KeyMeaning(v, Del(ks), now);
    hide KeyReply;
  }

  lemma FlushesAll(v: View, now: int, w: View, r: Reply)
    requires Steps(v, FlushAll, now, w, r)
    ensures w == map[] && r == DONE
  {
    KeyStep(v, FlushAll, now, w, r);
    hide Steps;
  }

  /** KEYS with the one pattern it knows: every key once, in ascending order. */
  lemma ListsKeys(v: View, pattern: bytes, now: int, w: View, r: Reply)
    requires Steps(v, Keys(pattern), now, w, r)
    ensures w == v
    ensures pattern != "*" ==> r == Replied(Error("ERR only '*' pattern is currently supported"))
    ensures pattern == "*" ==> exists q ::
      Enumerates(q, v.Keys) && SortedBy(LexLe, q) && r == Replied(Array(BulkStrings(q)))
  {
    hide Next, ReplyOf;
    KeyMeaning(v, Keys(pattern), now);
    hide KeyReply;
  }

  // ------------------------------------------------------------------------------ lifetimes

  /** EXPIRE gives a key that is there a lifetime from now, and says whether it was there. */
  lemma Expires(v: View, k: bytes, ms: u64, now: int, w: View, r: Reply)
    requires Steps(v, Expire(k, ms), now, w, r)
    ensures k !in v ==> w == v && r == Number(0)
    ensures k in v ==> r == Number(1)
    ensures k in v && ms > 0 ==> w == v[k := Entry(v[k].value, Some(now + ms))]
    ensures k in v && ms == 0 ==> w == v - {k}
  {
    KeyStep(v, Expire(k, ms), now, w, r);
    hide Steps;
  }

  /** PTTL: -2 without the key, -1 without a deadline, otherwise what is left. */
  lemma LeftMs(v: View, k: bytes, now: int, w: View, r: Reply)
    requires Steps(v, Pttl(k), now, w, r)
    ensures w == v
    ensures k !in v ==> r == Number(-2)
    ensures k in v && v[k].deadline.None? ==> r == Number(-1)
    ensures k in v && v[k].deadline.Some? && 0 <= v[k].deadline.value - now < TWO_TO_63 ==>
      r == Number(v[k].deadline.value - now)
  {
    KeyStep(v, Pttl(k), now, w, r);
    hide Steps;
  }

  /** TTL: the same in whole seconds, rounded down. */
  lemma LeftSeconds(v: View, k: bytes, now: int, w: View, r: Reply)
    requires Steps(v, Ttl(k), now, w, r)
    ensures w == v
    ensures k !in v ==> r == Number(-2)
    ensures k in v && v[k].deadline.None? ==> r == Number(-1)
    ensures k in v && v[k].deadline.Some? && 0 <= v[k].deadline.value - now < TWO_TO_63 ==>
      r.Replied? && r.value.Integer? && 1000 * r.value.n <= v[k].deadline.value - now < 1000 * (r.value.n + 1)
  {
    KeyStep(v, Ttl(k), now, w, r);
    hide Steps;
  }

  /** The life of a key after EXPIRE: until the last millisecond PTTL counts down, and from the
      deadline on the key is not there. */
  lemma ExpireThenPttl(v: View, k: bytes, ms: u64, now: int, w: View, r: Reply, later: int, u: View, s: Reply)
    requires k in v && 0 < ms < TWO_TO_63 && now <= later
    requires Steps(v, Expire(k, ms), now, w, r) && Steps(Prune(w, later), Pttl(k), later, u, s)
    ensures s == if later < now + ms then Number(now + ms - later) else Number(-2)
  {
    hide Steps;
    Expires(v, k, ms, now, w, r);
    LeftMs(Prune(w, later), k, later, u, s);
  }

  // ---------------------------------------------------------------- counters that cannot count

  lemma CountersNeedIntegers(v: View, c: Command, now: int, w: View, r: Reply)
    requires (c.Incr? || c.Decr?) && Steps(v, c, now, w, r) && c.key in v
    ensures !v[c.key].value.Str? ==> w == v && r == Replied(Error("Key does not hold a string value"))
    ensures v[c.key].value.Str? && ParseI64(v[c.key].value.text).None? ==>
      w == v && r == Replied(Error("Value is not an integer"))
  {
    KeyStep(v, c, now, w, r);
    hide Steps, ParseI64;
  }
}
