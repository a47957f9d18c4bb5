/** The grammar of the commands: which argument vectors the parser accepts, and as what. Each
    command is given by its name, the number of its words and the place of each operand. */
module Grammar {
  import opened Bytes
  import opened Decimal
  import opened Resp
  import opened Commands
  import opened Parsers
  import opened Semantics
  import opened Wording

  // ------------------------------------------------------------------------ single words

  /** The first word is this name, in any letter case. */
  predicate Called(args: seq<Value>, name: bytes)
  {
    args != [] && args[0].BulkString? && Upper(args[0].bulk) == name
  }

  /** Letter case: the 26 lower-case letters stand for their capitals, other bytes for themselves. */
  lemma LetterCase(s: bytes, i: nat)
    requires i < |s|
    ensures |Upper(s)| == |s|
    ensures 'a' <= s[i] <= 'z' ==> Upper(s)[i] as int == s[i] as int - 32
    ensures !('a' <= s[i] <= 'z') ==> Upper(s)[i] == s[i]
    ensures Upper("get") == Upper("Get") == Upper("GET") == "GET"
  {
  }

  // A number is a decimal text, or an integer frame.

  predicate SpellsI64(v: Value, n: i64) { v == Integer(n) || (v.BulkString? && ParseI64(v.bulk) == Some(n)) }

  predicate SpellsU64(v: Value, n: u64)
  {
    (v.Integer? && v.n == n) || (v.BulkString? && ParseU64(v.bulk) == Some(n))
  }

  predicate SpellsScore(v: Value, n: int)
  {
    (v.Integer? && v.n == n) || (v.BulkString? && ParseInt(v.bulk) == Some(n))
  }

  lemma NumbersSpelled(v: Value)
    ensures forall n: i64 :: BulkToI64(v) == Ok(n) <==> SpellsI64(v, n)
    ensures forall n: u64 :: BulkToU64(v) == Ok(n) <==> SpellsU64(v, n)
    ensures forall n: int :: BulkToScore(v) == Ok(n) <==> SpellsScore(v, n)
  {
    hide ParseInt, ParseI64, ParseU64;
  }

  // ---------------------------------------------------------------------- rows of words

  /** `NAME a`. */
  predicate OneWord(args: seq<Value>, a: bytes) { |args| == 2 && args[1] == BulkString(a) }

  /** `NAME a b`. */
  predicate TwoWords(args: seq<Value>, a: bytes, b: bytes)
  {
    |args| == 3 && args[1] == BulkString(a) && args[2] == BulkString(b)
  }

  /** `NAME a ...`, at least one of them. */
  predicate Words(args: seq<Value>, q: seq<bytes>)
  {
    q != [] && |args| == 1 + |q| && forall i :: 0 <= i < |q| ==> args[1 + i] == BulkString(q[i])
  }

  /** `NAME k a ...`, at least one of these. */
  predicate KeyWordsOf(args: seq<Value>, k: bytes, q: seq<bytes>)
  {
    && q != [] && |args| == 2 + |q| && args[1] == BulkString(k)
    && forall i :: 0 <= i < |q| ==> args[2 + i] == BulkString(q[i])
  }

  /** `NAME k start stop`. */
  predicate KeyWindow(args: seq<Value>, k: bytes, start: i64, stop: i64)
  {
    |args| == 4 && args[1] == BulkString(k) && SpellsI64(args[2], start) && SpellsI64(args[3], stop)
  }

  /** The words are these pairs, one after the other. */
  predicate Pairs(vs: seq<Value>, pairs: seq<(bytes, bytes)>)
  {
    if pairs == [] then vs == []
    else
      && |vs| >= 2 && vs[0] == BulkString(pairs[0].0) && vs[1] == BulkString(pairs[0].1)
      && Pairs(vs[2..], pairs[1..])
  }

  predicate ScoredPairs(vs: seq<Value>, pairs: seq<(int, bytes)>)
  {
    if pairs == [] then vs == []
    else
      && |vs| >= 2 && SpellsScore(vs[0], pairs[0].0) && vs[1] == BulkString(pairs[0].1)
      && ScoredPairs(vs[2..], pairs[1..])
  }

  lemma {:induction false} TextsRead(vs: seq<Value>)
    ensures BulkTexts(vs).Ok? ==> forall i :: 0 <= i < |vs| ==> vs[i] == BulkString(BulkTexts(vs).value[i])
    decreases |vs|
  {
    if vs != [] {
      TextsRead(vs[1..]);
      if BulkTexts(vs).Ok? {
        forall i | 0 <= i < |vs| ensures vs[i] == BulkString(BulkTexts(vs).value[i]) {
          if i > 0 { assert vs[i] == vs[1..][i - 1]; }
        }
      }
    }
  }

  lemma TextsSpelled(vs: seq<Value>, q: seq<bytes>)
    ensures BulkTexts(vs) == Ok(q) <==> |vs| == |q| && forall i :: 0 <= i < |q| ==> vs[i] == BulkString(q[i])
  {
    hide BulkTexts;
    TextsRead(vs);
    TextsBack(q);
    if |vs| == |q| && forall i :: 0 <= i < |q| ==> vs[i] == BulkString(q[i]) {
      assert vs == BulkStrings(q);
    }
    if BulkTexts(vs) == Ok(q) { assert vs == BulkStrings(q); }
  }

  lemma {:induction false} PairsRead(vs: seq<Value>, pairs: seq<(bytes, bytes)>)
    requires |vs| % 2 == 0
    ensures TextPairs(vs) == Ok(pairs) <==> Pairs(vs, pairs)
    decreases |vs|
  {
    if vs != [] && pairs != [] {
      PairsRead(vs[2..], pairs[1..]);
      assert pairs == [pairs[0]] + pairs[1..];
    }
  }

  lemma {:induction false} ScoresRead(vs: seq<Value>, pairs: seq<(int, bytes)>)
    requires |vs| % 2 == 0
    ensures ScorePairs(vs) == Ok(pairs) <==> ScoredPairs(vs, pairs)
    decreases |vs|
  {
    if vs != [] && pairs != [] {
      ScoresRead(vs[2..], pairs[1..]);
      NumbersSpelled(vs[0]);
      hide BulkToScore, SpellsScore;
      assert pairs == [pairs[0]] + pairs[1..];
    }
  }

  lemma {:induction false} PairsEven(vs: seq<Value>, pairs: seq<(bytes, bytes)>)
    requires Pairs(vs, pairs)
    ensures |vs| == 2 * |pairs|
    decreases |pairs|
  {
    if pairs != [] { PairsEven(vs[2..], pairs[1..]); }
  }

  lemma {:induction false} ScoredPairsEven(vs: seq<Value>, pairs: seq<(int, bytes)>)
    requires ScoredPairs(vs, pairs)
    ensures |vs| == 2 * |pairs|
    decreases |pairs|
  {
    if pairs != [] { ScoredPairsEven(vs[2..], pairs[1..]); }
  }

  // ------------------------------------------------------------------------- the grammar

  /** SET: the options in any order, at most one expiry and at most one of NX and XX. */
  ghost predicate SetSpelled(args: seq<Value>, c: Command)
    requires c.Set?
  {
    && |args| >= 3 && args[1] == BulkString(c.key) && args[2] == BulkString(c.value)
    && exists os :: WritesAll(args[3..], os) && Compatible(os) && Asks(os, None, Always, (c.px, c.condition))
  }

  /** EXPIRE: the seconds count 1000 ms each, modulo 2^64. */
  ghost predicate ExpireSpelled(args: seq<Value>, k: bytes, ms: u64)
  {
    && |args| == 3 && args[1] == BulkString(k)
    && exists secs: u64 :: SpellsU64(args[2], secs) && ms == secs * 1000 % TWO_TO_64
  }

  predicate SPopSpelled(args: seq<Value>, k: bytes, count: Option<u64>)
  {
    if count.None? then OneWord(args, k)
    else |args| == 3 && args[1] == BulkString(k) && SpellsU64(args[2], count.value)
  }

  /** The vector is a way to write the command. */
  ghost predicate Spells(args: seq<Value>, c: Command)
  {
    match c
    case Ping => Called(args, "PING")
    case Echo(msg) => Called(args, "ECHO") && OneWord(args, msg)
    case Quit => Called(args, "QUIT")
    case Info => Called(args, "INFO")
    case Get(k) => Called(args, "GET") && OneWord(args, k)
    case Set(_, _, _, _) => Called(args, "SET") && SetSpelled(args, c)
    case Del(ks) => Called(args, "DEL") && Words(args, ks)
    case Exists(ks) => Called(args, "EXISTS") && Words(args, ks)
    case Expire(k, ms) => Called(args, "EXPIRE") && ExpireSpelled(args, k, ms)
    case Ttl(k) => Called(args, "TTL") && OneWord(args, k)
    case Pttl(k) => Called(args, "PTTL") && OneWord(args, k)
    case Incr(k) => Called(args, "INCR") && OneWord(args, k)
    case Decr(k) => Called(args, "DECR") && OneWord(args, k)
    case MGet(ks) => Called(args, "MGET") && Words(args, ks)
    case MSet(entries) => Called(args, "MSET") && entries != [] && Pairs(args[1..], entries)
    case Append(k, v) => Called(args, "APPEND") && TwoWords(args, k, v)
    case StrLen(k) => Called(args, "STRLEN") && OneWord(args, k)
    case Type(k) => Called(args, "TYPE") && OneWord(args, k)
    case Keys(pattern) => Called(args, "KEYS") && OneWord(args, pattern)
    case FlushAll => Called(args, "FLUSHALL") && |args| == 1
    case LPush(k, vs) => Called(args, "LPUSH") && KeyWordsOf(args, k, vs)
    case RPush(k, vs) => Called(args, "RPUSH") && KeyWordsOf(args, k, vs)
    case LPop(k) => Called(args, "LPOP") && OneWord(args, k)
    case RPop(k) => Called(args, "RPOP") && OneWord(args, k)
    case LLen(k) => Called(args, "LLEN") && OneWord(args, k)
    case LIndex(k, i) =>
      Called(args, "LINDEX") && |args| == 3 && args[1] == BulkString(k) && SpellsI64(args[2], i)
    case LRange(k, i, j) => Called(args, "LRANGE") && KeyWindow(args, k, i, j)
    case SAdd(k, ms) => Called(args, "SADD") && KeyWordsOf(args, k, ms)
    case SRem(k, ms) => Called(args, "SREM") && KeyWordsOf(args, k, ms)
    case SMembers(k) => Called(args, "SMEMBERS") && OneWord(args, k)
    case SIsMember(k, m) => Called(args, "SISMEMBER") && TwoWords(args, k, m)
    case SCard(k) => Called(args, "SCARD") && OneWord(args, k)
    case SPop(k, count) => Called(args, "SPOP") && SPopSpelled(args, k, count)
    case HSet(k, entries) =>
      Called(args, "HSET") && entries != [] && |args| >= 2 && args[1] == BulkString(k) && Pairs(args[2..], entries)
    case HGet(k, f) => Called(args, "HGET") && TwoWords(args, k, f)
    case HDel(k, fs) => Called(args, "HDEL") && KeyWordsOf(args, k, fs)
    case HLen(k) => Called(args, "HLEN") && OneWord(args, k)
    case HExists(k, f) => Called(args, "HEXISTS") && TwoWords(args, k, f)
    case HKeys(k) => Called(args, "HKEYS") && OneWord(args, k)
    case HVals(k) => Called(args, "HVALS") && OneWord(args, k)
    case HGetAll(k) => Called(args, "HGETALL") && OneWord(args, k)
    case ZAdd(k, scored) =>
      Called(args, "ZADD") && scored != [] && |args| >= 2 && args[1] == BulkString(k) && ScoredPairs(args[2..], scored)
    case ZRange(k, i, j) => Called(args, "ZRANGE") && KeyWindow(args, k, i, j)
    case ZRevRange(k, i, j) => Called(args, "ZREVRANGE") && KeyWindow(args, k, i, j)
    case ZScore(k, m) => Called(args, "ZSCORE") && TwoWords(args, k, m)
    case ZRem(k, ms) => Called(args, "ZREM") && KeyWordsOf(args, k, ms)
    case ZCard(k) => Called(args, "ZCARD") && OneWord(args, k)
    case ZCount(k, min, max) =>
      Called(args, "ZCOUNT") && |args| == 4 && args[1] == BulkString(k)
      && SpellsScore(args[2], min) && SpellsScore(args[3], max)
  }

  // ----------------------------------------------------------- parsers with lists or numbers

  lemma WordsRead(args: seq<Value>, make: seq<bytes> -> Command, q: seq<bytes>)
    requires forall p :: make(p) == make(q) ==> p == q
    ensures ParseTexts(args, make) == Ok(make(q)) <==> Words(args, q)
  {
    hide BulkTexts;
    if |args| >= 2 {
      TextsSpelled(args[1..], q);
    }
  }

  lemma KeyWordsRead(args: seq<Value>, make: (bytes, seq<bytes>) -> Command, k: bytes, q: seq<bytes>)
    requires forall j, p :: make(j, p) == make(k, q) ==> j == k && p == q
    ensures ParseKeyTexts(args, make) == Ok(make(k, q)) <==> KeyWordsOf(args, k, q)
  {
    hide BulkTexts;
    if |args| >= 3 {
      TextsSpelled(args[2..], q);
    }
  }

  lemma MSetRead(args: seq<Value>, entries: seq<(bytes, bytes)>)
    requires args != []
    ensures ParseMSet(args) == Ok(MSet(entries)) <==> entries != [] && Pairs(args[1..], entries)
  {
    if Pairs(args[1..], entries) { PairsEven(args[1..], entries); }
    if |args| >= 3 && |args| % 2 == 1 { PairsRead(args[1..], entries); }
    if entries == [] && |args| >= 3 { assert args[1..] != []; }
    hide TextPairs;
  }

  lemma HSetRead(args: seq<Value>, k: bytes, entries: seq<(bytes, bytes)>)
    requires args != []
    ensures ParseHSet(args) == Ok(HSet(k, entries)) <==>
      (entries != [] && |args| >= 2 && args[1] == BulkString(k) && Pairs(args[2..], entries))
  {
    if |args| >= 2 && Pairs(args[2..], entries) { PairsEven(args[2..], entries); }
    if |args| >= 4 && |args| % 2 == 0 { PairsRead(args[2..], entries); }
    if entries == [] && |args| >= 4 { assert args[2..] != []; }
    hide TextPairs;
  }

  lemma ZAddRead(args: seq<Value>, k: bytes, scored: seq<(int, bytes)>)
    requires args != []
    ensures ParseZAdd(args) == Ok(ZAdd(k, scored)) <==>
      (scored != [] && |args| >= 2 && args[1] == BulkString(k) && ScoredPairs(args[2..], scored))
  {
    if |args| >= 2 && ScoredPairs(args[2..], scored) { ScoredPairsEven(args[2..], scored); }
    if |args| >= 4 && |args| % 2 == 0 { ScoresRead(args[2..], scored); }
    if scored == [] && |args| >= 4 { assert args[2..] != []; }
    hide ScorePairs;
  }

  lemma ExpireRead(args: seq<Value>, k: bytes, ms: u64)
    ensures ParseExpire(args) == Ok(Expire(k, ms)) <==> ExpireSpelled(args, k, ms)
  {
    if |args| == 3 { NumbersSpelled(args[2]); }
    hide BulkToU64, SpellsU64;
  }

  lemma LIndexRead(args: seq<Value>, k: bytes, i: i64)
    ensures ParseLIndex(args) == Ok(LIndex(k, i)) <==> |args| == 3 && args[1] == BulkString(k) && SpellsI64(args[2], i)
  {
    if |args| == 3 { NumbersSpelled(args[2]); }
    hide BulkToI64, SpellsI64;
  }

  lemma SPopRead(args: seq<Value>, k: bytes, count: Option<u64>)
    ensures ParseSPop(args) == Ok(SPop(k, count)) <==> SPopSpelled(args, k, count)
  {
    if |args| == 3 { NumbersSpelled(args[2]); }
    hide BulkToU64, SpellsU64;
  }

  lemma ZCountRead(args: seq<Value>, k: bytes, min: int, max: int)
    ensures ParseZCount(args) == Ok(ZCount(k, min, max)) <==>
      (|args| == 4 && args[1] == BulkString(k) && SpellsScore(args[2], min) && SpellsScore(args[3], max))
  {
    if |args| == 4 {
      NumbersSpelled(args[2]);
      NumbersSpelled(args[3]);
    }
    hide BulkToScore, SpellsScore;
  }

  lemma WindowRead(args: seq<Value>, make: (bytes, i64, i64) -> Command, k: bytes, start: i64, stop: i64)
    requires forall j: bytes, a: i64, b: i64 :: make(j, a, b) == make(k, start, stop) ==> j == k && a == start && b == stop
    ensures ParseWindow(args, make) == Ok(make(k, start, stop)) <==> KeyWindow(args, k, start, stop)
  {
    if |args| == 4 {
      NumbersSpelled(args[2]);
      NumbersSpelled(args[3]);
    }
    hide BulkToI64, SpellsI64;
  }

  lemma OneAnswer(os: seq<SetOption>, r: (Option<u64>, Condition), s: (Option<u64>, Condition))
    requires Compatible(os) && Asks(os, None, Always, r) && Asks(os, None, Always, s)
    ensures r == s
  {
    OneExpiry(os, r.0, s.0);
    OneCondition(os, r.1, s.1);
  }

  lemma SetRead(args: seq<Value>, c: Command)
    requires c.Set?
    ensures ParseSet(args) == Ok(c) <==> SetSpelled(args, c)
  {
    hide WritesAll, Compatible, Asks, SetOptions;
    if |args| >= 3 {
      SetGrammar(args[3..]);
      forall os | WritesAll(args[3..], os) && Compatible(os) && Asks(os, None, Always, (c.px, c.condition))
        ensures SetOptions(args[3..], None, Always) == Ok((c.px, c.condition))
      {
        OneAnswer(os, (c.px, c.condition), SetOptions(args[3..], None, Always).value);
      }
    }
  }

  // ------------------------------------------------------------------------- every command

  /** Words that name the command and parse as it. */
  ghost predicate ParsesAs(args: seq<Value>, c: Command)
  {
    Called(args, NameOf(c)) && Dispatch(NameOf(c), args) == Ok(c)
  }

  lemma KeySpelled(args: seq<Value>, c: Command)
    requires IsKeyCommand(c)
    ensures ParsesAs(args, c) <==> Spells(args, c)
  {
    hide Upper, Inhabited, ParseTexts, ParseKeyTexts, ParseWindow, ParseSet, SetSpelled, Words, KeyWordsOf, KeyWindow;
    hide ParseExpire, ParseMSet, ParseLIndex, ParseSPop, ParseHSet, ParseZAdd, ParseZCount, ExpireSpelled, SPopSpelled;
    hide SpellsI64, SpellsScore, Pairs, ScoredPairs;
    if c.Set? {
      SetRead(args, c);
    } else if c.Del? {
      WordsRead(args, ks => Del(ks), c.keys);
    } else if c.Exists? {
      WordsRead(args, ks => Exists(ks), c.keys);
    }
  }

  lemma TtlSpelled(args: seq<Value>, c: Command)
    requires IsTtlCommand(c)
    ensures ParsesAs(args, c) <==> Spells(args, c)
  {
    hide Upper, Inhabited, ParseTexts, ParseKeyTexts, ParseWindow, ParseSet, SetSpelled, Words, KeyWordsOf, KeyWindow;
    hide ParseExpire, ParseMSet, ParseLIndex, ParseSPop, ParseHSet, ParseZAdd, ParseZCount, ExpireSpelled, SPopSpelled;
    hide SpellsI64, SpellsScore, Pairs, ScoredPairs;
    if c.Expire? { ExpireRead(args, c.key, c.ms); }
  }

  lemma KeyspaceSpelled(args: seq<Value>, c: Command)
    requires IsKeyspaceCommand(c)
    ensures ParsesAs(args, c) <==> Spells(args, c)
  {
    hide Upper, Inhabited, ParseTexts, ParseKeyTexts, ParseWindow, ParseSet, SetSpelled, Words, KeyWordsOf, KeyWindow;
    hide ParseExpire, ParseMSet, ParseLIndex, ParseSPop, ParseHSet, ParseZAdd, ParseZCount, ExpireSpelled, SPopSpelled;
    hide SpellsI64, SpellsScore, Pairs, ScoredPairs;
  }

  lemma ConnectionSpelled(args: seq<Value>, c: Command)
    requires IsConnectionCommand(c)
    ensures ParsesAs(args, c) <==> Spells(args, c)
  {
    hide Upper, Inhabited, ParseTexts, ParseKeyTexts, ParseWindow, ParseSet, SetSpelled, Words, KeyWordsOf, KeyWindow;
    hide ParseExpire, ParseMSet, ParseLIndex, ParseSPop, ParseHSet, ParseZAdd, ParseZCount, ExpireSpelled, SPopSpelled;
    hide SpellsI64, SpellsScore, Pairs, ScoredPairs;
  }

  lemma CounterSpelled(args: seq<Value>, c: Command)
    requires IsCounterCommand(c)
    ensures ParsesAs(args, c) <==> Spells(args, c)
  {
    hide Upper, Inhabited, ParseTexts, ParseKeyTexts, ParseWindow, ParseSet, SetSpelled, Words, KeyWordsOf, KeyWindow;
    hide ParseExpire, ParseMSet, ParseLIndex, ParseSPop, ParseHSet, ParseZAdd, ParseZCount, ExpireSpelled, SPopSpelled;
    hide SpellsI64, SpellsScore, Pairs, ScoredPairs;
  }

  lemma TextSpelled(args: seq<Value>, c: Command)
    requires IsTextCommand(c)
    ensures ParsesAs(args, c) <==> Spells(args, c)
  {
    hide Upper, Inhabited, ParseTexts, ParseKeyTexts, ParseWindow, ParseSet, SetSpelled, Words, KeyWordsOf, KeyWindow;
    hide ParseExpire, ParseMSet, ParseLIndex, ParseSPop, ParseHSet, ParseZAdd, ParseZCount, ExpireSpelled, SPopSpelled;
    hide SpellsI64, SpellsScore, Pairs, ScoredPairs;
    hide KeyCommand, TtlCommand, KeyspaceCommand, ConnectionCommand, CounterCommand;
    LaterThanCounters(NameOf(c), args);
    if c.MGet? {
      WordsRead(args, ks => MGet(ks), c.keys);
    } else if c.MSet? && args != [] {
      MSetRead(args, c.entries);
    }
  }

  lemma ListPushSpelled(args: seq<Value>, c: Command)
    requires IsListPushCommand(c)
    ensures ParsesAs(args, c) <==> Spells(args, c)
  {
    hide Upper, Inhabited, ParseTexts, ParseKeyTexts, ParseWindow, ParseSet, SetSpelled, Words, KeyWordsOf, KeyWindow;
    hide ParseExpire, ParseMSet, ParseLIndex, ParseSPop, ParseHSet, ParseZAdd, ParseZCount, ExpireSpelled, SPopSpelled;
    hide SpellsI64, SpellsScore, Pairs, ScoredPairs;
    hide Dispatch, DispatchTable;
    ToCollection(NameOf(c), args);
    if c.LPush? {
      KeyWordsRead(args, (k, vs) => LPush(k, vs), c.key, c.vals);
    } else if c.RPush? {
      KeyWordsRead(args, (k, vs) => RPush(k, vs), c.key, c.vals);
    }
  }

  lemma ListReadSpelled(args: seq<Value>, c: Command)
    requires IsListReadCommand(c)
    ensures ParsesAs(args, c) <==> Spells(args, c)
  {
    hide Upper, Inhabited, ParseTexts, ParseKeyTexts, ParseWindow, ParseSet, SetSpelled, Words, KeyWordsOf, KeyWindow;
    hide ParseExpire, ParseMSet, ParseLIndex, ParseSPop, ParseHSet, ParseZAdd, ParseZCount, ExpireSpelled, SPopSpelled;
    hide SpellsI64, SpellsScore, Pairs, ScoredPairs;
    hide Dispatch, DispatchTable;
    ToCollection(NameOf(c), args);
    if c.LIndex? {
      LIndexRead(args, c.key, c.index);
    } else if c.LRange? {
      WindowRead(args, (k, i: i64, j: i64) => LRange(k, i, j), c.key, c.start, c.stop);
    }
  }

  lemma SetWriteSpelled(args: seq<Value>, c: Command)
    requires IsSetWriteCommand(c)
    ensures ParsesAs(args, c) <==> Spells(args, c)
  {
    hide Upper, Inhabited, ParseTexts, ParseKeyTexts, ParseWindow, ParseSet, SetSpelled, Words, KeyWordsOf, KeyWindow;
    hide ParseExpire, ParseMSet, ParseLIndex, ParseSPop, ParseHSet, ParseZAdd, ParseZCount, ExpireSpelled, SPopSpelled;
    hide SpellsI64, SpellsScore, Pairs, ScoredPairs;
    hide Dispatch, DispatchTable;
    ToCollection(NameOf(c), args);
    if c.SAdd? {
      KeyWordsRead(args, (k, ms) => SAdd(k, ms), c.key, c.members);
    } else {
      KeyWordsRead(args, (k, ms) => SRem(k, ms), c.key, c.members);
    }
  }

  lemma SetReadSpelled(args: seq<Value>, c: Command)
    requires IsSetReadCommand(c)
    ensures ParsesAs(args, c) <==> Spells(args, c)
  {
    hide Upper, Inhabited, ParseTexts, ParseKeyTexts, ParseWindow, ParseSet, SetSpelled, Words, KeyWordsOf, KeyWindow;
    hide ParseExpire, ParseMSet, ParseLIndex, ParseSPop, ParseHSet, ParseZAdd, ParseZCount, ExpireSpelled, SPopSpelled;
    hide SpellsI64, SpellsScore, Pairs, ScoredPairs;
    hide Dispatch, DispatchTable;
    ToCollection(NameOf(c), args);
    if c.SPop? { SPopRead(args, c.key, c.count); }
  }

  lemma HashSpelled(args: seq<Value>, c: Command)
    requires IsHashCommand(c)
    ensures ParsesAs(args, c) <==> Spells(args, c)
  {
    hide Upper, Inhabited, ParseTexts, ParseKeyTexts, ParseWindow, ParseSet, SetSpelled, Words, KeyWordsOf, KeyWindow;
    hide ParseExpire, ParseMSet, ParseLIndex, ParseSPop, ParseHSet, ParseZAdd, ParseZCount, ExpireSpelled, SPopSpelled;
    hide SpellsI64, SpellsScore, Pairs, ScoredPairs;
    hide Dispatch, DispatchCollection;
    ToTable(NameOf(c), args);
    if c.HSet? && args != [] {
      HSetRead(args, c.key, c.entries);
    } else if c.HDel? {
      KeyWordsRead(args, (k, fs) => HDel(k, fs), c.key, c.fields);
    }
  }

  lemma HashReadSpelled(args: seq<Value>, c: Command)
    requires IsHashReadCommand(c)
    ensures ParsesAs(args, c) <==> Spells(args, c)
  {
    hide Upper, Inhabited, ParseTexts, ParseKeyTexts, ParseWindow, ParseSet, SetSpelled, Words, KeyWordsOf, KeyWindow;
    hide ParseExpire, ParseMSet, ParseLIndex, ParseSPop, ParseHSet, ParseZAdd, ParseZCount, ExpireSpelled, SPopSpelled;
    hide SpellsI64, SpellsScore, Pairs, ScoredPairs;
    hide Dispatch, DispatchCollection;
    ToTable(NameOf(c), args);
  }

  lemma SortedSetSpelled(args: seq<Value>, c: Command)
    requires IsSortedSetCommand(c)
    ensures ParsesAs(args, c) <==> Spells(args, c)
  {
    hide Upper, Inhabited, ParseTexts, ParseKeyTexts, ParseWindow, ParseSet, SetSpelled, Words, KeyWordsOf, KeyWindow;
    hide ParseExpire, ParseMSet, ParseLIndex, ParseSPop, ParseHSet, ParseZAdd, ParseZCount, ExpireSpelled, SPopSpelled;
    hide SpellsI64, SpellsScore, Pairs, ScoredPairs;
    hide Dispatch, DispatchCollection, HashCommand, HashReadCommand;
    ToTable(NameOf(c), args);
    LaterThanHashes(NameOf(c), args);
    if c.ZAdd? && args != [] {
      ZAddRead(args, c.key, c.scored);
    } else if c.ZRange? {
      WindowRead(args, (k, i: i64, j: i64) => ZRange(k, i, j), c.key, c.start, c.stop);
    } else if c.ZRevRange? {
      WindowRead(args, (k, i: i64, j: i64) => ZRevRange(k, i, j), c.key, c.start, c.stop);
    }
  }

  lemma SortedSetReadSpelled(args: seq<Value>, c: Command)
    requires IsSortedSetReadCommand(c)
    ensures ParsesAs(args, c) <==> Spells(args, c)
  {
    hide Upper, Inhabited, ParseTexts, ParseKeyTexts, ParseWindow, ParseSet, SetSpelled, Words, KeyWordsOf, KeyWindow;
    hide ParseExpire, ParseMSet, ParseLIndex, ParseSPop, ParseHSet, ParseZAdd, ParseZCount, ExpireSpelled, SPopSpelled;
    hide SpellsI64, SpellsScore, Pairs, ScoredPairs;
    hide Dispatch, DispatchCollection, HashCommand, HashReadCommand;
    ToTable(NameOf(c), args);
    LaterThanHashes(NameOf(c), args);
    if c.ZRem? {
      KeyWordsRead(args, (k, ms) => ZRem(k, ms), c.key, c.members);
    } else if c.ZCount? {
      ZCountRead(args, c.key, c.min, c.max);
    }
  }

  /** The parser accepts exactly the vectors of the grammar, each as the command it spells. */
  lemma ParsesExactly(args: seq<Value>, c: Command)
    ensures TryFrom(args) == Ok(c) <==> Spells(args, c)
  {
    hide NameOf, Dispatch, Spells, Upper, Inhabited;
    assert TryFrom(args) == Ok(c) <==> ParsesAs(args, c);
    hide ParsesAs, TryFrom;
    if IsKeyCommand(c) {
      KeySpelled(args, c);
    } else if IsTtlCommand(c) {
      TtlSpelled(args, c);
    } else if IsKeyspaceCommand(c) {
      KeyspaceSpelled(args, c);
    } else if IsConnectionCommand(c) {
      ConnectionSpelled(args, c);
    } else if IsCounterCommand(c) {
      CounterSpelled(args, c);
    } else if IsTextCommand(c) {
      TextSpelled(args, c);
    } else if IsListPushCommand(c) {
      ListPushSpelled(args, c);
    } else if IsListReadCommand(c) {
      ListReadSpelled(args, c);
    } else if IsSetWriteCommand(c) {
      SetWriteSpelled(args, c);
    } else if IsSetReadCommand(c) {
      SetReadSpelled(args, c);
    } else if IsHashCommand(c) {
      HashSpelled(args, c);
    } else if IsHashReadCommand(c) {
      HashReadSpelled(args, c);
    } else if IsSortedSetCommand(c) {
      SortedSetSpelled(args, c);
    } else {
      SortedSetReadSpelled(args, c);
    }
  }

  /** A vector that spells no command gets an error. */
  lemma RefusedExactly(args: seq<Value>)
    ensures TryFrom(args).Err? <==> forall c :: !Spells(args, c)
  {
    hide TryFrom, Spells;
    forall c ensures TryFrom(args) == Ok(c) <==> Spells(args, c) { ParsesExactly(args, c); }
    if TryFrom(args).Ok? { assert Spells(args, TryFrom(args).value); }
  }

  /** What a client is told: an empty vector, a first word that is no text, an unknown name, and
      a wrong number of words, where GET and SET have texts of their own. */
  lemma Refusals(args: seq<Value>)
    ensures args == [] ==> TryFrom(args) == Err("ERR empty command")
    ensures args != [] && !args[0].BulkString? ==> TryFrom(args) == Err("ERR invalid command")
    ensures Called(args, "NOSUCH") ==> TryFrom(args) == Err("ERR unknown command 'NOSUCH'")
    ensures Called(args, "GET") && |args| != 2 ==> TryFrom(args) == Err("ERR wrong number of arguments for 'get'")
    ensures Called(args, "SET") && |args| < 3 ==> TryFrom(args) == Err("ERR wrong number of arguments for 'set'")
    ensures Called(args, "TTL") && |args| != 2 ==> TryFrom(args) == Err("ERR wrong number of arguments")
    ensures Called(args, "DEL") && |args| < 2 ==> TryFrom(args) == Err("ERR wrong number of arguments")
    ensures Called(args, "EXPIRE") && |args| != 3 ==> TryFrom(args) == Err("ERR wrong number of arguments")
  {
    hide Upper, Inhabited, NameOf, BulkText, BulkTexts, BulkToU64, SetOptions, DispatchCollection;
    if Called(args, "NOSUCH") { NoSuchCommand(args); }
  }

  lemma NoSuchCommand(args: seq<Value>)
    ensures Dispatch("NOSUCH", args) == Err("ERR unknown command 'NOSUCH'")
  {
    hide Upper, Inhabited, NameOf;
    assert "ERR unknown command '" + "NOSUCH" + "'" == "ERR unknown command 'NOSUCH'";
  }
}
