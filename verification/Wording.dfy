/** Commands written as words, and read back: each command that a client can ask for is the
    one its words are parsed as. */
module Wording {
  import opened Bytes
  import opened Decimal
  import opened Resp
  import opened Commands
  import opened Semantics

  /** Pairs of texts, one text after the other. */
  function PairWords(pairs: seq<(bytes, bytes)>): seq<bytes>
  {
    if pairs == [] then [] else [pairs[0].0, pairs[0].1] + PairWords(pairs[1..])
  }

  function ScoreWords(pairs: seq<(int, bytes)>): seq<bytes>
  {
    if pairs == [] then [] else [IntText(pairs[0].0), pairs[0].1] + ScoreWords(pairs[1..])
  }

  function SetWords(px: Option<u64>, condition: Condition): seq<bytes>
  {
    (if px.Some? then ["PX", IntText(px.value)] else [])
      + if condition == Nx then ["NX"] else if condition == Xx then ["XX"] else []
  }

  /** What follows the name of a command. */
  function Operands(c: Command): seq<bytes>
  {
    match c
    case Ping => []
    case Echo(msg) => [msg]
    case Quit => []
    case Info => []
    case Get(k) => [k]
    case Set(k, v, px, condition) => [k, v] + SetWords(px, condition)
    case Del(ks) => ks
    case Exists(ks) => ks
    case Expire(k, ms) => [k, IntText(ms / 1000)]
    case Ttl(k) => [k]
    case Pttl(k) => [k]
    case Incr(k) => [k]
    case Decr(k) => [k]
    case MGet(ks) => ks
    case MSet(entries) => PairWords(entries)
    case Append(k, v) => [k, v]
    case StrLen(k) => [k]
    case Type(k) => [k]
    case Keys(pattern) => [pattern]
    case FlushAll => []
    case LPush(k, vs) => [k] + vs
    case RPush(k, vs) => [k] + vs
    case LPop(k) => [k]
    case RPop(k) => [k]
    case LLen(k) => [k]
    case LIndex(k, i) => [k, IntText(i)]
    case LRange(k, i, j) => [k, IntText(i), IntText(j)]
    case SAdd(k, ms) => [k] + ms
    case SRem(k, ms) => [k] + ms
    case SMembers(k) => [k]
    case SIsMember(k, m) => [k, m]
    case SCard(k) => [k]
    case SPop(k, count) => [k] + if count.Some? then [IntText(count.value)] else []
    case HSet(k, entries) => [k] + PairWords(entries)
    case HGet(k, f) => [k, f]
    case HDel(k, fs) => [k] + fs
    case HLen(k) => [k]
    case HExists(k, f) => [k, f]
    case HKeys(k) => [k]
    case HVals(k) => [k]
    case HGetAll(k) => [k]
    case ZAdd(k, scored) => [k] + ScoreWords(scored)
    case ZRange(k, i, j) => [k, IntText(i), IntText(j)]
    case ZRevRange(k, i, j) => [k, IntText(i), IntText(j)]
    case ZScore(k, m) => [k, m]
    case ZRem(k, ms) => [k] + ms
    case ZCard(k) => [k]
    case ZCount(k, a, b) => [k, IntText(a), IntText(b)]
  }

  /** The arguments that carry a command. */
  function Args(c: Command): seq<Value> { BulkStrings([NameOf(c)] + Operands(c)) }

  /** Every list is as long as the arity asks for, and EXPIRE's lifetime is one of whole seconds. */
  predicate Expressible(c: Command)
  {
    match c
    case Del(ks) => ks != []
    case Exists(ks) => ks != []
    case MGet(ks) => ks != []
    case Expire(_, ms) => ms % 1000 == 0
    case MSet(entries) => entries != []
    case LPush(_, vs) => vs != []
    case RPush(_, vs) => vs != []
    case SAdd(_, ms) => ms != []
    case SRem(_, ms) => ms != []
    case HSet(_, entries) => entries != []
    case HDel(_, fs) => fs != []
    case ZAdd(_, scored) => scored != []
    case ZRem(_, ms) => ms != []
    case _ => true
  }

  // --------------------------------------------------------- finding the parser by its name

  lemma LaterThanCounters(cmd: bytes, args: seq<Value>)
    requires |cmd| >= 2 && (cmd[0] == 'M' || cmd[0] == 'A' || (cmd[0] == 'S' && cmd[1] == 'T'))
    ensures KeyCommand(cmd, args).None? && TtlCommand(cmd, args).None? && KeyspaceCommand(cmd, args).None?
    ensures ConnectionCommand(cmd, args).None? && CounterCommand(cmd, args).None?
  {
    hide NameOf, Inhabited;
  }

  /** The names of the commands on collections, by their first letters. */
  predicate NamesCollection(cmd: bytes)
  {
    |cmd| >= 2 && (cmd[0] == 'L' || cmd[0] == 'R' || cmd[0] == 'H' || cmd[0] == 'Z'
                   || (cmd[0] == 'S' && cmd[1] != 'E' && cmd[1] != 'T'))
  }

  lemma LaterThanTexts(cmd: bytes, args: seq<Value>)
    requires NamesCollection(cmd)
    ensures KeyCommand(cmd, args).None? && TtlCommand(cmd, args).None? && KeyspaceCommand(cmd, args).None?
    ensures ConnectionCommand(cmd, args).None? && CounterCommand(cmd, args).None? && TextCommand(cmd, args).None?
  {
    hide NameOf, Inhabited;
  }

  lemma ToCollection(cmd: bytes, args: seq<Value>)
    requires NamesCollection(cmd)
    ensures Dispatch(cmd, args) == DispatchCollection(cmd, args)
  {
    hide KeyCommand, TtlCommand, KeyspaceCommand, ConnectionCommand, CounterCommand, TextCommand;
    hide NameOf, Inhabited, NamesCollection, DispatchCollection;
    LaterThanTexts(cmd, args);
  }

  lemma LaterThanSets(cmd: bytes, args: seq<Value>)
    requires |cmd| >= 2 && (cmd[0] == 'H' || cmd[0] == 'Z')
    ensures ListPushCommand(cmd, args).None? && ListReadCommand(cmd, args).None?
    ensures SetWriteCommand(cmd, args).None? && SetReadCommand(cmd, args).None?
  {
    hide NameOf, Inhabited;
  }

  lemma ToTable(cmd: bytes, args: seq<Value>)
    requires |cmd| >= 2 && (cmd[0] == 'H' || cmd[0] == 'Z')
    ensures Dispatch(cmd, args) == DispatchTable(cmd, args)
  {
    hide ListPushCommand, ListReadCommand, SetWriteCommand, SetReadCommand, NameOf, Inhabited, Dispatch, DispatchTable;
    ToCollection(cmd, args);
    LaterThanSets(cmd, args);
  }

  lemma LaterThanHashes(cmd: bytes, args: seq<Value>)
    requires |cmd| >= 2 && cmd[0] == 'Z'
    ensures HashCommand(cmd, args).None? && HashReadCommand(cmd, args).None?
  {
    hide NameOf, Inhabited;
  }

  // ------------------------------------------------------------------ one shape at a time

  lemma ArgsOf(name: bytes, rest: seq<bytes>)
    ensures var args := BulkStrings([name] + rest);
      && |args| == |rest| + 1 && args[0] == BulkString(name) && args[1..] == BulkStrings(rest)
      && (rest != [] ==> args[1] == BulkString(rest[0]) && args[2..] == BulkStrings(rest[1..]))
      && (|rest| > 1 ==> args[2] == BulkString(rest[1]))
      && (|rest| > 2 ==> args[3] == BulkString(rest[2]) && args[3..] == BulkStrings(rest[2..]))
      && (|rest| == 2 ==> args[3..] == [])
  {
  }

  lemma {:induction false} TextsBack(q: seq<bytes>)
    ensures BulkTexts(BulkStrings(q)) == Ok(q)
    decreases |q|
  {
    if q != [] {
      assert BulkStrings(q)[1..] == BulkStrings(q[1..]);
      TextsBack(q[1..]);
      assert [q[0]] + q[1..] == q;
    }
  }

  /** `NAME key`. */
  lemma KeyWords(name: bytes, k: bytes, make: bytes -> Command, e: bytes)
    ensures ParseKey(BulkStrings([name, k]), make, e) == Ok(make(k))
  {
    ArgsOf(name, [k]);
    assert [name] + [k] == [name, k];
  }

  /** `NAME key text`. */
  lemma KeyTextWords(name: bytes, k: bytes, text: bytes, make: (bytes, bytes) -> Command)
    ensures ParseKeyText(BulkStrings([name, k, text]), make) == Ok(make(k, text))
  {
    ArgsOf(name, [k, text]);
    assert [name] + [k, text] == [name, k, text];
  }

  /** `NAME text [text ...]`. */
  lemma TextsWords(name: bytes, texts: seq<bytes>, make: seq<bytes> -> Command)
    requires texts != []
    ensures ParseTexts(BulkStrings([name] + texts), make) == Ok(make(texts))
  {
    ArgsOf(name, texts);
    TextsBack(texts);
    hide BulkStrings, BulkTexts;
  }

  /** `NAME key text [text ...]`. */
  lemma KeyTextsWords(name: bytes, k: bytes, texts: seq<bytes>, make: (bytes, seq<bytes>) -> Command)
    requires texts != []
    ensures ParseKeyTexts(BulkStrings([name] + ([k] + texts)), make) == Ok(make(k, texts))
  {
    ArgsOf(name, [k] + texts);
    assert ([k] + texts)[1..] == texts;
    TextsBack(texts);
    hide BulkStrings, BulkTexts;
  }

  /** `NAME key start stop`. */
  lemma WindowWords(name: bytes, k: bytes, i: i64, j: i64, make: (bytes, i64, i64) -> Command)
    ensures ParseWindow(BulkStrings([name, k, IntText(i), IntText(j)]), make) == Ok(make(k, i, j))
  {
    ArgsOf(name, [k, IntText(i), IntText(j)]);
    assert [name] + [k, IntText(i), IntText(j)] == [name, k, IntText(i), IntText(j)];
    I64TextRoundTrip(i);
    I64TextRoundTrip(j);
    hide BulkStrings, IntText, ParseI64;
  }

  lemma {:induction false} PairWordsBack(pairs: seq<(bytes, bytes)>)
    ensures |PairWords(pairs)| == 2 * |pairs| && TextPairs(BulkStrings(PairWords(pairs))) == Ok(pairs)
    decreases |pairs|
  {
    if pairs != [] {
      var words, rest := PairWords(pairs), PairWords(pairs[1..]);
      PairWordsBack(pairs[1..]);
      assert words == [pairs[0].0, pairs[0].1] + rest;
      assert BulkStrings(words)[2..] == BulkStrings(rest);
      assert [pairs[0]] + pairs[1..] == pairs;
    }
  }

  lemma {:induction false} ScoreWordsBack(pairs: seq<(int, bytes)>)
    ensures |ScoreWords(pairs)| == 2 * |pairs| && ScorePairs(BulkStrings(ScoreWords(pairs))) == Ok(pairs)
    decreases |pairs|
  {
    if pairs != [] {
      var words, rest := ScoreWords(pairs), ScoreWords(pairs[1..]);
      ScoreWordsBack(pairs[1..]);
      IntTextRoundTrip(pairs[0].0);
      hide IntText, ParseInt;
      assert words == [IntText(pairs[0].0), pairs[0].1] + rest;
      assert BulkStrings(words)[2..] == BulkStrings(rest);
      assert [pairs[0]] + pairs[1..] == pairs;
    }
  }

  // ------------------------------------------------------------------ the parsers with loops

  lemma SetWordsParse(k: bytes, v: bytes, px: Option<u64>, condition: Condition)
    ensures ParseSet(Args(Set(k, v, px, condition))) == Ok(Set(k, v, px, condition))
  {
    var words := SetWords(px, condition);
    ArgsOf("SET", [k, v] + words);
    assert ([k, v] + words)[2..] == words;
    SetOptionsBack(px, condition);
    hide BulkStrings, SetOptions, SetWords;
  }

  lemma ExpiryBack(ms: u64, rest: seq<Value>)
    ensures SetOptions([BulkString("PX"), BulkString(IntText(ms))] + rest, None, Always) ==
      SetOptions(rest, Some(ms), Always)
  {
    hide IntText, ParseU64;
    var words := [BulkString("PX"), BulkString(IntText(ms))] + rest;
    assert words[2..] == rest && Upper("PX") == "PX";
    U64TextRoundTrip(ms);
  }

  lemma SetOptionsBack(px: Option<u64>, condition: Condition)
    ensures SetOptions(BulkStrings(SetWords(px, condition)), None, Always) == Ok((px, condition))
  {
    hide SetOptions, IntText;
    var last := if condition == Nx then ["NX"] else if condition == Xx then ["XX"] else [];
    ConditionBack(px, condition);
    if px.Some? {
      ExpiryBack(px.value, BulkStrings(last));
      assert BulkStrings(["PX", IntText(px.value)] + last) ==
        [BulkString("PX"), BulkString(IntText(px.value))] + BulkStrings(last);
    } else {
      assert [] + last == last;
    }
  }

  lemma ConditionBack(px: Option<u64>, condition: Condition)
    ensures var last: seq<bytes> := if condition == Nx then ["NX"] else if condition == Xx then ["XX"] else [];
      SetOptions(BulkStrings(last), px, Always) == Ok((px, condition))
  {
    assert Upper("NX") == "NX" && Upper("XX") == "XX";
    assert BulkStrings(["NX"])[1..] == [] && BulkStrings(["XX"])[1..] == [];
  }

  lemma MSetWordsParse(entries: seq<(bytes, bytes)>)
    requires entries != []
    ensures ParseMSet(Args(MSet(entries))) == Ok(MSet(entries))
  {
    PairWordsBack(entries);
    ArgsOf("MSET", PairWords(entries));
    hide BulkStrings, PairWords, TextPairs;
  }

  lemma HSetArgs(args: seq<Value>, key: bytes, pairs: seq<(bytes, bytes)>)
    requires |args| >= 4 && |args| % 2 == 0 && args[1] == BulkString(key) && TextPairs(args[2..]) == Ok(pairs)
    ensures ParseHSet(args) == Ok(HSet(key, pairs))
  {
    hide TextPairs;
  }

  lemma HSetWordsParse(k: bytes, entries: seq<(bytes, bytes)>)
    requires entries != []
    ensures ParseHSet(Args(HSet(k, entries))) == Ok(HSet(k, entries))
  {
    hide BulkStrings, PairWords, TextPairs, ParseHSet;
    PairWordsBack(entries);
    ArgsOf("HSET", [k] + PairWords(entries));
    assert ([k] + PairWords(entries))[1..] == PairWords(entries);
    HSetArgs(Args(HSet(k, entries)), k, entries);
  }

  lemma ZAddArgs(args: seq<Value>, key: bytes, pairs: seq<(int, bytes)>)
    requires |args| >= 4 && |args| % 2 == 0 && args[1] == BulkString(key) && ScorePairs(args[2..]) == Ok(pairs)
    ensures ParseZAdd(args) == Ok(ZAdd(key, pairs))
  {
    hide ScorePairs;
  }

  lemma ZAddWordsParse(k: bytes, scored: seq<(int, bytes)>)
    requires scored != []
    ensures ParseZAdd(Args(ZAdd(k, scored))) == Ok(ZAdd(k, scored))
  {
    hide BulkStrings, ScoreWords, ScorePairs, ParseZAdd;
    ScoreWordsBack(scored);
    ArgsOf("ZADD", [k] + ScoreWords(scored));
    assert ([k] + ScoreWords(scored))[1..] == ScoreWords(scored);
    ZAddArgs(Args(ZAdd(k, scored)), k, scored);
  }

  lemma ZCountWordsParse(k: bytes, min: int, max: int)
    ensures ParseZCount(Args(ZCount(k, min, max))) == Ok(ZCount(k, min, max))
  {
    ArgsOf("ZCOUNT", [k, IntText(min), IntText(max)]);
    IntTextRoundTrip(min);
    IntTextRoundTrip(max);
    hide BulkStrings, IntText, ParseInt;
  }

  lemma ExpireWordsParse(k: bytes, ms: u64)
    requires ms % 1000 == 0
    ensures ParseExpire(Args(Expire(k, ms))) == Ok(Expire(k, ms))
  {
    ArgsOf("EXPIRE", [k, IntText(ms / 1000)]);
    U64TextRoundTrip(ms / 1000);
    hide BulkStrings, IntText, ParseU64, AsU64;
  }

  lemma LIndexWordsParse(k: bytes, index: i64)
    ensures ParseLIndex(Args(LIndex(k, index))) == Ok(LIndex(k, index))
  {
    ArgsOf("LINDEX", [k, IntText(index)]);
    I64TextRoundTrip(index);
    hide BulkStrings, IntText, ParseI64;
  }

  lemma SPopOne(k: bytes)
    ensures ParseSPop(BulkStrings(["SPOP", k])) == Ok(SPop(k, None))
  {
    hide BulkStrings;
    assert ["SPOP"] + [k] == ["SPOP", k];
    ArgsOf("SPOP", [k]);
  }

  lemma SPopMany(k: bytes, n: u64)
    ensures ParseSPop(BulkStrings(["SPOP", k, IntText(n)])) == Ok(SPop(k, Some(n)))
  {
    hide BulkStrings, IntText, ParseU64;
    assert ["SPOP"] + [k, IntText(n)] == ["SPOP", k, IntText(n)];
    ArgsOf("SPOP", [k, IntText(n)]);
    U64TextRoundTrip(n);
  }

  lemma SPopWordsParse(k: bytes, count: Option<u64>)
    ensures ParseSPop(Args(SPop(k, count))) == Ok(SPop(k, count))
  {
    hide BulkStrings, IntText, ParseSPop;
    if count.Some? {
      assert ["SPOP"] + ([k] + [IntText(count.value)]) == ["SPOP", k, IntText(count.value)];
      SPopMany(k, count.value);
    } else {
      assert ["SPOP"] + ([k] + []) == ["SPOP", k];
      SPopOne(k);
    }
  }

  // ------------------------------------------------------------------------- every command

  predicate IsKeyCommand(c: Command) { c.Get? || c.Set? || c.Del? || c.Exists? }

  lemma KeyCommandWords(c: Command)
    requires Expressible(c) && IsKeyCommand(c)
    ensures Dispatch(NameOf(c), Args(c)) == Ok(c)
  {
    hide BulkStrings, ParseKey, ParseSet, ParseTexts;
    if c.Get? {
      assert ["GET"] + [c.key] == ["GET", c.key];
      KeyWords("GET", c.key, k => Get(k), "ERR wrong number of arguments for 'get'");
    } else if c.Set? {
      SetWordsParse(c.key, c.value, c.px, c.condition);
    } else if c.Del? {
      TextsWords("DEL", c.keys, ks => Del(ks));
    } else {
      TextsWords("EXISTS", c.keys, ks => Exists(ks));
    }
  }

  predicate IsTtlCommand(c: Command) { c.Expire? || c.Ttl? || c.Pttl? }

  lemma TtlCommandWords(c: Command)
    requires Expressible(c) && IsTtlCommand(c)
    ensures Dispatch(NameOf(c), Args(c)) == Ok(c)
  {
    hide BulkStrings, ParseKey, ParseKeyText, ParseTexts, ParseKeyTexts, ParseWindow, IntText;
    hide ParseExpire, ParseMSet, ParseLIndex, ParseSPop, ParseHSet, ParseZAdd, ParseZCount;
    if c.Expire? {
      ExpireWordsParse(c.key, c.ms);
    } else if c.Ttl? {
      assert ["TTL"] + [c.key] == ["TTL", c.key];
      KeyWords("TTL", c.key, k => Ttl(k), WRONG_ARITY);
    } else {
      assert ["PTTL"] + [c.key] == ["PTTL", c.key];
      KeyWords("PTTL", c.key, k => Pttl(k), WRONG_ARITY);
    }
  }

  predicate IsKeyspaceCommand(c: Command) { c.Type? || c.Keys? || c.FlushAll? }

  lemma KeyspaceCommandWords(c: Command)
    requires Expressible(c) && IsKeyspaceCommand(c)
    ensures Dispatch(NameOf(c), Args(c)) == Ok(c)
  {
    hide BulkStrings, ParseKey, ParseKeyText, ParseTexts, ParseKeyTexts, ParseWindow, IntText;
    hide ParseExpire, ParseMSet, ParseLIndex, ParseSPop, ParseHSet, ParseZAdd, ParseZCount;
    if c.Type? {
      assert ["TYPE"] + [c.key] == ["TYPE", c.key];
      KeyWords("TYPE", c.key, k => Type(k), WRONG_ARITY);
    } else if c.Keys? {
      assert ["KEYS"] + [c.pattern] == ["KEYS", c.pattern];
      KeyWords("KEYS", c.pattern, k => Keys(k), WRONG_ARITY);
    } else {
      ArgsOf("FLUSHALL", []);
    }
  }

  predicate IsConnectionCommand(c: Command) { c.Ping? || c.Echo? || c.Info? || c.Quit? }

  lemma ConnectionCommandWords(c: Command)
    requires Expressible(c) && IsConnectionCommand(c)
    ensures Dispatch(NameOf(c), Args(c)) == Ok(c)
  {
    hide BulkStrings, ParseKey, ParseKeyText, ParseTexts, ParseKeyTexts, ParseWindow, IntText;
    hide ParseExpire, ParseMSet, ParseLIndex, ParseSPop, ParseHSet, ParseZAdd, ParseZCount;
    if c.Ping? {
    } else if c.Echo? {
      ArgsOf("ECHO", [c.msg]);
    } else if c.Info? {
    } else {
    }
  }

  predicate IsCounterCommand(c: Command) { c.Incr? || c.Decr? }

  lemma CounterCommandWords(c: Command)
    requires Expressible(c) && IsCounterCommand(c)
    ensures Dispatch(NameOf(c), Args(c)) == Ok(c)
  {
    hide BulkStrings, ParseKey, ParseKeyText, ParseTexts, ParseKeyTexts, ParseWindow, IntText;
    hide ParseExpire, ParseMSet, ParseLIndex, ParseSPop, ParseHSet, ParseZAdd, ParseZCount;
    if c.Incr? {
      assert ["INCR"] + [c.key] == ["INCR", c.key];
      KeyWords("INCR", c.key, k => Incr(k), WRONG_ARITY);
    } else {
      assert ["DECR"] + [c.key] == ["DECR", c.key];
      KeyWords("DECR", c.key, k => Decr(k), WRONG_ARITY);
    }
  }

  predicate IsTextCommand(c: Command) { c.MGet? || c.MSet? || c.Append? || c.StrLen? }

  lemma TextCommandWords(c: Command)
    requires Expressible(c) && IsTextCommand(c)
    ensures Dispatch(NameOf(c), Args(c)) == Ok(c)
  {
    hide BulkStrings, ParseKey, ParseKeyText, ParseTexts, ParseKeyTexts, ParseWindow, IntText;
    hide ParseExpire, ParseMSet, ParseLIndex, ParseSPop, ParseHSet, ParseZAdd, ParseZCount;
    hide KeyCommand, TtlCommand, KeyspaceCommand, ConnectionCommand, CounterCommand;
    LaterThanCounters(NameOf(c), Args(c));
    if c.MGet? {
      TextsWords("MGET", c.keys, ks => MGet(ks));
    } else if c.MSet? {
      MSetWordsParse(c.entries);
    } else if c.Append? {
      assert ["APPEND"] + [c.key, c.value] == ["APPEND", c.key, c.value];
      KeyTextWords("APPEND", c.key, c.value, (k, x) => Append(k, x));
    } else {
      assert ["STRLEN"] + [c.key] == ["STRLEN", c.key];
      KeyWords("STRLEN", c.key, k => StrLen(k), WRONG_ARITY);
    }
  }

  predicate IsListPushCommand(c: Command) { c.LPush? || c.RPush? || c.LPop? || c.RPop? }

  lemma ListPushCommandWords(c: Command)
    requires Expressible(c) && IsListPushCommand(c)
    ensures Dispatch(NameOf(c), Args(c)) == Ok(c)
  {
    hide BulkStrings, ParseKey, ParseKeyText, ParseTexts, ParseKeyTexts, ParseWindow, IntText;
    hide ParseExpire, ParseMSet, ParseLIndex, ParseSPop, ParseHSet, ParseZAdd, ParseZCount;
    hide Dispatch, DispatchTable;
    ToCollection(NameOf(c), Args(c));
    if c.LPush? {
      KeyTextsWords("LPUSH", c.key, c.vals, (k, xs) => LPush(k, xs));
    } else if c.RPush? {
      KeyTextsWords("RPUSH", c.key, c.vals, (k, xs) => RPush(k, xs));
    } else if c.LPop? {
      assert ["LPOP"] + [c.key] == ["LPOP", c.key];
      KeyWords("LPOP", c.key, k => LPop(k), WRONG_ARITY);
    } else {
      assert ["RPOP"] + [c.key] == ["RPOP", c.key];
      KeyWords("RPOP", c.key, k => RPop(k), WRONG_ARITY);
    }
  }

  predicate IsListReadCommand(c: Command) { c.LLen? || c.LIndex? || c.LRange? }

  lemma ListReadCommandWords(c: Command)
    requires Expressible(c) && IsListReadCommand(c)
    ensures Dispatch(NameOf(c), Args(c)) == Ok(c)
  {
    hide BulkStrings, ParseKey, ParseKeyText, ParseTexts, ParseKeyTexts, ParseWindow, IntText;
    hide ParseExpire, ParseMSet, ParseLIndex, ParseSPop, ParseHSet, ParseZAdd, ParseZCount;
    hide Dispatch, DispatchTable;
    ToCollection(NameOf(c), Args(c));
    if c.LLen? {
      assert ["LLEN"] + [c.key] == ["LLEN", c.key];
      KeyWords("LLEN", c.key, k => LLen(k), WRONG_ARITY);
    } else if c.LIndex? {
      LIndexWordsParse(c.key, c.index);
    } else {
      assert ["LRANGE"] + [c.key, IntText(c.start), IntText(c.stop)] ==
        ["LRANGE", c.key, IntText(c.start), IntText(c.stop)];
      WindowWords("LRANGE", c.key, c.start, c.stop, (k, i: i64, j: i64) => LRange(k, i, j));
    }
  }

  predicate IsSetWriteCommand(c: Command) { c.SAdd? || c.SRem? }

  lemma SetWriteCommandWords(c: Command)
    requires Expressible(c) && IsSetWriteCommand(c)
    ensures Dispatch(NameOf(c), Args(c)) == Ok(c)
  {
    hide BulkStrings, ParseKey, ParseKeyText, ParseTexts, ParseKeyTexts, ParseWindow, IntText;
    hide ParseExpire, ParseMSet, ParseLIndex, ParseSPop, ParseHSet, ParseZAdd, ParseZCount;
    hide Dispatch, DispatchTable;
    ToCollection(NameOf(c), Args(c));
    if c.SAdd? {
      KeyTextsWords("SADD", c.key, c.members, (k, xs) => SAdd(k, xs));
    } else {
      KeyTextsWords("SREM", c.key, c.members, (k, xs) => SRem(k, xs));
    }
  }

  predicate IsSetReadCommand(c: Command) { c.SMembers? || c.SIsMember? || c.SCard? || c.SPop? }

  lemma SetReadCommandWords(c: Command)
    requires Expressible(c) && IsSetReadCommand(c)
    ensures Dispatch(NameOf(c), Args(c)) == Ok(c)
  {
    hide BulkStrings, ParseKey, ParseKeyText, ParseTexts, ParseKeyTexts, ParseWindow, IntText;
    hide ParseExpire, ParseMSet, ParseLIndex, ParseSPop, ParseHSet, ParseZAdd, ParseZCount;
    hide Dispatch, DispatchTable;
    ToCollection(NameOf(c), Args(c));
    if c.SMembers? {
      assert ["SMEMBERS"] + [c.key] == ["SMEMBERS", c.key];
      KeyWords("SMEMBERS", c.key, k => SMembers(k), WRONG_ARITY);
    } else if c.SIsMember? {
      assert ["SISMEMBER"] + [c.key, c.member] == ["SISMEMBER", c.key, c.member];
      KeyTextWords("SISMEMBER", c.key, c.member, (k, x) => SIsMember(k, x));
    } else if c.SCard? {
      assert ["SCARD"] + [c.key] == ["SCARD", c.key];
      KeyWords("SCARD", c.key, k => SCard(k), WRONG_ARITY);
    } else {
      SPopWordsParse(c.key, c.count);
    }
  }

  predicate IsHashCommand(c: Command) { c.HSet? || c.HGet? || c.HDel? || c.HLen? }

  lemma HashCommandWords(c: Command)
    requires Expressible(c) && IsHashCommand(c)
    ensures Dispatch(NameOf(c), Args(c)) == Ok(c)
  {
    hide BulkStrings, ParseKey, ParseKeyText, ParseTexts, ParseKeyTexts, ParseWindow, IntText;
    hide ParseExpire, ParseMSet, ParseLIndex, ParseSPop, ParseHSet, ParseZAdd, ParseZCount;
    hide Dispatch, DispatchCollection;
    ToTable(NameOf(c), Args(c));
    if c.HSet? {
      HSetWordsParse(c.key, c.entries);
    } else if c.HGet? {
      assert ["HGET"] + [c.key, c.field] == ["HGET", c.key, c.field];
      KeyTextWords("HGET", c.key, c.field, (k, x) => HGet(k, x));
    } else if c.HDel? {
      KeyTextsWords("HDEL", c.key, c.fields, (k, xs) => HDel(k, xs));
    } else {
      assert ["HLEN"] + [c.key] == ["HLEN", c.key];
      KeyWords("HLEN", c.key, k => HLen(k), WRONG_ARITY);
    }
  }

  predicate IsHashReadCommand(c: Command) { c.HExists? || c.HKeys? || c.HVals? || c.HGetAll? }

  lemma HashReadCommandWords(c: Command)
    requires Expressible(c) && IsHashReadCommand(c)
    ensures Dispatch(NameOf(c), Args(c)) == Ok(c)
  {
    hide BulkStrings, ParseKey, ParseKeyText, ParseTexts, ParseKeyTexts, ParseWindow, IntText;
    hide ParseExpire, ParseMSet, ParseLIndex, ParseSPop, ParseHSet, ParseZAdd, ParseZCount;
    hide Dispatch, DispatchCollection;
    ToTable(NameOf(c), Args(c));
    if c.HExists? {
      assert ["HEXISTS"] + [c.key, c.field] == ["HEXISTS", c.key, c.field];
      KeyTextWords("HEXISTS", c.key, c.field, (k, x) => HExists(k, x));
    } else if c.HKeys? {
      assert ["HKEYS"] + [c.key] == ["HKEYS", c.key];
      KeyWords("HKEYS", c.key, k => HKeys(k), WRONG_ARITY);
    } else if c.HVals? {
      assert ["HVALS"] + [c.key] == ["HVALS", c.key];
      KeyWords("HVALS", c.key, k => HVals(k), WRONG_ARITY);
    } else {
      assert ["HGETALL"] + [c.key] == ["HGETALL", c.key];
      KeyWords("HGETALL", c.key, k => HGetAll(k), WRONG_ARITY);
    }
  }

  predicate IsSortedSetCommand(c: Command) { c.ZAdd? || c.ZRange? || c.ZRevRange? || c.ZScore? }

  lemma SortedSetCommandWords(c: Command)
    requires Expressible(c) && IsSortedSetCommand(c)
    ensures Dispatch(NameOf(c), Args(c)) == Ok(c)
  {
    hide BulkStrings, ParseKey, ParseKeyText, ParseTexts, ParseKeyTexts, ParseWindow, IntText;
    hide ParseExpire, ParseMSet, ParseLIndex, ParseSPop, ParseHSet, ParseZAdd, ParseZCount;
    hide Dispatch, DispatchCollection, HashCommand, HashReadCommand;
    ToTable(NameOf(c), Args(c));
    LaterThanHashes(NameOf(c), Args(c));
    if c.ZAdd? {
      ZAddWordsParse(c.key, c.scored);
    } else if c.ZRange? {
      assert ["ZRANGE"] + [c.key, IntText(c.start), IntText(c.stop)] ==
        ["ZRANGE", c.key, IntText(c.start), IntText(c.stop)];
      WindowWords("ZRANGE", c.key, c.start, c.stop, (k, i: i64, j: i64) => ZRange(k, i, j));
    } else if c.ZRevRange? {
      assert ["ZREVRANGE"] + [c.key, IntText(c.start), IntText(c.stop)] ==
        ["ZREVRANGE", c.key, IntText(c.start), IntText(c.stop)];
      WindowWords("ZREVRANGE", c.key, c.start, c.stop, (k, i: i64, j: i64) => ZRevRange(k, i, j));
    } else {
      assert ["ZSCORE"] + [c.key, c.member] == ["ZSCORE", c.key, c.member];
      KeyTextWords("ZSCORE", c.key, c.member, (k, x) => ZScore(k, x));
    }
  }

  predicate IsSortedSetReadCommand(c: Command) { c.ZRem? || c.ZCard? || c.ZCount? }

  lemma SortedSetReadCommandWords(c: Command)
    requires Expressible(c) && IsSortedSetReadCommand(c)
    ensures Dispatch(NameOf(c), Args(c)) == Ok(c)
  {
    hide BulkStrings, ParseKey, ParseKeyText, ParseTexts, ParseKeyTexts, ParseWindow, IntText;
    hide ParseExpire, ParseMSet, ParseLIndex, ParseSPop, ParseHSet, ParseZAdd, ParseZCount;
    hide Dispatch, DispatchCollection, HashCommand, HashReadCommand;
    ToTable(NameOf(c), Args(c));
    LaterThanHashes(NameOf(c), Args(c));
    if c.ZRem? {
      KeyTextsWords("ZREM", c.key, c.members, (k, xs) => ZRem(k, xs));
    } else if c.ZCard? {
      assert ["ZCARD"] + [c.key] == ["ZCARD", c.key];
      KeyWords("ZCARD", c.key, k => ZCard(k), WRONG_ARITY);
    } else {
      ZCountWordsParse(c.key, c.min, c.max);
    }
  }

  predicate NoLower(s: bytes) { forall i :: 0 <= i < |s| ==> !IsLower(s[i]) }

  lemma UpperOf(s: bytes)
    requires NoLower(s)
    ensures Upper(s) == s
  {
  }

  lemma PlainNames(c: Command)
    requires IsKeyCommand(c) || IsTtlCommand(c) || IsKeyspaceCommand(c) || IsConnectionCommand(c) || IsCounterCommand(c)
    ensures NoLower(NameOf(c))
  {
  }

  lemma TextNames(c: Command)
    requires IsTextCommand(c) || IsListReadCommand(c)
    ensures NoLower(NameOf(c))
  {
  }

  lemma ListNames(c: Command)
    requires IsListPushCommand(c) || IsSetWriteCommand(c)
    ensures NoLower(NameOf(c))
  {
  }

  lemma SetNames(c: Command)
    requires IsSetReadCommand(c)
    ensures NoLower(NameOf(c))
  {
  }

  lemma HashNames(c: Command)
    requires IsHashCommand(c)
    ensures NoLower(NameOf(c))
  {
  }

  lemma HashReadNames(c: Command)
    requires IsHashReadCommand(c)
    ensures NoLower(NameOf(c))
  {
  }

  lemma SortedSetNames(c: Command)
    requires IsSortedSetCommand(c)
    ensures NoLower(NameOf(c))
  {
  }

  lemma SortedSetReadNames(c: Command)
    requires IsSortedSetReadCommand(c)
    ensures NoLower(NameOf(c))
  {
  }

  lemma UpperNames(c: Command)
    ensures Upper(NameOf(c)) == NameOf(c)
  {
    hide NameOf, NoLower, Upper;
    if IsHashCommand(c) {
      HashNames(c);
    } else if IsHashReadCommand(c) {
      HashReadNames(c);
    } else if IsSortedSetCommand(c) {
      SortedSetNames(c);
    } else if IsSortedSetReadCommand(c) {
      SortedSetReadNames(c);
    } else if IsTextCommand(c) || IsListReadCommand(c) {
      TextNames(c);
    } else if IsListPushCommand(c) || IsSetWriteCommand(c) {
      ListNames(c);
    } else if IsSetReadCommand(c) {
      SetNames(c);
    } else {
      PlainNames(c);
    }
    UpperOf(NameOf(c));
  }

  /** Printing then parsing a command gives it back, all of its operands in their places. */
  lemma WordsParse(c: Command)
    requires Expressible(c)
    ensures TryFrom(Args(c)) == Ok(c)
  {
    UpperNames(c);
    ArgsOf(NameOf(c), Operands(c));
    hide NameOf, Operands, Dispatch, Expressible, BulkStrings;
    if IsKeyCommand(c) {
      KeyCommandWords(c);
    } else if IsTtlCommand(c) {
      TtlCommandWords(c);
    } else if IsKeyspaceCommand(c) {
      KeyspaceCommandWords(c);
    } else if IsConnectionCommand(c) {
      ConnectionCommandWords(c);
    } else if IsCounterCommand(c) {
      CounterCommandWords(c);
    } else if IsTextCommand(c) {
      TextCommandWords(c);
    } else if IsListPushCommand(c) {
      ListPushCommandWords(c);
    } else if IsListReadCommand(c) {
      ListReadCommandWords(c);
    } else if IsSetWriteCommand(c) {
      SetWriteCommandWords(c);
    } else if IsSetReadCommand(c) {
      SetReadCommandWords(c);
    } else if IsHashCommand(c) {
      HashCommandWords(c);
    } else if IsHashReadCommand(c) {
      HashReadCommandWords(c);
    } else if IsSortedSetCommand(c) {
      SortedSetCommandWords(c);
    } else {
      SortedSetReadCommandWords(c);
    }
  }
}
