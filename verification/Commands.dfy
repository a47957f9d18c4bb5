/** From an argument vector to a command. Text arguments are their UTF-8 bytes. */
module Commands {
  import opened Bytes
  import opened Decimal
  import opened Resp

  datatype Condition = Always | Nx | Xx

  datatype Command =
    | Ping | Echo(msg: bytes) | Quit | Info
    // strings and keys
    | Get(key: bytes)
    | Set(key: bytes, value: bytes, px: Option<u64>, condition: Condition)
    | Del(keys: seq<bytes>)
    | Exists(keys: seq<bytes>)
    | Expire(key: bytes, ms: u64)
    | Ttl(key: bytes)
    | Pttl(key: bytes)
    | Incr(key: bytes)
    | Decr(key: bytes)
    | MGet(keys: seq<bytes>)
    | MSet(entries: seq<(bytes, bytes)>)
    | Append(key: bytes, value: bytes)
    | StrLen(key: bytes)
    | Type(key: bytes)
    | Keys(pattern: bytes)
    | FlushAll
    // lists
    | LPush(key: bytes, vals: seq<bytes>)
    | RPush(key: bytes, vals: seq<bytes>)
    | LPop(key: bytes)
    | RPop(key: bytes)
    | LLen(key: bytes)
    | LIndex(key: bytes, index: i64)
    | LRange(key: bytes, start: i64, stop: i64)
    // sets
    | SAdd(key: bytes, members: seq<bytes>)
    | SRem(key: bytes, members: seq<bytes>)
    | SMembers(key: bytes)
    | SIsMember(key: bytes, member: bytes)
    | SCard(key: bytes)
    | SPop(key: bytes, count: Option<u64>)
    // hashes
    | HSet(key: bytes, entries: seq<(bytes, bytes)>)
    | HGet(key: bytes, field: bytes)
    | HDel(key: bytes, fields: seq<bytes>)
    | HLen(key: bytes)
    | HExists(key: bytes, field: bytes)
    | HKeys(key: bytes)
    | HVals(key: bytes)
    | HGetAll(key: bytes)
    // sorted sets
    | ZAdd(key: bytes, scored: seq<(int, bytes)>)
    | ZRange(key: bytes, start: i64, stop: i64)
    | ZRevRange(key: bytes, start: i64, stop: i64)
    | ZScore(key: bytes, member: bytes)
    | ZRem(key: bytes, members: seq<bytes>)
    | ZCard(key: bytes)
    | ZCount(key: bytes, min: int, max: int)

  /** A parser's outcome: a command, or the text of the error reply. */
  type Outcome = Result<Command, bytes>

  // -------------------------------------------------------------- arguments

  /** `bulk_to_string` and `bulk_to_bytes`, which agree on UTF-8. */
  function BulkText(v: Value): Result<bytes, bytes>
  {
    if v.BulkString? then Ok(v.bulk) else Err("ERR value is not string")
  }

  function BulkTexts(vs: seq<Value>): (r: Result<seq<bytes>, bytes>)
    ensures r.Ok? ==> |r.value| == |vs|
  {
    if vs == [] then Ok([])
    else
      var first :- BulkText(vs[0]);
      var rest :- BulkTexts(vs[1..]);
      Ok([first] + rest)
  }

  const NOT_INTEGER: bytes := "ERR value is not integer"

  function BulkToU64(v: Value): Result<u64, bytes>
  {
    match v
    case BulkString(b) =>
      (match ParseU64(b)
       case Some(n) => Ok(n)
       case None => Err(NOT_INTEGER))
    case Integer(i) => if i >= 0 then Ok(i) else Err(NOT_INTEGER)
    case _ => Err(NOT_INTEGER)
  }

  function BulkToI64(v: Value): Result<i64, bytes>
  {
    match v
    case BulkString(b) =>
      (match ParseI64(b)
       case Some(n) => Ok(n)
       case None => Err(NOT_INTEGER))
    case Integer(i) => Ok(i)
    case _ => Err(NOT_INTEGER)
  }

  /** `bulk_to_f64`, with integers for scores. */
  function BulkToScore(v: Value): Result<int, bytes>
  {
    match v
    case BulkString(b) =>
      (match ParseInt(b)
       case Some(n) => Ok(n)
       case None => Err("ERR value is not float"))
    case Integer(i) => Ok(i)
    case _ => Err("ERR value is not float")
  }

  const WRONG_ARITY: bytes := "ERR wrong number of arguments"

  const SYNTAX_ERROR: bytes := "ERR syntax error"

  // ---------------------------------------------------- commands by their shape

  /** `NAME key`. */
  function ParseKey(args: seq<Value>, make: bytes -> Command, arityError: bytes): Outcome
  {
    if |args| != 2 then Err(arityError)
    else var key :- BulkText(args[1]); Ok(make(key))
  }

  /** `NAME key text`. */
  function ParseKeyText(args: seq<Value>, make: (bytes, bytes) -> Command): Outcome
  {
    if |args| != 3 then Err(WRONG_ARITY)
    else
      var key :- BulkText(args[1]);
      var text :- BulkText(args[2]);
      Ok(make(key, text))
  }

  /** `NAME text [text ...]`. */
  function ParseTexts(args: seq<Value>, make: seq<bytes> -> Command): Outcome
  {
    if |args| < 2 then Err(WRONG_ARITY)
    else var texts :- BulkTexts(args[1..]); Ok(make(texts))
  }

  /** `NAME key text [text ...]`. */
  function ParseKeyTexts(args: seq<Value>, make: (bytes, seq<bytes>) -> Command): Outcome
  {
    if |args| < 3 then Err(WRONG_ARITY)
    else
      var key :- BulkText(args[1]);
      var texts :- BulkTexts(args[2..]);
      Ok(make(key, texts))
  }

  /** `NAME key start stop`. */
  function ParseWindow(args: seq<Value>, make: (bytes, i64, i64) -> Command): Outcome
  {
    if |args| != 4 then Err(WRONG_ARITY)
    else
      var key :- BulkText(args[1]);
      var start :- BulkToI64(args[2]);
      var stop :- BulkToI64(args[3]);
      Ok(make(key, start, stop))
  }

  /** The pairs of `chunks(2)`, stopping at the first element that is not text. */
  function TextPairs(vs: seq<Value>): Result<seq<(bytes, bytes)>, bytes>
    requires |vs| % 2 == 0
    decreases |vs|
  {
    if vs == [] then Ok([])
    else
      var first :- BulkText(vs[0]);
      var second :- BulkText(vs[1]);
      var rest :- TextPairs(vs[2..]);
      Ok([(first, second)] + rest)
  }

  function ScorePairs(vs: seq<Value>): Result<seq<(int, bytes)>, bytes>
    requires |vs| % 2 == 0
    decreases |vs|
  {
    if vs == [] then Ok([])
    else
      var score :- BulkToScore(vs[0]);
      var member :- BulkText(vs[1]);
      var rest :- ScorePairs(vs[2..]);
      Ok([(score, member)] + rest)
  }

  function ParseEcho(args: seq<Value>): Outcome
  {
    if |args| != 2 then Err(WRONG_ARITY)
    else var msg :- BulkText(args[1]); Ok(Echo(msg))
  }

  /** Seconds to milliseconds, unchecked: release arithmetic wraps modulo 2^64. */
  function ParseExpire(args: seq<Value>): Outcome
  {
    if |args| != 3 then Err(WRONG_ARITY)
    else
      var key :- BulkText(args[1]);
      var secs :- BulkToU64(args[2]);
      Ok(Expire(key, AsU64(secs * 1000)))
  }

  function ParseLIndex(args: seq<Value>): Outcome
  {
    if |args| != 3 then Err(WRONG_ARITY)
    else
      var key :- BulkText(args[1]);
      var index :- BulkToI64(args[2]);
      Ok(LIndex(key, index))
  }

  function ParseSPop(args: seq<Value>): Outcome
  {
    if |args| != 2 && |args| != 3 then Err(WRONG_ARITY)
    else
      var key :- BulkText(args[1]);
      if |args| == 3 then var count :- BulkToU64(args[2]); Ok(SPop(key, Some(count)))
      else Ok(SPop(key, None))
  }

  function ParseMSet(args: seq<Value>): Outcome
  {
    if |args| < 3 || |args| % 2 == 0 then Err(WRONG_ARITY)
    else var entries :- TextPairs(args[1..]); Ok(MSet(entries))
  }

  function ParseHSet(args: seq<Value>): Outcome
  {
    if |args| < 4 || |args| % 2 != 0 then Err(WRONG_ARITY)
    else
      var key :- BulkText(args[1]);
      var entries :- TextPairs(args[2..]);
      Ok(HSet(key, entries))
  }

  function ParseZAdd(args: seq<Value>): Outcome
  {
    if |args| < 4 || |args| % 2 != 0 then Err(WRONG_ARITY)
    else
      var key :- BulkText(args[1]);
      var scored :- ScorePairs(args[2..]);
      Ok(ZAdd(key, scored))
  }

  function ParseZCount(args: seq<Value>): Outcome
  {
    if |args| != 4 then Err(WRONG_ARITY)
    else
      var key :- BulkText(args[1]);
      var min :- BulkToScore(args[2]);
      var max :- BulkToScore(args[3]);
      Ok(ZCount(key, min, max))
  }

  function ParseSet(args: seq<Value>): Outcome
  {
    if |args| < 3 then Err("ERR wrong number of arguments for 'set'")
    else
      var key :- BulkText(args[1]);
      var value :- BulkText(args[2]);
      var options :- SetOptions(args[3..], None, Always);
      Ok(Set(key, value, options.0, options.1))
  }

  /** The options of SET from some point on, given those seen before. */
  function SetOptions(opts: seq<Value>, px: Option<u64>, condition: Condition)
    : Result<(Option<u64>, Condition), bytes>
    decreases |opts|
  {
    if opts == [] then Ok((px, condition))
    else
      var text :- BulkText(opts[0]);
      var opt := Upper(text);
      if opt == "EX" || opt == "PX" then
        if px.Some? || |opts| < 2 then Err(SYNTAX_ERROR)
        else
          var ttl :- BulkToU64(opts[1]);
          if opt == "EX" && ttl * 1000 >= TWO_TO_64 then Err("ERR invalid expire time in 'set' command")
          else SetOptions(opts[2..], Some(if opt == "EX" then ttl * 1000 else ttl), condition)
      else if opt == "NX" || opt == "XX" then
        if condition != Always then Err(SYNTAX_ERROR)
        else SetOptions(opts[1..], px, if opt == "NX" then Nx else Xx)
      else Err(SYNTAX_ERROR)
  }

  // --------------------------------------------------------------- dispatch

  /** The name under which a command is parsed. */
  function NameOf(c: Command): (name: bytes)
    ensures name != []
  {
    match c
    case Ping => "PING"
    case Echo(_) => "ECHO"
    case Info => "INFO"
    case Get(_) => "GET"
    case Set(_, _, _, _) => "SET"
    case Del(_) => "DEL"
    case Exists(_) => "EXISTS"
    case Expire(_, _) => "EXPIRE"
    case Ttl(_) => "TTL"
    case Pttl(_) => "PTTL"
    case Incr(_) => "INCR"
    case Decr(_) => "DECR"
    case MGet(_) => "MGET"
    case MSet(_) => "MSET"
    case Append(_, _) => "APPEND"
    case StrLen(_) => "STRLEN"
    case Type(_) => "TYPE"
    case Keys(_) => "KEYS"
    case Quit => "QUIT"
    case FlushAll => "FLUSHALL"
    case LPush(_, _) => "LPUSH"
    case RPush(_, _) => "RPUSH"
    case LPop(_) => "LPOP"
    case RPop(_) => "RPOP"
    case LLen(_) => "LLEN"
    case LIndex(_, _) => "LINDEX"
    case LRange(_, _, _) => "LRANGE"
    case SAdd(_, _) => "SADD"
    case SRem(_, _) => "SREM"
    case SMembers(_) => "SMEMBERS"
    case SIsMember(_, _) => "SISMEMBER"
    case SCard(_) => "SCARD"
    case SPop(_, _) => "SPOP"
    case HSet(_, _) => "HSET"
    case HGet(_, _) => "HGET"
    case HDel(_, _) => "HDEL"
    case HLen(_) => "HLEN"
    case HExists(_, _) => "HEXISTS"
    case HKeys(_) => "HKEYS"
    case HVals(_) => "HVALS"
    case HGetAll(_) => "HGETALL"
    case ZAdd(_, _) => "ZADD"
    case ZRange(_, _, _) => "ZRANGE"
    case ZRevRange(_, _, _) => "ZREVRANGE"
    case ZScore(_, _) => "ZSCORE"
    case ZRem(_, _) => "ZREM"
    case ZCard(_) => "ZCARD"
    case ZCount(_, _, _) => "ZCOUNT"
  }

  /** What the parsers guarantee beyond the types: no write command comes without an element. */
  predicate Inhabited(c: Command)
  {
    match c
    case SAdd(_, members) => members != []
    case _ => true
  }

  /** The arms of `try_from`, a few at a time. */
  function KeyCommand(cmd: bytes, args: seq<Value>): (r: Option<Outcome>)
    ensures r.Some? && r.value.Ok? ==> NameOf(r.value.value) == cmd && Inhabited(r.value.value)
  {
    if cmd == "GET" then Some(ParseKey(args, k => Get(k), "ERR wrong number of arguments for 'get'"))
    else if cmd == "SET" then Some(ParseSet(args))
    else if cmd == "DEL" then Some(ParseTexts(args, ks => Del(ks)))
    else if cmd == "EXISTS" then Some(ParseTexts(args, ks => Exists(ks)))
    else None
  }

  function TtlCommand(cmd: bytes, args: seq<Value>): (r: Option<Outcome>)
    ensures r.Some? && r.value.Ok? ==> NameOf(r.value.value) == cmd && Inhabited(r.value.value)
  {
    if cmd == "EXPIRE" then Some(ParseExpire(args))
    else if cmd == "TTL" then Some(ParseKey(args, k => Ttl(k), WRONG_ARITY))
    else if cmd == "PTTL" then Some(ParseKey(args, k => Pttl(k), WRONG_ARITY))
    else None
  }

  function KeyspaceCommand(cmd: bytes, args: seq<Value>): (r: Option<Outcome>)
    ensures r.Some? && r.value.Ok? ==> NameOf(r.value.value) == cmd && Inhabited(r.value.value)
  {
    if cmd == "TYPE" then Some(ParseKey(args, k => Type(k), WRONG_ARITY))
    else if cmd == "KEYS" then Some(ParseKey(args, p => Keys(p), WRONG_ARITY))
    else if cmd == "FLUSHALL" then Some(if |args| != 1 then Err(WRONG_ARITY) else Ok(FlushAll))
    else None
  }

  function ConnectionCommand(cmd: bytes, args: seq<Value>): (r: Option<Outcome>)
    ensures r.Some? && r.value.Ok? ==> NameOf(r.value.value) == cmd && Inhabited(r.value.value)
  {
    if cmd == "PING" then Some(Ok(Ping))
    else if cmd == "ECHO" then Some(ParseEcho(args))
    else if cmd == "INFO" then Some(Ok(Info))
    else if cmd == "QUIT" then Some(Ok(Quit))
    else None
  }

  function CounterCommand(cmd: bytes, args: seq<Value>): (r: Option<Outcome>)
    ensures r.Some? && r.value.Ok? ==> NameOf(r.value.value) == cmd && Inhabited(r.value.value)
  {
    if cmd == "INCR" then Some(ParseKey(args, k => Incr(k), WRONG_ARITY))
    else if cmd == "DECR" then Some(ParseKey(args, k => Decr(k), WRONG_ARITY))
    else None
  }

  function TextCommand(cmd: bytes, args: seq<Value>): (r: Option<Outcome>)
    ensures r.Some? && r.value.Ok? ==> NameOf(r.value.value) == cmd && Inhabited(r.value.value)
  {
    if cmd == "MGET" then Some(ParseTexts(args, ks => MGet(ks)))
    else if cmd == "MSET" then Some(ParseMSet(args))
    else if cmd == "APPEND" then Some(ParseKeyText(args, (k, v) => Append(k, v)))
    else if cmd == "STRLEN" then Some(ParseKey(args, k => StrLen(k), WRONG_ARITY))
    else None
  }

  function ListPushCommand(cmd: bytes, args: seq<Value>): (r: Option<Outcome>)
    ensures r.Some? && r.value.Ok? ==> NameOf(r.value.value) == cmd && Inhabited(r.value.value)
  {
    if cmd == "LPUSH" then Some(ParseKeyTexts(args, (k, vs) => LPush(k, vs)))
    else if cmd == "RPUSH" then Some(ParseKeyTexts(args, (k, vs) => RPush(k, vs)))
    else if cmd == "LPOP" then Some(ParseKey(args, k => LPop(k), WRONG_ARITY))
    else if cmd == "RPOP" then Some(ParseKey(args, k => RPop(k), WRONG_ARITY))
    else None
  }

  function ListReadCommand(cmd: bytes, args: seq<Value>): (r: Option<Outcome>)
    ensures r.Some? && r.value.Ok? ==> NameOf(r.value.value) == cmd && Inhabited(r.value.value)
  {
    if cmd == "LLEN" then Some(ParseKey(args, k => LLen(k), WRONG_ARITY))
    else if cmd == "LINDEX" then Some(ParseLIndex(args))
    else if cmd == "LRANGE" then Some(ParseWindow(args, (k, i: i64, j: i64) => LRange(k, i, j)))
    else None
  }

  function SetWriteCommand(cmd: bytes, args: seq<Value>): (r: Option<Outcome>)
    ensures r.Some? && r.value.Ok? ==> NameOf(r.value.value) == cmd && Inhabited(r.value.value)
  {
    if cmd == "SADD" then Some(ParseKeyTexts(args, (k, ms) => SAdd(k, ms)))
    else if cmd == "SREM" then Some(ParseKeyTexts(args, (k, ms) => SRem(k, ms)))
    else None
  }

  function SetReadCommand(cmd: bytes, args: seq<Value>): (r: Option<Outcome>)
    ensures r.Some? && r.value.Ok? ==> NameOf(r.value.value) == cmd && Inhabited(r.value.value)
  {
    if cmd == "SMEMBERS" then Some(ParseKey(args, k => SMembers(k), WRONG_ARITY))
    else if cmd == "SISMEMBER" then Some(ParseKeyText(args, (k, m) => SIsMember(k, m)))
    else if cmd == "SCARD" then Some(ParseKey(args, k => SCard(k), WRONG_ARITY))
    else if cmd == "SPOP" then Some(ParseSPop(args))
    else None
  }

  function HashCommand(cmd: bytes, args: seq<Value>): (r: Option<Outcome>)
    ensures r.Some? && r.value.Ok? ==> NameOf(r.value.value) == cmd && Inhabited(r.value.value)
  {
    if cmd == "HSET" then Some(ParseHSet(args))
    else if cmd == "HGET" then Some(ParseKeyText(args, (k, f) => HGet(k, f)))
    else if cmd == "HDEL" then Some(ParseKeyTexts(args, (k, fs) => HDel(k, fs)))
    else if cmd == "HLEN" then Some(ParseKey(args, k => HLen(k), WRONG_ARITY))
    else None
  }

  function HashReadCommand(cmd: bytes, args: seq<Value>): (r: Option<Outcome>)
    ensures r.Some? && r.value.Ok? ==> NameOf(r.value.value) == cmd && Inhabited(r.value.value)
  {
    if cmd == "HEXISTS" then Some(ParseKeyText(args, (k, f) => HExists(k, f)))
    else if cmd == "HKEYS" then Some(ParseKey(args, k => HKeys(k), WRONG_ARITY))
    else if cmd == "HVALS" then Some(ParseKey(args, k => HVals(k), WRONG_ARITY))
    else if cmd == "HGETALL" then Some(ParseKey(args, k => HGetAll(k), WRONG_ARITY))
    else None
  }

  function SortedSetCommand(cmd: bytes, args: seq<Value>): (r: Option<Outcome>)
    ensures r.Some? && r.value.Ok? ==> NameOf(r.value.value) == cmd && Inhabited(r.value.value)
  {
    if cmd == "ZADD" then Some(ParseZAdd(args))
    else if cmd == "ZRANGE" then Some(ParseWindow(args, (k, i: i64, j: i64) => ZRange(k, i, j)))
    else if cmd == "ZREVRANGE" then Some(ParseWindow(args, (k, i: i64, j: i64) => ZRevRange(k, i, j)))
    else if cmd == "ZSCORE" then Some(ParseKeyText(args, (k, m) => ZScore(k, m)))
    else None
  }

  function SortedSetReadCommand(cmd: bytes, args: seq<Value>): (r: Option<Outcome>)
    ensures r.Some? && r.value.Ok? ==> NameOf(r.value.value) == cmd && Inhabited(r.value.value)
  {
    if cmd == "ZREM" then Some(ParseKeyTexts(args, (k, ms) => ZRem(k, ms)))
    else if cmd == "ZCARD" then Some(ParseKey(args, k => ZCard(k), WRONG_ARITY))
    else if cmd == "ZCOUNT" then Some(ParseZCount(args))
    else None
  }

  function Dispatch(cmd: bytes, args: seq<Value>): (r: Outcome)
    ensures r.Ok? ==> NameOf(r.value) == cmd && Inhabited(r.value)
  {
    var key := KeyCommand(cmd, args);
    if key.Some? then key.value else
    var ttl := TtlCommand(cmd, args);
    if ttl.Some? then ttl.value else
    var keyspace := KeyspaceCommand(cmd, args);
    if keyspace.Some? then keyspace.value else
    var connection := ConnectionCommand(cmd, args);
    if connection.Some? then connection.value else
    var counter := CounterCommand(cmd, args);
    if counter.Some? then counter.value else
    var text := TextCommand(cmd, args);
    if text.Some? then text.value else
    DispatchCollection(cmd, args)
  }

  function DispatchCollection(cmd: bytes, args: seq<Value>): (r: Outcome)
    ensures r.Ok? ==> NameOf(r.value) == cmd && Inhabited(r.value)
  {
    var listPush := ListPushCommand(cmd, args);
    if listPush.Some? then listPush.value else
    var listRead := ListReadCommand(cmd, args);
    if listRead.Some? then listRead.value else
    var setWrite := SetWriteCommand(cmd, args);
    if setWrite.Some? then setWrite.value else
    var setRead := SetReadCommand(cmd, args);
    if setRead.Some? then setRead.value else
    DispatchTable(cmd, args)
  }

  function DispatchTable(cmd: bytes, args: seq<Value>): (r: Outcome)
    ensures r.Ok? ==> NameOf(r.value) == cmd && Inhabited(r.value)
  {
    var hash := HashCommand(cmd, args);
    if hash.Some? then hash.value else
    var hashRead := HashReadCommand(cmd, args);
    if hashRead.Some? then hashRead.value else
    var sortedSet := SortedSetCommand(cmd, args);
    if sortedSet.Some? then sortedSet.value else
    var sortedSetRead := SortedSetReadCommand(cmd, args);
    if sortedSetRead.Some? then sortedSetRead.value else
    Err("ERR unknown command '" + cmd + "'")
  }

  /** `Command::try_from`: a parsed command is the one its name says, in any letter case,
      and a parsed SADD carries a member. */
  function TryFrom(args: seq<Value>): (r: Outcome)
    ensures r.Ok? ==> args != [] && args[0].BulkString? && NameOf(r.value) == Upper(args[0].bulk) && Inhabited(r.value)
  {
    if args == [] then Err("ERR empty command")
    else if !args[0].BulkString? then Err("ERR invalid command")
    else Dispatch(Upper(args[0].bulk), args)
  }
}
