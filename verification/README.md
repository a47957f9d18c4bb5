# The persistence and replay stack, verified

This project models the part of the server that has to agree with itself: the RESP2 codec, the
command interpreter over the in-memory store, the append-only log with its replay and rewrite, and
the snapshot format. `dafny verify dfyconfig.toml` checks all of it.

The pieces are stacked as in the program, and the theorems compose in the same order.

- `Bytes`, `Decimal`: byte strings, machine integers with explicit casts and wrap-around, decimal text.
- `Resp`, `RespStream`, `WireFormat`: the codec. Frames are self-delimiting, outcomes are stable under more bytes,
  and the round trip holds exactly for the values the wire can carry.
- `Commands`, `Parsers`, `Wording`, `Grammar`: from an argument vector to a command and back to the
  words that say it; the parser accepts exactly the vectors of a grammar.
- `Values`, `Windows`, `Enumerations`, `SortedSets`: what the store holds. A `View` is the simple
  form of the store, a map from live keys to values with deadlines.
- `Semantics`: the reference, what each command means on a view (`Steps`): the view after it and the
  replies it may give.
- `Stores`, `Handlers`, `Execution`: the store as a class with two maps that its methods update in
  place, lazy expiry included, and the handlers with their loops, all proved against the reference.
- `Laws`, `Runs`: what single steps and whole runs keep.
- `KeyLaws`, `ListLaws`, `SetLaws`, `HashLaws`, `RankLaws`, `FrameLaws`: the reference in protocol
  terms, one command seen through another: SET then GET, LPUSH then LPOP, ZADD then ZRANGE.
- `Aof`, `LogLaws`, `Server`: the log filter, logging before executing, replay, and a log cut anywhere.
- `Rewrite`, `Rewriting`: the store compiled to commands, printed, parsed and executed again.
- `Rdb`, `RdbFile`, `RdbFormat`, `RdbStore`: the snapshot format, to the byte, and its loader.
- `Recovery`: the two persistence theorems for everything a run can leave in the store.

How the original is read:

- A byte is written as a character, and `from_utf8_lossy` is the identity: keys, fields and names
  are valid UTF-8.
- Time is a number of milliseconds that each call takes as a parameter: the clock is frozen within a
  call. A snapshot reads it once when it copies the maps and once when it writes them, a rewrite once
  when it lists the keys and once when it writes them. Times since the epoch (`wall`) are separate
  parameters.
- Iterating a hash map or a hash set gives the elements in any order: a method picks one, and every
  theorem is about all of them.
- A panic of the connection's task is an outcome (`Panicked`, `Crash`), and so is every error text.
- Arithmetic on `u64` and `usize` that the code leaves unchecked wraps as in a release build.
- Scores are integers: a total order with an exact text. `Decimal` is their printer and parser.

Where the code does something its documentation does not promise, the model follows the code, and a
theorem says exactly when:

- LRANGE panics, and ZRANGE runs to the end, when the stop lies before the first element of a window
  that starts inside the sequence (`Windows.ListWindowExactly`, `Windows.RankWindowExactly`).
- ZCOUNT panics on an inverted range (`Stores.Store.ZCount`).
- DEL counts keys that have expired but have not been evicted (`Stores.DelCountExactly`,
  `Runs.DelCountSeesEviction`, `Runs.DelAfterEviction`).
- STRLEN is logged although it reads (`Aof.FilterExactly`).
- EXPIRE multiplies unchecked: a rewritten lifetime above 18446744073709551000 ms comes back as
  384 ms (`Rewrite.RestoredTtlExactly`).
- A key that expires while a rewrite runs is written with a lifetime of one second, and a replay
  brings it back (`Recovery.ExpiredKeysReturn`).
- A saved deadline beyond 64 bits wraps, and its key is lost on load (`RdbFile.DueExactly`).
- A loaded sorted set is incoherent if a member comes with two scores, which no saved file contains
  (`Rdb.FiledCoherentExactly`).

## Model

| member | source | states |
|---|---|---|
| Resp.FindCrlf | src/resp.rs:172-174 | finds the first CRLF, and reports none only when there is none |
| Resp.ParseValue | src/resp.rs:48-61 | parsing terminates on every input, nested arrays of any declared length included, and a success takes at least 3 and at most all of the bytes; which bytes mean what is said by WireFormat |
| Resp.ParseStable | src/resp.rs:48-174 | a value or a protocol error does not change when more bytes arrive |
| Resp.ProperPrefixIncomplete | src/resp.rs:48-174 | frames are self-delimiting: every proper prefix of a frame is incomplete |
| Resp.RoundTrip | src/resp.rs:48-200 | decoding a printed value followed by anything gives the value, null bulks and null arrays collapsed to Null, and takes exactly the printed bytes |
| Resp.NoRoundTrip | src/resp.rs:48-200 | a value with a CRLF in a simple or error string, or with a length beyond i64, never comes back |
| Resp.RoundTripExactly | src/resp.rs:48-200 | the round trip holds exactly for the values without such strings and lengths |
| Resp.ParsedIsDecodable | src/resp.rs:48-174 | whatever the decoder produces is one of the values that survive the wire unchanged |
| Resp.DecodableExactly | src/resp.rs:48-200 | the values some input decodes to are exactly those that survive; each re-encodes to a frame that decodes to itself |
| RespStream.DrainAppend | src/resp.rs:32-45 | draining a buffer and then appending gives the same values as draining the whole |
| RespStream.DrainAppendError | src/resp.rs:32-45 | once a stream is in error, further bytes change neither the values nor the error |
| RespStream.FragmentationIndependent | src/resp.rs:32-61 | however a stream is cut into chunks, a reader ends with the values, the first error and the kept bytes of the whole stream |
| RespStream.WholeFramesFit | src/resp.rs:32-45 | the frames counted within k bytes are the most that fit |
| RespStream.CutStream | src/resp.rs:32-45 | a stream of frames cut after any number of bytes drains to the frames that are whole, without an error |
| RespStream.ParseFrame | src/resp.rs:48-61 | the parser, with the loop over array elements, computes the reference parse |
| RespStream.ParseArray | src/resp.rs:131-159 | the head of an array and its error cases |
| RespStream.ParseArrayBody | src/resp.rs:143-159 | the loop that collects elements stops at the first incomplete or invalid one and otherwise reads them all |
| RespStream.Decode | src/resp.rs:32-45 | takes exactly one frame off the buffer; an incomplete or invalid buffer is left as it was |
| RespStream.EncodeTo | src/resp.rs:180-200 | appends the frame of the value and changes nothing before it; WireFormat.Frames says which frame |
| RespStream.EncodeArrayTo | src/resp.rs:191-197 | the loop over the elements of an array |
| RespStream.FrameReader.OnChunk | src/resp.rs:32-45 | what a connection has read after one more chunk |
| RespStream.FrameReader.OnChunks | src/resp.rs:32-45 | any chunking of a stream leaves the values and the first error of the whole stream |
| WireFormat.SimpleStringFrame | src/resp.rs:63-70 | a plus sign, a text without CRLF and a CRLF decode to that simple string, whatever follows |
| WireFormat.ErrorFrame | src/resp.rs:72-79 | the same with a minus sign decodes to that error |
| WireFormat.IntegerFrame | src/resp.rs:81-92 | a colon, a decimal and a CRLF decode to that integer, and to an error beyond 64 bits |
| WireFormat.BulkFrame | src/resp.rs:94-129 | a dollar sign, a length, that many bytes of any kind and a CRLF decode to that bulk string |
| WireFormat.BulkUnterminated | src/resp.rs:94-129 | a bulk string that is not followed by CRLF is a protocol error |
| WireFormat.ArrayFrame | src/resp.rs:131-159 | a star, a count and that many frames decode to the array of their values in order |
| WireFormat.NullFrames | src/resp.rs:94-160 | a negative length of either kind decodes to Null |
| WireFormat.OtherFrames | src/resp.rs:48-61 | any other first byte is a protocol error; an empty buffer is incomplete |
| WireFormat.Frames | src/resp.rs:180-200 | the printed form of each kind of value, byte by byte |
| WireFormat.FirstByte | src/resp.rs:180-200 | the first byte printed tells the kind of value, and each kind prints its own |
| WireFormat.Examples | src/resp.rs:208-257 | the small frames every client exchanges, to the byte |
| WireFormat.SmallTexts | src/resp.rs:183-185 | the ten digits are their own texts and a negative number has a minus sign |
| WireFormat.NextDigit | src/resp.rs:183-185 | the text of ten times a number plus a digit is the text of the number and the digit |
| WireFormat.IntegerWords | src/resp.rs:81-92 | either sign and leading zeros are read; no digits, a lone sign or a space are not a number |
| Decimal.IntTextRoundTrip | src/resp.rs:81-92 | printing then parsing an integer gives it back |
| Decimal.I64TextRoundTrip | src/store/string.rs:5-27 | a stored counter is read back as the number it was written from |
| Decimal.U64TextRoundTrip | src/commands/mod.rs:664-673 | the seconds of a rewritten EXPIRE are read back |
| Decimal.IntTextInjective | src/store/string.rs:5-27 | different integers have different texts |
| Commands.TryFrom | src/commands/mod.rs:79-143 | a parsed command is the one its first word names in any letter case, and a parsed SADD carries a member |
| Wording.WordsParse | src/commands/mod.rs:79-693 | printing any command of every kind and parsing its words gives it back, all operands in their places; EXPIRE with a lifetime of whole seconds, lists as long as the arity asks for |
| Grammar.ParsesExactly | src/commands/mod.rs:79-693 | the parser accepts exactly the vectors of the grammar, each as the command it spells: name in any letter case, number of words, place of each operand, either form of a number; so GET with two keys is refused |
| Grammar.RefusedExactly | src/commands/mod.rs:79-143 | an error is the answer exactly to the vectors that spell no command |
| Grammar.Refusals | src/commands/mod.rs:79-232 | the error texts of an empty vector, a first word that is no text, an unknown name and a wrong number of words |
| Grammar.SetRead | src/commands/mod.rs:228-279 | SET: key, value, and options in any order, at most one lifetime and at most one of NX and XX |
| Grammar.ExpireRead | src/commands/mod.rs:297-304 | EXPIRE: 1000 ms for each second, modulo 2^64 |
| Grammar.MSetRead | src/commands/mod.rs:344-355 | MSET: key and value in turn, at least one pair |
| Grammar.HSetRead | src/commands/mod.rs:510-520 | HSET: a key, then field and value in turn, at least one pair |
| Grammar.ZAddRead | src/commands/mod.rs:579-589 | ZADD: a key, then score and member in turn, at least one pair |
| Grammar.SPopRead | src/commands/mod.rs:497-508 | SPOP: a key, and a count or none |
| Grammar.ZCountRead | src/commands/mod.rs:639-648 | ZCOUNT: a key, then the lower and the upper bound |
| Grammar.WindowRead | src/commands/mod.rs:445-453 | LRANGE, ZRANGE and ZREVRANGE: a key, then start and stop |
| Grammar.NumbersSpelled | src/commands/mod.rs:664-693 | a number is a decimal text in range or an integer frame |
| Grammar.LetterCase | src/commands/mod.rs:79-143 | the letters a to z stand for A to Z and every other byte for itself |
| Rewrite.ExpireParses | src/commands/mod.rs:297-304 | the seconds of EXPIRE become milliseconds, wrapped to 64 bits |
| Parsers.ScanSet | src/commands/mod.rs:228-279 | the scan over idx, px and condition computes the reference parse, error texts included |
| Parsers.SetGrammar | src/commands/mod.rs:228-279 | SET accepts exactly the words that write at most one well-formed EX or PX and at most one of NX and XX; the command asks for what they ask, seconds scaled to ms within u64 |
| Parsers.SetOptionOrder | src/commands/mod.rs:228-279 | the command is the same for every ordering of the options |
| Parsers.CollectPairs | src/commands/mod.rs:344-355 | the pairs of the loop, or the first error |
| Parsers.CollectScores | src/commands/mod.rs:579-589 | the scored members of the loop, or the first error |
| Values.CoherentExactly | src/store/mod.rs:22-25 | the tree is coherent with the score map exactly when it groups the members by score: the score map determines it |
| Values.LiveViewIsSound | src/store/mod.rs:29-33 | what is seen of a consistent store has no empty collection, no orphan deadline and no expired key |
| Values.LiveViewLater | src/store/mod.rs:59-75 | what is seen later is what is seen now less what expires in between |
| Values.EvictionInvisible | src/store/mod.rs:87-106 | dropping expired keys cannot be seen |
| Windows.ListWindowExactly | src/store/list.rs:90-112 | LRANGE is the inclusive slice under negative-index normalisation, except exactly when the stop lies before the first element of a window that starts inside the list: then it goes out of bounds |
| Windows.RankWindowExactly | src/store/sorted_set.rs:59-67 | ZRANGE is that slice exactly when the same condition does not hold; otherwise it runs to the end |
| Windows.WindowsTile | src/store/list.rs:90-112 | adjacent windows tile the whole sequence |
| Windows.ListIndexExactly | src/store/list.rs:127-145 | LINDEX is the one element of the one-element window, and nothing out of range |
| Enumerations.SortedOnce | src/commands/data.rs:143-156 | a set has one sorted enumeration, so sorting undoes the hash order |
| SortedSets.Score | src/store/sorted_set.rs:7-41 | scoring a member moves it from one bucket to another, drops an emptied bucket, and tells whether it is new |
| SortedSets.Unfile | src/store/sorted_set.rs:24-31 | a member leaves the bucket of its score, and an emptied bucket goes |
| SortedSets.Unscore | src/store/sorted_set.rs:115-150 | removing members, repeated ones once, keeps both indices in step |
| SortedSets.RankAscending | src/store/sorted_set.rs:43-58 | the entries in ascending buckets are a score-sorted permutation of the score map |
| SortedSets.RankDescending | src/store/sorted_set.rs:72-88 | the entries in descending buckets are a permutation sorted the other way |
| SortedSets.CountRange | src/store/sorted_set.rs:165-179 | the sizes of the buckets in range add up to the number of members with a score in range |
| SortedSets.RankingsMirror | src/store/sorted_set.rs:43-100 | the two rankings list the same members and their score sequences are each other's reverse, whatever the order of ties |
| Stores.DelCountExactly | src/store/mod.rs:165-174 | the number of held keys among those named lies between the live ones and all of them, and is the live one exactly when no named key has expired unevicted |
| Stores.Store.CheckExpiration | src/store/mod.rs:59-75 | removes the key with its deadline exactly when the deadline has passed, says so, and touches nothing else; nothing that can be seen changes |
| Stores.Store.EvictExpired | src/store/mod.rs:87-106 | nothing that can be seen now or later changes, nothing expired is held any more, and the count is that of the keys dropped |
| Stores.Store.DropEach | src/store/mod.rs:94-103 | the loop: keys and deadlines gone, and how many held data |
| Stores.Store.SetExpiration | src/store/mod.rs:77-84 | sets or clears one deadline |
| Stores.Store.Exists | src/store/mod.rs:176-178 | whether the key is live |
| Stores.Store.Del | src/store/mod.rs:165-174 | the named keys disappear; the count includes keys that expired unevicted |
| Stores.Store.Keys | src/store/mod.rs:193-201 | the live keys in some order, after an eviction that cannot be seen |
| Stores.Store.FlushAll | src/store/mod.rs:208-211 | both maps are left empty |
| Stores.Store.Expire | src/store/mod.rs:213-224 | a new deadline for a live key, nothing otherwise |
| Stores.Store.Pttl | src/store/mod.rs:226-242 | -2, -1 or what is left of the lifetime, cast to i64 |
| Stores.Store.Ttl | src/store/mod.rs:244-250 | the same in seconds, truncated |
| Stores.Store.Snapshot | src/store/mod.rs:109-127 | copies of both maps after an eviction that cannot be seen |
| Stores.Store.Restore | src/store/mod.rs:130-132 | the value put in place, the deadlines untouched |
| Stores.Store.SetWithTtl | src/store/mod.rs:135-139 | the value and a deadline counted from now |
| Stores.Store.GetForRestore | src/store/mod.rs:142-144 | the value as held, without an expiry check |
| Stores.Store.TtlMsForPersistence | src/store/mod.rs:147-155 | the remaining lifetime, at least 1, cast to u64 |
| Stores.Store.Set | src/store/string.rs:40-46 | the value with a deadline of its own or none |
| Stores.Store.AdjustCounter | src/store/string.rs:5-27 | the counter moves by delta and keeps its deadline, or fails for a wrong type, a text that is no i64, or overflow, and then changes nothing |
| Stores.Store.Append | src/store/string.rs:48-67 | the text grows under its old deadline; a wrong type changes nothing |
| Stores.Store.LPush | src/store/list.rs:6-22 | one value at the front |
| Stores.Store.RPush | src/store/list.rs:24-40 | one value at the back |
| Stores.Store.LPop | src/store/list.rs:42-64 | the first value, and the key with the last one |
| Stores.Store.RPop | src/store/list.rs:66-88 | the last value, and the key with the last one |
| Stores.Store.LRange | src/store/list.rs:90-112 | the window, or the out-of-bounds panic |
| Stores.Store.LIndex | src/store/list.rs:127-145 | the element, or nothing |
| Stores.Store.SAdd | src/store/set.rs:6-27 | the union, and how many members are new |
| Stores.Store.SRem | src/store/set.rs:29-53 | the difference, how many were there, and the key with the last one |
| Stores.Store.SPop | src/store/set.rs:94-126 | distinct members of the set, as many as asked for or all, removed; the key with the last one |
| Stores.Store.HSet | src/store/hash.rs:6-19 | the field set, and whether it is new |
| Stores.Store.HDel | src/store/hash.rs:47-71 | the fields removed, how many were there, and the key with the last one |
| Stores.Store.ZAdd | src/store/sorted_set.rs:7-41 | the member scored in both indices, and whether it is new |
| Stores.Store.ZRem | src/store/sorted_set.rs:115-150 | the members removed from both indices, how many were there, and the key with the last one |
| Stores.Store.ZRange | src/store/sorted_set.rs:43-70 | the window of a ranking of the score map |
| Stores.Store.ZRevRange | src/store/sorted_set.rs:72-100 | the window of a reverse ranking |
| Stores.Store.ZCount | src/store/sorted_set.rs:165-179 | the number of members in range, or the panic of an inverted range |
| Stores.InsertEach | src/store/set.rs:6-27 | the loop of s_add |
| Stores.RemoveEach | src/store/set.rs:29-53 | the loop of s_rem |
| Stores.RemoveFields | src/store/hash.rs:47-71 | the loop of h_del |
| Stores.TakeSome | src/store/set.rs:94-126 | the loop of s_pop |
| Handlers.EnsureType | src/commands/data.rs:30-35 | whether the key holds a value of another type |
| Handlers.PushFront | src/commands/data.rs:44-48 | the reversed loop leaves the values in argument order |
| Handlers.SetFields | src/commands/data.rs:272-277 | the loop of HSET: the fields of the last of equal pairs, and how many are new |
| Handlers.SetScores | src/commands/data.rs:348-353 | the loop of ZADD: the scores of the last of equal members, and how many are new |
| Handlers.HandleLPush | src/commands/data.rs:37-49 | the values in argument order before the list, its new length as reply, or the type error; ListLaws.PushThenPop reads it back |
| Handlers.HandleRPush | src/commands/data.rs:51-63 | the values in argument order after the list |
| Handlers.HandleLPop | src/commands/data.rs:65-70 | refines the reference state and reply of LPOP |
| Handlers.HandleRPop | src/commands/data.rs:72-77 | the same for RPOP |
| Handlers.HandleLRange | src/commands/data.rs:93-98 | the reference slice, the type error, or the panic exactly where the stop wraps |
| Handlers.HandleLIndex | src/commands/data.rs:86-91 | the element of the reference slice or null |
| Handlers.HandleSet | src/commands/data.rs:107-123 | SET against the live key as KeyLaws.SetIfAbsent, SetIfPresent and SetReplaces say |
| Handlers.HandleAppend | src/commands/data.rs:125-130 | APPEND with its type guard |
| Handlers.HandleKeys | src/commands/data.rs:143-156 | all live keys sorted, or the pattern error |
| Handlers.HandleExpire | src/commands/data.rs:163-169 | EXPIRE |
| Handlers.HandleTime | src/commands/data.rs:171-177 | TTL and PTTL |
| Handlers.HandleAdjust | src/commands/data.rs:179-191 | INCR and DECR, the error texts included |
| Handlers.HandleMGet | src/commands/data.rs:193-199 | one text or null for each key |
| Handlers.HandleMSet | src/commands/data.rs:201-206 | every pair written, the last of equal keys, without deadlines |
| Handlers.HandleExists | src/commands/data.rs:208-211 | how many of the named keys are live, repetitions counted |
| Handlers.HandleDel | src/commands/data.rs:213-216 | the reference state; the count is that of the named keys still held, expired or not |
| Handlers.HandleSAdd | src/commands/data.rs:218-223 | SADD with its type guard |
| Handlers.HandleSRem | src/commands/data.rs:225-230 | SREM with its type guard |
| Handlers.HandleSPop | src/commands/data.rs:255-266 | SPOP with and without a count |
| Handlers.HandleHSet | src/commands/data.rs:268-279 | the loop over fields: later ones override, and only fields that were not there count |
| Handlers.HandleHDel | src/commands/data.rs:288-293 | HDEL with its type guard |
| Handlers.HandleZAdd | src/commands/data.rs:344-355 | the loop over scored members: later scores override, and only new members count |
| Handlers.HandleZRem | src/commands/data.rs:393-398 | ZREM with its type guard |
| Handlers.HandleZCount | src/commands/data.rs:407-412 | the number of members in range, the type error, or the panic of an inverted range |
| Handlers.HandleRanking | src/commands/data.rs:357-381 | ZRANGE and ZREVRANGE: the window that RankLaws.RanksWindow describes |
| Handlers.HandleListing | src/commands/data.rs:232-342 | SMEMBERS and HGETALL in sorted order, HKEYS and HVALS in some order |
| Handlers.HandleFlat | src/commands/data.rs:79-253 | GET, STRLEN, TYPE, LLEN, SISMEMBER and SCARD give the reference reply and change nothing that can be seen |
| Handlers.HandleHashRead | src/commands/data.rs:281-307 | the same for HGET, HLEN and HEXISTS |
| Handlers.HandleScoreRead | src/commands/data.rs:383-405 | the same for ZSCORE and ZCARD |
| Execution.ExecuteWrite | src/commands/mod.rs:147-206 | the writes dispatched: state and reply are those of the reference |
| Execution.ExecuteRead | src/commands/mod.rs:147-206 | the reads dispatched: nothing that can be seen changes |
| Execution.Execute | src/commands/mod.rs:147-205 | every command leaves a view and gives a reply that the live view before it and the time allow; DEL's count is that of the named keys still held |
| Laws.ReadersChangeNothing | src/commands/mod.rs:146-206 | a read changes nothing that can be seen |
| Laws.ErrorsChangeNothing | src/commands/mod.rs:79-206 | an error reply of any cause leaves every key and every deadline as it was |
| Laws.PanicsChangeNothing | src/store/list.rs:90-112 | only LRANGE and ZCOUNT can panic, and a panic changes nothing |
| Laws.NextKeepsAlive | src/commands/mod.rs:146-206 | a view without expired keys steps to one without |
| Laws.UntimedStep | src/commands/mod.rs:146-206 | where there are no deadlines, a command that sets none does the same at any time |
| Laws.StepKeepsSound | src/commands/mod.rs:146-206 | every parsed command keeps the invariants: no empty collection, coherent sorted sets |
| Laws.StepKeepsWithin | src/commands/mod.rs:228-304 | no command sets a lifetime of more than 64 bits of milliseconds |
| KeyLaws.SetReplaces | src/commands/data.rs:107-123 | SET replies OK and replaces value and deadline; with a lifetime the key is due that many ms from now |
| KeyLaws.SetIfAbsent | src/commands/data.rs:107-123 | with NX a key that is there keeps everything and the reply is null; one that is not gets what a plain SET gives |
| KeyLaws.SetIfPresent | src/commands/data.rs:107-123 | with XX the other way round |
| KeyLaws.FirstWins | src/commands/data.rs:107-123 | of two SET with NX in a row on an absent key the first alone takes effect |
| KeyLaws.Gets | src/commands/data.rs:100-105 | GET replies with the text, the null bulk or the type error |
| KeyLaws.SetThenGet | src/commands/data.rs:100-123 | GET after SET replies with the value that was set, and for another key with what it gave before |
| KeyLaws.MGetIsGets | src/commands/data.rs:193-199 | MGET is GET of each key in order, with the null bulk in place of the type error |
| KeyLaws.MSetWrites | src/commands/data.rs:201-206 | the last pair of each key is written without a deadline, and no other key changes |
| KeyLaws.Appends | src/commands/data.rs:125-130 | APPEND adds at the end, keeps the deadline and replies with the new length |
| KeyLaws.AppendThenGet | src/commands/data.rs:100-137 | SET, APPEND, GET: the two texts one after the other; APPEND and STRLEN reply with their length |
| KeyLaws.Lengths | src/commands/data.rs:132-137 | STRLEN: the length, 0 without the key, or the type error |
| KeyLaws.Exist | src/commands/data.rs:208-211 | EXISTS of one key is 1 or 0 |
| KeyLaws.ExistAdds | src/commands/data.rs:208-211 | EXISTS of two lists of keys is the sum, repetitions counted |
| KeyLaws.Types | src/commands/data.rs:139-141 | TYPE names each kind of value, and none without the key |
| KeyLaws.Deletes | src/commands/data.rs:213-216 | DEL drops the named keys and no other |
| KeyLaws.FlushesAll | src/commands/data.rs:158-161 | FLUSHALL leaves nothing |
| KeyLaws.ListsKeys | src/commands/data.rs:143-156 | KEYS * lists every key once in ascending order; any other pattern is an error |
| KeyLaws.Expires | src/commands/data.rs:163-169 | EXPIRE replies 1 and gives the lifetime to a key that is there, and replies 0 otherwise |
| KeyLaws.LeftMs | src/commands/data.rs:175-177 | PTTL: -2, -1, or the ms left |
| KeyLaws.LeftSeconds | src/commands/data.rs:171-173 | TTL: -2, -1, or the whole seconds left, rounded down |
| KeyLaws.ExpireThenPttl | src/store/mod.rs:59-75 | after EXPIRE the time left counts down to the last ms, and from the deadline on the key is not there |
| KeyLaws.CountersNeedIntegers | src/store/string.rs:5-27 | INCR and DECR of another kind, or of a text that is no i64, give the error texts and change nothing |
| KeyLaws.Connection | src/commands/conn.rs:4-14 | PING replies PONG, ECHO its argument, QUIT OK, and nothing changes |
| FrameLaws.OthersUntouched | src/commands/mod.rs:147-205 | no command changes a key it does not name, FLUSHALL aside |
| FrameLaws.DeadlinesKept | src/commands/mod.rs:147-205 | no command but SET, MSET and EXPIRE changes the deadline of a key that stays |
| ListLaws.PushThenPop | src/commands/data.rs:37-70 | after LPUSH as many LPOPs reply with its words in order and leave everything as it was before, deadline included |
| ListLaws.PushThenPopRight | src/commands/data.rs:51-77 | after RPUSH as many RPOPs reply with its words in reverse and leave everything as it was before |
| ListLaws.FirstInFirstOut | src/commands/data.rs:51-70 | after RPUSH the LPOPs reply with what was there before, then with its words, and the key goes with the last |
| ListLaws.RangeAfterPush | src/commands/data.rs:37-98 | LRANGE 0 -1 after LPUSH is its words followed by what LRANGE gave before; after RPUSH it is followed by them |
| ListLaws.PushesFront | src/store/list.rs:6-22 | LPUSH puts its words in order before the list, under the old deadline, and replies with the new length |
| ListLaws.PushesBack | src/store/list.rs:24-40 | RPUSH puts them behind it |
| ListLaws.NothingToPop | src/commands/data.rs:65-77 | a pop of an absent key replies with the null bulk and changes nothing |
| ListLaws.Measures | src/commands/data.rs:79-84 | LLEN: the length, 0 without the key |
| ListLaws.Indexes | src/store/list.rs:127-145 | LINDEX counts from the front, with a negative index from the back, and is the null bulk outside |
| ListLaws.Ranges | src/store/list.rs:90-112 | LRANGE 0 -1 is the list, start to stop inside it is the stretch with both ends, and it panics exactly when the stop lies before a list whose end the start does not reach |
| ListLaws.TypeErrors | src/commands/data.rs:37-98 | every list command on another kind of value gives the type error and changes nothing |
| SetLaws.AddThenIsMember | src/commands/data.rs:218-246 | after SADD its words are members and SISMEMBER of all else is as before |
| SetLaws.RemoveThenIsMember | src/commands/data.rs:225-246 | after SREM its words are no members and SISMEMBER of all else is as before |
| SetLaws.CardinalityBalances | src/commands/data.rs:218-253 | the replies of SADD and SREM are by how much SCARD grows and shrinks |
| SetLaws.PopsMany | src/store/set.rs:94-126 | SPOP with a count takes that many different members, or all, replies with them and leaves the others |
| SetLaws.PopsOne | src/commands/data.rs:255-266 | SPOP without a count takes one member, or replies with the null bulk when there is none |
| SetLaws.PopThenIsMember | src/commands/data.rs:241-266 | the popped member was one before and is none afterwards; all else is as before |
| SetLaws.ListsMembers | src/commands/data.rs:232-239 | SMEMBERS lists every member once in ascending order |
| SetLaws.Adds | src/store/set.rs:6-27 | SADD adds under the old deadline and counts the new members |
| SetLaws.Removes | src/store/set.rs:29-53 | SREM takes away, counts what was there, and drops an emptied key |
| SetLaws.TypeErrors | src/commands/data.rs:218-266 | every set command on another kind of value gives the type error and changes nothing |
| HashLaws.SetThenGetField | src/commands/data.rs:268-286 | after HSET a field has the last value given for it, and HGET of all else is as before |
| HashLaws.DropThenGetField | src/commands/data.rs:281-293 | after HDEL the named fields are gone, and HGET of all else is as before |
| HashLaws.ExistsIsGet | src/commands/data.rs:281-307 | HEXISTS is 1 exactly when HGET finds a value |
| HashLaws.SetsBalance | src/commands/data.rs:268-300 | the reply of HSET is by how much HLEN grows |
| HashLaws.DropsBalance | src/commands/data.rs:288-300 | the reply of HDEL is by how much HLEN shrinks |
| HashLaws.ListsFields | src/commands/data.rs:309-320 | HKEYS lists every field once |
| HashLaws.ListsValues | src/commands/data.rs:322-327 | HVALS lists the value of every field once, equal values repeated |
| HashLaws.ListsAll | src/commands/data.rs:329-342 | HGETALL lists field and value in turn, fields ascending |
| HashLaws.TypeErrors | src/commands/data.rs:268-342 | every hash command on another kind of value gives the type error and changes nothing |
| RankLaws.RanksAll | src/commands/data.rs:357-381 | ZRANGE 0 -1 lists every member once with scores that never decrease, ZREVRANGE with scores that never increase; between two positions inside, the stretch with both ends |
| RankLaws.RanksWindow | src/store/sorted_set.rs:43-100 | each range is a window of such a ranking, whatever start and stop |
| RankLaws.AddThenScore | src/commands/data.rs:344-391 | after ZADD a member has the last score given for it, and ZSCORE of all else is as before |
| RankLaws.RemoveThenScore | src/commands/data.rs:383-398 | after ZREM the named members have no score, and ZSCORE of all else is as before |
| RankLaws.AddsBalance | src/commands/data.rs:344-405 | the reply of ZADD is by how much ZCARD grows |
| RankLaws.RemovesBalance | src/commands/data.rs:393-405 | the reply of ZREM is by how much ZCARD shrinks |
| RankLaws.CountsRange | src/commands/data.rs:407-412 | ZCOUNT counts the members between the bounds, both included, and panics exactly on inverted bounds for a key that is there |
| RankLaws.TypeErrors | src/commands/data.rs:344-412 | every sorted-set command on another kind of value gives the type error and changes nothing |
| Enumerations.LexDirection | src/commands/data.rs:143-156 | ascending means: behind a common prefix the end of the text first, then the smaller byte |
| Aof.FilterExactly | src/persistence/aof.rs:312-355 | the commands that are logged are those that can change the store, and STRLEN |
| Aof.LoggedByName | src/persistence/aof.rs:312-355 | a request whose first word names a command, in any letter case, is logged exactly when that command can change the store or is STRLEN |
| Aof.LoggedExactly | src/persistence/aof.rs:312-355 | the same of the command a request parses to |
| LogLaws.LoggedIfChanging | src/persistence/aof.rs:312-355 | a request that parses is logged exactly when some store exists that its command changes, or it is STRLEN, SPOP of no members, or SET with NX and no lifetime at all |
| LogLaws.MutatorsChange | src/commands/mod.rs:147-205 | every writing command other than these two, with no empty list of operands, changes some store |
| Aof.LogFilterSound | src/persistence/aof.rs:312-355 | for every run, with deadlines, failures, unknown names and SPOP, executing only the logged requests can end in the same view |
| Aof.LogFilterExact | src/persistence/aof.rs:312-355 | for every run without SPOP, deadlines, failures, unknown and conditional commands included, executing only the logged requests ends in the same view |
| Aof.RunDetermined | src/server.rs:418-430 | without SPOP a run has one outcome |
| Aof.TimelessRun | src/server.rs:418-430 | a run without deadlines and SPOP has one outcome, whenever its requests are executed |
| Aof.TimelessPrefix | src/server.rs:418-430 | the view of such a run after its first p requests is one, and is the functional result |
| Aof.CrashPrefix | src/persistence/aof.rs:126-151 | for requests as the decoder produces them, the log of such a run cut after any byte replays to exactly the state after the request that wrote the last whole frame; uncut, to the final state |
| Aof.RunAtOnce | src/persistence/aof.rs:126-151 | requests without SPOP replayed at one moment have one outcome |
| Server.AofWriter.Append | src/persistence/aof.rs:44-71 | one frame at the end of the file |
| Server.HandleRequest | src/server.rs:418-430 | logged first, exactly when the command can change the store or is STRLEN, and the file stays as it was otherwise; then executed; the reply is that of the command, for DEL the number of named keys still held, or the parse error |
| Server.ParseAndExecute | src/persistence/aof.rs:157-166 | the reply and the view are those of the parsed command, for DEL with the number of named keys still held, or of the parse error |
| Server.Serve | src/server.rs:418-430 | a run of requests: the view reached is one of the reference's, and the log has grown by the frames of the logged ones |
| Server.Replay | src/persistence/aof.rs:102-155 | decodes and executes whole frames up to the first incomplete or invalid one, and counts them |
| Server.ReplayOne | src/persistence/aof.rs:157-166 | frames that are no array and commands that do not parse are skipped |
| Server.CrashAndRecover | src/persistence/aof.rs:102-166 | end to end: a served run, its log cut anywhere, replayed into an empty store, which then shows the one view the run had after the request that wrote the last whole frame |
| Rewrite.ValueParses | src/persistence/aof.rs:211-278 | the generated command of each of the five types parses back to the command that writes the value |
| Rewrite.ValueRebuilt | src/persistence/aof.rs:211-278 | executed where the key is absent it restores the value, equal in every part, without a deadline |
| Rewrite.RestoredTtlExactly | src/persistence/aof.rs:281-290 | a remaining lifetime comes back never shorter and less than a second longer exactly up to 18446744073709551000 ms; beyond, u64 arithmetic leaves 384 ms |
| Rewrite.DeadlineRebuilt | src/persistence/aof.rs:281-290 | the generated EXPIRE restores that lifetime |
| Rewrite.EntryRebuilt | src/persistence/aof.rs:211-293 | all commands of one key together restore its entry |
| Rewrite.KeysRebuilt | src/persistence/aof.rs:170-208 | executing the commands of any list of distinct keys in an empty store rebuilds exactly those keys |
| Rewrite.RewriteReplayable | src/persistence/aof.rs:170-208 | every generated frame survives the wire and parses to a command with one outcome |
| Rewrite.RewriteRestores | src/persistence/aof.rs:170-293 | whatever order keys and hash tables are visited in, all that replaying the rewritten log into an empty store can give is the same keys with the same values and restored lifetimes, a key that expired since it was listed included |
| Rewriting.ValueToCommands | src/persistence/aof.rs:211-293 | the loops that fill the argument vectors, for some iteration order |
| Rewriting.ListArgs | src/persistence/aof.rs:229-252 | the loop over the elements of a list or a set |
| Rewriting.HashArgs | src/persistence/aof.rs:253-265 | the loop over the fields of a hash |
| Rewriting.SortedSetArgs | src/persistence/aof.rs:266-278 | the loop over the members of a sorted set, score first |
| Rewriting.RewriteKey | src/persistence/aof.rs:179-195 | one turn of the loop: the commands of one listed key, expired meanwhile or not, at the end of the file |
| Rewriting.RewriteAof | src/persistence/aof.rs:170-208 | the new file holds exactly the frames of every key live when the keys are listed, with lifetimes as of the time of writing; nothing that can be seen of the store changes |
| Rewriting.RewriteAndRecover | src/persistence/aof.rs:102-206 | end to end: rewrite, then replay into an empty store |
| Rdb.BigEndianRoundTrip | src/persistence/rdb.rs:170-171 | eight bytes give the integer back |
| Rdb.LittleEndianRoundTrip | src/persistence/rdb.rs:187-190 | eight bytes give the integer back |
| Rdb.LengthBytes | src/persistence/rdb.rs:159-173 | one, two or nine bytes |
| Rdb.ReadLength | src/persistence/rdb.rs:356-404 | a success moves forward and stays within the buffer |
| Rdb.LengthRoundTrip | src/persistence/rdb.rs:159-404 | for every u64, whatever surrounds it, reading inverts writing and takes exactly the bytes written |
| Rdb.LengthsPrefixFree | src/persistence/rdb.rs:159-173 | no length's code is a prefix of another's |
| Rdb.TextRoundTrip | src/persistence/rdb.rs:175-417 | a string comes back whatever surrounds it |
| Rdb.FiledCoherentExactly | src/persistence/rdb.rs:467-491 | the tree rebuilt by the loader is coherent with the rebuilt scores exactly when no member comes with two scores |
| Rdb.SortedSetBack | src/persistence/rdb.rs:467-491 | from a sound sorted set both indices come back, for every iteration order |
| Rdb.ValueRoundTrip | src/persistence/rdb.rs:124-497 | every value of a sound store comes back equal in every part, for every iteration order |
| RdbFormat.LengthForms | src/persistence/rdb.rs:159-173 | one byte below 64, two with the bits 01 below 16384, otherwise 0x80 and eight bytes, most significant first |
| RdbFormat.ShortText | src/persistence/rdb.rs:181-185 | a text is its length and its bytes |
| RdbFormat.TypeCodes | src/persistence/rdb.rs:112-122 | 0 string, 1 list, 2 set, 3 sorted set, 4 hash |
| RdbFormat.OneElement | src/persistence/rdb.rs:124-157 | each kind with one element: the count, then the text, field and value, or score and member |
| RdbFormat.RecordForm | src/persistence/rdb.rs:38-98 | the byte 0xFC and eight bytes of the due time, least significant first, if there is one; then type, key, value |
| RdbFormat.FileForm | src/persistence/rdb.rs:38-98 | a file opens with REDIS0011 and closes with 0xFF and eight zero bytes |
| RdbFormat.SecondsTurn | src/persistence/rdb.rs:309-337 | the older expiry record, four bytes of seconds after 0xFD, is read as that many times 1000 ms |
| RdbFormat.OtherTurns | src/persistence/rdb.rs:216-354 | 0xFF ends the scan; an unknown type and a stamp cut short are errors |
| RdbFile.FileScanned | src/persistence/rdb.rs:216-354 | a written file gives back all of its records, in order, and the scan ends at the end marker |
| RdbFile.DueExactly | src/persistence/rdb.rs:66-76 | the saved absolute time is right exactly when it fits 64 bits; otherwise it has wrapped to a time before the save |
| RdbFile.OneRestored | src/persistence/rdb.rs:300-305 | loading one record restores its entry on the loader's clock, or nothing when it is due |
| RdbFile.SnapshotRestores | src/persistence/rdb.rs:38-354 | loading a saved file at any later time gives an empty store exactly the keys still ahead, with equal values and equal absolute deadlines |
| RdbStore.OutFile.WriteValue | src/persistence/rdb.rs:124-157 | the loops that write the elements, for some iteration order |
| RdbStore.SaveToFile | src/persistence/rdb.rs:38-103 | the file is header, one record for each key live when the entries are written, and trailer; nothing that can be seen of the store changes |
| RdbStore.WriteHeader | src/persistence/rdb.rs:45-63 | magic, version, the three auxiliary fields, the database and the two sizes |
| RdbStore.WriteRecords | src/persistence/rdb.rs:66-88 | the loop over the snapshot: exactly the keys still live are written, each once |
| RdbStore.WriteRecord | src/persistence/rdb.rs:68-87 | deadline, type, key and value of one entry |
| RdbStore.ReadListAt | src/persistence/rdb.rs:425-436 | the loop that collects a list |
| RdbStore.ReadSetAt | src/persistence/rdb.rs:437-448 | the loop that collects a set |
| RdbStore.ReadHashAt | src/persistence/rdb.rs:449-466 | the loop that collects a hash |
| RdbStore.ReadSortedSetAt | src/persistence/rdb.rs:467-491 | the loop that collects scores and tree together |
| RdbStore.ReadValueAt | src/persistence/rdb.rs:419-497 | the dispatch on the type byte, unknown types included |
| RdbStore.ReadTurnAt | src/persistence/rdb.rs:236-349 | the dispatch on the opcode: skipped fields, both expiry forms, truncated and out-of-bounds cases |
| RdbStore.LoadRecord | src/persistence/rdb.rs:300-348 | a record goes to restore or set_with_ttl, or is dropped when due |
| RdbStore.LoadFromFile | src/persistence/rdb.rs:216-354 | loads the records up to the end, or up to the first error or panic; a bad magic number loads nothing |
| RdbStore.SaveAndLoad | src/persistence/rdb.rs:38-354 | end to end: save, then load into an empty store |
| Runs.RunKeeps | src/commands/mod.rs:146-206 | invariants of every run whatever is requested: no empty collection, coherent sorted sets, bounded lifetimes |
| Runs.SortedSetsCoherent | src/store/sorted_set.rs:7-150 | after any run from an empty store a member is in the bucket of a score exactly when it has that score, and no bucket is empty |
| Runs.RecreatedWithoutDeadline | src/store/mod.rs:59-84 | a key created anew by a command that sets no deadline has none: nothing of an emptied key's deadline is inherited |
| Runs.EmptiedKeyIsGone | src/store/list.rs:42-88 | no step leaves a key with an empty collection |
| Runs.ErrorRepliesChangeNothing | src/commands/mod.rs:79-206 | whatever the argument vector and the state, an error reply leaves every key and every deadline as it was |
| Runs.RepliesDetermined | src/commands/mod.rs:146-206 | for all commands but DEL, INFO, SPOP, HKEYS, HVALS, ZRANGE and ZREVRANGE the reply and the view after are determined by the live view and the time |
| Runs.DelDetermined | src/store/mod.rs:165-174 | DEL agrees in the state |
| Runs.DelCountSeesEviction | src/store/mod.rs:87-174 | its count is the exception: two stores no client can tell apart hold one and none of the named keys |
| Runs.DelAfterEviction | src/store/mod.rs:87-174 | the same by a run: SET with a lifetime of 5 ms and DEL at 10 ms reply 1, and 0 with a round of eviction in between |
| Runs.RunWithEvictions | src/store/mod.rs:87-106 | a run with eviction inserted anywhere has replies and a final view that the requests alone can have on a map with deadlines |
| Runs.AnswersDetermined | src/commands/mod.rs:146-206 | a run without SPOP has one final view, and one reply to every request that does not parse or is none of the commands named above |
| Runs.RunTwice | src/store/mod.rs:87-106 | two stores that look alike serve the same requests, SPOP aside, with eviction anywhere in either: the same replies to all of those requests, and from then on they look alike |
| Runs.CounterStep | src/store/string.rs:5-27 | a step fails exactly when the sum would leave the i64 range and then changes nothing; otherwise the canonical text of the sum is stored under the same deadline |
| Runs.CountersAddUp | src/store/string.rs:5-27 | after any interleaving of INCR and DECR the key holds the running sum, and each reply is the sum so far or the overflow error exactly when it is due |
| Runs.CountersAreCanonical | src/store/string.rs:5-88 | once a step has succeeded the stored bytes are the canonical decimal of the running sum |
| Runs.TallyIsSum | src/store/string.rs:5-27 | while every partial sum is in range, the running sum is the sum |
| Recovery.ReachableIsSound | src/store/mod.rs:29-84 | everything a run from an empty store can leave satisfies what the persistence theorems ask for |
| Recovery.RewriteOfReachable | src/persistence/aof.rs:170-293 | for every reachable store: same keys, same values, a deadline exactly where there was one, lifetimes rounded up to whole seconds, one second for a key that expired while the rewrite ran |
| Recovery.ExpiredKeysReturn | src/store/mod.rs:147-155 | a replayed rewrite brings back expired keys, for one second: exactly those that expired between listing and writing |
| Recovery.SnapshotOfReachable | src/persistence/rdb.rs:38-354 | for every reachable store: a key comes back exactly when its absolute deadline, if any, is ahead and fits 64 bits; value and absolute deadline are equal |

## Left out

- Aof.CrashPrefix: deadlines and SPOP are excluded, because deadlines restart at replay by design and SPOP's choice depends on hash order.
- Aof.LogFilterSound: says that the kept requests can reach the same view; where SPOP occurs a run has several outcomes, and a second execution may take another.
- Rewrite.RewriteRestores: is about the file as written; writes that go to the old file handle after the rename are not part of this model, the temporary file is assumed to be fresh, and every length is one a Rust vector can have.
- RdbFile.SnapshotRestores: asks for a file below 2^63 bytes, the most a Rust vector can hold, and for a clock since the epoch that does not go back between save and load.
- Runs.RunTwice: leaves out SPOP, and says nothing of the replies of HKEYS, HVALS, ZRANGE and ZREVRANGE, which hash order decides, nor of INFO's; DEL's counts are those of the two stores' held keys.
- Semantics.ReplyOf: INFO's text is a parameter, and its reply is any bulk string.
- Stores.Store.ZAdd: scores are integers, so rounding, NaN and signed zero of f64 are not modelled.
- Resp.ParseValue: reserving capacity for a declared length, which aborts for absurd lengths, is not modelled; neither is it in the snapshot reader. A declared length is only counted.
- Handlers.HandleFlat: the simple reads GET, STRLEN, TYPE, LLEN, SISMEMBER and SCARD share one lookup and answer from the value they find; so do the hash and score reads in HandleHashRead and HandleScoreRead.
- Interleavings inside one command: each command is one atomic step, which the sharded maps of the original do not guarantee across threads.
- Sockets, tasks, channels and shutdown; the log channel is taken to deliver in order. What the connection does after QUIT or a protocol error.
- fsync policy, atomic rename, disk failure, autosave timing; the checksum of a snapshot is written as zeros and never read.
- Metrics, histograms, tracing and the HTTP endpoint: sums that say nothing about the store.
- Invalid UTF-8 and its lossy replacement.
- `format_command_for_aof` and `truncate`, which the server does not use on these paths.
