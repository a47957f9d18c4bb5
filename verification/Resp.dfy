/** The RESP2 codec as functions: the printer, the recursive-descent parser over a byte
    prefix, and what relates the two. */
module Resp {
  import opened Bytes
  import opened Decimal

  /** `BulkString(None)` and `Array(None)` have constructors of their own. */
  datatype Value =
    | SimpleString(text: bytes)
    | Error(text: bytes)
    | Integer(n: i64)
    | BulkString(bulk: bytes)
    | NilBulk
    | Array(items: seq<Value>)
    | NilArray
    | Null

  /** A protocol error, with the text its message quotes. */
  datatype RespError =
    | UnknownType(tag: byte)
    | InvalidInteger(text: bytes)
    | InvalidBulkLength(text: bytes)
    | InvalidArrayLength(text: bytes)
    | MissingTerminator

  /** `Result<Option<(T, usize)>, RespError>`: a value and the bytes it took, not enough
      bytes yet, or a protocol error. */
  datatype Parsed<+T> = Done(value: T, consumed: nat) | Incomplete | Invalid(error: RespError)

  const CRLF: bytes := "\r\n"

  // ---------------------------------------------------------------- printer

  function Encode(v: Value): (e: bytes)
    ensures |e| >= 3
    decreases v
  {
    match v
    case SimpleString(s) => "+" + s + CRLF
    case Error(s) => "-" + s + CRLF
    case Integer(i) => ":" + IntText(i) + CRLF
    case NilBulk => "$-1\r\n"
    case Null => "$-1\r\n"
    case BulkString(b) => "$" + IntText(|b|) + CRLF + b + CRLF
    case NilArray => "*-1\r\n"
    case Array(items) => "*" + IntText(|items|) + CRLF + EncodeAll(items)
  }

  function EncodeAll(items: seq<Value>): bytes
    decreases items
  {
    if items == [] then [] else Encode(items[0]) + EncodeAll(items[1..])
  }

  // ----------------------------------------------------------------- parser

  predicate CrlfAt(buf: bytes, i: nat) { i + 1 < |buf| && buf[i] == '\r' && buf[i + 1] == '\n' }

  ghost predicate HasCrlf(buf: bytes) { exists i: nat :: CrlfAt(buf, i) }

  /** The position of the first CRLF. */
  function FindCrlf(buf: bytes): (r: Option<nat>)
    ensures r.Some? ==> CrlfAt(buf, r.value) && forall i: nat :: i < r.value ==> !CrlfAt(buf, i)
    ensures r.None? ==> !HasCrlf(buf)
  {
    if |buf| < 2 then None
    else if buf[0] == '\r' && buf[1] == '\n' then Some(0)
    else
      var rest := FindCrlf(buf[1..]);
      assert forall i: nat :: i > 0 && CrlfAt(buf, i) ==> CrlfAt(buf[1..], i - 1);
      match rest
      case Some(i) => Some(i + 1)
      case None => None
  }

  /** The line that starts at `start`, without its CRLF, and the position after the CRLF. */
  function ParseLine(buf: bytes, start: nat): (r: Option<(bytes, nat)>)
    ensures r.Some? ==> start + 2 <= r.value.1 <= |buf|
  {
    if start > |buf| then None
    else
      match FindCrlf(buf[start..])
      case Some(rel) => Some((buf[start..start + rel], start + rel + 2))
      case None => None
  }

  function ParseValue(buf: bytes): (r: Parsed<Value>)
    ensures r.Done? ==> 3 <= r.consumed <= |buf|
    decreases |buf|, 0
  {
    if buf == [] then Incomplete
    else if buf[0] == '+' then ParseText(buf, s => SimpleString(s))
    else if buf[0] == '-' then ParseText(buf, s => Error(s))
    else if buf[0] == ':' then ParseInteger(buf)
    else if buf[0] == '$' then ParseBulkString(buf)
    else if buf[0] == '*' then
      match ParseLine(buf, 1)
      case None => Incomplete
      case Some((line, offset)) =>
        match ParseI64(line)
        case None => Invalid(InvalidArrayLength(line))
        case Some(len) =>
          if len < 0 then Done(Null, offset)
          else
            match ParseItems(buf[offset..], len)
            case Done(items, consumed) => Done(Array(items), offset + consumed)
            case Incomplete => Incomplete
            case Invalid(e) => Invalid(e)
    else Invalid(UnknownType(buf[0]))
  }

  /** `parse_simple_string` and `parse_error`. */
  function ParseText(buf: bytes, wrap: bytes -> Value): (r: Parsed<Value>)
    ensures r.Done? ==> 3 <= r.consumed <= |buf|
  {
    match ParseLine(buf, 1)
    case None => Incomplete
    case Some((line, consumed)) => Done(wrap(line), consumed)
  }

  function ParseInteger(buf: bytes): (r: Parsed<Value>)
    ensures r.Done? ==> 3 <= r.consumed <= |buf|
  {
    match ParseLine(buf, 1)
    case None => Incomplete
    case Some((line, consumed)) =>
      match ParseI64(line)
      case None => Invalid(InvalidInteger(line))
      case Some(i) => Done(Integer(i), consumed)
  }

  function ParseBulkString(buf: bytes): (r: Parsed<Value>)
    ensures r.Done? ==> 3 <= r.consumed <= |buf|
  {
    match ParseLine(buf, 1)
    case None => Incomplete
    case Some((line, offset)) =>
      match ParseI64(line)
      case None => Invalid(InvalidBulkLength(line))
      case Some(len) =>
        if len < 0 then Done(Null, offset)
        else if |buf| < offset + len + 2 then Incomplete
        else if buf[offset + len..offset + len + 2] != CRLF then Invalid(MissingTerminator)
        else Done(BulkString(buf[offset..offset + len]), offset + len + 2)
  }

  /** `count` consecutive values; the specification of the loop of `parse_array`. */
  function ParseItems(buf: bytes, count: nat): (r: Parsed<seq<Value>>)
    ensures r.Done? ==> r.consumed <= |buf| && |r.value| == count
    decreases |buf|, 1, count
  {
    if count == 0 then Done([], 0)
    else
      match ParseValue(buf)
      case Incomplete => Incomplete
      case Invalid(e) => Invalid(e)
      case Done(v, consumed) =>
        match ParseItems(buf[consumed..], count - 1)
        case Incomplete => Incomplete
        case Invalid(e) => Invalid(e)
        case Done(vs, more) => Done([v] + vs, consumed + more)
  }

  /** Completing a sequence of values: `items` were read from the first `consumed` bytes. */
  function Resume(items: seq<Value>, consumed: nat, rest: Parsed<seq<Value>>): Parsed<seq<Value>>
  {
    match rest
    case Done(more, n) => Done(items + more, consumed + n)
    case Incomplete => Incomplete
    case Invalid(e) => Invalid(e)
  }

  /** The outcome of a sequence one of whose values is not there. */
  function Without(turn: Parsed<Value>): Parsed<seq<Value>>
    requires !turn.Done?
  {
    if turn.Incomplete? then Incomplete else Invalid(turn.error)
  }

  lemma ItemsStep(buf: bytes, count: nat, turn: Parsed<Value>)
    requires count > 0 && turn == ParseValue(buf)
    ensures ParseItems(buf, count) ==
      if turn.Done? then Resume([turn.value], turn.consumed, ParseItems(buf[turn.consumed..], count - 1))
      else Without(turn)
  {
  }

  lemma ItemsNone(buf: bytes)
    ensures ParseItems(buf, 0) == Done([], 0)
  {
  }

  lemma BulkDispatch(buf: bytes)
    requires buf != [] && buf[0] == '$'
    ensures ParseValue(buf) == ParseBulkString(buf)
  {
  }

  // -------------------------------------------- outcomes are stable under more bytes

  lemma FindCrlfStable(buf: bytes, more: bytes)
    requires FindCrlf(buf).Some?
    ensures FindCrlf(buf + more) == FindCrlf(buf)
  {
    var i := FindCrlf(buf).value;
    assert CrlfAt(buf + more, i);
    forall j: nat | j < i ensures !CrlfAt(buf + more, j) {
      assert !CrlfAt(buf, j);
    }
  }

  lemma ParseLineStable(buf: bytes, start: nat, more: bytes)
    requires ParseLine(buf, start).Some?
    ensures ParseLine(buf + more, start) == ParseLine(buf, start)
  {
    FindCrlfStable(buf[start..], more);
    assert (buf + more)[start..] == buf[start..] + more;
    var end := start + FindCrlf(buf[start..]).value;
    assert (buf + more)[start..end] == buf[start..end];
  }

  /** A value or an error does not change when more bytes arrive. */
  lemma {:induction false} ParseStable(buf: bytes, more: bytes)
    requires !ParseValue(buf).Incomplete?
    ensures ParseValue(buf + more) == ParseValue(buf)
    decreases |buf|, 0
  {
    if buf[0] in "+-:$*" {
      ParseLineStable(buf, 1, more);
      if buf[0] == '$' {
        BulkStringStable(buf, more);
      } else if buf[0] == '*' {
        var (line, offset) := ParseLine(buf, 1).value;
        var len := ParseI64(line);
        if len.Some? && len.value >= 0 {
          assert (buf + more)[offset..] == buf[offset..] + more;
          ParseItemsStable(buf[offset..], len.value, more);
        }
      }
    }
  }

  lemma BulkStringStable(buf: bytes, more: bytes)
    requires !ParseBulkString(buf).Incomplete?
    ensures ParseBulkString(buf + more) == ParseBulkString(buf)
  {
    ParseLineStable(buf, 1, more);
    var (line, offset) := ParseLine(buf, 1).value;
    var len := ParseI64(line);
    if len.Some? && len.value >= 0 {
      var end := offset + len.value;
      assert (buf + more)[offset..end] == buf[offset..end];
      assert (buf + more)[end..end + 2] == buf[end..end + 2];
    }
  }

  lemma {:induction false} ParseItemsStable(buf: bytes, count: nat, more: bytes)
    requires !ParseItems(buf, count).Incomplete?
    ensures ParseItems(buf + more, count) == ParseItems(buf, count)
    decreases |buf|, 1, count
  {
    hide ParseValue, ParseItems;
    if count == 0 {
      ItemsNone(buf);
      ItemsNone(buf + more);
    } else {
      var turn := ParseValue(buf);
      ItemsStep(buf, count, turn);
      ParseStable(buf, more);
      ItemsStep(buf + more, count, turn);
      if turn.Done? {
        assert (buf + more)[turn.consumed..] == buf[turn.consumed..] + more;
        ParseItemsStable(buf[turn.consumed..], count - 1, more);
      }
    }
  }

  /** Frames are self-delimiting: every proper prefix of a frame is incomplete. */
  lemma ProperPrefixIncomplete(buf: bytes, k: nat)
    requires ParseValue(buf).Done? && k < ParseValue(buf).consumed
    ensures ParseValue(buf[..k]).Incomplete?
  {
    assert buf[..k] + buf[k..] == buf;
    if !ParseValue(buf[..k]).Incomplete? {
      ParseStable(buf[..k], buf[k..]);
    }
  }

  // ------------------------------------------------------------- round trip

  /** What the null forms become on the way through the wire. */
  function Collapse(v: Value): Value
    decreases v
  {
    match v
    case NilBulk => Null
    case NilArray => Null
    case Array(items) => Array(CollapseAll(items))
    case _ => v
  }

  function CollapseAll(items: seq<Value>): (r: seq<Value>)
    ensures |r| == |items|
    decreases items
  {
    if items == [] then [] else [Collapse(items[0])] + CollapseAll(items[1..])
  }

  /** The values the wire can carry: no line text holds a CRLF, and every length is one
      that a Rust `Vec` or `Bytes` can have. */
  ghost predicate Wire(v: Value)
    decreases v
  {
    match v
    case SimpleString(s) => !HasCrlf(s)
    case Error(s) => !HasCrlf(s)
    case BulkString(b) => |b| < TWO_TO_63
    case Array(items) => |items| < TWO_TO_63 && WireAll(items)
    case _ => true
  }

  ghost predicate WireAll(items: seq<Value>)
    decreases items
  {
    items == [] || (Wire(items[0]) && WireAll(items[1..]))
  }

  /** The line after a tag byte: found exactly when the text holds no CRLF of its own,
      and never longer than the text. */
  lemma LineFound(tag: byte, s: bytes, rest: bytes)
    ensures ParseLine([tag] + s + CRLF + rest, 1).Some?
    ensures !HasCrlf(s) ==> ParseLine([tag] + s + CRLF + rest, 1).value == (s, |s| + 3)
    ensures HasCrlf(s) ==> |ParseLine([tag] + s + CRLF + rest, 1).value.0| < |s|
  {
    var buf := [tag] + s + CRLF + rest;
    var tail := s + CRLF + rest;
    assert buf[1..] == tail;
    assert CrlfAt(tail, |s|);
    assert FindCrlf(tail).Some?;
    var i := FindCrlf(tail).value;
    assert i <= |s|;
    assert forall k: nat :: k + 1 < |s| && CrlfAt(tail, k) ==> CrlfAt(s, k);
    if HasCrlf(s) {
      var j: nat :| CrlfAt(s, j);
      assert CrlfAt(tail, j);
    } else {
      assert buf[1..1 + |s|] == s;
    }
  }

  lemma IntTextHasNoCrlf(i: int)
    ensures !HasCrlf(IntText(i))
  {
    assert forall j: nat :: j < |IntText(i)| ==> IntText(i)[j] != '\r';
  }

  /** A printed number after a tag byte is read back. */
  lemma NumberLine(tag: byte, i: int, rest: bytes)
    ensures ParseLine([tag] + IntText(i) + CRLF + rest, 1) == Some((IntText(i), |IntText(i)| + 3))
    ensures ParseI64(IntText(i)) == if -TWO_TO_63 <= i < TWO_TO_63 then Some(i) else None
  {
    IntTextHasNoCrlf(i);
    LineFound(tag, IntText(i), rest);
    IntTextRoundTrip(i);
  }

  lemma BulkRoundTrip(b: bytes, rest: bytes)
    ensures ParseValue(Encode(BulkString(b)) + rest) ==
      if |b| < TWO_TO_63 then Done(BulkString(b), |Encode(BulkString(b))|)
      else Invalid(InvalidBulkLength(IntText(|b|)))
  {
    var head := IntText(|b|);
    var body := b + CRLF + rest;
    var buf := ['$'] + head + CRLF + body;
    assert Encode(BulkString(b)) + rest == buf;
    NumberLine('$', |b|, body);
    BulkDispatch(buf);
    if |b| < TWO_TO_63 { BulkBody(buf, head, |head| + 3, b, rest); }
  }

  lemma BulkBody(buf: bytes, head: bytes, offset: nat, b: bytes, rest: bytes)
    requires |buf| > 0 && buf[0] == '$' && ParseLine(buf, 1) == Some((head, offset))
    requires ParseI64(head) == Some(|b|) && buf[offset..] == b + CRLF + rest
    ensures ParseBulkString(buf) == Done(BulkString(b), offset + |b| + 2)
  {
    var end := offset + |b|;
    assert buf[offset..end] == buf[offset..][..|b|] == b;
    assert buf[end..end + 2] == buf[offset..][|b|..|b| + 2] == CRLF;
  }

  /** Round trip: what follows the frame is untouched and the frame is taken whole. */
  lemma {:induction false} RoundTrip(v: Value, rest: bytes)
    requires Wire(v)
    ensures ParseValue(Encode(v) + rest) == Done(Collapse(v), |Encode(v)|)
    decreases v
  {
    var buf := Encode(v) + rest;
    match v
    case SimpleString(s) => TextRoundTrip(v, '+', s, rest);
    case Error(s) => TextRoundTrip(v, '-', s, rest);
    case Integer(i) =>
      assert buf == [':'] + IntText(i) + CRLF + rest;
      NumberLine(':', i, rest);
    case BulkString(b) => BulkRoundTrip(b, rest);
    case NilBulk => NullRoundTrip('$', rest);
    case Null => NullRoundTrip('$', rest);
    case NilArray => NullRoundTrip('*', rest);
    case Array(items) =>
      ArrayHead(items, rest);
      ItemsRoundTrip(items, rest);
  }

  /** A text line comes back exactly when it holds no CRLF; otherwise it comes back shorter. */
  lemma TextRoundTrip(v: Value, tag: byte, s: bytes, rest: bytes)
    requires (tag == '+' && v == SimpleString(s)) || (tag == '-' && v == Error(s))
    ensures ParseValue(Encode(v) + rest).Done?
    ensures !HasCrlf(s) ==> ParseValue(Encode(v) + rest) == Done(v, |Encode(v)|)
    ensures HasCrlf(s) ==> ParseValue(Encode(v) + rest).value != v
  {
    assert Encode(v) + rest == [tag] + s + CRLF + rest;
    LineFound(tag, s, rest);
  }

  lemma NullRoundTrip(tag: byte, rest: bytes)
    requires tag == '$' || tag == '*'
    ensures ParseValue([tag] + "-1\r\n" + rest) == Done(Null, 5)
    ensures "$-1\r\n" == ['$'] + "-1\r\n" && "*-1\r\n" == ['*'] + "-1\r\n"
  {
    assert IntText(-1) == "-1";
    assert [tag] + "-1\r\n" + rest == [tag] + IntText(-1) + CRLF + rest;
    NumberLine(tag, -1, rest);
  }

  /** An array frame is read by reading its items after the head. */
  lemma ArrayHead(items: seq<Value>, rest: bytes)
    ensures var v := Array(items);
      var offset := |IntText(|items|)| + 3;
      && |Encode(v)| == offset + |EncodeAll(items)|
      && ParseValue(Encode(v) + rest) ==
           if |items| < TWO_TO_63 then
             match ParseItems(EncodeAll(items) + rest, |items|)
             case Done(vs, consumed) => Done(Array(vs), offset + consumed)
             case Incomplete => Incomplete
             case Invalid(e) => Invalid(e)
           else Invalid(InvalidArrayLength(IntText(|items|)))
  {
    hide ParseItems, EncodeAll;
    var buf := Encode(Array(items)) + rest;
    var body := EncodeAll(items) + rest;
    assert buf == ['*'] + IntText(|items|) + CRLF + body;
    NumberLine('*', |items|, body);
    assert buf[|IntText(|items|)| + 3..] == body;
  }

  lemma ItemsFront(items: seq<Value>, rest: bytes)
    requires items != []
    ensures var head, tail := Encode(items[0]), EncodeAll(items[1..]) + rest;
      EncodeAll(items) + rest == head + tail && (head + tail)[|head|..] == tail
  {
    var head, tail := Encode(items[0]), EncodeAll(items[1..]);
    assert EncodeAll(items) == head + tail;
    DropFront(head, tail, rest);
  }

  lemma DropFront(head: bytes, tail: bytes, rest: bytes)
    ensures head + tail + rest == head + (tail + rest) && (head + (tail + rest))[|head|..] == tail + rest
  {
  }

  lemma {:induction false} ItemsRoundTrip(items: seq<Value>, rest: bytes)
    requires WireAll(items)
    ensures ParseItems(EncodeAll(items) + rest, |items|) == Done(CollapseAll(items), |EncodeAll(items)|)
    decreases items
  {
    hide ParseValue, ParseItems, Encode;
    if items == [] {
      ItemsNone(EncodeAll(items) + rest);
    } else {
      ItemsFront(items, rest);
      var head, tail := Encode(items[0]), EncodeAll(items[1..]) + rest;
      RoundTrip(items[0], tail);
      ItemsStep(head + tail, |items|, Done(Collapse(items[0]), |head|));
      ItemsRoundTrip(items[1..], rest);
    }
  }

  /** A value the wire cannot carry is never read back, whatever follows it. */
  lemma {:induction false} NoRoundTrip(v: Value, rest: bytes)
    requires !Wire(v)
    ensures var r := ParseValue(Encode(v) + rest); r.Done? ==> r.value != Collapse(v)
    decreases v
  {
    var buf := Encode(v) + rest;
    match v
    case SimpleString(s) => TextRoundTrip(v, '+', s, rest);
    case Error(s) => TextRoundTrip(v, '-', s, rest);
    case BulkString(b) => BulkRoundTrip(b, rest);
    case Array(items) =>
      ArrayHead(items, rest);
      if |items| < TWO_TO_63 { NoItemsRoundTrip(items, rest); }
  }

  lemma {:induction false} NoItemsRoundTrip(items: seq<Value>, rest: bytes)
    requires !WireAll(items)
    ensures var r := ParseItems(EncodeAll(items) + rest, |items|);
      r.Done? ==> r.value != CollapseAll(items)
    decreases items
  {
    hide ParseValue, ParseItems, Encode, EncodeAll;
    ItemsFront(items, rest);
    var head, tail := Encode(items[0]), EncodeAll(items[1..]) + rest;
    var turn := ParseValue(head + tail);
    ItemsStep(head + tail, |items|, turn);
    var all := CollapseAll(items);
    assert all[0] == Collapse(items[0]) && all[1..] == CollapseAll(items[1..]);
    if Wire(items[0]) {
      RoundTrip(items[0], tail);
      NoItemsRoundTrip(items[1..], rest);
      NotAfter(turn.value, turn.consumed, ParseItems(tail, |items| - 1), all);
    } else {
      NoRoundTrip(items[0], tail);
      if turn.Done? {
        NotBefore(turn.value, turn.consumed, ParseItems((head + tail)[turn.consumed..], |items| - 1), all);
      }
    }
  }

  lemma NotAfter(v: Value, n: nat, rest: Parsed<seq<Value>>, all: seq<Value>)
    requires all != [] && (rest.Done? ==> rest.value != all[1..])
    ensures var r := Resume([v], n, rest); r.Done? ==> r.value != all
  {
    assert rest.Done? ==> ([v] + rest.value)[1..] == rest.value;
  }

  lemma NotBefore(v: Value, n: nat, rest: Parsed<seq<Value>>, all: seq<Value>)
    requires all != [] && v != all[0]
    ensures var r := Resume([v], n, rest); r.Done? ==> r.value != all
  {
    assert rest.Done? ==> ([v] + rest.value)[0] == v;
  }

  /** The wire carries a value exactly when `Wire` holds. */
  lemma RoundTripExactly(v: Value, rest: bytes)
    ensures Wire(v) <==> ParseValue(Encode(v) + rest) == Done(Collapse(v), |Encode(v)|)
  {
    if Wire(v) { RoundTrip(v, rest); } else { NoRoundTrip(v, rest); }
  }

  // ------------------------------------------------- the values the decoder produces

  /** Values that go through the wire unchanged. */
  ghost predicate Decodable(v: Value) { Wire(v) && Collapse(v) == v }

  ghost predicate DecodableAll(items: seq<Value>) { WireAll(items) && CollapseAll(items) == items }

  lemma {:induction false} DecodableItems(items: seq<Value>)
    ensures DecodableAll(items) <==> forall i :: 0 <= i < |items| ==> Decodable(items[i])
    decreases items
  {
    if items != [] {
      DecodableItems(items[1..]);
      assert items == [items[0]] + items[1..];
      if DecodableAll(items) {
        assert CollapseAll(items)[0] == items[0];
        assert CollapseAll(items)[1..] == items[1..];
        forall i | 0 <= i < |items| ensures Decodable(items[i]) {
          if i > 0 { assert items[i] == items[1..][i - 1]; }
        }
      }
      if forall i :: 0 <= i < |items| ==> Decodable(items[i]) {
        assert forall i :: 0 <= i < |items[1..]| ==> items[1..][i] == items[i + 1];
      }
    }
  }

  /** Everything the parser produces is decodable. */
  lemma {:induction false} ParsedIsDecodable(buf: bytes)
    requires ParseValue(buf).Done?
    ensures Decodable(ParseValue(buf).value)
    decreases |buf|, 0
  {
    if buf[0] in "+-" {
      LineHasNoCrlf(buf);
    } else if buf[0] == '*' {
      var (line, offset) := ParseLine(buf, 1).value;
      var len := ParseI64(line).value;
      if len >= 0 { ParsedItemsAreDecodable(buf[offset..], len); }
    }
  }

  lemma LineHasNoCrlf(buf: bytes)
    requires ParseLine(buf, 1).Some?
    ensures !HasCrlf(ParseLine(buf, 1).value.0)
  {
    var line := ParseLine(buf, 1).value.0;
    assert forall j: nat :: CrlfAt(line, j) ==> CrlfAt(buf[1..], j);
  }

  lemma {:induction false} ParsedItemsAreDecodable(buf: bytes, count: nat)
    requires ParseItems(buf, count).Done?
    ensures DecodableAll(ParseItems(buf, count).value)
    decreases |buf|, 1, count
  {
    if count > 0 {
      ParsedIsDecodable(buf);
      var consumed := ParseValue(buf).consumed;
      ParsedItemsAreDecodable(buf[consumed..], count - 1);
      var all := ParseItems(buf, count).value;
      assert all[1..] == ParseItems(buf[consumed..], count - 1).value;
    }
  }

  /** The decoder's range is exactly the decodable values, and each of them re-encodes to
      a frame that decodes to itself. */
  lemma DecodableExactly(v: Value)
    ensures Decodable(v) <==> exists buf :: ParseValue(buf).Done? && ParseValue(buf).value == v
    ensures Decodable(v) ==> ParseValue(Encode(v)) == Done(v, |Encode(v)|)
  {
    if Decodable(v) {
      RoundTrip(v, []);
      assert Encode(v) + [] == Encode(v);
    }
    if buf :| ParseValue(buf).Done? && ParseValue(buf).value == v {
      ParsedIsDecodable(buf);
    }
  }
}
