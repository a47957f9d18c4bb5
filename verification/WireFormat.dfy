/** The format on the wire, frame by frame, said without the printer and the parser: each type
    of the Redis serialization protocol has its own first byte and its own shape. */
module WireFormat {
  import opened Bytes
  import opened Decimal
  import opened Resp

  // ------------------------------------------------------------------ decimal numbers

  /** The ten digits, and a minus sign before a negative number. */
  lemma SmallTexts()
    ensures IntText(0) == "0" && IntText(1) == "1" && IntText(2) == "2" && IntText(3) == "3" && IntText(4) == "4"
    ensures IntText(5) == "5" && IntText(6) == "6" && IntText(7) == "7" && IntText(8) == "8" && IntText(9) == "9"
    ensures forall n: int :: n > 0 ==> IntText(-n) == "-" + IntText(n)
  {
  }

  /** One more digit at the end multiplies by ten and adds the digit. */
  lemma NextDigit(n: nat, d: nat)
    requires n > 0 && d < 10
    ensures IntText(10 * n + d) == IntText(n) + IntText(d)
  {
    assert (10 * n + d) / 10 == n && (10 * n + d) % 10 == d;
  }

  /** What the integer parsers accept: a sign of either kind, leading zeros, and no more. */
  lemma IntegerWords(n: int)
    requires n >= 0
    ensures ParseInt(IntText(n)) == Some(n) && ParseInt("+" + IntText(n)) == Some(n)
    ensures ParseInt("-" + IntText(n)) == Some(-n)
    ensures ParseInt("0" + IntText(n)) == Some(n)
    ensures ParseInt([]) == None && ParseInt("+") == None && ParseInt("-") == None && ParseInt("1 ") == None
  {
    DigitsRoundTrip(n);
    assert ("+" + IntText(n))[1..] == IntText(n) && ("-" + IntText(n))[1..] == IntText(n);
    LeadingZero(Digits(n));
    assert !AllDigits("1 ") by { assert "1 "[1] == ' '; }
  }

  lemma {:induction false} LeadingZero(s: bytes)
    requires AllDigits(s)
    ensures AllDigits("0" + s) && DigitsValue("0" + s) == DigitsValue(s)
  {
    var t := "0" + s;
    if s != [] {
      LeadingZero(s[..|s| - 1]);
      assert t[..|t| - 1] == "0" + s[..|s| - 1];
    } else {
      assert t[..0] == [];
    }
  }

  // ------------------------------------------------------------------ reading a frame

  /** "+" opens a simple string, whatever text without a line end follows. */
  lemma SimpleStringFrame(s: bytes, rest: bytes)
    requires !HasCrlf(s)
    ensures ParseValue("+" + s + "\r\n" + rest) == Done(SimpleString(s), |s| + 3)
  {
    LineFound('+', s, rest);
    assert "+" + s + "\r\n" + rest == ['+'] + s + CRLF + rest;
  }

  /** "-" opens an error. */
  lemma ErrorFrame(s: bytes, rest: bytes)
    requires !HasCrlf(s)
    ensures ParseValue("-" + s + "\r\n" + rest) == Done(Error(s), |s| + 3)
  {
    LineFound('-', s, rest);
    assert "-" + s + "\r\n" + rest == ['-'] + s + CRLF + rest;
  }

  /** ":" opens an integer; one beyond 64 bits is refused. */
  lemma IntegerFrame(i: int, rest: bytes)
    ensures ParseValue(":" + IntText(i) + "\r\n" + rest) ==
      if -TWO_TO_63 <= i < TWO_TO_63 then Done(Integer(i), |IntText(i)| + 3) else Invalid(InvalidInteger(IntText(i)))
  {
    NumberLine(':', i, rest);
    assert ":" + IntText(i) + "\r\n" + rest == [':'] + IntText(i) + CRLF + rest;
  }

  /** "$" opens a bulk string: its length on a line, then as many bytes, whatever they are, and
      a line end. */
  lemma BulkFrame(b: bytes, rest: bytes)
    requires |b| < TWO_TO_63
    ensures ParseValue("$" + IntText(|b|) + "\r\n" + b + "\r\n" + rest) == Done(BulkString(b), |IntText(|b|)| + |b| + 5)
  {
    var head, body := IntText(|b|), b + CRLF + rest;
    var buf := ['$'] + head + CRLF + body;
    assert "$" + head + "\r\n" + b + "\r\n" + rest == buf;
    NumberLine('$', |b|, body);
    BulkDispatch(buf);
    BulkBody(buf, head, |head| + 3, b, rest);
  }

  /** Without that line end it is refused. */
  lemma BulkUnterminated(b: bytes, x: byte, y: byte, rest: bytes)
    requires |b| < TWO_TO_63 && [x, y] != "\r\n"
    ensures ParseValue("$" + IntText(|b|) + "\r\n" + b + [x, y] + rest) == Invalid(MissingTerminator)
  {
    var head, body := IntText(|b|), b + [x, y] + rest;
    var buf := ['$'] + head + CRLF + body;
    assert "$" + head + "\r\n" + b + [x, y] + rest == buf;
    NumberLine('$', |b|, body);
    BulkDispatch(buf);
    var offset := |head| + 3;
    assert buf[offset..] == body;
    assert buf[offset + |b|..offset + |b| + 2] == body[|b|..|b| + 2] == [x, y];
  }

  /** "*" opens an array: the number of items on a line, then the items one after another. */
  lemma ArrayFrame(items: seq<Value>, body: bytes, consumed: nat)
    requires |items| < TWO_TO_63 && ParseItems(body, |items|) == Done(items, consumed)
    ensures ParseValue("*" + IntText(|items|) + "\r\n" + body) == Done(Array(items), |IntText(|items|)| + 3 + consumed)
  {
    hide ParseItems;
    var buf := ['*'] + IntText(|items|) + CRLF + body;
    assert "*" + IntText(|items|) + "\r\n" + body == buf;
    NumberLine('*', |items|, body);
    assert buf[|IntText(|items|)| + 3..] == body;
  }

  /** A negative length of either kind is a null. */
  lemma NullFrames(n: int, rest: bytes)
    requires 0 < n <= TWO_TO_63
    ensures ParseValue("$" + IntText(-n) + "\r\n" + rest) == Done(Null, |IntText(-n)| + 3)
    ensures ParseValue("*" + IntText(-n) + "\r\n" + rest) == Done(Null, |IntText(-n)| + 3)
  {
    NumberLine('$', -n, rest);
    NumberLine('*', -n, rest);
    assert "$" + IntText(-n) + "\r\n" + rest == ['$'] + IntText(-n) + CRLF + rest;
    assert "*" + IntText(-n) + "\r\n" + rest == ['*'] + IntText(-n) + CRLF + rest;
  }

  /** Any other first byte is refused, and nothing is read of an empty buffer. */
  lemma OtherFrames(buf: bytes)
    ensures buf == [] ==> ParseValue(buf) == Incomplete
    ensures buf != [] && buf[0] !in "+-:$*" ==> ParseValue(buf) == Invalid(UnknownType(buf[0]))
  {
  }

  // ----------------------------------------------------------------- printing a frame

  /** What each value is printed as: the frames above. */
  lemma Frames(v: Value)
    ensures v.SimpleString? ==> Encode(v) == "+" + v.text + "\r\n"
    ensures v.Error? ==> Encode(v) == "-" + v.text + "\r\n"
    ensures v.Integer? ==> Encode(v) == ":" + IntText(v.n) + "\r\n"
    ensures v.BulkString? ==> Encode(v) == "$" + IntText(|v.bulk|) + "\r\n" + v.bulk + "\r\n"
    ensures v.Array? ==> Encode(v) == "*" + IntText(|v.items|) + "\r\n" + EncodeAll(v.items)
    ensures v.NilBulk? || v.Null? ==> Encode(v) == "$" + IntText(-1) + "\r\n"
    ensures v.NilArray? ==> Encode(v) == "*" + IntText(-1) + "\r\n"
  {
    if v.NilBulk? || v.Null? || v.NilArray? { SmallTexts(); }
  }

  /** The printer agrees with the format: whatever is printed with a first byte is a value of the
      type that this byte opens. */
  lemma FirstByte(v: Value)
    ensures Encode(v)[0] == '+' <==> v.SimpleString?
    ensures Encode(v)[0] == '-' <==> v.Error?
    ensures Encode(v)[0] == ':' <==> v.Integer?
    ensures Encode(v)[0] == '$' <==> v.BulkString? || v.NilBulk? || v.Null?
    ensures Encode(v)[0] == '*' <==> v.Array? || v.NilArray?
  {
  }

  /** The frames of the protocol's own examples. */
  lemma Examples()
    ensures Encode(SimpleString("OK")) == "+OK\r\n" && Encode(Error("ERR")) == "-ERR\r\n"
    ensures Encode(Integer(123)) == ":123\r\n" && Encode(BulkString("hello")) == "$5\r\nhello\r\n"
    ensures Encode(NilBulk) == "$-1\r\n" && Encode(Null) == "$-1\r\n" && Encode(NilArray) == "*-1\r\n"
  {
    SmallTexts();
    NextDigit(1, 2);
    NextDigit(12, 3);
    assert IntText(123) == "123";
  }
}
