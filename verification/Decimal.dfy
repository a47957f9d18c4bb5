/** Decimal text of integers: `to_string` and `parse` as the codec, the counters,
    the TTLs and the scores use them. */
module Decimal {
  import opened Bytes

  predicate IsDigit(c: byte) { '0' <= c <= '9' }

  predicate AllDigits(s: bytes) { forall i :: 0 <= i < |s| ==> IsDigit(s[i]) }

  function DigitOf(d: nat): (c: byte)
    requires d < 10
    ensures IsDigit(c) && DigitValue(c) == d
  {
    (48 + d) as char
  }

  function DigitValue(c: byte): nat
    requires IsDigit(c)
  {
    c as int - 48
  }

  /** Decimal digits of n, most significant first, without leading zeros. */
  function Digits(n: nat): (s: bytes)
    ensures |s| > 0 && AllDigits(s)
    ensures n > 0 ==> s[0] != '0'
  {
    if n < 10 then [DigitOf(n)] else Digits(n / 10) + [DigitOf(n % 10)]
  }

  function DigitsValue(s: bytes): nat
    requires AllDigits(s)
  {
    if s == [] then 0
    else DigitsValue(s[..|s| - 1]) * 10 + DigitValue(s[|s| - 1])
  }

  /** `i.to_string()`. */
  function IntText(i: int): (s: bytes)
    ensures |s| > 0
    ensures forall j :: 0 <= j < |s| ==> IsDigit(s[j]) || s[j] == '-'
  {
    if i < 0 then "-" + Digits(-i) else Digits(i)
  }

  /** The grammar of Rust's `parse` for signed integers: an optional sign and at least
      one digit; leading zeros are accepted. The range is checked by the callers. */
  function ParseInt(s: bytes): Option<int>
  {
    if s == [] then None
    else if s[0] == '-' || s[0] == '+' then
      if |s| == 1 || !AllDigits(s[1..]) then None
      else
        var magnitude: int := DigitsValue(s[1..]);
        Some(if s[0] == '-' then -magnitude else magnitude)
    else if AllDigits(s) then Some(DigitsValue(s))
    else None
  }

  /** `parse::<i64>()`. */
  function ParseI64(s: bytes): (r: Option<i64>)
  {
    match ParseInt(s)
    case Some(i) => if -TWO_TO_63 <= i < TWO_TO_63 then Some(i) else None
    case None => None
  }

  /** `parse::<u64>()`: a plus sign is accepted, a minus sign never is. */
  function ParseU64(s: bytes): (r: Option<u64>)
  {
    if s != [] && s[0] == '-' then None
    else
      match ParseInt(s)
      case Some(i) => if 0 <= i < TWO_TO_64 then Some(i) else None
      case None => None
  }

  lemma {:induction false} DigitsRoundTrip(n: nat)
    ensures DigitsValue(Digits(n)) == n
  {
    if n >= 10 {
      DigitsRoundTrip(n / 10);
      assert Digits(n)[..|Digits(n)| - 1] == Digits(n / 10);
    } else {
      assert Digits(n)[..0] == [];
    }
  }

  /** Printing then parsing any integer gives it back. */
  lemma {:induction false} IntTextRoundTrip(i: int)
    ensures ParseInt(IntText(i)) == Some(i)
    ensures i >= 0 ==> IntText(i)[0] != '-'
  {
    if i < 0 {
      DigitsRoundTrip(-i);
      assert IntText(i)[1..] == Digits(-i);
    } else {
      DigitsRoundTrip(i);
      assert IsDigit(IntText(i)[0]);
    }
  }

  lemma I64TextRoundTrip(i: i64)
    ensures ParseI64(IntText(i)) == Some(i)
  {
    IntTextRoundTrip(i);
  }

  lemma U64TextRoundTrip(n: u64)
    ensures ParseU64(IntText(n)) == Some(n)
  {
    IntTextRoundTrip(n);
  }

  /** Different integers have different texts. */
  lemma IntTextInjective(i: int, j: int)
    requires IntText(i) == IntText(j)
    ensures i == j
  {
    IntTextRoundTrip(i);
    IntTextRoundTrip(j);
  }
}
