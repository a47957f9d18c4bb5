/** Byte strings, machine integers and the small result types every other module uses. */
module Bytes {

  /** A byte is written as the character with the same code, so that ASCII literals can be
      used directly. Nothing below bounds the code, so each theorem holds in particular
      for codes 0 to 255. */
  type byte = char
  type bytes = seq<byte>

  datatype Option<+T> = None | Some(value: T)
  datatype Result<+T, +E> = Ok(value: T) | Err(error: E)
  {
    predicate IsFailure() { Err? }

    function PropagateFailure<U>(): Result<U, E>
      requires Err?
    {
      Err(error)
    }

    function Extract(): T
      requires Ok?
    {
      value
    }
  }

  const TWO_TO_63: int := 0x8000_0000_0000_0000
  const TWO_TO_64: int := 0x1_0000_0000_0000_0000

  type i64 = x: int | -TWO_TO_63 <= x < TWO_TO_63
  type u64 = x: int | 0 <= x < TWO_TO_64

  /** The cast `n as i64`: reduction to 64 bits, read as two's complement. */
  function AsI64(n: int): (r: i64)
    ensures -TWO_TO_63 <= n < TWO_TO_63 ==> r == n
    ensures (n - r) % TWO_TO_64 == 0
  {
    var low := n % TWO_TO_64;
    if low < TWO_TO_63 then low else low - TWO_TO_64
  }

  /** The cast `n as u64` and the wrap-around of unchecked u64 arithmetic. */
  function AsU64(n: int): (r: u64)
    ensures 0 <= n < TWO_TO_64 ==> r == n
  {
    n % TWO_TO_64
  }

  predicate IsLower(c: byte) { 'a' <= c <= 'z' }

  function UpperByte(c: byte): byte
  {
    if IsLower(c) then (c as int - 32) as char else c
  }

  /** `to_ascii_uppercase`. */
  function Upper(s: bytes): (r: bytes)
    ensures |r| == |s|
    ensures forall i :: 0 <= i < |s| ==> r[i] == UpperByte(s[i])
  {
    seq(|s|, i requires 0 <= i < |s| => UpperByte(s[i]))
  }
}
