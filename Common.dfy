/** Shared vocabulary of the input library: the raw button signal, the
    fixed-width integer types the C++ code computes with, and the outcome of
    an operation that can raise one of the library's exceptions. */
module Common {

  /** The raw binary signal of one button. `NotSet` is a sentinel meaning
      "no report"; it is the enumeration's value-initialised value. */
  datatype ButtonState = NotSet | Down | Up

  const TWO_TO_8: int := 0x100
  const TWO_TO_16: int := 0x1_0000
  const TWO_TO_32: int := 0x1_0000_0000
  const TWO_TO_63: int := 0x8000_0000_0000_0000
  const TWO_TO_64: int := 0x1_0000_0000_0000_0000

  /** `uint64_t`, `uint16_t` and `uint8_t` values. */
  type U64 = x: int | 0 <= x < TWO_TO_64
  type U16 = x: int | 0 <= x < TWO_TO_16
  type U8 = x: int | 0 <= x < TWO_TO_8

  /** `a - b` computed on `uint64_t`: wraps around modulo 2^64. */
  function Sub64(a: U64, b: U64): (r: U64)
    ensures b <= a ==> r == a - b
    ensures a < b ==> r == a - b + TWO_TO_64
  {
    (a - b) % TWO_TO_64
  }

  /** `x + 1` computed on `uint16_t`. */
  function Inc16(x: U16): (r: U16)
    ensures x < TWO_TO_16 - 1 ==> r == x + 1
    ensures x == TWO_TO_16 - 1 ==> r == 0
  {
    (x + 1) % TWO_TO_16
  }

  /** `static_cast<uint16_t>(x)`: keeps the low 16 bits. */
  function Trunc16(x: int): (r: U16)
    ensures 0 <= x < TWO_TO_16 ==> r == x
  {
    x % TWO_TO_16
  }

  /** `static_cast<int64_t>(x)` of a `uint64_t` (two's complement). */
  function AsInt64(x: U64): (r: int)
    ensures -TWO_TO_63 <= r < TWO_TO_63
    ensures x < TWO_TO_63 ==> r == x
    ensures r % TWO_TO_64 == x
  {
    if x < TWO_TO_63 then x else x - TWO_TO_64
  }

  /** The exceptions the modelled code raises. */
  datatype Error =
    | BadParameters(name: string)   // an unknown key name
    | LogicError                     // an 'Unassigned' key binding
    | DuplicateItem                  // a key combination bound twice
    | UnexpectedValue                // an unknown raw-input type

  /** Either the operation completed or it raised `error`. */
  datatype Outcome = Pass | Fail(error: Error)

  datatype Result<+T> = Success(value: T) | Failure(error: Error)
}
