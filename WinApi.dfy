// The platform types the overlay core relies on: the C# `int` (32-bit,
// unchecked arithmetic) and the Win32 RECT record.

module WinApi {

  const Modulus32: int := 0x1_0000_0000
  const MinInt32: int := -0x8000_0000
  const MaxInt32: int := 0x7FFF_FFFF

  /** The C# `int`. */
  newtype int32 = x: int | -0x8000_0000 <= x < 0x8000_0000

  predicate InInt32Range(x: int) {
    MinInt32 <= x <= MaxInt32
  }

  /** The value C#'s unchecked arithmetic produces for the mathematical result `x`:
      two's-complement wrap-around into the 32-bit range. */
  function Unchecked(x: int): (r: int32)
    ensures InInt32Range(x) ==> r as int == x
    ensures (x - r as int) % Modulus32 == 0
  {
    var shifted := x + 0x8000_0000;
    var q := shifted / Modulus32;
    assert shifted == q * Modulus32 + shifted % Modulus32;
    (shifted % Modulus32 - 0x8000_0000) as int32
  }

  /** `Math.Min` on `int`. */
  function Min(a: int32, b: int32): (r: int32)
    ensures r <= a && r <= b
    ensures r == a || r == b
  {
    if a <= b then a else b
  }

  /** `Math.Max` on `int`. */
  function Max(a: int32, b: int32): (r: int32)
    ensures r >= a && r >= b
    ensures r == a || r == b
  {
    if a >= b then a else b
  }

  /** `WinApi.RECT`: a struct of four `int` fields. */
  datatype Rect = Rect(Left: int32, Top: int32, Right: int32, Bottom: int32)

  /** `new RECT()`: every field holds the default value 0. */
  const ZeroRect: Rect := Rect(0, 0, 0, 0)
}
