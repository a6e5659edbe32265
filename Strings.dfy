// C# strings: sequences of UTF-16 code units.

module Strings {

  /** A UTF-16 code unit: the C# `char`. */
  newtype CodeUnit = x: int | 0 <= x < 0x1_0000

  /** A C# `string`. Its `Length`, its indices and the arguments of `Remove`,
      `Insert` and range slicing all count code units, so a character outside
      the Basic Multilingual Plane takes two places (a surrogate pair). */
  type NetString = seq<CodeUnit>
}
