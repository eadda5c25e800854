/** Unsigned integers of fixed width, and optional values. */
module Basics {
  type Byte = x: int | 0 <= x < 0x100 witness 0
  type Half = x: int | 0 <= x < 0x1_0000 witness 0
  type Word = x: int | 0 <= x < 0x1_0000_0000 witness 0

  datatype Option<+T> = None | Some(value: T)

  // ----- letters -----

  const LOWER := "abcdefghijklmnopqrstuvwxyz"
  const UPPER := "ABCDEFGHIJKLMNOPQRSTUVWXYZ"

  lemma Letters(i: nat)
    requires i < 26
    ensures |LOWER| == |UPPER| == 26 && LOWER[i] as int == 0x61 + i && UPPER[i] as int == 0x41 + i
  {
    if i < 13 {
      if i < 6 { assert i in {0, 1, 2, 3, 4, 5}; } else { assert i in {6, 7, 8, 9, 10, 11, 12}; }
    } else {
      if i < 20 { assert i in {13, 14, 15, 16, 17, 18, 19}; } else { assert i in {20, 21, 22, 23, 24, 25}; }
    }
  }
}
