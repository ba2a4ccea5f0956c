/** Bytes as the driver sees them, and the one sequence operation it relies on
    (reversing a slice). */
module Bytes {

  /** An unsigned 8-bit value (Rust `u8`). */
  type Byte = b: int | 0 <= b < 0x100

  /** ASCII codes the formatter and the segment table use. */
  const SPACE: Byte := 0x20
  const MINUS: Byte := 0x2D
  const ZERO: Byte := 0x30
  const SMALL_A: Byte := 0x61
  const QUESTION: Byte := 0x3F

  /** The three-byte text `Err`. */
  const ERR: seq<Byte> := [0x45, 0x72, 0x72]

  /** `s` read from its last element to its first. */
  function Reversed<T>(s: seq<T>): (r: seq<T>)
    ensures |r| == |s|
  {
    if s == [] then [] else [s[|s| - 1]] + Reversed(s[..|s| - 1])
  }

  /** Reversal keeps the length and mirrors every index. */
  lemma {:induction false} ReversedAt<T>(s: seq<T>, k: nat)
    requires k < |s|
    ensures Reversed(s)[k] == s[|s| - 1 - k]
  {
    if k > 0 {
      ReversedAt(s[..|s| - 1], k - 1);
    }
  }

  /** Appending at the back puts the element at the front of the reversal. */
  lemma ReversedSnoc<T>(s: seq<T>, x: T)
    ensures Reversed(s + [x]) == [x] + Reversed(s)
  {
    assert (s + [x])[..|s|] == s;
  }
}
