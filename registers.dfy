/** The MAX7219 register map and the decode-mode codes: closed sets with
    fixed one-byte values. */
module Registers {
  import opened Bytes

  /** The chip's addressable command registers. */
  datatype Register =
    | Noop
    | Digit0 | Digit1 | Digit2 | Digit3 | Digit4 | Digit5 | Digit6 | Digit7
    | DecodeMode
    | Intensity
    | ScanLimit
    | Power
    | DisplayTest

  /** The address byte of a register (the enum's discriminant). */
  function Address(r: Register): (a: Byte)
    ensures a <= 0x0C || a == 0x0F
    ensures r.Noop? <==> a == 0x00
    ensures IsDigit(r) <==> 0x01 <= a <= 0x08
  {
    match r
    case Noop => 0x00
    case Digit0 => 0x01
    case Digit1 => 0x02
    case Digit2 => 0x03
    case Digit3 => 0x04
    case Digit4 => 0x05
    case Digit5 => 0x06
    case Digit6 => 0x07
    case Digit7 => 0x08
    case DecodeMode => 0x09
    case Intensity => 0x0A
    case ScanLimit => 0x0B
    case Power => 0x0C
    case DisplayTest => 0x0F
  }

  predicate IsDigit(r: Register)
  {
    r.Digit0? || r.Digit1? || r.Digit2? || r.Digit3? ||
    r.Digit4? || r.Digit5? || r.Digit6? || r.Digit7?
  }

  /** The register of digit `k`, 0 through 7. */
  function DigitRegister(k: nat): (r: Register)
    requires k < 8
    ensures IsDigit(r)
    ensures Address(r) == k + 1
  {
    [Digit0, Digit1, Digit2, Digit3, Digit4, Digit5, Digit6, Digit7][k]
  }

  /** No two registers share an address. */
  lemma AddressInjective(r1: Register, r2: Register)
    ensures Address(r1) == Address(r2) ==> r1 == r2
  {
  }

  /** Decode modes for BCD-encoded input. */
  datatype DecodeMode = NoDecode | CodeBDigit0 | CodeBDigits3_0 | CodeBDigits7_0

  /** The byte written to the decode-mode register for a mode: one bit per
      digit that the chip decodes. */
  function Code(m: DecodeMode): (c: Byte)
    ensures m.NoDecode? <==> c == 0x00
    ensures m.CodeBDigit0? <==> c == 0x01
    ensures m.CodeBDigits3_0? <==> c == 0x0F
    ensures m.CodeBDigits7_0? <==> c == 0xFF
  {
    match m
    case NoDecode => 0x00
    case CodeBDigit0 => 0x01
    case CodeBDigits3_0 => 0x0F
    case CodeBDigits7_0 => 0xFF
  }
}
