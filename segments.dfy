/** The segment encoder: an ASCII byte becomes the pattern of lit segments
    of one 7-segment digit.

    Bit layout of a segment byte: bit 7 is the decimal point, bits 6..0 are
    segments A, B, C, D, E, F, G. */
module Segments {
  import opened Bytes

  /** The stylised `?` shown for every byte the table does not know. */
  const FALLBACK: bv8 := 0xE5  // 0b1110_0101

  /** The decimal-point bit. */
  const DOT: bv8 := 0x80

  /** The characters the table renders; every other byte gets FALLBACK.
      `b`, `d` and `q` have no upper-case entry. */
  predicate Supported(c: char)
  {
    '0' <= c <= '9' || c == ' ' || c == '.' || c == '-' || c == '_' ||
    c == 'a' || c == 'b' || c == 'c' || c == 'd' || c == 'e' || c == 'f' || c == 'g' || c == 'h' || c == 'i' || c == 'j' || c == 'l' || c == 'n' || c == 'o' || c == 'p' || c == 'q' || c == 'r' || c == 's' || c == 'u' ||
    c == 'A' || c == 'C' || c == 'E' || c == 'F' || c == 'G' || c == 'H' || c == 'I' || c == 'J' || c == 'L' || c == 'N' || c == 'O' || c == 'P' || c == 'R' || c == 'S' || c == 'U'
  }

  /** The lookup table of `ssb_byte`, before the dot is applied. */
  function Glyph(c: char): (g: bv8)
    ensures g == FALLBACK <==> !Supported(c)
    ensures g & DOT == DOT <==> c == '.' || !Supported(c)
  {
    match c
    case ' ' => 0x00          // blank
    case '.' => 0x80
    case '-' => 0x01
    case '_' => 0x08
    case '0' => 0x7E
    case '1' => 0x30
    case '2' => 0x6D
    case '3' => 0x79
    case '4' => 0x33
    case '5' => 0x5B
    case '6' => 0x5F
    case '7' => 0x70
    case '8' => 0x7F
    case '9' => 0x7B
    case 'a' | 'A' => 0x77
    case 'b' => 0x1F
    case 'c' | 'C' => 0x4E
    case 'd' => 0x3D
    case 'e' | 'E' => 0x4F
    case 'f' | 'F' => 0x47
    case 'g' | 'G' => 0x5E
    case 'h' | 'H' => 0x37
    case 'i' | 'I' => 0x30
    case 'j' | 'J' => 0x3C
    case 'l' | 'L' => 0x0E
    case 'n' | 'N' => 0x15
    case 'o' | 'O' => 0x7E
    case 'p' | 'P' => 0x67
    case 'q' => 0x73
    case 'r' | 'R' => 0x05
    case 's' | 'S' => 0x5B
    case 'u' | 'U' => 0x3E
    case _ => FALLBACK
  }

  /** `ssb_byte`: the segment byte for ASCII byte `b`, with the decimal point
      turned on when `dot` holds. Total over all bytes. The decimal-point bit
      is set exactly when `dot` holds, `b` is `.`, or `b` shows the fallback
      glyph (whose pattern has bit 7 set); the dot never disturbs the seven
      segment bits. */
  function SsbByte(b: Byte, dot: bool): (r: bv8)
    ensures r & DOT == DOT <==> dot || b as char == '.' || !Supported(b as char)
    ensures r & 0x7F == Glyph(b as char) & 0x7F
    ensures dot ==> r == Glyph(b as char) | DOT
  {
    var result := Glyph(b as char);
    if dot then result | DOT else result
  }

  /** A byte the table renders without lighting the decimal point. */
  predicate Legible(b: Byte)
  {
    Supported(b as char) && b as char != '.'
  }

  /** Without a requested dot, a legible byte leaves bit 7 clear, so its
      segment byte is below 0x80 and is not the fallback glyph. */
  lemma LegibleIsDotless(b: Byte)
    requires Legible(b)
    ensures SsbByte(b, false) as int < 0x80
    ensures SsbByte(b, false) != FALLBACK
  {
  }

  /** With the dot requested, the result is the dotless result with bit 7
      OR-ed in, whichever table entry matched. */
  lemma DotIsBit7(b: Byte)
    ensures SsbByte(b, true) == SsbByte(b, false) | DOT
    ensures SsbByte(b, true) >= DOT
  {
  }

  /** A byte shows the fallback glyph exactly when the table has no entry
      for it. */
  lemma FallbackExactlyUnsupported(b: Byte)
    ensures SsbByte(b, false) == FALLBACK <==> !Supported(b as char)
  {
  }

  /** Letters with no rendering, including upper-case B, D and Q, show the
      fallback glyph. */
  lemma UnrenderableLetters()
    ensures SsbByte('K' as Byte, false) == SsbByte('Z' as Byte, false) == FALLBACK
    ensures SsbByte('B' as Byte, false) == SsbByte('D' as Byte, false) == SsbByte('Q' as Byte, false) == FALLBACK
    ensures SsbByte('@' as Byte, false) == FALLBACK
  {
  }

  /** `1`, `i` and `I` share a pattern, as do `0`, `o` and `O`, and so do
      `5` with `s`/`S`. */
  lemma SharedPatterns()
    ensures SsbByte('1' as Byte, false) == SsbByte('i' as Byte, false) == SsbByte('I' as Byte, false)
    ensures SsbByte('0' as Byte, false) == SsbByte('o' as Byte, false) == SsbByte('O' as Byte, false)
    ensures SsbByte('5' as Byte, false) == SsbByte('s' as Byte, false) == SsbByte('S' as Byte, false)
  {
  }

  /** Every letter other than b, d and q looks the same in both cases. */
  lemma CaseInsensitiveExceptBdq(c: char)
    requires 'a' <= c <= 'z' && c !in "bdq"
    ensures SsbByte(c as Byte, false) == SsbByte((c as int - 0x20) as Byte, false)
  {
  }
}
