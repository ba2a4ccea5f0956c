/** The `Max7219` display controller: every public operation is a fixed
    sequence of two-byte register writes, sent in order, stopping at the first
    write the bus reports as failed. Each operation is specified by the frames
    it sends on success. */
module Driver {
  import opened Bytes
  import opened Registers
  import opened Segments
  import opened Numerals
  import opened Format
  import opened Bus

  /** A write of `data` to register `r`. */
  function RegFrame(r: Register, data: Byte): (f: Frame)
  {
    Frame(Address(r), data)
  }

  /** Bit `i` of the `dots` mask: `dots & (1 << i) != 0`. */
  function DotAt(dots: bv8, i: nat): (lit: bool)
    requires i < 8
  {
    dots & (1 << i) != 0
  }

  /** The segment bytes of an eight-byte string, each with its dot bit. */
  function Encoded(s: seq<Byte>, dots: bv8): (e: seq<Byte>)
    requires |s| == NUM_DIGITS
    ensures |e| == NUM_DIGITS
  {
    seq(NUM_DIGITS, i requires 0 <= i < NUM_DIGITS => SsbByte(s[i], DotAt(dots, i)) as int)
  }

  /** The frames of `write_str`: string position i goes to register address
      8 - i, that is, position 0 to the highest digit register. */
  function StrFrames(s: seq<Byte>, dots: bv8): (fs: seq<Frame>)
    requires |s| == NUM_DIGITS
    ensures |fs| == NUM_DIGITS
    ensures forall i | 0 <= i < NUM_DIGITS ::
      fs[i] == RegFrame(DigitRegister(NUM_DIGITS - 1 - i), SsbByte(s[i], DotAt(dots, i)) as int)
  {
    seq(NUM_DIGITS, i requires 0 <= i < NUM_DIGITS =>
      Frame(NUM_DIGITS - i, SsbByte(s[i], DotAt(dots, i)) as int))
  }

  /** The frames of `write_raw`: byte n goes to register address n + 1, that
      is, position 0 to Digit0, in ascending order. */
  function RawFrames(raw: seq<Byte>): (fs: seq<Frame>)
    requires |raw| == NUM_DIGITS
    ensures |fs| == NUM_DIGITS
    ensures forall n | 0 <= n < NUM_DIGITS :: fs[n] == RegFrame(DigitRegister(n), raw[n])
  {
    seq(NUM_DIGITS, n requires 0 <= n < NUM_DIGITS => Frame(n + 1, raw[n]))
  }

  /** The two index-to-register mappings are mirror images: `write_str`
      sends the frames `write_raw` would send for the reversed segment bytes,
      in the opposite order. */
  lemma StrMirrorsRaw(s: seq<Byte>, dots: bv8)
    requires |s| == NUM_DIGITS
    ensures StrFrames(s, dots) == Reversed(RawFrames(Reversed(Encoded(s, dots))))
  {
    var e := Encoded(s, dots);
    var raw := Reversed(e);
    var fs := RawFrames(raw);
    forall i | 0 <= i < NUM_DIGITS
      ensures Reversed(fs)[i] == StrFrames(s, dots)[i]
    {
      ReversedAt(fs, i);
      ReversedAt(e, NUM_DIGITS - 1 - i);
    }
  }

  /** Eight zero bytes. */
  const BLANK: seq<Byte> := [0, 0, 0, 0, 0, 0, 0, 0]

  /** The frames of `clear_display`: every digit register set to zero, Digit0
      first. */
  function ClearFrames(): (fs: seq<Frame>)
    ensures |fs| == NUM_DIGITS
    ensures forall n | 0 <= n < NUM_DIGITS :: fs[n] == Frame(n + 1, 0)
  {
    RawFrames(BLANK)
  }

  /** The frames of `write_integer`: the decimal text, right-justified,
      written as a string without dots. */
  function IntegerFrames(value: I32): (fs: seq<Frame>)
  {
    DecimalLength(value);
    StrFrames(Padded(Decimal(value)), 0)
  }

  /** The frames of `write_hex`: the hex text, right-justified, written as a
      string without dots. */
  function HexFrames(value: U32): (fs: seq<Frame>)
  {
    HexadecimalLength(value);
    StrFrames(Padded(Hexadecimal(value)), 0)
  }

  /** Every byte of a numeral in base 16 or less is a digit or a lower-case
      letter `a`-`f`, all of which the segment table renders. */
  lemma NumeralLegible(s: seq<Byte>, base: nat)
    requires base <= 16 && AllSymbols(s, base)
    ensures forall i | 0 <= i < |s| :: Legible(s[i])
  {
    forall i | 0 <= i < |s|
      ensures Legible(s[i])
    {
      assert IsSymbol(s[i], base);
    }
  }

  /** Right-justifying legible text keeps it legible: the padding is spaces. */
  lemma PaddedLegible(t: seq<Byte>)
    requires |t| <= NUM_DIGITS && forall i | 0 <= i < |t| :: Legible(t[i])
    ensures forall i | 0 <= i < NUM_DIGITS :: Legible(Padded(t)[i])
  {
    var p := Padded(t);
    forall i | 0 <= i < NUM_DIGITS
      ensures Legible(p[i])
    {
      if i >= NUM_DIGITS - |t| {
        assert p[i] == t[i - (NUM_DIGITS - |t|)];
      }
    }
  }

  /** A string written without dots whose bytes are all legible lights no
      decimal point and shows no fallback glyph. */
  lemma PlainStrFrames(s: seq<Byte>)
    requires |s| == NUM_DIGITS && forall i | 0 <= i < NUM_DIGITS :: Legible(s[i])
    ensures forall i | 0 <= i < NUM_DIGITS :: StrFrames(s, 0)[i].data < 0x80
  {
    var fs := StrFrames(s, 0);
    forall i | 0 <= i < NUM_DIGITS
      ensures fs[i].data < 0x80
    {
      assert !DotAt(0, i);
      LegibleIsDotless(s[i]);
    }
  }

  /** `write_integer` never lights a decimal point and never shows the
      fallback glyph: zero, `Err`, the sign, the digits and the padding are
      all in the segment table. */
  lemma IntegerFramesPlain(value: I32)
    ensures forall i | 0 <= i < NUM_DIGITS :: IntegerFrames(value)[i].data < 0x80
  {
    var t := Decimal(value);
    DecimalLength(value);
    if value != 0 && FitsDisplay(value) {
      NumeralRoundTrip(Abs(value), 10);
      NumeralLegible(Numeral(Abs(value), 10), 10);
      if value < 0 {
        assert forall i | 1 <= i < |t| :: t[i] == Numeral(Abs(value), 10)[i - 1];
      }
    }
    assert forall i | 0 <= i < |t| :: Legible(t[i]);
    PaddedLegible(t);
    PlainStrFrames(Padded(t));
  }

  /** `write_hex` never lights a decimal point and never shows the fallback
      glyph. */
  lemma HexFramesPlain(value: U32)
    ensures forall i | 0 <= i < NUM_DIGITS :: HexFrames(value)[i].data < 0x80
  {
    var t := Hexadecimal(value);
    HexadecimalLength(value);
    if value != 0 {
      NumeralRoundTrip(value, 16);
      NumeralLegible(t, 16);
    }
    PaddedLegible(t);
    PlainStrFrames(Padded(t));
  }

  function TestFrame(enable: bool): (f: Frame)
  {
    RegFrame(DisplayTest, if enable then 0x01 else 0x00)
  }

  function ScanLimitFrame(limit: Byte): (f: Frame)
    requires limit >= 1
  {
    RegFrame(ScanLimit, limit - 1)
  }

  function DecodeModeFrame(mode: Registers.DecodeMode): (f: Frame)
  {
    RegFrame(Register.DecodeMode, Code(mode))
  }

  function PowerFrame(on: bool): (f: Frame)
  {
    RegFrame(Power, if on then 0x01 else 0x00)
  }

  /** The frames of `init`: test mode off, scan all eight digits, no decode,
      clear, power off, power on. */
  function InitFrames(): (fs: seq<Frame>)
  {
    [TestFrame(false)] + ([ScanLimitFrame(NUM_DIGITS)] + ([DecodeModeFrame(NoDecode)] +
      (ClearFrames() + ([PowerFrame(false)] + [PowerFrame(true)]))))
  }

  /** On the wire, `init` is exactly: (0x0F, 0x00), (0x0B, 0x07), (0x09, 0x00),
      (1, 0) .. (8, 0), (0x0C, 0x00), (0x0C, 0x01). */
  lemma InitOnTheWire()
    ensures InitFrames() ==
      [Frame(0x0F, 0x00), Frame(0x0B, 0x07), Frame(0x09, 0x00),
       Frame(1, 0), Frame(2, 0), Frame(3, 0), Frame(4, 0),
       Frame(5, 0), Frame(6, 0), Frame(7, 0), Frame(8, 0),
       Frame(0x0C, 0x00), Frame(0x0C, 0x01)]
  {
  }

  /** The steps of `init` cut InitFrames() into consecutive pieces. */
  lemma InitPieces()
    ensures |InitFrames()| == 13
    ensures InitFrames()[0..1] == [TestFrame(false)]
    ensures InitFrames()[1..2] == [ScanLimitFrame(NUM_DIGITS)]
    ensures InitFrames()[2..3] == [DecodeModeFrame(NoDecode)]
    ensures InitFrames()[3..11] == ClearFrames()
    ensures InitFrames()[11..12] == [PowerFrame(false)]
    ensures InitFrames()[12..13] == [PowerFrame(true)]
    ensures InitFrames()[13..] == []
  {
  }

  /** A MAX7219 chip on an SPI device. Daisy-chained chips are not
      supported. */
  class Max7219<E> {
    const spi: Spi<E>

    /** `new`: wraps the device; `init` is a separate call. */
    constructor (spi: Spi<E>)
      ensures this.spi == spi
    {
      this.spi := spi;
    }

    /** Writes one byte to a register. */
    method WriteReg(address: Byte, data: Byte) returns (r: Outcome<E>)
      modifies spi
      ensures Performs(spi.faults, old(spi.trace), [Frame(address, data)], spi.trace, r)
    {
      r := spi.Write(Frame(address, data));
    }

    method PowerOn() returns (r: Outcome<E>)
      modifies spi
      ensures Performs(spi.faults, old(spi.trace), [PowerFrame(true)], spi.trace, r)
    {
      r := WriteReg(Address(Power), 0x01);
    }

    method PowerOff() returns (r: Outcome<E>)
      modifies spi
      ensures Performs(spi.faults, old(spi.trace), [PowerFrame(false)], spi.trace, r)
    {
      r := WriteReg(Address(Power), 0x00);
    }

    /** Clears the display by writing zero to every digit register. */
    method ClearDisplay() returns (r: Outcome<E>)
      modifies spi
      ensures Performs(spi.faults, old(spi.trace), ClearFrames(), spi.trace, r)
    {
      r := WriteRaw(BLANK);
    }

    /** Forwards the level unchecked; the chip defines 0x00 to 0x0F. */
    method SetIntensity(intensity: Byte) returns (r: Outcome<E>)
      modifies spi
      ensures Performs(spi.faults, old(spi.trace), [RegFrame(Intensity, intensity)], spi.trace, r)
    {
      r := WriteReg(Address(Intensity), intensity);
    }

    method SetDecodeMode(mode: Registers.DecodeMode) returns (r: Outcome<E>)
      modifies spi
      ensures Performs(spi.faults, old(spi.trace), [DecodeModeFrame(mode)], spi.trace, r)
    {
      r := WriteReg(Address(Register.DecodeMode), Code(mode));
    }

    /** Writes a segment byte to digit `digit`, at address `digit + 1`. */
    method WriteDigitBytes(digit: Byte, value: Byte) returns (r: Outcome<E>)
      requires digit < 0xFF
      modifies spi
      ensures Performs(spi.faults, old(spi.trace), [Frame(digit + 1, value)], spi.trace, r)
    {
      r := WriteReg(digit + 1, value);
    }

    /** Writes an eight-byte string, position 0 on the highest digit, with a
      dot wherever `dots` has a 1 bit. */
    method WriteStr(s: seq<Byte>, dots: bv8) returns (r: Outcome<E>)
      requires |s| == NUM_DIGITS
      modifies spi
      ensures Performs(spi.faults, old(spi.trace), StrFrames(s, dots), spi.trace, r)
    {
      ghost var fs := StrFrames(s, dots);
      var i := 0;
      while i < NUM_DIGITS
        invariant 0 <= i <= NUM_DIGITS
        invariant Remaining(spi.faults, old(spi.trace), fs, spi.trace, fs[i..])
      {
        var reg := NUM_DIGITS - i;  // reverse order
        ghost var before := spi.trace;
        r := WriteReg(reg, SsbByte(s[i], DotAt(dots, i)) as int);
        AdvanceOne(spi.faults, old(spi.trace), fs, i, before, spi.trace, r);
        if r.Fail? {
          return;
        }
        i := i + 1;
      }
      Finish(spi.faults, old(spi.trace), fs, spi.trace);
      r := Pass;
    }

    /** Writes a right-justified signed decimal, or `Err` when it does not
      fit. */
    method WriteInteger(value: I32) returns (r: Outcome<E>)
      modifies spi
      ensures Performs(spi.faults, old(spi.trace), IntegerFrames(value), spi.trace, r)
    {
      var buf := new Byte[NUM_DIGITS](_ => 0);
      DecimalLength(value);
      var text := Base10Bytes(value, buf);
      var padded := PadLeft(text);
      assert padded == Padded(text);
      r := WriteStr(padded, 0x00);
    }

    /** Writes a right-justified lower-case hex number. */
    method WriteHex(value: U32) returns (r: Outcome<E>)
      modifies spi
      ensures Performs(spi.faults, old(spi.trace), HexFrames(value), spi.trace, r)
    {
      var buf := new Byte[NUM_DIGITS](_ => 0);
      HexadecimalLength(value);
      var text := HexBytes(value, buf);
      var padded := PadLeft(text);
      assert padded == Padded(text);
      r := WriteStr(padded, 0x00);
    }

    /** Writes eight raw segment bytes, byte n to digit n, Digit0 first. */
    method WriteRaw(raw: seq<Byte>) returns (r: Outcome<E>)
      requires |raw| == NUM_DIGITS
      modifies spi
      ensures Performs(spi.faults, old(spi.trace), RawFrames(raw), spi.trace, r)
    {
      ghost var fs := RawFrames(raw);
      var n := 0;
      while n < NUM_DIGITS
        invariant 0 <= n <= NUM_DIGITS
        invariant Remaining(spi.faults, old(spi.trace), fs, spi.trace, fs[n..])
      {
        ghost var before := spi.trace;
        r := WriteDigitBytes(n, raw[n]);
        AdvanceOne(spi.faults, old(spi.trace), fs, n, before, spi.trace, r);
        if r.Fail? {
          return;
        }
        n := n + 1;
      }
      Finish(spi.faults, old(spi.trace), fs, spi.trace);
      r := Pass;
    }

    method SetTest(enable: bool) returns (r: Outcome<E>)
      modifies spi
      ensures Performs(spi.faults, old(spi.trace), [TestFrame(enable)], spi.trace, r)
    {
      r := WriteReg(Address(DisplayTest), if enable then 0x01 else 0x00);
    }

    /** Sets how many digits the chip scans, 1 to 8; the register holds
      `limit - 1`. */
    method SetScanLimit(limit: Byte) returns (r: Outcome<E>)
      requires limit >= 1
      modifies spi
      ensures Performs(spi.faults, old(spi.trace), [ScanLimitFrame(limit)], spi.trace, r)
    {
      r := WriteReg(Address(ScanLimit), limit - 1);
    }

    /** Initialises the display with the default settings, stopping at the
      first failing write. */
    method Init() returns (r: Outcome<E>)
      modifies spi
      ensures Performs(spi.faults, old(spi.trace), InitFrames(), spi.trace, r)
    {
      InitPieces();
      ghost var before := spi.trace;

      r := SetTest(false);
      AdvanceSlice(spi.faults, old(spi.trace), InitFrames(), 0, 1, before, spi.trace, r);
      if r.Fail? { return; }

      before := spi.trace;
      r := SetScanLimit(NUM_DIGITS);
      AdvanceSlice(spi.faults, old(spi.trace), InitFrames(), 1, 1, before, spi.trace, r);
      if r.Fail? { return; }

      before := spi.trace;
      r := SetDecodeMode(NoDecode);
      AdvanceSlice(spi.faults, old(spi.trace), InitFrames(), 2, 1, before, spi.trace, r);
      if r.Fail? { return; }

      before := spi.trace;
      r := ClearDisplay();
      AdvanceSlice(spi.faults, old(spi.trace), InitFrames(), 3, NUM_DIGITS, before, spi.trace, r);
      if r.Fail? { return; }

      before := spi.trace;
      r := PowerOff();
      AdvanceSlice(spi.faults, old(spi.trace), InitFrames(), 11, 1, before, spi.trace, r);
      if r.Fail? { return; }

      before := spi.trace;
      r := PowerOn();
      AdvanceSlice(spi.faults, old(spi.trace), InitFrames(), 12, 1, before, spi.trace, r);
      if r.Fail? { return; }

      Finish(spi.faults, old(spi.trace), InitFrames(), spi.trace);
      r := Pass;
    }
  }
}
