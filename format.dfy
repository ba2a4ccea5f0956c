/** The number formatter: signed decimal with an overflow sentinel, unsigned
    lower-case hex, and right-justification into eight display positions. */
module Format {
  import opened Bytes
  import opened Numerals

  /** Rust `i32` and `u32`. */
  type I32 = x: int | -0x8000_0000 <= x < 0x8000_0000
  type U32 = x: int | 0 <= x < 0x1_0000_0000

  /** Digits per display. */
  const NUM_DIGITS: nat := 8

  /** The decimal range that fits on eight digits; negative numbers give one
      digit to the sign. */
  const MIN_DECIMAL: int := -9_999_999
  const MAX_DECIMAL: int := 99_999_999

  predicate FitsDisplay(n: int)
  {
    MIN_DECIMAL <= n <= MAX_DECIMAL
  }

  function Abs(n: int): (a: nat)
  {
    if n < 0 then -n else n
  }

  /** The text `base_10_bytes` produces for `n`. */
  function Decimal(n: I32): (t: seq<Byte>)
  {
    if n == 0 then [ZERO]
    else if !FitsDisplay(n) then ERR
    else if n < 0 then [MINUS] + Numeral(-n, 10)
    else Numeral(n, 10)
  }

  /** The text `hex_bytes` produces for `n`. */
  function Hexadecimal(n: U32): (t: seq<Byte>)
  {
    if n == 0 then [ZERO] else Numeral(n, 16)
  }

  /** `v` right-justified in NUM_DIGITS positions, spaces on the left. */
  function Padded(v: seq<Byte>): (p: seq<Byte>)
    requires |v| <= NUM_DIGITS
  {
    seq(NUM_DIGITS - |v|, _ => SPACE) + v
  }

  /** Every decimal text fits the display. */
  lemma DecimalLength(n: I32)
    ensures 1 <= |Decimal(n)| <= NUM_DIGITS
  {
    if n != 0 && FitsDisplay(n) {
      assert Pow(10, 7) == 10_000_000;
      assert Pow(10, 8) == 100_000_000;
      NumeralLength(Abs(n), 10, if n < 0 then 7 else 8);
    }
  }

  /** Every hex text fits the display. */
  lemma HexadecimalLength(n: U32)
    ensures 1 <= |Hexadecimal(n)| <= NUM_DIGITS
  {
    if n != 0 {
      assert Pow(16, 8) == 0x1_0000_0000;
      NumeralLength(n, 16, 8);
    }
  }

  /** The three cases of the decimal formatter: `0` for zero, `Err` exactly
      outside [-9_999_999, 99_999_999], and otherwise at most eight bytes: a
      `-` exactly for negative numbers, then a canonical decimal numeral whose
      value is |n|. */
  lemma DecimalSpec(n: I32)
    ensures n == 0 ==> Decimal(n) == [ZERO]
    ensures Decimal(n) == ERR <==> !FitsDisplay(n)
    ensures n != 0 && FitsDisplay(n) ==>
      var t := Decimal(n);
      var digits := if n < 0 then t[1..] else t;
      1 <= |t| <= NUM_DIGITS &&
      (t[0] == MINUS <==> n < 0) &&
      Canonical(digits, 10) && Value(digits, 10) == Abs(n)
  {
    if n != 0 && FitsDisplay(n) {
      var t := Decimal(n);
      var m := Abs(n);
      NumeralRoundTrip(m, 10);
      DecimalLength(n);
      if n < 0 {
        assert t[1..] == Numeral(m, 10);
      } else {
        assert Numeral(m, 10)[0] != MINUS;
      }
      assert t[0] != ERR[0];
    }
  }

  /** The hex formatter: `0` for zero, otherwise one to eight lower-case hex
      digits, canonical, whose base-16 value is n; it never yields `Err`. */
  lemma HexadecimalSpec(n: U32)
    ensures n == 0 ==> Hexadecimal(n) == [ZERO]
    ensures Hexadecimal(n) != ERR
    ensures 1 <= |Hexadecimal(n)| <= NUM_DIGITS
    ensures Canonical(Hexadecimal(n), 16) && Value(Hexadecimal(n), 16) == n
  {
    if n != 0 {
      NumeralRoundTrip(n, 16);
      HexadecimalLength(n);
      assert DigitValue(ERR[0]) == -1;
    }
  }

  /** Sample decimal texts, at the edges of the range that fits. */
  lemma DecimalExamples()
    ensures Decimal(-1234) == [MINUS, 0x31, 0x32, 0x33, 0x34]
    ensures Decimal(-9_999_999) == [MINUS, 0x39, 0x39, 0x39, 0x39, 0x39, 0x39, 0x39]
    ensures Decimal(100_000_000) == ERR && Decimal(-10_000_000) == ERR
  {
  }

  /** The largest decimal that fits fills all eight digits. */
  lemma DecimalMaxExample()
    ensures Decimal(MAX_DECIMAL) == [0x39, 0x39, 0x39, 0x39, 0x39, 0x39, 0x39, 0x39]
  {
  }

  /** Sample hex texts, up to the largest `u32`. */
  lemma HexadecimalExamples()
    ensures Hexadecimal(0xFFFF_FFFF) == [0x66, 0x66, 0x66, 0x66, 0x66, 0x66, 0x66, 0x66]
    ensures Hexadecimal(0x100) == [0x31, ZERO, ZERO]
  {
  }

  /** `(n % 16)` mapped through `hex_bytes`'s sixteen-arm `match`, whose last
      arm `?` no digit below 16 reaches. */
  function HexDigit(d: Byte): (c: Byte)
    ensures d < 16 ==> c == Symbol(d) && c != QUESTION
    ensures d >= 16 ==> c == QUESTION
  {
    match d
    case 0 => '0' as Byte
    case 1 => '1' as Byte
    case 2 => '2' as Byte
    case 3 => '3' as Byte
    case 4 => '4' as Byte
    case 5 => '5' as Byte
    case 6 => '6' as Byte
    case 7 => '7' as Byte
    case 8 => '8' as Byte
    case 9 => '9' as Byte
    case 10 => 'a' as Byte
    case 11 => 'b' as Byte
    case 12 => 'c' as Byte
    case 13 => 'd' as Byte
    case 14 => 'e' as Byte
    case 15 => 'f' as Byte
    case _ => QUESTION
  }

  /** The digits of `k` not yet written: none once `k` reaches zero. */
  function Pending(k: nat, base: nat): (digits: seq<Byte>)
    requires ValidBase(base)
  {
    if k == 0 then [] else Numeral(k, base)
  }

  /** The least-significant pending digit is the last symbol of the
      pending numeral. */
  lemma PendingSplit(k: nat, base: nat)
    requires ValidBase(base) && k > 0
    ensures Pending(k / base, base) + [Symbol(k % base)] == Pending(k, base)
  {
    DivBound(k, base, 1);
    if k < base {
      assert k / base == 0;
    } else {
      assert k / base > 0;
    }
  }

  /** Writing the least-significant pending digit keeps the pending digits
      followed by the reversed written ones equal to the whole numeral. */
  lemma PendingStep(k: nat, base: nat, written: seq<Byte>, target: seq<Byte>)
    requires ValidBase(base) && k > 0
    requires Pending(k, base) + Reversed(written) == target
    ensures Pending(k / base, base) + Reversed(written + [Symbol(k % base)]) == target
  {
    var x := Symbol(k % base);
    ReversedSnoc(written, x);
    PendingSplit(k, base);
    Regroup(Pending(k, base), Pending(k / base, base), x, Reversed(written), Reversed(written + [x]), target);
  }

  /** Moving one element across the seam between two sequences. */
  lemma Regroup<T>(whole: seq<T>, front: seq<T>, x: T, back: seq<T>, back': seq<T>, target: seq<T>)
    requires whole + back == target && front + [x] == whole && back' == [x] + back
    ensures front + back' == target
  {
    assert front + ([x] + back) == (front + [x]) + back;
  }

  /** The digit loop of `base_10_bytes`: writes the decimal digits of `k`
      into `buf`, least-significant first, and returns how many it wrote. */
  method DecimalDigitsBackwards(k: nat, buf: array<Byte>) returns (i: nat)
    requires k > 0 && |Numeral(k, 10)| <= buf.Length
    modifies buf
    ensures i == |Numeral(k, 10)|
    ensures Reversed(buf[..i]) == Numeral(k, 10)
    ensures buf[i..] == old(buf[i..])
  {
    var n := k;
    i := 0;
    while n > 0
      invariant 0 <= n <= k && 0 <= i <= buf.Length
      invariant Pending(n, 10) + Reversed(buf[..i]) == Numeral(k, 10)
      invariant buf[i..] == old(buf[i..])
      decreases n
    {
      ghost var done := buf[..i];
      PendingStep(n, 10, done, Numeral(k, 10));
      buf[i] := ZERO + n % 10;
      assert buf[..i + 1] == done + [Symbol(n % 10)];
      n := n / 10;
      i := i + 1;
    }
  }

  /** The digit loop of `hex_bytes`: writes the hex digits of `k` into
      `buf`, least-significant first, and returns how many it wrote. */
  method HexDigitsBackwards(k: nat, buf: array<Byte>) returns (i: nat)
    requires k > 0 && |Numeral(k, 16)| <= buf.Length
    modifies buf
    ensures i == |Numeral(k, 16)|
    ensures Reversed(buf[..i]) == Numeral(k, 16)
    ensures buf[i..] == old(buf[i..])
  {
    var n := k;
    i := 0;
    while n > 0
      invariant 0 <= n <= k && 0 <= i <= buf.Length
      invariant Pending(n, 16) + Reversed(buf[..i]) == Numeral(k, 16)
      invariant buf[i..] == old(buf[i..])
      decreases n
    {
      ghost var done := buf[..i];
      PendingStep(n, 16, done, Numeral(k, 16));
      var digit := n % 16;
      buf[i] := HexDigit(digit);
      assert buf[..i + 1] == done + [Symbol(n % 16)];
      n := n / 16;
      i := i + 1;
    }
  }

  /** `base_10_bytes`: formats `n` into `buf` and returns the text. Zero and
      out-of-range values return a constant text and leave `buf` alone;
      otherwise the text is the first bytes of `buf`. */
  method Base10Bytes(n: I32, buf: array<Byte>) returns (text: seq<Byte>)
    requires n != 0 && FitsDisplay(n) ==> |Decimal(n)| <= buf.Length
    modifies buf
    ensures text == Decimal(n)
    ensures n != 0 && FitsDisplay(n) ==>
      buf[..|text|] == text && buf[|text|..] == old(buf[|text|..])
    ensures n == 0 || !FitsDisplay(n) ==> buf[..] == old(buf[..])
  {
    if n == 0 {
      return [ZERO];
    }
    if !FitsDisplay(n) {
      return ERR;
    }
    var k: int := n;
    var sign := false;
    if k < 0 {
      k := -k;
      sign := true;
    }
    var i := DecimalDigitsBackwards(k, buf);
    if sign {
      assert Decimal(n) == [MINUS] + Numeral(k, 10);
      ghost var done, rest := buf[..i], buf[i + 1..];
      buf[i] := MINUS;
      assert buf[..i + 1] == done + [MINUS];
      assert buf[i + 1..] == rest;
      ReversedSnoc(done, MINUS);
      i := i + 1;
    }
    assert Reversed(buf[..i]) == Decimal(n);
    ReverseSlice(buf, i);
    text := buf[..i];
  }

  /** `hex_bytes`: formats `n` in lower-case hex into `buf` and returns the
      text; zero returns `0` and leaves `buf` alone. */
  method HexBytes(n: U32, buf: array<Byte>) returns (text: seq<Byte>)
    requires n != 0 ==> |Hexadecimal(n)| <= buf.Length
    modifies buf
    ensures text == Hexadecimal(n)
    ensures n != 0 ==> buf[..|text|] == text && buf[|text|..] == old(buf[|text|..])
    ensures n == 0 ==> buf[..] == old(buf[..])
  {
    if n == 0 {
      return [ZERO];
    }
    var i := HexDigitsBackwards(n, buf);
    ReverseSlice(buf, i);
    text := buf[..i];
  }

  /** Reverses the first `len` elements of `a` in place (`slice.reverse()`). */
  method ReverseSlice(a: array<Byte>, len: nat)
    requires len <= a.Length
    modifies a
    ensures a[..len] == Reversed(old(a[..len]))
    ensures a[len..] == old(a[len..])
  {
    ghost var was := a[..len];
    var j := 0;
    while j < len / 2
      invariant 0 <= j <= len / 2
      invariant forall t | 0 <= t < j :: a[t] == was[len - 1 - t] && a[len - 1 - t] == was[t]
      invariant forall t | j <= t < len - j :: a[t] == was[t]
      invariant a[len..] == old(a[len..])
    {
      a[j], a[len - 1 - j] := a[len - 1 - j], a[j];
      j := j + 1;
    }
    forall t | 0 <= t < len
      ensures a[..len][t] == Reversed(was)[t]
    {
      ReversedAt(was, t);
    }
  }

  /** `pad_left`: right-justifies `v` into eight bytes; the first 8 - |v| are
      spaces and the rest are `v` in order. */
  method PadLeft(v: seq<Byte>) returns (out: seq<Byte>)
    requires |v| <= NUM_DIGITS
    ensures |out| == NUM_DIGITS
    ensures forall j | 0 <= j < NUM_DIGITS - |v| :: out[j] == SPACE
    ensures out[NUM_DIGITS - |v|..] == v
  {
    var size := NUM_DIGITS;
    var pos := |v|;
    var cur := 1;
    var buf := new Byte[NUM_DIGITS](_ => SPACE);
    while cur <= pos
      invariant 1 <= cur <= pos + 1
      invariant forall j | 0 <= j < size - (cur - 1) :: buf[j] == SPACE
      invariant forall j | size - (cur - 1) <= j < size :: buf[j] == v[pos - (size - j)]
    {
      buf[size - cur] := v[pos - cur];
      cur := cur + 1;
    }
    out := buf[..];
  }
}
