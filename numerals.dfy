/** Positional numerals in ASCII, most-significant digit first, with digit
    symbols `0`-`9` then `a`-`f`. The specification the decimal and hex
    formatters are proved against. */
module Numerals {
  import opened Bytes

  predicate ValidBase(base: nat)
  {
    2 <= base <= 16
  }

  function Pow(base: nat, k: nat): (p: nat)
    ensures base >= 1 ==> p >= 1
  {
    if k == 0 then 1 else base * Pow(base, k - 1)
  }

  /** The value of a digit symbol, or -1 for a byte that is not one. */
  function DigitValue(c: Byte): (d: int)
    ensures -1 <= d < 16
  {
    if ZERO <= c < ZERO + 10 then c - ZERO
    else if SMALL_A <= c < SMALL_A + 6 then c - SMALL_A + 10
    else -1
  }

  /** The symbol of digit `d`; its inverse is DigitValue. */
  function Symbol(d: nat): (c: Byte)
    requires d < 16
    ensures DigitValue(c) == d
  {
    if d < 10 then ZERO + d else SMALL_A + (d - 10)
  }

  predicate IsSymbol(c: Byte, base: nat)
  {
    0 <= DigitValue(c) < base
  }

  lemma SymbolOfValue(c: Byte, base: nat)
    requires IsSymbol(c, base)
    ensures Symbol(DigitValue(c)) == c
  {
  }

  predicate AllSymbols(s: seq<Byte>, base: nat)
  {
    forall i | 0 <= i < |s| :: IsSymbol(s[i], base)
  }

  /** A numeral as printed: at least one digit, and no leading zero unless
      the numeral is `0` itself. */
  predicate Canonical(s: seq<Byte>, base: nat)
  {
    |s| >= 1 && AllSymbols(s, base) && (|s| == 1 || s[0] != ZERO)
  }

  /** The number a numeral denotes. */
  function Value(s: seq<Byte>, base: nat): (v: nat)
    requires AllSymbols(s, base)
  {
    if s == [] then 0
    else Value(s[..|s| - 1], base) * base + DigitValue(s[|s| - 1])
  }

  /** The numeral of `m`, most-significant digit first. */
  function Numeral(m: nat, base: nat): (s: seq<Byte>)
    requires ValidBase(base)
    decreases m
  {
    if m < base then [Symbol(m)]
    else Numeral(m / base, base) + [Symbol(m % base)]
  }

  /** Printing then reading gives the number back, and the printed form is
      canonical. */
  lemma {:induction false} NumeralRoundTrip(m: nat, base: nat)
    requires ValidBase(base)
    ensures Canonical(Numeral(m, base), base)
    ensures Value(Numeral(m, base), base) == m
    ensures m >= 1 ==> Numeral(m, base)[0] != ZERO
    decreases m
  {
    if m < base {
      SingleDigit(m, base);
    } else {
      NumeralRoundTrip(m / base, base);
      NumeralStep(m, base);
    }
  }

  /** The induction step of NumeralRoundTrip: the numeral of `m` is the
      numeral of `m / base` followed by the digit `m % base`. */
  lemma NumeralStep(m: nat, base: nat)
    requires ValidBase(base) && m >= base
    requires Canonical(Numeral(m / base, base), base)
    requires Value(Numeral(m / base, base), base) == m / base
    requires Numeral(m / base, base)[0] != ZERO
    ensures Canonical(Numeral(m, base), base)
    ensures Value(Numeral(m, base), base) == m
    ensures Numeral(m, base)[0] != ZERO
  {
    var q, d := m / base, m % base;
    DivMod(m, base);
    AppendDigit(Numeral(q, base), d, base);
    assert Numeral(m, base) == Numeral(q, base) + [Symbol(d)];
  }

  /** A one-digit numeral is canonical and denotes its digit. */
  lemma SingleDigit(d: nat, base: nat)
    requires ValidBase(base) && d < base
    ensures Canonical([Symbol(d)], base)
    ensures Value([Symbol(d)], base) == d
    ensures d >= 1 ==> Symbol(d) != ZERO
  {
    assert [Symbol(d)][..0] == [];
  }

  /** Appending digit `d` to a canonical numeral of a positive number keeps
      it canonical and multiplies its value by the base before adding `d`. */
  lemma AppendDigit(front: seq<Byte>, d: nat, base: nat)
    requires ValidBase(base) && d < base
    requires Canonical(front, base) && front[0] != ZERO
    ensures Canonical(front + [Symbol(d)], base)
    ensures Value(front + [Symbol(d)], base) == Value(front, base) * base + d
    ensures (front + [Symbol(d)])[0] == front[0]
  {
    var s := front + [Symbol(d)];
    assert s[..|s| - 1] == front;
  }

  /** A numeral with a leading non-zero digit denotes a positive number. */
  lemma {:induction false} ValuePositive(s: seq<Byte>, base: nat)
    requires |s| >= 1 && AllSymbols(s, base) && s[0] != ZERO
    ensures Value(s, base) >= 1
    decreases |s|
  {
    assert IsSymbol(s[0], base);
    if |s| > 1 {
      var front := s[..|s| - 1];
      assert AllSymbols(front, base) && front[0] == s[0];
      ValuePositive(front, base);
      var v := Value(front, base);
      MulStep(0, v, base);
      assert Value(s, base) >= v * base;
    }
  }

  /** Reading then printing a canonical numeral gives it back: Numeral and
      Value are inverse bijections between numbers and canonical numerals. */
  lemma {:induction false} ValueRoundTrip(s: seq<Byte>, base: nat)
    requires ValidBase(base)
    requires Canonical(s, base)
    ensures Numeral(Value(s, base), base) == s
    decreases |s|
  {
    var last := s[|s| - 1];
    assert IsSymbol(last, base);
    SymbolOfValue(last, base);
    var d := DigitValue(last);
    if |s| == 1 {
      assert s == [last];
    } else {
      var front := s[..|s| - 1];
      assert AllSymbols(front, base);
      assert front[0] == s[0];
      ValuePositive(front, base);
      ValueRoundTrip(front, base);
      var v, w := Value(s, base), Value(front, base);
      assert v == w * base + d;
      MulStep(0, w, base);
      DivModUnique(w, base, d);
      assert Numeral(v, base) == Numeral(w, base) + [Symbol(d)];
      assert s == front + [last];
    }
  }

  /** A numeral fits in `k` digits exactly when the number is below
      base^k. */
  lemma {:induction false} NumeralLength(m: nat, base: nat, k: nat)
    requires ValidBase(base) && k >= 1
    ensures |Numeral(m, base)| <= k <==> m < Pow(base, k)
    decreases k
  {
    if m < base {
      PowAtLeastBase(base, k);
    } else if k == 1 {
      assert |Numeral(m, base)| == |Numeral(m / base, base)| + 1;
    } else {
      NumeralLength(m / base, base, k - 1);
      assert |Numeral(m, base)| == |Numeral(m / base, base)| + 1;
      DivBound(m, base, Pow(base, k - 1));
    }
  }

  lemma {:induction false} PowAtLeastBase(base: nat, k: nat)
    requires base >= 1 && k >= 1
    ensures Pow(base, k) >= base
  {
    assert Pow(base, k) == base * Pow(base, k - 1);
  }

  /** Euclidean division of a natural number. */
  lemma DivMod(m: nat, b: nat)
    requires b >= 1
    ensures (m / b) * b + m % b == m
  {
  }

  /** Multiplication by a natural number is monotonic, in steps of b. */
  lemma {:induction false} MulStep(a: nat, c: nat, b: nat)
    requires a < c
    ensures a * b + b <= c * b
    decreases c - a
  {
    assert c * b == (c - 1) * b + b;
    if a + 1 < c {
      MulStep(a, c - 1, b);
    }
  }

  /** Quotient and remainder are unique. */
  lemma DivModUnique(q: nat, b: nat, d: nat)
    requires 0 <= d < b
    ensures (q * b + d) / b == q && (q * b + d) % b == d
  {
    var v := q * b + d;
    DivMod(v, b);
    var q' := v / b;
    if q' < q {
      MulStep(q', q, b);
    } else if q < q' {
      MulStep(q, q', b);
    }
  }

  /** m / b < p exactly when m < b * p. */
  lemma DivBound(m: nat, b: nat, p: nat)
    requires b >= 1
    ensures m / b < p <==> m < b * p
  {
    var q := m / b;
    DivMod(m, b);
    if q < p {
      MulStep(q, p, b);
    } else if p < q {
      MulStep(p, q, b);
    }
  }
}
