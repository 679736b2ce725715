/** Decimal digit strings: the zero-padded fields of a timecode and the
    sequence-number line of a SubRip block. */
module Decimal {

  predicate IsDigit(c: char) {
    '0' <= c <= '9'
  }

  predicate AllDigits(s: string) {
    forall i :: 0 <= i < |s| ==> IsDigit(s[i])
  }

  function DigitChar(d: nat): (c: char)
    requires d < 10
    ensures IsDigit(c)
  {
    ('0' as int + d) as char
  }

  function DigitValue(c: char): (d: nat)
    requires IsDigit(c)
    ensures d < 10
  {
    c as int - '0' as int
  }

  /** The number a string of decimal digits denotes (most significant first). */
  function Value(s: string): nat
    requires AllDigits(s)
  {
    if s == [] then 0 else 10 * Value(s[..|s| - 1]) + DigitValue(s[|s| - 1])
  }

  function Pow10(k: nat): (p: nat)
    ensures p >= 1
  {
    if k == 0 then 1 else 10 * Pow10(k - 1)
  }

  /** The shortest decimal representation of `n` ("0" for zero). */
  function Digits(n: nat): (r: string)
    ensures AllDigits(r) && |r| >= 1
  {
    if n < 10 then [DigitChar(n)] else Digits(n / 10) + [DigitChar(n % 10)]
  }

  function Zeros(k: nat): (r: string)
    ensures |r| == k && AllDigits(r)
  {
    if k == 0 then [] else Zeros(k - 1) + ['0']
  }

  /** `n` in decimal, left-padded with zeros to at least `width` digits:
      the `%0<width>d` conversion of `stringWithFormat:`. */
  function Pad(n: nat, width: nat): (r: string)
    ensures AllDigits(r) && |r| >= width && |r| >= 1
  {
    Zeros(if |Digits(n)| >= width then 0 else width - |Digits(n)|) + Digits(n)
  }

  lemma {:induction false} ValueOfDigits(n: nat)
    ensures Value(Digits(n)) == n
  {
    if n >= 10 {
      var d := Digits(n);
      assert d[..|d| - 1] == Digits(n / 10);
      ValueOfDigits(n / 10);
    }
  }

  lemma {:induction false} ValueIgnoresLeadingZeros(k: nat, s: string)
    requires AllDigits(s)
    ensures AllDigits(Zeros(k) + s) && Value(Zeros(k) + s) == Value(s)
    decreases |s|
  {
    var z := Zeros(k) + s;
    if s == [] {
      assert z == Zeros(k);
      ZerosValue(k);
    } else {
      assert z[..|z| - 1] == Zeros(k) + s[..|s| - 1];
      ValueIgnoresLeadingZeros(k, s[..|s| - 1]);
    }
  }

  lemma {:induction false} ZerosValue(k: nat)
    ensures Value(Zeros(k)) == 0
  {
    if k > 0 {
      assert Zeros(k)[..k - 1] == Zeros(k - 1);
      ZerosValue(k - 1);
    }
  }

  /** Reading back a zero-padded field gives the number that was written. */
  lemma ValueOfPad(n: nat, width: nat)
    ensures Value(Pad(n, width)) == n
  {
    var d := Digits(n);
    ValueOfDigits(n);
    ValueIgnoresLeadingZeros(if |d| >= width then 0 else width - |d|, d);
  }

  lemma {:induction false} DigitsLength(n: nat, k: nat)
    requires k >= 1
    ensures |Digits(n)| <= k <==> n < Pow10(k)
  {
    if n >= 10 {
      if k == 1 {
        DigitsLength(n / 10, 1);
        assert |Digits(n)| >= 2;
      } else {
        DigitsLength(n / 10, k - 1);
      }
    } else if k > 1 {
      PowMonotone(k);
    }
  }

  lemma {:induction false} PowMonotone(k: nat)
    requires k >= 1
    ensures Pow10(k) >= 10
  {
    if k > 1 {
      PowMonotone(k - 1);
    }
  }

  /** A field whose value fits in `width` digits is exactly `width` characters
      long: the fixed-width `HH`, `MM`, `SS` and `mmm` of a timecode. */
  lemma PadLength(n: nat, width: nat)
    requires width >= 1
    ensures |Pad(n, width)| == width <==> n < Pow10(width)
  {
    DigitsLength(n, width);
  }

  lemma TwoDigitValue(x: string)
    requires |x| == 2 && AllDigits(x)
    ensures Value(x) == 10 * DigitValue(x[0]) + DigitValue(x[1])
  {
    var y := x[..1];
    assert x[..|x| - 1] == y && y[..|y| - 1] == [] && y[0] == x[0];
    assert Value(y) == DigitValue(x[0]);
  }

  lemma ThreeDigitValue(x: string)
    requires |x| == 3 && AllDigits(x)
    ensures Value(x) == 100 * DigitValue(x[0]) + 10 * DigitValue(x[1]) + DigitValue(x[2])
  {
    var y := x[..2];
    assert y[0] == x[0] && y[1] == x[1];
    assert x[..|x| - 1] == y;
    TwoDigitValue(y);
    assert Value(x) == 10 * Value(y) + DigitValue(x[2]);
  }
}
