/** The parts of ECMAScript Number semantics the model relies on, stated on
    mathematical integers and reals: ToInt32, Math.abs, Math.round,
    Number::toString for non-negative integers and Number.prototype.toFixed. */
module JsNumbers {

  const TwoTo31: int := 0x8000_0000
  const TwoTo32: int := 0x1_0000_0000

  /** ToInt32 (ECMA-262, section 7.1.6) of an integral Number: the value
      congruent to x modulo 2^32 in [-2^31, 2^31). */
  function ToInt32(x: int): (r: int)
    ensures -TwoTo31 <= r < TwoTo31
  {
    var m := x % TwoTo32;
    if m >= TwoTo31 then m - TwoTo32 else m
  }

  /** ToInt32 leaves every signed 32-bit value unchanged. */
  lemma ToInt32OfInt32(x: int)
    requires -TwoTo31 <= x < TwoTo31
    ensures ToInt32(x) == x
  {
  }

  /** ToInt32 only sees x modulo 2^32. */
  lemma ToInt32Periodic(x: int, k: int)
    ensures ToInt32(x + k * TwoTo32) == ToInt32(x)
  {
    var q, m := x / TwoTo32, x % TwoTo32;
    assert x + k * TwoTo32 == (q + k) * TwoTo32 + m;
    assert (x + k * TwoTo32) % TwoTo32 == m;
  }

  /** Math.abs on an integer. */
  function Abs(x: int): (r: int)
    ensures r >= 0 && (r == x || r == -x)
  {
    if x < 0 then -x else x
  }

  /** Math.round: the integer nearest to x, the one towards +infinity on a tie. */
  function Round(x: real): (r: int)
    ensures x - 0.5 < r as real <= x + 0.5
  {
    (x + 0.5).Floor
  }

  lemma RoundMonotonic(x: real, y: real)
    requires x <= y
    ensures Round(x) <= Round(y)
  {
  }

  lemma RoundOfInteger(n: int)
    ensures Round(n as real) == n
  {
  }

  predicate IsDigit(c: char) {
    '0' <= c <= '9'
  }

  predicate IsDigits(s: string) {
    forall i :: 0 <= i < |s| ==> IsDigit(s[i])
  }

  function DigitChar(d: int): (c: char)
    requires 0 <= d < 10
    ensures IsDigit(c) && c as int - '0' as int == d
  {
    ('0' as int + d) as char
  }

  /** The value of a string of decimal digits, most significant first. */
  function DigitsValue(s: string): nat
    requires IsDigits(s)
  {
    if s == [] then 0 else DigitsValue(s[..|s| - 1]) * 10 + (s[|s| - 1] as int - '0' as int)
  }

  /** Number::toString of a non-negative integer below 10^21: its decimal digits. */
  function NatToString(n: nat): (s: string)
    ensures s != [] && IsDigits(s)
    ensures s[0] == '0' ==> s == "0"
  {
    if n < 10 then [DigitChar(n)] else NatToString(n / 10) + [DigitChar(n % 10)]
  }

  /** Reading the digits back gives the number: NatToString loses nothing. */
  lemma {:induction false} NatToStringRoundTrip(n: nat)
    ensures DigitsValue(NatToString(n)) == n
  {
    if n >= 10 {
      NatToStringRoundTrip(n / 10);
      var s := NatToString(n);
      assert s[..|s| - 1] == NatToString(n / 10);
    }
  }

  lemma NatToStringInjective(a: nat, b: nat)
    requires NatToString(a) == NatToString(b)
    ensures a == b
  {
    NatToStringRoundTrip(a);
    NatToStringRoundTrip(b);
  }

  function Pow10(f: nat): (p: nat)
    ensures p >= 1
  {
    if f == 0 then 1 else 10 * Pow10(f - 1)
  }

  function Zeros(k: nat): (s: string)
    ensures |s| == k && IsDigits(s)
  {
    if k == 0 then "" else Zeros(k - 1) + "0"
  }

  lemma {:induction false} DigitsValueAppend(a: string, b: string)
    requires IsDigits(a) && IsDigits(b)
    ensures IsDigits(a + b)
    ensures DigitsValue(a + b) == DigitsValue(a) * Pow10(|b|) + DigitsValue(b)
  {
    if b != [] {
      var b' := b[..|b| - 1];
      var d := b[|b| - 1] as int - '0' as int;
      assert (a + b)[..|a + b| - 1] == a + b';
      assert (a + b)[|a + b| - 1] == b[|b| - 1];
      DigitsValueAppend(a, b');
      assert DigitsValue(a + b) == DigitsValue(a + b') * 10 + d;
      assert DigitsValue(b) == DigitsValue(b') * 10 + d;
      assert Pow10(|b|) == 10 * Pow10(|b'|);
      ShiftDigit(DigitsValue(a), Pow10(|b'|), DigitsValue(b'), d);
    } else {
      assert a + b == a;
    }
  }

  lemma ShiftDigit(va: int, p: int, vb: int, d: int)
    ensures (va * p + vb) * 10 + d == va * (10 * p) + (vb * 10 + d)
  {
  }

  lemma {:induction false} ZerosValue(k: nat)
    ensures DigitsValue(Zeros(k)) == 0
  {
    if k > 0 {
      assert Zeros(k)[..k - 1] == Zeros(k - 1);
      ZerosValue(k - 1);
    }
  }

  /** r is a decimal numeral with f digits after its point whose digits,
      read without the point, spell n; its integer part has no leading zero
      unless it is the single digit 0. */
  predicate FixedText(r: string, f: nat, n: nat) {
    && |r| >= f + 2 && r[|r| - f - 1] == '.'
    && (r[0] != '0' || |r| == f + 2)
    && IsDigits(r[..|r| - f - 1]) && IsDigits(r[|r| - f..])
    && DigitsValue(r[..|r| - f - 1] + r[|r| - f..]) == n
  }

  /** Steps 10.b-10.d of Number.prototype.toFixed (ECMA-262, section 21.1.3.3):
      the digits of n, padded with leading zeros to more than f digits when
      f > 0, with a decimal point before the last f of them. */
  function FixedDigits(n: nat, f: nat): (r: string)
    ensures f == 0 ==> r == NatToString(n)
    ensures f > 0 ==> FixedText(r, f, n)
  {
    var m := NatToString(n);
    if f == 0 then m
    else
      var padded := if |m| <= f then Zeros(f + 1 - |m|) + m else m;
      var k := |padded|;
      var r := padded[..k - f] + "." + padded[k - f..];
      PaddedValue(n, f, m, padded);
      PointInserted(padded, f, n, r);
      r
  }

  /** Putting a point before the last f of more than f digits leaves the
      digits, read without it, unchanged. */
  lemma PointInserted(padded: string, f: nat, n: nat, r: string)
    requires IsDigits(padded) && |padded| >= f + 1 && DigitsValue(padded) == n
    requires padded[0] != '0' || |padded| == f + 1
    requires r == padded[..|padded| - f] + "." + padded[|padded| - f..]
    ensures FixedText(r, f, n)
  {
    var k := |padded|;
    var front, back := padded[..k - f], padded[k - f..];
    assert padded == front + back;
    assert r[0] == padded[0];
    assert r[..|r| - f - 1] == front;
    assert r[|r| - f..] == back;
  }

  /** Leading zeros do not change the digits' value, and they are only
      added to make exactly f + 1 digits. */
  lemma PaddedValue(n: nat, f: nat, m: string, padded: string)
    requires f > 0
    requires m == NatToString(n)
    requires padded == if |m| <= f then Zeros(f + 1 - |m|) + m else m
    ensures IsDigits(padded) && |padded| >= f + 1 && DigitsValue(padded) == n
    ensures padded[0] != '0' || |padded| == f + 1
  {
    NatToStringRoundTrip(n);
    if |m| <= f {
      ZerosPrefixValue(f + 1 - |m|, m);
    }
  }

  lemma ZerosPrefixValue(k: nat, b: string)
    requires IsDigits(b)
    ensures IsDigits(Zeros(k) + b) && DigitsValue(Zeros(k) + b) == DigitsValue(b)
  {
    var z := Zeros(k);
    ZerosValue(k);
    DigitsValueAppend(z, b);
    ZeroProduct(DigitsValue(z), Pow10(|b|));
  }

  lemma ZeroProduct(a: int, b: int)
    requires a == 0
    ensures a * b == 0
  {
  }

  const ToFixedLimit: real := 1000000000000000000000.0

  /** Number.prototype.toFixed(f) (ECMA-262, section 21.1.3.3) of a finite value.
      numberToString is Number::toString, which the algorithm uses for
      magnitudes of at least 10^21. */
  function ToFixed(x: real, f: nat, numberToString: real -> string): (r: string)
    requires f <= 100
    ensures 0.0 <= x < ToFixedLimit && f > 0 ==> FixedText(r, f, ScaledDigits(x, f))
    ensures -ToFixedLimit < x < 0.0 && f > 0 ==>
      |r| > 0 && r[0] == '-' && FixedText(r[1..], f, ScaledDigits(-x, f))
  {
    if x < 0.0 then "-" + UnsignedFixed(-x, f, numberToString)
    else UnsignedFixed(x, f, numberToString)
  }

  /** The integer n of step 10.a of toFixed: x scaled by 10^f and rounded,
      the larger candidate on a tie. */
  function ScaledDigits(x: real, f: nat): (n: int)
    ensures x >= 0.0 ==> n >= 0
  {
    if x >= 0.0 then RoundNonNegative(x, Pow10(f) as real); Round(x * Pow10(f) as real)
    else Round(x * Pow10(f) as real)
  }

  function UnsignedFixed(x: real, f: nat, numberToString: real -> string): (r: string)
    requires x >= 0.0
    ensures x < ToFixedLimit && f > 0 ==> FixedText(r, f, ScaledDigits(x, f))
  {
    if x >= ToFixedLimit then numberToString(x)
    else FixedDigits(ScaledDigits(x, f), f)
  }

  /** Number(x.toFixed(f)): the value toFixed spells out, for |x| < 10^21.
      For larger magnitudes toFixed falls back to Number::toString, which
      reads back as x itself. */
  function FixedValue(x: real, f: nat): (v: real)
    ensures x >= 0.0 ==> v >= 0.0
    ensures x <= 0.0 ==> v <= 0.0
  {
    if x < 0.0 then -UnsignedFixedValue(-x, f) else UnsignedFixedValue(x, f)
  }

  function UnsignedFixedValue(x: real, f: nat): real
    requires x >= 0.0
  {
    if x >= ToFixedLimit then x else ScaledDigits(x, f) as real / Pow10(f) as real
  }

  /** Below 10^21 the text of x.toFixed(f) reads back as FixedValue(x, f): a
      decimal point before the last f digits, and the digits around it
      spelling the scaled, rounded value. */
  lemma ToFixedReadsBack(x: real, f: nat, numberToString: real -> string)
    requires 0.0 <= x < ToFixedLimit && 0 < f <= 100
    ensures FixedText(ToFixed(x, f, numberToString), f, ScaledDigits(x, f))
    ensures FixedValue(x, f) == ScaledDigits(x, f) as real / Pow10(f) as real
  {
  }

  lemma RoundNonNegative(x: real, p: real)
    requires x >= 0.0 && p >= 1.0
    ensures Round(x * p) >= 0
  {
  }

  lemma DivideBounds(e: real, p: real)
    requires p >= 1.0 && -0.5 < e <= 0.5
    ensures -0.5 / p < e / p <= 0.5 / p
  {
  }

  lemma ScaleBack(n: real, y: real, p: real, yp: real)
    requires p >= 1.0 && yp == y * p
    ensures n / p - y == (n - yp) / p
  {
  }

  lemma {:induction false} UnsignedFixedValueClose(y: real, f: nat, p: real)
    requires y >= 0.0 && p == Pow10(f) as real
    ensures y - 0.5 / p <= UnsignedFixedValue(y, f) <= y + 0.5 / p
  {
    if y < ToFixedLimit {
      var yp := y * p;
      var n := Round(yp) as real;
      assert y * Pow10(f) as real == yp;
      assert ScaledDigits(y, f) as real == n;
      assert UnsignedFixedValue(y, f) == n / p;
      assert -0.5 < n - yp <= 0.5;
      DivideBounds(n - yp, p);
      ScaleBack(n, y, p, yp);
    } else {
      assert 0.5 / p > 0.0;
    }
  }

  /** The rounded value is within half a unit of the last place of x. */
  lemma FixedValueClose(x: real, f: nat)
    ensures x - 0.5 / Pow10(f) as real <= FixedValue(x, f) <= x + 0.5 / Pow10(f) as real
  {
    var p := Pow10(f) as real;
    if x < 0.0 {
      UnsignedFixedValueClose(-x, f, p);
    } else {
      UnsignedFixedValueClose(x, f, p);
    }
  }
}
