/**
 * The numeric conversions the game session relies on: Python's `round`
 * (ties to even) on the hint fraction and on the point penalty, and the
 * decimal text of an integer as `"%s" % n` writes it and `int(...)` reads
 * it back from the score and history files.
 *
 * The plugin's floats are modelled as exact reals.
 */
module Numbers {
  import opened Wrappers
  import opened Text

  /** Python's `round(x)`: the nearest integer, ties to the even one. */
  function RoundHalfEven(x: real): (r: int)
    ensures x - 0.5 <= r as real <= x + 0.5
    ensures (r as real - x == 0.5 || x - r as real == 0.5) ==> r % 2 == 0
  {
    var f := x.Floor;
    var d := x - f as real;
    if d < 0.5 then f
    else if d > 0.5 then f + 1
    else if f % 2 == 0 then f
    else f + 1
  }

  /** `round(x, -1)`: the nearest multiple of ten, ties to the even multiple. */
  function RoundToTens(x: real): (r: int)
    ensures r % 10 == 0
    ensures x - 5.0 <= r as real <= x + 5.0
  {
    10 * RoundHalfEven(x / 10.0)
  }

  /** The float product `n * f` of a count and a fraction. */
  function Scale(n: int, f: real): real {
    n as real * f
  }

  /** A hint's share of the letters still to reveal: `round(divider * hintPercentage)`. */
  function Share(divider: int, hintPercentage: real): (r: int)
    ensures Scale(divider, hintPercentage) - 0.5 <= r as real <= Scale(divider, hintPercentage) + 0.5
  {
    RoundHalfEven(Scale(divider, hintPercentage))
  }

  /** The points a changing hint costs: `round(p * reduction, -1)`. */
  function Penalty(p: int, reduction: real): (r: int)
    ensures r % 10 == 0
    ensures Scale(p, reduction) - 5.0 <= r as real <= Scale(p, reduction) + 5.0
  {
    RoundToTens(Scale(p, reduction))
  }

  /** A fraction of a non-negative count lies between 0 and the count. */
  lemma Scaled(n: int, f: real)
    requires 0 <= n && 0.0 <= f <= 1.0
    ensures 0.0 <= Scale(n, f) <= n as real
  {
    var y := n as real * (1.0 - f);
    assert y >= 0.0;
    assert n as real * f == n as real - y;
  }

  /** With a fraction as the percentage, a share of a non-negative count lies between 0 and the count. */
  lemma ShareWithinDivider(divider: int, hintPercentage: real)
    requires 0 <= divider && 0.0 <= hintPercentage <= 1.0
    ensures 0 <= Share(divider, hintPercentage) <= divider
  {
    Scaled(divider, hintPercentage);
    RoundWithin(Scale(divider, hintPercentage), divider);
  }

  /** Rounding a value between 0 and a count gives a value between 0 and the count. */
  lemma RoundWithin(x: real, n: int)
    requires 0.0 <= x <= n as real
    ensures 0 <= RoundHalfEven(x) <= n
  {
  }

  /** Rounding to tens keeps a value between 0 and a multiple of ten within those bounds. */
  lemma RoundToTensWithin(x: real, m: nat)
    requires 0.0 <= x <= (10 * m) as real
    ensures 0 <= RoundToTens(x) <= 10 * m
  {
    RoundWithin(x / 10.0, m);
  }

  /**
   * The hint penalty `round(p * reduction, -1)` never pushes a non-negative
   * score below zero while the score is a multiple of ten (`10 * m`) and the
   * reduction a fraction: it lies between 0 and the score.
   */
  lemma PenaltyWithinPoints(m: nat, reduction: real)
    requires 0.0 <= reduction <= 1.0
    ensures 0 <= Penalty(10 * m, reduction) <= 10 * m
  {
    Scaled(10 * m, reduction);
    RoundToTensWithin(Scale(10 * m, reduction), m);
  }

  /** With a non-negative reduction the penalty is never negative, so points never go up. */
  lemma PenaltyNonNegative(p: int, reduction: real)
    requires 0 <= p && 0.0 <= reduction
    ensures Penalty(p, reduction) >= 0
  {
    var x := Scale(p, reduction);
    assert x >= 0.0;
    var k := RoundHalfEven(x / 10.0);
    assert k as real >= -0.5;
  }

  // ---------------------------------------------------------------------
  // Decimal text
  // ---------------------------------------------------------------------

  function DigitChar(d: nat): (c: char)
    requires d < 10
    ensures IsDigit(c)
  {
    ('0' as int + d) as char
  }

  function DigitValue(c: char): nat
    requires IsDigit(c)
  {
    c as int - '0' as int
  }

  /** Decimal digits of n, most significant first, no leading zeros. */
  function NatToString(n: nat): (s: string)
    ensures |s| >= 1
    ensures forall i :: 0 <= i < |s| ==> IsDigit(s[i])
    decreases n
  {
    if n < 10 then [DigitChar(n)] else NatToString(n / 10) + [DigitChar(n % 10)]
  }

  /** `"%s" % i` for an int. */
  function IntToString(i: int): (s: string)
    ensures |s| >= 1
    ensures forall k :: 0 <= k < |s| ==> IsDigit(s[k]) || (k == 0 && s[k] == '-')
  {
    if i < 0 then "-" + NatToString(-i) else NatToString(i)
  }

  function DigitsValue(s: string): nat
    requires forall i :: 0 <= i < |s| ==> IsDigit(s[i])
  {
    if s == [] then 0 else DigitsValue(s[..|s| - 1]) * 10 + DigitValue(s[|s| - 1])
  }

  predicate AllDigits(s: string) {
    forall i :: 0 <= i < |s| ==> IsDigit(s[i])
  }

  /** `int(s)` on a decimal literal: surrounding whitespace, an optional sign, then at least one digit. */
  function ParseInt(s: string): (r: Option<int>)
    ensures r.Some? ==> Strip(s) != []
  {
    ParseStripped(Strip(s))
  }

  function ParseStripped(t: string): (r: Option<int>)
    ensures r.Some? ==> t != []
  {
    if t == [] then None
    else
      var digits := if t[0] == '-' || t[0] == '+' then t[1..] else t;
      if digits != [] && AllDigits(digits) then
        var v: int := DigitsValue(digits);
        Some(if t[0] == '-' then -v else v)
      else None
  }

  lemma {:induction false} DigitsOfNat(n: nat)
    ensures DigitsValue(NatToString(n)) == n
    decreases n
  {
    if n >= 10 {
      DigitsOfNat(n / 10);
      var s := NatToString(n);
      assert s[..|s| - 1] == NatToString(n / 10);
    }
  }

  /** `int` reads the text `"%s" % i` back as i. */
  lemma ParseIntToString(i: int)
    ensures ParseInt(IntToString(i)) == Some(i)
  {
    var s := IntToString(i);
    StripTrailingSpaces(s, []);
    assert s + [] == s;
    if i < 0 {
      var d := NatToString(-i);
      DigitsOfNat(-i);
      assert s[0] == '-' && s[1..] == d;
      assert AllDigits(d);
      assert DigitsValue(d) == -i;
    } else {
      DigitsOfNat(i);
      assert s[0] != '-' && s[0] != '+';
      assert AllDigits(s);
    }
  }

  /** Trailing whitespace, such as the line break, does not change what `int` reads. */
  lemma ParseIntIgnoresTrailingSpaces(s: string, ws: string)
    requires s == [] || (!IsSpace(s[0]) && !IsSpace(s[|s| - 1]))
    requires forall k :: 0 <= k < |ws| ==> IsSpace(ws[k])
    ensures ParseInt(s + ws) == ParseInt(s)
  {
    StripTrailingSpaces(s, ws);
    StripTrailingSpaces(s, []);
    assert s + [] == s;
  }

  /** Reading back what `"%s\n" % i` wrote gives i. */
  lemma IntRoundTrip(i: int, ws: string)
    requires forall k :: 0 <= k < |ws| ==> IsSpace(ws[k])
    ensures ParseInt(IntToString(i) + ws) == Some(i)
  {
    var s := IntToString(i);
    assert !IsSpace(s[0]) && !IsSpace(s[|s| - 1]);
    ParseIntIgnoresTrailingSpaces(s, ws);
    ParseIntToString(i);
  }
}
