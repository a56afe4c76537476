/**
 Rounding to two decimal places, the way the metric calculators round their
 ratios (Python's built-in `round(x, 2)`).

 Python rounds an exact tie to the neighbour whose last kept digit is even
 ("banker's rounding"). The model works on exact rationals, so a tie here is
 a true tie; the binary floating-point representation that makes Python round
 some apparent ties (2.675) downwards is not modelled.
 */
module Rounding {

  /** `n` is a correct round-half-to-even of `y` to an integer: no further
      than one half away, and an even integer when `y` lies exactly halfway. */
  ghost predicate IsHalfEvenRounding(y: real, n: int) {
    && y - 0.5 <= n as real <= y + 0.5
    && (n as real == y - 0.5 || n as real == y + 0.5 ==> n % 2 == 0)
  }

  /** `r` has at most two decimal places: it is a whole number of cents. */
  predicate IsCents(r: real) {
    (r * 100.0).Floor as real == r * 100.0
  }

  /** `r` is `x` rounded half to even at two decimal places: a whole number of
      cents that is a half-even rounding of `x` measured in cents. */
  ghost predicate IsRound2Of(x: real, r: real) {
    IsCents(r) && IsHalfEvenRounding(x * 100.0, (r * 100.0).Floor)
  }

  function Abs(x: real): real {
    if x < 0.0 then -x else x
  }

  /** Round `y` to the nearest integer, ties to the even neighbour. */
  function RoundHalfEven(y: real): (n: int)
    ensures IsHalfEvenRounding(y, n)
  {
    var f := y.Floor;
    var frac := y - f as real;
    if frac < 0.5 then f
    else if frac > 0.5 then f + 1
    else if f % 2 == 0 then f
    else f + 1
  }

  /** There is only one half-even rounding of any real. */
  lemma HalfEvenRoundingUnique(y: real, n: int, m: int)
    requires IsHalfEvenRounding(y, n) && IsHalfEvenRounding(y, m)
    ensures n == m
  {
  }

  /** Python's `round(x, 2)` on an exact value: scale to cents, round half
      to even, scale back. */
  function Round2(x: real): (r: real)
    ensures IsRound2Of(x, r)
    ensures IsCents(r)
    ensures x - 0.005 <= r <= x + 0.005
    ensures r == x - 0.005 || r == x + 0.005 ==> (r * 100.0).Floor % 2 == 0
  {
    var n := RoundHalfEven(x * 100.0);
    var r := n as real / 100.0;
    assert r * 100.0 == n as real;
    assert (r * 100.0).Floor == n;
    r
  }

  /** Any value that is within half a cent of `x`, and lands on an even
      number of cents when it is exactly half a cent away, is `Round2(x)`. */
  lemma Round2Characterized(x: real, k: int)
    requires IsHalfEvenRounding(x * 100.0, k)
    ensures Round2(x) == k as real / 100.0
  {
    var n := RoundHalfEven(x * 100.0);
    HalfEvenRoundingUnique(x * 100.0, n, k);
  }

  /** The rounded value is a closest two-decimal value to `x`: no whole number
      of cents lies strictly nearer. */
  lemma Round2IsNearest(x: real, k: int)
    ensures Abs(x - Round2(x)) <= Abs(x - k as real / 100.0)
  {
    var y := x * 100.0;
    var n := RoundHalfEven(y);
    assert Round2(x) == n as real / 100.0;
    if k != n {
      assert Abs(y - n as real) <= 0.5;
      assert Abs(y - k as real) >= 0.5;
      assert Abs(x - n as real / 100.0) == Abs(y - n as real) / 100.0;
      assert Abs(x - k as real / 100.0) == Abs(y - k as real) / 100.0;
    }
  }

  /** A value that already has two decimal places is left unchanged. */
  lemma Round2FixesCents(c: real)
    requires IsCents(c)
    ensures Round2(c) == c
  {
    var k := (c * 100.0).Floor;
    assert k as real == c * 100.0;
    assert IsHalfEvenRounding(c * 100.0, k);
    Round2Characterized(c, k);
  }

  /** Rounding twice is the same as rounding once. */
  lemma Round2Idempotent(x: real)
    ensures Round2(Round2(x)) == Round2(x)
  {
    Round2FixesCents(Round2(x));
  }

  /** Rounding never reverses the order of two values. */
  lemma Round2Monotone(x: real, y: real)
    requires x <= y
    ensures Round2(x) <= Round2(y)
  {
    var n := RoundHalfEven(x * 100.0);
    var m := RoundHalfEven(y * 100.0);
    assert Round2(x) == n as real / 100.0 && Round2(y) == m as real / 100.0;
    assert IsHalfEvenRounding(x * 100.0, n) && IsHalfEvenRounding(y * 100.0, m);
    if x == y {
      assert n == m;
    } else {
      assert x * 100.0 < y * 100.0;
      assert (n as real) < (m as real) + 1.0;
      assert n <= m;
    }
  }

  /** Half-to-even treats both signs alike: rounding commutes with negation
      (a half-up rule would not). */
  lemma Round2Negation(x: real)
    ensures Round2(-x) == -Round2(x)
  {
    var y := x * 100.0;
    var n := RoundHalfEven(y);
    assert (-x) * 100.0 == -y;
    assert IsHalfEvenRounding(-y, -n);
    Round2Characterized(-x, -n);
  }
}
