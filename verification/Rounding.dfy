/** How far rounding to a double goes, and where its results lie. */
module Rounding {
  import opened Binary64

  const TWO_56: int := 16 * TWO_52

  // ----- how far rounding goes

  lemma {:induction false} UnitError(x: real, depth: nat)
    requires 0.0 <= x < TWO_53 as real && depth <= FINEST
    ensures Abs(Magnitude(x, depth) - x) <= 0.5
    decreases FINEST - depth
  {
    if x < TWO_52 as real && depth < FINEST { UnitError(2.0 * x, depth + 1); }
  }

  lemma HalfError(x: real)
    requires 0.0 <= x < TWO_52 as real
    ensures Abs(Magnitude(x, 0) - x) <= 0.25
    ensures Magnitude(x, 0) == Magnitude(2.0 * x, 1) / 2.0
  {
    UnitError(2.0 * x, 1);
  }

  lemma QuarterError(x: real)
    requires 0.0 <= 2.0 * x < TWO_52 as real
    ensures Abs(Magnitude(x, 0) - x) <= 0.125
  {
    UnitError(4.0 * x, 2);
    assert Magnitude(x, 0) == Magnitude(2.0 * x, 1) / 2.0;
    assert 2.0 * (2.0 * x) == 4.0 * x;
    assert Magnitude(2.0 * x, 1) == Magnitude(4.0 * x, 2) / 2.0;
  }

  lemma TwiceError(x: real, e: real)
    requires 0.0 <= x && e >= 0.5
    requires x >= TWO_53 as real ==> Abs(Magnitude(x / 2.0, 0) - x / 2.0) <= e / 2.0
    ensures Abs(Magnitude(x, 0) - x) <= e
  {
    if x < TWO_53 as real { UnitError(x, 0); }
  }

  lemma ErrorBelow54(x: real)
    requires 0.0 <= x < 2.0 * TWO_53 as real
    ensures Abs(Magnitude(x, 0) - x) <= 1.0
  {
    if x >= TWO_53 as real { UnitError(x / 2.0, 0); }
    TwiceError(x, 1.0);
  }

  lemma ErrorBelow55(x: real)
    requires 0.0 <= x < 4.0 * TWO_53 as real
    ensures Abs(Magnitude(x, 0) - x) <= 2.0
  {
    ErrorBelow54(x / 2.0);
    TwiceError(x, 2.0);
  }

  lemma ErrorBelow56(x: real)
    requires 0.0 <= x < 8.0 * TWO_53 as real
    ensures Abs(Magnitude(x, 0) - x) <= 4.0
  {
    ErrorBelow55(x / 2.0);
    TwiceError(x, 4.0);
  }

  lemma ErrorBelow57(x: real)
    requires 0.0 <= x < 16.0 * TWO_53 as real
    ensures Abs(Magnitude(x, 0) - x) <= 8.0
  {
    ErrorBelow56(x / 2.0);
    TwiceError(x, 8.0);
  }

  lemma RoundError(x: real)
    ensures Abs(RoundHalfEven(x) as real - x) <= 0.5
  {
  }

  // ----- where doubles are eight and sixteen apart

  /** A sixteenth, rounded. */
  function SixteenthOf(m: nat): int {
    var q, r := m / 16, m % 16;
    if r < 8 || (r == 8 && q % 2 == 0) then q else q + 1
  }

  lemma RoundSixteenth(m: nat)
    ensures RoundHalfEven(m as real / 16.0) == SixteenthOf(m)
  {
    var q, r := m / 16, m % 16;
    var x := m as real / 16.0;
    assert m == 16 * q + r;
    assert x == q as real + r as real / 16.0;
    assert x.Floor == q;
  }

  /** From 2^56 to 2^57 doubles are sixteen apart. */
  lemma EverySixteenth(m: nat)
    requires TWO_56 <= m < 2 * TWO_56
    ensures Magnitude(m as real, 0) == 16.0 * SixteenthOf(m) as real
  {
    var x := m as real;
    RoundSixteenth(m);
    assert x / 2.0 / 2.0 == x / 4.0 && x / 4.0 / 2.0 == x / 8.0 && x / 8.0 / 2.0 == x / 16.0;
    assert Magnitude(x / 16.0, 0) == RoundHalfEven(x / 16.0) as real;
    assert Magnitude(x / 8.0, 0) == 2.0 * Magnitude(x / 16.0, 0);
    assert Magnitude(x / 4.0, 0) == 2.0 * Magnitude(x / 8.0, 0);
    assert Magnitude(x / 2.0, 0) == 2.0 * Magnitude(x / 4.0, 0);
  }

  lemma EveryEighth(x: real)
    requires 4.0 * TWO_53 as real <= x < 8.0 * TWO_53 as real
    ensures Magnitude(x, 0) == 8.0 * RoundHalfEven(x / 8.0) as real
  {
    assert x / 2.0 / 2.0 == x / 4.0 && x / 4.0 / 2.0 == x / 8.0;
    assert Magnitude(x / 8.0, 0) == RoundHalfEven(x / 8.0) as real;
    assert Magnitude(x / 4.0, 0) == 2.0 * Magnitude(x / 8.0, 0);
    assert Magnitude(x / 2.0, 0) == 2.0 * Magnitude(x / 4.0, 0);
  }

  lemma NextSixteenth(n: nat)
    ensures SixteenthOf(10 * n) == SixteenthOf(10 * (n + 1)) <==> n % 16 in {1, 3, 6, 9, 12, 14}
  {
    var a, b := n / 16, n % 16;
    assert n == 16 * a + b;
    assert 10 * n == 16 * (10 * a) + 10 * b;
    SixteenthShift(10 * a, 10 * b);
    SixteenthShift(10 * a, 10 * b + 10);
    NextSixteenthBelow(b);
  }

  lemma SixteenthShift(a: nat, m: nat)
    requires a % 2 == 0
    ensures SixteenthOf(16 * a + m) == a + SixteenthOf(m)
  {
    assert (16 * a + m) / 16 == a + m / 16;
    assert (16 * a + m) % 16 == m % 16;
  }

  lemma NextSixteenthBelow(b: nat)
    requires b < 16
    ensures SixteenthOf(10 * b) == SixteenthOf(10 * b + 10) <==> b in {1, 3, 6, 9, 12, 14}
  {
  }

  lemma FarSixteenths(m: nat, m': nat)
    requires m + 20 <= m'
    ensures SixteenthOf(m) < SixteenthOf(m')
  {
    assert m == 16 * (m / 16) + m % 16 && m' == 16 * (m' / 16) + m' % 16;
  }
}
