/** Binary64 arithmetic as far as channel numbers need it: the rounding of a real number to the
    double nearest to it, ties to even (section 4.3.1 of IEEE 754-2019).

    A double is represented by the real number it stands for.  `Magnitude` scales its argument by
    two until the last place of the double is the units place, rounds there, and scales back. */
module Binary64 {

  const TWO_52: int := 0x10_0000_0000_0000
  const TWO_53: int := 0x20_0000_0000_0000

  /** The smallest positive double is 2 to the power minus this. */
  const FINEST: nat := 1074

  function Pow2(n: nat): (p: int)
    ensures p >= 1
  {
    if n == 0 then 1 else 2 * Pow2(n - 1)
  }

  /** The nearest integer, a tie going to the even one: both IEEE's rule and Python's `round`. */
  function RoundHalfEven(x: real): int {
    var f := x.Floor;
    var r := x - f as real;
    if r < 0.5 || (r == 0.5 && f % 2 == 0) then f else f + 1
  }

  /** The double nearest to a non-negative `x`, the argument having been doubled `depth` times. */
  function Magnitude(x: real, depth: nat): (r: real)
    requires 0.0 <= x && depth <= FINEST
    ensures 0.0 <= r <= 2.0 * x + (if x < TWO_52 as real then 1.0 else 0.0)
    ensures x >= 5.0 ==> r >= 0.9 * x
    decreases FINEST - depth, x.Floor
  {
    if x >= TWO_53 as real then 2.0 * Magnitude(x / 2.0, depth)
    else if x < TWO_52 as real && depth < FINEST then Magnitude(2.0 * x, depth + 1) / 2.0
    else RoundHalfEven(x) as real
  }

  /** `x` rounded to a double.  A result of 2^1024 or more is an overflow. */
  function Fl(x: real): real {
    if x < 0.0 then -Magnitude(-x, 0) else Magnitude(x, 0)
  }

  predicate Overflows(x: real) {
    Abs(Fl(x)) >= Pow2(1024) as real
  }

  /** `y * 2^j`. */
  ghost function Lift(y: real, j: nat): real {
    if j == 0 then y else 2.0 * Lift(y, j - 1)
  }

  /** `y` is `m * 2^j`, or `m / 2^j` where a double may be divided at most `finest` times. */
  ghost predicate IsDoubleAt(y: real, m: int, j: nat, finest: nat) {
    && -TWO_53 <= m <= TWO_53
    && (y == Lift(m as real, j) || (j <= finest && Lift(y, j) == m as real))
  }

  ghost predicate IsDouble(y: real, finest: nat) {
    exists m: int, j: nat :: IsDoubleAt(y, m, j, finest)
  }

  function Abs(x: real): real {
    if x < 0.0 then -x else x
  }

  // ----- rounding is what IEEE 754 says it is

  lemma {:induction false} MagnitudeIsDouble(x: real, depth: nat) returns (m: int, j: nat)
    requires 0.0 <= x && depth <= FINEST
    ensures IsDoubleAt(Magnitude(x, depth), m, j, FINEST - depth)
    decreases FINEST - depth, x.Floor
  {
    if x >= TWO_53 as real {
      m, j := MagnitudeIsDouble(x / 2.0, depth);
      m, j := TwiceADouble(Magnitude(x / 2.0, depth), m, j, FINEST - depth);
    } else if x < TWO_52 as real && depth < FINEST {
      m, j := MagnitudeIsDouble(2.0 * x, depth + 1);
      m, j := HalfADouble(Magnitude(2.0 * x, depth + 1), m, j, FINEST - depth - 1);
    } else {
      m, j := RoundHalfEven(x), 0;
    }
  }

  lemma {:induction false} LiftOfDouble(y: real, j: nat)
    ensures Lift(2.0 * y, j) == 2.0 * Lift(y, j)
  {
    if j > 0 { LiftOfDouble(y, j - 1); }
  }

  lemma {:induction false} LiftOfNegation(y: real, j: nat)
    ensures Lift(-y, j) == -Lift(y, j)
  {
    if j > 0 { LiftOfNegation(y, j - 1); }
  }

  lemma TwiceADouble(y: real, m: int, j: nat, finest: nat) returns (m': int, j': nat)
    requires IsDoubleAt(y, m, j, finest)
    ensures IsDoubleAt(2.0 * y, m', j', if finest == 0 then 0 else finest - 1)
    ensures IsDoubleAt(2.0 * y, m', j', finest)
  {
    m' := m;
    if y == Lift(m as real, j) {
      j' := j + 1;
      assert 2.0 * y == Lift(m as real, j');
    } else {
      assert j > 0;
      j' := j - 1;
      LiftOfDouble(y, j');
      assert Lift(2.0 * y, j') == Lift(y, j);
    }
  }

  lemma HalfADouble(y: real, m: int, j: nat, finest: nat) returns (m': int, j': nat)
    requires IsDoubleAt(y, m, j, finest)
    ensures IsDoubleAt(y / 2.0, m', j', finest + 1)
  {
    m' := m;
    if j > 0 && y == Lift(m as real, j) {
      j' := j - 1;
    } else {
      j' := j + 1;
      LiftOfDouble(y / 2.0, j);
      assert 2.0 * (y / 2.0) == y;
    }
  }

  lemma {:induction false} IntegerMultiple(m: int, j: nat) returns (n: int)
    ensures Lift(m as real, j) == n as real
  {
    if j == 0 {
      n := m;
    } else {
      var h := IntegerMultiple(m, j - 1);
      n := 2 * h;
    }
  }

  lemma {:induction false} LiftGrows(y: real, j: nat)
    ensures y >= 0.0 ==> Lift(y, j) >= y
    ensures y >= 0.0 && j > 0 ==> Lift(y, j) >= 2.0 * y
  {
    if j > 0 { LiftGrows(y, j - 1); }
  }

  /** In the binade of 2^52 the nearest integer is the nearest double. */
  lemma NearestInUnitBinade(x: real, y: real, m: int, j: nat, finest: nat)
    requires TWO_52 as real <= x && IsDoubleAt(y, m, j, finest)
    ensures Abs(RoundHalfEven(x) as real - x) <= Abs(y - x)
  {
    if y == Lift(m as real, j) {
      var n := IntegerMultiple(m, j);
      NearestInteger(x, n);
    } else {
      LiftGrows(y, j);
      assert j > 0;
      if y > 0.0 { assert y <= TWO_52 as real; }
      NearestInteger(x, TWO_52);
    }
  }

  lemma NearestInteger(x: real, n: int)
    ensures Abs(RoundHalfEven(x) as real - x) <= Abs(n as real - x)
  {
    var f := x.Floor;
    if n <= f {
      assert n as real <= f as real <= x;
    } else {
      assert n as real >= (f + 1) as real > x;
    }
  }

  /** At 2^52 and above the finest exponent plays no part. */
  lemma {:induction false} NearestWhenLarge(x: real, depth: nat, y: real, m: int, j: nat, finest: nat)
    requires TWO_52 as real <= x && depth <= FINEST && IsDoubleAt(y, m, j, finest)
    ensures Abs(Magnitude(x, depth) - x) <= Abs(y - x)
    decreases x.Floor
  {
    if x >= TWO_53 as real {
      var m', j' := HalfADouble(y, m, j, finest);
      NearestWhenLarge(x / 2.0, depth, y / 2.0, m', j', finest + 1);
    } else {
      NearestInUnitBinade(x, y, m, j, finest);
    }
  }

  /** No double is nearer to `x` than the rounding of `x` is. */
  lemma {:induction false} NearestDouble(x: real, depth: nat, y: real)
    requires 0.0 <= x && depth <= FINEST && IsDouble(y, FINEST - depth)
    ensures Abs(Magnitude(x, depth) - x) <= Abs(y - x)
    decreases FINEST - depth
  {
    var m: int, j: nat :| IsDoubleAt(y, m, j, FINEST - depth);
    if x >= TWO_52 as real {
      NearestWhenLarge(x, depth, y, m, j, FINEST - depth);
    } else if depth < FINEST {
      var m', j' := TwiceADouble(y, m, j, FINEST - depth);
      NearestDouble(2.0 * x, depth + 1, 2.0 * y);
    } else {
      assert y == Lift(m as real, j);
      var n := IntegerMultiple(m, j);
      NearestInteger(x, n);
    }
  }

  lemma NegatedDouble(y: real, finest: nat)
    requires IsDouble(y, finest)
    ensures IsDouble(-y, finest)
  {
    var m: int, j: nat :| IsDoubleAt(y, m, j, finest);
    LiftOfNegation(y, j);
    LiftOfNegation(m as real, j);
    assert -(m as real) == (-m) as real;
    assert IsDoubleAt(-y, -m, j, finest);
  }

  /** `Fl(x)` is a double, and no double is nearer to `x`. */
  lemma RoundsToNearest(x: real, y: real)
    ensures IsDouble(Fl(x), FINEST)
    ensures IsDouble(y, FINEST) ==> Abs(Fl(x) - x) <= Abs(y - x)
  {
    var a := if x < 0.0 then -x else x;
    var m, j := MagnitudeIsDouble(a, 0);
    if x < 0.0 { NegatedDouble(Magnitude(a, 0), FINEST); }
    if IsDouble(y, FINEST) {
      if x < 0.0 {
        NegatedDouble(y, FINEST);
        NearestDouble(a, 0, -y);
      } else {
        NearestDouble(a, 0, y);
      }
    }
  }

  /** Halved or doubled until it is in the binade of the units place, unless that is finer than doubles go,
      the argument rounds to the nearest whole number, a tie to the even one, and `Magnitude` to that put
      back. */
  lemma {:induction false} RoundsHalfEven(x: real, depth: nat) returns (y: real, m: int, j: nat, halved: bool)
    requires 0.0 <= x && depth <= FINEST
    ensures 0.0 <= y < TWO_53 as real
    ensures Abs(m as real - y) <= 0.5 && (Abs(m as real - y) == 0.5 ==> m % 2 == 0)
    ensures halved ==> y >= TWO_52 as real && x == Lift(y, j) && Magnitude(x, depth) == Lift(m as real, j)
    ensures !halved ==> Lift(x, j) == y && Lift(Magnitude(x, depth), j) == m as real
    ensures !halved ==> depth + j <= FINEST && (y >= TWO_52 as real || depth + j == FINEST)
    ensures x < TWO_53 as real ==> !halved
    ensures x >= TWO_52 as real ==> halved || j == 0
    decreases FINEST - depth, x.Floor
  {
    if x >= TWO_53 as real {
      y, m, j, halved := RoundsHalfEven(x / 2.0, depth);
      j, halved := if halved then j + 1 else 1, true;
    } else if x < TWO_52 as real && depth < FINEST {
      y, m, j, halved := RoundsHalfEven(2.0 * x, depth + 1);
      LiftOfDouble(x, j);
      LiftOfDouble(Magnitude(x, depth), j);
      assert 2.0 * Magnitude(x, depth) == Magnitude(2.0 * x, depth + 1);
      j := j + 1;
    } else {
      y, m, j, halved := x, RoundHalfEven(x), 0, false;
    }
  }

  // ----- moving the binary point

  /** From 2^52 up, how often the argument has been doubled is immaterial. */
  lemma {:induction false} DepthImmaterial(x: real, d: nat, d': nat)
    requires TWO_52 as real <= x && d <= FINEST && d' <= FINEST
    ensures Magnitude(x, d) == Magnitude(x, d')
    decreases x.Floor
  {
    if x >= TWO_53 as real { DepthImmaterial(x / 2.0, d, d'); }
  }

  /** Rounding commutes with doubling. */
  lemma DoublingCommutes(x: real, depth: nat)
    requires 0.0 <= x && depth < FINEST
    ensures Magnitude(2.0 * x, depth + 1) == 2.0 * Magnitude(x, depth)
  {
    if x >= TWO_52 as real {
      assert 2.0 * x >= TWO_53 as real && (2.0 * x) / 2.0 == x;
      DepthImmaterial(x, depth, depth + 1);
    }
  }

  lemma RoundAtLeast(x: real, n: int)
    requires x >= n as real
    ensures RoundHalfEven(x) >= n
  {
    assert x.Floor >= n;
  }

  /** From 2^53 up every double is an even integer, and integers below it are doubles. */
  lemma {:induction false} LargeIsWhole(x: real, depth: nat) returns (n: int)
    requires TWO_52 as real <= x && depth <= FINEST
    ensures Magnitude(x, depth) == n as real
    ensures n >= TWO_52
    ensures x >= TWO_53 as real ==> n % 2 == 0 && n >= TWO_53
    decreases x.Floor
  {
    if x >= TWO_53 as real {
      var h := LargeIsWhole(x / 2.0, depth);
      n := 2 * h;
    } else {
      n := RoundHalfEven(x);
      RoundAtLeast(x, TWO_52);
    }
  }

  /** An integer rounds to an integer, and to itself below 2^53. */
  lemma {:induction false} WholeStaysWhole(n: nat, depth: nat) returns (r: int)
    requires depth <= FINEST
    ensures Magnitude(n as real, depth) == r as real
    ensures n <= TWO_53 ==> r == n
    ensures n >= TWO_53 ==> r >= TWO_53
  {
    if n >= TWO_52 {
      r := LargeIsWhole(n as real, depth);
      if n == TWO_53 {
        assert (TWO_53 as real) / 2.0 == TWO_52 as real;
      }
    } else {
      SmallWhole(n, depth);
      r := n;
    }
  }

  lemma {:induction false} SmallWhole(n: nat, depth: nat)
    requires n < TWO_53 && depth <= FINEST
    ensures Magnitude(n as real, depth) == n as real
    decreases FINEST - depth
  {
    if n < TWO_52 && depth < FINEST {
      assert 2.0 * n as real == (2 * n) as real;
      SmallWhole(2 * n, depth + 1);
    }
  }
}
