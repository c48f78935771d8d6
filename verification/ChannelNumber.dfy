/** The channel-number contract (backend/channel_number.py): a non-negative number with at most one
    decimal place, held in a double, and the grid of tenths that numbers are compared on. */
module ChannelNumber {
  import opened Common
  import opened Binary64

  /** A Python value as the contract sees it: `int` is unbounded, `float` is a double. */
  datatype Value = Null | Bool(b: bool) | Int(n: int) | Float(x: real) | Infinite(negative: bool) | NaN | Other

  const TICKS_PER_UNIT: int := 10

  /** The double nearest to 1e-9. */
  const TENTH_TOLERANCE: real := 4835703278458517.0 / 4835703278458516698824704.0

  /** Every double from here up is a whole number. */
  const EXACT_INTEGER_FLOOR: real := TWO_53 as real

  // ----- the predicate and the two conversions

  function Scaled(number: real): real {
    Fl(number * TICKS_PER_UNIT as real)
  }

  lemma ScaledIs(v: real)
    requires 0.0 <= v
    ensures Scaled(v) == Magnitude(10.0 * v, 0)
  {
    assert v * 10.0 == 10.0 * v;
  }

  predicate InContract(number: real) {
    && number >= 0.0
    && (number >= EXACT_INTEGER_FLOOR
        || var scaled := Scaled(number);
           Abs(Fl(scaled - Fl(RoundHalfEven(scaled) as real))) <= TENTH_TOLERANCE)
  }

  predicate IsValid(value: Value) {
    match value
    case Int(n) => !Overflows(n as real) && InContract(Fl(n as real))
    case Float(x) => InContract(x)
    case _ => false
  }

  /** Python's `int(x)`. */
  function Truncate(x: real): int {
    if x < 0.0 then -((-x).Floor) else x.Floor
  }

  /** `channel_number_ticks`; `None` is its InvalidChannelNumberError. */
  function Ticks(value: Value): Option<int> {
    match value
    case Int(n) => Some(n * TICKS_PER_UNIT)
    case Float(x) =>
      if Abs(x) >= EXACT_INTEGER_FLOOR then Some(Truncate(x) * TICKS_PER_UNIT)
      else Some(RoundHalfEven(Scaled(x)))
    case _ => None
  }

  /** `channel_number_from_ticks`; `None` is the OverflowError of a quotient no double can hold. */
  function FromTicks(ticks: int): Option<Value> {
    if ticks % TICKS_PER_UNIT == 0 then Some(Int(ticks / TICKS_PER_UNIT))
    else if Overflows(ticks as real / 10.0) then None
    else Some(Float(Fl(ticks as real / 10.0)))
  }

  // ----- which ticks survive the round trip

  const TENTHS_EXACT: int := 10 * 0x2_0000_0000_0000  // 10 * 2^49
  const HALF_TENTHS: int := 10 * TWO_52
  const WHOLE_ONLY: int := 10 * TWO_53

  /** How many ticks apart the products by ten are at the magnitude of tick `t`. */
  function Spacing(t: nat): (s: int)
    ensures s > 0
  {
    if t < 2 * TENTHS_EXACT then 1
    else if t < 4 * TENTHS_EXACT then 2
    else if t < 8 * TENTHS_EXACT then 4
    else 8
  }

  /** The ticks with a number of their own: whole ones, every tenth below 2^49, and from there to
      2^53 the ticks on the product's spacing that are even on it, or below 2^53 and not the odd one
      of two that tie for the same double. */
  predicate HasOwnNumber(t: int) {
    var a := if t < 0 then -t else t;
    || t % 10 == 0
    || a < TENTHS_EXACT
    || (&& a < WHOLE_ONLY
        && a % Spacing(a) == 0
        && var u := a / Spacing(a);
           u % 2 == 0 || (u < TWO_53 && u % 5 != 2 && u % 5 != 3))
  }

  /** Divide by ten, multiply by ten, each rounded. */
  ghost function ThereAndBack(n: nat, depth: nat): real
    requires depth <= FINEST
  {
    Magnitude(10.0 * Magnitude(n as real / 10.0, depth), depth)
  }

  lemma DoublingThereAndBack(n: nat, depth: nat)
    requires depth < FINEST
    ensures ThereAndBack(2 * n, depth + 1) == 2.0 * ThereAndBack(n, depth)
  {
    var q := n as real / 10.0;
    assert (2 * n) as real / 10.0 == 2.0 * q;
    DoublingCommutes(q, depth);
    DoublingCommutes(10.0 * Magnitude(q, depth), depth);
    assert 10.0 * (2.0 * Magnitude(q, depth)) == 2.0 * (10.0 * Magnitude(q, depth));
  }

  /** In the binade where a tenth's last place is the units place: the numerator of the quotient. */
  lemma Quotient(n: nat, depth: nat) returns (m: nat)
    requires HALF_TENTHS <= n < WHOLE_ONLY && depth <= FINEST
    ensures Magnitude(n as real / 10.0, depth) == m as real
    ensures TWO_52 <= m <= TWO_53
    ensures -5 <= 10 * m - n <= 5
    ensures 10 * m - n == 5 || 10 * m - n == -5 ==> m % 2 == 0
  {
    var q := n as real / 10.0;
    m := RoundHalfEven(q);
    assert q - 0.5 <= m as real <= q + 0.5;
  }

  lemma Octave(y: real, depth: nat)
    requires y >= TWO_52 as real && depth <= FINEST
    ensures Magnitude(2.0 * y, depth) == 2.0 * Magnitude(y, depth)
  {
    assert 2.0 * y / 2.0 == y;
  }

  /** `8 * h` is `10 * m` rounded to eighths, or to sixteenths, ties to even. */
  ghost predicate IsProduct(m: nat, h: int) {
    if 10 * m < 8 * TWO_53 then
      && -4 <= 8 * h - 10 * m <= 4
      && (8 * h - 10 * m == 4 || 8 * h - 10 * m == -4 ==> h % 2 == 0)
    else
      && -8 <= 8 * h - 10 * m <= 8
      && h % 2 == 0
  }

  lemma ThreeOctaves(y: real, depth: nat)
    requires y >= TWO_52 as real && depth <= FINEST
    ensures Magnitude(8.0 * y, depth) == 8.0 * Magnitude(y, depth)
  {
    Octave(y, depth);
    Octave(2.0 * y, depth);
    Octave(4.0 * y, depth);
    assert 2.0 * (4.0 * y) == 8.0 * y && 2.0 * (2.0 * y) == 4.0 * y;
  }

  lemma UnitBinade(y: real, depth: nat) returns (n: int)
    requires TWO_52 as real <= y < TWO_53 as real && depth <= FINEST
    ensures Magnitude(y, depth) == n as real
    ensures -0.5 <= n as real - y <= 0.5
    ensures n as real - y == 0.5 || n as real - y == -0.5 ==> n % 2 == 0
  {
    n := RoundHalfEven(y);
  }

  lemma ProductBelow(m: nat, y: real, depth: nat) returns (h: int)
    requires TWO_52 <= m && 10 * m < 8 * TWO_53 && depth <= FINEST && y == 1.25 * m as real
    ensures Magnitude(y, depth) == h as real && IsProduct(m, h)
  {
    h := UnitBinade(y, depth);
    assert (8 * h - 10 * m) as real == 8.0 * (h as real - y);
  }

  lemma ProductAbove(m: nat, y: real, depth: nat) returns (h: int)
    requires 8 * TWO_53 <= 10 * m && m <= TWO_53 && depth <= FINEST && y == 1.25 * m as real
    ensures Magnitude(y, depth) == h as real && IsProduct(m, h)
  {
    var k := UnitBinade(y / 2.0, depth);
    h := 2 * k;
    assert Magnitude(y, depth) == 2.0 * Magnitude(y / 2.0, depth);
    AboveIsProduct(m, k, y / 2.0);
  }

  lemma AboveIsProduct(m: nat, k: int, half: real)
    requires 8 * TWO_53 <= 10 * m && half == 0.625 * m as real && -0.5 <= k as real - half <= 0.5
    ensures IsProduct(m, 2 * k)
  {
    assert (16 * k - 10 * m) as real == 16.0 * (k as real - half);
  }

  /** The product of that quotient by ten. */
  lemma Product(m: nat, depth: nat) returns (h: int)
    requires TWO_52 <= m <= TWO_53 && depth <= FINEST
    ensures Magnitude(10.0 * m as real, depth) == (8 * h) as real
    ensures IsProduct(m, h)
  {
    var y := 1.25 * m as real;
    assert 8.0 * y == 10.0 * m as real;
    ThreeOctaves(y, depth);
    if 10 * m < 8 * TWO_53 {
      h := ProductBelow(m, y, depth);
    } else {
      h := ProductAbove(m, y, depth);
    }
  }

  /** Whether the round trip is exact in that binade. */
  predicate ExactInBinade(n: nat) {
    if n < 8 * TWO_53 then n % 16 == 0 || (n % 8 == 0 && (n / 8) % 5 != 2 && (n / 8) % 5 != 3)
    else n % 16 == 0
  }

  lemma SixteenthsExact(k: nat, m: nat, h: int)
    requires -5 <= 10 * m - 16 * k <= 5 && IsProduct(m, h)
    ensures h == 2 * k
  {
    var e, d := 5 * m - 8 * k, h - 2 * k;
    assert 10 * m - 16 * k == 2 * e && -2 <= e <= 2;
    assert 8 * d == (8 * h - 10 * m) + 2 * e;
    if h % 2 == 0 {
      assert d == 2 * (h / 2 - k) && -2 < d < 2;
    } else {
      assert -4 < 8 * h - 10 * m < 4;
    }
  }

  /** For `n == 8 * u` with `u == 5 * a + r` odd. */
  lemma EighthsNearlyExact(u: nat, a: nat, r: nat, m: nat, h: int)
    requires u == 5 * a + r && r < 5 && u % 2 == 1
    requires -5 <= 10 * m - 8 * u <= 5 && IsProduct(m, h)
    ensures h == u <==> u < TWO_53 && r != 2 && r != 3
    ensures h != u ==> h % 2 == 0
  {
    var d := m - 4 * a;
    assert -5 <= 10 * d - 8 * r <= 5;
    assert d == if r <= 2 then r else r - 1;
  }

  /** Of integers alone: `m` is `n` over ten rounded, and `8 * h` ten times that, rounded. */
  lemma ExactWhenSo(n: nat, m: nat, h: int)
    requires HALF_TENTHS <= n < WHOLE_ONLY && -5 <= 10 * m - n <= 5 && IsProduct(m, h)
    ensures 8 * h == n <==> ExactInBinade(n)
    ensures n % 8 == 0 && 8 * h != n ==> h % 2 == 0
  {
    var u := n / 8;
    if n % 16 == 0 {
      SixteenthsExact(n / 16, m, h);
    } else if n % 8 == 0 {
      OddEighths(n, u);
      EighthsNearlyExact(u, u / 5, u % 5, m, h);
    } else {
      assert 8 * h != n;
    }
  }

  lemma OddEighths(n: nat, u: nat)
    requires n % 8 == 0 && n % 16 != 0 && u == n / 8
    ensures n == 8 * u && u % 2 == 1 && u == 5 * (u / 5) + u % 5
    ensures n < WHOLE_ONLY ==> (ExactInBinade(n) <==> u < TWO_53 && u % 5 != 2 && u % 5 != 3)
  {
  }

  lemma RoundTripInBinade(n: nat, depth: nat) returns (h: int)
    requires HALF_TENTHS <= n < WHOLE_ONLY && depth <= FINEST
    ensures ThereAndBack(n, depth) == (8 * h) as real
    ensures 8 * h == n <==> ExactInBinade(n)
    ensures n % 8 == 0 && 8 * h != n ==> h % 2 == 0
  {
    var m := Quotient(n, depth);
    h := Product(m, depth);
    ExactWhenSo(n, m, h);
  }

  // ----- every magnitude at once

  /** `t` doubled until it is in the binade above. */
  ghost function Normal(t: nat): (n: nat)
    requires 0 < t < WHOLE_ONLY
    ensures HALF_TENTHS <= n < WHOLE_ONLY
    decreases WHOLE_ONLY - t
  {
    if t < HALF_TENTHS then Normal(2 * t) else t
  }

  lemma {:induction false} Pow2Grows(a: nat, b: nat)
    requires a <= b
    ensures Pow2(a) <= Pow2(b)
  {
    if a < b { Pow2Grows(a, b - 1); }
  }

  lemma {:induction false} Pow2Add(a: nat, b: nat)
    ensures Pow2(a + b) == Pow2(a) * Pow2(b)
  {
    if a > 0 { Pow2Add(a - 1, b); }
  }

  lemma Pow2Of57()
    ensures Pow2(57) == 16 * TWO_53
  {
    assert Pow2(1) == 2 && Pow2(2) == 4;
    Pow2Add(2, 2);
    Pow2Add(4, 4);
    Pow2Add(8, 8);
    Pow2Add(16, 16);
    Pow2Add(32, 16);
    Pow2Add(48, 8);
  }

  lemma {:induction false} RoundTripAt(t: nat, depth: nat, k: nat)
    requires Pow2(k) <= t < WHOLE_ONLY && depth <= k + 1
    ensures depth <= FINEST
    ensures ThereAndBack(t, depth) == t as real <==> ExactInBinade(Normal(t))
    decreases WHOLE_ONLY - t
  {
    Pow2Of57();
    if k >= 57 { Pow2Grows(57, k); }
    assert k < 57;
    if t < HALF_TENTHS {
      RoundTripAt(2 * t, depth + 1, k + 1);
      DoublingThereAndBack(t, depth);
    } else {
      var h := RoundTripInBinade(t, depth);
    }
  }

  /** From 2^49 to 2^50 the result is `t` or an even neighbour of it. */
  lemma RoundTripOrEven(t: nat, depth: nat) returns (h: int)
    requires TENTHS_EXACT <= t < 2 * TENTHS_EXACT && depth <= 1
    ensures ThereAndBack(t, depth) == h as real
    ensures h == t || h % 2 == 0
  {
    EightTimes(t, depth);
    h := RoundTripInBinade(8 * t, depth + 3);
    EighthOf(ThereAndBack(t, depth), h);
    EvenEighth(t, h);
  }

  lemma EighthOf(x: real, h: int)
    requires 8.0 * x == (8 * h) as real
    ensures x == h as real
  {
    assert (8 * h) as real == 8.0 * h as real;
  }

  lemma EvenEighth(t: nat, h: int)
    requires (8 * t) % 8 == 0 && 8 * h != 8 * t ==> h % 2 == 0
    ensures h == t || h % 2 == 0
  {
  }

  lemma EightTimes(t: nat, depth: nat)
    requires depth <= 1
    ensures ThereAndBack(8 * t, depth + 3) == 8.0 * ThereAndBack(t, depth)
  {
    DoublingThereAndBack(t, depth);
    DoublingThereAndBack(2 * t, depth + 1);
    DoublingThereAndBack(4 * t, depth + 2);
    assert 2 * (2 * t) == 4 * t && 2 * (4 * t) == 8 * t;
  }

  lemma {:induction false} NormalMultiple(t: nat, k: nat)
    requires 0 < 16 * t < WHOLE_ONLY && k == Normal(16 * t)
    ensures k % 16 == 0
    decreases WHOLE_ONLY - t
  {
    if 16 * t < HALF_TENTHS { NormalMultiple(2 * t, k); }
  }

  lemma NormalAbove(t: nat)
    requires TENTHS_EXACT <= t < WHOLE_ONLY
    ensures Normal(t) * Spacing(t) == 8 * t
  {
    if t < 2 * TENTHS_EXACT {
      assert Normal(t) == Normal(2 * t) == Normal(4 * t) == Normal(8 * t) == 8 * t;
    } else if t < 4 * TENTHS_EXACT {
      assert Normal(t) == Normal(2 * t) == Normal(4 * t) == 4 * t;
    } else if t < 8 * TENTHS_EXACT {
      assert Normal(t) == Normal(2 * t) == 2 * t;
    }
  }

  lemma WholeNormal(t: nat)
    requires 0 < t < WHOLE_ONLY
    ensures t < TENTHS_EXACT ==> ExactInBinade(Normal(t))
  {
    if t < TENTHS_EXACT {
      assert Normal(t) == Normal(2 * t) == Normal(4 * t) == Normal(8 * t) == Normal(16 * t);
      NormalMultiple(t, Normal(t));
    }
  }

  lemma MultipleOfEight(t: nat, n: nat, s: nat)
    requires s == 1 || s == 2 || s == 4 || s == 8
    requires n * s == 8 * t
    ensures n % 8 == 0 <==> t % s == 0
    ensures n % 8 == 0 ==> n / 8 == t / s
  {
    if s == 1 {
    } else if s == 2 {
    } else if s == 4 {
    } else {
    }
  }

  lemma ExactOfEighths(u: nat, n: nat)
    requires n == 8 * u
    ensures ExactInBinade(n) <==> u % 2 == 0 || (u < TWO_53 && u % 5 != 2 && u % 5 != 3)
  {
    assert n % 16 == 0 <==> u % 2 == 0;
  }

  /** In closed form. */
  lemma ExactWhenOwn(t: nat)
    requires TENTHS_EXACT <= t < WHOLE_ONLY
    ensures ExactInBinade(Normal(t)) <==>
            t % Spacing(t) == 0 && var u := t / Spacing(t); u % 2 == 0 || (u < TWO_53 && u % 5 != 2 && u % 5 != 3)
  {
    NormalAbove(t);
    var n, s := Normal(t), Spacing(t);
    MultipleOfEight(t, n, s);
    if n % 8 == 0 {
      ExactOfEighths(n / 8, n);
    } else {
      assert n % 16 != 0;
    }
  }

  // ----- the theorems

  lemma RoundWhole(n: int)
    ensures RoundHalfEven(n as real) == n
  {
  }

  /** The product of a tenth's quotient by ten is a whole number of ticks: the tick itself exactly
      when it has its own number. */
  lemma TickAndBack(t: nat, depth: nat) returns (h: int)
    requires 0 < t < WHOLE_ONLY && depth <= 1
    ensures ThereAndBack(t, depth) == h as real
    ensures t < TENTHS_EXACT ==> h == t
    ensures t % 10 != 0 ==> (h == t <==> HasOwnNumber(t))
  {
    assert Pow2(0) == 1;
    RoundTripAt(t, depth, 0);
    WholeNormal(t);
    if t < TENTHS_EXACT {
      h := t;
    } else {
      ExactWhenOwn(t);
      h := LargeIsWhole(10.0 * Magnitude(t as real / 10.0, depth), depth);
    }
  }

  lemma TopQuotient(t: nat)
    requires 0 < t < WHOLE_ONLY && Magnitude(t as real / 10.0, 0) >= TWO_53 as real
    ensures ThereAndBack(t, 0) != t as real
  {
    UpToTop(t as real / 10.0);
    var y := 1.25 * TWO_52 as real;
    var k := UnitBinade(y, 0);
    assert (5 * (TWO_52 / 4)) as real == y;
    assert k == 5 * (TWO_52 / 4);
    Octave(y, 0);
    ThreeOctaves(2.0 * y, 0);
    assert 8.0 * (2.0 * y) == 10.0 * TWO_53 as real == WHOLE_ONLY as real;
  }

  lemma UpToTop(x: real)
    requires 0.0 <= x < TWO_53 as real
    ensures Magnitude(x, 0) <= TWO_53 as real
  {
    if x >= TWO_52 as real {
      var n := UnitBinade(x, 0);
      assert n <= TWO_53;
    } else {
      assert Magnitude(x, 0) <= 2.0 * x + 1.0;
      assert Magnitude(x, 0) == Magnitude(2.0 * x, 1) / 2.0;
    }
  }

  lemma NonNegativeRoundTrip(t: nat) returns (h: int)
    requires t % 10 != 0
    ensures Magnitude(t as real / 10.0, 0) >= EXACT_INTEGER_FLOOR ==> !HasOwnNumber(t)
    ensures Magnitude(t as real / 10.0, 0) < EXACT_INTEGER_FLOOR ==>
              ThereAndBack(t, 0) == h as real && (h == t <==> HasOwnNumber(t))
  {
    if t < WHOLE_ONLY {
      h := TickAndBack(t, 0);
      if Magnitude(t as real / 10.0, 0) >= EXACT_INTEGER_FLOOR { TopQuotient(t); }
    } else {
      h := LargeIsWhole(t as real / 10.0, 0);
    }
  }

  lemma QuotientSign(t: int, a: nat)
    requires t % 10 != 0 && a == (if t < 0 then -t else t)
    ensures var v := Magnitude(a as real / 10.0, 0);
            FromTicks(t).Some? ==> FromTicks(t).value == Float(if t < 0 then -v else v)
  {
    var q := a as real / 10.0;
    assert t as real / 10.0 == if t < 0 then -q else q;
  }

  lemma TicksOfFloat(v: real, h: int, negative: bool)
    requires v >= 0.0
    requires v < EXACT_INTEGER_FLOOR ==> Magnitude(10.0 * v, 0) == h as real
    ensures var ticks := Ticks(Float(if negative then -v else v));
            && ticks.Some?
            && (if v >= EXACT_INTEGER_FLOOR then ticks.value % 10 == 0
                else ticks.value == if negative then -h else h)
  {
    if v < EXACT_INTEGER_FLOOR { SignedScale(v, h, negative); }
  }

  lemma OwnWithoutSign(t: int, a: nat)
    requires t % 10 != 0 && a == (if t < 0 then -t else t)
    ensures a % 10 != 0 && (HasOwnNumber(t) <==> HasOwnNumber(a))
  {
  }

  lemma SignedRoundTrip(t: int, a: nat, v: real, h: int)
    requires t % 10 != 0 && a == (if t < 0 then -t else t) && v >= 0.0
    requires HasOwnNumber(t) <==> HasOwnNumber(a)
    requires v >= EXACT_INTEGER_FLOOR ==> !HasOwnNumber(a)
    requires v < EXACT_INTEGER_FLOOR ==> Magnitude(10.0 * v, 0) == h as real && (h == a <==> HasOwnNumber(a))
    ensures Ticks(Float(if t < 0 then -v else v)) == Some(t) <==> HasOwnNumber(t)
  {
    TicksOfFloat(v, h, t < 0);
  }

  /** A tick that divides to a number at all comes back as itself exactly when it is one of those
      with its own number. */
  lemma RoundTrip(t: int)
    requires FromTicks(t).Some?
    ensures Ticks(FromTicks(t).value) == Some(t) <==> HasOwnNumber(t)
  {
    if t % 10 != 0 {
      var a := if t < 0 then -t else t;
      OwnWithoutSign(t, a);
      var h := NonNegativeRoundTrip(a);
      QuotientSign(t, a);
      SignedRoundTrip(t, a, Magnitude(a as real / 10.0, 0), h);
    }
  }

  lemma SignedScale(v: real, h: int, negative: bool)
    requires v >= 0.0 && Magnitude(10.0 * v, 0) == h as real
    ensures RoundHalfEven(Scaled(if negative then -v else v)) == if negative then -h else h
  {
    if negative {
      assert -(-v * 10.0) == 10.0 * v;
      if v == 0.0 { SmallWhole(0, 0); }
      assert Scaled(-v) == (-h) as real;
      RoundWhole(-h);
    } else {
      RoundWhole(h);
    }
  }

  /** A product that is a whole number passes: the rounding error the tolerance sees is zero. */
  lemma WholeAccepted(number: real, n: int)
    requires 0.0 <= number < EXACT_INTEGER_FLOOR && Scaled(number) == n as real
    ensures InContract(number)
  {
    RoundWhole(n);
    RoundsToNearest(n as real, n as real);
    RoundsToNearest(number * 10.0, 0.0);
    SmallWhole(0, 0);
  }

  /** A product half way between two whole numbers does not, whatever the tolerance forgives. */
  lemma HalfRejected(number: real, m: nat)
    requires 0.0 <= number < EXACT_INTEGER_FLOOR && m % 2 == 1 && m < TWO_53
    requires Scaled(number) == m as real / 2.0
    ensures !InContract(number)
  {
    var n := RoundHalfEven(m as real / 2.0);
    HalfRounds(m);
    var r := WholeStaysWhole(n, 0);
    SmallWhole(1, 1);
    assert Magnitude(0.5, 0) == 0.5 by { assert 2.0 * 0.5 == 1.0; }
    assert Abs(m as real / 2.0 - n as real) == 0.5;
  }

  lemma HalfRounds(m: nat)
    requires m % 2 == 1
    ensures 0 <= RoundHalfEven(m as real / 2.0) <= m
    ensures Abs(m as real / 2.0 - RoundHalfEven(m as real / 2.0) as real) == 0.5
  {
    var k := m / 2;
    assert m as real / 2.0 == k as real + 0.5;
    assert (k as real + 0.5).Floor == k;
  }

  /** From 2^52 / 10 up the product is whole, so there is no fraction left to reject. */
  lemma LargeAccepted(number: real)
    requires 10.0 * number >= TWO_52 as real
    ensures InContract(number)
  {
    if number < EXACT_INTEGER_FLOOR {
      var n := LargeIsWhole(10.0 * number, 0);
      WholeAccepted(number, n);
    }
  }

  /** Every tick from zero up gives a number in contract, but for whole numbers no double can hold. */
  lemma TicksAreInContract(t: nat)
    requires FromTicks(t).Some?
    ensures IsValid(FromTicks(t).value) <==> (t % 10 == 0 ==> !Overflows((t / 10) as real))
  {
    if t % 10 == 0 {
      var n := t / 10;
      var r := WholeStaysWhole(n, 0);
      if r < TWO_53 {
        var s := WholeStaysWhole(10 * n, 0);
        assert n as real * 10.0 == (10 * n) as real;
        WholeAccepted(r as real, s);
      }
    } else {
      var v := Magnitude(t as real / 10.0, 0);
      QuotientSign(t, t);
      if t < TENTHS_EXACT {
        if v < EXACT_INTEGER_FLOOR {
          var h := TickAndBack(t, 0);
          WholeAccepted(v, h);
        }
      } else {
        LargeAccepted(v);
      }
    }
  }

  /** The number nearest half a tick past a tick, `m / 20` with `m` odd, is rejected exactly when
      its product by ten keeps that half: always below 2^48. */
  lemma HalfTicks(m: nat)
    requires m % 2 == 1
    ensures InContract(Fl(m as real / 20.0)) <==>
            !(m < TENTHS_EXACT || (m < TWO_53 && m % 5 != 2 && m % 5 != 3))
  {
    var x := Magnitude(m as real / 20.0, 0);
    if m >= 2 * TENTHS_EXACT {
      LargeAccepted(x);
    } else {
      var h := HalfTickProduct(m, x);
      if h % 2 == 0 {
        assert Scaled(x) == (h / 2) as real;
        WholeAccepted(x, h / 2);
      } else {
        HalfRejected(x, m);
      }
    }
  }

  lemma OddTickOwn(m: nat)
    requires m % 2 == 1 && TENTHS_EXACT <= m < 2 * TENTHS_EXACT
    ensures m % 10 != 0
    ensures HasOwnNumber(m) <==> m < TWO_53 && m % 5 != 2 && m % 5 != 3
  {
    assert m % 10 != 0 by { assert m == 10 * (m / 10) + m % 10; }
    assert Spacing(m) == 1 && m / 1 == m && m % 1 == 0;
    if m % 5 == 0 { assert m % 10 == 5; }
  }

  lemma HalfTickQuotient(m: nat, x: real)
    requires x == Magnitude(m as real / 20.0, 0)
    ensures ThereAndBack(m, 1) == 2.0 * Magnitude(10.0 * x, 0)
  {
    assert m as real / 10.0 == 2.0 * (m as real / 20.0);
    DoublingCommutes(m as real / 20.0, 0);
    DoublingCommutes(10.0 * x, 0);
    assert 10.0 * (2.0 * x) == 2.0 * (10.0 * x);
  }

  lemma HalfTickProduct(m: nat, x: real) returns (h: int)
    requires m % 2 == 1 && m < 2 * TENTHS_EXACT && x == Magnitude(m as real / 20.0, 0)
    ensures 0.0 <= x < EXACT_INTEGER_FLOOR && Scaled(x) == h as real / 2.0
    ensures if m < TENTHS_EXACT || (m < TWO_53 && m % 5 != 2 && m % 5 != 3) then h == m else h % 2 == 0
  {
    HalfTickQuotient(m, x);
    h := TickAndBack(m, 1);
    if m >= TENTHS_EXACT {
      OddTickOwn(m);
      var h' := RoundTripOrEven(m, 1);
    }
  }

  // ----- numbers in contract that are not tenths

  lemma {:induction false} LiftIsProduct(y: real, j: nat)
    ensures Lift(y, j) == Pow2(j) as real * y
  {
    if j > 0 {
      LiftIsProduct(y, j - 1);
      assert Pow2(j) as real * y == (2 * Pow2(j - 1)) as real * y == 2.0 * (Pow2(j - 1) as real * y);
    }
  }

  /** Whatever the tolerance forgives next to zero is in contract, on the tick of zero. */
  lemma DustOnZero(x: real)
    requires 0.0 <= x < EXACT_INTEGER_FLOOR && Scaled(x) <= TENTH_TOLERANCE
    ensures InContract(x) && Ticks(Float(x)) == Some(0)
  {
    var scaled := Scaled(x);
    assert 0.0 <= scaled < 0.5;
    SmallWhole(0, 0);
    RoundsToNearest(10.0 * x, 0.0);
    RoundsToNearest(scaled, scaled);
  }

  const DUST: real := 1.0 / 0x100_0000_0000 as real  // 2^-40

  /** So two numbers in contract can share a tick far below 2^49: each tenth has a tick, and each tick one
      tenth, but numbers in contract are more than the tenths. */
  lemma TicksAreShared()
    ensures IsDouble(DUST, FINEST) && DUST > 0.0
    ensures IsValid(Float(DUST)) && IsValid(Float(0.0)) && Ticks(Float(DUST)) == Ticks(Float(0.0))
  {
    DustIsDouble(1);
    DustIsDouble(10);
    ScaledExactly(DUST);
    DustOnZero(DUST);
    ScaledExactly(0.0);
    DustOnZero(0.0);
  }

  lemma ScaledExactly(x: real)
    requires IsDouble(10.0 * x, FINEST) || x == 0.0
    ensures Scaled(x) == 10.0 * x
  {
    if x == 0.0 { SmallWhole(0, 0); } else { RoundsToNearest(10.0 * x, 10.0 * x); }
  }

  lemma Pow2Of40()
    ensures Pow2(40) == 0x100_0000_0000
  {
    assert Pow2(5) == 32;
    Pow2Add(5, 5);
    Pow2Add(10, 10);
    Pow2Add(20, 20);
  }

  lemma DustIsDouble(m: nat)
    requires m <= 10
    ensures IsDouble(m as real * DUST, FINEST)
  {
    Pow2Of40();
    LiftIsProduct(m as real * DUST, 40);
    assert Pow2(40) as real * (m as real * DUST) == m as real;
    assert IsDoubleAt(m as real * DUST, m, 40, FINEST);
  }

  // ----- what the contract admits, of any number

  /** A double's distance to the whole number nearest to it is a double. */
  lemma {:induction false} FractionIsDouble(s: real, n: int)
    requires 0.0 <= s && IsDouble(s, FINEST) && n == RoundHalfEven(s)
    ensures IsDouble(s - n as real, FINEST)
  {
    var m: int, j: nat :| IsDoubleAt(s, m, j, FINEST);
    var d := s - n as real;
    if s == Lift(m as real, j) {
      var w := IntegerMultiple(m, j);
      RoundWhole(w);
      assert IsDoubleAt(d, 0, 0, FINEST);
    } else {
      var w := IntegerMultiple(n, j);
      LiftOfDifference(s, n as real, j);
      assert Lift(d, j) == (m - w) as real;
      FractionIsSmall(s);
      SmallerDouble(s, d, m, m - w, j);
      assert IsDoubleAt(d, m - w, j, FINEST);
    }
  }

  lemma SmallerDouble(s: real, d: real, m: int, e: int, j: nat)
    requires -s <= d <= s && Lift(s, j) == m as real && Lift(d, j) == e as real
    ensures -m <= e <= m
  {
    LiftOfDifference(s, d, j);
    LiftOfSum(s, d, j);
    LiftGrows(s - d, j);
    LiftGrows(s + d, j);
  }

  lemma FractionIsSmall(s: real)
    requires 0.0 <= s
    ensures -s <= s - RoundHalfEven(s) as real <= s
  {
  }

  lemma {:induction false} LiftOfDifference(a: real, b: real, j: nat)
    ensures Lift(a - b, j) == Lift(a, j) - Lift(b, j)
  {
    if j > 0 { LiftOfDifference(a, b, j - 1); }
  }

  lemma {:induction false} LiftOfSum(a: real, b: real, j: nat)
    ensures Lift(a + b, j) == Lift(a, j) + Lift(b, j)
  {
    if j > 0 { LiftOfSum(a, b, j - 1); }
  }

  /** The product by ten is within the tolerance of a whole number. */
  ghost predicate NearTick(product: real) {
    exists t: int :: WithinTolerance(product, t)
  }

  ghost predicate WithinTolerance(product: real, t: int) {
    -TENTH_TOLERANCE <= product - t as real <= TENTH_TOLERANCE
  }

  /** The test of the rounded difference is one of the difference itself, to the nearest whole number. */
  lemma ToleranceIsExact(s: real)
    requires 0.0 <= s < TWO_53 as real && IsDouble(s, FINEST)
    ensures Abs(Fl(s - Fl(RoundHalfEven(s) as real))) <= TENTH_TOLERANCE <==> NearTick(s)
  {
    var n := RoundHalfEven(s);
    assert 0 <= n <= TWO_53;
    var r := WholeStaysWhole(n, 0);
    FractionIsDouble(s, n);
    RoundsToNearest(s - n as real, s - n as real);
    if Abs(s - n as real) <= TENTH_TOLERANCE { assert WithinTolerance(s, n); }
    if t: int :| WithinTolerance(s, t) { NearestInteger(s, t); }
  }

  lemma WholeIsNear(n: int)
    ensures NearTick(n as real)
  {
    assert WithinTolerance(n as real, n);
  }

  /** A float is in contract exactly when it is not negative and its product by ten, rounded, is within the
      tolerance of a whole number. */
  lemma ValidFloatIff(x: real)
    ensures IsValid(Float(x)) <==> x >= 0.0 && NearTick(Fl(10.0 * x))
  {
    assert x * 10.0 == 10.0 * x;
    if x >= 0.0 {
      var s := Fl(10.0 * x);
      RoundsToNearest(10.0 * x, 0.0);
      SmallWhole(0, 0);
      if 10.0 * x >= TWO_52 as real {
        LargeAccepted(x);
        var n := LargeIsWhole(10.0 * x, 0);
        WholeIsNear(n);
      } else {
        BelowTop(10.0 * x);
        ToleranceIsExact(s);
      }
    }
  }

  lemma BelowTop(x: real)
    requires 0.0 <= x < TWO_52 as real
    ensures 0.0 <= Fl(x) < TWO_53 as real
  {
    UpToTop(x);
    RoundsToNearest(x, TWO_52 as real);
    assert TWO_52 as real == Lift(TWO_52 as real, 0);
    assert IsDoubleAt(TWO_52 as real, TWO_52, 0, FINEST);
  }

  /** An integer is in contract exactly when it is not negative and a double can hold it. */
  lemma ValidIntIff(n: int)
    ensures IsValid(Int(n)) <==> n >= 0 && !Overflows(n as real)
  {
    if n >= 0 {
      WholeTicks(n, 10 * n);
      TicksAreInContract(10 * n);
    } else {
      NegativeDouble(n);
    }
  }

  lemma WholeTicks(n: int, t: int)
    requires t == 10 * n
    ensures t % 10 == 0 && t / 10 == n && FromTicks(t) == Some(Int(n))
  {
  }

  lemma NegativeDouble(n: int)
    requires n < 0
    ensures Fl(n as real) < 0.0
  {
    var r := WholeStaysWhole(-n, 0);
    assert -(n as real) == (-n) as real;
  }

  /** So in contract are the integers from zero up that a double can hold, the floats from zero up whose product
      by ten is near a whole number, and nothing else. */
  lemma ValidIff(v: Value)
    ensures IsValid(v) <==>
              || (v.Int? && v.n >= 0 && !Overflows(v.n as real))
              || (v.Float? && v.x >= 0.0 && NearTick(Fl(10.0 * v.x)))
  {
    match v
    case Int(n) => ValidIntIff(n);
    case Float(x) => ValidFloatIff(x);
    case _ =>
  }

  /** An integer and a finite float have a tick, and nothing else has.  It is ten times the number: exactly for an
      integer, and for a double of 2^53 or more in size, which is whole; below that it is the whole number nearest
      the rounded product, a tie going to the even one. */
  lemma TickIs(v: Value)
    requires v.Float? ==> Fl(v.x) == v.x
    ensures Ticks(v).Some? <==> v.Int? || v.Float?
    ensures v.Int? ==> Ticks(v).value == 10 * v.n
    ensures v.Float? && Abs(v.x) >= TWO_53 as real ==> Ticks(v).value as real == 10.0 * v.x
    ensures v.Float? && Abs(v.x) < TWO_53 as real ==>
              var d := Abs(Ticks(v).value as real - Fl(10.0 * v.x)); d <= 0.5 && (d == 0.5 ==> Ticks(v).value % 2 == 0)
  {
    if v.Float? {
      assert v.x * 10.0 == 10.0 * v.x;
      if Abs(v.x) >= TWO_53 as real {
        var n := LargeIsWhole(Abs(v.x), 0);
        assert Abs(v.x) == n as real;
        assert (n as real).Floor == n;
        assert (10 * n) as real == 10.0 * n as real;
      }
    }
  }

  lemma RangeOfDoubles(x: real)
    ensures -(Pow2(1023) as real - 1.0) <= x <= Pow2(1023) as real - 1.0 ==> !Overflows(x)
  {
    var a := if x < 0.0 then -x else x;
    assert Pow2(1024) == 2 * Pow2(1023);
    assert Magnitude(a, 0) <= 2.0 * a + 1.0;
  }

  /** A tick divides to an integer when it is a multiple of ten, and else to the double nearest a tenth of it, if
      that is in range, as it is up to 2^1023. */
  lemma FromTicksIs(t: int)
    ensures FromTicks(t).Some? <==> t % 10 == 0 || Abs(Fl(t as real / 10.0)) < Pow2(1024) as real
    ensures -(Pow2(1023) as real - 1.0) <= t as real / 10.0 <= Pow2(1023) as real - 1.0 ==> FromTicks(t).Some?
    ensures t % 10 == 0 ==> FromTicks(t) == Some(Int(t / 10))
    ensures t % 10 != 0 && FromTicks(t).Some? ==>
              FromTicks(t).value.Float? && forall y :: IsDouble(y, FINEST) ==>
                Abs(FromTicks(t).value.x - t as real / 10.0) <= Abs(y - t as real / 10.0)
  {
    var q := t as real / 10.0;
    RangeOfDoubles(q);
    forall y | IsDouble(y, FINEST) ensures Abs(Fl(q) - q) <= Abs(y - q) {
      RoundsToNearest(q, y);
    }
  }
}
