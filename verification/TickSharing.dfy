/** Which ticks are the tick of more than one number in contract
    (`channel_number_ticks` and `is_valid_channel_number` in backend/channel_number.py). */
module TickSharing {
  import opened Common
  import opened Binary64
  import opened ChannelNumber
  import opened Rounding

  /** `x` is a double, in contract, and its tick is `t`. */
  ghost predicate OnTick(x: real, t: int) {
    x >= 0.0 && Magnitude(x, 0) == x && IsValid(Float(x)) && Ticks(Float(x)) == Some(t)
  }

  /** Up to here the tolerance lets in a neighbour of every tick's number. */
  const TOLERATED: int := 0x80_0000  // 2^23

  /** Of a tick doubled until it is in the binade of `WHOLE_ONLY`: two multiples of ten round to it. */
  predicate TwoRoundTo(n: int) {
    n > TWO_56 && (n % 10 == 4 || n % 10 == 6 || ((n % 10 == 2 || n % 10 == 8) && (n / 16) % 2 == 0))
  }

  ghost predicate IsShared(t: nat)
    requires t < WHOLE_ONLY
  {
    t <= TOLERATED || TwoRoundTo(Normal(t))
  }

  // ----- doubling

  lemma {:induction false} LiftCommutes(x: real, k: nat)
    requires 0.0 <= x && k <= FINEST
    ensures Lift(x, k) >= 0.0 && Magnitude(Lift(x, k), k) == Lift(Magnitude(x, 0), k)
  {
    if k > 0 {
      LiftCommutes(x, k - 1);
      DoublingCommutes(Lift(x, k - 1), k - 1);
    }
  }

  lemma {:induction false} LiftInjective(x: real, y: real, k: nat)
    requires Lift(x, k) == Lift(y, k)
    ensures x == y
  {
    if k > 0 { LiftInjective(x, y, k - 1); }
  }

  /** How often a tick is doubled. */
  ghost function Doublings(t: nat): (k: nat)
    requires 0 < t < WHOLE_ONLY
    decreases WHOLE_ONLY - t
  {
    if t < HALF_TENTHS then 1 + Doublings(2 * t) else 0
  }

  lemma {:induction false} NormalIsLift(t: nat)
    requires 0 < t < WHOLE_ONLY
    ensures Normal(t) == t * Pow2(Doublings(t))
    ensures Normal(t) as real == Lift(t as real, Doublings(t))
    decreases WHOLE_ONLY - t
  {
    if t < HALF_TENTHS {
      var k := Doublings(2 * t);
      NormalIsLift(2 * t);
      LiftOfDouble(t as real, k);
      TwiceTimes(t, Pow2(k));
    }
  }

  lemma TwiceTimes(t: nat, p: nat)
    ensures (2 * t) * p == t * (2 * p) && (2 * t) as real == 2.0 * t as real
  {
  }

  lemma FewDoublings(t: nat)
    requires 0 < t < WHOLE_ONLY
    ensures Doublings(t) <= 56 && Pow2(Doublings(t)) <= Normal(t)
  {
    NormalIsLift(t);
    var k := Doublings(t);
    assert t * Pow2(k) >= Pow2(k);
    if k >= 57 {
      Pow2Of57();
      Pow2Grows(57, k);
    }
  }

  lemma NormalOfSixteen(t: nat)
    requires 0 < t < TENTHS_EXACT
    ensures Doublings(t) >= 4 && Normal(t) % 16 == 0
  {
    OneDoubling(t, 2 * t);
    OneDoubling(2 * t, 4 * t);
    OneDoubling(4 * t, 8 * t);
    OneDoubling(8 * t, 16 * t);
    NormalMultiple(t, Normal(16 * t));
  }

  lemma OneDoubling(t: nat, u: nat)
    requires 0 < t < HALF_TENTHS && u == 2 * t
    ensures u < WHOLE_ONLY && Doublings(t) == 1 + Doublings(u) && Normal(t) == Normal(u)
  {
  }

  // ----- the whole numbers whose products round to a tick

  /** What ten times a number rounds to, in the binade of a normal tick. */
  function ProductOf(m: nat): int
    requires TWO_52 <= m <= TWO_53
  {
    if 10 * m < TWO_56 then 8 * RoundHalfEven(10.0 * m as real / 8.0) else 16 * SixteenthOf(10 * m)
  }

  lemma ProductIs(m: nat, depth: nat)
    requires TWO_52 <= m <= TWO_53 && depth <= FINEST
    ensures Magnitude(10.0 * m as real, depth) == ProductOf(m) as real
  {
    DepthImmaterial(10.0 * m as real, depth, 0);
    assert 10.0 * m as real == (10 * m) as real;
    if 10 * m < TWO_56 {
      EveryEighth(10.0 * m as real);
    } else {
      EverySixteenth(10 * m);
    }
  }

  lemma LowProductNear(m: nat)
    requires TWO_52 <= m <= TWO_53 && 10 * m < TWO_56
    ensures ProductOf(m) % 8 == 0 && -4 <= ProductOf(m) - 10 * m <= 4
  {
    var p := RoundHalfEven(10.0 * m as real / 8.0);
    EighthNear(m, p);
    EightfoldMod(p, 8 * p);
  }

  lemma EightfoldMod(p: int, q: int)
    requires q == 8 * p
    ensures q % 8 == 0
  {
  }

  lemma HighProductNear(m: nat)
    requires TWO_52 <= m <= TWO_53 && 10 * m >= TWO_56
    ensures ProductOf(m) % 16 == 0 && -8 <= ProductOf(m) - 10 * m <= 8
  {
    SixteenthNear(10 * m);
    SixteenfoldMod(SixteenthOf(10 * m), 16 * SixteenthOf(10 * m));
  }

  lemma SixteenfoldMod(p: int, q: int)
    requires q == 16 * p
    ensures q % 16 == 0
  {
  }

  lemma EighthNear(m: nat, p: int)
    requires p == RoundHalfEven(10.0 * m as real / 8.0)
    ensures -4 <= 8 * p - 10 * m <= 4
  {
    RoundError(10.0 * m as real / 8.0);
    assert (8 * p - 10 * m) as real == 8.0 * (p as real - 10.0 * m as real / 8.0);
  }

  lemma SixteenthNear(m: nat)
    ensures -8 <= 16 * SixteenthOf(m) - m <= 8
  {
    assert m == 16 * (m / 16) + m % 16;
  }

  /** From 2^56 a multiple of ten rounds to the multiple of sixteen within eight, a tie to the even one. */
  lemma SixteenthWindow(m: nat, n: nat)
    requires n % 16 == 0
    ensures 16 * SixteenthOf(10 * m) == n <==>
            -8 <= 10 * m - n <= 8 && (10 * m - n == 8 || 10 * m - n == -8 ==> (n / 16) % 2 == 0)
  {
    var q, r := (10 * m) / 16, (10 * m) % 16;
    assert 10 * m == 16 * q + r && n == 16 * (n / 16);
  }

  lemma ProductsApart(m: nat, m': nat)
    requires TWO_52 <= m < m' <= TWO_53 && 10 * m < TWO_56
    ensures ProductOf(m) < ProductOf(m')
  {
    LowProductNear(m);
    if 10 * m' < TWO_56 { LowProductNear(m'); } else { HighAtLeast(m'); }
  }

  lemma HighAtLeast(m: nat)
    requires TWO_52 <= m <= TWO_53 && 10 * m >= TWO_56
    ensures ProductOf(m) >= TWO_56
  {
    assert (10 * m) / 16 >= TWO_52;
  }

  lemma TwoAtMost(m: nat, m': nat, n: nat)
    requires TWO_52 <= m < m' <= TWO_53 && n % 16 == 0 && ProductOf(m) == n && ProductOf(m') == n
    ensures TwoRoundTo(n)
  {
    if 10 * m < TWO_56 {
      ProductsApart(m, m');
    } else {
      SixteenthWindow(m, n);
      SixteenthWindow(m', n);
      assert m' == m + 1;
      TwoResidues(m, n);
    }
  }

  lemma TwoResidues(m: nat, n: nat)
    requires n % 16 == 0 && 10 * m >= TWO_56
    requires -8 <= 10 * m - n && 10 * m + 10 - n <= 8
    requires 10 * m - n == -8 || 10 * m + 10 - n == 8 ==> (n / 16) % 2 == 0
    ensures TwoRoundTo(n)
  {
    var d := n - 10 * m;
    EvenResidue(m, n, d);
  }

  lemma EvenResidue(m: nat, n: nat, d: nat)
    requires n % 16 == 0 && n == 10 * m + d && 2 <= d <= 8
    ensures n % 10 == d && d % 2 == 0
  {
    EvenRest(n / 16, m, n, d);
    TensRest(m, n, d);
  }

  lemma EvenRest(q: int, m: int, n: int, d: int)
    requires n == 16 * q && n == 10 * m + d
    ensures d % 2 == 0
  {
    assert d == 2 * (8 * q - 5 * m);
  }

  lemma TensRest(m: int, n: int, d: int)
    requires n == 10 * m + d && 0 <= d < 10
    ensures n % 10 == d
  {
  }

  lemma BothRound(n: nat)
    requires HALF_TENTHS <= n < WHOLE_ONLY && n % 16 == 0 && TwoRoundTo(n)
    ensures var m := n / 10; TWO_52 <= m < TWO_53 && ProductOf(m) == n == ProductOf(m + 1)
  {
    var m, r := n / 10, n % 10;
    assert n == 10 * m + r;
    assert n >= TWO_56 + 16;
    SixteenthWindow(m, n);
    SixteenthWindow(m + 1, n);
  }

  // ----- the numbers on a tick

  lemma NormalNumber(x: real, k: nat)
    requires 0.0 <= x && Magnitude(x, 0) == x && k <= FINEST
    ensures var w := Lift(x, k);
            w >= 0.0 && Magnitude(w, k) == w && Lift(Scaled(x), k) == Magnitude(10.0 * w, k)
  {
    LiftCommutes(x, k);
    LiftCommutes(10.0 * x, k);
    LiftOfTen(x, k);
    assert x * 10.0 == 10.0 * x;
  }

  lemma {:induction false} LiftOfTen(x: real, k: nat)
    ensures Lift(10.0 * x, k) == 10.0 * Lift(x, k)
  {
    if k > 0 { LiftOfTen(x, k - 1); }
  }

  /** A double whose product by ten rounds to a normal tick is a whole number of its binade. */
  lemma WholeFactor(w: real, k: nat, n: nat) returns (m: nat)
    requires 0.0 <= w && k < FINEST && Magnitude(w, k) == w
    requires HALF_TENTHS <= n < WHOLE_ONLY && Magnitude(10.0 * w, k) == n as real
    ensures w == m as real && TWO_52 <= m <= TWO_53
  {
    FactorFloor(w, k, n);
    m := LargeIsWhole(w, k);
    if m > TWO_53 { FactorTop(m, k, n); }
  }

  lemma FactorFloor(w: real, k: nat, n: nat)
    requires 0.0 <= w && k < FINEST && Magnitude(w, k) == w
    requires HALF_TENTHS <= n && Magnitude(10.0 * w, k) == n as real
    ensures w >= TWO_52 as real
  {
    if w < TWO_52 as real {
      HalfOf(w, k);
      assert w <= TWO_52 as real - 0.5;
      if 10.0 * w >= TWO_52 as real {
        DepthImmaterial(10.0 * w, k, 0);
        ErrorBelow56(10.0 * w);
      }
    }
  }

  /** A double just below 2^52 is a multiple of a half. */
  lemma HalfOf(w: real, k: nat)
    requires 0.0 <= w < TWO_52 as real && k < FINEST && Magnitude(w, k) == w
    ensures w <= TWO_52 as real - 0.5
  {
    if 2.0 * w >= TWO_52 as real {
      assert Magnitude(w, k) == Magnitude(2.0 * w, k + 1) / 2.0;
      assert Magnitude(2.0 * w, k + 1) == RoundHalfEven(2.0 * w) as real;
      var h := RoundHalfEven(2.0 * w);
      assert 2.0 * w == h as real;
      assert h < TWO_53;
    }
  }

  lemma FactorTop(m: nat, k: nat, n: nat)
    requires m > TWO_53 && k <= FINEST && Magnitude(10.0 * m as real, k) == n as real
    ensures n >= WHOLE_ONLY
  {
    var x := 10.0 * m as real;
    DepthImmaterial(x, k, 0);
    if x < 16.0 * TWO_53 as real { ErrorBelow57(x); }
  }

  /** A double with that product and nothing else to spare is on the tick. */
  lemma OnTickWhenExact(x: real, t: nat)
    requires 0.0 <= x < EXACT_INTEGER_FLOOR && Magnitude(x, 0) == x && Scaled(x) == t as real
    ensures OnTick(x, t)
  {
    WholeAccepted(x, t);
    RoundWhole(t);
  }

  /** `x` is a whole number of the normal binade, halved as often as the tick was doubled. */
  ghost predicate IsHalved(x: real, m: nat, k: nat) {
    x >= 0.0 && Lift(x, k) == m as real
  }

  lemma Halve(m: nat, k: nat) returns (x: real)
    ensures IsHalved(x, m, k)
  {
    x := m as real / Pow2(k) as real;
    LiftIsProduct(x, k);
  }

  lemma HalvedIsDouble(x: real, m: nat, k: nat)
    requires IsHalved(x, m, k) && m <= TWO_53 && k <= FINEST
    ensures Magnitude(x, 0) == x
  {
    LiftCommutes(x, k);
    var r := WholeStaysWhole(m, k);
    LiftInjective(Magnitude(x, 0), x, k);
  }

  lemma HalvedProduct(x: real, m: nat, k: nat)
    requires IsHalved(x, m, k) && TWO_52 <= m <= TWO_53 && k <= FINEST
    ensures Lift(Scaled(x), k) == ProductOf(m) as real
  {
    HalvedIsDouble(x, m, k);
    NormalNumber(x, k);
    ProductIs(m, k);
  }

  lemma {:induction false} LiftAtLeast(x: real, k: nat)
    requires x >= 0.0 && k >= 1
    ensures Lift(x, k) >= 2.0 * x
  {
    if k > 1 { LiftAtLeast(x, k - 1); }
  }

  /** Two multiples of ten that round to a tick make two numbers on it. */
  lemma TwoOnTick(t: nat) returns (x: real, y: real)
    requires 0 < t < TENTHS_EXACT && TwoRoundTo(Normal(t))
    ensures x != y && OnTick(x, t) && OnTick(y, t)
  {
    NormalOfSixteen(t);
    BothRound(Normal(t));
    var m := Normal(t) / 10;
    x := Halve(m, Doublings(t));
    y := Halve(m + 1, Doublings(t));
    HalvedOnTick(x, m, t);
    HalvedOnTick(y, m + 1, t);
  }

  lemma HalvedOnTick(x: real, m: nat, t: nat)
    requires 0 < t < TENTHS_EXACT && TWO_52 <= m <= TWO_53 && ProductOf(m) == Normal(t) && IsHalved(x, m, Doublings(t))
    ensures OnTick(x, t)
  {
    var k := Doublings(t);
    NormalOfSixteen(t);
    NormalIsLift(t);
    FewDoublings(t);
    HalvedIsDouble(x, m, k);
    HalvedProduct(x, m, k);
    LiftAtLeast(x, k);
    LiftInjective(Scaled(x), t as real, k);
    OnTickWhenExact(x, t);
  }

  // ----- above the tolerance a number on a tick is exact

  lemma {:induction false} LiftTwice(x: real, i: nat, j: nat)
    ensures Lift(Lift(x, i), j) == Lift(x, i + j)
  {
    if j > 0 { LiftTwice(x, i, j - 1); }
  }

  /** From 2^23 up doubles are multiples of 2^-29. */
  lemma CoarseAbove(x: real, j: nat) returns (n: int)
    requires x >= TOLERATED as real && j == 29
    ensures Lift(Magnitude(x, 0), j) == n as real
  {
    LiftCommutes(x, j);
    LiftedAbove(x, j);
    n := LargeIsWhole(Lift(x, j), j);
  }

  lemma LiftedAbove(x: real, j: nat)
    requires x >= TOLERATED as real && j == 29
    ensures Lift(x, j) >= TWO_52 as real
  {
    LiftIsProduct(x, j);
    Pow2Of29();
  }

  lemma Pow2Of29()
    ensures Pow2(29) == 0x2000_0000 && Pow2(30) == 0x4000_0000
  {
    assert Pow2(5) == 32;
    Pow2Add(5, 5);
    Pow2Add(10, 10);
    Pow2Add(20, 5);
    assert Pow2(4) == 16;
    Pow2Add(25, 4);
    Pow2Add(25, 5);
  }

  lemma ExactOnTick(x: real, t: nat)
    requires OnTick(x, t) && TOLERATED < t < TENTHS_EXACT
    ensures Scaled(x) == t as real
  {
    BelowExact(x, t);
    ScaledIs(x);
    ScaledAbove(x, t);
    var a := CoarseAbove(10.0 * x, 29);
    RoundError(Scaled(x));
    CoarseProduct(Scaled(x), a, 29);
    NoSmallDifference(Scaled(x), t, a);
  }

  lemma CoarseProduct(s: real, a: int, j: nat)
    requires j == 29 && Lift(s, j) == a as real
    ensures 0x2000_0000 as real * s == a as real
  {
    LiftIsProduct(s, j);
    Pow2Of29();
  }

  lemma BelowExact(x: real, t: nat)
    requires OnTick(x, t) && t < TENTHS_EXACT
    ensures x < EXACT_INTEGER_FLOOR && RoundHalfEven(Scaled(x)) == t
  {
  }

  lemma ScaledAbove(x: real, t: nat)
    requires 0.0 <= x && RoundHalfEven(Magnitude(10.0 * x, 0)) == t && t > TOLERATED
    ensures 10.0 * x >= TOLERATED as real
  {
    if 10.0 * x < TOLERATED as real {
      QuarterError(10.0 * x);
      RoundError(Magnitude(10.0 * x, 0));
    }
  }

  lemma NoSmallDifference(s: real, t: nat, a: int)
    requires 0x2000_0000 as real * s == a as real && t < TENTHS_EXACT
    requires Abs(Fl(s - Fl(t as real))) <= TENTH_TOLERANCE && Abs(s - t as real) <= 0.5
    ensures s == t as real
  {
    var r := WholeStaysWhole(t, 0);
    var d := a - 0x2000_0000 * t;
    var z := s - t as real;
    assert 0x2000_0000 as real * z == d as real;
    if z != 0.0 {
      DifferenceIsDouble(z, d);
      RoundsToNearest(z, z);
    }
  }

  lemma DifferenceIsDouble(z: real, d: int)
    requires 0x2000_0000 as real * z == d as real && Abs(z) <= 0.5
    ensures IsDouble(z, FINEST) && (z != 0.0 ==> d != 0)
  {
    Pow2Of29();
    LiftIsProduct(z, 29);
    assert -TWO_53 <= d <= TWO_53;
    assert IsDoubleAt(z, d, 29, FINEST);
  }

  /** Above the tolerance two numbers on a tick are two multiples of ten that round to it. */
  lemma OnlyTwoRound(x: real, y: real, t: nat)
    requires TOLERATED < t < TENTHS_EXACT && x != y && OnTick(x, t) && OnTick(y, t)
    ensures TwoRoundTo(Normal(t))
  {
    var n, k := Normal(t), Doublings(t);
    NormalOfSixteen(t);
    NormalIsLift(t);
    FewDoublings(t);
    var m := FactorOf(x, t);
    var m' := FactorOf(y, t);
    if m == m' { LiftInjective(x, y, k); }
    if m < m' { TwoAtMost(m, m', n); } else { TwoAtMost(m', m, n); }
  }

  lemma FactorOf(x: real, t: nat) returns (m: nat)
    requires TOLERATED < t < TENTHS_EXACT && OnTick(x, t)
    ensures TWO_52 <= m <= TWO_53 && Lift(x, Doublings(t)) == m as real && ProductOf(m) == Normal(t)
  {
    var k := Doublings(t);
    NormalIsLift(t);
    FewDoublings(t);
    ExactOnTick(x, t);
    NormalNumber(x, k);
    m := WholeFactor(Lift(x, k), k, Normal(t));
    ProductIs(m, k);
  }

  // ----- up to the tolerance every tick has two

  /** A few steps of the normal binade, halved back, are within the tolerance. */
  predicate FewEnough(d: int, p: int) {
    -16 <= d <= 16 && 0x4000_0000 * d <= p && -0x4000_0000 * d <= p
  }

  lemma StepsTolerated(z: real, d: int, k: nat)
    requires k <= FINEST && Lift(z, k) == d as real && FewEnough(d, Pow2(k))
    ensures Fl(z) == z && -1.0 / 0x4000_0000 as real <= z <= 1.0 / 0x4000_0000 as real
  {
    LiftIsProduct(z, k);
    assert Pow2(k) as real * z == d as real;
    FewDivided(Pow2(k), z, d);
    assert IsDoubleAt(z, d, k, FINEST);
    RoundsToNearest(z, z);
  }

  lemma FewDivided(p: int, z: real, d: int)
    requires p >= 1 && p as real * z == d as real && FewEnough(d, p)
    ensures -1.0 / 0x4000_0000 as real <= z <= 1.0 / 0x4000_0000 as real
  {
    var e := 1.0 / 0x4000_0000 as real;
    FewIsSmall(d, p, e);
    Divide(p as real, z, e, d as real, p as real * e);
  }

  lemma FewIsSmall(d: int, p: int, e: real)
    requires FewEnough(d, p) && e == 1.0 / 0x4000_0000 as real
    ensures -(p as real * e) <= d as real <= p as real * e
  {
    assert p as real * e == p as real / 0x4000_0000 as real;
  }

  lemma Divide(p: real, z: real, e: real, d: real, most: real)
    requires p > 0.0 && d == p * z && most == p * e && -most <= d <= most
    ensures -e <= z <= e
  {
    Distributes(p, z, e);
    Distributes(p, -e, z);
    NegatedProduct(p, e);
    if z > e { PositiveProduct(p, z - e); }
    if -e > z { PositiveProduct(p, -e - z); }
  }

  lemma PositiveProduct(p: real, y: real)
    requires p > 0.0 && y > 0.0
    ensures p * y > 0.0
  {
  }

  lemma NegatedProduct(p: real, e: real)
    ensures p * (-e) == -(p * e)
  {
  }

  lemma Distributes(a: real, b: real, c: real)
    ensures a * (b - c) == a * b - a * c
  {
  }

  lemma Tolerated(x: real, t: nat, z: real)
    requires 0.0 <= x < EXACT_INTEGER_FLOOR && t < TENTHS_EXACT
    requires z == Scaled(x) - t as real && Fl(z) == z && -1.0 / 0x4000_0000 as real <= z <= 1.0 / 0x4000_0000 as real
    requires RoundHalfEven(Scaled(x)) == t
    ensures IsValid(Float(x)) && Ticks(Float(x)) == Some(t)
  {
    WholeIsDouble(t);
    InContractBy(x, Scaled(x), t, t as real, z);
  }

  lemma WholeIsDouble(t: nat)
    requires t < TWO_53
    ensures Fl(t as real) == t as real
  {
    var r := WholeStaysWhole(t, 0);
  }

  /** The contract's test, step by step. */
  lemma InContractBy(number: real, scaled: real, t: int, rounded: real, difference: real)
    requires 0.0 <= number < EXACT_INTEGER_FLOOR && scaled == Scaled(number) && t == RoundHalfEven(scaled)
    requires rounded == Fl(t as real) && difference == scaled - rounded && Fl(difference) == difference
    requires -TENTH_TOLERANCE <= difference <= TENTH_TOLERANCE
    ensures IsValid(Float(number)) && Ticks(Float(number)) == Some(t)
  {
  }

  lemma NearWhole(s: real, t: nat)
    requires Abs(s - t as real) < 0.5
    ensures RoundHalfEven(s) == t
  {
    var e := s.Floor - t;
    assert e as real == s.Floor as real - t as real;
    assert e == -1 || e == 0;
  }

  /** A multiple of ten near a normal tick, halved, is on the tick by the tolerance. */
  lemma ToleratedOnTick(t: nat, m: nat, x: real)
    requires 0 < t <= TOLERATED && TWO_52 <= m <= TWO_53 && IsHalved(x, m, Doublings(t))
    requires -10 <= 10 * m - Normal(t) <= 10 && (Normal(t) <= TWO_56 ==> 10 * m < TWO_56)
    ensures OnTick(x, t)
  {
    var n, k := Normal(t), Doublings(t);
    NormalOfSixteen(t);
    FewDoublings(t);
    HalvedIsDouble(x, m, k);
    LiftAtLeast(x, k);
    StepsBack(t, m, k, n, x, Scaled(x) - t as real);
    NearWhole(Scaled(x), t);
    Tolerated(x, t, Scaled(x) - t as real);
  }

  lemma StepsBack(t: nat, m: nat, k: nat, n: nat, x: real, z: real)
    requires 0 < t <= TOLERATED && TWO_52 <= m <= TWO_53 && k == Doublings(t) && n == Normal(t) && IsHalved(x, m, k)
    requires n % 16 == 0 && k <= FINEST && -10 <= 10 * m - n <= 10 && (n <= TWO_56 ==> 10 * m < TWO_56)
    requires z == Scaled(x) - t as real
    ensures Fl(z) == z && -1.0 / 0x4000_0000 as real <= z <= 1.0 / 0x4000_0000 as real
  {
    HalvedProduct(x, m, k);
    NormalIsLift(t);
    LiftDifference(Scaled(x), t as real, k);
    ManyDoublings(t);
    FewSteps(m, n);
    StepsTolerated(z, ProductOf(m) - n, k);
  }

  lemma {:induction false} LiftDifference(a: real, b: real, k: nat)
    ensures Lift(a - b, k) == Lift(a, k) - Lift(b, k)
  {
    if k > 0 { LiftDifference(a, b, k - 1); }
  }

  lemma FewSteps(m: nat, n: nat)
    requires TWO_52 <= m <= TWO_53 && n % 16 == 0 && -10 <= 10 * m - n <= 10 && (n <= TWO_56 ==> 10 * m < TWO_56)
    ensures -16 <= ProductOf(m) - n <= 16
    ensures n <= TWO_56 ==> -8 <= ProductOf(m) - n <= 8
  {
    if n > TWO_56 {
      HighProductNear(m);
      Gap16(ProductOf(m), n);
    } else {
      LowProductNear(m);
      Gap8(ProductOf(m), n);
    }
  }

  lemma Gap16(p: int, n: int)
    requires p % 16 == 0 && n % 16 == 0 && -32 < p - n < 32
    ensures -16 <= p - n <= 16
  {
    var a, b := p / 16, n / 16;
    assert p == 16 * a && n == 16 * b;
    assert -2 < a - b < 2;
  }

  lemma Gap8(p: int, n: int)
    requires p % 8 == 0 && n % 16 == 0 && -16 < p - n < 16
    ensures -8 <= p - n <= 8
  {
    var a, b := p / 8, n / 16;
    assert p == 8 * a && n == 16 * b;
    assert -2 < a - 2 * b < 2;
  }

  lemma ManyDoublings(t: nat)
    requires 0 < t <= TOLERATED
    ensures 8 * 0x4000_0000 <= Pow2(Doublings(t))
    ensures Normal(t) > TWO_56 ==> 16 * 0x4000_0000 <= Pow2(Doublings(t))
  {
    var k := Doublings(t);
    NormalIsLift(t);
    TimesAtMost(t, TOLERATED, Pow2(k));
    Pow2Of32();
    if k <= 32 { Pow2Grows(k, 32); } else { Pow2Grows(33, k); }
    if k <= 33 { Pow2Grows(k, 33); } else { Pow2Grows(34, k); }
  }

  lemma TimesAtMost(a: nat, b: nat, p: nat)
    requires a <= b
    ensures a * p <= b * p
  {
  }

  lemma Pow2Of32()
    ensures Pow2(32) == 4 * 0x4000_0000 && Pow2(33) == 8 * 0x4000_0000 && Pow2(34) == 16 * 0x4000_0000
  {
    Pow2Of29();
    assert Pow2(31) == 2 * Pow2(30);
  }

  lemma ProductAt56(m: nat)
    requires m == TWO_56 / 10 + 1
    ensures TWO_52 <= m <= TWO_53 && ProductOf(m) == TWO_56
  {
    assert 10 * m == TWO_56 + 4;
    SixteenthWindow(m, TWO_56);
  }

  lemma ToleratedTwo(t: nat) returns (x: real, y: real)
    requires 0 < t <= TOLERATED
    ensures x != y && OnTick(x, t) && OnTick(y, t)
  {
    var n, m := Normal(t), Normal(t) / 10;
    NormalOfSixteen(t);
    x := Halve(m, Doublings(t));
    y := Halve(m + 1, Doublings(t));
    TenBelow(n, m);
    ToleratedOnTick(t, m, x);
    if n == TWO_56 {
      ProductAt56(m + 1);
      HalvedOnTick(y, m + 1, t);
    } else {
      ToleratedOnTick(t, m + 1, y);
    }
  }

  lemma TenBelow(n: nat, m: nat)
    requires HALF_TENTHS <= n < WHOLE_ONLY && n % 16 == 0 && m == n / 10
    ensures TWO_52 <= m < TWO_53 && -9 <= 10 * m - n <= 0 && (n <= TWO_56 ==> 10 * m < TWO_56)
    ensures n < TWO_56 ==> 10 * (m + 1) < TWO_56
  {
    assert n == 10 * m + n % 10;
    assert n < TWO_56 ==> n <= TWO_56 - 16;
  }

  /** Below 2^49 a tick has more than one number in contract exactly when it is within the tolerance's reach,
      or two multiples of ten round to it. */
  lemma SharedIff(t: nat)
    requires t < TENTHS_EXACT
    ensures (exists x, y :: x != y && OnTick(x, t) && OnTick(y, t)) <==> IsShared(t)
  {
    if t == 0 {
      TicksAreShared();
      ZeroShared();
    } else if t <= TOLERATED {
      var x, y := ToleratedTwo(t);
    } else {
      if TwoRoundTo(Normal(t)) { var x, y := TwoOnTick(t); }
      if x, y :| x != y && OnTick(x, t) && OnTick(y, t) { OnlyTwoRound(x, y, t); }
    }
  }

  lemma ZeroShared()
    ensures OnTick(0.0, 0) && OnTick(DUST, 0) && DUST != 0.0
  {
    TicksAreShared();
    SmallWhole(0, 0);
    RoundsToNearest(DUST, DUST);
    DustOnZero(0.0);
  }

  // ----- the numbers that are tenths

  function NumberOf(v: Value): real {
    match v
    case Int(n) => n as real
    case Float(x) => x
    case _ => 0.0
  }

  /** A number in contract below 2^49 comes back from its tick exactly when it is the double of a tenth. */
  lemma TenthsComeBack(x: real, t: nat)
    requires OnTick(x, t) && t < TENTHS_EXACT && FromTicks(t).Some?
    ensures x == NumberOf(FromTicks(t).value) <==>
              exists u: nat :: u < TENTHS_EXACT && FromTicks(u).Some? && x == NumberOf(FromTicks(u).value)
  {
    if u: nat :| u < TENTHS_EXACT && FromTicks(u).Some? && x == NumberOf(FromTicks(u).value) {
      TickOfTenth(u);
    }
  }

  lemma TickOfTenth(u: nat)
    requires u < TENTHS_EXACT && FromTicks(u).Some?
    ensures Ticks(Float(NumberOf(FromTicks(u).value))) == Some(u)
  {
    RoundTrip(u);
    if u % 10 == 0 {
      var n := u / 10;
      var r := WholeStaysWhole(u, 0);
      assert n as real * 10.0 == u as real;
      RoundWhole(u);
    }
  }
}
