/** Which numbers of a range share a slot (`bulkAssignChannelNumbers` in backend/channel_number_plan.py:
    the start and an offset are added, and the sum is scaled to its tick). */
module RangeSlots {
  import opened Common
  import opened Binary64
  import opened ChannelNumber
  import opened Rounding
  import opened NumberingApply
  import opened NumberingPlan

  /** The tick of a double below the floor. */
  function TickOf(v: real): int {
    RoundHalfEven(Scaled(v))
  }

  lemma TickError(v: real, e: real) returns (t: int)
    requires 0.0 <= v && Abs(Magnitude(10.0 * v, 0) - 10.0 * v) <= e
    ensures t == TickOf(v) && Abs(t as real - 10.0 * v) <= e + 0.5
  {
    ScaledIs(v);
    t := TickOf(v);
    var scaled := Magnitude(10.0 * v, 0);
    RoundError(scaled);
    assert t == RoundHalfEven(scaled);
  }

  // ----- whole numbers

  /** Does the next whole number have the same slot? */
  predicate WholeMeets(n: int) {
    10 * n >= TWO_56 && n % 16 in {1, 3, 6, 9, 12, 14}
  }

  lemma WholeTick(n: nat) returns (t: int)
    requires n < TWO_53
    ensures t == TickOf(n as real) && t as real == Magnitude((10 * n) as real, 0)
  {
    t := WholeStaysWhole(10 * n, 0);
    assert n as real * 10.0 == (10 * n) as real;
    RoundWhole(t);
  }

  /** Two whole numbers below 2^53 share a tick exactly when they are neighbours from 2^56 / 10 up whose
      residue by sixteen is one of six. */
  lemma WholesMeetIff(n: nat, n': nat)
    requires n < n' < TWO_53
    ensures TickOf(n as real) == TickOf(n' as real) <==> n' == n + 1 && WholeMeets(n)
  {
    if 10 * n >= TWO_56 {
      HighWholesMeetIff(n, n');
    } else if 10 * n' >= TWO_56 {
      WholesApartAt56(n, n');
    } else {
      LowWholesApart(n, n');
    }
  }

  lemma HighWholesMeetIff(n: nat, n': nat)
    requires n < n' < TWO_53 && 10 * n >= TWO_56
    ensures TickOf(n as real) == TickOf(n' as real) <==> n' == n + 1 && WholeMeets(n)
  {
    var t := WholeTick(n);
    var u := WholeTick(n');
    EverySixteenth(10 * n);
    EverySixteenth(10 * n');
    assert t == 16 * SixteenthOf(10 * n) && u == 16 * SixteenthOf(10 * n');
    NextSixteenth(n);
    if n' > n + 1 { FarSixteenths(10 * n, 10 * n'); }
  }

  lemma WholesApartAt56(n: nat, n': nat)
    requires n < n' < TWO_53 && 10 * n < TWO_56 <= 10 * n'
    ensures TickOf(n as real) != TickOf(n' as real)
  {
    var t := WholeTick(n);
    var u := WholeTick(n');
    ErrorBelow56((10 * n) as real);
    assert t <= 10 * n + 4 < TWO_56;
    EverySixteenth(10 * n');
    assert SixteenthOf(10 * n') >= TWO_52;
  }

  lemma LowWholesApart(n: nat, n': nat)
    requires n < n' && 10 * n' < TWO_56
    ensures TickOf(n as real) != TickOf(n' as real)
  {
    var t := WholeTick(n);
    var u := WholeTick(n');
    ErrorBelow56((10 * n) as real);
    ErrorBelow56((10 * n') as real);
    assert t <= 10 * n + 4 && 10 * n' - 4 <= u;
  }

  // ----- any start

  /** From here up a sum rounds to 2^53 or more. */
  const TOP: real := TWO_53 as real - 0.5

  /** Does the number one up from `y` have the same slot? */
  predicate Meets(y: real) {
    y >= TWO_52 as real
    && if y - y.Floor as real == 0.5 then y.Floor % 2 == 1 else WholeMeets(RoundHalfEven(y))
  }

  lemma RoundUp(y: real, d: nat)
    ensures var half := y - y.Floor as real == 0.5;
            RoundHalfEven(y + d as real) ==
              RoundHalfEven(y) + d + (if half && d % 2 == 1 then (if y.Floor % 2 == 0 then 1 else -1) else 0)
  {
    assert (y + d as real).Floor == y.Floor + d;
    assert (y + d as real) - (y.Floor + d) as real == y - y.Floor as real;
  }

  lemma MeetAbove52(y: real, d: nat)
    requires d >= 1 && TWO_52 as real <= y && y + d as real < TOP
    ensures TickOf(Magnitude(y, 0)) == TickOf(Magnitude(y + d as real, 0)) <==> d == 1 && Meets(y)
  {
    var m, m' := RoundHalfEven(y), RoundHalfEven(y + d as real);
    RoundUp(y, d);
    RoundAtLeast(y, TWO_52);
    assert Magnitude(y, 0) == m as real && Magnitude(y + d as real, 0) == m' as real;
    if m < m' { WholesMeetIff(m, m'); }
  }

  lemma BelowTop(y: real)
    requires 0.0 <= y < TOP
    ensures Magnitude(y, 0) < TWO_53 as real
  {
    if y < TWO_52 as real {
      HalfError(y);
    } else {
      assert y.Floor < TWO_53 - 1 || (y.Floor == TWO_53 - 1 && y - y.Floor as real < 0.5);
    }
  }

  /** Just below 2^52 a number and the next are on neighbouring doubles' ticks, never on one. */
  lemma ApartAt52(y: real)
    requires TWO_52 as real - 1.0 <= y < TWO_52 as real
    ensures TickOf(Magnitude(y, 0)) != TickOf(Magnitude(y + 1.0, 0))
  {
    HalfError(y);
    var h := RoundHalfEven(2.0 * y);
    assert Magnitude(y, 0) == h as real / 2.0;
    assert TWO_53 - 2 <= h <= TWO_53;
    var m := RoundHalfEven(y + 1.0);
    assert Magnitude(y + 1.0, 0) == m as real;
    assert m == TWO_52 || m == TWO_52 + 1;
    TicksAt52();
    assert h == TWO_53 ==> m == TWO_52 + 1;
  }

  lemma EighthTick(v: real, k: int)
    requires 4.0 * TWO_53 as real <= 10.0 * v < 8.0 * TWO_53 as real && RoundHalfEven(10.0 * v / 8.0) == k
    ensures TickOf(v) == 8 * k
  {
    EveryEighth(10.0 * v);
    assert v * 10.0 == 10.0 * v;
    assert Scaled(v) == (8 * k) as real;
    RoundWhole(8 * k);
  }

  lemma TicksAt52()
    ensures var b := 10 * TWO_52;
            && TickOf((TWO_53 - 2) as real / 2.0) == b - 8 && TickOf((TWO_53 - 1) as real / 2.0) == b - 8
            && TickOf(TWO_52 as real) == b && TickOf((TWO_53 as real) / 2.0) == b
            && TickOf((TWO_52 + 1) as real) == b + 8
  {
    var k := 10 * TWO_52 / 8;
    EighthTick((TWO_53 - 2) as real / 2.0, k - 1);
    EighthTick((TWO_53 - 1) as real / 2.0, k - 1);
    EighthTick(TWO_52 as real, k);
    EighthTick((TWO_53 as real) / 2.0, k);
    EighthTick((TWO_52 + 1) as real, k + 1);
  }

  /** From 2^51 to 2^52 rounding keeps a whole step. */
  lemma ShiftBelow52(y: real)
    requires TWO_52 as real <= 2.0 * y && y + 1.0 < TWO_52 as real
    ensures Magnitude(y + 1.0, 0) == Magnitude(y, 0) + 1.0
  {
    RoundUp(2.0 * y, 2);
    assert 2.0 * (y + 1.0) == 2.0 * y + 2.0;
    HalfError(y);
    HalfError(y + 1.0);
  }

  /** Ticks of doubles that are further apart than their products round. */
  lemma TicksApart(v: real, v': real, e: real, e': real)
    requires 0.0 <= v && 0.0 <= v' && 10.0 * (v' - v) > e + e' + 1.0
    requires Abs(Magnitude(10.0 * v, 0) - 10.0 * v) <= e && Abs(Magnitude(10.0 * v', 0) - 10.0 * v') <= e'
    ensures TickOf(v) != TickOf(v')
  {
    var t := TickError(v, e);
    var u := TickError(v', e');
  }

  lemma ApartFrom51(y: real)
    requires TWO_52 as real <= 2.0 * y && y + 1.0 < TWO_52 as real
    ensures TickOf(Magnitude(y, 0)) != TickOf(Magnitude(y + 1.0, 0))
  {
    var v := Magnitude(y, 0);
    HalfError(y);
    ShiftBelow52(y);
    ErrorBelow56(10.0 * v);
    ErrorBelow56(10.0 * (v + 1.0));
    TicksApart(v, v + 1.0, 4.0, 4.0);
  }

  lemma ApartBelow51(y: real)
    requires 0.0 <= 2.0 * y < TWO_52 as real
    ensures TickOf(Magnitude(y, 0)) != TickOf(Magnitude(y + 1.0, 0))
  {
    var v, v' := Magnitude(y, 0), Magnitude(y + 1.0, 0);
    QuarterError(y);
    HalfError(y + 1.0);
    ErrorBelow55(10.0 * v);
    ErrorBelow55(10.0 * v');
    TicksApart(v, v', 2.0, 2.0);
  }

  lemma FarApart(y: real, d: nat)
    requires 0.0 <= y < TWO_52 as real && d >= 2 && y + d as real < TOP
    ensures TickOf(Magnitude(y, 0)) != TickOf(Magnitude(y + d as real, 0))
  {
    var z := y + d as real;
    var v, v' := Magnitude(y, 0), Magnitude(z, 0);
    HalfError(y);
    BelowTop(z);
    UnitError(z, 0);
    assert v' - v >= 1.25;
    FarTicks(v, v');
  }

  lemma FarTicks(v: real, v': real)
    requires 0.0 <= v <= TWO_52 as real + 1.0 && v + 1.25 <= v' < TWO_53 as real
    ensures TickOf(v) != TickOf(v')
  {
    ErrorBelow56(10.0 * v);
    if 10.0 * v' < 8.0 * TWO_53 as real {
      ErrorBelow56(10.0 * v');
      TicksApart(v, v', 4.0, 4.0);
    } else {
      ErrorBelow57(10.0 * v');
      TicksApart(v, v', 4.0, 8.0);
    }
  }

  /** Two numbers a whole step or more apart, whose doubles are below 2^53, share a slot exactly when the step is one
      and the lower meets the next. */
  lemma MeetIff(y: real, d: nat)
    requires 0.0 <= y && d >= 1 && y + d as real < TOP
    ensures SlotOfDouble(Fl(y)) == SlotOfDouble(Fl(y + d as real)) <==> d == 1 && Meets(y)
  {
    var z := y + d as real;
    BelowTop(y);
    BelowTop(z);
    if y >= TWO_52 as real {
      MeetAbove52(y, d);
      RoundUp(y, d);
      assert Magnitude(y, 0) == RoundHalfEven(y) as real && Magnitude(z, 0) == RoundHalfEven(z) as real;
    } else if d >= 2 {
      FarApart(y, d);
    } else if z >= TWO_52 as real {
      ApartAt52(y);
    } else if 2.0 * y >= TWO_52 as real {
      ApartFrom51(y);
    } else {
      ApartBelow51(y);
    }
    if y < TWO_52 as real { HalfError(y); }
  }

  // ----- ranges

  /** A start as a number; a missing one is 1. */
  function StartOf(start: Value): real {
    match start
    case Null => 1.0
    case Int(n) => n as real
    case Float(x) => x
    case _ => 0.0
  }

  predicate IsStart(start: Value) {
    start.Null? || (start.Int? && start.n >= 0) || (start.Float? && start.x >= 0.0)
  }

  lemma SlotOfOffset(start: Value, o: nat, y: real)
    requires IsStart(start) && y == StartOf(start) + o as real && y < TOP
    ensures SlotOf(Plus(start, o)) == Some(SlotOfDouble(Fl(y)))
  {
    Pow2Large();
    BelowTop(y);
    if !start.Float? {
      var n := if start.Null? then 1 + o else start.n + o;
      assert n as real == y;
    }
  }

  /** Does a number of a range have the slot of the next?  From 2^53 slots are doubles. */
  predicate NumberMeets(start: Value, o: nat) {
    var y := StartOf(start) + o as real;
    if y + 1.0 < TOP then Meets(y) else Fl(y) == Fl(y + 1.0)
  }

  /** Two numbers of a range whose doubles are below 2^53 share a slot exactly when they are neighbours and the
      lower meets the next: never below 2^52; from there when a half is dropped from an odd number; and from
      2^56 / 10 also by its residue. */
  lemma RangeSlotsMeetIff(start: Value, o: nat, o': nat)
    requires IsStart(start) && o < o' && StartOf(start) + o' as real < TOP
    ensures SlotOf(Plus(start, o)) == SlotOf(Plus(start, o')) <==> o' == o + 1 && NumberMeets(start, o)
  {
    var a, b := SlotOf(Plus(start, o)), SlotOf(Plus(start, o'));
    SlotOfOffset(start, o, StartOf(start) + o as real);
    SlotOfOffset(start, o', StartOf(start) + o' as real);
    OffsetsMeetIff(start, o, o', StartOf(start) + o as real, StartOf(start) + o' as real, a, b);
  }

  lemma OffsetsMeetIff(start: Value, o: nat, o': nat, y: real, z: real, a: Option<Slot>, b: Option<Slot>)
    requires IsStart(start) && o < o' && y == StartOf(start) + o as real && z == StartOf(start) + o' as real && z < TOP
    requires a == Some(SlotOfDouble(Fl(y))) && b == Some(SlotOfDouble(Fl(z)))
    ensures a == b <==> o' == o + 1 && NumberMeets(start, o)
  {
    assert z == y + (o' - o) as real;
    assert o' == o + 1 ==> NumberMeets(start, o) == Meets(y);
    SumsMeetIff(y, z, o' - o, a, b);
  }

  lemma SumsMeetIff(y: real, z: real, d: nat, a: Option<Slot>, b: Option<Slot>)
    requires 0.0 <= y && d >= 1 && z == y + d as real && z < TOP
    requires a == Some(SlotOfDouble(Fl(y))) && b == Some(SlotOfDouble(Fl(z)))
    ensures a == b <==> d == 1 && Meets(y)
  {
    MeetIff(y, d);
    SameIff(SlotOfDouble(Fl(y)), SlotOfDouble(Fl(z)), a, b);
  }

  lemma SameIff(s: Slot, t: Slot, a: Option<Slot>, b: Option<Slot>)
    requires a == Some(s) && b == Some(t)
    ensures a == b <==> s == t
  {
  }

  /** So a range that stays below 2^52 gives each channel its own slot. */
  lemma RangeSlotsDiffer(start: Value, o: nat, o': nat)
    requires IsStart(start) && o < o' && StartOf(start) + o' as real <= TWO_52 as real
    ensures SlotOf(Plus(start, o)) != SlotOf(Plus(start, o'))
  {
    RangeSlotsMeetIff(start, o, o');
  }

  /** The first fractional range that does not, and the first whole one. */
  lemma RangeSlotsCanMeet()
    ensures var x := TWO_52 as real - 0.5; SlotOf(Plus(Float(x), 2)) == SlotOf(Plus(Float(x), 3))
    ensures var n := 7205759403792796; SlotOf(Plus(Int(n), 0)) == SlotOf(Plus(Int(n), 1))
    ensures 10 * 7205759403792795 >= TWO_56 && !WholeMeets(7205759403792794) && !WholeMeets(7205759403792795)
  {
    HalvesMeet(TWO_52 as real - 0.5);
    WholesMeet(7205759403792796);
  }

  lemma HalvesMeet(x: real)
    requires x == TWO_52 as real - 0.5
    ensures SlotOf(Plus(Float(x), 2)) == SlotOf(Plus(Float(x), 3))
  {
    assert (x + 2.0).Floor == TWO_52 + 1;
    RangeSlotsMeetIff(Float(x), 2, 3);
  }

  lemma WholesMeet(n: int)
    requires n == 7205759403792796
    ensures SlotOf(Plus(Int(n), 0)) == SlotOf(Plus(Int(n), 1))
  {
    assert n % 16 == 12 && 10 * n >= TWO_56;
    assert (n as real).Floor == n && RoundHalfEven(n as real) == n;
    RangeSlotsMeetIff(Int(n), 0, 1);
  }

  // ----- from 2^53

  lemma RoundGrows(x: real, y: real)
    requires x <= y
    ensures RoundHalfEven(x) <= RoundHalfEven(y)
  {
  }

  lemma {:induction false} LargeGrows(x: real, y: real)
    requires TWO_52 as real <= x <= y
    ensures TWO_52 as real <= Magnitude(x, 0) <= Magnitude(y, 0)
    decreases y.Floor, 0
  {
    if y < TWO_53 as real {
      RoundGrows(TWO_52 as real, x);
      RoundGrows(x, y);
    } else {
      var half := y / 2.0;
      LargeGrowsAcross(x, half);
    }
  }

  lemma {:induction false} LargeGrowsAcross(x: real, half: real)
    requires TWO_52 as real <= x <= 2.0 * half && half >= TWO_52 as real
    ensures TWO_52 as real <= Magnitude(x, 0) <= 2.0 * Magnitude(half, 0)
    decreases half.Floor, 1
  {
    if x < TWO_53 as real {
      LargeGrows(TWO_52 as real, half);
      RoundGrows(TWO_52 as real, x);
      RoundGrows(x, TWO_53 as real);
    } else {
      LargeGrows(x / 2.0, half);
    }
  }

  lemma FromTop(y: real)
    requires y >= TOP
    ensures Magnitude(y, 0) >= TWO_53 as real
  {
    if y < TWO_53 as real {
      assert y.Floor == TWO_53 - 1 && y - y.Floor as real >= 0.5;
    } else {
      LargeGrows(TWO_52 as real, y / 2.0);
    }
  }

  lemma SlotFromTop(start: Value, o: nat, y: real)
    requires IsStart(start) && y == StartOf(start) + o as real && y >= TOP && SlotOf(Plus(start, o)).Some?
    ensures SlotOf(Plus(start, o)) == Some(Exact(Fl(y)))
    ensures !start.Float? ==> Magnitude(y, 0) < Pow2(1024) as real
  {
    FromTop(y);
    if !start.Float? {
      var n := if start.Null? then 1 + o else start.n + o;
      assert n as real == y;
    }
  }

  lemma SlotBefore(start: Value, o: nat, y: real, top: real)
    requires IsStart(start) && y == StartOf(start) + o as real && TOP <= y <= top
    requires !start.Float? ==> Magnitude(top, 0) < Pow2(1024) as real
    ensures SlotOf(Plus(start, o)) == Some(Exact(Fl(y)))
  {
    LargeGrows(y, top);
    FromTop(y);
    if !start.Float? {
      var n := if start.Null? then 1 + o else start.n + o;
      assert n as real == y;
    }
  }

  /** At 2^53 slots become doubles: a number below shares none with one above, and two above share one when they
      round to the same double. */
  lemma SlotsFrom53(start: Value, o: nat, o': nat)
    requires IsStart(start) && o < o' && StartOf(start) + o' as real >= TOP && SlotOf(Plus(start, o')).Some?
    ensures SlotOf(Plus(start, o)) == SlotOf(Plus(start, o')) <==>
            Fl(StartOf(start) + o as real) == Fl(StartOf(start) + o' as real)
  {
    var y, z := StartOf(start) + o as real, StartOf(start) + o' as real;
    SlotFromTop(start, o', z);
    FromTop(z);
    if y < TOP {
      SlotOfOffset(start, o, y);
      BelowTop(y);
    } else {
      SlotBefore(start, o, y, z);
    }
  }

  /** So of any range whatever, a number has the slot of the next exactly when it meets it. */
  lemma NumberMeetsIff(start: Value, o: nat)
    requires IsStart(start) && SlotOf(Plus(start, o + 1)).Some?
    ensures SlotOf(Plus(start, o)) == SlotOf(Plus(start, o + 1)) <==> NumberMeets(start, o)
  {
    var y := StartOf(start) + o as real;
    assert StartOf(start) + (o + 1) as real == y + 1.0;
    if y + 1.0 < TOP {
      RangeSlotsMeetIff(start, o, o + 1);
    } else {
      SlotsFrom53(start, o, o + 1);
      DoublesDecide(start, o, y);
    }
  }

  lemma DoublesDecide(start: Value, o: nat, y: real)
    requires y == StartOf(start) + o as real && y + 1.0 >= TOP
    ensures NumberMeets(start, o) <==> Fl(y) == Fl(y + 1.0)
  {
  }

  /** And if no two neighbours meet, no two of its numbers have one slot. */
  lemma NoneMeet(start: Value, o: nat, o': nat)
    requires IsStart(start) && o < o' && !NumberMeets(start, o) && SlotOf(Plus(start, o')).Some?
    ensures SlotOf(Plus(start, o)) != SlotOf(Plus(start, o'))
  {
    var y, z := StartOf(start) + o as real, StartOf(start) + o' as real;
    if z < TOP {
      RangeSlotsMeetIff(start, o, o');
    } else {
      SlotsFrom53(start, o, o');
      if Fl(y) == Fl(z) { DoublesMeet(start, o, y, z); }
    }
  }

  lemma DoublesMeet(start: Value, o: nat, y: real, z: real)
    requires 0.0 <= y == StartOf(start) + o as real && y + 1.0 <= z && z >= TOP && Fl(y) == Fl(z)
    ensures NumberMeets(start, o)
  {
    NextBetween(y, z);
  }

  lemma NextBetween(y: real, z: real)
    requires 0.0 <= y && y + 1.0 <= z && z >= TOP && Magnitude(y, 0) == Magnitude(z, 0)
    ensures y + 1.0 >= TOP && Magnitude(y, 0) == Magnitude(y + 1.0, 0)
  {
    FromTop(z);
    if y < TOP {
      BelowTop(y);
    } else {
      LargeGrows(y, y + 1.0);
      LargeGrows(y + 1.0, z);
    }
  }

  /** Whole numbers from there to 2^54 meet the next two times in four. */
  lemma WholesFrom53(n: nat)
    requires TWO_53 <= n < 2 * TWO_53 - 1
    ensures SlotOf(Int(n)) == SlotOf(Int(n + 1)) <==> n % 4 == 0 || n % 4 == 3
  {
    LargeSlot(n);
    LargeSlot(n + 1);
    SameIff(Exact(EvenOf(n) as real), Exact(EvenOf(n + 1) as real), SlotOf(Int(n)), SlotOf(Int(n + 1)));
    NextEven(n);
  }

  /** The even number nearest, of two the one that four divides. */
  function EvenOf(n: nat): nat {
    if n % 4 == 1 then n - 1 else if n % 4 == 3 then n + 1 else n
  }

  lemma NextEven(n: nat)
    ensures EvenOf(n) == EvenOf(n + 1) <==> n % 4 == 0 || n % 4 == 3
  {
    var q, r := n / 4, n % 4;
    assert n == 4 * q + r && (n + 1) % 4 == if r == 3 then 0 else r + 1;
  }

  lemma LargeSlot(n: nat)
    requires TWO_53 <= n < 2 * TWO_53
    ensures SlotOf(Int(n)) == Some(Exact(EvenOf(n) as real))
  {
    EvenDoubles(n);
    Pow2Of57();
    Pow2Grows(57, 1024);
  }

  lemma EvenDoubles(n: nat)
    requires TWO_53 <= n < 2 * TWO_53
    ensures Magnitude(n as real, 0) == EvenOf(n) as real
  {
    var q, r := n / 4, n % 4;
    assert n == 4 * q + r;
    var x := n as real / 2.0;
    assert x == (2 * q) as real + r as real / 2.0;
    HalfRounded(q, r, x);
    assert Magnitude(x, 0) == RoundHalfEven(x) as real;
  }

  lemma HalfRounded(q: nat, r: nat, x: real)
    requires r < 4 && x == (2 * q) as real + r as real / 2.0
    ensures 2 * RoundHalfEven(x) == 4 * q + if r == 1 then 0 else if r == 3 then 4 else r
  {
    assert x.Floor == 2 * q + r / 2;
  }
}
