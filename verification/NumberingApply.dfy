/** The order channel-number writes go in, and how a half-finished run is put back
    (backend/channel_number_apply.py). */
module NumberingApply {
  import opened Common
  import opened ChannelNumber
  import opened Binary64
  import opened WriteScheduler

  datatype Slot = Tick(t: int) | Exact(x: real)

  function SlotOfDouble(number: real): Slot {
    if Abs(number) >= EXACT_INTEGER_FLOOR then Exact(number)
    else Tick(RoundHalfEven(Scaled(number)))
  }

  /** The slot a value occupies; what is not a finite number has none. */
  function SlotOf(value: Value): Option<Slot> {
    match value
    case Int(n) => if Overflows(n as real) then None else Some(SlotOfDouble(Fl(n as real)))
    case Float(x) => Some(SlotOfDouble(x))
    case _ => None
  }

  predicate SameChannelNumber(a: Value, b: Value) {
    SlotOf(a).Some? && SlotOf(a) == SlotOf(b)
  }

  datatype NumberingWrite = NumberingWrite(channelId: int, name: string, before: Value, after: Value) {
    predicate Moves() {
      if before.Null? && after.Null? then false
      else if before.Null? || after.Null? then true
      else !SameChannelNumber(before, after)
    }

    function Inverse(): NumberingWrite {
      NumberingWrite(channelId, name, after, before)
    }
  }

  datatype NumberingOrder = NumberingOrder(writes: seq<NumberingWrite>, cycles: seq<seq<int>>)

  // ----- who has to leave before whom

  predicate Leaves(write: NumberingWrite, s: Slot) {
    write.Moves() && SlotOf(write.before) == Some(s)
  }

  /** `late` lands on a slot that `holder` is leaving. */
  predicate LandsOnHolder(late: NumberingWrite, holder: NumberingWrite) {
    var slot := SlotOf(late.after);
    slot.Some? && Leaves(holder, slot.value)
  }

  function DependencyGraph(w: seq<NumberingWrite>): (g: Graph)
    ensures g.Keys == Positions(|w|)
    ensures forall h, p :: Blocks(g, h, p) <==>
              0 <= h < |w| && 0 <= p < |w| && h != p && LandsOnHolder(w[p], w[h])
  {
    map p | p in Positions(|w|) ::
      set h | h in Positions(|w|) && h != p && LandsOnHolder(w[p], w[h])
  }

  /** Both values have this slot. */
  ghost predicate OneSlot(a: Value, b: Value, s: Slot) {
    SlotOf(a) == Some(s) && SlotOf(b) == Some(s)
  }

  /** The two values are both missing, or have one slot. */
  ghost predicate SamePosition(a: Value, b: Value) {
    a == Null == b || exists s :: OneSlot(a, b, s)
  }

  lemma MovesIff(w: NumberingWrite)
    ensures w.Moves() <==> !SamePosition(w.before, w.after)
  {
    if SlotOf(w.before).Some? && SlotOf(w.before) == SlotOf(w.after) {
      assert OneSlot(w.before, w.after, SlotOf(w.before).value);
    }
  }

  /** A write waits for another exactly when it lands on the slot that the other is on and does not stay on. */
  lemma BlocksIff(w: seq<NumberingWrite>, h: nat, p: nat)
    requires h < |w| && p < |w|
    ensures Blocks(DependencyGraph(w), h, p) <==>
              h != p && exists s :: OneSlot(w[p].after, w[h].before, s) && SlotOf(w[h].after) != Some(s)
  {
    MovesIff(w[h]);
    var slot := SlotOf(w[h].before);
    if slot.Some? && SlotOf(w[p].after) == slot {
      assert OneSlot(w[p].after, w[h].before, slot.value);
      assert OneSlot(w[h].before, w[h].after, slot.value) <==> SlotOf(w[h].after) == slot;
    }
  }

  /** So a write that keeps its channel where it is holds up no other, and is in no cycle. */
  lemma KeepingBlocksNone(w: seq<NumberingWrite>, k: nat, c: seq<int>)
    requires k < |w| && SamePosition(w[k].before, w[k].after)
    ensures forall p :: !Blocks(DependencyGraph(w), k, p)
    ensures IsCycle(DependencyGraph(w), c) ==> k !in c
  {
    var g := DependencyGraph(w);
    forall p ensures !Blocks(g, k, p) {
      if 0 <= p < |w| { BlocksIff(w, k, p); }
    }
    if IsCycle(g, c) && k in c { var p := BlockedInCycle(g, c, k); }
  }

  lemma BlockedInCycle(g: Graph, c: seq<int>, q: int) returns (p: int)
    requires IsCycle(g, c) && q in c
    ensures Blocks(g, q, p)
  {
    var i :| 0 <= i < |c| && c[i] == q;
    p := if i == 0 then c[|c| - 1] else c[i - 1];
  }

  ghost predicate Holds(leaving: map<Slot, seq<int>>, s: Slot, h: int) {
    s in leaving && h in leaving[s]
  }

  ghost predicate LeavingBelow(w: seq<NumberingWrite>, leaving: map<Slot, seq<int>>, n: nat)
    requires n <= |w|
  {
    forall s, h :: Holds(leaving, s, h) <==> 0 <= h < n && Leaves(w[h], s)
  }

  /** Which writes are leaving each slot, in plan order. */
  method LeavingSlots(w: seq<NumberingWrite>) returns (leaving: map<Slot, seq<int>>)
    ensures LeavingBelow(w, leaving, |w|)
  {
    leaving := map[];
    for position := 0 to |w|
      invariant LeavingBelow(w, leaving, position)
    {
      var slot := SlotOf(w[position].before);
      if w[position].Moves() && slot.Some? {
        var at := if slot.value in leaving then leaving[slot.value] else [];
        HoldsOneMore(leaving, slot.value, at, position);
        OneMoreLeaves(w, leaving, leaving[slot.value := at + [position]], position, {slot.value});
        leaving := leaving[slot.value := at + [position]];
      } else {
        OneMoreLeaves(w, leaving, leaving, position, {});
      }
    }
  }

  lemma OneMoreLeaves(w: seq<NumberingWrite>, was: map<Slot, seq<int>>, now: map<Slot, seq<int>>, n: nat,
                      slots: set<Slot>)
    requires n < |w| && LeavingBelow(w, was, n)
    requires forall s :: Leaves(w[n], s) <==> s in slots
    requires forall s, h :: Holds(now, s, h) <==> Holds(was, s, h) || (s in slots && h == n)
    ensures LeavingBelow(w, now, n + 1)
  {
    forall s, h ensures Holds(now, s, h) <==> 0 <= h < n + 1 && Leaves(w[h], s) {
      if h == n { assert !Holds(was, s, n); }
    }
  }

  lemma HoldsOneMore(leaving: map<Slot, seq<int>>, slot: Slot, at: seq<int>, position: int)
    requires at == if slot in leaving then leaving[slot] else []
    ensures forall s, h :: Holds(leaving[slot := at + [position]], s, h) <==>
                           Holds(leaving, s, h) || (s == slot && h == position)
  {
    var after := leaving[slot := at + [position]];
    forall s, h ensures Holds(after, s, h) <==> Holds(leaving, s, h) || (s == slot && h == position) {
      if s == slot { assert after[s] == at + [position]; }
    }
  }

  /** The edges of `g` into the first `upTo` positions, and of those into position `upTo`, the ones
      from `holders`, both ways about. */
  ghost predicate EdgesInto(g: Graph, upTo: int, holders: seq<int>, blockers: Graph, blocking: Graph) {
    && blockers.Keys == blocking.Keys == g.Keys
    && (forall p, h :: Blocks(blockers, h, p) <==>
                       Blocks(g, h, p) && (p < upTo || (p == upTo && h in holders)))
    && (forall p, h :: Blocks(blocking, p, h) <==> Blocks(blockers, h, p))
  }

  method Dependencies(w: seq<NumberingWrite>) returns (blockers: Graph, blocking: Graph)
    ensures blockers == DependencyGraph(w) && IsReverse(DependencyGraph(w), blocking)
  {
    ghost var g := DependencyGraph(w);
    var leaving := LeavingSlots(w);
    blockers := map p | p in Positions(|w|) :: {};
    blocking := map p | p in Positions(|w|) :: {};
    for position := 0 to |w|
      invariant EdgesInto(g, position, [], blockers, blocking)
    {
      var slot := SlotOf(w[position].after);
      var holders := if slot.Some? && slot.value in leaving then leaving[slot.value] else [];
      forall h ensures Blocks(g, h, position) <==> h in holders && h != position {
        assert h in holders <==> slot.Some? && Holds(leaving, slot.value, h);
      }
      blockers, blocking := AddHolders(g, |w|, position, holders, blockers, blocking);
    }
    SameGraph(g, blockers, |w|);
  }

  lemma SameGraph(g: Graph, blockers: Graph, n: nat)
    requires g.Keys == blockers.Keys == Positions(n)
    requires forall p, h :: Blocks(blockers, h, p) <==> Blocks(g, h, p) && p < n
    ensures blockers == g
  {
    forall p | p in g ensures blockers[p] == g[p] {
      forall h ensures h in blockers[p] <==> h in g[p] {
        assert Blocks(blockers, h, p) <==> Blocks(g, h, p);
      }
    }
  }

  method AddHolders(ghost g: Graph, n: nat, position: nat, holders: seq<int>, blockers: Graph, blocking: Graph)
    returns (blockers': Graph, blocking': Graph)
    requires position < n && g.Keys == Positions(n) && IsGraph(g, n)
    requires EdgesInto(g, position, [], blockers, blocking)
    requires forall h :: Blocks(g, h, position) <==> h in holders && h != position
    ensures EdgesInto(g, position + 1, [], blockers', blocking')
  {
    blockers', blocking' := blockers, blocking;
    for k := 0 to |holders|
      invariant EdgesInto(g, position, holders[..k], blockers', blocking')
    {
      var holder := holders[k];
      assert holder in holders && holders[..k + 1] == holders[..k] + [holder];
      if holder != position {
        assert Blocks(g, holder, position);
        OneMoreEdge(g, position, holders[..k], holder, blockers', blocking');
        blockers' := blockers'[position := blockers'[position] + {holder}];
        blocking' := blocking'[holder := blocking'[holder] + {position}];
      } else {
        assert !Blocks(g, holder, position);
      }
    }
    assert holders[..|holders|] == holders;
  }

  lemma OneMoreEdge(g: Graph, position: int, seen: seq<int>, holder: int, blockers: Graph, blocking: Graph)
    requires EdgesInto(g, position, seen, blockers, blocking)
    requires position in g && holder in g && Blocks(g, holder, position)
    ensures EdgesInto(g, position, seen + [holder], blockers[position := blockers[position] + {holder}],
                      blocking[holder := blocking[holder] + {position}])
  {
    var more := blockers[position := blockers[position] + {holder}];
    var back := blocking[holder := blocking[holder] + {position}];
    forall p, h ensures Blocks(more, h, p) <==> Blocks(blockers, h, p) || (p == position && h == holder) {}
    forall p, h ensures Blocks(back, p, h) <==> Blocks(blocking, p, h) || (p == position && h == holder) {}
  }

  // ----- the reported cycles

  predicate IntLe(a: int, b: int) { a <= b }

  /** Tuples compare by their first difference, a prefix being the smaller. */
  predicate TupleLe(a: seq<int>, b: seq<int>) {
    a == [] || (b != [] && (a[0] < b[0] || (a[0] == b[0] && TupleLe(a[1..], b[1..]))))
  }

  lemma {:induction false} TupleTotal(a: seq<int>, b: seq<int>)
    ensures TupleLe(a, b) || TupleLe(b, a)
  {
    if a != [] && b != [] { TupleTotal(a[1..], b[1..]); }
  }

  lemma {:induction false} TupleTransitive(a: seq<int>, b: seq<int>, c: seq<int>)
    requires TupleLe(a, b) && TupleLe(b, c)
    ensures TupleLe(a, c)
  {
    if a != [] && a[0] == b[0] == c[0] { TupleTransitive(a[1..], b[1..], c[1..]); }
  }

  lemma TuplesOrdered()
    ensures TotalOrder(IntLe) && TotalOrder(TupleLe)
  {
    forall a, b ensures TupleLe(a, b) || TupleLe(b, a) { TupleTotal(a, b); }
    forall a, b, c | TupleLe(a, b) && TupleLe(b, c) ensures TupleLe(a, c) { TupleTransitive(a, b, c); }
  }

  function ChannelIds(w: seq<NumberingWrite>, c: seq<int>): (ids: seq<int>)
    requires forall i :: 0 <= i < |c| ==> 0 <= c[i] < |w|
    ensures |ids| == |c| && forall i :: 0 <= i < |c| ==> ids[i] == w[c[i]].channelId
  {
    seq(|c|, i requires 0 <= i < |c| => w[c[i]].channelId)
  }

  /** `ids` are the channels of a cycle, ascending. */
  ghost predicate NamesCycle(w: seq<NumberingWrite>, c: seq<int>, ids: seq<int>) {
    && (forall i :: 0 <= i < |c| ==> 0 <= c[i] < |w|)
    && multiset(ids) == multiset(ChannelIds(w, c))
    && SortedBy(ids, IntLe)
  }

  ghost predicate NamesCycles(w: seq<NumberingWrite>, breaks: seq<Break>, found: seq<seq<int>>) {
    |found| == |breaks| && forall k :: 0 <= k < |breaks| ==> NamesCycle(w, breaks[k].cycle, found[k])
  }

  /** The cycles reported are those found, one for each break, in order. */
  ghost predicate ReportsCycles(w: seq<NumberingWrite>, breaks: seq<Break>, cycles: seq<seq<int>>) {
    SortedBy(cycles, TupleLe) && exists found :: NamesCycles(w, breaks, found) && multiset(cycles) == multiset(found)
  }

  function CycleName(w: seq<NumberingWrite>, c: seq<int>): (ids: seq<int>)
    requires forall i :: 0 <= i < |c| ==> 0 <= c[i] < |w|
  {
    Sort(ChannelIds(w, c), IntLe)
  }

  lemma CycleNamed(w: seq<NumberingWrite>, c: seq<int>)
    requires forall i :: 0 <= i < |c| ==> 0 <= c[i] < |w|
    ensures NamesCycle(w, c, CycleName(w, c))
  {
    TuplesOrdered();
    SortSpec(ChannelIds(w, c), IntLe);
  }

  method ReportCycles(w: seq<NumberingWrite>, breaks: seq<Break>)
    returns (cycles: seq<seq<int>>)
    requires forall k :: 0 <= k < |breaks| ==> InPlan(w, breaks[k].cycle)
    ensures ReportsCycles(w, breaks, cycles)
  {
    var named: seq<seq<int>> := [];
    for k := 0 to |breaks|
      invariant |named| == k
      invariant forall j :: 0 <= j < k ==> NamesCycle(w, breaks[j].cycle, named[j])
    {
      CycleNamed(w, breaks[k].cycle);
      named := named + [CycleName(w, breaks[k].cycle)];
    }
    TuplesOrdered();
    SortSpec(named, TupleLe);
    cycles := Sort(named, TupleLe);
    assert NamesCycles(w, breaks, named);
  }

  predicate InPlan(w: seq<NumberingWrite>, c: seq<int>) {
    forall i :: 0 <= i < |c| ==> 0 <= c[i] < |w|
  }

  /** `order_numbering_writes`.  `positions` are the places in the plan of the writes returned. */
  method OrderNumberingWrites(writes: seq<NumberingWrite>)
    returns (order: NumberingOrder, ghost positions: seq<int>, ghost breaks: seq<Break>, ghost starts: seq<nat>)
    ensures IsPermutation(positions, |writes|)
    ensures InRounds(DependencyGraph(writes), |writes|, positions, starts)
    ensures Follows(writes, positions, order.writes)
    ensures SafeButFor(DependencyGraph(writes), positions, breaks)
    ensures ReportsCycles(writes, breaks, order.cycles)
    ensures Unconstrained(DependencyGraph(writes)) ==> order == NumberingOrder(writes, [])
  {
    var blockers, blocking := Dependencies(writes);
    var ordered, broken;
    ordered, broken, starts := Schedule(DependencyGraph(writes), |writes|, blockers, blocking);
    positions, breaks := ordered, broken;
    assert forall i :: 0 <= i < |ordered| ==> ordered[i] in ordered;
    var placed := seq(|ordered|, i requires 0 <= i < |ordered| => writes[ordered[i]]);
    var cycles;
    forall k | 0 <= k < |broken| ensures InPlan(writes, broken[k].cycle) {
      CyclePositions(DependencyGraph(writes), |writes|, ordered, broken[k]);
    }
    cycles := ReportCycles(writes, broken);
    order := NumberingOrder(placed, cycles);
    if Unconstrained(DependencyGraph(writes)) {
      BreaksIffCyclic(DependencyGraph(writes), ordered, |writes|, broken);
      assert placed == writes;
    }
  }

  /** `placed` are the writes of a plan in the order given by their positions in it. */
  ghost predicate Follows(writes: seq<NumberingWrite>, positions: seq<int>, placed: seq<NumberingWrite>) {
    && |placed| == |positions|
    && forall i :: 0 <= i < |positions| ==> 0 <= positions[i] < |writes| && placed[i] == writes[positions[i]]
  }

  lemma CyclePositions(g: Graph, n: nat, ordered: seq<int>, b: Break)
    requires IsGraph(g, n) && IsBreak(g, ordered, b)
    ensures forall i :: 0 <= i < |b.cycle| ==> 0 <= b.cycle[i] < n
  {
    forall i | 0 <= i < |b.cycle| ensures 0 <= b.cycle[i] < n {
      var h := CycleBlocker(g, b.cycle, b.cycle[i]);
      assert b.cycle[i] in g;
    }
  }

  /** No two moving writes of the plan leave the same slot. */
  ghost predicate DistinctSlotsLeft(w: seq<NumberingWrite>) {
    forall i, j, s :: 0 <= i < j < |w| && Leaves(w[i], s) ==> !Leaves(w[j], s)
  }

  /** Then no order of the plan puts fewer writes on a number not yet vacated, and the cycles
      reported have no write in common. */
  lemma FewestSharedNumbers(w: seq<NumberingWrite>, positions: seq<int>, breaks: seq<Break>, other: seq<int>)
    requires DistinctSlotsLeft(w) && IsPermutation(positions, |w|) && IsPermutation(other, |w|)
    requires SafeButFor(DependencyGraph(w), positions, breaks)
    ensures |EarlyOnes(DependencyGraph(w), positions, |w|)| == |breaks|
    ensures |breaks| <= |EarlyOnes(DependencyGraph(w), other, |w|)|
    ensures forall k, l, q :: 0 <= k < l < |breaks| ==> !(q in breaks[k].cycle && q in breaks[l].cycle)
  {
    var g := DependencyGraph(w);
    forall h, h', p | Blocks(g, h, p) && Blocks(g, h', p) ensures h == h' {
      var s := SlotOf(w[p].after).value;
      assert Leaves(w[h], s) && Leaves(w[h'], s);
    }
    EarlyAreBreaks(g, positions, |w|, breaks);
    NoOrderIsBetter(g, positions, other, |w|, breaks);
    forall k, l, q | 0 <= k < l < |breaks| ensures !(q in breaks[k].cycle && q in breaks[l].cycle) {
      DisjointCycles(g, positions, breaks[k], breaks[l], q);
    }
  }

  lemma SlotOfTick(t: nat)
    requires t < TENTHS_EXACT && FromTicks(t).Some?
    ensures SlotOf(FromTicks(t).value) == Some(Tick(t))
  {
    if t % 10 == 0 {
      var n := t / 10;
      var r := WholeStaysWhole(n, 0);
      Pow2Large();
      var s := WholeStaysWhole(t, 0);
      assert n as real * 10.0 == t as real;
      RoundWhole(t);
    } else {
      QuotientSign(t, t);
      var v := Magnitude(t as real / 10.0, 0);
      RoundTrip(t);
      var h := TickAndBack(t, 0);
      if v >= EXACT_INTEGER_FLOOR { TopQuotient(t); }
    }
  }

  lemma Pow2Large()
    ensures Pow2(1024) as real > TWO_53 as real
  {
    Pow2Of57();
    Pow2Grows(57, 1024);
  }

  /** Below 2^49 two tenths share a slot only if they are the same tenth. */
  lemma TenthsHaveOwnSlots(t: nat, u: nat)
    requires t < TENTHS_EXACT && u < TENTHS_EXACT && FromTicks(t).Some? && FromTicks(u).Some?
    ensures SameChannelNumber(FromTicks(t).value, FromTicks(u).value) <==> t == u
  {
    SlotOfTick(t);
    SlotOfTick(u);
  }
}
