/** The record of the channel numbers a run has changed, and the writes that put them back
    (`NumberingCompensator` in backend/channel_number_apply.py). */
module NumberingCompensation {
  import opened Common
  import opened ChannelNumber
  import opened WriteScheduler
  import opened NumberingApply

  /** The number each channel had before the first of these writes to it. */
  function FirstBefore(landed: seq<NumberingWrite>): map<int, Value> {
    if landed == [] then map[] else
      var first := FirstBefore(landed[..|landed| - 1]);
      var write := landed[|landed| - 1];
      if write.channelId in first then first else first[write.channelId := write.before]
  }

  lemma FirstBeforeGrows(landed: seq<NumberingWrite>, write: NumberingWrite)
    ensures FirstBefore(landed + [write]) ==
      if write.channelId in FirstBefore(landed) then FirstBefore(landed)
      else FirstBefore(landed)[write.channelId := write.before]
  {
    assert (landed + [write])[..|landed|] == landed;
  }

  function Restore(write: NumberingWrite, first: map<int, Value>): NumberingWrite {
    NumberingWrite(write.channelId, write.name, write.after,
                   if write.channelId in first then first[write.channelId] else Null)
  }

  /** One step for each channel not yet `seen`, newest first. */
  function StepsFrom(landed: seq<NumberingWrite>, first: map<int, Value>, seen: set<int>): (steps: seq<NumberingWrite>)
    ensures forall k :: 0 <= k < |steps| ==> steps[k].Moves() && steps[k].channelId !in seen
    ensures forall k, l :: 0 <= k < l < |steps| ==> steps[k].channelId != steps[l].channelId
  {
    if landed == [] then [] else
      var earlier, write := landed[..|landed| - 1], landed[|landed| - 1];
      if write.channelId in seen then StepsFrom(earlier, first, seen) else
        var rest := StepsFrom(earlier, first, seen + {write.channelId});
        if Restore(write, first).Moves() then [Restore(write, first)] + rest else rest
  }

  function Steps(landed: seq<NumberingWrite>, failed: seq<NumberingWrite>): (steps: seq<NumberingWrite>)
    ensures forall k :: 0 <= k < |steps| ==> steps[k].Moves()
    ensures forall k, l :: 0 <= k < l < |steps| ==> steps[k].channelId != steps[l].channelId
  {
    if landed == [] || failed == [] then [] else StepsFrom(landed, FirstBefore(landed), {})
  }

  class NumberingCompensator {
    var landed: seq<NumberingWrite>
    var failed: seq<NumberingWrite>
    var firstBefore: map<int, Value>

    ghost predicate Valid()
      reads this
    {
      firstBefore == FirstBefore(landed)
    }

    constructor ()
      ensures Valid() && landed == [] && failed == []
    {
      landed, failed, firstBefore := [], [], map[];
    }

    method RecordLanded(channelId: int, name: string, before: Value, after: Value)
      requires Valid()
      modifies this
      ensures Valid() && failed == old(failed)
      ensures landed == old(landed) + [NumberingWrite(channelId, name, before, after)]
    {
      FirstBeforeGrows(landed, NumberingWrite(channelId, name, before, after));
      if channelId !in firstBefore {
        firstBefore := firstBefore[channelId := before];
      }
      landed := landed + [NumberingWrite(channelId, name, before, after)];
    }

    method RecordFailed(channelId: int, name: string, intended: Value)
      requires Valid()
      modifies this`failed
      ensures Valid()
      ensures failed == old(failed) +
        [NumberingWrite(channelId, name,
                        if channelId in FirstBefore(landed) then FirstBefore(landed)[channelId] else Null,
                        intended)]
    {
      var before := if channelId in firstBefore then firstBefore[channelId] else Null;
      failed := failed + [NumberingWrite(channelId, name, before, intended)];
    }

    predicate HalfApplied()
      reads this
    {
      landed != [] && failed != []
    }

    method CompensationSteps() returns (steps: seq<NumberingWrite>)
      requires Valid()
      ensures steps == Steps(landed, failed)
    {
      steps := [];
      if !HalfApplied() { return; }
      var seen: set<int> := {};
      var i := |landed|;
      assert landed[..i] == landed;
      while i > 0
        invariant 0 <= i <= |landed|
        invariant steps + StepsFrom(landed[..i], firstBefore, seen) == StepsFrom(landed, firstBefore, {})
      {
        assert landed[..i][..i - 1] == landed[..i - 1];
        i := i - 1;
        var write := landed[i];
        if write.channelId !in seen {
          seen := seen + {write.channelId};
          var restore := Restore(write, firstBefore);
          if restore.Moves() { steps := steps + [restore]; }
        }
      }
    }
  }

  // ----- which steps they are, of what landed alone

  /** The channel's first write, or its last one. */
  ghost predicate FirstTo(landed: seq<NumberingWrite>, f: nat, c: int) {
    f < |landed| && landed[f].channelId == c && forall k :: 0 <= k < f ==> landed[k].channelId != c
  }

  ghost predicate LastTo(landed: seq<NumberingWrite>, l: nat, c: int) {
    l < |landed| && landed[l].channelId == c && forall k :: l < k < |landed| ==> landed[k].channelId != c
  }

  /** `step` takes the channel of the write at `l`, its last, from where that left it to where the channel's first
      write found it, which is not the same place. */
  ghost predicate UndoneBy(landed: seq<NumberingWrite>, l: nat, step: NumberingWrite) {
    && l < |landed| && LastTo(landed, l, landed[l].channelId)
    && (exists f: nat :: FirstTo(landed, f, landed[l].channelId) && step.after == landed[f].before)
    && step.channelId == landed[l].channelId && step.name == landed[l].name && step.before == landed[l].after
    && !SamePosition(step.before, step.after)
  }

  ghost predicate Falls(at: seq<nat>) {
    forall i, j :: 0 <= i < j < |at| ==> at[j] < at[i]
  }

  /** The steps are those that undo a channel's writes, one a channel, the latest first. */
  ghost predicate UndoesAll(landed: seq<NumberingWrite>, steps: seq<NumberingWrite>, at: seq<nat>) {
    && |at| == |steps| && Falls(at)
    && (forall i :: 0 <= i < |at| ==> UndoneBy(landed, at[i], steps[i]))
    && forall l: nat, step: NumberingWrite :: UndoneBy(landed, l, step) ==> l in at
  }

  /** The same of the first `n` writes, to channels not `seen`, given what was there first. */
  ghost predicate UndoneAmong(landed: seq<NumberingWrite>, n: nat, first: map<int, Value>, seen: set<int>, l: nat)
    requires n <= |landed|
  {
    && l < n && landed[l].channelId !in seen && Restore(landed[l], first).Moves()
    && forall k :: l < k < n ==> landed[k].channelId != landed[l].channelId
  }

  ghost predicate UndoesSome(landed: seq<NumberingWrite>, n: nat, first: map<int, Value>, seen: set<int>,
                             steps: seq<NumberingWrite>, at: seq<nat>)
    requires n <= |landed|
  {
    && |at| == |steps| && Falls(at)
    && (forall i :: 0 <= i < |at| ==>
          UndoneAmong(landed, n, first, seen, at[i]) && steps[i] == Restore(landed[at[i]], first))
    && forall l: nat :: UndoneAmong(landed, n, first, seen, l) ==> l in at
  }

  lemma {:induction false} StepsUndo(landed: seq<NumberingWrite>, n: nat, first: map<int, Value>, seen: set<int>)
    returns (at: seq<nat>)
    requires n <= |landed|
    ensures UndoesSome(landed, n, first, seen, StepsFrom(landed[..n], first, seen), at)
  {
    if n == 0 { return []; }
    var write := landed[n - 1];
    assert landed[..n][..n - 1] == landed[..n - 1];
    if write.channelId in seen {
      at := StepsUndo(landed, n - 1, first, seen);
      assert forall l: nat :: UndoneAmong(landed, n, first, seen, l) <==> UndoneAmong(landed, n - 1, first, seen, l);
    } else {
      var more := seen + {write.channelId};
      var rest := StepsUndo(landed, n - 1, first, more);
      UndoOne(landed, n, first, seen, StepsFrom(landed[..n - 1], first, more), rest);
      at := if Restore(write, first).Moves() then [n - 1] + rest else rest;
    }
  }

  lemma UndoOne(landed: seq<NumberingWrite>, n: nat, first: map<int, Value>, seen: set<int>,
                steps: seq<NumberingWrite>, rest: seq<nat>)
    requires 0 < n <= |landed| && landed[n - 1].channelId !in seen
    requires UndoesSome(landed, n - 1, first, seen + {landed[n - 1].channelId}, steps, rest)
    ensures var step := Restore(landed[n - 1], first);
            if step.Moves() then UndoesSome(landed, n, first, seen, [step] + steps, [n - 1] + rest)
            else UndoesSome(landed, n, first, seen, steps, rest)
  {
    var step, more := Restore(landed[n - 1], first), seen + {landed[n - 1].channelId};
    forall l: nat
      ensures UndoneAmong(landed, n, first, seen, l) <==>
                UndoneAmong(landed, n - 1, first, more, l) || (l == n - 1 && step.Moves())
    {
      OneMoreAmong(landed, n, first, seen, l);
    }
    if step.Moves() {
      var at, all := [n - 1] + rest, [step] + steps;
      assert at[0] == n - 1;
      forall i | 0 <= i < |at|
        ensures UndoneAmong(landed, n, first, seen, at[i]) && all[i] == Restore(landed[at[i]], first)
      {
        if i > 0 { assert at[i] == rest[i - 1] && all[i] == steps[i - 1]; }
      }
      forall l: nat | UndoneAmong(landed, n, first, seen, l) ensures l in at {
        if l != n - 1 { assert l in rest; }
      }
    }
  }

  lemma OneMoreAmong(landed: seq<NumberingWrite>, n: nat, first: map<int, Value>, seen: set<int>, l: nat)
    requires 0 < n <= |landed| && landed[n - 1].channelId !in seen
    ensures UndoneAmong(landed, n, first, seen, l) <==>
              || UndoneAmong(landed, n - 1, first, seen + {landed[n - 1].channelId}, l)
              || (l == n - 1 && Restore(landed[n - 1], first).Moves())
  {
  }

  lemma {:induction false} FirstBeforeIs(landed: seq<NumberingWrite>, c: int)
    ensures c in FirstBefore(landed) <==> exists f: nat :: FirstTo(landed, f, c)
    ensures forall f: nat :: FirstTo(landed, f, c) ==>
              c in FirstBefore(landed) && FirstBefore(landed)[c] == landed[f].before
  {
    if landed != [] {
      var n := |landed| - 1;
      var earlier := landed[..n];
      FirstBeforeIs(earlier, c);
      forall f: nat ensures FirstTo(earlier, f, c) <==> f < n && FirstTo(landed, f, c) {}
      if c !in FirstBefore(earlier) && landed[n].channelId == c { FirstThere(landed, n, c); }
    }
  }

  lemma {:induction false} FirstThere(landed: seq<NumberingWrite>, n: nat, c: int)
    requires n < |landed| && landed[n].channelId == c && forall f: nat :: f < n ==> !FirstTo(landed, f, c)
    ensures FirstTo(landed, n, c)
  {
    if k :| 0 <= k < n && landed[k].channelId == c { FirstThere(landed, k, c); }
  }

  /** With some write landed and some failed, the steps take each channel that is not where its first write found
      it back there, from where its last one left it, and are in the order of those last writes, the latest
      first; else there are none. */
  lemma StepsAre(landed: seq<NumberingWrite>, failed: seq<NumberingWrite>) returns (at: seq<nat>)
    ensures failed == [] ==> Steps(landed, failed) == []
    ensures failed != [] ==> UndoesAll(landed, Steps(landed, failed), at)
  {
    var n, first := |landed|, FirstBefore(landed);
    assert landed[..n] == landed;
    at := StepsUndo(landed, n, first, {});
    forall l: nat, step: NumberingWrite
      ensures UndoneBy(landed, l, step) <==>
                UndoneAmong(landed, n, first, {}, l) && step == Restore(landed[l], first)
    {
      UndoneIff(landed, l, step);
    }
  }

  lemma UndoneIff(landed: seq<NumberingWrite>, l: nat, step: NumberingWrite)
    ensures UndoneBy(landed, l, step) <==>
              UndoneAmong(landed, |landed|, FirstBefore(landed), {}, l) &&
              step == Restore(landed[l], FirstBefore(landed))
  {
    if l < |landed| {
      FirstBeforeIs(landed, landed[l].channelId);
      MovesIff(Restore(landed[l], FirstBefore(landed)));
      FirstBeforeDomain(landed, l);
    }
  }

  // ----- the lineup

  type Lineup = map<int, Value>

  function Apply(lineup: Lineup, writes: seq<NumberingWrite>): Lineup {
    if writes == [] then lineup
    else Apply(lineup, writes[..|writes| - 1])[writes[|writes| - 1].channelId := writes[|writes| - 1].after]
  }

  /** What a run recorded: each channel's first write says where the channel was before the run. */
  ghost predicate Truthful(lineup: Lineup, landed: seq<NumberingWrite>) {
    forall c :: c in FirstBefore(landed) ==> c in lineup && FirstBefore(landed)[c] == lineup[c]
  }

  predicate SamePlace(a: Value, b: Value) {
    a == b || SameChannelNumber(a, b)
  }

  lemma {:induction false} FirstBeforeDomain(landed: seq<NumberingWrite>, k: nat)
    requires k < |landed|
    ensures landed[k].channelId in FirstBefore(landed)
  {
    if k < |landed| - 1 { FirstBeforeDomain(landed[..|landed| - 1], k); }
  }

  lemma {:induction false} ApplyStep(lineup: Lineup, write: NumberingWrite, rest: seq<NumberingWrite>)
    ensures Apply(lineup, [write] + rest) == Apply(lineup[write.channelId := write.after], rest)
  {
    var all := [write] + rest;
    if rest == [] {
      assert all[..0] == [];
    } else {
      assert all[..|all| - 1] == [write] + rest[..|rest| - 1];
      ApplyStep(lineup, write, rest[..|rest| - 1]);
    }
  }

  /** The newest of these writes to a channel. */
  function Newest(landed: seq<NumberingWrite>, c: int): Option<NumberingWrite> {
    if landed == [] then None
    else if landed[|landed| - 1].channelId == c then Some(landed[|landed| - 1])
    else Newest(landed[..|landed| - 1], c)
  }

  lemma {:induction false} ApplyNewest(lineup: Lineup, landed: seq<NumberingWrite>, c: int)
    ensures Newest(landed, c).Some? ==>
              c in Apply(lineup, landed) && Apply(lineup, landed)[c] == Newest(landed, c).value.after
    ensures Newest(landed, c).None? ==> (c in Apply(lineup, landed) <==> c in lineup)
    ensures Newest(landed, c).None? && c in lineup ==> Apply(lineup, landed)[c] == lineup[c]
    ensures Newest(landed, c).None? <==> c !in FirstBefore(landed)
  {
    if landed != [] { ApplyNewest(lineup, landed[..|landed| - 1], c); }
  }

  /** Replaying the steps puts each channel written and not `seen` back, and touches no other. */
  lemma {:induction false} ReplaySteps(base: Lineup, landed: seq<NumberingWrite>, first: map<int, Value>,
                                       seen: set<int>, c: int)
    requires forall d :: Newest(landed, d).Some? ==> d in first
    requires forall d :: Newest(landed, d).Some? && d !in seen ==> d in base && base[d] == Newest(landed, d).value.after
    ensures var end := Apply(base, StepsFrom(landed, first, seen));
            if Newest(landed, c).Some? && c !in seen then c in end && SamePlace(end[c], first[c])
            else (c in end <==> c in base) && (c in base ==> end[c] == base[c])
  {
    if landed != [] {
      var earlier, write := landed[..|landed| - 1], landed[|landed| - 1];
      var d := write.channelId;
      assert Newest(landed, d) == Some(write);
      forall e | Newest(earlier, e).Some?
        ensures Newest(landed, e).Some? && (e != d ==> Newest(landed, e) == Newest(earlier, e)) {}
      if d in seen {
        ReplaySteps(base, earlier, first, seen, c);
      } else if Restore(write, first).Moves() {
        var after := base[d := first[d]];
        ReplaySteps(after, earlier, first, seen + {d}, c);
        ApplyStep(base, Restore(write, first), StepsFrom(earlier, first, seen + {d}));
      } else {
        ReplaySteps(base, earlier, first, seen + {d}, c);
      }
    }
  }

  /** After a run that stopped half way, the steps leave every channel on the number it had before
      the run, and channels the run did not write as they are. */
  lemma CompensationRestores(lineup: Lineup, landed: seq<NumberingWrite>, failed: seq<NumberingWrite>, c: int)
    requires Truthful(lineup, landed) && failed != [] && c in lineup
    ensures var end := Apply(Apply(lineup, landed), Steps(landed, failed));
            c in end && SamePlace(end[c], lineup[c])
  {
    var reached, first := Apply(lineup, landed), FirstBefore(landed);
    forall d ensures Newest(landed, d).Some? ==>
                       d in first && d in reached && reached[d] == Newest(landed, d).value.after
    {
      ApplyNewest(lineup, landed, d);
    }
    ApplyNewest(lineup, landed, c);
    if landed != [] { ReplaySteps(reached, landed, first, {}, c); }
  }

  // ----- the undo is the forward order in reverse

  /** The write at `i` lands on a number the later one at `j` has yet to vacate. */
  predicate Conflict(writes: seq<NumberingWrite>, i: int, j: int) {
    0 <= i < j < |writes| && LandsOnHolder(writes[i], writes[j])
  }

  function MovingOnly(writes: seq<NumberingWrite>): (moving: seq<NumberingWrite>) {
    if writes == [] then [] else
      var earlier := MovingOnly(writes[..|writes| - 1]);
      if writes[|writes| - 1].Moves() then earlier + [writes[|writes| - 1]] else earlier
  }

  ghost predicate OneWriteEach(landed: seq<NumberingWrite>) {
    forall i, j :: 0 <= i < j < |landed| ==> landed[i].channelId != landed[j].channelId
  }

  /** `steps` are the inverses of `moving`, last first. */
  ghost predicate Reverses(moving: seq<NumberingWrite>, steps: seq<NumberingWrite>) {
    && |steps| == |moving|
    && forall k :: 0 <= k < |steps| ==> steps[k] == moving[|moving| - 1 - k].Inverse()
  }

  lemma {:induction false} FirstBeforeOnce(landed: seq<NumberingWrite>, k: nat)
    requires OneWriteEach(landed) && k < |landed|
    ensures landed[k].channelId in FirstBefore(landed) && FirstBefore(landed)[landed[k].channelId] == landed[k].before
    ensures forall c :: c in FirstBefore(landed) ==> exists j :: 0 <= j < |landed| && landed[j].channelId == c
  {
    var earlier := landed[..|landed| - 1];
    if k < |earlier| {
      FirstBeforeOnce(earlier, k);
    } else if earlier != [] {
      FirstBeforeOnce(earlier, 0);
    }
    forall c | c in FirstBefore(earlier) ensures exists j :: 0 <= j < |landed| && landed[j].channelId == c {
      if earlier != [] {
        FirstBeforeOnce(earlier, 0);
        var j :| 0 <= j < |earlier| && earlier[j].channelId == c;
        assert landed[j].channelId == c;
      }
    }
  }

  lemma {:induction false} StepsReverse(landed: seq<NumberingWrite>, first: map<int, Value>, seen: set<int>)
    requires OneWriteEach(landed)
    requires forall k :: 0 <= k < |landed| ==>
      landed[k].channelId !in seen && landed[k].channelId in first && first[landed[k].channelId] == landed[k].before
    ensures Reverses(MovingOnly(landed), StepsFrom(landed, first, seen))
  {
    if landed != [] {
      var earlier, write := landed[..|landed| - 1], landed[|landed| - 1];
      assert forall k :: 0 <= k < |earlier| ==> earlier[k] == landed[k];
      StepsReverse(earlier, first, seen + {write.channelId});
      assert Restore(write, first) == write.Inverse();
      assert write.Inverse().Moves() <==> write.Moves();
    }
  }

  /** One write to a channel: the steps are the moving writes' inverses, newest first. */
  lemma OneWriteEachReversed(landed: seq<NumberingWrite>, failed: seq<NumberingWrite>)
    requires OneWriteEach(landed) && failed != []
    ensures Reverses(MovingOnly(landed), Steps(landed, failed))
  {
    if landed != [] {
      forall k | 0 <= k < |landed|
        ensures landed[k].channelId in FirstBefore(landed) &&
                FirstBefore(landed)[landed[k].channelId] == landed[k].before
      {
        FirstBeforeOnce(landed, k);
      }
      StepsReverse(landed, FirstBefore(landed), {});
    }
  }

  lemma {:induction false} MovingMove(writes: seq<NumberingWrite>, k: nat)
    requires k < |MovingOnly(writes)|
    ensures MovingOnly(writes)[k].Moves() && MovingOnly(writes)[k] in writes
  {
    if k < |MovingOnly(writes[..|writes| - 1])| { MovingMove(writes[..|writes| - 1], k); }
  }

  lemma MovesBack(write: NumberingWrite)
    ensures write.Inverse().Moves() <==> write.Moves()
  {
  }

  /** A step lands on a number another step has yet to vacate exactly where, going forward, the other
      write landed on a number this one had yet to vacate. */
  lemma CompensationDuality(landed: seq<NumberingWrite>, failed: seq<NumberingWrite>, i: int, j: int)
    requires OneWriteEach(landed) && failed != []
    requires 0 <= i < j < |MovingOnly(landed)|
    ensures var moving, steps := MovingOnly(landed), Steps(landed, failed);
            && |steps| == |moving|
            && (Conflict(moving, i, j) <==> Conflict(steps, |moving| - 1 - j, |moving| - 1 - i))
  {
    OneWriteEachReversed(landed, failed);
    var moving, steps := MovingOnly(landed), Steps(landed, failed);
    MovingMove(landed, i);
    MovingMove(landed, j);
    ReversedConflict(moving, steps, i, j);
  }

  lemma ReversedConflict(moving: seq<NumberingWrite>, steps: seq<NumberingWrite>, i: int, j: int)
    requires Reverses(moving, steps) && 0 <= i < j < |moving| && moving[i].Moves() && moving[j].Moves()
    ensures |steps| == |moving|
    ensures Conflict(moving, i, j) <==> Conflict(steps, |moving| - 1 - j, |moving| - 1 - i)
  {
    var n := |moving| - 1;
    assert steps[n - j] == moving[j].Inverse() && steps[n - i] == moving[i].Inverse();
    MirroredConflict(moving[i], moving[j]);
  }

  lemma MirroredConflict(early: NumberingWrite, late: NumberingWrite)
    requires early.Moves() && late.Moves()
    ensures LandsOnHolder(early, late) <==> LandsOnHolder(late.Inverse(), early.Inverse())
  {
    MovesBack(early);
  }

  lemma {:induction false} MovingEmbeds(writes: seq<NumberingWrite>, i: int, j: int) returns (i': int, j': int)
    requires 0 <= i < j < |MovingOnly(writes)|
    ensures 0 <= i' < j' < |writes|
    ensures writes[i'] == MovingOnly(writes)[i] && writes[j'] == MovingOnly(writes)[j]
  {
    var earlier := writes[..|writes| - 1];
    if j < |MovingOnly(earlier)| {
      i', j' := MovingEmbeds(earlier, i, j);
    } else {
      MovingMove(earlier, i);
      i' :| 0 <= i' < |earlier| && earlier[i'] == MovingOnly(earlier)[i];
      j' := |writes| - 1;
    }
  }

  /** What landed: the writes at ascending places of an order. */
  ghost predicate LandedAt(placed: seq<NumberingWrite>, places: seq<int>, landed: seq<NumberingWrite>) {
    && Ascending(places) && |landed| == |places|
    && forall k :: 0 <= k < |places| ==> 0 <= places[k] < |placed| && landed[k] == placed[places[k]]
  }

  /** Whatever part of an order landed, only a break among it lands on a number still held. */
  lemma LandedConflictIsBreak(w: seq<NumberingWrite>, positions: seq<int>, placed: seq<NumberingWrite>,
                              breaks: seq<Break>, places: seq<int>, landed: seq<NumberingWrite>, i: int, j: int)
    requires IsPermutation(positions, |w|) && Follows(w, positions, placed)
    requires SafeButFor(DependencyGraph(w), positions, breaks)
    requires LandedAt(placed, places, landed) && Conflict(landed, i, j)
    ensures BreaksAt(breaks, positions[places[i]])
  {
    var g := DependencyGraph(w);
    var a, b := places[i], places[j];
    assert Blocks(g, positions[b], positions[a]);
    assert positions[b] !in positions[..a];
    assert TooEarly(g, positions, a);
  }

  /** With no break landed the undo never puts a channel on a number another step has yet to vacate. */
  lemma UndoIsSafe(w: seq<NumberingWrite>, positions: seq<int>, placed: seq<NumberingWrite>, breaks: seq<Break>,
                   places: seq<int>, landed: seq<NumberingWrite>, failed: seq<NumberingWrite>, k: int, l: int)
    requires IsPermutation(positions, |w|) && Follows(w, positions, placed)
    requires SafeButFor(DependencyGraph(w), positions, breaks)
    requires LandedAt(placed, places, landed) && OneWriteEach(landed)
    requires forall i :: 0 <= i < |places| ==> !BreaksAt(breaks, positions[places[i]])
    ensures !Conflict(Steps(landed, failed), k, l)
  {
    if Conflict(Steps(landed, failed), k, l) {
      OneWriteEachReversed(landed, failed);
      var n := |MovingOnly(landed)|;
      CompensationDuality(landed, failed, n - 1 - l, n - 1 - k);
      var i, j := MovingEmbeds(landed, n - 1 - l, n - 1 - k);
      LandedConflictIsBreak(w, positions, placed, breaks, places, landed, i, j);
    }
  }

  /** Two channels that swapped numbers, a break of a cycle, are put back by steps of which the first lands on
      the number the second has yet to vacate. */
  lemma SwapUndoneUnsafely(c: int, d: int, a: Value, b: Value, failed: seq<NumberingWrite>)
    requires c != d && failed != [] && SlotOf(a).Some? && SlotOf(b).Some? && SlotOf(a) != SlotOf(b)
    ensures Conflict(Steps([NumberingWrite(c, "", a, b), NumberingWrite(d, "", b, a)], failed), 0, 1)
  {
    var landed := [NumberingWrite(c, "", a, b), NumberingWrite(d, "", b, a)];
    assert landed[..1] == [landed[0]] && [landed[0]][..0] == [];
    assert landed[0].Moves() && landed[1].Moves();
    assert MovingOnly([landed[0]]) == [landed[0]];
    assert MovingOnly(landed) == landed;
    assert Conflict(landed, 0, 1);
    CompensationDuality(landed, failed, 0, 1);
  }
}
