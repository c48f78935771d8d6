/** What the final lineup holds, said of the channels that exist and the operations alone
    (`build_final_numbering_state` in backend/channel_number_plan.py). */
module FinalLineup {
  import opened Common
  import opened ChannelNumber
  import opened Binary64
  import opened NumberingApply
  import opened NumberingPlan
  import NumberingConsent

  // ----- what one operation says of a channel

  ghost predicate Creates(op: Operation, c: int) {
    op.CreateChannel? && op.tempId == c
  }

  ghost predicate Deletes(op: Operation, c: int) {
    op.DeleteChannel? && op.channelId == c
  }

  /** `value` is `start` and `offset` more, a missing start being 1; a float's sum is rounded. */
  ghost predicate IsOffset(start: Value, offset: nat, value: Value) {
    match start
    case Null => value == Int(1 + offset)
    case Int(n) => value == Int(n + offset)
    case Float(x) => value == Float(Fl(x + offset as real))
    case _ => value == Other
  }

  ghost predicate LastAt(ids: seq<int>, o: nat, c: int) {
    o < |ids| && ids[o] == c && forall k :: o < k < |ids| ==> ids[k] != c
  }

  /** The number that the operation leaves a channel on which it gives one to. */
  ghost predicate Leaves(op: Operation, c: int, value: Value) {
    || (op.UpdateChannel? && op.channelId == c && op.number == Some(value))
    || (op.CreateChannel? && op.tempId == c && op.createNumber == value)
    || (op.AssignNumbers? && exists o: nat :: LastAt(op.channelIds, o, c) && IsOffset(op.start, o, value))
  }

  /** How often the operation gives a number to the channel: a range does for each time that it lists it. */
  ghost function Times(op: Operation, c: int): nat {
    match op
    case UpdateChannel(id, number, _) => if id == c && number.Some? then 1 else 0
    case CreateChannel(id, _, _) => if id == c then 1 else 0
    case AssignNumbers(ids, _, _) => |set o: nat | o < |ids| && ids[o] == c|
    case _ => 0
  }

  /** What the operation says the caller accepted, if its number has a slot. */
  ghost predicate Accepts(op: Operation, consent: Option<Consent>) {
    if (op.UpdateChannel? || op.CreateChannel? || op.AssignNumbers?) && op.acknowledged.Some? &&
       SlotOf(op.acknowledged.value.number).Some?
    then consent.Some? && Some(consent.value.slot) == SlotOf(op.acknowledged.value.number) &&
         consent.value.occupants == op.acknowledged.value.occupants
    else consent.None?
  }

  // ----- the channels of the final lineup

  /** The entry at `a`: the channels that exist, then what each operation creates. */
  ghost predicate EntryIs(existing: seq<Existing>, ops: seq<Operation>, a: nat, c: int) {
    || (a < |existing| && existing[a].id == Some(c))
    || (|existing| <= a < |existing| + |ops| && Creates(ops[a - |existing|], c))
  }

  /** A later operation deletes the entry. */
  ghost predicate DeletedAfter(existing: seq<Existing>, ops: seq<Operation>, a: nat, c: int) {
    exists n :: 0 <= n < |ops| && a < |existing| + n && Deletes(ops[n], c)
  }

  ghost predicate Survives(existing: seq<Existing>, ops: seq<Operation>, a: nat, c: int) {
    EntryIs(existing, ops, a, c) && !DeletedAfter(existing, ops, a, c)
  }

  ghost predicate Rises(at: seq<nat>) {
    forall i, j :: 0 <= i < j < |at| ==> at[i] < at[j]
  }

  /** `ids` are those of the entries at `at`: the surviving ones, each once, in order. */
  ghost predicate SurvivorsInOrder(existing: seq<Existing>, ops: seq<Operation>, ids: seq<int>, at: seq<nat>) {
    && |ids| == |at|
    && Rises(at)
    && (forall i :: 0 <= i < |at| ==> Survives(existing, ops, at[i], ids[i]))
    && (forall a: nat, c: int :: Survives(existing, ops, a, c) ==> a in at)
  }

  lemma OneEntry(existing: seq<Existing>, ops: seq<Operation>, a: nat, c: int, d: int)
    requires EntryIs(existing, ops, a, c) && EntryIs(existing, ops, a, d)
    ensures c == d
  {
  }

  // ----- one channel's placement

  /** The channel is the one that operation `b` created, and nothing has created or deleted it since. */
  ghost predicate BornAt(ops: seq<Operation>, b: nat, c: int) {
    b < |ops| && Creates(ops[b], c) && Untouched(ops, b + 1, c)
  }

  ghost predicate Untouched(ops: seq<Operation>, b: nat, c: int) {
    forall n :: b <= n < |ops| ==> !Creates(ops[n], c) && !Deletes(ops[n], c)
  }

  /** The number of the channel in the lineup as it is: the last entry's, should it have several. */
  ghost predicate BaseIs(existing: seq<Existing>, c: int, value: Value) {
    exists e ::
      0 <= e < |existing| && existing[e] == Existing(Some(c), value) &&
      forall k :: e < k < |existing| ==> existing[k].id != Some(c)
  }

  ghost predicate NeverFalls(touches: seq<nat>) {
    forall i, j :: 0 <= i < j < |touches| ==> touches[i] <= touches[j]
  }

  /** The operations from `b` on that gave the channel a number, in order, each as often as it did. */
  ghost predicate TouchesAre(ops: seq<Operation>, b: nat, c: int, touches: seq<nat>) {
    && NeverFalls(touches)
    && forall n: nat :: multiset(touches)[n] == if b <= n < |ops| then Times(ops[n], c) else 0
  }

  /** What the last of them left. */
  ghost predicate LastLeft(ops: seq<Operation>, p: Placement) {
    if p.touchedBy == [] then p.number == p.baseNumber && p.consent.None?
    else
      var n := p.touchedBy[|p.touchedBy| - 1];
      n < |ops| && Leaves(ops[n], p.channelId, p.number) && Accepts(ops[n], p.consent)
  }

  ghost predicate NewFrom(ops: seq<Operation>, b: nat, p: Placement) {
    p.isNew && p.baseNumber == Null && BornAt(ops, b, p.channelId) && TouchesAre(ops, b, p.channelId, p.touchedBy)
  }

  ghost predicate OldFrom(existing: seq<Existing>, ops: seq<Operation>, p: Placement) {
    && !p.isNew && BaseIs(existing, p.channelId, p.baseNumber) && Untouched(ops, 0, p.channelId)
    && TouchesAre(ops, 0, p.channelId, p.touchedBy)
  }

  /** A created channel has no number to start with and is touched from its creation on; one that was there
      starts on its number. */
  ghost predicate PlacementIs(existing: seq<Existing>, ops: seq<Operation>, p: Placement) {
    LastLeft(ops, p) && (OldFrom(existing, ops, p) || exists b: nat :: NewFrom(ops, b, p))
  }

  // ----- which entries survive

  /** One more entry survives, after the others. */
  lemma OneMoreEntry(existing: seq<Existing>, ops: seq<Operation>, existing': seq<Existing>, ops': seq<Operation>,
                     ids: seq<int>, at: seq<nat>, a0: nat, c0: int)
    requires SurvivorsInOrder(existing, ops, ids, at) && forall i :: 0 <= i < |at| ==> at[i] < a0
    requires forall a: nat, c: int ::
               Survives(existing', ops', a, c) <==> Survives(existing, ops, a, c) || (a == a0 && c == c0)
    ensures SurvivorsInOrder(existing', ops', ids + [c0], at + [a0])
  {
    var ids', at' := ids + [c0], at + [a0];
    forall i | 0 <= i < |at'| ensures Survives(existing', ops', at'[i], ids'[i]) {
      if i < |at| { assert Survives(existing, ops, at[i], ids[i]); }
    }
    forall a: nat, c: int | Survives(existing', ops', a, c) ensures a in at' {
      if a != a0 { assert Survives(existing, ops, a, c); } else { assert at'[|at|] == a0; }
    }
  }

  lemma SameEntries(existing: seq<Existing>, ops: seq<Operation>, existing': seq<Existing>, ops': seq<Operation>,
                    ids: seq<int>, at: seq<nat>)
    requires SurvivorsInOrder(existing, ops, ids, at)
    requires forall a: nat, c: int :: Survives(existing', ops', a, c) <==> Survives(existing, ops, a, c)
    ensures SurvivorsInOrder(existing', ops', ids, at)
  {
  }

  ghost predicate IsPair(ids: seq<int>, at: seq<nat>, a: nat, c: int) {
    exists j :: 0 <= j < |ids| && j < |at| && ids[j] == c && at[j] == a
  }

  /** What is left of a list of ids, and of where they came from, once one id is removed. */
  ghost predicate Thinned(ids: seq<int>, at: seq<nat>, x: int, at': seq<nat>) {
    Rises(at') && AreLeft(ids, at, x, Remove(ids, x), at') && AllLeft(ids, at, x, at')
  }

  ghost predicate AreLeft(ids: seq<int>, at: seq<nat>, x: int, ids': seq<int>, at': seq<nat>) {
    |at'| == |ids'| && forall i :: 0 <= i < |at'| ==> IsPair(ids, at, at'[i], ids'[i]) && ids'[i] != x
  }

  ghost predicate AllLeft(ids: seq<int>, at: seq<nat>, x: int, at': seq<nat>) {
    forall a: nat, c: int :: IsPair(ids, at, a, c) && c != x ==> a in at'
  }

  lemma {:induction false} Thin(ids: seq<int>, at: seq<nat>, x: int) returns (at': seq<nat>)
    requires |ids| == |at| && Rises(at)
    ensures Thinned(ids, at, x, at')
  {
    if ids == [] { return []; }
    assert Rises(at[1..]);
    var rest := Thin(ids[1..], at[1..], x);
    TailPairs(ids, at);
    if ids[0] == x {
      at' := rest;
    } else {
      at' := [at[0]] + rest;
      StillRises(ids, at, x, rest);
      StillLeft(ids, at, x, Remove(ids[1..], x), rest);
    }
  }

  lemma TailPairs(ids: seq<int>, at: seq<nat>)
    requires |ids| == |at| && ids != []
    ensures forall a: nat, c: int ::
              IsPair(ids, at, a, c) <==> (a == at[0] && c == ids[0]) || IsPair(ids[1..], at[1..], a, c)
  {
    forall a: nat, c: int
      ensures IsPair(ids, at, a, c) <==> (a == at[0] && c == ids[0]) || IsPair(ids[1..], at[1..], a, c)
    {
      if j :| 0 <= j < |ids| && ids[j] == c && at[j] == a {
        if j > 0 { assert ids[1..][j - 1] == c && at[1..][j - 1] == a; }
      }
      if j :| 0 <= j < |ids| - 1 && ids[1..][j] == c && at[1..][j] == a {
        assert ids[j + 1] == c && at[j + 1] == a;
      }
    }
  }

  lemma StillRises(ids: seq<int>, at: seq<nat>, x: int, rest: seq<nat>)
    requires |ids| == |at| && ids != [] && Rises(at) && Thinned(ids[1..], at[1..], x, rest)
    ensures Rises([at[0]] + rest)
  {
    forall i | 0 <= i < |rest| ensures at[0] < rest[i] {
      assert IsPair(ids[1..], at[1..], rest[i], Remove(ids[1..], x)[i]);
      var j :| 0 <= j < |at| - 1 && at[1..][j] == rest[i];
      assert at[j + 1] == rest[i];
    }
  }

  lemma StillLeft(ids: seq<int>, at: seq<nat>, x: int, ids': seq<int>, rest: seq<nat>)
    requires |ids| == |at| && ids != [] && ids[0] != x
    requires AreLeft(ids[1..], at[1..], x, ids', rest)
    ensures AreLeft(ids, at, x, [ids[0]] + ids', [at[0]] + rest)
  {
    TailPairs(ids, at);
    var left, from := [ids[0]] + ids', [at[0]] + rest;
    forall i | 0 <= i < |from| ensures IsPair(ids, at, from[i], left[i]) && left[i] != x {
      if i > 0 { assert IsPair(ids[1..], at[1..], rest[i - 1], ids'[i - 1]); }
    }
  }

  /** A channel's entries are gone. */
  lemma EntriesGone(existing: seq<Existing>, ops: seq<Operation>, ops': seq<Operation>,
                    ids: seq<int>, at: seq<nat>, x: int) returns (at': seq<nat>)
    requires SurvivorsInOrder(existing, ops, ids, at)
    requires forall a: nat, c: int :: Survives(existing, ops', a, c) <==> Survives(existing, ops, a, c) && c != x
    ensures SurvivorsInOrder(existing, ops', Remove(ids, x), at')
    ensures forall a :: a in at' ==> a in at
  {
    at' := Thin(ids, at, x);
    PairsSurvive(existing, ops, ids, at);
    forall i | 0 <= i < |at'| ensures Survives(existing, ops', at'[i], Remove(ids, x)[i]) && at'[i] in at {
      assert IsPair(ids, at, at'[i], Remove(ids, x)[i]);
    }
  }

  lemma PairsSurvive(existing: seq<Existing>, ops: seq<Operation>, ids: seq<int>, at: seq<nat>)
    requires SurvivorsInOrder(existing, ops, ids, at)
    ensures forall a: nat, c: int :: Survives(existing, ops, a, c) <==> IsPair(ids, at, a, c)
  {
    forall a: nat, c: int ensures Survives(existing, ops, a, c) <==> IsPair(ids, at, a, c) {
      if Survives(existing, ops, a, c) {
        var j :| 0 <= j < |at| && at[j] == a;
        OneEntry(existing, ops, a, c, ids[j]);
      }
    }
  }

  lemma {:induction false} BeginOrder(existing: seq<Existing>) returns (at: seq<nat>)
    ensures SurvivorsInOrder(existing, [], Begin(existing).order, at)
    ensures forall i :: 0 <= i < |at| ==> at[i] < |existing|
  {
    if existing == [] { return []; }
    var n := |existing| - 1;
    at := BeginOrder(existing[..n]);
    MoreEntries(existing, n);
    if existing[n].id.None? {
      SameEntries(existing[..n], [], existing, [], Begin(existing[..n]).order, at);
    } else {
      OneMoreEntry(existing[..n], [], existing, [], Begin(existing[..n]).order, at, n, existing[n].id.value);
      at := at + [n];
    }
  }

  lemma MoreEntries(existing: seq<Existing>, n: nat)
    requires n + 1 == |existing|
    ensures forall a: nat, c: int :: Survives(existing, [], a, c) <==>
              Survives(existing[..n], [], a, c) || (a == n && existing[n].id == Some(c))
  {
  }

  lemma SurvivesStep(existing: seq<Existing>, ops: seq<Operation>, op: Operation, a: nat, c: int)
    ensures Survives(existing, ops + [op], a, c) <==>
              || (Survives(existing, ops, a, c) && !Deletes(op, c))
              || (a == |existing| + |ops| && Creates(op, c))
  {
    var ops' := ops + [op];
    assert ops'[|ops|] == op;
    assert forall n :: 0 <= n < |ops| ==> ops'[n] == ops[n];
    if EntryIs(existing, ops', a, c) && !DeletedAfter(existing, ops, a, c) {
      assert DeletedAfter(existing, ops', a, c) <==> a < |existing| + |ops| && Deletes(op, c);
    }
    if DeletedAfter(existing, ops, a, c) {
      var n :| 0 <= n < |ops| && a < |existing| + n && Deletes(ops[n], c);
      assert Deletes(ops'[n], c);
    }
  }

  // ----- one channel through one operation

  ghost function Repeat(n: nat, k: nat): (r: seq<nat>)
    ensures |r| == k && forall i :: 0 <= i < k ==> r[i] == n
  {
    if k == 0 then [] else Repeat(n, k - 1) + [n]
  }

  lemma {:induction false} RepeatCount(n: nat, k: nat)
    ensures multiset(Repeat(n, k)) == multiset{}[n := k]
  {
    if k > 0 { RepeatCount(n, k - 1); }
  }

  lemma TouchesMore(ops: seq<Operation>, b: nat, c: int, touches: seq<nat>, op: Operation)
    requires TouchesAre(ops, b, c, touches) && b <= |ops|
    ensures TouchesAre(ops + [op], b, c, touches + Repeat(|ops|, Times(op, c)))
  {
    var more: seq<nat> := Repeat(|ops|, Times(op, c));
    RepeatCount(|ops|, Times(op, c));
    forall i | 0 <= i < |touches| ensures touches[i] < |ops| {
      TouchedBefore(ops, b, c, touches, i);
    }
    StillNeverFalls(touches, |ops|, Times(op, c));
    forall n: nat ensures multiset(touches + more)[n] == if b <= n < |ops| + 1 then Times((ops + [op])[n], c) else 0 {
      assert multiset(touches + more)[n] == multiset(touches)[n] + multiset(more)[n];
    }
  }

  lemma StillNeverFalls(touches: seq<nat>, n: nat, k: nat)
    requires NeverFalls(touches) && forall i :: 0 <= i < |touches| ==> touches[i] < n
    ensures NeverFalls(touches + Repeat(n, k))
  {
  }

  lemma TouchedBefore(ops: seq<Operation>, b: nat, c: int, touches: seq<nat>, i: nat)
    requires TouchesAre(ops, b, c, touches) && i < |touches|
    ensures touches[i] < |ops|
  {
    assert multiset(touches)[touches[i]] > 0;
  }

  lemma LineageKept(existing: seq<Existing>, ops: seq<Operation>, op: Operation, p: Placement, p': Placement)
    requires PlacementIs(existing, ops, p) && !Creates(op, p.channelId) && !Deletes(op, p.channelId)
    requires p'.channelId == p.channelId && p'.isNew == p.isNew && p'.baseNumber == p.baseNumber
    requires p'.touchedBy == p.touchedBy + Repeat(|ops|, Times(op, p.channelId))
    ensures OldFrom(existing, ops + [op], p') || exists b: nat :: NewFrom(ops + [op], b, p')
  {
    if OldFrom(existing, ops, p) {
      TouchesMore(ops, 0, p.channelId, p.touchedBy, op);
      UntouchedMore(ops, 0, op, p.channelId);
    } else {
      var b: nat :| NewFrom(ops, b, p);
      TouchesMore(ops, b, p.channelId, p.touchedBy, op);
      UntouchedMore(ops, b + 1, op, p.channelId);
      assert (ops + [op])[b] == ops[b];
      assert NewFrom(ops + [op], b, p');
    }
  }

  lemma UntouchedMore(ops: seq<Operation>, b: nat, op: Operation, c: int)
    requires Untouched(ops, b, c) && !Creates(op, c) && !Deletes(op, c)
    ensures Untouched(ops + [op], b, c)
  {
    forall n | b <= n < |ops| + 1 ensures !Creates((ops + [op])[n], c) && !Deletes((ops + [op])[n], c) {
      if n < |ops| { assert (ops + [op])[n] == ops[n]; }
    }
  }

  lemma NotGiven(existing: seq<Existing>, ops: seq<Operation>, op: Operation, p: Placement)
    requires PlacementIs(existing, ops, p) && !Creates(op, p.channelId) && !Deletes(op, p.channelId)
    requires Times(op, p.channelId) == 0
    ensures PlacementIs(existing, ops + [op], p)
  {
    assert p.touchedBy + Repeat(|ops|, 0) == p.touchedBy;
    LineageKept(existing, ops, op, p, p);
  }

  lemma Given(existing: seq<Existing>, ops: seq<Operation>, op: Operation, p: Placement, p': Placement)
    requires PlacementIs(existing, ops, p) && !Creates(op, p.channelId) && !Deletes(op, p.channelId)
    requires p'.channelId == p.channelId && p'.isNew == p.isNew && p'.baseNumber == p.baseNumber
    requires p'.touchedBy == p.touchedBy + Repeat(|ops|, Times(op, p.channelId))
    requires Times(op, p.channelId) > 0 && Leaves(op, p.channelId, p'.number) && Accepts(op, p'.consent)
    ensures PlacementIs(existing, ops + [op], p')
  {
    LineageKept(existing, ops, op, p, p');
    assert p'.touchedBy[|p'.touchedBy| - 1] == |ops|;
  }

  lemma Created(existing: seq<Existing>, ops: seq<Operation>, op: Operation, p: Placement)
    requires op.CreateChannel? && Accepts(op, p.consent)
    requires p == Placement(op.tempId, op.createNumber, Null, true, [|ops|], p.consent)
    ensures PlacementIs(existing, ops + [op], p)
  {
    var ops' := ops + [op];
    assert ops'[|ops|] == op;
    assert multiset(p.touchedBy) == multiset{|ops|};
    assert TouchesAre(ops', |ops|, op.tempId, p.touchedBy);
    assert NewFrom(ops', |ops|, p);
  }

  ghost function OffsetsOf(ids: seq<int>, c: int): set<nat> {
    set o: nat | o < |ids| && ids[o] == c
  }

  lemma OffsetsGrow(ids: seq<int>, c: int)
    requires ids != []
    ensures var n := |ids| - 1;
            OffsetsOf(ids, c) == OffsetsOf(ids[..n], c) + if ids[n] == c then {n} else {}
    ensures |OffsetsOf(ids, c)| == |OffsetsOf(ids[..|ids| - 1], c)| + if ids[|ids| - 1] == c then 1 else 0
  {
    assert OffsetsOf(ids, c) == OffsetsOf(ids[..|ids| - 1], c) + if ids[|ids| - 1] == c then {|ids| - 1} else {};
  }

  /** What a range does to a channel that is in the lineup. */
  ghost predicate RangeGave(p: Placement, p': Placement, ids: seq<int>, start: Value, index: nat,
                            consent: Option<Consent>) {
    && p'.channelId == p.channelId && p'.isNew == p.isNew && p'.baseNumber == p.baseNumber
    && p'.touchedBy == p.touchedBy + Repeat(index, |OffsetsOf(ids, p.channelId)|)
    && if OffsetsOf(ids, p.channelId) == {} then p' == p
       else p'.consent == consent && exists o: nat :: LastAt(ids, o, p.channelId) && IsOffset(start, o, p'.number)
  }

  lemma {:induction false} RangeGives(lineup: Lineup, ids: seq<int>, start: Value, index: nat, d: Option<Consent>,
                                      c: int)
    requires c in lineup.byId && lineup.byId[c].channelId == c
    ensures var after := Assign(lineup, ids, start, index, d);
            c in after.byId && RangeGave(lineup.byId[c], after.byId[c], ids, start, index, d)
  {
    if ids == [] {
      var none := lineup.byId[c].touchedBy;
      assert OffsetsOf(ids, c) == {};
      assert none + Repeat(index, 0) == none;
    } else {
      var n := |ids| - 1;
      RangeGives(lineup, ids[..n], start, index, d, c);
      OffsetsGrow(ids, c);
      RangeGivesOne(lineup.byId[c], Assign(lineup, ids[..n], start, index, d).byId[c], ids, start, index, d);
    }
  }

  lemma RangeGivesOne(p: Placement, q: Placement, ids: seq<int>, start: Value, index: nat, d: Option<Consent>)
    requires ids != [] && RangeGave(p, q, ids[..|ids| - 1], start, index, d)
    ensures var n := |ids| - 1;
            RangeGave(p, if ids[n] != p.channelId then q
                         else q.(number := Plus(start, n), touchedBy := q.touchedBy + [index], consent := d),
                      ids, start, index, d)
  {
    OffsetsGrow(ids, p.channelId);
    if ids[|ids| - 1] == p.channelId {
      RangeEndsOn(p, q, ids, start, index, d);
    } else {
      RangeEndsElsewhere(p, q, ids, start, index, d);
    }
  }

  lemma RangeEndsOn(p: Placement, q: Placement, ids: seq<int>, start: Value, index: nat, d: Option<Consent>)
    requires ids != [] && ids[|ids| - 1] == p.channelId && RangeGave(p, q, ids[..|ids| - 1], start, index, d)
    requires |OffsetsOf(ids, p.channelId)| == |OffsetsOf(ids[..|ids| - 1], p.channelId)| + 1
    ensures RangeGave(p, q.(number := Plus(start, |ids| - 1), touchedBy := q.touchedBy + [index], consent := d),
                      ids, start, index, d)
  {
    var n := |ids| - 1;
    assert LastAt(ids, n, p.channelId) && IsOffset(start, n, Plus(start, n));
    Appended(p.touchedBy, Repeat(index, |OffsetsOf(ids[..n], p.channelId)|), [index]);
  }

  lemma RangeEndsElsewhere(p: Placement, q: Placement, ids: seq<int>, start: Value, index: nat, d: Option<Consent>)
    requires ids != [] && ids[|ids| - 1] != p.channelId && RangeGave(p, q, ids[..|ids| - 1], start, index, d)
    requires OffsetsOf(ids, p.channelId) == OffsetsOf(ids[..|ids| - 1], p.channelId)
    ensures RangeGave(p, q, ids, start, index, d)
  {
    var n, c := |ids| - 1, p.channelId;
    if OffsetsOf(ids, c) != {} {
      var o: nat :| LastAt(ids[..n], o, c) && IsOffset(start, o, q.number);
      assert LastAt(ids, o, c);
    }
  }

  lemma {:induction false} RangeKeeps(lineup: Lineup, ids: seq<int>, start: Value, index: nat, d: Option<Consent>)
    ensures var after := Assign(lineup, ids, start, index, d);
            after.order == lineup.order && after.byId.Keys == lineup.byId.Keys
  {
    if ids != [] { RangeKeeps(lineup, ids[..|ids| - 1], start, index, d); }
  }

  // ----- the state that the operations leave

  ghost predicate LineupIs(existing: seq<Existing>, ops: seq<Operation>, lineup: Lineup, at: seq<nat>) {
    && SurvivorsInOrder(existing, ops, lineup.order, at)
    && (forall c :: c in lineup.byId <==> c in lineup.order)
    && forall c :: c in lineup.byId ==> HeldAs(existing, ops, lineup.byId[c], c)
  }

  ghost predicate HeldAs(existing: seq<Existing>, ops: seq<Operation>, p: Placement, c: int) {
    p.channelId == c && PlacementIs(existing, ops, p)
  }

  lemma BeginPlacement(existing: seq<Existing>, c: int)
    ensures c in Begin(existing).byId <==> c in Begin(existing).order
    ensures c in Begin(existing).byId ==> HeldAs(existing, [], Begin(existing).byId[c], c)
  {
    if existing != [] {
      var n := |existing| - 1;
      BeginPlacement(existing[..n], c);
      if existing[n].id == Some(c) {
        assert existing[n] == Existing(Some(c), existing[n].number);
      } else if c in Begin(existing[..n]).byId {
        StillBase(existing, n, Begin(existing[..n]).byId[c]);
      }
    }
  }

  lemma StillBase(existing: seq<Existing>, n: nat, p: Placement)
    requires n + 1 == |existing| && PlacementIs(existing[..n], [], p) && existing[n].id != Some(p.channelId)
    ensures PlacementIs(existing, [], p)
  {
    var e :| 0 <= e < n && existing[..n][e] == Existing(Some(p.channelId), p.baseNumber) &&
             forall k :: e < k < n ==> existing[..n][k].id != Some(p.channelId);
    assert existing[e] == existing[..n][e];
    forall k | e < k < |existing| ensures existing[k].id != Some(p.channelId) {
      if k < n { assert existing[k] == existing[..n][k]; }
    }
  }

  lemma StepPlacement(existing: seq<Existing>, ops: seq<Operation>, lineup: Lineup, at: seq<nat>, op: Operation, c: int)
    requires LineupIs(existing, ops, lineup, at)
    requires c in Step(lineup, op, |ops|).byId
    ensures HeldAs(existing, ops + [op], Step(lineup, op, |ops|).byId[c], c)
  {
    var p := Step(lineup, op, |ops|).byId[c];
    match op
    case CreateChannel(id, number, ack) =>
      if id == c {
        Created(existing, ops, op, p);
      } else {
        assert HeldAs(existing, ops, lineup.byId[c], c);
        NotGiven(existing, ops, op, p);
      }
    case AssignNumbers(ids, start, ack) =>
      RangeKeeps(lineup, ids, start, |ops|, ConsentOf(ack));
      assert HeldAs(existing, ops, lineup.byId[c], c);
      RangePlacement(existing, ops, lineup, op, c);
    case UpdateChannel(id, number, ack) =>
      assert HeldAs(existing, ops, lineup.byId[c], c);
      if id == c && number.Some? {
        assert Repeat(|ops|, 1) == [|ops|];
        Given(existing, ops, op, lineup.byId[c], p);
      } else {
        NotGiven(existing, ops, op, p);
      }
    case _ =>
      assert HeldAs(existing, ops, lineup.byId[c], c);
      NotGiven(existing, ops, op, p);
  }

  lemma RangePlacement(existing: seq<Existing>, ops: seq<Operation>, lineup: Lineup, op: Operation, c: int)
    requires op.AssignNumbers? && c in lineup.byId && HeldAs(existing, ops, lineup.byId[c], c)
    ensures var after := Assign(lineup, op.channelIds, op.start, |ops|, ConsentOf(op.acknowledged));
            c in after.byId && HeldAs(existing, ops + [op], after.byId[c], c)
  {
    var d := ConsentOf(op.acknowledged);
    RangeGives(lineup, op.channelIds, op.start, |ops|, d, c);
    var p, p' := lineup.byId[c], Assign(lineup, op.channelIds, op.start, |ops|, d).byId[c];
    assert Times(op, c) == |OffsetsOf(op.channelIds, c)|;
    if OffsetsOf(op.channelIds, c) == {} {
      NotGiven(existing, ops, op, p);
    } else {
      Given(existing, ops, op, p, p');
    }
  }

  lemma StepOrder(existing: seq<Existing>, ops: seq<Operation>, lineup: Lineup, at: seq<nat>, op: Operation)
    returns (at': seq<nat>)
    requires LineupIs(existing, ops, lineup, at)
    ensures SurvivorsInOrder(existing, ops + [op], Step(lineup, op, |ops|).order, at')
  {
    forall a: nat, c: int
      ensures Survives(existing, ops + [op], a, c) <==>
                || (Survives(existing, ops, a, c) && !Deletes(op, c))
                || (a == |existing| + |ops| && Creates(op, c))
    {
      SurvivesStep(existing, ops, op, a, c);
    }
    at' := at;
    if op.CreateChannel? {
      forall i | 0 <= i < |at| ensures at[i] < |existing| + |ops| {
        assert Survives(existing, ops, at[i], lineup.order[i]);
      }
      OneMoreEntry(existing, ops, existing, ops + [op], lineup.order, at, |existing| + |ops|, op.tempId);
      at' := at + [|existing| + |ops|];
    } else if op.DeleteChannel? && op.channelId in lineup.byId {
      at' := EntriesGone(existing, ops, ops + [op], lineup.order, at, op.channelId);
    } else {
      if op.DeleteChannel? { NoneSurvives(existing, ops, lineup.order, at, op.channelId); }
      if op.AssignNumbers? { RangeKeeps(lineup, op.channelIds, op.start, |ops|, ConsentOf(op.acknowledged)); }
      SameEntries(existing, ops, existing, ops + [op], lineup.order, at);
    }
  }

  lemma NoneSurvives(existing: seq<Existing>, ops: seq<Operation>, ids: seq<int>, at: seq<nat>, c: int)
    requires SurvivorsInOrder(existing, ops, ids, at) && c !in ids
    ensures forall a: nat :: !Survives(existing, ops, a, c)
  {
    PairsSurvive(existing, ops, ids, at);
  }

  lemma StepKeys(lineup: Lineup, op: Operation, index: nat)
    requires forall c :: c in lineup.byId <==> c in lineup.order
    ensures forall c :: c in Step(lineup, op, index).byId <==> c in Step(lineup, op, index).order
  {
    if op.AssignNumbers? { RangeKeeps(lineup, op.channelIds, op.start, index, ConsentOf(op.acknowledged)); }
  }

  lemma {:induction false} RunIs(existing: seq<Existing>, ops: seq<Operation>) returns (at: seq<nat>)
    ensures LineupIs(existing, ops, Run(Begin(existing), ops), at)
  {
    if ops == [] {
      at := BeginOrder(existing);
      forall c ensures c in Begin(existing).byId <==> c in Begin(existing).order {
        BeginPlacement(existing, c);
      }
      forall c | c in Begin(existing).byId ensures HeldAs(existing, [], Begin(existing).byId[c], c) {
        BeginPlacement(existing, c);
      }
    } else {
      var n := |ops| - 1;
      var before := Run(Begin(existing), ops[..n]);
      var at0 := RunIs(existing, ops[..n]);
      at := StepOrder(existing, ops[..n], before, at0, ops[n]);
      StepKeys(before, ops[n], n);
      assert ops[..n] + [ops[n]] == ops;
      forall c | c in Step(before, ops[n], n).byId ensures HeldAs(existing, ops, Step(before, ops[n], n).byId[c], c) {
        StepPlacement(existing, ops[..n], before, at0, ops[n], c);
      }
    }
  }

  // ----- the theorem

  lemma {:induction false} PlacementsAll(lineup: Lineup, order: seq<int>)
    requires forall c :: c in order ==> c in lineup.byId
    ensures |Placements(lineup, order)| == |order|
    ensures forall i :: 0 <= i < |order| ==>
              order[i] in lineup.byId && Placements(lineup, order)[i] == lineup.byId[order[i]]
  {
    if order != [] {
      assert forall c :: c in order[..|order| - 1] ==> c in order;
      PlacementsAll(lineup, order[..|order| - 1]);
      assert order[|order| - 1] in order;
    }
  }

  /** The final lineup is that of the entries that no later operation deletes, in the order they came, and each is
      placed as the operations since its channel began say. */
  lemma FinalLineupIs(existing: seq<Existing>, ops: seq<Operation>) returns (at: seq<nat>)
    ensures SurvivorsInOrder(existing, ops, Ids(FinalPlacements(existing, ops)), at)
    ensures forall p :: p in FinalPlacements(existing, ops) ==> PlacementIs(existing, ops, p)
  {
    at := RunIs(existing, ops);
    var lineup := Run(Begin(existing), ops);
    PlacementsAll(lineup, lineup.order);
    var placements := FinalPlacements(existing, ops);
    forall i | 0 <= i < |placements| ensures HeldAs(existing, ops, placements[i], lineup.order[i]) {
      assert lineup.order[i] in lineup.byId;
    }
    assert Ids(placements) == lineup.order;
  }

  /** So a channel is in the final lineup exactly when it was there or an operation created it, and no operation
      after that deletes it. */
  lemma InFinalLineupIff(existing: seq<Existing>, ops: seq<Operation>, c: int)
    ensures c in Ids(FinalPlacements(existing, ops)) <==>
              || ((exists e :: 0 <= e < |existing| && existing[e].id == Some(c)) &&
                  forall n :: 0 <= n < |ops| ==> !Deletes(ops[n], c))
              || (exists b :: 0 <= b < |ops| && Creates(ops[b], c) &&
                              forall n :: b <= n < |ops| ==> !Deletes(ops[n], c))
  {
    var at := FinalLineupIs(existing, ops);
    var ids := Ids(FinalPlacements(existing, ops));
    PairsSurvive(existing, ops, ids, at);
    if i :| 0 <= i < |ids| && ids[i] == c {
      assert Survives(existing, ops, at[i], c);
      forall n | 0 <= n < |ops| && at[i] <= |existing| + n ensures !Deletes(ops[n], c) {
        assert !DeletedAfter(existing, ops, at[i], c);
      }
    }
    if e :| 0 <= e < |existing| && existing[e].id == Some(c) && forall n :: 0 <= n < |ops| ==> !Deletes(ops[n], c) {
      assert Survives(existing, ops, e, c);
    }
    if b :| 0 <= b < |ops| && Creates(ops[b], c) && forall n :: b <= n < |ops| ==> !Deletes(ops[n], c) {
      assert Survives(existing, ops, |existing| + b, c);
    }
  }

  // ----- what is accepted of it, and what is reported

  /** The value has this slot: itself, if of 2^53 or more in size, and else the whole number nearest to ten times
      it, a tie going to the even one; each after rounding. */
  ghost predicate HasSlot(v: Value, s: Slot) {
    || (v.Float? && DoubleHasSlot(v.x, s))
    || (v.Int? && !Overflows(v.n as real) && DoubleHasSlot(Fl(v.n as real), s))
  }

  ghost predicate DoubleHasSlot(x: real, s: Slot) {
    if Abs(x) >= TWO_53 as real then s == Exact(x)
    else s.Tick? && IsNearest(Fl(10.0 * x), s.t)
  }

  ghost predicate IsNearest(x: real, t: int) {
    Abs(t as real - x) <= 0.5 && (Abs(t as real - x) == 0.5 ==> t % 2 == 0)
  }

  lemma NearestIff(x: real, t: int)
    ensures IsNearest(x, t) <==> t == RoundHalfEven(x)
  {
    var f := x.Floor;
    if IsNearest(x, t) {
      assert f as real - 1.0 < t as real < f as real + 2.0;
      assert t == f || t == f + 1;
    }
  }

  lemma SlotIff(v: Value, s: Slot)
    ensures SlotOf(v) == Some(s) <==> HasSlot(v, s)
  {
    match v
    case Int(n) => DoubleSlotIff(Fl(n as real), s);
    case Float(x) => DoubleSlotIff(x, s);
    case _ =>
  }

  lemma DoubleSlotIff(x: real, s: Slot)
    ensures SlotOfDouble(x) == s <==> DoubleHasSlot(x, s)
  {
    assert x * 10.0 == 10.0 * x;
    if s.Tick? { NearestIff(Fl(10.0 * x), s.t); }
  }

  ghost predicate ShareSlot(a: Value, b: Value) {
    exists s :: HasSlot(a, s) && HasSlot(b, s)
  }

  lemma ShareIff(a: Value, b: Value)
    ensures ShareSlot(a, b) <==> SameChannelNumber(a, b)
  {
    if SlotOf(a).Some? {
      SlotIff(a, SlotOf(a).value);
      SlotIff(b, SlotOf(a).value);
    }
    if s :| HasSlot(a, s) && HasSlot(b, s) {
      SlotIff(a, s);
      SlotIff(b, s);
    }
  }

  /** This request put the channel where it is: some operation gave it a number, and it is new, or no longer on
      the slot that it had. */
  ghost predicate PutThere(p: Placement) {
    p.touchedBy != [] && (p.isNew || !(p.baseNumber == Null == p.number || ShareSlot(p.baseNumber, p.number)))
  }

  lemma PutThereIff(p: Placement)
    ensures PutThere(p) <==> p.Placed()
  {
    ShareIff(p.baseNumber, p.number);
  }

  /** An integer from zero up that a double can hold, or a float from zero up whose product by ten is near a whole
      number. */
  ghost predicate InRange(v: Value) {
    || (v.Int? && v.n >= 0 && !Overflows(v.n as real))
    || (v.Float? && v.x >= 0.0 && NearTick(Fl(10.0 * v.x)))
  }

  ghost predicate Misplaced(p: Placement) {
    PutThere(p) && p.number != Null && !InRange(p.number)
  }

  lemma MisplacedIff(p: Placement)
    ensures Misplaced(p) <==> IsInvalid(p)
  {
    PutThereIff(p);
    ValidIff(p.number);
  }

  /** Of two channels on one slot, the second was put there by this request, and after the first. */
  ghost predicate Joins(placements: seq<Placement>, i: nat, j: nat) {
    && i < |placements| && j < |placements| && i != j
    && (exists s :: HasSlot(placements[i].number, s) && HasSlot(placements[j].number, s))
    && !Misplaced(placements[i]) && !Misplaced(placements[j])
    && PutThere(placements[j])
    && (PutThere(placements[i]) ==> NotLater(placements[i].touchedBy, placements[j].touchedBy, i < j))
  }

  /** The last of these operations comes before the last of those, or they are one operation, which decides
      ties. */
  ghost predicate NotLater(a: seq<nat>, b: seq<nat>, tie: bool)
  {
    a != [] && b != [] && (a[|a| - 1] < b[|b| - 1] || (a[|a| - 1] == b[|b| - 1] && tie))
  }

  /** The operation that put `p` there agreed to share its slot with channel `c`. */
  ghost predicate AgreedTo(p: Placement, c: int) {
    p.consent.Some? && HasSlot(p.number, p.consent.value.slot) && c in p.consent.value.occupants
  }

  lemma JoinsIff(placements: seq<Placement>, i: nat, j: nat)
    ensures Joins(placements, i, j) <==>
              ArrivedBefore(placements, i, j) && exists s :: Occupies(placements[i], s) && Occupies(placements[j], s)
  {
    if i < |placements| && j < |placements| {
      var p, q := placements[i], placements[j];
      MisplacedIff(p);
      MisplacedIff(q);
      PutThereIff(p);
      PutThereIff(q);
      if s :| HasSlot(p.number, s) && HasSlot(q.number, s) && !Misplaced(p) && !Misplaced(q) {
        SlotIff(p.number, s);
        SlotIff(q.number, s);
        assert Occupies(p, s) && Occupies(q, s);
      }
      if s :| Occupies(p, s) && Occupies(q, s) {
        SlotIff(p.number, s);
        SlotIff(q.number, s);
      }
    }
  }

  lemma AgreedIff(p: Placement, s: Slot, c: int)
    requires Occupies(p, s)
    ensures AgreedTo(p, c) <==> ConsentsTo(p, s, c)
  {
    if p.consent.Some? { SlotIff(p.number, p.consent.value.slot); }
  }

  /** A lineup is accepted exactly when no channel was put on a number out of range, and whoever was put on a
      slot agreed to each channel that was there first. */
  lemma AcceptedIff(placements: seq<Placement>)
    ensures Acceptable(placements) <==>
              && (forall p :: p in placements ==> !Misplaced(p))
              && forall i: nat, j: nat ::
                   Joins(placements, i, j) ==> AgreedTo(placements[j], placements[i].channelId)
  {
    NumberingConsent.AcceptableMeans(placements);
    forall p ensures Misplaced(p) <==> IsInvalid(p) { MisplacedIff(p); }
    if NumberingConsent.EveryPairAgreed(placements) {
      forall i: nat, j: nat | Joins(placements, i, j) ensures AgreedTo(placements[j], placements[i].channelId) {
        JoinsIff(placements, i, j);
        var s :| Occupies(placements[i], s) && Occupies(placements[j], s);
        AgreedIff(placements[j], s, placements[i].channelId);
      }
    }
    if forall i: nat, j: nat :: Joins(placements, i, j) ==> AgreedTo(placements[j], placements[i].channelId) {
      forall i, j, s | ArrivedBefore(placements, i, j) && Occupies(placements[i], s) && Occupies(placements[j], s)
        ensures ConsentsTo(placements[j], s, placements[i].channelId)
      {
        JoinsIff(placements, i, j);
        AgreedIff(placements[j], s, placements[i].channelId);
      }
    }
  }

  /** Each channel put on a number out of range is reported, with the operations that gave it one, and nothing
      else is, in lineup order. */
  lemma {:induction false} OutOfRangeReported(placements: seq<Placement>) returns (at: seq<int>)
    ensures Ascending(at) && |at| == |InvalidIssues(placements)|
    ensures forall k :: 0 <= k < |placements| ==> (k in at <==> Misplaced(placements[k]))
    ensures forall i :: 0 <= i < |at| ==>
              0 <= at[i] < |placements| &&
              var p := placements[at[i]];
              InvalidIssues(placements)[i] == InvalidNumber(p.channelId, p.number, p.touchedBy)
  {
    if placements == [] { return []; }
    var n := |placements| - 1;
    at := OutOfRangeReported(placements[..n]);
    MisplacedIff(placements[n]);
    if Misplaced(placements[n]) { at := at + [n]; }
  }

  /** So a channel put on a negative number is reported. */
  lemma NegativeReported(placements: seq<Placement>, p: Placement)
    requires p in placements && PutThere(p)
    requires (p.number.Int? && p.number.n < 0) || (p.number.Float? && p.number.x < 0.0)
    ensures InvalidNumber(p.channelId, p.number, p.touchedBy) in InvalidIssues(placements)
  {
    var at := OutOfRangeReported(placements);
    var k :| 0 <= k < |placements| && placements[k] == p;
    assert Misplaced(p) && k in at;
  }

  /** Looking at a channel raises exactly when its number is too large for a double and no operation gave it that,
      or when it was there and had a number, finite or not, one of the two being too large where they are
      compared. */
  lemma RaisesIff(p: Placement)
    ensures Raises(p) <==>
              || (p.touchedBy == [] && TooBig(p.number))
              || (!p.isNew && TooBig(p.baseNumber) &&
                  (p.number.Int? || p.number.Float? || p.number.Infinite? || p.number.NaN?))
              || (!p.isNew && TooBig(p.number) && (p.baseNumber.Int? || p.baseNumber.Float?))
  {
  }

  ghost predicate TooBig(v: Value) {
    v.Int? && Abs(Fl(v.n as real)) >= Pow2(1024) as real
  }
}
