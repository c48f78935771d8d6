/** The final channel numbering a bulk commit proposes, and what is wrong with it
    (backend/channel_number_plan.py). */
module NumberingPlan {
  import opened Common
  import opened ChannelNumber
  import opened Binary64
  import opened NumberingApply

  /** The duplicate an operation says the caller accepted, as it arrives. */
  datatype Acknowledged = Acknowledged(number: Value, occupants: set<int>)

  datatype Operation =
    | UpdateChannel(channelId: int, number: Option<Value>, acknowledged: Option<Acknowledged>)
    | CreateChannel(tempId: int, createNumber: Value, acknowledged: Option<Acknowledged>)
    | DeleteChannel(channelId: int)
    | AssignNumbers(channelIds: seq<int>, start: Value, acknowledged: Option<Acknowledged>)
    | OtherOperation

  /** Consent to share one slot with the occupants named. */
  datatype Consent = Consent(slot: Slot, occupants: set<int>)

  datatype Placement = Placement(channelId: int, number: Value, baseNumber: Value, isNew: bool,
                                 touchedBy: seq<nat>, consent: Option<Consent>)
  {
    predicate Moved() {
      if isNew then true
      else if baseNumber.Null? && number.Null? then false
      else if baseNumber.Null? || number.Null? then true
      else !SameChannelNumber(baseNumber, number)
    }

    /** Did this request put the channel where it now is? */
    predicate Placed() {
      Moved() && touchedBy != []
    }
  }

  datatype Existing = Existing(id: Option<int>, number: Value)

  datatype Lineup = Lineup(byId: map<int, Placement>, order: seq<int>)

  function ConsentOf(acknowledged: Option<Acknowledged>): Option<Consent> {
    if acknowledged.None? || SlotOf(acknowledged.value.number).None? then None
    else Some(Consent(SlotOf(acknowledged.value.number).value, acknowledged.value.occupants))
  }

  /** Python's `start + offset`; a missing start is 1. */
  function Plus(start: Value, offset: nat): Value {
    match start
    case Null => Int(1 + offset)
    case Int(n) => Int(n + offset)
    case Float(x) => Float(Fl(x + offset as real))
    case _ => Other
  }

  function SetNumber(lineup: Lineup, id: int, value: Value, index: nat, consent: Option<Consent>): Lineup {
    if id !in lineup.byId then lineup else
      var p := lineup.byId[id];
      lineup.(byId := lineup.byId[id := p.(number := value, touchedBy := p.touchedBy + [index], consent := consent)])
  }

  function Assign(lineup: Lineup, ids: seq<int>, start: Value, index: nat, consent: Option<Consent>): Lineup {
    if ids == [] then lineup
    else SetNumber(Assign(lineup, ids[..|ids| - 1], start, index, consent),
                   ids[|ids| - 1], Plus(start, |ids| - 1), index, consent)
  }

  function Add(lineup: Lineup, p: Placement): Lineup {
    Lineup(lineup.byId[p.channelId := p], lineup.order + [p.channelId])
  }

  function Begin(existing: seq<Existing>): Lineup {
    if existing == [] then Lineup(map[], []) else
      var before, last := Begin(existing[..|existing| - 1]), existing[|existing| - 1];
      if last.id.None? then before
      else Add(before, Placement(last.id.value, last.number, last.number, false, [], None))
  }

  function Step(lineup: Lineup, op: Operation, index: nat): Lineup {
    match op
    case UpdateChannel(id, number, acknowledged) =>
      if number.None? then lineup else SetNumber(lineup, id, number.value, index, ConsentOf(acknowledged))
    case CreateChannel(id, number, acknowledged) =>
      Add(lineup, Placement(id, number, Null, true, [index], ConsentOf(acknowledged)))
    case DeleteChannel(id) =>
      if id in lineup.byId then Lineup(lineup.byId - {id}, Remove(lineup.order, id)) else lineup
    case AssignNumbers(ids, start, acknowledged) => Assign(lineup, ids, start, index, ConsentOf(acknowledged))
    case OtherOperation => lineup
  }

  function Run(lineup: Lineup, ops: seq<Operation>): Lineup {
    if ops == [] then lineup else Step(Run(lineup, ops[..|ops| - 1]), ops[|ops| - 1], |ops| - 1)
  }

  function Placements(lineup: Lineup, order: seq<int>): seq<Placement> {
    if order == [] then [] else
      var earlier, id := Placements(lineup, order[..|order| - 1]), order[|order| - 1];
      if id in lineup.byId then earlier + [lineup.byId[id]] else earlier
  }

  /** The lineup once every operation has been applied, in lineup order. */
  function FinalPlacements(existing: seq<Existing>, ops: seq<Operation>): seq<Placement> {
    var lineup := Run(Begin(existing), ops);
    Placements(lineup, lineup.order)
  }

  /** `build_final_numbering_state`. */
  method BuildFinalNumberingState(existing: seq<Existing>, ops: seq<Operation>) returns (placements: seq<Placement>)
    ensures placements == FinalPlacements(existing, ops)
  {
    var byId: map<int, Placement> := map[];
    var order: seq<int> := [];
    for k := 0 to |existing|
      invariant Lineup(byId, order) == Begin(existing[..k])
    {
      assert existing[..k + 1][..k] == existing[..k];
      if existing[k].id.Some? {
        var id := existing[k].id.value;
        byId := byId[id := Placement(id, existing[k].number, existing[k].number, false, [], None)];
        order := order + [id];
      }
    }
    assert existing[..|existing|] == existing;
    for index := 0 to |ops|
      invariant Lineup(byId, order) == Run(Begin(existing), ops[..index])
    {
      assert ops[..index + 1][..index] == ops[..index];
      ghost var was := Lineup(byId, order);
      match ops[index] {
        case UpdateChannel(id, number, acknowledged) =>
          if id in byId && number.Some? {
            byId := byId[id := Touch(byId[id], number.value, index, acknowledged)];
          }
        case CreateChannel(id, number, acknowledged) =>
          var placement := Placement(id, Null, Null, true, [], None);
          assert placement.touchedBy + [index] == [index];
          byId := byId[id := Touch(placement, number, index, acknowledged)];
          order := order + [id];
        case DeleteChannel(id) =>
          if id in byId {
            byId := byId - {id};
            order := Remove(order, id);
          }
        case AssignNumbers(ids, start, acknowledged) =>
          byId := AssignRange(byId, order, ids, start, index, acknowledged);
        case OtherOperation =>
      }
      assert Lineup(byId, order) == Step(was, ops[index], index);
    }
    assert ops[..|ops|] == ops;
    placements := [];
    for k := 0 to |order|
      invariant placements == Placements(Lineup(byId, order), order[..k])
    {
      assert order[..k + 1][..k] == order[..k];
      if order[k] in byId { placements := placements + [byId[order[k]]]; }
    }
    assert order[..|order|] == order;
  }

  method AssignRange(byId: map<int, Placement>, ghost order: seq<int>, ids: seq<int>, start: Value, index: nat,
                     acknowledged: Option<Acknowledged>)
    returns (byId': map<int, Placement>)
    ensures Lineup(byId', order) == Assign(Lineup(byId, order), ids, start, index, ConsentOf(acknowledged))
  {
    byId' := byId;
    for offset := 0 to |ids|
      invariant Lineup(byId', order) ==
                  Assign(Lineup(byId, order), ids[..offset], start, index, ConsentOf(acknowledged))
    {
      assert ids[..offset + 1][..offset] == ids[..offset];
      if ids[offset] in byId' {
        byId' := byId'[ids[offset] := Touch(byId'[ids[offset]], Plus(start, offset), index, acknowledged)];
      }
    }
    assert ids[..|ids|] == ids;
  }

  function Touch(p: Placement, value: Value, index: nat, acknowledged: Option<Acknowledged>): Placement {
    p.(number := value, touchedBy := p.touchedBy + [index], consent := ConsentOf(acknowledged))
  }

  // ----- what is wrong with it

  predicate IsInvalid(p: Placement) {
    !p.number.Null? && p.Placed() && !IsValid(p.number)
  }

  /** Does `p` hold slot `s` for the purposes of sharing it? */
  predicate Occupies(p: Placement, s: Slot) {
    !IsInvalid(p) && SlotOf(p.number) == Some(s)
  }

  function Occupants(placements: seq<Placement>, s: Slot): seq<Placement> {
    if placements == [] then [] else
      var earlier, p := Occupants(placements[..|placements| - 1], s), placements[|placements| - 1];
      if Occupies(p, s) then earlier + [p] else earlier
  }

  function LastTouch(p: Placement): int {
    if p.touchedBy == [] then -1 else p.touchedBy[|p.touchedBy| - 1]
  }

  /** The occupant at `i` was standing on the slot when the one at `j` was put there. */
  predicate ArrivedBefore(occupants: seq<Placement>, i: int, j: int) {
    && 0 <= i < |occupants| && 0 <= j < |occupants| && i != j
    && occupants[j].Placed()
    && (|| !occupants[i].Placed()
        || LastTouch(occupants[i]) < LastTouch(occupants[j])
        || (LastTouch(occupants[i]) == LastTouch(occupants[j]) && i < j))
  }

  /** Did the operation that placed `p` agree to share `s` with channel `c`? */
  predicate ConsentsTo(p: Placement, s: Slot, c: int) {
    p.consent.Some? && p.consent.value.slot == s && c in p.consent.value.occupants
  }

  /** Every newcomer agreed to everyone it landed on top of. */
  ghost predicate PairwiseConsent(occupants: seq<Placement>, s: Slot) {
    forall i, j :: ArrivedBefore(occupants, i, j) ==> ConsentsTo(occupants[j], s, occupants[i].channelId)
  }

  ghost predicate Accidental(occupants: seq<Placement>, s: Slot, j: int) {
    exists i :: ArrivedBefore(occupants, i, j) && !ConsentsTo(occupants[j], s, occupants[i].channelId)
  }

  datatype Issue =
    | InvalidNumber(channelId: int, number: Value, operationIndexes: seq<nat>)
    | DuplicateNumber(slot: Slot, number: Value, channelIds: seq<int>, responsible: set<nat>)

  /** Arrival order among newcomers: by the operation that placed them, ties as they stand. */
  function ArrivalLe(occupants: seq<Placement>): (int, int) -> bool {
    (i, j) => var a, b := TouchAt(occupants, i), TouchAt(occupants, j); a < b || (a == b && i <= j)
  }

  function TouchAt(occupants: seq<Placement>, i: int): int {
    if 0 <= i < |occupants| then LastTouch(occupants[i]) else -1
  }

  function Newcomers(occupants: seq<Placement>, n: nat): (r: seq<int>)
    requires n <= |occupants|
    ensures forall i :: i in r <==> 0 <= i < n && occupants[i].Placed()
    ensures forall k, l :: 0 <= k < l < |r| ==> r[k] < r[l]
  {
    if n == 0 then [] else
      var earlier := Newcomers(occupants, n - 1);
      assert forall k :: 0 <= k < |earlier| ==> earlier[k] in earlier;
      if occupants[n - 1].Placed() then earlier + [n - 1] else earlier
  }

  /** The newcomers in the order they arrived. */
  function Arriving(occupants: seq<Placement>): seq<int> {
    Sort(Newcomers(occupants, |occupants|), ArrivalLe(occupants))
  }

  lemma ArrivalOrder(occupants: seq<Placement>)
    ensures var r := Arriving(occupants);
            && NoDup(r) && SortedBy(r, ArrivalLe(occupants))
            && forall j :: j in r <==> 0 <= j < |occupants| && occupants[j].Placed()
  {
    var c, r, le := Newcomers(occupants, |occupants|), Arriving(occupants), ArrivalLe(occupants);
    assert TotalOrder(le);
    SortSpec(c, le);
    forall j ensures j in r <==> j in c { assert j in multiset(r) <==> j in multiset(c); }
    NoDupFromMultiset(c, r);
  }

  lemma OnceInMultiset(s: seq<int>, x: int)
    requires NoDup(s)
    ensures multiset(s)[x] <= 1
  {
    if s != [] {
      OnceInMultiset(s[..|s| - 1], x);
      assert s == s[..|s| - 1] + [s[|s| - 1]];
    }
  }

  lemma NoDupFromMultiset(s: seq<int>, t: seq<int>)
    requires NoDup(s) && multiset(s) == multiset(t)
    ensures NoDup(t)
  {
    forall i, j | 0 <= i < j < |t| ensures t[i] != t[j] {
      OnceInMultiset(s, t[i]);
      assert t == t[..i] + [t[i]] + t[i + 1..j] + [t[j]] + t[j + 1..];
    }
  }

  /** Is `i` one of the first `k` to arrive? */
  predicate Arrived(arriving: seq<int>, k: nat, i: int)
    requires k <= |arriving|
  {
    exists m :: 0 <= m < k && arriving[m] == i
  }

  lemma WhoArrivedBefore(occupants: seq<Placement>, k: nat, i: int)
    requires k < |Arriving(occupants)| && 0 <= i < |occupants|
    ensures ArrivedBefore(occupants, i, Arriving(occupants)[k]) <==>
            !occupants[i].Placed() || Arrived(Arriving(occupants), k, i)
  {
    ArrivalOrder(occupants);
    var r := Arriving(occupants);
    assert r[k] in r;
    if occupants[i].Placed() {
      assert i in r;
      var m :| 0 <= m < |r| && r[m] == i;
      if m < k {
        assert ArrivalLe(occupants)(r[m], r[k]);
      } else if k < m {
        assert ArrivalLe(occupants)(r[k], r[m]);
      }
    }
  }

  /** Who is standing on the slot when the newcomer at `k` in arrival order gets there. */
  ghost predicate IsStanding(occupants: seq<Placement>, k: nat, standing: set<int>)
    requires k <= |Arriving(occupants)|
  {
    && (forall i :: 0 <= i < |occupants| && (!occupants[i].Placed() || Arrived(Arriving(occupants), k, i)) ==>
          occupants[i].channelId in standing)
    && (forall c :: c in standing ==>
          exists i :: 0 <= i < |occupants| && occupants[i].channelId == c &&
                      (!occupants[i].Placed() || Arrived(Arriving(occupants), k, i)))
  }

  /** The source's test: nobody standing, or an acknowledgement of this slot naming all who are. */
  predicate CoversAll(p: Placement, slot: Slot, standing: set<int>) {
    standing == {} || (p.consent.Some? && p.consent.value.slot == slot && standing <= p.consent.value.occupants)
  }

  lemma CoversEach(p: Placement, slot: Slot, standing: set<int>)
    ensures CoversAll(p, slot, standing) <==> forall c :: c in standing ==> ConsentsTo(p, slot, c)
  {
    EmptyOrMember(standing);
    if forall c :: c in standing ==> ConsentsTo(p, slot, c) {
      if standing != {} {
        var c :| c in standing;
        assert ConsentsTo(p, slot, c);
        var named := p.consent.value.occupants;
        forall d | d in standing ensures d in named { assert ConsentsTo(p, slot, d); }
        assert standing * named == standing;
        assert standing <= named;
      }
    }
  }

  lemma Consented(occupants: seq<Placement>, slot: Slot, k: nat, standing: set<int>, consented: bool)
    requires k < |Arriving(occupants)| && 0 <= Arriving(occupants)[k] < |occupants|
    requires IsStanding(occupants, k, standing)
    requires consented == CoversAll(occupants[Arriving(occupants)[k]], slot, standing)
    ensures consented <==> !Accidental(occupants, slot, Arriving(occupants)[k])
  {
    var j := Arriving(occupants)[k];
    CoversEach(occupants[j], slot, standing);
    if consented {
      forall i | ArrivedBefore(occupants, i, j) ensures ConsentsTo(occupants[j], slot, occupants[i].channelId) {
        WhoArrivedBefore(occupants, k, i);
        assert occupants[i].channelId in standing;
      }
    } else {
      var c :| c in standing && !ConsentsTo(occupants[j], slot, c);
      var i :| 0 <= i < |occupants| && occupants[i].channelId == c &&
               (!occupants[i].Placed() || Arrived(Arriving(occupants), k, i));
      WhoArrivedBefore(occupants, k, i);
    }
  }

  lemma OneMoreStanding(occupants: seq<Placement>, k: nat, standing: set<int>)
    requires k < |Arriving(occupants)| && 0 <= Arriving(occupants)[k] < |occupants|
    requires IsStanding(occupants, k, standing)
    ensures IsStanding(occupants, k + 1, standing + {occupants[Arriving(occupants)[k]].channelId})
  {
    var r := Arriving(occupants);
    forall i ensures Arrived(r, k + 1, i) <==> Arrived(r, k, i) || i == r[k] {}
  }

  ghost predicate Walked(occupants: seq<Placement>, slot: Slot, k: nat, accidental: seq<int>)
    requires k <= |Arriving(occupants)|
  {
    forall j :: j in accidental <==> Arrived(Arriving(occupants), k, j) && Accidental(occupants, slot, j)
  }

  lemma WalkOne(occupants: seq<Placement>, slot: Slot, k: nat, accidental: seq<int>, consented: bool)
    requires k < |Arriving(occupants)| && Walked(occupants, slot, k, accidental)
    requires consented <==> !Accidental(occupants, slot, Arriving(occupants)[k])
    ensures Walked(occupants, slot, k + 1, if consented then accidental else accidental + [Arriving(occupants)[k]])
  {
    var r := Arriving(occupants);
    forall i ensures Arrived(r, k + 1, i) <==> Arrived(r, k, i) || i == r[k] {}
  }

  /** Walk the newcomers to a slot in arrival order; the positions of those that landed on someone
      they had not agreed to. */
  method WalkSlot(occupants: seq<Placement>, slot: Slot) returns (accidental: seq<int>)
    ensures forall j :: j in accidental <==> Accidental(occupants, slot, j)
    ensures accidental == [] <==> PairwiseConsent(occupants, slot)
  {
    var arriving := Arriving(occupants);
    ArrivalOrder(occupants);
    assert forall i :: 0 <= i < |arriving| ==> arriving[i] in arriving;
    var standing := set p | p in occupants && !p.Placed() :: p.channelId;
    accidental := [];
    for k := 0 to |arriving|
      invariant IsStanding(occupants, k, standing)
      invariant Walked(occupants, slot, k, accidental)
    {
      var j := arriving[k];
      var p := occupants[j];
      var consented := CoversAll(p, slot, standing);
      Consented(occupants, slot, k, standing, consented);
      OneMoreStanding(occupants, k, standing);
      WalkOne(occupants, slot, k, accidental, consented);
      if !consented { accidental := accidental + [j]; }
      standing := standing + {p.channelId};
    }
    AllWalked(occupants, slot, accidental);
  }

  lemma AllWalked(occupants: seq<Placement>, slot: Slot, accidental: seq<int>)
    requires Walked(occupants, slot, |Arriving(occupants)|, accidental)
    ensures forall j :: j in accidental <==> Accidental(occupants, slot, j)
    ensures accidental == [] <==> PairwiseConsent(occupants, slot)
  {
    ArrivalOrder(occupants);
    var r := Arriving(occupants);
    forall j | Accidental(occupants, slot, j) ensures j in accidental {
      assert j in r;
    }
    EmptyOrFirst(accidental);
    if PairwiseConsent(occupants, slot) {
      assert forall j :: !Accidental(occupants, slot, j);
      assert forall j :: j !in accidental;
    } else {
      var i, j :| ArrivedBefore(occupants, i, j) && !ConsentsTo(occupants[j], slot, occupants[i].channelId);
      assert Accidental(occupants, slot, j);
    }
  }

  // ----- the issues reported

  function InvalidIssues(placements: seq<Placement>): seq<Issue> {
    if placements == [] then [] else
      var earlier, p := InvalidIssues(placements[..|placements| - 1]), placements[|placements| - 1];
      if IsInvalid(p) then earlier + [InvalidNumber(p.channelId, p.number, p.touchedBy)] else earlier
  }

  function Ids(occupants: seq<Placement>): (ids: seq<int>)
    ensures |ids| == |occupants| && forall i :: 0 <= i < |ids| ==> ids[i] == occupants[i].channelId
  {
    seq(|occupants|, i requires 0 <= i < |occupants| => occupants[i].channelId)
  }

  /** The one issue about a slot: all its occupants, and the operations of those who did not agree. */
  ghost predicate ReportsSlot(placements: seq<Placement>, issue: Issue) {
    && issue.DuplicateNumber?
    && var occupants := Occupants(placements, issue.slot);
       && !PairwiseConsent(occupants, issue.slot)
       && SlotOf(issue.number) == Some(issue.slot)
       && issue.channelIds == Ids(occupants)
       && forall n :: n in issue.responsible <==>
            exists j :: Accidental(occupants, issue.slot, j) && n in occupants[j].touchedBy
  }

  lemma {:induction false} OccupantsOccupy(placements: seq<Placement>, s: Slot, i: nat)
    requires i < |Occupants(placements, s)|
    ensures Occupies(Occupants(placements, s)[i], s)
  {
    var earlier := placements[..|placements| - 1];
    if i < |Occupants(earlier, s)| { OccupantsOccupy(earlier, s, i); }
  }

  method ReportSlot(ghost placements: seq<Placement>, slot: Slot, occupants: seq<Placement>)
    returns (issue: Option<Issue>)
    requires occupants == Occupants(placements, slot)
    ensures issue.None? <==> PairwiseConsent(occupants, slot)
    ensures issue.Some? ==> ReportsSlot(placements, issue.value) && issue.value.slot == slot
  {
    if |occupants| < 2 { return None; }
    var accidental := WalkSlot(occupants, slot);
    if accidental == [] { return None; }
    var first := accidental[0];
    assert first in accidental && Accidental(occupants, slot, first);
    OccupantsOccupy(placements, slot, first);
    var responsible := set j, n | j in accidental && 0 <= j < |occupants| && n in occupants[j].touchedBy :: n;
    issue := Some(DuplicateNumber(slot, occupants[first].number, Ids(occupants), responsible));
    forall n ensures n in responsible <==> exists j :: Accidental(occupants, slot, j) && n in occupants[j].touchedBy {
      if j :| Accidental(occupants, slot, j) && n in occupants[j].touchedBy { assert j in accidental; }
    }
  }

  /** The slots held, first come first, and who holds each. */
  ghost predicate Grouped(placements: seq<Placement>, slots: seq<Slot>, bySlot: map<Slot, seq<Placement>>) {
    && NoDup(slots)
    && (forall s :: s in slots <==> s in bySlot)
    && (forall s :: s in bySlot ==> bySlot[s] == Occupants(placements, s))
    && forall s :: s !in bySlot ==> Occupants(placements, s) == []
  }

  /** An integer that no double can hold, which Python's `float` refuses with an OverflowError. */
  predicate TooLarge(v: Value) {
    v.Int? && Overflows(v.n as real)
  }

  predicate IsNumber(v: Value) {
    v.Int? || v.Float? || v.Infinite? || v.NaN?
  }

  /** `_same_number` raises: the second number is made a double only if the first is finite. */
  predicate ComparisonRaises(a: Value, b: Value) {
    IsNumber(a) && IsNumber(b) && (TooLarge(a) || (!a.Infinite? && !a.NaN? && TooLarge(b)))
  }

  /** Looking at the placement raises: in asking whether it moved, or for a number that is too large and is not
      reported, since this request did not put it there. */
  predicate Raises(p: Placement) {
    || (!p.isNew && ComparisonRaises(p.baseNumber, p.number))
    || (TooLarge(p.number) && !p.Placed())
  }

  ghost predicate SomeRaises(placements: seq<Placement>) {
    exists p :: p in placements && Raises(p)
  }

  /** A number too large that this request puts a channel on is reported, unless the channel existed and had a
      finite number to compare it with, or one too large as well. */
  lemma TooLargeRaises(p: Placement)
    requires TooLarge(p.number) && p.touchedBy != []
    ensures Raises(p) <==> !p.isNew && (p.baseNumber.Int? || p.baseNumber.Float?)
    ensures !Raises(p) ==> IsInvalid(p)
  {
  }

  method GroupBySlot(placements: seq<Placement>)
    returns (raised: bool, slots: seq<Slot>, bySlot: map<Slot, seq<Placement>>, issues: seq<Issue>)
    ensures raised <==> SomeRaises(placements)
    ensures !raised ==> Grouped(placements, slots, bySlot) && issues == InvalidIssues(placements)
  {
    raised, slots, bySlot, issues := false, [], map[], [];
    for k := 0 to |placements|
      invariant Grouped(placements[..k], slots, bySlot) && issues == InvalidIssues(placements[..k])
      invariant forall i :: 0 <= i < k ==> !Raises(placements[i])
    {
      var p := placements[k];
      if Raises(p) { raised := true; return; }
      assert placements[..k + 1][..k] == placements[..k];
      var slot := SlotOf(p.number);
      if IsInvalid(p) {
        issues := issues + [InvalidNumber(p.channelId, p.number, p.touchedBy)];
      } else if slot.Some? {
        GroupOne(placements[..k], placements[..k + 1], slots, bySlot, slot.value);
        if slot.value !in bySlot { slots := slots + [slot.value]; }
        bySlot := bySlot[slot.value := (if slot.value in bySlot then bySlot[slot.value] else []) + [p]];
      }
    }
    assert placements[..|placements|] == placements;
  }

  lemma GroupOne(before: seq<Placement>, after: seq<Placement>, slots: seq<Slot>, bySlot: map<Slot, seq<Placement>>,
                 s: Slot)
    requires |after| == |before| + 1 && after[..|before|] == before && Occupies(after[|before|], s)
    requires Grouped(before, slots, bySlot)
    ensures Grouped(after, if s in bySlot then slots else slots + [s],
                    bySlot[s := (if s in bySlot then bySlot[s] else []) + [after[|before|]]])
  {
  }

  /** Every number placed is in contract, and every newcomer to a slot agreed to those it joined. */
  ghost predicate Acceptable(placements: seq<Placement>) {
    && (forall p :: p in placements ==> !IsInvalid(p))
    && forall s :: PairwiseConsent(Occupants(placements, s), s)
  }

  /** One issue for each of these slots that has a newcomer without consent, and no others. */
  ghost predicate Reported(placements: seq<Placement>, slots: seq<Slot>, issues: seq<Issue>) {
    && (forall i :: 0 <= i < |issues| ==> ReportsSlot(placements, issues[i]) && issues[i].slot in slots)
    && (forall i, j :: 0 <= i < j < |issues| ==> issues[i].slot != issues[j].slot)
    && forall s :: s in slots && !PairwiseConsent(Occupants(placements, s), s) ==> HasIssue(issues, s)
  }

  ghost predicate HasIssue(issues: seq<Issue>, s: Slot) {
    exists i :: 0 <= i < |issues| && issues[i].DuplicateNumber? && issues[i].slot == s
  }

  lemma IssueKept(issues: seq<Issue>, after: seq<Issue>, s: Slot)
    requires HasIssue(issues, s) && issues <= after
    ensures HasIssue(after, s)
  {
    var i :| 0 <= i < |issues| && issues[i].DuplicateNumber? && issues[i].slot == s;
    assert after[i] == issues[i];
  }

  lemma ReportNone(placements: seq<Placement>, slots: seq<Slot>, issues: seq<Issue>, s: Slot)
    requires Reported(placements, slots, issues) && PairwiseConsent(Occupants(placements, s), s)
    ensures Reported(placements, slots + [s], issues)
  {
    forall t | t in slots + [s] && !PairwiseConsent(Occupants(placements, t), t) ensures HasIssue(issues, t) {
      assert t in slots;
    }
  }

  lemma ReportSome(placements: seq<Placement>, slots: seq<Slot>, issues: seq<Issue>, s: Slot, issue: Issue)
    requires Reported(placements, slots, issues) && s !in slots
    requires ReportsSlot(placements, issue) && issue.slot == s
    ensures Reported(placements, slots + [s], issues + [issue])
  {
    var after := issues + [issue];
    assert after[|issues|] == issue;
    forall t | t in slots + [s] && !PairwiseConsent(Occupants(placements, t), t) ensures HasIssue(after, t) {
      if t != s {
        assert t in slots;
        IssueKept(issues, after, t);
      }
    }
    forall i | 0 <= i < |issues| ensures after[i] == issues[i] && issues[i].slot in slots {
    }
  }

  method ReportSlots(ghost placements: seq<Placement>, slots: seq<Slot>, bySlot: map<Slot, seq<Placement>>)
    returns (issues: seq<Issue>)
    requires Grouped(placements, slots, bySlot)
    ensures Reported(placements, slots, issues)
  {
    issues := [];
    for k := 0 to |slots|
      invariant Reported(placements, slots[..k], issues)
    {
      var s := slots[k];
      assert s in slots && s !in slots[..k] && slots[..k + 1] == slots[..k] + [s];
      var issue := ReportSlot(placements, s, bySlot[s]);
      if issue.Some? {
        ReportSome(placements, slots[..k], issues, s, issue.value);
        issues := issues + [issue.value];
      } else {
        ReportNone(placements, slots[..k], issues, s);
      }
    }
    assert slots[..|slots|] == slots;
  }

  /** What is reported: what is out of contract, then the slots shared without consent. */
  ghost predicate Evaluated(placements: seq<Placement>, issues: seq<Issue>, slots: seq<Slot>, duplicates: seq<Issue>) {
    && issues == InvalidIssues(placements) + duplicates
    && Reported(placements, slots, duplicates)
    && (forall s :: !PairwiseConsent(Occupants(placements, s), s) ==> s in slots)
    && (issues == [] <==> Acceptable(placements))
  }

  /** `evaluate_final_numbering`. */
  method EvaluateFinalNumbering(existing: seq<Existing>, ops: seq<Operation>)
    returns (raised: bool, issues: seq<Issue>, ghost slots: seq<Slot>, ghost duplicates: seq<Issue>)
    ensures raised <==> SomeRaises(FinalPlacements(existing, ops))
    ensures !raised ==> Evaluated(FinalPlacements(existing, ops), issues, slots, duplicates)
  {
    slots, duplicates, issues := [], [], [];
    var placements := BuildFinalNumberingState(existing, ops);
    var order, bySlot, invalid;
    raised, order, bySlot, invalid := GroupBySlot(placements);
    if raised { return; }
    var shared := ReportSlots(placements, order, bySlot);
    slots, duplicates := order, shared;
    AcceptedIffNothingReported(placements, order, bySlot, invalid, shared);
    issues := invalid + shared;
  }

  lemma {:induction false} NoInvalidIssues(placements: seq<Placement>)
    ensures InvalidIssues(placements) == [] <==> forall p :: p in placements ==> !IsInvalid(p)
  {
    if placements != [] {
      NoInvalidIssues(placements[..|placements| - 1]);
      assert placements == placements[..|placements| - 1] + [placements[|placements| - 1]];
    }
  }

  lemma AcceptedIffNothingReported(placements: seq<Placement>, slots: seq<Slot>, bySlot: map<Slot, seq<Placement>>,
                                   invalid: seq<Issue>, duplicates: seq<Issue>)
    requires Grouped(placements, slots, bySlot) && invalid == InvalidIssues(placements)
    requires Reported(placements, slots, duplicates)
    ensures invalid + duplicates == [] <==> Acceptable(placements)
    ensures forall s :: !PairwiseConsent(Occupants(placements, s), s) ==> s in slots
  {
    NoInvalidIssues(placements);
    forall s | !PairwiseConsent(Occupants(placements, s), s) ensures s in slots && HasIssue(duplicates, s) {}
    if duplicates != [] { assert ReportsSlot(placements, duplicates[0]); }
  }
}
