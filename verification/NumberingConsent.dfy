/** What it takes for a numbering request to be accepted, and what never makes an accepted one
    rejected (backend/channel_number_plan.py). */
module NumberingConsent {
  import opened Common
  import opened ChannelNumber
  import opened Binary64
  import opened NumberingApply
  import opened NumberingPlan
  import opened RangeSlots

  /** Of any two channels ending on one slot, at least one of them placed there by this request, the
      one that arrived later had agreed to the other. */
  ghost predicate EveryPairAgreed(placements: seq<Placement>) {
    forall i, j, s :: ArrivedBefore(placements, i, j) && Occupies(placements[i], s) && Occupies(placements[j], s) ==>
      ConsentsTo(placements[j], s, placements[i].channelId)
  }

  // ----- occupants keep lineup order

  function Rank(placements: seq<Placement>, s: Slot, i: nat): nat
    requires i <= |placements|
  {
    |Occupants(placements[..i], s)|
  }

  lemma {:induction false} RankOf(placements: seq<Placement>, s: Slot, i: nat)
    requires i < |placements| && Occupies(placements[i], s)
    ensures Rank(placements, s, i) < |Occupants(placements, s)|
    ensures Occupants(placements, s)[Rank(placements, s, i)] == placements[i]
  {
    var earlier := placements[..|placements| - 1];
    if i < |earlier| {
      RankOf(earlier, s, i);
      assert earlier[..i] == placements[..i];
    }
  }

  lemma {:induction false} RankGrows(placements: seq<Placement>, s: Slot, i: nat, j: nat)
    requires i < j < |placements| && Occupies(placements[i], s)
    ensures Rank(placements, s, i) < Rank(placements, s, j)
  {
    RankOf(placements[..j], s, i);
    assert placements[..j][..i] == placements[..i];
  }

  lemma {:induction false} PlaceOf(placements: seq<Placement>, s: Slot, k: nat) returns (i: nat)
    requires k < |Occupants(placements, s)|
    ensures i < |placements| && Occupies(placements[i], s)
    ensures placements[i] == Occupants(placements, s)[k] && Rank(placements, s, i) == k
  {
    var earlier := placements[..|placements| - 1];
    if k < |Occupants(earlier, s)| {
      i := PlaceOf(earlier, s, k);
      assert earlier[..i] == placements[..i];
    } else {
      i := |placements| - 1;
    }
  }

  /** The walk over each slot accepts exactly the lineups in which every pair agreed. */
  lemma AcceptableMeans(placements: seq<Placement>)
    ensures Acceptable(placements) <==>
            EveryPairAgreed(placements) && forall p :: p in placements ==> !IsInvalid(p)
  {
    if EveryPairAgreed(placements) {
      forall s ensures PairwiseConsent(Occupants(placements, s), s) {
        PairsOfSlot(placements, s);
      }
    }
    if forall s :: PairwiseConsent(Occupants(placements, s), s) {
      forall i, j, s | ArrivedBefore(placements, i, j) && Occupies(placements[i], s) && Occupies(placements[j], s)
        ensures ConsentsTo(placements[j], s, placements[i].channelId)
      {
        PairInSlot(placements, s, i, j);
      }
    }
  }

  lemma PairsOfSlot(placements: seq<Placement>, s: Slot)
    requires EveryPairAgreed(placements)
    ensures PairwiseConsent(Occupants(placements, s), s)
  {
    var occupants := Occupants(placements, s);
    forall k, l | ArrivedBefore(occupants, k, l) ensures ConsentsTo(occupants[l], s, occupants[k].channelId) {
      var i := PlaceOf(placements, s, k);
      var j := PlaceOf(placements, s, l);
      if j < i { RankGrows(placements, s, j, i); }
      assert ArrivedBefore(placements, i, j);
    }
  }

  lemma PairInSlot(placements: seq<Placement>, s: Slot, i: int, j: int)
    requires PairwiseConsent(Occupants(placements, s), s) && ArrivedBefore(placements, i, j)
    requires Occupies(placements[i], s) && Occupies(placements[j], s)
    ensures ConsentsTo(placements[j], s, placements[i].channelId)
  {
    RankOf(placements, s, i);
    RankOf(placements, s, j);
    if i < j { RankGrows(placements, s, i, j); } else { RankGrows(placements, s, j, i); }
    assert ArrivedBefore(Occupants(placements, s), Rank(placements, s, i), Rank(placements, s, j));
  }

  // ----- fewer channels, or more consent

  /** `q` is `p` with an acknowledgement that names at least as many occupants. */
  predicate AgreesToMore(p: Placement, q: Placement) {
    && q == p.(consent := q.consent)
    && q.consent.Some? == p.consent.Some?
    && (p.consent.Some? ==> q.consent.value.slot == p.consent.value.slot &&
                            p.consent.value.occupants <= q.consent.value.occupants)
  }

  /** `b` is part of `a`, in order, each channel agreeing to no less. */
  predicate PartOf(b: seq<Placement>, a: seq<Placement>) {
    if b == [] then true
    else if a == [] then false
    else (AgreesToMore(a[0], b[0]) && PartOf(b[1..], a[1..])) || PartOf(b, a[1..])
  }

  ghost predicate Embeds(f: seq<int>, b: seq<Placement>, a: seq<Placement>) {
    && |f| == |b| && Ascending(f)
    && forall k :: 0 <= k < |b| ==> 0 <= f[k] < |a| && AgreesToMore(a[f[k]], b[k])
  }

  lemma {:induction false} PartEmbeds(b: seq<Placement>, a: seq<Placement>) returns (f: seq<int>)
    requires PartOf(b, a)
    ensures Embeds(f, b, a)
  {
    if b == [] {
      f := [];
    } else if AgreesToMore(a[0], b[0]) && PartOf(b[1..], a[1..]) {
      var g := PartEmbeds(b[1..], a[1..]);
      f := [0] + seq(|g|, k requires 0 <= k < |g| => g[k] + 1);
    } else {
      var g := PartEmbeds(b, a[1..]);
      f := seq(|g|, k requires 0 <= k < |g| => g[k] + 1);
    }
  }

  lemma AgreesAlike(p: Placement, q: Placement, s: Slot, c: int)
    requires AgreesToMore(p, q)
    ensures IsInvalid(q) == IsInvalid(p) && q.Placed() == p.Placed() && LastTouch(q) == LastTouch(p)
    ensures Occupies(q, s) == Occupies(p, s)
    ensures ConsentsTo(p, s, c) ==> ConsentsTo(q, s, c)
  {
  }

  lemma PairStillAgreed(b: seq<Placement>, a: seq<Placement>, f: seq<int>, i: int, j: int, s: Slot)
    requires Embeds(f, b, a) && EveryPairAgreed(a)
    requires ArrivedBefore(b, i, j) && Occupies(b[i], s) && Occupies(b[j], s)
    ensures ConsentsTo(b[j], s, b[i].channelId)
  {
    var p, q := a[f[i]], a[f[j]];
    AgreesAlike(p, b[i], s, p.channelId);
    AgreesAlike(q, b[j], s, p.channelId);
    assert ArrivedBefore(a, f[i], f[j]);
  }

  lemma PartAcceptable(b: seq<Placement>, a: seq<Placement>)
    requires PartOf(b, a) && Acceptable(a)
    ensures Acceptable(b)
  {
    AcceptableMeans(a);
    AcceptableMeans(b);
    var f := PartEmbeds(b, a);
    forall p | p in b ensures !IsInvalid(p) {
      var k :| 0 <= k < |b| && b[k] == p;
      assert a[f[k]] in a;
      AgreesAlike(a[f[k]], b[k], Tick(0), 0);
    }
    forall i, j, s | ArrivedBefore(b, i, j) && Occupies(b[i], s) && Occupies(b[j], s)
      ensures ConsentsTo(b[j], s, b[i].channelId)
    {
      PairStillAgreed(b, a, f, i, j, s);
    }
  }

  // ----- what becomes of the lineup

  predicate MoreAcknowledged(p: Option<Acknowledged>, q: Option<Acknowledged>) {
    && p.Some? == q.Some?
    && (p.Some? ==> p.value.number == q.value.number && p.value.occupants <= q.value.occupants)
  }

  /** `q` is `p` with an acknowledgement that names at least as many occupants. */
  predicate AsksForMore(p: Operation, q: Operation) {
    match p
    case UpdateChannel(id, number, ack) =>
      q.UpdateChannel? && q.channelId == id && q.number == number && MoreAcknowledged(ack, q.acknowledged)
    case CreateChannel(id, number, ack) =>
      q.CreateChannel? && q.tempId == id && q.createNumber == number && MoreAcknowledged(ack, q.acknowledged)
    case AssignNumbers(ids, start, ack) =>
      q.AssignNumbers? && q.channelIds == ids && q.start == start && MoreAcknowledged(ack, q.acknowledged)
    case _ => q == p
  }

  /** `b` is `a` without some of its occurrences of `x`. */
  predicate WithoutSome(b: seq<int>, a: seq<int>, x: int) {
    if a == [] then b == []
    else (b != [] && b[0] == a[0] && WithoutSome(b[1..], a[1..], x)) || (a[0] == x && WithoutSome(b, a[1..], x))
  }

  lemma {:induction false} WithoutSomeAppend(b: seq<int>, a: seq<int>, x: int, c: int)
    requires WithoutSome(b, a, x)
    ensures WithoutSome(b + [c], a + [c], x)
    ensures c == x ==> WithoutSome(b, a + [c], x)
  {
    if a == [] {
      assert a + [c] == [c] && b + [c] == [c] && [c][1..] == [];
    } else {
      assert (a + [c])[1..] == a[1..] + [c];
      if b != [] && b[0] == a[0] && WithoutSome(b[1..], a[1..], x) {
        assert (b + [c])[1..] == b[1..] + [c];
        WithoutSomeAppend(b[1..], a[1..], x, c);
      } else {
        WithoutSomeAppend(b, a[1..], x, c);
      }
    }
  }

  lemma {:induction false} WithoutSomeRemove(b: seq<int>, a: seq<int>, x: int, d: int)
    requires WithoutSome(b, a, x)
    ensures WithoutSome(Remove(b, d), Remove(a, d), x)
  {
    if a != [] {
      if b != [] && b[0] == a[0] && WithoutSome(b[1..], a[1..], x) {
        WithoutSomeRemove(b[1..], a[1..], x, d);
      } else {
        WithoutSomeRemove(b, a[1..], x, d);
      }
    }
  }

  lemma {:induction false} RemoveAbsent(s: seq<int>, x: int)
    requires x !in s
    ensures Remove(s, x) == s
  {
    if s != [] { RemoveAbsent(s[1..], x); }
  }

  /** `b` is `a` but perhaps for channel `x`, each channel agreeing to no less. */
  ghost predicate Trimmed(a: Lineup, b: Lineup, x: int) {
    && (forall c :: c in b.byId ==> c in a.byId && AgreesToMore(a.byId[c], b.byId[c]))
    && (forall c :: c in a.byId && c != x ==> c in b.byId)
    && WithoutSome(b.order, a.order, x)
    && (x in b.order ==> x in b.byId)
  }

  lemma TrimmedSet(a: Lineup, b: Lineup, x: int, id: int, value: Value, index: nat, c: Option<Consent>,
                   d: Option<Consent>)
    requires Trimmed(a, b, x) && c.Some? == d.Some?
    requires c.Some? ==> c.value.slot == d.value.slot && c.value.occupants <= d.value.occupants
    ensures Trimmed(SetNumber(a, id, value, index, c), SetNumber(b, id, value, index, d), x)
  {
  }

  lemma {:induction false} TrimmedAssign(a: Lineup, b: Lineup, x: int, ids: seq<int>, start: Value, index: nat,
                                         c: Option<Consent>, d: Option<Consent>)
    requires Trimmed(a, b, x) && c.Some? == d.Some?
    requires c.Some? ==> c.value.slot == d.value.slot && c.value.occupants <= d.value.occupants
    ensures Trimmed(Assign(a, ids, start, index, c), Assign(b, ids, start, index, d), x)
  {
    if ids != [] {
      var earlier := ids[..|ids| - 1];
      TrimmedAssign(a, b, x, earlier, start, index, c, d);
      TrimmedSet(Assign(a, earlier, start, index, c), Assign(b, earlier, start, index, d), x,
                 ids[|ids| - 1], Plus(start, |ids| - 1), index, c, d);
    }
  }

  lemma TrimmedAdd(a: Lineup, b: Lineup, x: int, p: Placement, q: Placement)
    requires Trimmed(a, b, x) && AgreesToMore(p, q)
    ensures Trimmed(Add(a, p), Add(b, q), x)
    ensures p.channelId == x && x !in b.byId ==> Trimmed(Add(a, p), b, x)
  {
    WithoutSomeAppend(b.order, a.order, x, p.channelId);
  }

  lemma TrimmedStep(a: Lineup, b: Lineup, x: int, p: Operation, q: Operation, index: nat)
    requires Trimmed(a, b, x) && AsksForMore(p, q)
    ensures Trimmed(Step(a, p, index), Step(b, q, index), x)
  {
    match p {
      case UpdateChannel(id, number, ack) =>
        if number.Some? {
          TrimmedSet(a, b, x, id, number.value, index, ConsentOf(ack), ConsentOf(q.acknowledged));
        }
      case CreateChannel(id, number, ack) =>
        TrimmedAdd(a, b, x, Placement(id, number, Null, true, [index], ConsentOf(ack)),
                   Placement(id, number, Null, true, [index], ConsentOf(q.acknowledged)));
      case DeleteChannel(id) =>
        WithoutSomeRemove(b.order, a.order, x, id);
        if id !in b.byId && id in a.byId { RemoveAbsent(b.order, x); }
      case AssignNumbers(ids, start, ack) =>
        TrimmedAssign(a, b, x, ids, start, index, ConsentOf(ack), ConsentOf(q.acknowledged));
      case OtherOperation =>
    }
  }

  lemma {:induction false} TrimmedRun(a: Lineup, b: Lineup, x: int, ops: seq<Operation>, ops': seq<Operation>)
    requires Trimmed(a, b, x) && |ops| == |ops'|
    requires forall k :: 0 <= k < |ops| ==> AsksForMore(ops[k], ops'[k])
    ensures Trimmed(Run(a, ops), Run(b, ops'), x)
  {
    if ops != [] {
      var n := |ops| - 1;
      TrimmedRun(a, b, x, ops[..n], ops'[..n]);
      TrimmedStep(Run(a, ops[..n]), Run(b, ops'[..n]), x, ops[n], ops'[n], n);
    }
  }

  function WithoutChannel(existing: seq<Existing>, x: int): seq<Existing> {
    if existing == [] then [] else
      var rest, last := WithoutChannel(existing[..|existing| - 1], x), existing[|existing| - 1];
      if last.id == Some(x) then rest else rest + [last]
  }

  lemma {:induction false} TrimmedBegin(existing: seq<Existing>, x: int)
    ensures Trimmed(Begin(existing), Begin(WithoutChannel(existing, x)), x)
    ensures x !in Begin(WithoutChannel(existing, x)).byId
    ensures Trimmed(Begin(existing), Begin(existing), x)
  {
    if existing != [] {
      var before, last := existing[..|existing| - 1], existing[|existing| - 1];
      TrimmedBegin(before, x);
      var rest := WithoutChannel(before, x);
      assert (rest + [last])[..|rest|] == rest;
      if last.id.Some? {
        var p := Placement(last.id.value, last.number, last.number, false, [], None);
        TrimmedAdd(Begin(before), Begin(rest), x, p, p);
        TrimmedAdd(Begin(before), Begin(before), x, p, p);
      }
    }
  }

  // ----- and of what is read off it

  lemma {:induction false} PlacementsFront(lineup: Lineup, c: int, rest: seq<int>)
    ensures Placements(lineup, [c] + rest) ==
            (if c in lineup.byId then [lineup.byId[c]] else []) + Placements(lineup, rest)
  {
    if rest == [] {
      assert ([c] + rest)[..0] == [];
    } else {
      assert ([c] + rest)[..|rest|] == [c] + rest[..|rest| - 1];
      PlacementsFront(lineup, c, rest[..|rest| - 1]);
    }
  }

  lemma {:induction false} TrimmedPlacements(a: Lineup, b: Lineup, x: int, oa: seq<int>, ob: seq<int>)
    requires Trimmed(a, b, x) && WithoutSome(ob, oa, x)
    ensures PartOf(Placements(b, ob), Placements(a, oa))
  {
    if oa != [] {
      assert oa == [oa[0]] + oa[1..];
      PlacementsFront(a, oa[0], oa[1..]);
      if ob != [] && ob[0] == oa[0] && WithoutSome(ob[1..], oa[1..], x) {
        assert ob == [ob[0]] + ob[1..];
        PlacementsFront(b, ob[0], ob[1..]);
        TrimmedPlacements(a, b, x, oa[1..], ob[1..]);
        if oa[0] in a.byId {
          PartOneMore(Placements(b, ob[1..]), Placements(a, oa[1..]), a.byId[oa[0]],
                      if ob[0] in b.byId then [b.byId[ob[0]]] else []);
        } else {
          assert Placements(a, oa) == Placements(a, oa[1..]) && Placements(b, ob) == Placements(b, ob[1..]);
        }
      } else {
        TrimmedPlacements(a, b, x, oa[1..], ob);
        var none: seq<Placement> := [];
        assert none + Placements(b, ob) == Placements(b, ob);
        if oa[0] in a.byId {
          PartOneMore(Placements(b, ob), Placements(a, oa[1..]), a.byId[oa[0]], none);
        } else {
          assert Placements(a, oa) == Placements(a, oa[1..]);
        }
      }
    }
  }

  lemma PartOneMore(b: seq<Placement>, a: seq<Placement>, p: Placement, q: seq<Placement>)
    requires PartOf(b, a) && |q| <= 1 && (|q| == 1 ==> AgreesToMore(p, q[0]))
    ensures PartOf(q + b, [p] + a)
  {
    assert ([p] + a)[1..] == a;
    if |q| == 1 {
      assert (q + b)[1..] == b;
    } else {
      assert q + b == b;
    }
  }

  /** An accepted request stays accepted when a channel is taken from the lineup it starts from, or
      its acknowledgements are made to name more occupants. */
  lemma ConsentIsMonotone(existing: seq<Existing>, existing': seq<Existing>, x: int, ops: seq<Operation>,
                          ops': seq<Operation>)
    requires existing' == existing || existing' == WithoutChannel(existing, x)
    requires |ops| == |ops'| && forall k :: 0 <= k < |ops| ==> AsksForMore(ops[k], ops'[k])
    requires Acceptable(FinalPlacements(existing, ops))
    ensures Acceptable(FinalPlacements(existing', ops'))
  {
    TrimmedBegin(existing, x);
    TrimmedRun(Begin(existing), Begin(existing'), x, ops, ops');
    var a, b := Run(Begin(existing), ops), Run(Begin(existing'), ops');
    TrimmedPlacements(a, b, x, a.order, b.order);
    PartAcceptable(Placements(b, b.order), Placements(a, a.order));
  }

  // ----- nothing asked, nothing reported

  lemma {:induction false} UntouchedBegin(existing: seq<Existing>)
    ensures forall c :: c in Begin(existing).byId ==>
              var p := Begin(existing).byId[c]; p.touchedBy == [] && !p.isNew && p.number == p.baseNumber
  {
    if existing != [] { UntouchedBegin(existing[..|existing| - 1]); }
  }

  lemma {:induction false} FromLineup(lineup: Lineup, order: seq<int>, i: nat)
    requires i < |Placements(lineup, order)|
    ensures exists c :: c in order && c in lineup.byId && Placements(lineup, order)[i] == lineup.byId[c]
  {
    var earlier, id := order[..|order| - 1], order[|order| - 1];
    if i < |Placements(lineup, earlier)| {
      FromLineup(lineup, earlier, i);
    } else {
      assert id in order;
    }
  }

  /** With no operations nothing is reported, whatever duplicates and out-of-contract numbers the
      lineup already has; only a number too large for a double raises. */
  lemma NoOperationsAccepted(existing: seq<Existing>)
    ensures Acceptable(FinalPlacements(existing, []))
    ensures SomeRaises(FinalPlacements(existing, [])) <==>
              exists p :: p in FinalPlacements(existing, []) && TooLarge(p.number)
  {
    var lineup := Begin(existing);
    var placements := FinalPlacements(existing, []);
    UntouchedBegin(existing);
    forall i | 0 <= i < |placements|
      ensures !placements[i].Placed() && (Raises(placements[i]) <==> TooLarge(placements[i].number)) {
      FromLineup(lineup, lineup.order, i);
    }
    forall p | p in placements ensures Raises(p) <==> TooLarge(p.number) {}
    AcceptableMeans(placements);
  }

  /** 2^1024 is such a number. */
  lemma TooLargeRaisesUntouched()
    ensures TooLarge(Int(Pow2(1024)))
    ensures SomeRaises(FinalPlacements([Existing(Some(0), Int(Pow2(1024)))], []))
  {
    PowerIsDouble(1024);
    TooLargeUntouched(Pow2(1024));
  }

  lemma TooLargeUntouched(n: int)
    requires TooLarge(Int(n))
    ensures SomeRaises(FinalPlacements([Existing(Some(0), Int(n))], []))
  {
    var existing := [Existing(Some(0), Int(n))];
    var p := Placement(0, Int(n), Int(n), false, [], None);
    assert existing[..0] == [];
    assert Begin(existing) == Lineup(map[0 := p], [0]);
    assert [0][..0] == [];
    assert Placements(Begin(existing), [0]) == [p];
    assert Raises(p) && p in FinalPlacements(existing, []);
  }

  lemma {:induction false} PowerIsDouble(k: nat)
    requires k >= 53
    ensures Magnitude(Pow2(k) as real, 0) == Pow2(k) as real >= TWO_53 as real
  {
    if k == 53 {
      PowersTo53();
    } else {
      PowerIsDouble(k - 1);
      assert Pow2(k) as real / 2.0 == Pow2(k - 1) as real;
    }
  }

  lemma PowersTo53()
    ensures Pow2(53) == TWO_53 && Magnitude(TWO_53 as real, 0) == TWO_53 as real
  {
    assert Magnitude(TWO_52 as real, 0) == TWO_52 as real;
    assert Pow2(10) == 1024;
    assert Pow2(20) == 0x10_0000;
    assert Pow2(30) == 0x4000_0000;
    assert Pow2(40) == 0x100_0000_0000;
    assert Pow2(50) == 0x4_0000_0000_0000;
  }

  // ----- arrival is strict

  /** The number an operation puts channel `c` on, if it does. */
  function GivenBy(op: Operation, c: int): Option<Value> {
    match op
    case UpdateChannel(id, number, _) => if id == c then number else None
    case CreateChannel(id, number, _) => if id == c then Some(number) else None
    case AssignNumbers(ids, start, _) => GivenInRange(ids, start, c)
    case _ => None
  }

  function GivenInRange(ids: seq<int>, start: Value, c: int): Option<Value> {
    if ids == [] then None
    else if ids[|ids| - 1] == c then Some(Plus(start, |ids| - 1))
    else GivenInRange(ids[..|ids| - 1], start, c)
  }

  /** Each channel touched is on the number the last operation to touch it gave. */
  ghost predicate LastWins(lineup: Lineup, ops: seq<Operation>) {
    forall c :: c in lineup.byId ==>
      var p := lineup.byId[c];
      && p.channelId == c
      && (p.touchedBy != [] ==>
            0 <= LastTouch(p) < |ops| && GivenBy(ops[LastTouch(p)], c) == Some(p.number))
  }

  lemma {:induction false} AssignLastWins(lineup: Lineup, ops: seq<Operation>, ids: seq<int>, start: Value, index: nat,
                                          d: Option<Consent>, c: int)
    requires c in lineup.byId
    ensures c in Assign(lineup, ids, start, index, d).byId
    ensures var p := Assign(lineup, ids, start, index, d).byId[c];
            match GivenInRange(ids, start, c)
            case None => p == lineup.byId[c]
            case Some(v) => p.number == v && p.touchedBy != [] && LastTouch(p) == index &&
                            p.channelId == lineup.byId[c].channelId
  {
    if ids != [] { AssignLastWins(lineup, ops, ids[..|ids| - 1], start, index, d, c); }
  }

  lemma {:induction false} AssignDomain(lineup: Lineup, ids: seq<int>, start: Value, index: nat, d: Option<Consent>)
    ensures Assign(lineup, ids, start, index, d).byId.Keys == lineup.byId.Keys
  {
    if ids != [] { AssignDomain(lineup, ids[..|ids| - 1], start, index, d); }
  }

  lemma StepLastWins(lineup: Lineup, ops: seq<Operation>, op: Operation)
    requires LastWins(lineup, ops)
    ensures LastWins(Step(lineup, op, |ops|), ops + [op])
  {
    var after := Step(lineup, op, |ops|);
    forall c | c in after.byId
      ensures var p := after.byId[c];
              p.channelId == c && (p.touchedBy != [] ==>
                0 <= LastTouch(p) < |ops| + 1 && GivenBy((ops + [op])[LastTouch(p)], c) == Some(p.number))
    {
      match op {
        case AssignNumbers(ids, start, ack) =>
          AssignDomain(lineup, ids, start, |ops|, ConsentOf(ack));
          AssignLastWins(lineup, ops, ids, start, |ops|, ConsentOf(ack), c);
        case _ =>
      }
    }
  }

  lemma {:induction false} RunLastWins(existing: seq<Existing>, ops: seq<Operation>)
    ensures LastWins(Run(Begin(existing), ops), ops)
  {
    if ops == [] {
      BeginLastWins(existing);
    } else {
      RunLastWins(existing, ops[..|ops| - 1]);
      StepLastWins(Run(Begin(existing), ops[..|ops| - 1]), ops[..|ops| - 1], ops[|ops| - 1]);
      assert ops == ops[..|ops| - 1] + [ops[|ops| - 1]];
    }
  }

  lemma {:induction false} BeginLastWins(existing: seq<Existing>)
    ensures LastWins(Begin(existing), [])
  {
    if existing != [] { BeginLastWins(existing[..|existing| - 1]); }
  }

  lemma {:induction false} GivenOffset(ids: seq<int>, start: Value, c: int) returns (o: nat)
    requires GivenInRange(ids, start, c).Some?
    ensures o < |ids| && ids[o] == c && GivenInRange(ids, start, c) == Some(Plus(start, o))
  {
    if ids[|ids| - 1] == c { o := |ids| - 1; } else { o := GivenOffset(ids[..|ids| - 1], start, c); }
  }

  /** None of a range's numbers has the slot of the next. */
  ghost predicate RangeClear(start: Value, count: nat) {
    forall o: nat :: o + 1 < count ==> !NumberMeets(start, o)
  }

  /** Every range starts, as the request model demands, at a number in contract or at none, and is clear. */
  ghost predicate RangesClear(ops: seq<Operation>) {
    forall k :: 0 <= k < |ops| && ops[k].AssignNumbers? ==>
      IsStart(ops[k].start) && RangeClear(ops[k].start, |ops[k].channelIds|)
  }

  lemma ClearSlotsDiffer(start: Value, count: nat, o: nat, o': nat)
    requires IsStart(start) && RangeClear(start, count) && o < o' < count
    ensures SlotOf(Plus(start, o)) != SlotOf(Plus(start, o')) || SlotOf(Plus(start, o')).None?
  {
    assert !NumberMeets(start, o);
    if SlotOf(Plus(start, o')).Some? { NoneMeet(start, o, o'); }
  }

  /** Then no two channels placed on one slot were placed there by the same operation. */
  lemma ArrivalIsStrict(existing: seq<Existing>, ops: seq<Operation>, i: nat, j: nat, s: Slot)
    requires RangesClear(ops)
    requires var placements := FinalPlacements(existing, ops);
             && i < |placements| && j < |placements|
             && placements[i].Placed() && placements[j].Placed()
             && Occupies(placements[i], s) && Occupies(placements[j], s)
             && placements[i].channelId != placements[j].channelId
    ensures LastTouch(FinalPlacements(existing, ops)[i]) != LastTouch(FinalPlacements(existing, ops)[j])
  {
    var lineup := Run(Begin(existing), ops);
    RunLastWins(existing, ops);
    FromLineup(lineup, lineup.order, i);
    FromLineup(lineup, lineup.order, j);
    var p, q := FinalPlacements(existing, ops)[i], FinalPlacements(existing, ops)[j];
    if LastTouch(p) == LastTouch(q) {
      GivenSlotsDiffer(ops[LastTouch(p)], p.channelId, q.channelId, p.number, q.number);
    }
  }

  lemma GivenSlotsDiffer(op: Operation, c: int, d: int, a: Value, b: Value)
    requires op.AssignNumbers? ==> IsStart(op.start) && RangeClear(op.start, |op.channelIds|)
    requires c != d && GivenBy(op, c) == Some(a) && GivenBy(op, d) == Some(b)
    ensures SlotOf(a) != SlotOf(b) || SlotOf(a).None?
  {
    var o := GivenOffset(op.channelIds, op.start, c);
    var o' := GivenOffset(op.channelIds, op.start, d);
    if o < o' {
      ClearSlotsDiffer(op.start, |op.channelIds|, o, o');
    } else {
      ClearSlotsDiffer(op.start, |op.channelIds|, o', o);
    }
  }

  const TWO_CHANNELS: seq<Existing> := [Existing(Some(0), Null), Existing(Some(1), Null)]

  /** Where a range's first number meets the next, one operation puts two channels on one slot. */
  lemma MeetingArrivesTogether(start: Value)
    requires IsStart(start) && NumberMeets(start, 0) && SlotOf(Plus(start, 1)).Some?
    ensures var placements := FinalPlacements(TWO_CHANNELS, [AssignNumbers(PAIR, start, None)]);
            && |placements| == 2 && placements[0].Placed() && placements[1].Placed()
            && LastTouch(placements[0]) == LastTouch(placements[1])
            && exists s :: Occupies(placements[0], s) && Occupies(placements[1], s)
  {
    NumberMeetsIff(start, 0);
    TwoPlaced(start);
    StartIsLarge(start);
    LargeValid(start, 0);
    LargeValid(start, 1);
    var s := SlotOf(Plus(start, 1)).value;
    OnSlot(0, Plus(start, 0), s);
    OnSlot(1, Plus(start, 1), s);
  }

  lemma OnSlot(id: int, number: Value, s: Slot)
    requires IsValid(number) && SlotOf(number) == Some(s)
    ensures var p := Placement(id, number, Null, false, [0], None); p.Placed() && Occupies(p, s)
  {
  }

  const PAIR: seq<int> := [0, 1]

  lemma TwoBegun()
    ensures Begin(TWO_CHANNELS) ==
              Lineup(map[0 := Placement(0, Null, Null, false, [], None),
                         1 := Placement(1, Null, Null, false, [], None)],
                     PAIR)
  {
    var p, q := Placement(0, Null, Null, false, [], None), Placement(1, Null, Null, false, [], None);
    assert TWO_CHANNELS[..1] == [TWO_CHANNELS[0]] && [TWO_CHANNELS[0]][..0] == [];
    assert Begin([TWO_CHANNELS[0]]) == Lineup(map[0 := p], [0]);
    assert Begin(TWO_CHANNELS) == Add(Begin([TWO_CHANNELS[0]]), q);
    assert [0] + [1] == PAIR;
    assert map[0 := p][1 := q] == map[0 := p, 1 := q];
  }

  lemma TwoAssigned(lineup: Lineup, start: Value)
    requires 0 in lineup.byId && 1 in lineup.byId
    requires lineup.byId[0].touchedBy == [] && lineup.byId[1].touchedBy == []
    ensures var done := Assign(lineup, PAIR, start, 0, None);
            && done.order == lineup.order && 0 in done.byId && 1 in done.byId
            && done.byId[0] == lineup.byId[0].(number := Plus(start, 0), touchedBy := [0], consent := None)
            && done.byId[1] == lineup.byId[1].(number := Plus(start, 1), touchedBy := [0], consent := None)
  {
    assert PAIR[..1] == [0] && [0][..0] == [];
    assert Assign(lineup, [0], start, 0, None) == SetNumber(lineup, 0, Plus(start, 0), 0, None);
    assert [] + [0] == [0];
  }

  lemma TwoPlaced(start: Value)
    ensures FinalPlacements(TWO_CHANNELS, [AssignNumbers(PAIR, start, None)]) ==
              [Placement(0, Plus(start, 0), Null, false, [0], None),
               Placement(1, Plus(start, 1), Null, false, [0], None)]
  {
    var op := AssignNumbers(PAIR, start, None);
    TwoBegun();
    TwoAssigned(Begin(TWO_CHANNELS), start);
    var ops := [op];
    assert ops[..0] == [];
    var done := Run(Begin(TWO_CHANNELS), ops);
    assert done == Step(Run(Begin(TWO_CHANNELS), ops[..0]), op, 0);
    assert done == Assign(Begin(TWO_CHANNELS), PAIR, start, 0, None);
    assert PAIR[..1] == [0] && [0][..0] == [];
    assert Placements(done, [0]) == [done.byId[0]];
    assert Placements(done, PAIR) == [done.byId[0], done.byId[1]];
  }

  lemma StartIsLarge(start: Value)
    requires NumberMeets(start, 0)
    ensures StartOf(start) >= TWO_52 as real
  {
    assert StartOf(start) + 0 as real == StartOf(start);
  }

  lemma LargeValid(start: Value, o: nat)
    requires IsStart(start) && StartOf(start) >= TWO_52 as real && SlotOf(Plus(start, o)).Some?
    ensures IsValid(Plus(start, o))
  {
    var y := StartOf(start) + o as real;
    LargeGrows(TWO_52 as real, y);
    LargeAccepted(Magnitude(y, 0));
    if start.Int? { assert (start.n + o) as real == y; }
  }
}
