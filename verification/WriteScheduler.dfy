/** The scheduling loop inside `order_numbering_writes`, over positions and who blocks whom
    (backend/channel_number_apply.py:193-251). */
module WriteScheduler {
  import opened Common

  /** For each position, the positions to be written before it. */
  type Graph = map<int, set<int>>

  function Range(n: nat): (r: seq<int>)
    ensures |r| == n && forall i :: 0 <= i < n ==> r[i] == i
    ensures forall p :: p in r <==> 0 <= p < n
  {
    if n == 0 then [] else Range(n - 1) + [n - 1]
  }

  function Positions(n: nat): (r: set<int>)
    ensures forall p :: p in r <==> 0 <= p < n
  {
    set p | p in Range(n)
  }

  predicate Blocks(g: Graph, h: int, p: int) {
    p in g && h in g[p]
  }

  ghost predicate IsGraph(g: Graph, n: nat) {
    && g.Keys == Positions(n)
    && forall h, p :: Blocks(g, h, p) ==> 0 <= h < n && h != p
  }

  ghost predicate IsReverse(g: Graph, r: Graph) {
    && r.Keys == g.Keys
    && forall h, p :: Blocks(r, p, h) <==> Blocks(g, h, p)
  }

  // ----- what the order is for

  /** Each position is blocked by the next one. */
  ghost predicate IsChain(g: Graph, c: seq<int>) {
    NoDup(c) && forall i, j :: 0 <= i && j == i + 1 < |c| ==> Blocks(g, c[j], c[i])
  }

  ghost predicate IsCycle(g: Graph, c: seq<int>) {
    |c| >= 2 && IsChain(g, c) && Blocks(g, c[0], c[|c| - 1])
  }

  /** The position at `i` comes before one that blocks it. */
  ghost predicate TooEarly(g: Graph, order: seq<int>, i: int)
    requires 0 <= i < |order|
  {
    exists h :: Blocks(g, h, order[i]) && h !in order[..i]
  }

  ghost predicate IsPermutation(order: seq<int>, n: nat) {
    NoDup(order) && forall p :: p in order <==> 0 <= p < n
  }

  /** A cycle and the member of it that had to go first. */
  datatype Break = Break(at: int, cycle: seq<int>)

  /** The lowest member of a genuine cycle, none of which had been written before it. */
  ghost predicate IsBreak(g: Graph, order: seq<int>, b: Break) {
    && IsCycle(g, b.cycle)
    && b.at in b.cycle && b.at in order
    && (forall q :: q in b.cycle ==> b.at <= q)
    && forall i, q :: 0 <= i < |order| && order[i] == b.at && q in b.cycle ==> q !in order[..i]
  }

  predicate BreaksAt(breaks: seq<Break>, p: int) {
    exists k :: 0 <= k < |breaks| && breaks[k].at == p
  }

  /** The order is safe but for the breaks, and each break is one position out of order. */
  ghost predicate SafeButFor(g: Graph, order: seq<int>, breaks: seq<Break>) {
    && (forall k :: 0 <= k < |breaks| ==> IsBreak(g, order, breaks[k]))
    && (forall k, l :: 0 <= k < l < |breaks| ==> breaks[k].at != breaks[l].at)
    && forall i :: 0 <= i < |order| ==> (TooEarly(g, order, i) <==> BreaksAt(breaks, order[i]))
  }

  // ----- which order it is

  /** Nothing that blocks the position is still to be written. */
  ghost predicate IsFree(g: Graph, done: seq<int>, p: int) {
    forall h :: Blocks(g, h, p) ==> h in done
  }

  ghost predicate IsLeft(n: nat, done: seq<int>, p: int) {
    0 <= p < n && p !in done
  }

  ghost predicate IsEarliestLeft(n: nat, done: seq<int>, p: int) {
    IsLeft(n, done, p) && forall q :: IsLeft(n, done, q) ==> p <= q
  }

  /** Of the positions still to be written that block `p`, the earliest submitted. */
  ghost predicate IsFirstBlocker(g: Graph, done: seq<int>, p: int, h: int) {
    Blocks(g, h, p) && h !in done && forall q :: Blocks(g, q, p) && q !in done ==> h <= q
  }

  /** A walk from the earliest position left, each step to the first blocker, until it comes back to where it was
      at its `k`th. */
  ghost predicate IsWalk(g: Graph, n: nat, done: seq<int>, walk: seq<int>, k: nat) {
    && k < |walk| && NoDup(walk) && IsEarliestLeft(n, done, walk[0])
    && (forall i, j :: 0 <= i && j == i + 1 < |walk| ==> IsFirstBlocker(g, done, walk[i], walk[j]))
    && IsFirstBlocker(g, done, walk[|walk| - 1], walk[k])
  }

  ghost predicate IsEarliestOf(members: seq<int>, p: int) {
    p in members && forall q :: q in members ==> p <= q
  }

  /** What comes after `done`: all that are free, in submitted order; or if none is, the earliest submitted member of
      the cycle that the walk comes to. */
  ghost predicate IsNext(g: Graph, n: nat, done: seq<int>, next: seq<int>) {
    if exists p :: IsLeft(n, done, p) && IsFree(g, done, p) then
      Ascending(next) && forall p :: p in next <==> IsLeft(n, done, p) && IsFree(g, done, p)
    else
      |next| == 1 && exists walk, k: nat :: IsWalk(g, n, done, walk, k) && IsEarliestOf(walk[k..], next[0])
  }

  /** The order goes in rounds, which begin at these places. */
  ghost predicate InRounds(g: Graph, n: nat, order: seq<int>, starts: seq<nat>) {
    && starts != [] && starts[0] == 0 && starts[|starts| - 1] == |order|
    && forall r: nat :: r + 1 < |starts| ==> RoundAt(g, n, order, starts, r)
  }

  ghost predicate RoundAt(g: Graph, n: nat, order: seq<int>, starts: seq<nat>, r: nat)
    requires r + 1 < |starts|
  {
    IsRound(g, n, order, starts[r], starts[r + 1])
  }

  ghost predicate IsRound(g: Graph, n: nat, order: seq<int>, from: nat, upto: nat) {
    from < upto <= |order| && IsNext(g, n, order[..from], order[from..upto])
  }

  lemma RoundKept(g: Graph, n: nat, order: seq<int>, next: seq<int>, from: nat, upto: nat)
    requires IsRound(g, n, order, from, upto)
    ensures IsRound(g, n, order + next, from, upto)
  {
    assert (order + next)[..from] == order[..from] && (order + next)[from..upto] == order[from..upto];
  }

  lemma RoundAdded(g: Graph, n: nat, order: seq<int>, next: seq<int>)
    requires next != [] && IsNext(g, n, order, next)
    ensures IsRound(g, n, order + next, |order|, |order| + |next|)
  {
    assert (order + next)[..|order|] == order && (order + next)[|order|..|order| + |next|] == next;
  }

  lemma OneMoreRound(g: Graph, n: nat, order: seq<int>, starts: seq<nat>, next: seq<int>)
    requires InRounds(g, n, order, starts) && next != [] && IsNext(g, n, order, next)
    ensures InRounds(g, n, order + next, starts + [|order| + |next|])
  {
    var more, marks := order + next, starts + [|order| + |next|];
    forall r: nat | r + 1 < |marks| ensures RoundAt(g, n, more, marks, r) {
      if r + 1 < |starts| {
        assert RoundAt(g, n, order, starts, r);
        RoundKept(g, n, order, next, starts[r], starts[r + 1]);
      } else {
        RoundAdded(g, n, order, next);
      }
    }
  }

  lemma {:induction false} SameAscending(a: seq<int>, b: seq<int>)
    requires Ascending(a) && Ascending(b) && forall p :: p in a <==> p in b
    ensures a == b
  {
    SameEmpty(a, b);
    if a != [] {
      var m, n := |a| - 1, |b| - 1;
      assert a[m] in b && b[n] in a;
      assert a[m] == b[n];
      SameWithoutLast(a, b, a[..m], b[..n]);
      SameAscending(a[..m], b[..n]);
      assert a == a[..m] + [a[m]] && b == b[..n] + [b[n]];
    }
  }

  lemma SameEmpty(a: seq<int>, b: seq<int>)
    requires forall p :: p in a <==> p in b
    ensures a == [] <==> b == []
  {
    if a != [] {
      var x := a[0];
      assert x in a;
      assert x in b;
    }
    if b != [] {
      var x := b[0];
      assert x in b;
      assert x in a;
    }
  }

  lemma SameWithoutLast(a: seq<int>, b: seq<int>, a': seq<int>, b': seq<int>)
    requires a != [] && b != [] && Ascending(a) && Ascending(b) && (forall p :: p in a <==> p in b)
    requires a' == a[..|a| - 1] && b' == b[..|b| - 1] && a[|a| - 1] == b[|b| - 1]
    ensures forall p :: p in a' <==> p in b'
  {
    forall p ensures p in a' <==> p in a && p != a[|a| - 1] { WithoutLast(a, a', p); }
    forall p ensures p in b' <==> p in b && p != b[|b| - 1] { WithoutLast(b, b', p); }
  }

  lemma WithoutLast(a: seq<int>, a': seq<int>, p: int)
    requires a != [] && Ascending(a) && a' == a[..|a| - 1]
    ensures p in a' <==> p in a && p != a[|a| - 1]
  {
    assert a == a' + [a[|a| - 1]];
    if i :| 0 <= i < |a'| && a'[i] == p { assert a[i] < a[|a| - 1]; }
  }

  lemma {:induction false} SameWalk(g: Graph, n: nat, done: seq<int>, a: seq<int>, b: seq<int>, k: nat, l: nat, i: nat)
    requires IsWalk(g, n, done, a, k) && IsWalk(g, n, done, b, l) && i < |a| && i < |b|
    ensures a[i] == b[i]
  {
    if i > 0 {
      SameWalk(g, n, done, a, b, k, l, i - 1);
      assert IsFirstBlocker(g, done, a[i - 1], a[i]) && IsFirstBlocker(g, done, b[i - 1], b[i]);
    }
  }

  lemma WalkIsNoLonger(g: Graph, n: nat, done: seq<int>, a: seq<int>, b: seq<int>, k: nat, l: nat)
    requires IsWalk(g, n, done, a, k) && IsWalk(g, n, done, b, l)
    ensures |b| <= |a|
  {
    if |a| < |b| {
      var m := |a| - 1;
      SameWalk(g, n, done, a, b, k, l, m);
      SameWalk(g, n, done, a, b, k, l, k);
      NextInWalk(g, n, done, b, l, m, a[k]);
    }
  }

  lemma NextInWalk(g: Graph, n: nat, done: seq<int>, walk: seq<int>, k: nat, i: nat, h: int)
    requires IsWalk(g, n, done, walk, k) && i + 1 < |walk| && IsFirstBlocker(g, done, walk[i], h)
    ensures walk[i + 1] == h
  {
    assert IsFirstBlocker(g, done, walk[i], walk[i + 1]);
  }

  lemma WalkIsUnique(g: Graph, n: nat, done: seq<int>, a: seq<int>, b: seq<int>, k: nat, l: nat)
    requires IsWalk(g, n, done, a, k) && IsWalk(g, n, done, b, l)
    ensures a == b && k == l
  {
    WalkIsNoLonger(g, n, done, a, b, k, l);
    WalkIsNoLonger(g, n, done, b, a, l, k);
    forall i: nat | i < |a| ensures a[i] == b[i] { SameWalk(g, n, done, a, b, k, l, i); }
    assert a[k] == b[l];
  }

  lemma NextIsUnique(g: Graph, n: nat, done: seq<int>, a: seq<int>, b: seq<int>)
    requires IsNext(g, n, done, a) && IsNext(g, n, done, b)
    ensures a == b
  {
    if exists p :: IsLeft(n, done, p) && IsFree(g, done, p) {
      SameAscending(a, b);
    } else {
      var v, k: nat :| IsWalk(g, n, done, v, k) && IsEarliestOf(v[k..], a[0]);
      var w, l: nat :| IsWalk(g, n, done, w, l) && IsEarliestOf(w[l..], b[0]);
      WalkIsUnique(g, n, done, v, w, k, l);
      assert a[0] == b[0];
    }
  }

  /** However the order is come by, it is the only one that goes in such rounds. */
  lemma {:induction false} OrderIsDetermined(g: Graph, n: nat, a: seq<int>, s: seq<nat>, b: seq<int>, t: seq<nat>,
                                             r: nat)
    requires InRounds(g, n, a, s) && InRounds(g, n, b, t) && |a| == |b| && r < |s|
    ensures r < |t| && s[r] == t[r] <= |a| && a[..s[r]] == b[..s[r]]
    ensures r == |s| - 1 ==> a == b
  {
    if r > 0 {
      var q := r - 1;
      OrderIsDetermined(g, n, a, s, b, t, q);
      assert RoundAt(g, n, a, s, q);
      assert s[q] < |a|;
      assert q + 1 < |t|;
      assert RoundAt(g, n, b, t, q);
      NextIsUnique(g, n, a[..s[q]], a[s[q]..s[r]], b[t[q]..t[r]]);
      JoinRounds(a, b, s[q], s[r], t[r]);
    }
    if r == |s| - 1 { assert a[..s[r]] == a && b[..s[r]] == b; }
  }

  lemma JoinRounds(a: seq<int>, b: seq<int>, from: nat, upto: nat, upto': nat)
    requires from <= upto <= |a| && from <= upto' <= |b| && a[..from] == b[..from] && a[from..upto] == b[from..upto']
    ensures upto == upto' && a[..upto] == b[..upto]
  {
    assert |a[from..upto]| == upto - from && |b[from..upto']| == upto' - from;
    assert a[..upto] == a[..from] + a[from..upto] && b[..upto] == b[..from] + b[from..upto];
  }

  // ----- the loop

  /** `ordered` and `remaining` share the positions between them; `blockers` is what is left of `g`. */
  ghost predicate Running(g: Graph, n: nat, blockers: Graph, remaining: seq<int>, ordered: seq<int>) {
    && IsGraph(g, n)
    && Ascending(remaining) && NoDup(ordered)
    && (forall p :: 0 <= p < n <==> p in remaining || p in ordered)
    && (forall p :: p in remaining ==> p !in ordered)
    && blockers.Keys == g.Keys
    && forall h, p :: Blocks(blockers, h, p) <==> Blocks(g, h, p) && h in remaining
  }

  /** Write `position` next. */
  method Release(ghost g: Graph, n: nat, blocking: Graph, position: int,
                 blockers: Graph, remaining: seq<int>, ordered: seq<int>)
    returns (blockers': Graph, remaining': seq<int>, ordered': seq<int>)
    requires Running(g, n, blockers, remaining, ordered) && IsReverse(g, blocking)
    requires position in remaining
    ensures Running(g, n, blockers', remaining', ordered')
    ensures ordered' == ordered + [position] && remaining' == Remove(remaining, position)
    ensures forall h, p :: Blocks(blockers', h, p) <==> Blocks(blockers, h, p) && h != position
  {
    blockers' := map p | p in blockers ::
      if p in blocking[position] then blockers[p] - {position} else blockers[p];
    remaining' := Remove(remaining, position);
    ordered' := ordered + [position];
    RemoveAscending(remaining, position);
    forall h, p ensures Blocks(blockers', h, p) <==> Blocks(blockers, h, p) && h != position {
      if p in blockers {
        assert Blocks(blocking, p, position) <==> Blocks(g, position, p);
      }
    }
  }

  /** Writing a position no remaining one blocks keeps the order safe but for its breaks. */
  lemma ReleaseReady(g: Graph, n: nat, blockers: Graph, remaining: seq<int>, ordered: seq<int>,
                     breaks: seq<Break>, position: int)
    requires Running(g, n, blockers, remaining, ordered) && SafeButFor(g, ordered, breaks)
    requires position in remaining && blockers[position] == {}
    ensures SafeButFor(g, ordered + [position], breaks)
  {
    var order := ordered + [position];
    Prefixes(g, ordered, position);
    assert forall h :: Blocks(g, h, position) ==> h in ordered by {
      assert forall h :: !Blocks(blockers, h, position);
    }
    forall k | 0 <= k < |breaks| ensures IsBreak(g, order, breaks[k]) {
      assert IsBreak(g, ordered, breaks[k]);
    }
    assert !BreaksAt(breaks, position);
  }

  /** What holds of the positions already in an order holds when another is put after them. */
  lemma Prefixes(g: Graph, ordered: seq<int>, position: int)
    ensures forall i :: 0 <= i <= |ordered| ==> (ordered + [position])[..i] == ordered[..i]
    ensures forall i :: 0 <= i < |ordered| ==>
              (TooEarly(g, ordered + [position], i) <==> TooEarly(g, ordered, i))
  {
    forall i | 0 <= i < |ordered|
      ensures TooEarly(g, ordered + [position], i) <==> TooEarly(g, ordered, i)
    {
      assert (ordered + [position])[..i] == ordered[..i];
    }
  }

  /** Breaking a cycle that nothing has been written of adds one break. */
  lemma ReleaseBreak(g: Graph, n: nat, blockers: Graph, remaining: seq<int>, ordered: seq<int>,
                     breaks: seq<Break>, b: Break)
    requires Running(g, n, blockers, remaining, ordered) && SafeButFor(g, ordered, breaks)
    requires IsCycle(g, b.cycle) && b.at in b.cycle
    requires forall q :: q in b.cycle ==> q in remaining && b.at <= q
    ensures SafeButFor(g, ordered + [b.at], breaks + [b])
  {
    var order := ordered + [b.at];
    Prefixes(g, ordered, b.at);
    assert order[|ordered|] == b.at;
    var h := CycleBlocker(g, b.cycle, b.at);
    assert TooEarly(g, order, |ordered|) by { assert h !in order[..|ordered|]; }
    forall k | 0 <= k < |breaks| ensures IsBreak(g, order, breaks[k]) && breaks[k].at != b.at {
      assert IsBreak(g, ordered, breaks[k]);
    }
    OneMoreBreak(breaks, b);
    NewBreak(g, remaining, ordered, b);
  }

  lemma OneMoreBreak(breaks: seq<Break>, b: Break)
    ensures forall p :: BreaksAt(breaks + [b], p) <==> BreaksAt(breaks, p) || p == b.at
  {
    forall p ensures BreaksAt(breaks + [b], p) <==> BreaksAt(breaks, p) || p == b.at {
      if p == b.at { assert (breaks + [b])[|breaks|].at == p; }
      if k :| 0 <= k < |breaks| && breaks[k].at == p { assert (breaks + [b])[k].at == p; }
    }
  }

  lemma NewBreak(g: Graph, remaining: seq<int>, ordered: seq<int>, b: Break)
    requires IsCycle(g, b.cycle) && b.at in b.cycle
    requires forall q :: q in b.cycle ==> q in remaining && b.at <= q
    requires forall p :: p in remaining ==> p !in ordered
    ensures IsBreak(g, ordered + [b.at], b)
  {
    var order := ordered + [b.at];
    assert order[|ordered|] == b.at;
    forall i, q | 0 <= i < |order| && order[i] == b.at && q in b.cycle ensures q !in order[..i] {
      assert i == |ordered| && order[..i] == ordered;
    }
  }

  /** Every member of a cycle is blocked by another. */
  lemma CycleBlocker(g: Graph, c: seq<int>, q: int) returns (h: int)
    requires IsCycle(g, c) && q in c
    ensures h in c && Blocks(g, h, q)
  {
    var i :| 0 <= i < |c| && c[i] == q;
    h := if i < |c| - 1 then c[i + 1] else c[0];
  }

  /** Nothing is ready: walk from the earliest remaining position to a cycle. */
  method FindCycle(ghost g: Graph, n: nat, blockers: Graph, remaining: seq<int>, ghost ordered: seq<int>)
    returns (cycle: seq<int>, ghost walk: seq<int>, ghost start: nat)
    requires Running(g, n, blockers, remaining, ordered)
    requires remaining != [] && forall p :: p in remaining ==> blockers[p] != {}
    ensures IsCycle(g, cycle) && forall q :: q in cycle ==> q in remaining
    ensures IsWalk(g, n, ordered, walk, start) && cycle == walk[start..]
  {
    var seen: seq<int> := [];
    EarliestRemaining(g, n, blockers, remaining, ordered);
    var cursor := remaining[0];
    ghost var unseen := set p | p in remaining;
    while cursor !in seen
      invariant cursor in remaining
      invariant seen != [] ==> Blocks(g, cursor, seen[|seen| - 1])
      invariant IsChain(g, seen) && forall q :: q in seen ==> q in remaining
      invariant Walked(g, n, ordered, seen, cursor)
      invariant unseen == set p | p in remaining && p !in seen
      decreases unseen
    {
      assert cursor in unseen;
      ghost var was := seen;
      seen := seen + [cursor];
      assert forall q :: q in seen <==> q in was || q == cursor;
      unseen := unseen - {cursor};
      var next := Minimum(blockers[cursor]);
      assert Blocks(blockers, next, cursor);
      FirstOfBlockers(g, n, blockers, remaining, ordered, cursor, next);
      WalkOn(g, n, ordered, was, cursor, next);
      cursor := next;
    }
    var from := IndexOf(seen, cursor);
    cycle := seen[from..];
    CycleFromWalk(g, n, seen, from, cursor);
    walk, start := seen, from;
    WalkedBack(g, n, ordered, seen, cursor, from);
  }

  /** What has been walked through, and where it has led. */
  ghost predicate Walked(g: Graph, n: nat, done: seq<int>, seen: seq<int>, cursor: int) {
    if seen == [] then IsEarliestLeft(n, done, cursor)
    else
      && IsEarliestLeft(n, done, seen[0]) && IsFirstBlocker(g, done, seen[|seen| - 1], cursor)
      && forall i, j :: 0 <= i && j == i + 1 < |seen| ==> IsFirstBlocker(g, done, seen[i], seen[j])
  }

  lemma WalkOn(g: Graph, n: nat, done: seq<int>, seen: seq<int>, cursor: int, next: int)
    requires Walked(g, n, done, seen, cursor) && IsFirstBlocker(g, done, cursor, next)
    ensures Walked(g, n, done, seen + [cursor], next)
  {
    var more := seen + [cursor];
    forall i, j | 0 <= i && j == i + 1 < |more| ensures IsFirstBlocker(g, done, more[i], more[j]) {
      if j < |seen| { assert IsFirstBlocker(g, done, seen[i], seen[j]); }
    }
  }

  lemma WalkedBack(g: Graph, n: nat, done: seq<int>, seen: seq<int>, cursor: int, k: nat)
    requires Walked(g, n, done, seen, cursor) && NoDup(seen) && k < |seen| && seen[k] == cursor
    ensures IsWalk(g, n, done, seen, k)
  {
  }

  lemma EarliestRemaining(g: Graph, n: nat, blockers: Graph, remaining: seq<int>, ordered: seq<int>)
    requires Running(g, n, blockers, remaining, ordered) && remaining != []
    ensures IsEarliestLeft(n, ordered, remaining[0])
  {
    forall q | IsLeft(n, ordered, q) ensures remaining[0] <= q {
      assert q in remaining;
    }
    assert remaining[0] in remaining;
  }

  lemma FirstOfBlockers(g: Graph, n: nat, blockers: Graph, remaining: seq<int>, ordered: seq<int>, p: int, h: int)
    requires Running(g, n, blockers, remaining, ordered) && p in blockers && h in blockers[p]
    requires forall q :: q in blockers[p] ==> h <= q
    ensures IsFirstBlocker(g, ordered, p, h)
  {
    assert Blocks(blockers, h, p);
    forall q | Blocks(g, q, p) && q !in ordered ensures h <= q {
      assert Blocks(blockers, q, p);
    }
  }

  /** The walk has come back to where it was: what it passed through since is a cycle. */
  lemma CycleFromWalk(g: Graph, n: nat, seen: seq<int>, start: nat, cursor: int)
    requires IsGraph(g, n) && IsChain(g, seen) && start < |seen| && seen[start] == cursor
    requires Blocks(g, cursor, seen[|seen| - 1])
    ensures IsCycle(g, seen[start..])
  {
    var c := seen[start..];
    ChainSuffix(g, seen, start);
    assert start != |seen| - 1;
    assert c[0] == cursor && c[|c| - 1] == seen[|seen| - 1];
  }

  lemma ChainSuffix(g: Graph, s: seq<int>, k: nat)
    requires IsChain(g, s) && k <= |s|
    ensures IsChain(g, s[k..])
  {
    var c := s[k..];
    forall i, j | 0 <= i && j == i + 1 < |c| ensures Blocks(g, c[j], c[i]) {
      assert Blocks(g, s[k + j], s[k + i]);
    }
  }

  function IndexOf(s: seq<int>, x: int): (i: nat)
    requires x in s
    ensures i < |s| && s[i] == x
  {
    if s[0] == x then 0 else 1 + IndexOf(s[1..], x)
  }

  function Ready(blockers: Graph, remaining: seq<int>): (r: seq<int>)
    ensures forall p :: p in r <==> p in remaining && p in blockers && blockers[p] == {}
  {
    if remaining == [] then [] else
      assert remaining == [remaining[0]] + remaining[1..];
      var rest := Ready(blockers, remaining[1..]);
      if remaining[0] in blockers && blockers[remaining[0]] == {} then [remaining[0]] + rest else rest
  }

  lemma {:induction false} ReadyAscending(blockers: Graph, remaining: seq<int>)
    requires Ascending(remaining)
    ensures Ascending(Ready(blockers, remaining))
  {
    if remaining != [] {
      var rest := Ready(blockers, remaining[1..]);
      ReadyAscending(blockers, remaining[1..]);
      assert forall k :: 0 <= k < |rest| ==> rest[k] in rest;
    }
  }

  lemma {:induction false} AllOfThemReady(blockers: Graph, remaining: seq<int>)
    requires forall p :: p in remaining ==> p in blockers && blockers[p] == {}
    ensures Ready(blockers, remaining) == remaining
  {
    if remaining != [] {
      var first := remaining[0];
      assert first in remaining && first in blockers && blockers[first] == {};
      AllOfThemReady(blockers, remaining[1..]);
      assert Ready(blockers, remaining) == [first] + Ready(blockers, remaining[1..]);
    }
  }

  lemma Unblocked(blockers: Graph, fewer: Graph, position: int)
    requires position in blockers && position in fewer && blockers[position] == {}
    requires forall h, p :: Blocks(fewer, h, p) ==> Blocks(blockers, h, p)
    ensures fewer[position] == {}
  {
    EmptyOrMember(fewer[position]);
    assert forall h :: h in fewer[position] ==> Blocks(fewer, h, position);
  }

  ghost predicate FewerBlocks(fewer: Graph, blockers: Graph) {
    forall h, p :: Blocks(fewer, h, p) ==> Blocks(blockers, h, p)
  }

  /** Release one that was ready when the pass started, with `blockers`, and still is. */
  method ReleaseUnblocked(ghost g: Graph, n: nat, blocking: Graph, position: int, ghost breaks: seq<Break>,
                          ghost blockers: Graph, fewer: Graph, remaining: seq<int>, ordered: seq<int>)
    returns (fewer': Graph, remaining': seq<int>, ordered': seq<int>)
    requires Running(g, n, fewer, remaining, ordered) && SafeButFor(g, ordered, breaks)
    requires IsReverse(g, blocking) && FewerBlocks(fewer, blockers) && fewer.Keys == blockers.Keys
    requires position in remaining && blockers[position] == {}
    ensures Running(g, n, fewer', remaining', ordered') && SafeButFor(g, ordered', breaks)
    ensures FewerBlocks(fewer', blockers)
    ensures ordered' == ordered + [position] && remaining' == Remove(remaining, position)
  {
    Unblocked(blockers, fewer, position);
    ReleaseReady(g, n, fewer, remaining, ordered, breaks, position);
    fewer', remaining', ordered' := Release(g, n, blocking, position, fewer, remaining, ordered);
  }

  /** Release everything that was ready at the start of the pass. */
  method ReleaseAll(ghost g: Graph, n: nat, blocking: Graph, ready: seq<int>, ghost breaks: seq<Break>,
                    blockers: Graph, remaining: seq<int>, ordered: seq<int>)
    returns (blockers': Graph, remaining': seq<int>, ordered': seq<int>)
    requires Running(g, n, blockers, remaining, ordered) && SafeButFor(g, ordered, breaks)
    requires IsReverse(g, blocking) && NoDup(ready)
    requires forall k :: 0 <= k < |ready| ==> ready[k] in remaining && blockers[ready[k]] == {}
    ensures Running(g, n, blockers', remaining', ordered') && SafeButFor(g, ordered', breaks)
    ensures ordered' == ordered + ready
    ensures |remaining'| <= |remaining| && (ready != [] ==> |remaining'| < |remaining|)
  {
    blockers', remaining', ordered' := blockers, remaining, ordered;
    for pass := 0 to |ready|
      invariant Running(g, n, blockers', remaining', ordered') && SafeButFor(g, ordered', breaks)
      invariant ordered' == ordered + ready[..pass]
      invariant forall k :: pass <= k < |ready| ==> ready[k] in remaining'
      invariant FewerBlocks(blockers', blockers)
      invariant |remaining'| <= |remaining| && (pass > 0 ==> |remaining'| < |remaining|)
    {
      var position := ready[pass];
      assert ready[..pass + 1] == ready[..pass] + [position];
      blockers', remaining', ordered' :=
        ReleaseUnblocked(g, n, blocking, position, breaks, blockers, blockers', remaining', ordered');
    }
    assert ready[..|ready|] == ready;
  }

  lemma AllReady(g: Graph, n: nat, blockers: Graph, remaining: seq<int>, ordered: seq<int>)
    requires Running(g, n, blockers, remaining, ordered) && forall h, p :: !Blocks(g, h, p)
    ensures forall p :: p in remaining ==> p in blockers && blockers[p] == {}
  {
    forall p | p in remaining ensures p in blockers && blockers[p] == {} {
      EmptyOrMember(blockers[p]);
      assert forall h :: h in blockers[p] ==> Blocks(blockers, h, p);
    }
  }

  /** With nothing waiting on anything the first pass writes the plan as it stands. */
  lemma OnePass(g: Graph, n: nat, blockers: Graph, remaining: seq<int>, ordered: seq<int>)
    requires Running(g, n, blockers, remaining, ordered) && ordered == Range(n)
    ensures remaining == []
  {
    assert forall p :: p !in remaining;
    EmptyOrFirst(remaining);
  }

  method BreakCycle(ghost g: Graph, n: nat, blocking: Graph, breaks: seq<Break>,
                    blockers: Graph, remaining: seq<int>, ordered: seq<int>)
    returns (blockers': Graph, remaining': seq<int>, ordered': seq<int>, breaks': seq<Break>, ghost next: seq<int>)
    requires Running(g, n, blockers, remaining, ordered) && SafeButFor(g, ordered, breaks)
    requires IsReverse(g, blocking)
    requires remaining != [] && forall p :: p in remaining ==> blockers[p] != {}
    ensures Running(g, n, blockers', remaining', ordered') && SafeButFor(g, ordered', breaks')
    ensures |remaining'| < |remaining|
    ensures exists h, p :: Blocks(g, h, p)
    ensures next != [] && ordered' == ordered + next && IsNext(g, n, ordered, next)
  {
    var cycle;
    ghost var walk, start;
    cycle, walk, start := FindCycle(g, n, blockers, remaining, ordered);
    assert cycle[0] in cycle && Blocks(g, cycle[0], cycle[|cycle| - 1]);
    var members := set q | q in cycle;
    assert cycle[0] in members;
    var at := Minimum(members);
    assert forall q :: q in cycle ==> q in members;
    ReleaseBreak(g, n, blockers, remaining, ordered, breaks, Break(at, cycle));
    breaks' := breaks + [Break(at, cycle)];
    blockers', remaining', ordered' := Release(g, n, blocking, at, blockers, remaining, ordered);
    next := [at];
    NoneFree(g, n, blockers, remaining, ordered);
    assert IsEarliestOf(walk[start..], next[0]);
  }

  lemma NoneFree(g: Graph, n: nat, blockers: Graph, remaining: seq<int>, ordered: seq<int>)
    requires Running(g, n, blockers, remaining, ordered) && forall p :: p in remaining ==> blockers[p] != {}
    ensures !exists p :: IsLeft(n, ordered, p) && IsFree(g, ordered, p)
  {
    forall p | IsLeft(n, ordered, p) ensures !IsFree(g, ordered, p) {
      assert p in remaining;
      EmptyOrMember(blockers[p]);
      var h :| h in blockers[p];
      assert Blocks(blockers, h, p);
    }
  }

  /** What is ready is what is left and free. */
  lemma ReadyIsNext(g: Graph, n: nat, blockers: Graph, remaining: seq<int>, ordered: seq<int>)
    requires Running(g, n, blockers, remaining, ordered) && Ready(blockers, remaining) != []
    ensures IsNext(g, n, ordered, Ready(blockers, remaining))
  {
    var ready := Ready(blockers, remaining);
    ReadyAscending(blockers, remaining);
    forall p ensures p in ready <==> IsLeft(n, ordered, p) && IsFree(g, ordered, p) {
      if p in remaining {
        EmptyOrMember(blockers[p]);
        forall h ensures h in blockers[p] <==> Blocks(g, h, p) && h !in ordered {
          assert Blocks(blockers, h, p) <==> Blocks(g, h, p) && h in remaining;
          if Blocks(g, h, p) { assert 0 <= h < n; }
        }
      }
    }
    assert ready[0] in ready;
  }

  ghost predicate Unconstrained(g: Graph) {
    forall h, p :: !Blocks(g, h, p)
  }

  /** Without dependencies the plan is written as it stands, in one pass. */
  ghost predicate AsPlanned(g: Graph, n: nat, remaining: seq<int>, ordered: seq<int>) {
    Unconstrained(g) ==> (ordered == [] && remaining == Range(n)) || ordered == Range(n)
  }

  lemma AllReleased(g: Graph, n: nat, blockers: Graph, remaining: seq<int>, ordered: seq<int>)
    requires Running(g, n, blockers, remaining, ordered) && AsPlanned(g, n, remaining, ordered)
    requires Unconstrained(g) && remaining != []
    ensures ordered == [] && remaining == Range(n) && Ready(blockers, remaining) == remaining
  {
    if ordered == Range(n) { OnePass(g, n, blockers, remaining, ordered); }
    AllReady(g, n, blockers, remaining, ordered);
    AllOfThemReady(blockers, remaining);
  }

  /** One turn of the loop: release what is ready, or break a cycle. */
  method Turn(ghost g: Graph, n: nat, blocking: Graph, breaks: seq<Break>,
              blockers: Graph, remaining: seq<int>, ordered: seq<int>)
    returns (blockers': Graph, remaining': seq<int>, ordered': seq<int>, breaks': seq<Break>, ghost next: seq<int>)
    requires Running(g, n, blockers, remaining, ordered) && SafeButFor(g, ordered, breaks)
    requires IsReverse(g, blocking) && remaining != [] && AsPlanned(g, n, remaining, ordered)
    ensures Running(g, n, blockers', remaining', ordered') && SafeButFor(g, ordered', breaks')
    ensures |remaining'| < |remaining| && AsPlanned(g, n, remaining', ordered')
    ensures next != [] && ordered' == ordered + next && IsNext(g, n, ordered, next)
  {
    var ready := Ready(blockers, remaining);
    if Unconstrained(g) { AllReleased(g, n, blockers, remaining, ordered); }
    if ready != [] {
      ReadyAscending(blockers, remaining);
      assert forall k :: 0 <= k < |ready| ==> ready[k] in ready;
      blockers', remaining', ordered' := ReleaseAll(g, n, blocking, ready, breaks, blockers, remaining, ordered);
      breaks', next := breaks, ready;
      ReadyIsNext(g, n, blockers, remaining, ordered);
      assert [] + ready == ready;
    } else {
      assert forall p :: p in remaining ==> blockers[p] != {};
      blockers', remaining', ordered', breaks', next :=
        BreakCycle(g, n, blocking, breaks, blockers, remaining, ordered);
    }
  }

  lemma NoRounds(g: Graph, n: nat)
    ensures InRounds(g, n, [], [0])
  {
  }

  /** A turn is one more round of the order. */
  method NextRound(ghost g: Graph, n: nat, blocking: Graph, breaks: seq<Break>,
                   blockers: Graph, remaining: seq<int>, ordered: seq<int>, ghost starts: seq<nat>)
    returns (blockers': Graph, remaining': seq<int>, ordered': seq<int>, breaks': seq<Break>, ghost starts': seq<nat>)
    requires Running(g, n, blockers, remaining, ordered) && SafeButFor(g, ordered, breaks)
    requires IsReverse(g, blocking) && remaining != [] && AsPlanned(g, n, remaining, ordered)
    requires InRounds(g, n, ordered, starts)
    ensures Running(g, n, blockers', remaining', ordered') && SafeButFor(g, ordered', breaks')
    ensures |remaining'| < |remaining| && AsPlanned(g, n, remaining', ordered')
    ensures InRounds(g, n, ordered', starts')
  {
    ghost var next;
    blockers', remaining', ordered', breaks', next := Turn(g, n, blocking, breaks, blockers, remaining, ordered);
    OneMoreRound(g, n, ordered, starts, next);
    starts' := starts + [|ordered| + |next|];
  }

  /** The positions in an order to write them in, and the cycles that had to be broken. */
  method Schedule(ghost g: Graph, n: nat, initial: Graph, blocking: Graph)
    returns (ordered: seq<int>, breaks: seq<Break>, ghost starts: seq<nat>)
    requires IsGraph(g, n) && initial == g && IsReverse(g, blocking)
    ensures IsPermutation(ordered, n) && SafeButFor(g, ordered, breaks) && InRounds(g, n, ordered, starts)
    ensures Unconstrained(g) ==> ordered == Range(n)
  {
    var blockers := initial;
    var remaining := Range(n);
    ordered, breaks, starts := [], [], [0];
    NoRounds(g, n);
    while remaining != []
      invariant Running(g, n, blockers, remaining, ordered) && SafeButFor(g, ordered, breaks)
      invariant AsPlanned(g, n, remaining, ordered)
      invariant InRounds(g, n, ordered, starts)
      decreases |remaining|
    {
      blockers, remaining, ordered, breaks, starts :=
        NextRound(g, n, blocking, breaks, blockers, remaining, ordered, starts);
    }
  }

  // ----- what no order can do better

  /** Of the members of a cycle, the one an order puts first is too early in it. */
  lemma FirstOfCycle(g: Graph, order: seq<int>, n: nat, c: seq<int>) returns (i: nat)
    requires IsGraph(g, n) && IsPermutation(order, n) && IsCycle(g, c)
    ensures i < |order| && order[i] in c && TooEarly(g, order, i)
  {
    var m := CycleBlocker(g, c, c[0]);
    i := FirstIn(order, c);
    var h := CycleBlocker(g, c, order[i]);
  }

  /** The first place in an order held by a member of `c`. */
  lemma {:induction false} FirstIn(order: seq<int>, c: seq<int>) returns (i: nat)
    requires exists q :: q in c && q in order
    ensures i < |order| && order[i] in c && forall q :: q in c ==> q !in order[..i]
  {
    if order[0] in c {
      i := 0;
    } else {
      var rest := order[1..];
      assert order == [order[0]] + rest;
      var q :| q in c && q in order;
      assert q in rest;
      var j := FirstIn(rest, c);
      i := j + 1;
      assert order[..i] == [order[0]] + rest[..j];
    }
  }

  /** Cycles are reported exactly when there are cycles. */
  lemma BreaksIffCyclic(g: Graph, order: seq<int>, n: nat, breaks: seq<Break>)
    requires IsGraph(g, n) && IsPermutation(order, n) && SafeButFor(g, order, breaks)
    ensures breaks == [] <==> forall c :: !IsCycle(g, c)
  {
    if breaks == [] {
      forall c ensures !IsCycle(g, c) {
        if IsCycle(g, c) {
          var i := FirstOfCycle(g, order, n, c);
        }
      }
    } else {
      assert IsBreak(g, order, breaks[0]);
    }
  }

  /** No position waits for two others. */
  ghost predicate AtMostOneBlocker(g: Graph) {
    forall h, h', p :: Blocks(g, h, p) && Blocks(g, h', p) ==> h == h'
  }

  lemma {:induction false} WalkStaysIn(g: Graph, c: seq<int>, d: seq<int>, i: nat, j: nat)
    requires AtMostOneBlocker(g) && IsCycle(g, c) && IsCycle(g, d)
    requires i <= j < |c| && c[i] in d
    ensures c[j] in d
  {
    if i < j {
      WalkStaysIn(g, c, d, i, j - 1);
      var h := CycleBlocker(g, d, c[j - 1]);
      assert Blocks(g, c[j], c[j - 1]);
    }
  }

  /** Where nothing waits for two, cycles that meet are the same. */
  lemma MeetingCycles(g: Graph, c: seq<int>, d: seq<int>, q: int)
    requires AtMostOneBlocker(g) && IsCycle(g, c) && IsCycle(g, d) && q in c && q in d
    ensures forall p :: p in c ==> p in d
  {
    var i :| 0 <= i < |c| && c[i] == q;
    WalkStaysIn(g, c, d, i, |c| - 1);
    var h := CycleBlocker(g, d, c[|c| - 1]);
    assert c[0] in d;
    forall p | p in c ensures p in d {
      var j :| 0 <= j < |c| && c[j] == p;
      WalkStaysIn(g, c, d, 0, j);
    }
  }

  /** So the cycles reported are disjoint. */
  lemma DisjointCycles(g: Graph, order: seq<int>, b: Break, b': Break, q: int)
    requires NoDup(order) && AtMostOneBlocker(g) && IsBreak(g, order, b) && IsBreak(g, order, b')
    requires b.at != b'.at
    ensures !(q in b.cycle && q in b'.cycle)
  {
    if q in b.cycle && q in b'.cycle {
      var i :| 0 <= i < |order| && order[i] == b.at;
      var j :| 0 <= j < |order| && order[j] == b'.at;
      MeetingCycles(g, b.cycle, b'.cycle, q);
      MeetingCycles(g, b'.cycle, b.cycle, q);
      BreakIsFirst(g, order, b, j, i);
      BreakIsFirst(g, order, b', i, j);
    }
  }

  lemma InPrefix(order: seq<int>, i: int, j: int)
    requires 0 <= i < |order| && 0 <= j < |order|
    ensures i < j ==> order[i] in order[..j]
  {
    if i < j { assert order[..j][i] == order[i]; }
  }

  lemma BreakIsFirst(g: Graph, order: seq<int>, b: Break, i: int, j: int)
    requires IsBreak(g, order, b) && 0 <= i < |order| && 0 <= j < |order|
    requires order[i] in b.cycle && order[j] == b.at
    ensures j <= i
  {
    InPrefix(order, i, j);
    var q := order[i];
    assert q !in order[..j];
  }

  ghost predicate Early(g: Graph, order: seq<int>, p: int) {
    exists i :: 0 <= i < |order| && order[i] == p && TooEarly(g, order, i)
  }

  /** The positions an order writes before one that blocks them. */
  ghost function EarlyOnes(g: Graph, order: seq<int>, n: nat): set<int> {
    set p | p in Positions(n) && Early(g, order, p)
  }

  lemma {:induction false} EarlyInEachCycle(g: Graph, order: seq<int>, order': seq<int>, n: nat, breaks: seq<Break>,
                                            m: nat)
    returns (early: seq<int>)
    requires IsGraph(g, n) && IsPermutation(order', n) && SafeButFor(g, order, breaks) && m <= |breaks|
    ensures |early| == m
    ensures forall k :: 0 <= k < m ==> early[k] in breaks[k].cycle && early[k] in EarlyOnes(g, order', n)
  {
    if m == 0 {
      early := [];
    } else {
      early := EarlyInEachCycle(g, order, order', n, breaks, m - 1);
      assert IsBreak(g, order, breaks[m - 1]);
      var i := FirstOfCycle(g, order', n, breaks[m - 1].cycle);
      assert Early(g, order', order'[i]);
      assert order'[i] in order';
      early := early + [order'[i]];
    }
  }

  /** The positions out of order are the breaks, one to a cycle. */
  lemma EarlyAreBreaks(g: Graph, order: seq<int>, n: nat, breaks: seq<Break>)
    requires IsGraph(g, n) && IsPermutation(order, n) && SafeButFor(g, order, breaks)
    ensures forall p :: p in EarlyOnes(g, order, n) <==> BreaksAt(breaks, p)
    ensures |EarlyOnes(g, order, n)| == |breaks|
  {
    var ats := seq(|breaks|, k requires 0 <= k < |breaks| => breaks[k].at);
    forall p ensures p in EarlyOnes(g, order, n) <==> BreaksAt(breaks, p) {
      if BreaksAt(breaks, p) {
        var k :| 0 <= k < |breaks| && breaks[k].at == p;
        assert IsBreak(g, order, breaks[k]);
        var i :| 0 <= i < |order| && order[i] == p;
        assert TooEarly(g, order, i);
        assert Early(g, order, p);
      }
    }
    forall p ensures p in EarlyOnes(g, order, n) <==> p in ats {
      if BreaksAt(breaks, p) {
        var k :| 0 <= k < |breaks| && breaks[k].at == p;
        assert ats[k] == p;
      }
    }
    NoDupSize(ats, EarlyOnes(g, order, n));
  }

  /** Where nothing waits for two others, no order writes fewer positions too early. */
  lemma NoOrderIsBetter(g: Graph, order: seq<int>, order': seq<int>, n: nat, breaks: seq<Break>)
    requires IsGraph(g, n) && AtMostOneBlocker(g)
    requires IsPermutation(order, n) && IsPermutation(order', n) && SafeButFor(g, order, breaks)
    ensures |EarlyOnes(g, order, n)| <= |EarlyOnes(g, order', n)|
  {
    EarlyAreBreaks(g, order, n, breaks);
    var early := EarlyInEachCycle(g, order, order', n, breaks, |breaks|);
    forall k, l | 0 <= k < l < |early| ensures early[k] != early[l] {
      assert IsBreak(g, order, breaks[k]) && IsBreak(g, order, breaks[l]);
      DisjointCycles(g, order, breaks[k], breaks[l], early[k]);
    }
    var members := set p | p in early;
    NoDupSize(early, members);
    SubsetSize(members, EarlyOnes(g, order', n));
  }
}
