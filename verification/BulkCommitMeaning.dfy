/** What a bulk commit comes to, said of its script alone: which operations it attempts, what each comes to, when
    it is a success, and which rows it hands over (backend/routers/channels.py and
    backend/bulk_commit_accounting.py). */
module BulkCommitMeaning {
  import opened Common
  import opened BulkCommitLedger

  // ----- an operation

  /** A write's journal rows are taken when it has none to give, or gives some, none of them empty. */
  ghost predicate RowsTaken(spec: RowSpec) {
    match spec
    case One(row) => row != map[]
    case Many(rows) => rows != [] && map[] !in rows
    case NothingToJournal => true
  }

  ghost predicate Taken(a: Action) {
    a.NoWrite? || RowsTaken(a.spec)
  }

  ghost predicate RowIn(spec: RowSpec, r: Row) {
    (spec.One? && r == spec.row) || (spec.Many? && r in spec.rows)
  }

  /** The branch gets to its `k`th action: all before it were taken. */
  ghost predicate Reaches(actions: seq<Action>, k: nat) {
    k < |actions| && forall i :: 0 <= i < k ==> Taken(actions[i])
  }

  /** It does an action of its own that is kept, or one that writes something else. */
  ghost predicate PersistsAt(actions: seq<Action>, k: nat) {
    Reaches(actions, k) && actions[k].Persist? && Taken(actions[k])
  }

  ghost predicate WritesAt(actions: seq<Action>, k: nat) {
    Reaches(actions, k) && actions[k].Write?
  }

  ghost predicate RowAt(actions: seq<Action>, k: nat, r: Row) {
    Reaches(actions, k) && Taken(actions[k]) && !actions[k].NoWrite? && RowIn(actions[k].spec, r)
  }

  lemma TakenIs(a: Action)
    ensures GoesThrough(a) <==> Taken(a)
  {
    if !a.NoWrite? && a.spec.Many? {
      var rows := a.spec.rows;
      assert (forall i :: 0 <= i < |rows| ==> rows[i] != map[]) <==> map[] !in rows;
    }
    if !a.NoWrite? && a.spec.One? { assert RowsOf(a.spec)[0] == a.spec.row; }
  }

  lemma ReachesMore(actions: seq<Action>, n: nat)
    requires actions != [] && n == |actions| - 1
    ensures forall k: nat :: Reaches(actions[..n], k) <==> k < n && Reaches(actions, k)
    ensures Reaches(actions, n) <==> forall i :: 0 <= i < n ==> Taken(actions[..n][i])
  {
    forall k: nat ensures Reaches(actions[..n], k) <==> k < n && Reaches(actions, k) {
      assert forall i :: 0 <= i < k < n ==> actions[..n][i] == actions[i];
    }
  }

  lemma {:induction false} ActedIs(actions: seq<Action>)
    ensures Acted(actions).raised <==> exists k :: 0 <= k < |actions| && !Taken(actions[k])
    ensures Acted(actions).told.persisted <==> exists k: nat :: PersistsAt(actions, k)
    ensures Acted(actions).told.sideEffects > 0 <==> exists k: nat :: WritesAt(actions, k)
    ensures !Acted(actions).raised ==> (SaidSomething(Acted(actions).told) <==> actions != [])
  {
    if actions != [] {
      var n := |actions| - 1;
      var p, a := Acted(actions[..n]), actions[n];
      ActedIs(actions[..n]);
      ReachesMore(actions, n);
      TakenIs(a);
      OneMorePersist(actions, n);
      assert p.raised <==> !Reaches(actions, n);
      assert Acted(actions) == Act(p, a);
    }
  }

  lemma OneMorePersist(actions: seq<Action>, n: nat)
    requires actions != [] && n == |actions| - 1
    ensures (exists k: nat :: PersistsAt(actions, k)) <==>
              PersistsAt(actions, n) || exists k: nat :: PersistsAt(actions[..n], k)
    ensures (exists k: nat :: WritesAt(actions, k)) <==>
              WritesAt(actions, n) || exists k: nat :: WritesAt(actions[..n], k)
    ensures (exists k :: 0 <= k < |actions| && !Taken(actions[k])) <==>
              !Taken(actions[n]) || exists k :: 0 <= k < n && !Taken(actions[..n][k])
  {
    ReachesMore(actions, n);
    forall k: nat
      ensures PersistsAt(actions[..n], k) <==> k < n && PersistsAt(actions, k)
      ensures WritesAt(actions[..n], k) <==> k < n && WritesAt(actions, k)
    {
      if k < n { assert actions[..n][k] == actions[k]; }
    }
    assert forall k :: 0 <= k < n ==> actions[..n][k] == actions[k];
  }

  /** An operation applies when its branch does something, all of it taken, and does not raise.  If not, it is
      incomplete when an action of its own was kept, and else failed, with side effects if it wrote anything. */
  lemma OutcomeIs(b: Branch)
    ensures OutcomeOf(b).Applied? <==>
              !b.raises && b.actions != [] && forall k :: 0 <= k < |b.actions| ==> Taken(b.actions[k])
    ensures OutcomeOf(b).Incomplete? <==> !OutcomeOf(b).Applied? && exists k: nat :: PersistsAt(b.actions, k)
    ensures OutcomeOf(b).Failed? ==> (OutcomeOf(b).sideEffects <==> exists k: nat :: WritesAt(b.actions, k))
  {
    ActedIs(b.actions);
  }

  lemma {:induction false} BranchRowsAre(actions: seq<Action>, r: Row)
    ensures r in Acted(actions).rows <==> exists k: nat :: RowAt(actions, k, r)
  {
    if actions != [] {
      var n := |actions| - 1;
      BranchRowsAre(actions[..n], r);
      OneMoreRow(actions, n, r);
      RowsOfLast(actions, r);
    }
  }

  lemma RowsOfLast(actions: seq<Action>, r: Row)
    requires actions != []
    ensures var n := |actions| - 1;
            r in Acted(actions).rows <==> r in Acted(actions[..n]).rows || RowAt(actions, n, r)
  {
    var n := |actions| - 1;
    var p, a := Acted(actions[..n]), actions[n];
    RaisedBefore(actions, n);
    RowsOfAction(p, a, r);
    assert Acted(actions) == Act(p, a);
  }

  lemma RaisedBefore(actions: seq<Action>, n: nat)
    requires n == |actions| - 1
    ensures Acted(actions[..n]).raised <==> !Reaches(actions, n)
  {
    ActedIs(actions[..n]);
    ReachesMore(actions, n);
  }

  lemma RowsOfAction(p: Progress, a: Action, r: Row)
    ensures r in Act(p, a).rows <==>
              r in p.rows || (!p.raised && Taken(a) && !a.NoWrite? && RowIn(a.spec, r))
  {
    TakenIs(a);
  }

  lemma OneMoreRow(actions: seq<Action>, n: nat, r: Row)
    requires n == |actions| - 1
    ensures (exists k: nat :: RowAt(actions, k, r)) <==>
              RowAt(actions, n, r) || exists k: nat :: RowAt(actions[..n], k, r)
  {
    ReachesMore(actions, n);
    forall k: nat ensures RowAt(actions[..n], k, r) <==> k < n && RowAt(actions, k, r) {
      if k < n { assert actions[..n][k] == actions[k]; }
    }
  }

  /** The branch created a channel that it then failed to normalize. */
  ghost predicate UnnormalizedAt(actions: seq<Action>, k: nat, id: int) {
    PersistsAt(actions, k) && actions[k].tempId == Some(id) && actions[k].normalizationFailed
  }

  lemma {:induction false} UnnormalizedAre(actions: seq<Action>, id: int)
    ensures id in Acted(actions).normalized <==> exists k: nat :: UnnormalizedAt(actions, k, id)
  {
    if actions != [] {
      var n := |actions| - 1;
      var p, a := Acted(actions[..n]), actions[n];
      UnnormalizedAre(actions[..n], id);
      ActedIs(actions[..n]);
      ReachesMore(actions, n);
      TakenIs(a);
      forall k: nat | k < n ensures UnnormalizedAt(actions[..n], k, id) <==> UnnormalizedAt(actions, k, id) {
        assert actions[..n][k] == actions[k];
      }
      assert p.raised <==> !Reaches(actions, n);
      assert UnnormalizedAt(actions, n, id) <==> !p.raised && id in NewlyNormalized(a);
    }
  }

  ghost predicate UnnormalizedBy(branches: seq<Branch>, n: nat, id: int) {
    n < |branches| && exists k: nat :: UnnormalizedAt(branches[n].actions, k, id)
  }

  /** What is reported as not normalized is just that. */
  lemma {:induction false} NormalizedAre(branches: seq<Branch>, id: int)
    ensures id in NormalizedIn(branches) <==> exists n: nat :: UnnormalizedBy(branches, n, id)
  {
    if branches != [] {
      var m := |branches| - 1;
      NormalizedAre(branches[..m], id);
      UnnormalizedAre(branches[m].actions, id);
      forall n: nat | n < m ensures UnnormalizedBy(branches[..m], n, id) <==> UnnormalizedBy(branches, n, id) {
        assert branches[..m][n] == branches[n];
      }
      assert UnnormalizedBy(branches, m, id) <==> id in Acted(branches[m].actions).normalized;
    }
  }

  ghost predicate EntryFor(e: ErrorEntry, b: Branch) {
    (e.applied <==> OutcomeOf(b).Incomplete?) && (e.sideEffectsLanded <==> OutcomeOf(b) == Failed(true))
  }

  /** The operation has this entry, the `i`th, being the `i`th that did not apply. */
  ghost predicate EntryAt(branches: seq<Branch>, entries: seq<ErrorEntry>, at: seq<int>, i: nat) {
    && i < |at| && i < |entries| && 0 <= at[i] < |branches|
    && !OutcomeOf(branches[at[i]]).Applied? && EntryFor(entries[i], branches[at[i]])
  }

  ghost predicate EntriesAt(branches: seq<Branch>, entries: seq<ErrorEntry>, at: seq<int>) {
    && Ascending(at) && |at| == |entries|
    && (forall i: nat :: i < |at| ==> EntryAt(branches, entries, at, i))
    && forall n :: 0 <= n < |branches| && !OutcomeOf(branches[n]).Applied? ==> n in at
  }

  /** There is an entry for each operation that did not apply, in order: as applied if it is incomplete, and else
      saying whether it left work behind. */
  lemma {:induction false} EntriesAre(branches: seq<Branch>) returns (at: seq<int>)
    ensures EntriesAt(branches, EntriesIn(branches), at)
  {
    if branches == [] { return []; }
    var m := |branches| - 1;
    var before := EntriesAre(branches[..m]);
    at := before + if OutcomeOf(branches[m]).Applied? then [] else [m];
    OneMoreEntryAt(branches, EntriesIn(branches[..m]), before, at);
  }

  lemma OneMoreEntryAt(branches: seq<Branch>, entries: seq<ErrorEntry>, before: seq<int>, at: seq<int>)
    requires branches != [] && EntriesAt(branches[..|branches| - 1], entries, before)
    requires var m := |branches| - 1; at == before + if OutcomeOf(branches[m]).Applied? then [] else [m]
    ensures EntriesAt(branches, entries + EntryOf(OutcomeOf(branches[|branches| - 1])), at)
  {
    var m := |branches| - 1;
    var all := entries + EntryOf(OutcomeOf(branches[m]));
    forall i: nat | i < |before| ensures EntryAt(branches, all, at, i) && before[i] < m {
      assert EntryAt(branches[..m], entries, before, i);
    }
    forall n | 0 <= n < |branches| && !OutcomeOf(branches[n]).Applied? ensures n in at {
      if n < m { assert branches[..m][n] == branches[n]; } else { assert at[|before|] == m; }
    }
  }

  // ----- which operations are attempted

  ghost predicate AllTaken(specs: seq<RowSpec>) {
    forall k :: 0 <= k < |specs| ==> RowsTaken(specs[k])
  }

  ghost predicate GroupsAreMade(script: Script) {
    AllTaken(script.groupWrites) && !script.groupFails
  }

  /** The run goes on past its `k`th operation. */
  ghost predicate GoesOn(script: Script, k: nat) {
    k < |script.branches| && (OutcomeOf(script.branches[k]).Applied? || script.continueOnError)
  }

  /** No crash comes and no operation ends the run before the `n`th. */
  ghost predicate RunsTo(script: Script, from: nat, n: nat) {
    && from <= n <= |script.branches|
    && (forall k: nat :: from <= k < n ==> script.crashAfter != Some(k))
    && forall k: nat :: from <= k < n - 1 ==> GoesOn(script, k)
  }

  /** The same of which operations apply. */
  ghost predicate Runs(applied: seq<bool>, goesOn: bool, crashAfter: Option<nat>, from: nat, n: nat) {
    && from <= n <= |applied|
    && (forall k: nat :: from <= k < n ==> crashAfter != Some(k))
    && forall k: nat :: from <= k < n - 1 ==> applied[k] || goesOn
  }

  lemma {:induction false} AttemptsAre(applied: seq<bool>, goesOn: bool, crashAfter: Option<nat>, k: nat)
    requires k <= |applied|
    ensures var (n, crashed) := AttemptsOf(applied, goesOn, crashAfter, k);
            && Runs(applied, goesOn, crashAfter, k, n)
            && (crashed <==> n < |applied| && crashAfter == Some(n) && (n == k || applied[n - 1] || goesOn))
            && (n < |applied| ==> crashed || (k < n && !applied[n - 1] && !goesOn))
    decreases |applied| - k
  {
    if k < |applied| && crashAfter != Some(k) && (applied[k] || goesOn) {
      AttemptsAre(applied, goesOn, crashAfter, k + 1);
    }
  }

  lemma AttemptsFrom(script: Script)
    ensures var (n, crashed) := Attempts(script, 0);
            && RunsTo(script, 0, n)
            && (crashed <==> n < |script.branches| && script.crashAfter == Some(n) &&
                             (n == 0 || GoesOn(script, n - 1)))
            && (n < |script.branches| ==> crashed || (0 < n && !GoesOn(script, n - 1)))
  {
    var applied := AppliedOf(script.branches);
    AttemptsAre(applied, script.continueOnError, script.crashAfter, 0);
    forall k: nat | k < |script.branches|
      ensures GoesOn(script, k) <==> applied[k] || script.continueOnError {
    }
  }

  /** Each of the first `n` operations but the last applied, or the run goes on past failures, and no crash came
      before them; and if there are more, a crash comes there, or the last ended the run, unless the groups were
      not made, when there are none. */
  ghost predicate StopsAt(script: Script, n: nat) {
    && RunsTo(script, 0, n)
    && (!GroupsAreMade(script) ==> n == 0)
    && (GroupsAreMade(script) && n < |script.branches| ==>
          script.crashAfter == Some(n) || (0 < n && !GoesOn(script, n - 1)))
  }

  /** That is how many operations are attempted, and no other number. */
  lemma AttemptedIs(script: Script, n: nat)
    ensures Attempted(script) == n <==> StopsAt(script, n)
  {
    AttemptsFrom(script);
    MadeIs(script);
    var m := Attempted(script);
    if n < m { StopsOnce(script, n, m); }
    if m < n { StopsOnce(script, m, n); }
  }

  lemma StopsOnce(script: Script, n: nat, m: nat)
    requires n < m
    ensures !(StopsAt(script, n) && StopsAt(script, m))
  {
    if RunsTo(script, 0, m) {
      assert script.crashAfter != Some(n);
      assert 0 < n ==> GoesOn(script, n - 1);
    }
  }

  lemma TakenAre(specs: seq<RowSpec>)
    ensures WritesGo(specs) <==> AllTaken(specs)
  {
    forall k | 0 <= k < |specs| ensures WellFormed(specs[k]) <==> RowsTaken(specs[k]) {
      TakenIs(Write(specs[k]));
    }
  }

  lemma MadeIs(script: Script)
    ensures GroupsMade(script) <==> GroupsAreMade(script)
  {
    TakenAre(script.groupWrites);
  }

  // ----- the whole

  /** A crash comes before an operation. */
  ghost predicate CrashesAmid(script: Script) {
    exists k: nat :: k < |script.branches| && script.crashAfter == Some(k)
  }

  /** Everything is written, applied and repaired. */
  ghost predicate GoesClean(script: Script) {
    && GroupsAreMade(script) && AllTaken(script.repairs) && !script.unrepaired && !script.rowsUnwritten
    && !CrashesAmid(script)
    && forall k :: 0 <= k < |script.branches| ==> OutcomeOf(script.branches[k]).Applied?
  }

  /** Success is that all groups are made, each operation is attempted and applies, the numbering is repaired, no
      crash comes and the rows are written, and nothing less. */
  lemma SuccessIs(script: Script)
    ensures Setups(script) == 0 && AllApplied(OutcomesOf(script.branches[..Attempted(script)])) <==> GoesClean(script)
  {
    var n := Attempted(script);
    var outcomes := OutcomesOf(script.branches[..n]);
    AttemptsFrom(script);
    MadeIs(script);
    TakenAre(script.groupWrites);
    TakenAre(script.repairs);
    assert forall k :: 0 <= k < n ==> outcomes[k] == OutcomeOf(script.branches[k]);
    if AllApplied(outcomes) {
      forall k | 0 <= k < n ensures OutcomeOf(script.branches[k]).Applied? { assert outcomes[k].Applied?; }
    }
    if GoesClean(script) {
      forall k: nat | k < |script.branches| ensures GoesOn(script, k) && script.crashAfter != Some(k) {}
    }
  }

  /** A row of a series of writes, none of which was refused up to there. */
  ghost predicate RowOfWrites(specs: seq<RowSpec>, k: nat, r: Row) {
    && k < |specs| && RowIn(specs[k], r)
    && forall i :: 0 <= i <= k ==> RowsTaken(specs[i])
  }

  lemma {:induction false} WriteRowsAre(specs: seq<RowSpec>, r: Row)
    ensures r in WriteRows(specs) <==> exists k: nat :: RowOfWrites(specs, k, r)
  {
    if specs != [] {
      var n := |specs| - 1;
      WriteRowsAre(specs[..n], r);
      TakenAre(specs);
      forall k: nat | k < n ensures RowOfWrites(specs[..n], k, r) <==> RowOfWrites(specs, k, r) {
        assert forall i :: 0 <= i <= k ==> specs[..n][i] == specs[i];
      }
      assert RowOfWrites(specs, n, r) <==> AllTaken(specs) && r in RowsOf(specs[n]);
    }
  }

  ghost predicate RowOfOperation(branches: seq<Branch>, n: nat, k: nat, r: Row) {
    k < n <= |branches| && RowOfBranch(branches[k], r)
  }

  ghost predicate RowOfBranch(b: Branch, r: Row) {
    exists j: nat :: RowAt(b.actions, j, r)
  }

  lemma {:induction false} OperationRowsAre(branches: seq<Branch>, n: nat, r: Row)
    requires n <= |branches|
    ensures r in BranchRows(branches[..n]) <==> exists k: nat :: RowOfOperation(branches, n, k, r)
  {
    if n > 0 {
      var m := n - 1;
      OperationRowsAre(branches, m, r);
      OneMoreBranch(branches, m);
      BranchRowsAre(branches[m].actions, r);
      OneMoreOperation(branches, m, n, r);
    } else {
      assert branches[..0] == [];
    }
  }

  lemma OneMoreOperation(branches: seq<Branch>, m: nat, n: nat, r: Row)
    requires n == m + 1 <= |branches|
    ensures (exists k: nat :: RowOfOperation(branches, n, k, r)) <==>
              RowOfBranch(branches[m], r) || exists k: nat :: RowOfOperation(branches, m, k, r)
  {
    assert RowOfBranch(branches[m], r) <==> RowOfOperation(branches, n, m, r);
    if k: nat :| RowOfOperation(branches, n, k, r) { assert k < m ==> RowOfOperation(branches, m, k, r); }
    if k: nat :| RowOfOperation(branches, m, k, r) { assert RowOfOperation(branches, n, k, r); }
  }

  /** The repairs are come to: the groups were made, and no crash came before that. */
  ghost predicate ComesToRepairs(script: Script, n: nat) {
    && GroupsAreMade(script)
    && (n < |script.branches| && script.crashAfter == Some(n) ==> 0 < n && !GoesOn(script, n - 1))
  }

  /** The rows handed over are those of the groups' writes, of what the operations attempted wrote, and of the
      repairs, each series up to what was refused. */
  lemma RowsAre(script: Script, r: Row)
    ensures var n := Attempted(script);
            r in ScriptRows(script) <==>
              (exists k: nat :: RowOfWrites(script.groupWrites, k, r)) ||
              (exists k: nat :: RowOfOperation(script.branches, n, k, r)) ||
              (ComesToRepairs(script, n) && exists k: nat :: RowOfWrites(script.repairs, k, r))
  {
    WriteRowsAre(script.groupWrites, r);
    OperationRowsAre(script.branches, Attempted(script), r);
    WriteRowsAre(script.repairs, r);
    AttemptsFrom(script);
    MadeIs(script);
  }

  // ----- the audit

  /** The audit leaves no choice: of the envelopes that report the same entries, at most one passes it, save for
      how many operations a run that aborted says it applied. */
  lemma AuditDetermines(r: Envelope, s: Envelope, total: nat, aborted: bool, createIds: set<int>, setupFailures: nat,
                        partiallyApplied: nat)
    requires Consistent(r, total, aborted, createIds, setupFailures, partiallyApplied)
    requires Consistent(s, total, aborted, createIds, setupFailures, partiallyApplied)
    requires r.errors == s.errors && r.normalizationFailures == s.normalizationFailures
    requires aborted ==> r.operationsApplied == s.operationsApplied
    ensures r == s
    ensures forall id :: id in r.normalizationFailures ==> id in createIds
    ensures aborted ==> r.operationsApplied + r.operationsFailed <= total
  {
  }
}
