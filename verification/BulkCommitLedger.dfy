/** The bulk-commit ledger, the envelope's audit, and the run that drives them
    (backend/bulk_commit_accounting.py, and its caller in backend/routers/channels.py). */
module BulkCommitLedger {
  import opened Common

  /** A journal row; an empty one is malformed. */
  type Row = map<string, string>

  datatype RowSpec = One(row: Row) | Many(rows: seq<Row>) | NothingToJournal

  function RowsOf(spec: RowSpec): seq<Row> {
    match spec
    case One(row) => [row]
    case Many(rows) => rows
    case NothingToJournal => []
  }

  predicate WellFormed(spec: RowSpec) {
    spec.NothingToJournal? || (RowsOf(spec) != [] && forall i :: 0 <= i < |RowsOf(spec)| ==> RowsOf(spec)[i] != map[])
  }

  datatype Counts = Counts(total: nat, applied: nat, failed: nat, incomplete: nat, partiallyApplied: nat,
                           setupFailures: nat, aborted: bool, createIds: set<int>)

  /** What the open operation has told the ledger. */
  datatype Told = Told(persisted: bool, sideEffects: nat, noWrite: bool, pendingId: Option<int>)

  const NOTHING_TOLD: Told := Told(false, 0, false, None)

  predicate SaidSomething(t: Told) {
    t.persisted || t.sideEffects > 0 || t.noWrite
  }

  class OperationLedger {
    var counts: Counts
    var journalRows: seq<Row>
    var isOpen: bool
    var told: Told
    /** Every row of every write that landed, and those handed over to be written, in order. */
    ghost var landed: seq<Row>
    ghost var drained: seq<Row>

    /** Each landed row is queued or handed over, once, in landing order. */
    ghost predicate Valid()
      reads this
    {
      && drained + journalRows == landed
      && counts.partiallyApplied <= counts.failed && counts.incomplete <= counts.applied
    }

    constructor (total: nat)
      ensures Valid() && !isOpen && told == NOTHING_TOLD && landed == [] && drained == []
      ensures counts == Counts(total, 0, 0, 0, 0, 0, false, {})
    {
      counts := Counts(total, 0, 0, 0, 0, 0, false, {});
      journalRows, isOpen, told, landed, drained := [], false, NOTHING_TOLD, [], [];
    }

    /** Each method answers whether it went through rather than raised. */
    method Begin() returns (ok: bool)
      requires Valid()
      modifies `isOpen, `told
      ensures Valid() && ok == !old(isOpen) && isOpen
      ensures told == if ok then NOTHING_TOLD else old(told)
    {
      if isOpen { return false; }
      isOpen, told, ok := true, NOTHING_TOLD, true;
    }

    method QueueJournal(spec: RowSpec) returns (ok: bool)
      requires Valid()
      modifies `journalRows, `landed
      ensures Valid() && ok == WellFormed(spec)
      ensures landed == old(landed) + if ok then RowsOf(spec) else []
      ensures spec.One? ==> ok == (spec.row != map[]) && (ok ==> landed == old(landed) + [spec.row])
      ensures spec.Many? ==>
                ok == (spec.rows != [] && map[] !in spec.rows) && (ok ==> landed == old(landed) + spec.rows)
      ensures spec.NothingToJournal? ==> ok && landed == old(landed)
    {
      assert spec.One? ==> RowsOf(spec)[0] == spec.row;
      if spec.NothingToJournal? { return true; }
      var rows := RowsOf(spec);
      if rows == [] { return false; }
      for k := 0 to |rows|
        invariant forall i :: 0 <= i < k ==> rows[i] != map[]
      {
        if rows[k] == map[] { return false; }
      }
      journalRows, landed, ok := journalRows + rows, landed + rows, true;
    }

    method RecordWrite(spec: RowSpec) returns (ok: bool)
      requires Valid()
      modifies `journalRows, `landed, `told
      ensures Valid() && ok == WellFormed(spec)
      ensures landed == old(landed) + if ok then RowsOf(spec) else []
      ensures told == if isOpen then old(told).(sideEffects := old(told).sideEffects + 1) else old(told)
    {
      if isOpen { told := told.(sideEffects := told.sideEffects + 1); }
      ok := QueueJournal(spec);
    }

    method RecordPersisted(spec: RowSpec, createTempId: Option<int>) returns (ok: bool)
      requires Valid()
      modifies `journalRows, `landed, `told
      ensures Valid() && ok == WellFormed(spec)
      ensures landed == old(landed) + if ok then RowsOf(spec) else []
      ensures told == if !ok then old(told) else
        old(told).(persisted := true, pendingId := if createTempId.Some? then createTempId else old(told).pendingId)
    {
      ok := QueueJournal(spec);
      if !ok { return; }
      told := told.(persisted := true);
      if createTempId.Some? { told := told.(pendingId := createTempId); }
    }

    method AppliedWithoutWriting(blankReason: bool) returns (ok: bool)
      requires Valid()
      modifies `told
      ensures Valid() && ok == (!blankReason && isOpen)
      ensures told == if ok then old(told).(noWrite := true) else old(told)
    {
      if blankReason || !isOpen { return false; }
      told, ok := told.(noWrite := true), true;
    }

    method RecordApplied(incomplete: bool) returns (ok: bool)
      requires Valid()
      modifies `counts, `isOpen, `told
      ensures Valid() && ok == (SaidSomething(old(told)) && old(isOpen))
      ensures !ok ==> counts == old(counts) && isOpen == old(isOpen) && told == old(told)
      ensures ok ==> !isOpen && told == Told(old(told).persisted, 0, false, None)
      ensures ok ==> counts == CloseApplied(old(counts), incomplete, old(told).pendingId)
      ensures ok ==> counts.applied == old(counts.applied) + 1
      ensures ok ==> counts.incomplete == old(counts.incomplete) + if incomplete then 1 else 0
      ensures ok ==> forall id ::
                id in counts.createIds <==> id in old(counts.createIds) || old(told).pendingId == Some(id)
    {
      if !SaidSomething(told) || !isOpen { return false; }
      isOpen, ok := false, true;
      counts := CloseApplied(counts, incomplete, told.pendingId);
      told := Told(told.persisted, 0, false, None);
    }

    method RecordFailed() returns (ok: bool)
      requires Valid()
      modifies `counts, `isOpen, `told
      ensures Valid() && ok == old(isOpen)
      ensures !ok ==> counts == old(counts) && isOpen == old(isOpen) && told == old(told)
      ensures ok ==> !isOpen && told == Told(old(told).persisted, 0, false, None)
      ensures ok ==> counts == CloseFailed(old(counts), old(told).sideEffects > 0)
      ensures ok ==> counts.failed == old(counts.failed) + 1
      ensures ok ==>
                counts.partiallyApplied == old(counts.partiallyApplied) + if old(told).sideEffects > 0 then 1 else 0
    {
      if !isOpen { return false; }
      isOpen, ok := false, true;
      counts := CloseFailed(counts, told.sideEffects > 0);
      told := Told(told.persisted, 0, false, None);
    }

    method AbortRemaining()
      requires Valid()
      modifies `counts
      ensures Valid() && counts == old(counts).(aborted := true)
    {
      counts := counts.(aborted := true);
    }

    method RecordSetupFailure(abortedRun: bool)
      requires Valid()
      modifies `counts
      ensures Valid() && counts == SetupFailed(old(counts), abortedRun)
      ensures counts.setupFailures == old(counts.setupFailures) + 1
      ensures counts.aborted <==> old(counts.aborted) || abortedRun
    {
      counts := counts.(setupFailures := counts.setupFailures + 1);
      if abortedRun { counts := counts.(aborted := true); }
    }

    method DrainJournalRows() returns (rows: seq<Row>)
      requires Valid()
      modifies `journalRows, `drained
      ensures Valid() && journalRows == [] && rows == old(journalRows) && drained == landed
    {
      rows := journalRows;
      journalRows, drained := [], drained + rows;
    }
  }

  function CloseApplied(c: Counts, incomplete: bool, tempId: Option<int>): Counts {
    c.(applied := c.applied + 1,
       incomplete := c.incomplete + if incomplete then 1 else 0,
       createIds := c.createIds + if tempId.Some? then {tempId.value} else {})
  }

  function CloseFailed(c: Counts, sideEffects: bool): Counts {
    c.(failed := c.failed + 1, partiallyApplied := c.partiallyApplied + if sideEffects then 1 else 0)
  }

  function SetupFailed(c: Counts, abortedRun: bool): Counts {
    c.(setupFailures := c.setupFailures + 1, aborted := c.aborted || abortedRun)
  }

  // ----- the envelope and its audit

  datatype ErrorEntry = ErrorEntry(applied: bool, sideEffectsLanded: bool)

  datatype Envelope = Envelope(errors: seq<ErrorEntry>, normalizationFailures: seq<int>,
                               operationsApplied: nat, operationsFailed: nat, operationsPartiallyApplied: nat,
                               success: bool, partial: bool)

  datatype Violation = TooManyAttempted | NotAllAttempted | EntriesUncounted | PartialCountWrong | PartialExceedsFailed
                     | PartialUnmarked | SuccessWrong | PartialFlagWrong | NormalizationOfNothing(tempId: int)

  /** How many of the entries are applied, not applied, or marked as leaving work behind. */
  function Tally(errors: seq<ErrorEntry>, p: ErrorEntry -> bool): nat {
    if errors == [] then 0 else
      Tally(errors[..|errors| - 1], p) + if p(errors[|errors| - 1]) then 1 else 0
  }

  const IsApplied: ErrorEntry -> bool := (e: ErrorEntry) => e.applied
  const NotApplied: ErrorEntry -> bool := (e: ErrorEntry) => !e.applied
  const IsMarked: ErrorEntry -> bool := (e: ErrorEntry) => e.sideEffectsLanded

  method Violations(result: Envelope, total: nat, aborted: bool, createIds: set<int>, setupFailures: nat,
                    partiallyApplied: nat)
    returns (violations: seq<Violation>)
    ensures violations == [] <==> Consistent(result, total, aborted, createIds, setupFailures, partiallyApplied)
  {
    violations := [];
    var appliedErrors, unapplied := Tally(result.errors, IsApplied), Tally(result.errors, NotApplied);
    var attempted := result.operationsApplied + result.operationsFailed;
    if aborted {
      if attempted > total { violations := violations + [TooManyAttempted]; }
    } else if attempted != total {
      violations := violations + [NotAllAttempted];
    }
    if result.operationsFailed + setupFailures != unapplied { violations := violations + [EntriesUncounted]; }
    if result.operationsPartiallyApplied != partiallyApplied { violations := violations + [PartialCountWrong]; }
    if partiallyApplied > result.operationsFailed { violations := violations + [PartialExceedsFailed]; }
    if Tally(result.errors, IsMarked) != partiallyApplied { violations := violations + [PartialUnmarked]; }
    var expectedSuccess := result.operationsFailed == 0 && appliedErrors == 0 && setupFailures == 0;
    if result.success != expectedSuccess { violations := violations + [SuccessWrong]; }
    var landed := result.operationsApplied > 0 || partiallyApplied > 0;
    var expectedPartial := landed && (result.operationsFailed > 0 || appliedErrors > 0);
    if result.partial != expectedPartial { violations := violations + [PartialFlagWrong]; }
    ghost var counters := violations;
    for k := 0 to |result.normalizationFailures|
      invariant violations == [] <==>
        counters == [] && forall i :: 0 <= i < k ==> result.normalizationFailures[i] in createIds
    {
      var tempId := result.normalizationFailures[k];
      if tempId !in createIds { violations := violations + [NormalizationOfNothing(tempId)]; }
    }
  }

  /** The rules an envelope keeps, in the terms of what it reports. */
  ghost predicate Consistent(result: Envelope, total: nat, aborted: bool, createIds: set<int>, setupFailures: nat,
                             partiallyApplied: nat) {
    var appliedErrors := Tally(result.errors, IsApplied);
    && (if aborted then result.operationsApplied + result.operationsFailed <= total
        else result.operationsApplied + result.operationsFailed == total)
    && Tally(result.errors, NotApplied) == result.operationsFailed + setupFailures
    && result.operationsPartiallyApplied == partiallyApplied <= result.operationsFailed
    && Tally(result.errors, IsMarked) == partiallyApplied
    && (result.success <==> result.operationsFailed == 0 && appliedErrors == 0 && setupFailures == 0)
    && (result.partial <==> (result.operationsApplied > 0 || partiallyApplied > 0)
                            && (result.operationsFailed > 0 || appliedErrors > 0))
    && forall i :: 0 <= i < |result.normalizationFailures| ==> result.normalizationFailures[i] in createIds
  }

  /** The entries account for the counters: those not applied for the failures and setup failures, the
      marked ones for the partial failures, and one applied, where it could matter, for an incomplete
      operation. */
  ghost predicate Matches(c: Counts, errors: seq<ErrorEntry>, normalization: seq<int>) {
    && (if c.aborted then c.applied + c.failed <= c.total else c.applied + c.failed == c.total)
    && Tally(errors, NotApplied) == c.failed + c.setupFailures
    && (|| c.failed > 0
        || (Tally(errors, IsApplied) > 0 <==> c.incomplete > 0)
        || (c.setupFailures > 0 && c.applied == 0))
    && Tally(errors, IsMarked) == c.partiallyApplied
    && forall i :: 0 <= i < |normalization| ==> normalization[i] in c.createIds
  }

  function Derive(c: Counts, errors: seq<ErrorEntry>, normalization: seq<int>): Envelope {
    Envelope(errors, normalization, c.applied, c.failed, c.partiallyApplied,
             c.failed == 0 && c.incomplete == 0 && c.setupFailures == 0,
             (c.applied > 0 || c.partiallyApplied > 0) && (c.failed > 0 || c.incomplete > 0))
  }

  /** `finalize_bulk_commit_result`: raises exactly when the entries do not account for the counters. */
  method Finalize(ledger: OperationLedger, errors: seq<ErrorEntry>, normalization: seq<int>)
    returns (result: Envelope, raised: bool)
    requires ledger.Valid()
    ensures result == Derive(ledger.counts, errors, normalization)
    ensures raised <==> !Matches(ledger.counts, errors, normalization)
  {
    var c := ledger.counts;
    result := Derive(c, errors, normalization);
    var violations := Violations(result, c.total, c.aborted, c.createIds, c.setupFailures, c.partiallyApplied);
    raised := violations != [];
  }

  // ----- the run

  /** What a branch of the executor does, each step a call upstream that has just landed. */
  datatype Action =
    | Write(spec: RowSpec)
    | Persist(spec: RowSpec, tempId: Option<int>, normalizationFailed: bool)
    | NoWrite

  /** An operation's branch: what it does, and whether it then raises. */
  datatype Branch = Branch(actions: seq<Action>, raises: bool)

  datatype Progress = Progress(told: Told, normalized: seq<int>, rows: seq<Row>, raised: bool)

  /** Does telling the ledger go through? */
  predicate GoesThrough(a: Action) {
    a.NoWrite? || WellFormed(a.spec)
  }

  function LandedRows(a: Action): seq<Row> {
    if a.NoWrite? || !WellFormed(a.spec) then [] else RowsOf(a.spec)
  }

  function Tell(t: Told, a: Action): Told {
    match a
    case Write(_) => t.(sideEffects := t.sideEffects + 1)
    case Persist(spec, tempId, _) =>
      if !WellFormed(spec) then t
      else t.(persisted := true, pendingId := if tempId.Some? then tempId else t.pendingId)
    case NoWrite => t.(noWrite := true)
  }

  function NewlyNormalized(a: Action): seq<int> {
    if a.Persist? && GoesThrough(a) && a.tempId.Some? && a.normalizationFailed then [a.tempId.value] else []
  }

  function Act(p: Progress, a: Action): Progress {
    if p.raised then p
    else Progress(Tell(p.told, a), p.normalized + NewlyNormalized(a), p.rows + LandedRows(a), !GoesThrough(a))
  }

  /** What has come of a branch once it has acted. */
  function Acted(actions: seq<Action>): Progress {
    if actions == [] then Progress(NOTHING_TOLD, [], [], false)
    else Act(Acted(actions[..|actions| - 1]), actions[|actions| - 1])
  }

  /** An operation applies when its branch ends without raising and said what it did; otherwise it is
      incomplete if its own write had landed, and failed if not. */
  datatype Outcome = Applied | Incomplete | Failed(sideEffects: bool)

  function OutcomeOf(b: Branch): Outcome {
    var p := Acted(b.actions);
    if !p.raised && !b.raises && SaidSomething(p.told) then Applied
    else if p.told.persisted then Incomplete
    else Failed(p.told.sideEffects > 0)
  }

  function Close(c: Counts, b: Branch): Counts {
    var p := Acted(b.actions);
    match OutcomeOf(b)
    case Applied => CloseApplied(c, false, p.told.pendingId)
    case Incomplete => CloseApplied(c, true, p.told.pendingId)
    case Failed(sideEffects) => CloseFailed(c, sideEffects)
  }

  function EntryOf(o: Outcome): seq<ErrorEntry> {
    match o
    case Applied => []
    case Incomplete => [ErrorEntry(true, false)]
    case Failed(sideEffects) => [ErrorEntry(false, sideEffects)]
  }

  /** A branch creates at most one channel. */
  ghost predicate OneCreate(b: Branch) {
    forall i, j :: 0 <= i < j < |b.actions| && b.actions[i].Persist? && b.actions[j].Persist? ==>
      b.actions[i].tempId.None? || b.actions[j].tempId.None?
  }

  /** Only the channel that the operation itself creates has failed to be normalized. */
  ghost predicate OnlyPending(p: Progress) {
    && (forall i :: 0 <= i < |p.normalized| ==> p.told.pendingId == Some(p.normalized[i]))
    && (p.normalized != [] ==> p.told.persisted)
    && (p.told.pendingId.None? ==> p.normalized == [])
  }

  lemma PendingStep(p: Progress, a: Action)
    requires OnlyPending(p)
    requires a.Persist? && a.tempId.Some? ==> p.told.pendingId.None?
    ensures OnlyPending(Act(p, a))
  {
    var q := Act(p, a);
    if p.raised {
    } else if a.Persist? && GoesThrough(a) && a.tempId.Some? {
      assert p.normalized == [];
      assert q.normalized == NewlyNormalized(a);
    } else {
      assert q.normalized == p.normalized && q.told.pendingId == p.told.pendingId;
    }
  }

  lemma {:induction false} NormalizedIsPending(actions: seq<Action>)
    requires OneCreate(Branch(actions, false))
    ensures var p := Acted(actions);
            OnlyPending(p) &&
            (p.told.pendingId.Some? ==>
             exists i :: 0 <= i < |actions| && actions[i].Persist? && actions[i].tempId.Some?)
  {
    if actions != [] {
      var n := |actions| - 1;
      NormalizedIsPending(actions[..n]);
      var p, a := Acted(actions[..n]), actions[n];
      if p.told.pendingId.Some? {
        var i :| 0 <= i < n && actions[..n][i].Persist? && actions[..n][i].tempId.Some?;
        assert actions[i] == actions[..n][i];
      }
      assert a.Persist? && a.tempId.Some? ==> p.told.pendingId.None?;
      PendingStep(p, a);
    }
  }

  method TakeAction(ledger: OperationLedger, a: Action) returns (ok: bool)
    requires ledger.Valid() && ledger.isOpen
    modifies ledger`journalRows, ledger`landed, ledger`told
    ensures ledger.Valid() && ok == GoesThrough(a)
    ensures ledger.told == Tell(old(ledger.told), a) && ledger.landed == old(ledger.landed) + LandedRows(a)
  {
    match a
    case Write(spec) => ok := ledger.RecordWrite(spec);
    case Persist(spec, tempId, _) => ok := ledger.RecordPersisted(spec, tempId);
    case NoWrite => ok := ledger.AppliedWithoutWriting(false);
  }

  lemma ActedOneMore(actions: seq<Action>, k: nat)
    requires k < |actions|
    ensures Acted(actions[..k + 1]) == Act(Acted(actions[..k]), actions[k])
  {
    assert actions[..k + 1][..k] == actions[..k];
  }

  method RunBranch(ledger: OperationLedger, b: Branch, normalization: seq<int>)
    returns (raised: bool, normalization': seq<int>)
    requires ledger.Valid() && ledger.isOpen && ledger.told == NOTHING_TOLD
    modifies ledger`journalRows, ledger`landed, ledger`told
    ensures ledger.Valid()
    ensures ledger.told == Acted(b.actions).told && ledger.landed == old(ledger.landed) + Acted(b.actions).rows
    ensures raised == (Acted(b.actions).raised || b.raises)
    ensures normalization' == normalization + Acted(b.actions).normalized
  {
    normalization', raised := normalization, false;
    ghost var p := Acted([]);
    for k := 0 to |b.actions|
      invariant ledger.Valid() && p == Acted(b.actions[..k])
      invariant ledger.told == p.told && ledger.landed == old(ledger.landed) + p.rows
      invariant raised == p.raised && normalization' == normalization + p.normalized
    {
      var a := b.actions[k];
      ActedOneMore(b.actions, k);
      ghost var was := p;
      p := Act(p, a);
      if !raised {
        Appended(old(ledger.landed), was.rows, LandedRows(a));
        Appended(normalization, was.normalized, NewlyNormalized(a));
        var ok := TakeAction(ledger, a);
        normalization' := normalization' + NewlyNormalized(a);
        raised := !ok;
      }
    }
    assert b.actions[..|b.actions|] == b.actions;
    raised := raised || b.raises;
  }

  /** Open an operation, run its branch, and close it once, with an entry if it did not go cleanly. */
  method RunOperation(ledger: OperationLedger, b: Branch, errors: seq<ErrorEntry>, normalization: seq<int>)
    returns (errors': seq<ErrorEntry>, normalization': seq<int>)
    requires ledger.Valid() && !ledger.isOpen
    modifies ledger
    ensures ledger.Valid() && !ledger.isOpen && ledger.drained == old(ledger.drained)
    ensures ledger.counts == Close(old(ledger.counts), b) && ledger.landed == old(ledger.landed) + Acted(b.actions).rows
    ensures errors' == errors + EntryOf(OutcomeOf(b)) && normalization' == normalization + Acted(b.actions).normalized
  {
    var begun := ledger.Begin();
    var raised;
    raised, normalization' := RunBranch(ledger, b, normalization);
    errors' := errors;
    if !raised {
      var ok := ledger.RecordApplied(false);
      raised := !ok;
    }
    if raised {
      if ledger.told.persisted {
        var ok := ledger.RecordApplied(true);
        errors' := errors + [ErrorEntry(true, false)];
      } else {
        errors' := errors + [ErrorEntry(false, ledger.told.sideEffects > 0)];
        var ok := ledger.RecordFailed();
      }
    }
  }

  function CountOutcomes(outcomes: seq<Outcome>, p: Outcome -> bool): nat {
    if outcomes == [] then 0 else
      CountOutcomes(outcomes[..|outcomes| - 1], p) + if p(outcomes[|outcomes| - 1]) then 1 else 0
  }

  const Landed: Outcome -> bool := (o: Outcome) => !o.Failed?
  const NotClean: Outcome -> bool := (o: Outcome) => o.Incomplete?
  const NotLanded: Outcome -> bool := (o: Outcome) => o.Failed?
  const LeftWork: Outcome -> bool := (o: Outcome) => o.Failed? && o.sideEffects

  /** The counters say what became of the operations, and the entries account for the counters. */
  ghost predicate Books(c: Counts, errors: seq<ErrorEntry>, normalization: seq<int>, outcomes: seq<Outcome>,
                        setups: nat) {
    && c.applied == CountOutcomes(outcomes, Landed) && c.failed == CountOutcomes(outcomes, NotLanded)
    && c.incomplete == CountOutcomes(outcomes, NotClean) && c.partiallyApplied == CountOutcomes(outcomes, LeftWork)
    && c.setupFailures == setups
    && Tally(errors, NotApplied) == c.failed + setups && Tally(errors, IsApplied) == c.incomplete
    && Tally(errors, IsMarked) == c.partiallyApplied
    && (forall i :: 0 <= i < |normalization| ==> normalization[i] in c.createIds)
    && |outcomes| == c.applied + c.failed
  }

  lemma BooksAborted(c: Counts, errors: seq<ErrorEntry>, normalization: seq<int>, outcomes: seq<Outcome>, setups: nat)
    requires Books(c, errors, normalization, outcomes, setups)
    ensures Books(c.(aborted := true), errors, normalization, outcomes, setups)
  {
  }

  lemma OneMoreEntry(errors: seq<ErrorEntry>, e: ErrorEntry)
    ensures forall p: ErrorEntry -> bool :: Tally(errors + [e], p) == Tally(errors, p) + if p(e) then 1 else 0
  {
    assert (errors + [e])[..|errors|] == errors;
  }

  lemma OneMoreOutcome(outcomes: seq<Outcome>, o: Outcome)
    ensures forall p: Outcome -> bool ::
              CountOutcomes(outcomes + [o], p) == CountOutcomes(outcomes, p) + if p(o) then 1 else 0
  {
    assert (outcomes + [o])[..|outcomes|] == outcomes;
  }

  /** Closing an operation keeps the books. */
  lemma BooksOperation(c: Counts, errors: seq<ErrorEntry>, normalization: seq<int>, outcomes: seq<Outcome>, setups: nat,
                       b: Branch)
    requires Books(c, errors, normalization, outcomes, setups) && OneCreate(b)
    ensures Books(Close(c, b), errors + EntryOf(OutcomeOf(b)), normalization + Acted(b.actions).normalized,
                  outcomes + [OutcomeOf(b)], setups)
  {
    NormalizedIsPending(b.actions);
    var p := Acted(b.actions);
    BooksClosed(c, errors, normalization, outcomes, setups, OutcomeOf(b), p.told.pendingId, p.normalized);
  }

  lemma BooksClosed(c: Counts, errors: seq<ErrorEntry>, normalization: seq<int>, outcomes: seq<Outcome>, setups: nat,
                    o: Outcome, pendingId: Option<int>, normalized: seq<int>)
    requires Books(c, errors, normalization, outcomes, setups)
    requires forall i :: 0 <= i < |normalized| ==> pendingId == Some(normalized[i])
    requires o.Failed? ==> normalized == []
    ensures Books(if o.Failed? then CloseFailed(c, o.sideEffects) else CloseApplied(c, o.Incomplete?, pendingId),
                  errors + EntryOf(o), normalization + normalized, outcomes + [o], setups)
  {
    OneMoreOutcome(outcomes, o);
    EntriesOf(errors, o);
  }

  lemma EntriesOf(errors: seq<ErrorEntry>, o: Outcome)
    ensures Tally(errors + EntryOf(o), NotApplied) == Tally(errors, NotApplied) + if o.Failed? then 1 else 0
    ensures Tally(errors + EntryOf(o), IsApplied) == Tally(errors, IsApplied) + if o.Incomplete? then 1 else 0
    ensures Tally(errors + EntryOf(o), IsMarked) ==
              Tally(errors, IsMarked) + if o.Failed? && o.sideEffects then 1 else 0
  {
    if o.Applied? {
      assert errors + EntryOf(o) == errors;
    } else {
      OneMoreEntry(errors, EntryOf(o)[0]);
      assert EntryOf(o) == [EntryOf(o)[0]];
    }
  }

  lemma BooksSetup(c: Counts, errors: seq<ErrorEntry>, normalization: seq<int>, outcomes: seq<Outcome>, setups: nat,
                   abortedRun: bool)
    requires Books(c, errors, normalization, outcomes, setups)
    ensures Books(SetupFailed(c, abortedRun), errors + [ErrorEntry(false, false)], normalization, outcomes, setups + 1)
  {
    OneMoreEntry(errors, ErrorEntry(false, false));
  }

  predicate AllApplied(outcomes: seq<Outcome>) {
    forall i :: 0 <= i < |outcomes| ==> outcomes[i].Applied?
  }

  /** Did the run leave anything upstream to reconcile? */
  predicate SomeLeft(outcomes: seq<Outcome>) {
    exists i :: 0 <= i < |outcomes| && Left(outcomes[i])
  }

  lemma AllAndSome(outcomes: seq<Outcome>, o: Outcome)
    ensures AllApplied(outcomes + [o]) <==> AllApplied(outcomes) && o.Applied?
    ensures SomeLeft(outcomes + [o]) <==> SomeLeft(outcomes) || Left(o)
  {
    var all := outcomes + [o];
    assert all[|outcomes|] == o;
    assert forall i :: 0 <= i < |outcomes| ==> all[i] == outcomes[i];
  }

  lemma {:induction false} AllCleanCounts(outcomes: seq<Outcome>)
    ensures AllApplied(outcomes) <==>
            CountOutcomes(outcomes, NotLanded) == 0 && CountOutcomes(outcomes, NotClean) == 0
    ensures CountOutcomes(outcomes, LeftWork) <= CountOutcomes(outcomes, NotLanded)
    ensures SomeLeft(outcomes) <==>
            CountOutcomes(outcomes, Landed) > 0 || CountOutcomes(outcomes, LeftWork) > 0
  {
    if outcomes != [] {
      var n := |outcomes| - 1;
      AllCleanCounts(outcomes[..n]);
      assert outcomes == outcomes[..n] + [outcomes[n]];
      AllAndSome(outcomes[..n], outcomes[n]);
    }
  }

  /** Did the operation leave anything upstream to reconcile? */
  predicate Left(o: Outcome) {
    !o.Failed? || o.sideEffects
  }

  /** A run: the groups it creates first, its operations, and the writes that repair its numbering;
      and what goes wrong besides.  A crash comes between operations. */
  datatype Script = Script(groupWrites: seq<RowSpec>, groupFails: bool, branches: seq<Branch>, continueOnError: bool,
                           crashAfter: Option<nat>, repairs: seq<RowSpec>, unrepaired: bool, rowsUnwritten: bool)

  predicate WritesGo(specs: seq<RowSpec>) {
    forall k :: 0 <= k < |specs| ==> WellFormed(specs[k])
  }

  /** The rows of a series of writes, which ends at the first that is refused. */
  function WriteRows(specs: seq<RowSpec>): seq<Row> {
    if specs == [] then []
    else
      var before := specs[..|specs| - 1];
      WriteRows(before) + if WritesGo(specs) then RowsOf(specs[|specs| - 1]) else []
  }

  lemma {:induction false} RefusedWritesEnd(specs: seq<RowSpec>, k: nat)
    requires k < |specs| && !WellFormed(specs[k])
    ensures !WritesGo(specs) && WriteRows(specs) == WriteRows(specs[..k])
  {
    var n := |specs| - 1;
    if k < n {
      RefusedWritesEnd(specs[..n], k);
      assert specs[..n][..k] == specs[..k];
      assert WriteRows(specs[..n]) + [] == WriteRows(specs[..n]);
    } else {
      assert WriteRows(specs[..n]) + [] == WriteRows(specs[..n]);
    }
  }

  method WriteAll(ledger: OperationLedger, specs: seq<RowSpec>) returns (ok: bool)
    requires ledger.Valid() && !ledger.isOpen
    modifies ledger`journalRows, ledger`landed, ledger`told
    ensures ledger.Valid() && ok == WritesGo(specs)
    ensures ledger.landed == old(ledger.landed) + WriteRows(specs)
  {
    ok := true;
    for k := 0 to |specs|
      invariant ledger.Valid() && WritesGo(specs[..k])
      invariant ledger.landed == old(ledger.landed) + WriteRows(specs[..k])
    {
      assert specs[..k + 1][..k] == specs[..k];
      ok := ledger.RecordWrite(specs[k]);
      if !ok {
        RefusedWritesEnd(specs, k);
        return;
      }
      assert WritesGo(specs[..k + 1]);
      Appended(old(ledger.landed), WriteRows(specs[..k]), RowsOf(specs[k]));
    }
    assert specs[..|specs|] == specs;
  }

  /** Which of the operations apply. */
  function AppliedOf(branches: seq<Branch>): (r: seq<bool>)
    ensures |r| == |branches| && forall k :: 0 <= k < |branches| ==> r[k] == OutcomeOf(branches[k]).Applied?
  {
    seq(|branches|, k requires 0 <= k < |branches| => OutcomeOf(branches[k]).Applied?)
  }

  /** How many operations are attempted from the `k`th on, counting those before it, and whether
      a crash ends them. */
  function AttemptsOf(applied: seq<bool>, continueOnError: bool, crashAfter: Option<nat>, k: nat): (r: (nat, bool))
    requires k <= |applied|
    ensures k <= r.0 <= |applied|
    decreases |applied| - k
  {
    if k == |applied| then (k, false)
    else if crashAfter == Some(k) then (k, true)
    else if !applied[k] && !continueOnError then (k + 1, false)
    else AttemptsOf(applied, continueOnError, crashAfter, k + 1)
  }

  function Attempts(script: Script, k: nat): (r: (nat, bool))
    requires k <= |script.branches|
    ensures k <= r.0 <= |script.branches|
  {
    AttemptsOf(AppliedOf(script.branches), script.continueOnError, script.crashAfter, k)
  }

  lemma NextAttempt(script: Script, k: nat)
    requires k < |script.branches|
    ensures Attempts(script, k) ==
              if script.crashAfter == Some(k) then (k, true)
              else if !OutcomeOf(script.branches[k]).Applied? && !script.continueOnError then (k + 1, false)
              else Attempts(script, k + 1)
  {
  }

  lemma {:induction false} CutShort(applied: seq<bool>, continueOnError: bool, crashAfter: Option<nat>, k: nat)
    requires k <= |applied|
    ensures var (n, crashed) := AttemptsOf(applied, continueOnError, crashAfter, k);
            n < |applied| && !crashed ==> k < n && !applied[n - 1]
    decreases |applied| - k
  {
    if k < |applied| && crashAfter != Some(k) && (applied[k] || continueOnError) {
      CutShort(applied, continueOnError, crashAfter, k + 1);
    }
  }

  function OutcomesOf(branches: seq<Branch>): (r: seq<Outcome>)
    ensures |r| == |branches| && forall k :: 0 <= k < |branches| ==> r[k] == OutcomeOf(branches[k])
  {
    seq(|branches|, k requires 0 <= k < |branches| => OutcomeOf(branches[k]))
  }

  function BranchRows(branches: seq<Branch>): seq<Row> {
    if branches == [] then []
    else BranchRows(branches[..|branches| - 1]) + Acted(branches[|branches| - 1].actions).rows
  }

  lemma OneMoreBranch(branches: seq<Branch>, k: nat)
    requires k < |branches|
    ensures OutcomesOf(branches[..k + 1]) == OutcomesOf(branches[..k]) + [OutcomeOf(branches[k])]
    ensures BranchRows(branches[..k + 1]) == BranchRows(branches[..k]) + Acted(branches[k].actions).rows
  {
    assert branches[..k + 1][..k] == branches[..k];
  }

  /** The error entries and the failed normalizations of these operations. */
  function EntriesIn(branches: seq<Branch>): seq<ErrorEntry> {
    if branches == [] then []
    else EntriesIn(branches[..|branches| - 1]) + EntryOf(OutcomeOf(branches[|branches| - 1]))
  }

  function NormalizedIn(branches: seq<Branch>): seq<int> {
    if branches == [] then []
    else NormalizedIn(branches[..|branches| - 1]) + Acted(branches[|branches| - 1].actions).normalized
  }

  ghost predicate Reports(errors: seq<ErrorEntry>, normalization: seq<int>, branches: seq<Branch>) {
    errors == EntriesIn(branches) && normalization == NormalizedIn(branches)
  }

  lemma OneMoreReport(branches: seq<Branch>, k: nat, errors: seq<ErrorEntry>, normalization: seq<int>)
    requires k < |branches| && Reports(errors, normalization, branches[..k])
    ensures Reports(errors + EntryOf(OutcomeOf(branches[k])), normalization + Acted(branches[k].actions).normalized,
                    branches[..k + 1])
  {
    assert branches[..k + 1][..k] == branches[..k];
  }

  /** The entries of setup failures. */
  function SetupEntries(n: nat): seq<ErrorEntry> {
    if n == 0 then [] else SetupEntries(n - 1) + [ErrorEntry(false, false)]
  }

  /** One operation of a run, with what the books say after it. */
  method RunNext(ledger: OperationLedger, branches: seq<Branch>, k: nat, errors: seq<ErrorEntry>,
                 normalization: seq<int>, ghost was: seq<Row>)
    returns (errors': seq<ErrorEntry>, normalization': seq<int>)
    requires k < |branches| && OneCreate(branches[k])
    requires ledger.Valid() && !ledger.isOpen && !ledger.counts.aborted
    requires ledger.landed == was + BranchRows(branches[..k])
    requires Books(ledger.counts, errors, normalization, OutcomesOf(branches[..k]), 0)
    requires Reports(errors, normalization, branches[..k])
    modifies ledger
    ensures ledger.Valid() && !ledger.isOpen && !ledger.counts.aborted
    ensures ledger.drained == old(ledger.drained) && ledger.counts.total == old(ledger.counts.total)
    ensures ledger.landed == was + BranchRows(branches[..k + 1])
    ensures Books(ledger.counts, errors', normalization', OutcomesOf(branches[..k + 1]), 0)
    ensures Reports(errors', normalization', branches[..k + 1])
  {
    var b := branches[k];
    OneMoreReport(branches, k, errors, normalization);
    BooksOperation(ledger.counts, errors, normalization, OutcomesOf(branches[..k]), 0, b);
    OneMoreBranch(branches, k);
    Appended(was, BranchRows(branches[..k]), Acted(b.actions).rows);
    errors', normalization' := RunOperation(ledger, b, errors, normalization);
  }

  method RunOperations(ledger: OperationLedger, script: Script)
    returns (errors: seq<ErrorEntry>, normalization: seq<int>, crashed: bool)
    requires ledger.Valid() && !ledger.isOpen && ledger.counts == Counts(|script.branches|, 0, 0, 0, 0, 0, false, {})
    requires forall k :: 0 <= k < |script.branches| ==> OneCreate(script.branches[k])
    modifies ledger
    ensures ledger.Valid() && !ledger.isOpen && ledger.drained == old(ledger.drained)
    ensures var (n, crash) := Attempts(script, 0);
            && crashed == crash && ledger.counts.total == |script.branches|
            && ledger.landed == old(ledger.landed) + BranchRows(script.branches[..n])
            && Books(ledger.counts, errors, normalization, OutcomesOf(script.branches[..n]), 0)
            && Reports(errors, normalization, script.branches[..n])
            && (n == |script.branches| || crashed || ledger.counts.aborted)
  {
    errors, normalization, crashed := [], [], false;
    var k := 0;
    assert script.branches[..0] == [];
    assert old(ledger.landed) + [] == old(ledger.landed);
    while k < |script.branches|
      invariant 0 <= k <= |script.branches| && !crashed
      invariant ledger.Valid() && !ledger.isOpen && ledger.drained == old(ledger.drained)
      invariant ledger.counts.total == |script.branches| && !ledger.counts.aborted
      invariant ledger.landed == old(ledger.landed) + BranchRows(script.branches[..k])
      invariant Books(ledger.counts, errors, normalization, OutcomesOf(script.branches[..k]), 0)
      invariant Reports(errors, normalization, script.branches[..k])
      invariant Attempts(script, 0) == Attempts(script, k)
    {
      NextAttempt(script, k);
      if script.crashAfter == Some(k) { crashed := true; return; }
      errors, normalization := RunNext(ledger, script.branches, k, errors, normalization, old(ledger.landed));
      k := k + 1;
      if !OutcomeOf(script.branches[k - 1]).Applied? && !script.continueOnError {
        BooksAborted(ledger.counts, errors, normalization, OutcomesOf(script.branches[..k]), 0);
        ledger.AbortRemaining();
        return;
      }
    }
  }

  /** The entries of these operations, and then those of setup failures. */
  ghost predicate ReportsAll(errors: seq<ErrorEntry>, normalization: seq<int>, branches: seq<Branch>, setups: nat) {
    errors == EntriesIn(branches) + SetupEntries(setups) && normalization == NormalizedIn(branches)
  }

  lemma NothingReported(branches: seq<Branch>)
    ensures ReportsAll([], [], branches[..0], 0)
  {
    assert branches[..0] == [];
  }

  lemma OperationsReported(errors: seq<ErrorEntry>, normalization: seq<int>, branches: seq<Branch>)
    requires Reports(errors, normalization, branches)
    ensures ReportsAll(errors, normalization, branches, 0)
  {
    assert errors + [] == errors;
  }

  lemma SetupReported(errors: seq<ErrorEntry>, normalization: seq<int>, branches: seq<Branch>, setups: nat)
    requires ReportsAll(errors, normalization, branches, setups)
    ensures ReportsAll(errors + [ErrorEntry(false, false)], normalization, branches, setups + 1)
  {
    Appended(EntriesIn(branches), SetupEntries(setups), [ErrorEntry(false, false)]);
  }

  method NoteSetupFailure(ledger: OperationLedger, errors: seq<ErrorEntry>, abortedRun: bool,
                          ghost normalization: seq<int>, ghost outcomes: seq<Outcome>, ghost setups: nat,
                          ghost branches: seq<Branch>)
    returns (errors': seq<ErrorEntry>)
    requires ledger.Valid() && Books(ledger.counts, errors, normalization, outcomes, setups)
    requires ReportsAll(errors, normalization, branches, setups)
    modifies ledger`counts
    ensures ledger.Valid() && ledger.counts == SetupFailed(old(ledger.counts), abortedRun)
    ensures Books(ledger.counts, errors', normalization, outcomes, setups + 1)
    ensures ReportsAll(errors', normalization, branches, setups + 1)
  {
    SetupReported(errors, normalization, branches, setups);
    BooksSetup(ledger.counts, errors, normalization, outcomes, setups, abortedRun);
    errors' := errors + [ErrorEntry(false, false)];
    ledger.RecordSetupFailure(abortedRun);
  }

  // ----- what a script comes to

  predicate GroupsMade(script: Script) {
    WritesGo(script.groupWrites) && !script.groupFails
  }

  function Attempted(script: Script): (n: nat)
    ensures n <= |script.branches|
  {
    if GroupsMade(script) then Attempts(script, 0).0 else 0
  }

  predicate ReachesRepairs(script: Script) {
    GroupsMade(script) && !Attempts(script, 0).1
  }

  predicate Crashes(script: Script) {
    !WritesGo(script.groupWrites) || (GroupsMade(script) && (Attempts(script, 0).1 || !WritesGo(script.repairs)))
  }

  function Setups(script: Script): nat {
    (if WritesGo(script.groupWrites) && script.groupFails then 1 else 0) +
    (if ReachesRepairs(script) && WritesGo(script.repairs) && script.unrepaired then 1 else 0) +
    (if Crashes(script) then 1 else 0) + (if script.rowsUnwritten then 1 else 0)
  }

  function ScriptRows(script: Script): seq<Row> {
    WriteRows(script.groupWrites) + BranchRows(script.branches[..Attempted(script)]) +
    if ReachesRepairs(script) then WriteRows(script.repairs) else []
  }

  /** The groups, the operations and the repairs. */
  method RunPhases(ledger: OperationLedger, script: Script)
    returns (errors: seq<ErrorEntry>, normalization: seq<int>, crashed: bool, ghost setups: nat)
    requires ledger.Valid() && !ledger.isOpen && ledger.counts == Counts(|script.branches|, 0, 0, 0, 0, 0, false, {})
    requires ledger.landed == [] && forall k :: 0 <= k < |script.branches| ==> OneCreate(script.branches[k])
    modifies ledger
    ensures ledger.Valid() && !ledger.isOpen && ledger.drained == old(ledger.drained)
    ensures ledger.counts.total == |script.branches| && ledger.landed == ScriptRows(script)
    ensures crashed == Crashes(script)
    ensures Attempted(script) == |script.branches| || crashed || ledger.counts.aborted
    ensures setups + (if crashed then 1 else 0) + (if script.rowsUnwritten then 1 else 0) == Setups(script)
    ensures Books(ledger.counts, errors, normalization, OutcomesOf(script.branches[..Attempted(script)]), setups)
    ensures ReportsAll(errors, normalization, script.branches[..Attempted(script)], setups)
  {
    errors, normalization, setups := [], [], 0;
    if !GroupsMade(script) { NothingReported(script.branches); }
    ghost var groups := WriteRows(script.groupWrites);
    assert [] + groups == groups && groups + [] + [] == groups;
    var ok := WriteAll(ledger, script.groupWrites);
    crashed := !ok;
    if ok && script.groupFails {
      errors := NoteSetupFailure(ledger, errors, true, normalization, [], 0, script.branches[..0]);
      setups := 1;
    } else if ok {
      errors, normalization, crashed := RunOperations(ledger, script);
      OperationsReported(errors, normalization, script.branches[..Attempted(script)]);
      ghost var upto := ledger.landed;
      assert upto + [] == upto;
      if !crashed {
        ok := WriteAll(ledger, script.repairs);
        crashed := !ok;
        if ok && script.unrepaired {
          errors := NoteSetupFailure(ledger, errors, false, normalization,
                                     OutcomesOf(script.branches[..Attempted(script)]), 0,
                                     script.branches[..Attempted(script)]);
          setups := 1;
        }
      }
    }
  }

  /** Books that are kept to the end pass the audit, and the envelope says what the outcomes were. */
  lemma BooksPass(c: Counts, errors: seq<ErrorEntry>, normalization: seq<int>, outcomes: seq<Outcome>, setups: nat)
    requires Books(c, errors, normalization, outcomes, setups) && |outcomes| <= c.total
    requires c.aborted || |outcomes| == c.total
    ensures Matches(c, errors, normalization)
    ensures var result := Derive(c, errors, normalization);
            && (result.success <==> setups == 0 && AllApplied(outcomes))
            && (result.partial <==> SomeLeft(outcomes) && !AllApplied(outcomes))
  {
    AllCleanCounts(outcomes);
  }

  /** A run that is cut short did not succeed. */
  lemma SuccessIsWhole(script: Script)
    ensures Setups(script) == 0 && AllApplied(OutcomesOf(script.branches[..Attempted(script)])) ==>
              Attempted(script) == |script.branches|
  {
    var n := Attempted(script);
    CutShort(AppliedOf(script.branches), script.continueOnError, script.crashAfter, 0);
    if Setups(script) == 0 && n < |script.branches| {
      assert OutcomesOf(script.branches[..n])[n - 1] == OutcomeOf(script.branches[n - 1]);
    }
  }

  /** What the envelope reports: each operation attempted is counted by what became of it, its entry and its failed
      normalizations are there, and success and partial are what the outcomes make them. */
  ghost predicate EnvelopeSays(script: Script, result: Envelope) {
    var outcomes := OutcomesOf(script.branches[..Attempted(script)]);
    && result.operationsApplied == CountOutcomes(outcomes, Landed)
    && result.operationsFailed == CountOutcomes(outcomes, NotLanded)
    && result.operationsPartiallyApplied == CountOutcomes(outcomes, LeftWork)
    && (result.success <==> Setups(script) == 0 && AllApplied(outcomes))
    && (result.partial <==> SomeLeft(outcomes) && !AllApplied(outcomes))
    && (result.success ==> Attempted(script) == |script.branches|)
    && ReportsAll(result.errors, result.normalizationFailures, script.branches[..Attempted(script)], Setups(script))
  }

  lemma EnvelopeIs(script: Script, c: Counts, errors: seq<ErrorEntry>, normalization: seq<int>)
    requires Books(c, errors, normalization, OutcomesOf(script.branches[..Attempted(script)]), Setups(script))
    requires ReportsAll(errors, normalization, script.branches[..Attempted(script)], Setups(script))
    requires c.total == |script.branches| && (c.aborted || Attempted(script) == |script.branches|)
    ensures Matches(c, errors, normalization) && EnvelopeSays(script, Derive(c, errors, normalization))
  {
    BooksPass(c, errors, normalization, OutcomesOf(script.branches[..Attempted(script)]), Setups(script));
    SuccessIsWhole(script);
  }

  /** A run of the executor.  It never ends in an audit failure; each operation it attempts is counted by
      what became of it; `success` and `partial` say what rule 4 promises of them; and the rows handed
      over are those of every write that landed, in order. */
  method RunBulkCommit(script: Script) returns (result: Envelope, raised: bool, rows: seq<Row>)
    requires forall k :: 0 <= k < |script.branches| ==> OneCreate(script.branches[k])
    ensures !raised && rows == ScriptRows(script) && EnvelopeSays(script, result)
  {
    ghost var outcomes := OutcomesOf(script.branches[..Attempted(script)]);
    var ledger := new OperationLedger(|script.branches|);
    var errors, normalization, crashed, setups := RunPhases(ledger, script);
    ghost var branches := script.branches[..Attempted(script)];
    if crashed {
      errors := NoteSetupFailure(ledger, errors, true, normalization, outcomes, setups, branches);
      setups := setups + 1;
    }
    rows := ledger.DrainJournalRows();
    assert [] + rows == rows;
    if script.rowsUnwritten {
      errors := NoteSetupFailure(ledger, errors, false, normalization, outcomes, setups, branches);
      setups := setups + 1;
    }
    EnvelopeIs(script, ledger.counts, errors, normalization);
    result, raised := Finalize(ledger, errors, normalization);
  }
}
