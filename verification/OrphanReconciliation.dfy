/** Cleaning up the channels that a rule no longer yields (`_reconcile_orphans` in
    backend/channel_pipeline_engine.py). */
module OrphanReconciliation {
  import opened Common

  datatype OrphanAction = Remove | MoveUncategorized | RemoveAndCleanGroups | Nothing

  datatype Rule = Rule(id: int, eventSync: bool, promote: bool, target: Option<int>, action: OrphanAction)

  /** How a call to remove or move a channel went; one that finds it gone counts as a success. */
  datatype Reply = Landed | AlreadyGone | Refused

  datatype Attempt = Attempt(rule: int, channel: int, move: bool, reply: Reply)

  /** The managed ids of each rule that has any recorded; a rule that is missing has null. */
  type Ledger = map<int, set<int>>

  /** The group of each channel that the executor knows. */
  type Known = map<int, Option<int>>

  /** `raisesAt` is the rule at which an exception ends the pass, or the end for one in the commit. */
  datatype Pass = Pass(rules: seq<Rule>, order: map<int, seq<int>>, known: Known, dryRun: bool, allowed: bool,
                       raisesAt: Option<nat>, replies: map<int, Reply>)

  ghost predicate DistinctRules(rules: seq<Rule>) {
    forall i, j :: 0 <= i < j < |rules| ==> rules[i].id != rules[j].id
  }

  function Current(pass: Pass, rule: int): set<int> {
    if rule in pass.order then set c | c in pass.order[rule] else {}
  }

  predicate Bypassed(rule: Rule) {
    rule.eventSync && (!rule.promote || rule.target.None?)
  }

  predicate Promotes(rule: Rule) {
    rule.eventSync && rule.promote
  }

  predicate Acts(rule: Rule, ledger: Ledger) {
    !Bypassed(rule) && !rule.action.Nothing? && rule.id in ledger
  }

  /** What the rule managed and no longer yields, which the executor knows of, and, where the rule promotes,
      lies in its target group. */
  function Orphans(rule: Rule, ledger: Ledger, current: set<int>, known: Known): set<int> {
    if !Acts(rule, ledger) then {}
    else set c | c in ledger[rule.id] && c !in current && c in known && (Promotes(rule) ==> known[c] == rule.target)
  }

  /** The ledger with what the rule yields now; a rule that has none recorded, or that never cleans up, is
      not given an empty set. */
  function Recorded(ledger: Ledger, rule: Rule, current: set<int>): Ledger {
    if Bypassed(rule) || (current == {} && (rule.action.Nothing? || rule.id !in ledger)) then ledger
    else ledger[rule.id := current]
  }

  function NextLedger(ledger: Ledger, rules: seq<Rule>, pass: Pass): Ledger {
    if rules == [] then ledger else
      var n := |rules| - 1;
      Recorded(NextLedger(ledger, rules[..n], pass), rules[n], Current(pass, rules[n].id))
  }

  lemma {:induction false} LedgerOfRule(ledger: Ledger, rules: seq<Rule>, pass: Pass, r: int)
    requires DistinctRules(rules)
    ensures (forall k :: 0 <= k < |rules| ==> rules[k].id != r) ==>
              (r in NextLedger(ledger, rules, pass) <==> r in ledger) &&
              (r in ledger ==> NextLedger(ledger, rules, pass)[r] == ledger[r])
    ensures forall k :: 0 <= k < |rules| && rules[k].id == r ==>
              (r in NextLedger(ledger, rules, pass) <==> r in Recorded(ledger, rules[k], Current(pass, r))) &&
              (r in NextLedger(ledger, rules, pass) ==>
               NextLedger(ledger, rules, pass)[r] == Recorded(ledger, rules[k], Current(pass, r))[r])
  {
    if rules != [] {
      var n := |rules| - 1;
      LedgerOfRule(ledger, rules[..n], pass, r);
      assert forall k :: 0 <= k < n ==> rules[..n][k] == rules[k];
    }
  }

  /** What earlier attempts have changed in what the executor knows: a move that landed. */
  function KnownAfter(known: Known, attempts: seq<Attempt>): Known {
    if attempts == [] then known else
      var n := |attempts| - 1;
      var before, a := KnownAfter(known, attempts[..n]), attempts[n];
      if a.move && a.reply.Landed? && a.channel in before then before[a.channel := None] else before
  }

  function ReplyFor(replies: map<int, Reply>, c: int): Reply {
    if c in replies then replies[c] else Landed
  }

  /** The attempts are one for each orphan of the rule. */
  ghost predicate OneEach(attempts: seq<Attempt>, rule: Rule, orphans: set<int>, replies: map<int, Reply>) {
    && (forall i :: 0 <= i < |attempts| ==>
          attempts[i].rule == rule.id && attempts[i].channel in orphans &&
          attempts[i].move == rule.action.MoveUncategorized? &&
          attempts[i].reply == ReplyFor(replies, attempts[i].channel))
    && (forall i, j :: 0 <= i < j < |attempts| ==> attempts[i].channel != attempts[j].channel)
    && (forall c :: c in orphans ==> exists i :: 0 <= i < |attempts| && attempts[i].channel == c)
  }

  function CountSuccess(attempts: seq<Attempt>, move: bool): nat {
    if attempts == [] then 0 else
      var a := attempts[|attempts| - 1];
      CountSuccess(attempts[..|attempts| - 1], move) + if a.move == move && !a.reply.Refused? then 1 else 0
  }

  ghost function Successes(attempts: seq<Attempt>, move: bool): set<nat> {
    set n: nat | n < |attempts| && attempts[n].move == move && attempts[n].reply != Refused
  }

  /** What is counted is the attempts of a kind that were not refused. */
  lemma {:induction false} SuccessesAre(attempts: seq<Attempt>, move: bool)
    ensures CountSuccess(attempts, move) == |Successes(attempts, move)|
  {
    if attempts == [] {
      assert Successes(attempts, move) == {};
    } else {
      var n := |attempts| - 1;
      SuccessesAre(attempts[..n], move);
      OneMoreSuccess(attempts, n, move);
    }
  }

  lemma OneMoreSuccess(attempts: seq<Attempt>, n: nat, move: bool)
    requires n == |attempts| - 1
    ensures |Successes(attempts, move)| ==
              |Successes(attempts[..n], move)| +
              if attempts[n].move == move && attempts[n].reply != Refused then 1 else 0
  {
    var now: set<nat> := if attempts[n].move == move && attempts[n].reply != Refused then {n} else {};
    assert Successes(attempts, move) == Successes(attempts[..n], move) + now;
  }

  lemma OneMoreAttempt(known: Known, attempts: seq<Attempt>, a: Attempt)
    ensures KnownAfter(known, attempts + [a]) ==
              var before := KnownAfter(known, attempts);
              if a.move && a.reply.Landed? && a.channel in before then before[a.channel := None] else before
    ensures forall move :: CountSuccess(attempts + [a], move) ==
              CountSuccess(attempts, move) + if a.move == move && !a.reply.Refused? then 1 else 0
  {
    assert (attempts + [a])[..|attempts|] == attempts;
  }

  lemma {:induction false} AttemptsJoin(known: Known, a: seq<Attempt>, b: seq<Attempt>)
    ensures KnownAfter(known, a + b) == KnownAfter(KnownAfter(known, a), b)
    ensures forall move :: CountSuccess(a + b, move) == CountSuccess(a, move) + CountSuccess(b, move)
  {
    if b == [] {
      assert a + b == a;
    } else {
      var n := |b| - 1;
      AttemptsJoin(known, a, b[..n]);
      OneMoreAttempt(known, a + b[..n], b[n]);
      assert a + b == a + b[..n] + [b[n]];
    }
  }

  /** What the rule's attempts leave to do. */
  ghost predicate Cleaned(attempts: seq<Attempt>, rule: Rule, orphans: set<int>, left: set<int>,
                          replies: map<int, Reply>) {
    && left <= orphans
    && OneEach(attempts, rule, orphans - left, replies)
  }

  lemma CleanedOneMore(attempts: seq<Attempt>, rule: Rule, orphans: set<int>, left: set<int>, a: Attempt,
                       replies: map<int, Reply>)
    requires Cleaned(attempts, rule, orphans, left, replies) && a.channel in left
    requires a.rule == rule.id && a.move == rule.action.MoveUncategorized? && a.reply == ReplyFor(replies, a.channel)
    ensures Cleaned(attempts + [a], rule, orphans, left - {a.channel}, replies)
  {
    var more, rest := attempts + [a], left - {a.channel};
    forall c | c in orphans - rest
      ensures exists i :: 0 <= i < |more| && more[i].channel == c
    {
      if c == a.channel {
        assert more[|attempts|].channel == c;
      } else {
        assert c in orphans - left;
        var i :| 0 <= i < |attempts| && attempts[i].channel == c;
        assert more[i].channel == c;
      }
    }
    assert rest <= orphans;
  }

  method CleanUp(rule: Rule, orphans: set<int>, known: Known, replies: map<int, Reply>)
    returns (attempts: seq<Attempt>, known': Known, removed: nat, moved: nat)
    ensures OneEach(attempts, rule, orphans, replies) && known' == KnownAfter(known, attempts)
    ensures removed == CountSuccess(attempts, false) && moved == CountSuccess(attempts, true)
  {
    attempts, known', removed, moved := [], known, 0, 0;
    var left := orphans;
    while left != {}
      invariant Cleaned(attempts, rule, orphans, left, replies) && known' == KnownAfter(known, attempts)
      invariant removed == CountSuccess(attempts, false) && moved == CountSuccess(attempts, true)
      decreases left
    {
      EmptyOrMember(left);
      var c :| c in left;
      var a := Attempt(rule.id, c, rule.action.MoveUncategorized?, ReplyFor(replies, c));
      CleanedOneMore(attempts, rule, orphans, left, a, replies);
      OneMoreAttempt(known, attempts, a);
      attempts := attempts + [a];
      if a.move {
        if a.reply.Landed? && c in known' { known' := known'[c := None]; }
        if !a.reply.Refused? { moved := moved + 1; }
      } else if !a.reply.Refused? {
        removed := removed + 1;
      }
      left := left - {c};
    }
    assert orphans - left == orphans;
  }

  // ----- the pass

  /** The session in which rules are written: what is committed, and what would be. */
  class Session {
    var committed: Ledger
    var pending: Ledger

    constructor (ledger: Ledger)
      ensures committed == pending == ledger
    {
      committed, pending := ledger, ledger;
    }

    method SetManaged(rule: int, ids: set<int>)
      modifies `pending
      ensures pending == old(pending)[rule := ids]
    {
      pending := pending[rule := ids];
    }

    method Commit()
      modifies `committed
      ensures committed == pending
    {
      committed := pending;
    }

    method Rollback()
      modifies `pending
      ensures pending == committed
    {
      pending := committed;
    }
  }

  predicate Persists(pass: Pass) {
    !pass.dryRun && pass.allowed
  }

  /** One rule: its attempts, or, in a dry run, what it would attempt. */
  method ReconcileRule(session: Session, rule: Rule, pass: Pass, known: Known)
    returns (attempts: seq<Attempt>, previews: set<int>, known': Known, removed: nat, moved: nat)
    requires rule.id in session.pending <==> rule.id in session.committed
    requires rule.id in session.pending ==> session.pending[rule.id] == session.committed[rule.id]
    modifies session`pending
    ensures var orphans := Orphans(rule, session.committed, Current(pass, rule.id), known);
            if pass.dryRun then attempts == [] && previews == orphans && removed == |orphans| && moved == 0
            else OneEach(attempts, rule, orphans, pass.replies) && previews == {} &&
                 removed == CountSuccess(attempts, false) && moved == CountSuccess(attempts, true)
    ensures known' == KnownAfter(known, attempts)
    ensures Persists(pass) ==> session.pending == Recorded(old(session.pending), rule, Current(pass, rule.id))
    ensures pass.dryRun ==> session.pending == old(session.pending)
    ensures forall r :: r != rule.id ==> (r in session.pending <==> r in old(session.pending))
    ensures forall r :: r != rule.id && r in session.pending ==> session.pending[r] == old(session.pending)[r]
  {
    attempts, previews, known', removed, moved := [], {}, known, 0, 0;
    if rule.eventSync && (!rule.promote || rule.target.None?) { return; }
    var current := Current(pass, rule.id);
    if rule.action.Nothing? || rule.id !in session.committed {
      if current != {} && !pass.dryRun { session.SetManaged(rule.id, current); }
      return;
    }
    var previous := session.committed[rule.id];
    var orphans := previous - current;
    orphans := set c | c in orphans && c in known;
    if Promotes(rule) { orphans := set c | c in orphans && known[c] == rule.target; }
    assert orphans == Orphans(rule, session.committed, current, known);
    if orphans == {} {
      if Persists(pass) && current != previous { session.SetManaged(rule.id, current); }
      return;
    }
    if pass.dryRun {
      previews, removed := orphans, |orphans|;
      return;
    }
    attempts, known', removed, moved := CleanUp(rule, orphans, known, pass.replies);
    if Persists(pass) { session.SetManaged(rule.id, current); }
  }

  /** The attempts of each rule in turn: one for each of its orphans, by what was known when its turn came. */
  ghost predicate InTurn(pass: Pass, ledger: Ledger, attempts: seq<Attempt>, starts: seq<nat>) {
    && 0 < |starts| <= |pass.rules| + 1 && MarksRise(starts, |attempts|)
    && AllTurns(pass, ledger, attempts, starts)
  }

  ghost predicate MarksRise(starts: seq<nat>, end: nat) {
    && 0 < |starts| && starts[0] == 0 && starts[|starts| - 1] == end
    && forall i, j :: 0 <= i <= j < |starts| ==> starts[i] <= starts[j]
  }

  ghost predicate AllTurns(pass: Pass, ledger: Ledger, attempts: seq<Attempt>, starts: seq<nat>) {
    forall i: nat :: i + 1 < |starts| ==> TurnIs(pass, ledger, attempts, starts, i)
  }

  ghost predicate TurnIs(pass: Pass, ledger: Ledger, attempts: seq<Attempt>, starts: seq<nat>, i: nat)
    requires i + 1 < |starts|
  {
    TurnOf(pass, ledger, attempts, i, starts[i], starts[i + 1])
  }

  ghost predicate TurnOf(pass: Pass, ledger: Ledger, attempts: seq<Attempt>, i: nat, from: nat, upto: nat) {
    && i < |pass.rules| && from <= upto <= |attempts|
    && var rule := pass.rules[i];
       OneEach(attempts[from..upto], rule,
               Orphans(rule, ledger, Current(pass, rule.id), KnownAfter(pass.known, attempts[..from])), pass.replies)
  }

  lemma TurnKept(pass: Pass, ledger: Ledger, attempts: seq<Attempt>, more: seq<Attempt>, i: nat, from: nat, upto: nat)
    requires TurnOf(pass, ledger, attempts, i, from, upto)
    ensures TurnOf(pass, ledger, attempts + more, i, from, upto)
  {
    assert (attempts + more)[from..upto] == attempts[from..upto];
    assert (attempts + more)[..from] == attempts[..from];
  }

  lemma TurnAdded(pass: Pass, ledger: Ledger, attempts: seq<Attempt>, more: seq<Attempt>, i: nat)
    requires i < |pass.rules|
    requires var rule := pass.rules[i];
             OneEach(more, rule, Orphans(rule, ledger, Current(pass, rule.id), KnownAfter(pass.known, attempts)),
                     pass.replies)
    ensures TurnOf(pass, ledger, attempts + more, i, |attempts|, |attempts| + |more|)
  {
    assert (attempts + more)[|attempts|..|attempts| + |more|] == more;
    assert (attempts + more)[..|attempts|] == attempts;
  }

  lemma OneMoreTurn(pass: Pass, ledger: Ledger, attempts: seq<Attempt>, starts: seq<nat>, more: seq<Attempt>)
    requires InTurn(pass, ledger, attempts, starts) && |starts| <= |pass.rules|
    requires var rule := pass.rules[|starts| - 1];
             OneEach(more, rule, Orphans(rule, ledger, Current(pass, rule.id), KnownAfter(pass.known, attempts)),
                     pass.replies)
    ensures InTurn(pass, ledger, attempts + more, starts + [|attempts| + |more|])
  {
    MarksGrow(starts, |attempts|, |attempts| + |more|);
    TurnsGrow(pass, ledger, attempts, starts, more);
  }

  lemma TurnsGrow(pass: Pass, ledger: Ledger, attempts: seq<Attempt>, starts: seq<nat>, more: seq<Attempt>)
    requires InTurn(pass, ledger, attempts, starts) && |starts| <= |pass.rules|
    requires var rule := pass.rules[|starts| - 1];
             OneEach(more, rule, Orphans(rule, ledger, Current(pass, rule.id), KnownAfter(pass.known, attempts)),
                     pass.replies)
    ensures AllTurns(pass, ledger, attempts + more, starts + [|attempts| + |more|])
  {
    var marks := starts + [|attempts| + |more|];
    forall i: nat | i + 1 < |marks| ensures TurnIs(pass, ledger, attempts + more, marks, i) {
      TurnAt(pass, ledger, attempts, starts, more, marks, i);
    }
  }

  lemma TurnAt(pass: Pass, ledger: Ledger, attempts: seq<Attempt>, starts: seq<nat>, more: seq<Attempt>,
               marks: seq<nat>, i: nat)
    requires InTurn(pass, ledger, attempts, starts) && |starts| <= |pass.rules| && i < |starts|
    requires var rule := pass.rules[|starts| - 1];
             OneEach(more, rule, Orphans(rule, ledger, Current(pass, rule.id), KnownAfter(pass.known, attempts)),
                     pass.replies)
    requires marks == starts + [|attempts| + |more|]
    ensures TurnIs(pass, ledger, attempts + more, marks, i)
  {
    if i < |starts| - 1 {
      EarlierTurn(pass, ledger, attempts, starts, more, i);
    } else {
      TurnAdded(pass, ledger, attempts, more, i);
    }
  }

  lemma EarlierTurn(pass: Pass, ledger: Ledger, attempts: seq<Attempt>, starts: seq<nat>, more: seq<Attempt>, i: nat)
    requires InTurn(pass, ledger, attempts, starts) && i < |starts| - 1
    ensures TurnOf(pass, ledger, attempts + more, i, starts[i], starts[i + 1])
  {
    assert TurnIs(pass, ledger, attempts, starts, i);
    TurnKept(pass, ledger, attempts, more, i, starts[i], starts[i + 1]);
  }

  lemma MarksGrow(starts: seq<nat>, end: nat, next: nat)
    requires MarksRise(starts, end) && end <= next
    ensures MarksRise(starts + [next], next)
  {
    forall i | 0 <= i < |starts| ensures starts[i] <= next {
      assert starts[i] <= starts[|starts| - 1];
    }
  }

  ghost predicate Previewed(pass: Pass, ledger: Ledger, previews: seq<set<int>>) {
    && |previews| <= |pass.rules|
    && forall i :: 0 <= i < |previews| ==>
         previews[i] == Orphans(pass.rules[i], ledger, Current(pass, pass.rules[i].id), pass.known)
  }

  /** The rules from the `k`th on have what was committed for them. */
  ghost predicate Ahead(rules: seq<Rule>, k: nat, pending: Ledger, committed: Ledger) {
    forall i :: k <= i < |rules| ==>
      (rules[i].id in pending <==> rules[i].id in committed) &&
      (rules[i].id in pending ==> pending[rules[i].id] == committed[rules[i].id])
  }

  predicate Raises(pass: Pass) {
    pass.raisesAt.Some? &&
    (pass.raisesAt.value < |pass.rules| || (pass.raisesAt.value == |pass.rules| && Persists(pass)))
  }

  /** What has come of the first `k` rules. */
  ghost predicate Progress(pass: Pass, ledger: Ledger, k: nat, attempts: seq<Attempt>, previews: seq<set<int>>,
                           removed: nat, moved: nat, starts: seq<nat>) {
    if pass.dryRun then
      attempts == [] && moved == 0 && |previews| == k && Previewed(pass, ledger, previews)
    else
      previews == [] && |starts| == k + 1 && InTurn(pass, ledger, attempts, starts) &&
      removed == CountSuccess(attempts, false) && moved == CountSuccess(attempts, true)
  }

  method ReconcileNext(session: Session, pass: Pass, k: nat, known: Known, attempts: seq<Attempt>,
                       previews: seq<set<int>>,
                       removed: nat, moved: nat, ghost starts: seq<nat>)
    returns (known': Known, attempts': seq<Attempt>, previews': seq<set<int>>, removed': nat, moved': nat,
             ghost starts': seq<nat>)
    requires k < |pass.rules| && known == KnownAfter(pass.known, attempts)
    requires Progress(pass, session.committed, k, attempts, previews, removed, moved, starts)
    requires DistinctRules(pass.rules) && Ahead(pass.rules, k, session.pending, session.committed)
    modifies session`pending
    ensures known' == KnownAfter(pass.known, attempts')
    ensures Progress(pass, session.committed, k + 1, attempts', previews', removed', moved', starts')
    ensures Ahead(pass.rules, k + 1, session.pending, session.committed)
    ensures Persists(pass) ==>
              session.pending == Recorded(old(session.pending), pass.rules[k], Current(pass, pass.rules[k].id))
  {
    var rule := pass.rules[k];
    assert Ahead(pass.rules, k, session.pending, session.committed);
    var more, preview, n, m;
    more, preview, known', n, m := ReconcileRule(session, rule, pass, known);
    attempts', removed', moved', starts' := attempts + more, removed + n, moved + m, starts;
    if pass.dryRun {
      assert attempts == [] && KnownAfter(pass.known, attempts) == pass.known;
      previews' := previews + [preview];
    } else {
      previews' := previews;
      AttemptsJoin(pass.known, attempts, more);
      OneMoreTurn(pass, session.committed, attempts, starts, more);
      starts' := starts + [|attempts| + |more|];
    }
  }

  method ReconcileRules(session: Session, pass: Pass)
    returns (raised: bool, attempts: seq<Attempt>, previews: seq<set<int>>, removed: nat, moved: nat,
             ghost starts: seq<nat>)
    requires DistinctRules(pass.rules) && session.pending == session.committed
    modifies session`pending
    ensures raised <==> pass.raisesAt.Some? && pass.raisesAt.value < |pass.rules|
    ensures Progress(pass, session.committed, Reached(pass), attempts, previews, removed, moved, starts)
    ensures Persists(pass) && !raised ==> session.pending == NextLedger(session.committed, pass.rules, pass)
  {
    raised, attempts, previews, removed, moved, starts := false, [], [], 0, 0, [0];
    var known := pass.known;
    for k := 0 to |pass.rules|
      invariant known == KnownAfter(pass.known, attempts)
      invariant Progress(pass, session.committed, k, attempts, previews, removed, moved, starts)
      invariant Ahead(pass.rules, k, session.pending, session.committed)
      invariant Persists(pass) ==> session.pending == NextLedger(session.committed, pass.rules[..k], pass)
      invariant pass.raisesAt.Some? ==> k <= pass.raisesAt.value
    {
      if pass.raisesAt == Some(k) { raised := true; return; }
      assert pass.rules[..k + 1][..k] == pass.rules[..k];
      known, attempts, previews, removed, moved, starts :=
        ReconcileNext(session, pass, k, known, attempts, previews, removed, moved, starts);
    }
    assert pass.rules[..|pass.rules|] == pass.rules;
  }

  /** How many rules the pass gets to. */
  function Reached(pass: Pass): (n: nat)
    ensures n <= |pass.rules|
  {
    if pass.raisesAt.Some? && pass.raisesAt.value < |pass.rules| then pass.raisesAt.value else |pass.rules|
  }

  /** Does the pass write its ledger? */
  predicate Commits(pass: Pass) {
    Persists(pass) && !Raises(pass)
  }

  function LedgerAfterPass(ledger: Ledger, pass: Pass): Ledger {
    if Commits(pass) then NextLedger(ledger, pass.rules, pass) else ledger
  }

  /** `_reconcile_orphans`: each rule reached cleans up its orphans, or in a dry run lists them; the ledger
      moves on only with a pass that is persisted and commits. */
  method ReconcileOrphans(session: Session, pass: Pass)
    returns (attempts: seq<Attempt>, previews: seq<set<int>>, removed: nat, moved: nat, ghost starts: seq<nat>)
    requires DistinctRules(pass.rules) && session.pending == session.committed
    modifies session
    ensures Progress(pass, old(session.committed), Reached(pass), attempts, previews, removed, moved, starts)
    ensures forall k: nat :: pass.raisesAt == Some(k) && k <= |pass.rules| ==>
              (pass.dryRun ==> |previews| == k) && (!pass.dryRun ==> |starts| == k + 1)
    ensures pass.raisesAt.None? ==>
              (pass.dryRun ==> |previews| == |pass.rules|) && (!pass.dryRun ==> |starts| == |pass.rules| + 1)
    ensures session.committed == LedgerAfterPass(old(session.committed), pass)
    ensures session.pending == session.committed
  {
    var raised;
    raised, attempts, previews, removed, moved, starts := ReconcileRules(session, pass);
    if !raised && Persists(pass) && pass.raisesAt != Some(|pass.rules|) { session.Commit(); }
    session.Rollback();
  }

  /** Does the pass write the rule into the ledger?  It is no dry run, may write, and is ended by no exception,
      the commit's included; the rule is not an event-sync rule that promotes nothing, or nowhere; and it yields
      something, or has ids recorded and cleans up. */
  ghost predicate Rewrites(pass: Pass, rule: Rule, ledger: Ledger) {
    && !pass.dryRun && pass.allowed && (pass.raisesAt.Some? ==> |pass.rules| < pass.raisesAt.value)
    && (rule.eventSync ==> rule.promote && rule.target.Some?)
    && ((rule.id in pass.order && pass.order[rule.id] != []) || (rule.id in ledger && rule.action != Nothing))
  }

  /** A pass leaves in the ledger, for a rule that it writes, just the ids that the rule yielded, and else what
      was there. */
  lemma LedgerMoves(ledger: Ledger, pass: Pass, i: nat)
    requires DistinctRules(pass.rules) && i < |pass.rules|
    ensures var r, after := pass.rules[i].id, LedgerAfterPass(ledger, pass);
            && (Rewrites(pass, pass.rules[i], ledger) ==>
                  r in after && forall c :: c in after[r] <==> r in pass.order && c in pass.order[r])
            && (!Rewrites(pass, pass.rules[i], ledger) ==>
                  (r in after <==> r in ledger) && (r in ledger ==> after[r] == ledger[r]))
  {
    var rule := pass.rules[i];
    LedgerOfRule(ledger, pass.rules, pass, rule.id);
    if rule.id in pass.order && pass.order[rule.id] != [] {
      assert pass.order[rule.id][0] in Current(pass, rule.id);
    }
  }

  // ----- over many passes

  function LedgerAfter(ledger: Ledger, passes: seq<Pass>): Ledger {
    if passes == [] then ledger
    else LedgerAfterPass(LedgerAfter(ledger, passes[..|passes| - 1]), passes[|passes| - 1])
  }

  ghost predicate DistinctPasses(passes: seq<Pass>) {
    forall k :: 0 <= k < |passes| ==> DistinctRules(passes[k].rules)
  }

  /** The `k`th pass wrote what the rule yielded into the ledger. */
  ghost predicate Wrote(ledger: Ledger, passes: seq<Pass>, k: nat, r: int) {
    && k < |passes| && Commits(passes[k])
    && exists i :: 0 <= i < |passes[k].rules| && WritesRule(LedgerAfter(ledger, passes[..k]), passes[k], i, r)
  }

  ghost predicate WritesRule(ledger: Ledger, pass: Pass, i: nat, r: int) {
    && i < |pass.rules| && pass.rules[i].id == r && !Bypassed(pass.rules[i])
    && (Current(pass, r) != {} || (!pass.rules[i].action.Nothing? && r in ledger))
  }

  lemma PassWrites(ledger: Ledger, pass: Pass, r: int)
    requires DistinctRules(pass.rules)
    ensures var after := NextLedger(ledger, pass.rules, pass);
            if exists i :: 0 <= i < |pass.rules| && WritesRule(ledger, pass, i, r)
            then r in after && after[r] == Current(pass, r)
            else (r in after <==> r in ledger) && (r in ledger ==> after[r] == ledger[r])
  {
    LedgerOfRule(ledger, pass.rules, pass, r);
    if i :| 0 <= i < |pass.rules| && WritesRule(ledger, pass, i, r) {
      assert pass.rules[i].id == r;
    } else {
      forall i | 0 <= i < |pass.rules| && pass.rules[i].id == r
        ensures Recorded(ledger, pass.rules[i], Current(pass, r)) == ledger
      {
        assert !WritesRule(ledger, pass, i, r);
      }
    }
  }

  /** No pass from the `k`th on has written the rule. */
  ghost predicate Unwritten(ledger: Ledger, passes: seq<Pass>, k: nat, r: int) {
    forall j: nat :: k <= j < |passes| ==> !Wrote(ledger, passes, j, r)
  }

  lemma WroteBefore(ledger: Ledger, passes: seq<Pass>, n: nat, r: int)
    requires n <= |passes|
    ensures forall k: nat :: k < n ==> (Wrote(ledger, passes[..n], k, r) <==> Wrote(ledger, passes, k, r))
  {
    forall k: nat | k < n
      ensures Wrote(ledger, passes[..n], k, r) <==> Wrote(ledger, passes, k, r)
    {
      assert passes[..n][..k] == passes[..k];
    }
  }

  /** What is recorded for a rule is what it yielded in the last pass that wrote it, or what was recorded
      at the start if none did. */
  lemma {:induction false} LastWriter(ledger: Ledger, passes: seq<Pass>, r: int) returns (k: Option<nat>)
    requires DistinctPasses(passes)
    ensures k.None? ==> Unwritten(ledger, passes, 0, r) && (r in LedgerAfter(ledger, passes) <==> r in ledger) &&
                        (r in ledger ==> LedgerAfter(ledger, passes)[r] == ledger[r])
    ensures k.Some? ==> Wrote(ledger, passes, k.value, r) && Unwritten(ledger, passes, k.value + 1, r) &&
                        r in LedgerAfter(ledger, passes) &&
                        LedgerAfter(ledger, passes)[r] == Current(passes[k.value], r)
  {
    if passes == [] { return None; }
    var n := |passes| - 1;
    k := LastWriter(ledger, passes[..n], r);
    WroteBefore(ledger, passes, n, r);
    LastPass(ledger, passes, r);
    if Wrote(ledger, passes, n, r) { k := Some(n); }
  }

  lemma LastPass(ledger: Ledger, passes: seq<Pass>, r: int)
    requires DistinctPasses(passes) && passes != []
    ensures var n := |passes| - 1;
            var before, after := LedgerAfter(ledger, passes[..n]), LedgerAfter(ledger, passes);
            if Wrote(ledger, passes, n, r) then r in after && after[r] == Current(passes[n], r)
            else (r in after <==> r in before) && (r in before ==> after[r] == before[r])
  {
    PassWrites(LedgerAfter(ledger, passes[..|passes| - 1]), passes[|passes| - 1], r);
  }

  /** Every attempt is on an orphan: a channel that its rule managed, no longer yields, and that the executor
      knows of, in the target group where the rule promotes. */
  lemma AttemptIsOrphan(pass: Pass, ledger: Ledger, attempts: seq<Attempt>, starts: seq<nat>, n: nat) returns (i: nat)
    requires InTurn(pass, ledger, attempts, starts) && n < |attempts|
    ensures i < |starts| - 1 && starts[i] <= n < starts[i + 1] && attempts[n].rule == pass.rules[i].id
    ensures var rule := pass.rules[i];
            attempts[n].channel in Orphans(rule, ledger, Current(pass, rule.id),
                                           KnownAfter(pass.known, attempts[..starts[i]]))
  {
    i := 0;
    while starts[i + 1] <= n
      invariant i < |starts| - 1 && starts[i] <= n
      decreases |starts| - i
    {
      i := i + 1;
    }
    assert TurnIs(pass, ledger, attempts, starts, i);
    assert attempts[starts[i]..starts[i + 1]][n - starts[i]] == attempts[n];
  }

  /** When rule `i` had its turn, the channel was an orphan of it. */
  ghost predicate OrphanedAtTurn(pass: Pass, ledger: Ledger, attempts: seq<Attempt>, starts: seq<nat>, i: nat, c: int) {
    && i + 1 < |starts| && i < |pass.rules| && starts[i] <= |attempts|
    && c in Orphans(pass.rules[i], ledger, Current(pass, pass.rules[i].id),
                    KnownAfter(pass.known, attempts[..starts[i]]))
  }

  ghost predicate AttemptedIn(attempts: seq<Attempt>, from: nat, upto: nat, n: nat, c: int) {
    from <= n < upto <= |attempts| && attempts[n].channel == c
  }

  lemma AttemptOfTurn(pass: Pass, ledger: Ledger, attempts: seq<Attempt>, starts: seq<nat>, i: nat, c: int)
    returns (n: nat)
    requires InTurn(pass, ledger, attempts, starts) && OrphanedAtTurn(pass, ledger, attempts, starts, i, c)
    ensures AttemptedIn(attempts, starts[i], starts[i + 1], n, c)
  {
    assert TurnIs(pass, ledger, attempts, starts, i);
    var k :| 0 <= k < starts[i + 1] - starts[i] && attempts[starts[i]..starts[i + 1]][k].channel == c;
    n := starts[i] + k;
  }

  lemma OnceATurn(pass: Pass, ledger: Ledger, attempts: seq<Attempt>, i: nat, from: nat, upto: nat, m: nat, n: nat)
    requires TurnOf(pass, ledger, attempts, i, from, upto) && from <= m < n < upto
    ensures attempts[m].channel != attempts[n].channel
  {
    var turn := attempts[from..upto];
    assert turn[m - from] == attempts[m] && turn[n - from] == attempts[n];
  }

  lemma TurnsInOrder(starts: seq<nat>, i: nat, j: nat, m: nat, n: nat)
    requires forall a, b :: 0 <= a <= b < |starts| ==> starts[a] <= starts[b]
    requires i + 1 < |starts| && j + 1 < |starts| && starts[i] <= m < starts[i + 1] && starts[j] <= n < starts[j + 1]
    ensures m < n ==> i <= j
    ensures i < j ==> m < n
  {
  }

  /** A pass attempts a channel twice exactly when two of its rules had it for an orphan, each at its turn: what
      the first attempt did to it is seen by the second only as the group it is then in. */
  lemma AttemptedTwice(pass: Pass, ledger: Ledger, attempts: seq<Attempt>, starts: seq<nat>, c: int)
    requires InTurn(pass, ledger, attempts, starts)
    ensures (exists m: nat, n: nat :: m < n < |attempts| && attempts[m].channel == c == attempts[n].channel) <==>
            exists i: nat, j: nat :: i < j && OrphanedAtTurn(pass, ledger, attempts, starts, i, c) &&
                                     OrphanedAtTurn(pass, ledger, attempts, starts, j, c)
  {
    if m: nat, n: nat :| m < n < |attempts| && attempts[m].channel == c == attempts[n].channel {
      var i := AttemptIsOrphan(pass, ledger, attempts, starts, m);
      var j := AttemptIsOrphan(pass, ledger, attempts, starts, n);
      TurnsInOrder(starts, i, j, m, n);
      assert TurnIs(pass, ledger, attempts, starts, i);
      if i == j { OnceATurn(pass, ledger, attempts, i, starts[i], starts[i + 1], m, n); }
      assert OrphanedAtTurn(pass, ledger, attempts, starts, i, c);
      assert OrphanedAtTurn(pass, ledger, attempts, starts, j, c);
    }
    if i: nat, j: nat :| i < j && OrphanedAtTurn(pass, ledger, attempts, starts, i, c) &&
                         OrphanedAtTurn(pass, ledger, attempts, starts, j, c) {
      var m := AttemptOfTurn(pass, ledger, attempts, starts, i, c);
      var n := AttemptOfTurn(pass, ledger, attempts, starts, j, c);
      TurnsInOrder(starts, i, j, m, n);
      assert attempts[m].channel == c == attempts[n].channel;
    }
  }

  /** An earlier attempt of the pass moved the channel, to no group. */
  ghost predicate MovedBefore(attempts: seq<Attempt>, n: nat, c: int) {
    exists m ::
      0 <= m < n && m < |attempts| && attempts[m].channel == c && attempts[m].move && attempts[m].reply.Landed?
  }

  lemma {:induction false} KnownAfterIs(known: Known, attempts: seq<Attempt>, c: int)
    requires c in known
    ensures c in KnownAfter(known, attempts)
    ensures KnownAfter(known, attempts)[c] == if MovedBefore(attempts, |attempts|, c) then None else known[c]
  {
    if attempts != [] {
      var n := |attempts| - 1;
      KnownAfterIs(known, attempts[..n], c);
      assert forall m :: 0 <= m < n ==> attempts[..n][m] == attempts[m];
      assert MovedBefore(attempts[..n], n, c) ==> MovedBefore(attempts, |attempts|, c);
    }
  }

  /** The rule has reason to clean the channel up: it is not an event-sync rule that promotes nothing, or nowhere;
      it cleans up at all; it is recorded to manage the channel and does not yield it now; and the executor
      knows of the channel. */
  ghost predicate Abandoned(pass: Pass, ledger: Ledger, i: nat, c: int) {
    && i < |pass.rules|
    && var rule := pass.rules[i];
       && (rule.eventSync ==> rule.promote && rule.target.Some?)
       && rule.action != Nothing
       && rule.id in ledger && c in ledger[rule.id]
       && (rule.id in pass.order ==> c !in pass.order[rule.id])
       && c in pass.known
  }

  /** The `n`th attempt is on the channel, and in the turn of rule `i`. */
  ghost predicate AttemptedBy(attempts: seq<Attempt>, starts: seq<nat>, i: nat, n: nat, c: int) {
    i + 1 < |starts| && AttemptedIn(attempts, starts[i], starts[i + 1], n, c)
  }

  /** A rule that a pass gets to attempts a channel exactly when it has reason to and, only if it is an event-sync
      rule, the channel lies in its target group, not having been moved from there earlier in the pass.  It
      attempts it once, moving it if that is the rule's way and else removing it. */
  lemma AttemptedIff(pass: Pass, ledger: Ledger, attempts: seq<Attempt>, starts: seq<nat>, i: nat, c: int)
    requires InTurn(pass, ledger, attempts, starts) && i + 1 < |starts|
    ensures (exists n: nat :: AttemptedBy(attempts, starts, i, n, c)) <==>
              Abandoned(pass, ledger, i, c) &&
              (pass.rules[i].eventSync ==>
                 pass.known[c] == pass.rules[i].target && !MovedBefore(attempts, starts[i], c))
    ensures forall n: nat :: AttemptedBy(attempts, starts, i, n, c) ==>
              && attempts[n].rule == pass.rules[i].id
              && (attempts[n].move <==> pass.rules[i].action == MoveUncategorized)
              && (c in pass.replies ==> attempts[n].reply == pass.replies[c])
    ensures forall m: nat, n: nat ::
              (AttemptedBy(attempts, starts, i, m, c) && AttemptedBy(attempts, starts, i, n, c) ==> m == n)
  {
    assert TurnIs(pass, ledger, attempts, starts, i);
    forall n: nat | AttemptedBy(attempts, starts, i, n, c)
      ensures OrphanedAtTurn(pass, ledger, attempts, starts, i, c) && attempts[n].rule == pass.rules[i].id
      ensures attempts[n].move <==> pass.rules[i].action == MoveUncategorized
      ensures attempts[n].reply == ReplyFor(pass.replies, c)
    {
      assert attempts[starts[i]..starts[i + 1]][n - starts[i]] == attempts[n];
    }
    if OrphanedAtTurn(pass, ledger, attempts, starts, i, c) {
      var n := AttemptOfTurn(pass, ledger, attempts, starts, i, c);
      assert AttemptedBy(attempts, starts, i, n, c);
    }
    forall m: nat, n: nat | AttemptedBy(attempts, starts, i, m, c) && AttemptedBy(attempts, starts, i, n, c)
      ensures m == n
    {
      if m < n { OnceATurn(pass, ledger, attempts, i, starts[i], starts[i + 1], m, n); }
      if n < m { OnceATurn(pass, ledger, attempts, i, starts[i], starts[i + 1], n, m); }
    }
    OrphanedIff(pass, ledger, attempts, starts, i, c);
  }

  lemma OrphanedIff(pass: Pass, ledger: Ledger, attempts: seq<Attempt>, starts: seq<nat>, i: nat, c: int)
    requires i + 1 < |starts| && i < |pass.rules| && starts[i] <= |attempts|
    ensures OrphanedAtTurn(pass, ledger, attempts, starts, i, c) <==>
              Abandoned(pass, ledger, i, c) &&
              (pass.rules[i].eventSync ==>
                 pass.known[c] == pass.rules[i].target && !MovedBefore(attempts, starts[i], c))
  {
    var sofar := attempts[..starts[i]];
    KnownAfterKeys(pass.known, sofar, c);
    if c in pass.known { KnownAfterIs(pass.known, sofar, c); }
    assert MovedBefore(sofar, |sofar|, c) <==> MovedBefore(attempts, starts[i], c) by {
      assert forall m :: 0 <= m < starts[i] ==> sofar[m] == attempts[m];
    }
  }

  /** A dry run lists just what each rule would attempt, had nothing been moved before. */
  lemma ListedIff(pass: Pass, ledger: Ledger, previews: seq<set<int>>, i: nat, c: int)
    requires Previewed(pass, ledger, previews) && i < |previews|
    ensures c in previews[i] <==>
              Abandoned(pass, ledger, i, c) && (pass.rules[i].eventSync ==> pass.known[c] == pass.rules[i].target)
  {
  }

  lemma {:induction false} KnownAfterKeys(known: Known, attempts: seq<Attempt>, c: int)
    ensures c in KnownAfter(known, attempts) <==> c in known
    ensures c in known ==> KnownAfter(known, attempts)[c] == known[c] || KnownAfter(known, attempts)[c] == None
  {
    if attempts != [] { KnownAfterKeys(known, attempts[..|attempts| - 1], c); }
  }

  /** Whatever passes came before, a channel that a rule removes or moves was in its ledger at the start,
      or was yielded by it in the last earlier pass that wrote it; is not yielded now; was known to
      the executor when this pass began; and lay then, if the rule promotes, in its target group. */
  lemma Provenance(ledger: Ledger, passes: seq<Pass>, pass: Pass, attempts: seq<Attempt>, starts: seq<nat>, n: nat)
    returns (i: nat, k: Option<nat>)
    requires DistinctPasses(passes) && n < |attempts|
    requires InTurn(pass, LedgerAfter(ledger, passes), attempts, starts)
    ensures i < |pass.rules| && attempts[n].rule == pass.rules[i].id && Acts(pass.rules[i], LedgerAfter(ledger, passes))
    ensures var r, c := pass.rules[i].id, attempts[n].channel;
            && (k.None? ==> r in ledger && c in ledger[r] && Unwritten(ledger, passes, 0, r))
            && (k.Some? ==>
                Wrote(ledger, passes, k.value, r) && c in Current(passes[k.value], r) &&
                Unwritten(ledger, passes, k.value + 1, r))
            && c !in Current(pass, r) && c in pass.known
            && (Promotes(pass.rules[i]) ==> pass.known[c] == pass.rules[i].target)
  {
    i := AttemptIsOrphan(pass, LedgerAfter(ledger, passes), attempts, starts, n);
    k := LastWriter(ledger, passes, pass.rules[i].id);
    KnownAfterKeys(pass.known, attempts[..starts[i]], attempts[n].channel);
  }

  /** A pass that commits cleans up a channel once: for its rule to touch it again, the rule must have
      yielded it in between. */
  lemma TouchedAgain(ledger: Ledger, before: seq<Pass>, first: Pass, between: seq<Pass>, second: Pass,
                     attempts: seq<Attempt>, starts: seq<nat>, m: nat, attempts': seq<Attempt>, starts': seq<nat>,
                     n: nat)
    returns (k: nat)
    requires DistinctPasses(before + [first] + between) && Commits(first)
    requires InTurn(first, LedgerAfter(ledger, before), attempts, starts) && m < |attempts|
    requires InTurn(second, LedgerAfter(ledger, before + [first] + between), attempts', starts') && n < |attempts'|
    requires attempts[m].rule == attempts'[n].rule && attempts[m].channel == attempts'[n].channel
    ensures k < |between| && Commits(between[k]) && attempts[m].channel in Current(between[k], attempts[m].rule)
  {
    var r, c := attempts[m].rule, attempts[m].channel;
    var passes := before + [first] + between;
    var f := |before|;
    assert DistinctPasses(before) by {
      forall j | 0 <= j < |before|
        ensures DistinctRules(before[j].rules)
      {
        assert passes[j] == before[j];
      }
    }
    var i, _ := Provenance(ledger, before, first, attempts, starts, m);
    assert passes[..f] == before && passes[f] == first;
    assert WritesRule(LedgerAfter(ledger, passes[..f]), passes[f], i, r);
    assert Wrote(ledger, passes, f, r);
    var i', last := Provenance(ledger, passes, second, attempts', starts', n);
    assert last.Some?;
    assert last.value > f;
    k := last.value - f - 1;
    assert passes[last.value] == between[k];
  }
}
