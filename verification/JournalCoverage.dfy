/** The check that lets the surgical un-merge stand in for a restore, and what it does not see
    (`_event_sync_journal_covers_run` in backend/channel_pipeline_engine.py). */
module JournalCoverage {
  import opened Common
  import opened RunHistory
  import opened ReverseReplay
  import opened SurgicalUnmerge
  import opened UnmergeMeaning
  import opened RollbackRuns

  function EntityIds(modified: seq<Modified>): seq<Option<int>> {
    seq(|modified|, k requires 0 <= k < |modified| => Some(modified[k].id))
  }

  function EntryChannels(entries: seq<Entry>): seq<Option<int>> {
    seq(|entries|, k requires 0 <= k < |entries| => entries[k].channel)
  }

  /** The record is of a channel, and all it says is what its streams were. */
  predicate StreamsOnly(m: Modified) {
    m.entityType.ChannelEntity? && m.previous.Keys == {STREAMS}
  }

  ghost predicate Covers(created: nat, modified: seq<Modified>, entries: seq<Entry>, count: nat) {
    && created == 0 && modified != []
    && (forall k :: 0 <= k < |modified| ==> StreamsOnly(modified[k]))
    && count == |entries| == |modified|
    && (forall k :: 0 <= k < |entries| ==> entries[k].category.EventSync?)
    && multiset(EntryChannels(entries)) == multiset(EntityIds(modified))
  }

  /** The page is `None` when the journal cannot be read, and comes with how many entries there are. */
  method EventSyncJournalCoversRun(created: nat, modified: seq<Modified>, page: Option<(seq<Entry>, nat)>)
    returns (covers: bool)
    ensures covers <==> page.Some? && Covers(created, modified, page.value.0, page.value.1)
    ensures covers <==>
              && created == 0 && modified != [] && page.Some?
              && page.value.1 == |page.value.0| == |modified|
              && (forall m :: m in modified ==> m.entityType == ChannelEntity && m.previous.Keys == {"streams"})
              && (forall e :: e in page.value.0 ==> e.category == EventSync)
              && multiset(EntryChannels(page.value.0)) == multiset(EntityIds(modified))
  {
    if created > 0 || modified == [] { return false; }
    for k := 0 to |modified|
      invariant forall i :: 0 <= i < k ==> StreamsOnly(modified[i])
    {
      if modified[k].entityType != ChannelEntity { return false; }
      if modified[k].previous.Keys != {STREAMS} { return false; }
    }
    if page.None? { return false; }
    var (entries, count) := page.value;
    if count != |entries| || |entries| != |modified| { return false; }
    for k := 0 to |entries|
      invariant forall i :: 0 <= i < k ==> entries[i].category.EventSync?
    {
      if entries[k].category != EventSync { return false; }
    }
    return multiset(EntryChannels(entries)) == multiset(EntityIds(modified));
  }

  // ----- what it proves

  /** All that the run recorded was merges, and their entries were written. */
  ghost predicate RecordedMerges(start: World, steps: seq<Step>) {
    forall k: nat :: EffectiveAt(start, steps, k) && IsRecorded(steps[k].action) ==>
      steps[k].action.Merge? && steps[k].action.flushed
  }

  lemma RecordedBefore(start: World, steps: seq<Step>, n: nat)
    requires RecordedMerges(start, steps) && n <= |steps|
    ensures RecordedMerges(start, steps[..n])
  {
    Prefixes(start, steps, {}, n, 0, "");
    forall k: nat | EffectiveAt(start, steps[..n], k) && IsRecorded(steps[..n][k].action)
      ensures steps[..n][k].action.Merge? && steps[..n][k].action.flushed
    {
      assert EffectiveAt(start, steps, k);
    }
  }

  /** A run journals no more than it records, and as much only when it recorded nothing but merges. */
  lemma {:induction false} JournaledAtMost(start: World, steps: seq<Step>)
    ensures |RunOf(start, steps).journal| <= |RunOf(start, steps).modified|
    ensures |RunOf(start, steps).journal| == |RunOf(start, steps).modified| ==> RecordedMerges(start, steps)
  {
    if steps == [] { return; }
    var n := |steps| - 1;
    JournaledAtMost(start, steps[..n]);
    JournaledOne(RunOf(start, steps[..n]), steps[n]);
    if |RunOf(start, steps).journal| == |RunOf(start, steps).modified| { OneMoreRecorded(start, steps, n); }
  }

  /** Is the step either not recorded, or a merge whose entry is written? */
  predicate RecordedAsMerge(s: State, step: Step) {
    step.Ran? && Effective(s.cache, step.channel, step.action) && IsRecorded(step.action) ==>
      step.action.Merge? && step.action.flushed
  }

  lemma JournaledOne(s: State, step: Step)
    requires |s.journal| <= |s.modified|
    ensures |Do(s, step).journal| <= |Do(s, step).modified|
    ensures |Do(s, step).journal| == |Do(s, step).modified| ==>
              |s.journal| == |s.modified| && RecordedAsMerge(s, step)
  {
  }

  lemma OneMoreRecorded(start: World, steps: seq<Step>, n: nat)
    requires steps != [] && n == |steps| - 1 && RecordedMerges(start, steps[..n])
    requires RecordedAsMerge(RunOf(start, steps[..n]), steps[n])
    ensures RecordedMerges(start, steps)
  {
    Prefixes(start, steps, {}, n, 0, "");
    forall k: nat | EffectiveAt(start, steps, k) && IsRecorded(steps[k].action)
      ensures steps[k].action.Merge? && steps[k].action.flushed
    {
      if k < n {
        assert EffectiveAt(start, steps[..n], k);
        assert steps[..n][k] == steps[k];
      }
    }
  }

  /** The run pruned or sorted the channel's streams, or a write of them was not heard. */
  ghost predicate Rearranged(start: World, steps: seq<Step>, c: int) {
    exists k: nat :: StreamsUnheard(start, steps, k, c) || PrunedOrSorted(start, steps, k, c)
  }

  ghost predicate PrunedOrSorted(start: World, steps: seq<Step>, k: nat, c: int) {
    && EffectiveAt(start, steps, k) && steps[k].channel == c
    && (steps[k].action.Prune? || steps[k].action.Reorder?)
  }

  /** When the check says that the journal covers a run, whoever else was editing, all that the run recorded
      was merges for event sync, and all of them were read.  That they are all it did to the streams of a
      channel is so exactly when it neither pruned nor sorted them and no write of them went unheard, which the
      check cannot see. */
  lemma CoverageIsSound(start: World, steps: seq<Step>, page: seq<Entry>, created: nat, c: int)
    requires ReadOf(page, RunOf(start, steps).journal)
    requires Covers(created, RunOf(start, steps).modified, page, |RunOf(start, steps).journal|)
    ensures RecordedMerges(start, steps) && multiset(page) == multiset(RunOf(start, steps).journal)
    ensures forall k :: 0 <= k < |RunOf(start, steps).journal| ==> RunOf(start, steps).journal[k].category.EventSync?
    ensures OnlyMerged(start, steps, c) <==> !Rearranged(start, steps, c)
  {
    JournaledAtMost(start, steps);
    AllRead(page, RunOf(start, steps).journal);
    SameMembers(page, RunOf(start, steps).journal);
    RearrangedOrNot(start, steps, c);
  }

  lemma RearrangedOrNot(start: World, steps: seq<Step>, c: int)
    requires RecordedMerges(start, steps)
    ensures OnlyMerged(start, steps, c) <==> !Rearranged(start, steps, c)
  {
    forall k: nat | EffectiveAt(start, steps, k) && steps[k].channel == c && WritesStreams(steps[k].action)
      ensures (steps[k].action.Merge? && steps[k].action.flushed) <==> !PrunedOrSorted(start, steps, k, c)
    {
      assert IsRecorded(steps[k].action) ==> steps[k].action.Merge? && steps[k].action.flushed;
    }
    if OnlyMerged(start, steps, c) {
      forall k: nat ensures !StreamsUnheard(start, steps, k, c) && !PrunedOrSorted(start, steps, k, c) {}
    }
  }

  // ----- what the un-merge makes of a covered run

  predicate Starts(start: World, c: int, x: int) {
    x in StreamsOf(start, c)
  }

  /** A pruning took out one of the streams that the channel had at the start. */
  ghost predicate PrunedOne(start: World, steps: seq<Step>, c: int) {
    exists k: nat :: PrunedAt(start, steps, c, k)
  }

  ghost predicate PrunedAt(start: World, steps: seq<Step>, c: int, k: nat) {
    EffectiveAt(start, steps, k) && PrunesOne(start, steps[k], c)
  }

  ghost predicate PrunesOne(start: World, step: Step, c: int) {
    && step.Ran? && step.channel == c && step.action.Prune?
    && exists x :: Starts(start, c, x) && x !in step.action.desired
  }

  /** The stream is gone from the executor's copy, or is taken for one of the run's. */
  predicate Mistaken(s: State, c: int, x: int) {
    x !in StreamsOf(s.cache, c) || x in AddedTo(s.journal, c)
  }

  ghost predicate Accounted(start: World, s: State, c: int, pruned: bool) {
    && (forall x :: x in StreamsOf(s.cache, c) ==> Starts(start, c, x) || x in AddedTo(s.journal, c))
    && (if pruned then exists x :: Starts(start, c, x) && Mistaken(s, c, x)
        else forall x :: Starts(start, c, x) ==> !Mistaken(s, c, x))
  }

  /** What a step that merges, prunes or sorts does to the streams of the channel. */
  lemma StreamsAfter(s: State, step: Step, c: int)
    requires c in s.cache && c in s.live
    requires step.Ran? && Effective(s.cache, step.channel, step.action) && IsRecorded(step.action) ==>
               step.action.Merge? && step.action.flushed
    ensures var now := step.Ran? && step.channel == c && Effective(s.cache, c, step.action);
            && AddedTo(Do(s, step).journal, c) ==
                 AddedTo(s.journal, c) + (if now && step.action.Merge? then {step.action.stream} else {})
            && StreamsOf(Do(s, step).cache, c) ==
                 (if now && WritesStreams(step.action) then Updates(s.cache, c, step.action)[STREAMS].ids
                  else StreamsOf(s.cache, c))
  {
    if step.Ran? && Effective(s.cache, step.channel, step.action) && step.action.Merge? {
      var x, streams := step.action.stream, StreamsOf(s.cache, step.channel);
      var e := Entry(Some(step.channel), step.action.category, Ids(streams), Ids(streams + [x]));
      assert Do(s, step).journal == s.journal + [e];
      AddedMerge(s.journal, e, streams, x, c);
    } else {
      assert Do(s, step).journal == s.journal;
    }
  }

  lemma MembersAfter(s: State, step: Step, c: int, x: int)
    requires step.Ran? && step.channel == c && Effective(s.cache, c, step.action) && WritesStreams(step.action)
    requires IsRecorded(step.action) ==> step.action.Merge?
    ensures x in Updates(s.cache, c, step.action)[STREAMS].ids <==>
              match step.action
              case Merge(y, _, _) => x in StreamsOf(s.cache, c) || x == y
              case Prune(desired) => x in StreamsOf(s.cache, c) && x in desired
              case _ => x in StreamsOf(s.cache, c)
  {
    var streams := StreamsOf(s.cache, c);
    match step.action
    case Prune(desired) => OnlyMembers(streams, desired);
    case Reorder(order) => assert x in order <==> x in multiset(order); assert x in streams <==> x in multiset(streams);
    case _ =>
  }

  lemma AccountedStep(start: World, s: State, step: Step, c: int, pruned: bool)
    requires c in s.cache && c in s.live && Accounted(start, s, c, pruned)
    requires step.Ran? && Effective(s.cache, step.channel, step.action) && IsRecorded(step.action) ==>
               step.action.Merge? && step.action.flushed
    ensures var now := step.Ran? && Effective(s.cache, step.channel, step.action) && PrunesOne(start, step, c);
            Accounted(start, Do(s, step), c, pruned || now)
  {
    StreamsAfter(s, step, c);
    var now := step.Ran? && step.channel == c && Effective(s.cache, c, step.action);
    if now && WritesStreams(step.action) {
      forall x ensures x in StreamsOf(Do(s, step).cache, c) <==> x in Updates(s.cache, c, step.action)[STREAMS].ids {}
      forall x
        ensures Starts(start, c, x) && Mistaken(s, c, x) ==> Mistaken(Do(s, step), c, x)
        ensures x in StreamsOf(Do(s, step).cache, c) ==> Starts(start, c, x) || x in AddedTo(Do(s, step).journal, c)
        ensures Starts(start, c, x) && !Mistaken(s, c, x) && !PrunesOne(start, step, c) ==> !Mistaken(Do(s, step), c, x)
        ensures step.action.Prune? && x !in step.action.desired ==> Mistaken(Do(s, step), c, x)
      {
        MembersAfter(s, step, c, x);
      }
    } else {
      forall x ensures Mistaken(Do(s, step), c, x) <==> Mistaken(s, c, x) {}
    }
  }

  lemma PrunedOneMore(start: World, steps: seq<Step>, c: int)
    requires steps != []
    ensures var n := |steps| - 1;
            PrunedOne(start, steps, c) <==>
              (PrunedOne(start, steps[..n], c) || PrunedAt(start, steps, c, n))
  {
    var n := |steps| - 1;
    Prefixes(start, steps, {}, n, 0, "");
    forall k: nat | k < n ensures PrunedAt(start, steps[..n], c, k) <==> PrunedAt(start, steps, c, k) {
      assert steps[..n][k] == steps[k];
    }
  }

  lemma {:induction false} StreamsAccounted(start: World, steps: seq<Step>, c: int)
    requires HasStreams(start) && c in start && RecordedMerges(start, steps)
    ensures Accounted(start, RunOf(start, steps), c, PrunedOne(start, steps, c))
  {
    if steps != [] {
      var n := |steps| - 1;
      RecordedBefore(start, steps, n);
      StreamsAccounted(start, steps[..n], c);
      SameChannels(start, steps[..n]);
      PrunedOneMore(start, steps, c);
      assert EffectiveAt(start, steps, n) ==> steps[n].Ran?;
      AccountedStep(start, RunOf(start, steps[..n]), steps[n], c, PrunedOne(start, steps[..n], c));
    }
  }

  /** The un-merge gives a covered run's channel its streams back exactly when no pruning took one that it
      had at the start, and those it had still stand in their order. */
  lemma CoveredUndoneIff(start: World, steps: seq<Step>, page: seq<Entry>, c: int)
    requires HasStreams(start) && c in start && Alone(steps)
    requires ReadOf(page, RunOf(start, steps).journal)
    requires Covers(0, RunOf(start, steps).modified, page, |RunOf(start, steps).journal|)
    ensures Unmerged(RunOf(start, steps).live, page, {}, c) == StreamsOf(start, c) <==>
            !PrunedOne(start, steps, c) &&
              Only(StreamsOf(RunOf(start, steps).live, c), IdSet(StreamsOf(start, c))) == StreamsOf(start, c)
  {
    var s := RunOf(start, steps);
    CoverageIsSound(start, steps, page, 0, c);
    SameAdded(page, s.journal, c);
    CopyIsLive(start, steps, c);
    StreamsAccounted(start, steps, c);
    UndoneIffInPlace(start, s, c, PrunedOne(start, steps, c));
  }

  lemma UndoneIffInPlace(start: World, s: State, c: int, pruned: bool)
    requires Accounted(start, s, c, pruned)
    ensures var streams, had := StreamsOf(s.cache, c), StreamsOf(start, c);
            Keep(streams, AddedTo(s.journal, c)) == had <==> !pruned && Only(streams, IdSet(had)) == had
  {
    var streams, had := StreamsOf(s.cache, c), StreamsOf(start, c);
    if !pruned {
      forall x | x in streams ensures x in AddedTo(s.journal, c) <==> x !in IdSet(had) {
        assert Starts(start, c, x) ==> !Mistaken(s, c, x);
      }
      KeepIsOnly(streams, AddedTo(s.journal, c), IdSet(had));
    } else {
      KeepMembers(streams, AddedTo(s.journal, c));
      var x :| Starts(start, c, x) && Mistaken(s, c, x);
      assert x !in Keep(streams, AddedTo(s.journal, c));
    }
  }

  /** So a covered run that neither pruned nor sorted a channel's streams, and heard of each write, is undone
      there; and whoever edited it since, the un-merge leaves just their edits, unless one brought in a stream
      of the run's. */
  lemma CoveredIsUndone(start: World, steps: seq<Step>, page: seq<Entry>, c: int)
    requires HasStreams(start) && c in start && !Rearranged(start, steps, c)
    requires ReadOf(page, RunOf(start, steps).journal)
    requires Covers(0, RunOf(start, steps).modified, page, |RunOf(start, steps).journal|)
    ensures Alone(steps) ==> Unmerged(RunOf(start, steps).live, page, {}, c) == StreamsOf(start, c)
    ensures Unmerged(RunOf(start, steps).live, page, {}, c) == LateEdits(start, steps, c) <==>
            forall i :: i in Tagged(start, steps, c) && !i.byRun ==> i.id !in Merged(start, steps, c)
  {
    CoverageIsSound(start, steps, page, 0, c);
    if Alone(steps) { QuietUnmerge(start, steps, page, c); }
    SameAdded(page, RunOf(start, steps).journal, c);
    UnmergeLeavesEdits(start, steps, c);
  }

  /** The other fields of a covered run's channel are as they were exactly when it wrote none of them, or
      wrote last what they held: it can only have written them without a note, and nothing puts that back. */
  lemma CoveredFieldsStay(start: World, steps: seq<Step>, page: seq<Entry>, c: int, f: string) returns (j: Option<nat>)
    requires HasStreams(start) && c in start && Alone(steps) && f != STREAMS
    requires ReadOf(page, RunOf(start, steps).journal)
    requires Covers(0, RunOf(start, steps).modified, page, |RunOf(start, steps).journal|)
    ensures LastUnkept(start, steps, j, |steps|, c, f, false)
    ensures Get(RunOf(start, steps).live, c, f) == Get(start, c, f) <==>
              (j.Some? ==> Written(start, steps, j.value, f) == Get(start, c, f))
  {
    CoverageIsSound(start, steps, page, 0, c);
    NothingNoted(start, steps, c, f);
    j := UntilNoted(start, steps, c, f, |steps|, false);
    assert steps[..|steps|] == steps;
  }

  lemma NothingNoted(start: World, steps: seq<Step>, c: int, f: string)
    requires RecordedMerges(start, steps) && f != STREAMS
    ensures forall i: nat :: i < |steps| ==> !NotedAt(start, steps, {}, i, c, f)
  {
    forall i: nat | i < |steps| ensures !NotedAt(start, steps, {}, i, c, f) {
      assert EffectiveAt(start, steps, i) && IsRecorded(steps[i].action) ==> steps[i].action.Merge?;
    }
  }

  // ----- runs that it takes for covered

  function AfterMerge(start: World, c: int, x: int): State {
    Do(State(start, start, [], []), Ran(c, Merge(x, EventSync, true)))
  }

  lemma OneMerge(start: World, c: int, x: int)
    requires HasStreams(start) && c in start && x !in StreamsOf(start, c)
    ensures var s, streams := AfterMerge(start, c, x), StreamsOf(start, c);
            && s.modified == [Modified(ChannelEntity, c, map[STREAMS := Streams(streams)])]
            && s.journal == [Entry(Some(c), EventSync, Ids(streams), Ids(streams + [x]))]
            && c in s.live && c in s.cache && StreamsOf(s.live, c) == StreamsOf(s.cache, c) == streams + [x]
  {
    var a := Merge(x, EventSync, true);
    assert Previous(start, c, a) == map[STREAMS := Streams(StreamsOf(start, c))];
    assert [] + [RecordOf(start, c, a)] == [RecordOf(start, c, a)];
  }

  lemma MergeAlone(start: World, c: int, x: int, a: Action)
    requires HasStreams(start) && c in start && x !in StreamsOf(start, c) && !IsRecorded(a)
    ensures var s := RunOf(start, [Ran(c, Merge(x, EventSync, true)), Ran(c, a)]);
            && s == Do(AfterMerge(start, c, x), Ran(c, a)) && AddedTo(s.journal, c) == {x}
            && ReadOf(s.journal, s.journal) && Covers(0, s.modified, s.journal, |s.journal|)
  {
    TwoSteps(start, Ran(c, Merge(x, EventSync, true)), Ran(c, a));
    OneMergeCovers(start, c, x);
    Unrecorded(AfterMerge(start, c, x), c, a);
  }

  lemma TwoSteps(start: World, first: Step, second: Step)
    ensures RunOf(start, [first, second]) == Do(Do(State(start, start, [], []), first), second)
  {
    var steps := [first, second];
    assert steps[..0] == [] && steps[..2] == steps;
    StepMore(start, steps, 0);
    StepMore(start, steps, 1);
  }

  lemma Unrecorded(s: State, c: int, a: Action)
    requires !IsRecorded(a)
    ensures Do(s, Ran(c, a)).modified == s.modified && Do(s, Ran(c, a)).journal == s.journal
  {
  }

  lemma OneMergeCovers(start: World, c: int, x: int)
    requires HasStreams(start) && c in start && x !in StreamsOf(start, c)
    ensures var s := AfterMerge(start, c, x);
            && AddedTo(s.journal, c) == {x}
            && ReadOf(s.journal, s.journal) && Covers(0, s.modified, s.journal, |s.journal|)
  {
    OneMerge(start, c, x);
    var s := AfterMerge(start, c, x);
    AddedMerge([], s.journal[0], StreamsOf(start, c), x, c);
    assert [] + s.journal == s.journal;
    assert EntryChannels(s.journal) == EntityIds(s.modified);
  }

  /** A run that merges a stream and then sorts the list is taken for covered, and is not undone, if the
      streams that were there come out in another order. */
  lemma CoveredThoughSorted(start: World, c: int, x: int, order: seq<int>)
    requires HasStreams(start) && c in start && x !in StreamsOf(start, c)
    requires multiset(order) == multiset(StreamsOf(start, c) + [x]) && Keep(order, {x}) != StreamsOf(start, c)
    ensures var s := RunOf(start, [Ran(c, Merge(x, EventSync, true)), Ran(c, Reorder(order))]);
            && ReadOf(s.journal, s.journal) && Covers(0, s.modified, s.journal, |s.journal|)
            && Unmerged(s.live, s.journal, {}, c) != StreamsOf(start, c)
  {
    MergeAlone(start, c, x, Reorder(order));
    AnotherOrder(StreamsOf(start, c), x, order);
    OneMerge(start, c, x);
    var one := AfterMerge(start, c, x);
    assert Effective(one.cache, c, Reorder(order));
    var s := Do(one, Ran(c, Reorder(order)));
    assert StreamsOf(s.live, c) == order;
  }

  lemma AnotherOrder(streams: seq<int>, x: int, order: seq<int>)
    requires multiset(order) == multiset(streams + [x]) && x !in streams && Keep(order, {x}) != streams
    ensures |order| == |streams| + 1 && |streams| >= 1 && order != streams + [x]
  {
    KeepFirst(streams, [x]);
    assert IdSet([x]) == {x};
    assert |multiset(order)| == |order| && |multiset(streams + [x])| == |streams| + 1;
    if streams == [] {
      assert streams + [x] == [x];
      NothingElse(order, x);
    }
  }

  lemma NothingElse(order: seq<int>, x: int)
    requires multiset(order) == multiset([x])
    ensures Keep(order, {x}) == []
  {
    forall y | y in order ensures y in {x} {
      assert y in multiset(order);
      assert y in [x];
    }
    KeepNone(order, {x});
  }

  /** So is one that merges a stream and renames the channel, and its name is left as the run put it. */
  lemma CoveredThoughRenamed(start: World, c: int, x: int, f: string, v: Value)
    requires HasStreams(start) && c in start && x !in StreamsOf(start, c) && f != STREAMS && v != Get(start, c, f)
    ensures var s := RunOf(start, [Ran(c, Merge(x, EventSync, true)), Ran(c, Unnoted(map[f := v], true))]);
            && ReadOf(s.journal, s.journal) && Covers(0, s.modified, s.journal, |s.journal|)
            && Unmerged(s.live, s.journal, {}, c) == StreamsOf(start, c)
            && Get(s.live, c, f) == v
  {
    var a := Unnoted(map[f := v], true);
    MergeAlone(start, c, x, a);
    var streams := StreamsOf(start, c);
    KeepFirst(streams, [x]);
    assert IdSet([x]) == {x};
    OneMerge(start, c, x);
    FieldWritten(AfterMerge(start, c, x), c, f, v, a);
  }

  /** So is one that merges a stream and another, whose reply is lost: nothing says that the second was added,
      and it stays. */
  lemma CoveredThoughUnheard(start: World, c: int, x: int, y: int)
    requires HasStreams(start) && c in start && x !in StreamsOf(start, c) && y !in StreamsOf(start, c) && x != y
    ensures var s := RunOf(start, [Ran(c, Merge(x, EventSync, true)), Unheard(c, Merge(y, EventSync, true))]);
            && ReadOf(s.journal, s.journal) && Covers(0, s.modified, s.journal, |s.journal|)
            && Unmerged(s.live, s.journal, {}, c) == StreamsOf(start, c) + [y]
  {
    var a := Merge(y, EventSync, true);
    TwoSteps(start, Ran(c, Merge(x, EventSync, true)), Unheard(c, a));
    OneMergeCovers(start, c, x);
    OneMerge(start, c, x);
    var one, streams := AfterMerge(start, c, x), StreamsOf(start, c);
    assert Effective(one.cache, c, a);
    WriteStreams(one.live, c, streams + [x] + [y], c);
    KeepMiddle(streams, x, y);
  }

  lemma KeepMiddle(streams: seq<int>, x: int, y: int)
    requires x !in streams && x != y
    ensures Keep(streams + [x] + [y], {x}) == streams + [y]
  {
    KeepJoins(streams + [x], [y], {x});
    KeepFirst(streams, [x]);
    assert IdSet([x]) == {x};
    KeepAll([y], {x});
  }

  /** The run's next write of the list that is heard makes it the executor's copy again: what went unheard is
      overwritten, as anyone's edits are. */
  lemma HeardAgain(s: State, c: int, a: Action)
    requires c in s.live && c in s.cache && Effective(s.cache, c, a) && WritesStreams(a)
    ensures StreamsOf(Do(s, Ran(c, a)).live, c) == StreamsOf(Do(s, Ran(c, a)).cache, c)
  {
  }
}
