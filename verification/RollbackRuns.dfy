/** Which runs a rollback undoes (`_journal_driven_unmerge` and the legacy branch of `rollback_execution`
    in backend/channel_pipeline_engine.py). */
module RollbackRuns {
  import opened Common
  import opened RunHistory
  import opened ReverseReplay
  import opened SurgicalUnmerge
  import opened UnmergeMeaning

  // ----- edits that came before a merge

  /** The others' edits, on the list the run started from.  While the run's merges come first they are all
      made to the same streams as there; once a merge has discarded an edit they no longer are. */
  function AllEdits(start: World, steps: seq<Step>, c: int): seq<int> {
    if steps == [] then StreamsOf(start, c) else
      var n := |steps| - 1;
      var before := AllEdits(start, steps[..n], c);
      if steps[n].Ran? then before
      else LateStep(StreamsOf(start, c), RunOf(start, steps[..n]), Tagged(start, steps[..n], c), before, steps[n], c)
  }

  ghost predicate NoEditYet(steps: seq<Step>, c: int) {
    forall k :: 0 <= k < |steps| ==> steps[k].Ran? || steps[k].Unheard? || steps[k].channel != c
  }

  lemma {:induction false} NothingToLose(start: World, steps: seq<Step>, c: int)
    requires NoEditYet(steps, c)
    ensures AllEdits(start, steps, c) == StreamsOf(start, c)
  {
    if steps != [] { NothingToLose(start, steps[..|steps| - 1], c); }
  }

  /** The run makes all its merges into a channel before anyone else edits that channel. */
  ghost predicate MergesComeFirst(start: World, steps: seq<Step>, c: int) {
    forall k :: 0 <= k < |steps| && MergesNow(RunOf(start, steps[..k]), steps[k], c) ==> NoEditYet(steps[..k], c)
  }

  /** Then none of the edits is lost. */
  lemma {:induction false} LateEditsAreAll(start: World, steps: seq<Step>, c: int)
    requires MergesComeFirst(start, steps, c)
    ensures LateEdits(start, steps, c) == AllEdits(start, steps, c)
  {
    if steps != [] {
      var n := |steps| - 1;
      forall k | 0 <= k < n && MergesNow(RunOf(start, steps[..n][..k]), steps[..n][k], c)
        ensures NoEditYet(steps[..n][..k], c)
      {
        assert steps[..n][..k] == steps[..k];
      }
      LateEditsAreAll(start, steps[..n], c);
      if MergesNow(RunOf(start, steps[..n]), steps[n], c) { NothingToLose(start, steps[..n], c); }
    }
  }

  /** A merge writes the executor's own copy, so that un-merging just after one gives back the list the run
      started from, whatever others had done to it.  So if they had begun only after the run's earlier
      merges, the edits they had made survive only if they came to nothing. */
  lemma MergeDiscardsEdits(start: World, steps: seq<Step>, c: int)
    requires HasStreams(start) && OnlyMerged(start, steps, c) && c in start && steps != []
    requires MergesNow(RunOf(start, steps[..|steps| - 1]), steps[|steps| - 1], c)
    ensures var s, before := RunOf(start, steps), steps[..|steps| - 1];
            && Unmerged(s.live, s.journal, {}, c) == StreamsOf(start, c)
            && (MergesComeFirst(start, before, c) ==>
                  (Unmerged(s.live, s.journal, {}, c) == AllEdits(start, before, c) <==>
                   LateEdits(start, before, c) == StreamsOf(start, c)))
  {
    var n := |steps| - 1;
    JournalSays(start, steps, c);
    UnmergeLeavesEdits(start, steps, c);
    MarkedOnlyOthers(StreamsOf(start, c), Merged(start, steps[..n], c) + [steps[n].action.stream]);
    assert LateEdits(start, steps, c) == StreamsOf(start, c);
    if MergesComeFirst(start, steps[..n], c) { LateEditsAreAll(start, steps[..n], c); }
  }

  lemma MarkedOnlyOthers(start: seq<int>, merged: seq<int>)
    ensures forall i :: i in Items(start, false) + Items(merged, true) && !i.byRun ==> i.id in start
  {
  }

  // ----- how much of the journal is read

  const JOURNAL_PAGE: nat := 1000

  /** The newest entries, a page of them: entries written together have one time, so which of those is
      not determined. */
  ghost predicate ReadOf(page: seq<Entry>, journal: seq<Entry>) {
    multiset(page) <= multiset(journal) && |page| == if |journal| <= JOURNAL_PAGE then |journal| else JOURNAL_PAGE
  }

  ghost predicate Whole(e: Entry) {
    e.channel.Some? && e.after.Ids? && |e.after.ids| > 0 &&
    AddedStreamIds(e.before, e.after) == [e.after.ids[|e.after.ids| - 1]]
  }

  ghost function Key(e: Entry): (int, int)
    requires Whole(e)
  {
    (e.channel.value, e.after.ids[|e.after.ids| - 1])
  }

  /** Each entry adds one stream to one channel, and no other entry adds that stream to it. */
  ghost predicate DistinctMerges(journal: seq<Entry>) {
    && (forall k :: 0 <= k < |journal| ==> Whole(journal[k]))
    && (forall i, j :: 0 <= i < j < |journal| ==> Key(journal[i]) != Key(journal[j]))
  }

  ghost predicate KeysAreMerged(start: World, steps: seq<Step>, journal: seq<Entry>) {
    forall k :: 0 <= k < |journal| && Whole(journal[k]) ==> Key(journal[k]).1 in Merged(start, steps, Key(journal[k]).0)
  }

  lemma OneMoreDistinct(journal: seq<Entry>, e: Entry)
    requires DistinctMerges(journal) && Whole(e)
    requires forall k :: 0 <= k < |journal| ==> Key(journal[k]) != Key(e)
    ensures DistinctMerges(journal + [e])
  {
  }

  lemma OneMoreKey(start: World, steps: seq<Step>, journal: seq<Entry>, e: seq<Entry>)
    requires steps != [] && KeysAreMerged(start, steps[..|steps| - 1], journal)
    requires KeysAreMerged(start, steps, e)
    ensures KeysAreMerged(start, steps, journal + e)
  {
    var all := journal + e;
    forall k | 0 <= k < |all| && Whole(all[k])
      ensures Key(all[k]).1 in Merged(start, steps, Key(all[k]).0)
    {
      if k < |journal| {
        assert Key(journal[k]).1 in Merged(start, steps[..|steps| - 1], Key(journal[k]).0);
      } else {
        assert all[k] == e[k - |journal|];
      }
    }
  }

  /** Nothing the run wrote to any stream list was other than a merge. */
  ghost predicate OnlyMergedAnywhere(start: World, steps: seq<Step>) {
    forall c :: OnlyMerged(start, steps, c)
  }

  /** The entry that a step of the run adds, or none. */
  function NewEntry(s: State, step: Step): seq<Entry> {
    if step.Ran? && Effective(s.cache, step.channel, step.action) then EntryOf(s.cache, step.channel, step.action)
      else []
  }

  lemma JournalGrows(s: State, step: Step)
    ensures Do(s, step).journal == s.journal + NewEntry(s, step) && |NewEntry(s, step)| <= 1
  {
    assert s.journal + [] == s.journal;
  }

  lemma MergedEntry(start: World, steps: seq<Step>)
    requires HasStreams(start) && OnlyMergedAnywhere(start, steps) && steps != []
    requires NewEntry(RunOf(start, steps[..|steps| - 1]), steps[|steps| - 1]) != []
    ensures var n := |steps| - 1;
            var e := NewEntry(RunOf(start, steps[..n]), steps[n])[0];
            && Whole(e) && Key(e).1 in Merged(start, steps, Key(e).0)
            && Key(e).1 !in Merged(start, steps[..n], Key(e).0)
  {
    var n := |steps| - 1;
    var s, step := RunOf(start, steps[..n]), steps[n];
    OnlyMergedBefore(start, steps, n, step.channel);
    SameChannels(start, steps[..n]);
    JournalSays(start, steps[..n], step.channel);
    OneAdded(StreamsOf(s.cache, step.channel), step.action.stream);
  }

  lemma AnywhereBefore(start: World, steps: seq<Step>, n: nat)
    requires OnlyMergedAnywhere(start, steps) && n <= |steps|
    ensures OnlyMergedAnywhere(start, steps[..n])
  {
    forall c ensures OnlyMerged(start, steps[..n], c) {
      OnlyMergedBefore(start, steps, n, c);
    }
  }

  lemma NewKey(start: World, steps: seq<Step>, journal: seq<Entry>, e: Entry)
    requires KeysAreMerged(start, steps, journal) && DistinctMerges(journal)
    requires Whole(e) && Key(e).1 !in Merged(start, steps, Key(e).0)
    ensures forall k :: 0 <= k < |journal| ==> Key(journal[k]) != Key(e)
  {
  }

  lemma {:induction false} JournalIsDistinct(start: World, steps: seq<Step>)
    requires HasStreams(start) && OnlyMergedAnywhere(start, steps)
    ensures DistinctMerges(RunOf(start, steps).journal)
    ensures KeysAreMerged(start, steps, RunOf(start, steps).journal)
  {
    if steps != [] {
      var n := |steps| - 1;
      AnywhereBefore(start, steps, n);
      JournalIsDistinct(start, steps[..n]);
      var s := RunOf(start, steps[..n]);
      var e := NewEntry(s, steps[n]);
      JournalGrows(s, steps[n]);
      if e != [] {
        MergedEntry(start, steps);
        NewKey(start, steps[..n], s.journal, e[0]);
        OneMoreDistinct(s.journal, e[0]);
        assert e == [e[0]];
      } else {
        assert s.journal + [] == s.journal;
      }
      OneMoreKey(start, steps, s.journal, e);
    }
  }

  lemma {:induction false} OnceEach<T>(s: seq<T>)
    requires NoDup(s)
    ensures forall e :: multiset(s)[e] <= 1
  {
    if s != [] {
      var n := |s| - 1;
      OnceEach(s[..n]);
      assert s == s[..n] + [s[n]];
      assert s[n] !in multiset(s[..n]);
    }
  }

  lemma AllInPage(page: seq<Entry>, journal: seq<Entry>)
    requires NoDup(journal) && forall e :: e in journal ==> e in page
    ensures |journal| <= |page|
  {
    OnceEach(journal);
    forall e
      ensures multiset(journal)[e] <= multiset(page)[e]
    {
      if e in multiset(journal) { assert e in journal; assert e in page; assert e in multiset(page); }
    }
    var rest := multiset(page) - multiset(journal);
    assert multiset(page) == multiset(journal) + rest;
    assert |multiset(page)| == |page| && |multiset(journal)| == |journal|;
  }

  /** A read that is not all of the journal misses an entry. */
  lemma SomethingMissed(page: seq<Entry>, journal: seq<Entry>) returns (e: Entry)
    requires NoDup(journal) && |page| < |journal|
    ensures e in journal && e !in page
  {
    if forall e :: e in journal ==> e in page {
      AllInPage(page, journal);
      assert false;
    }
    e :| e in journal && e !in page;
  }

  /** Entries in another order add the same. */
  lemma SameAdded(page: seq<Entry>, journal: seq<Entry>, c: int)
    requires multiset(page) == multiset(journal)
    ensures AddedTo(page, c) == AddedTo(journal, c)
  {
    forall x
      ensures x in AddedTo(page, c) <==> x in AddedTo(journal, c)
    {
      AddedByOne(page, c, x);
      AddedByOne(journal, c, x);
      SameMembers(page, journal);
    }
  }

  lemma SameMembers(page: seq<Entry>, journal: seq<Entry>)
    requires multiset(page) <= multiset(journal)
    ensures forall k :: 0 <= k < |page| ==> exists j :: 0 <= j < |journal| && journal[j] == page[k]
    ensures multiset(page) == multiset(journal) ==>
              forall k :: 0 <= k < |journal| ==> exists j :: 0 <= j < |page| && page[j] == journal[k]
  {
    forall k | 0 <= k < |page|
      ensures exists j :: 0 <= j < |journal| && journal[j] == page[k]
    {
      assert page[k] in multiset(page);
      assert page[k] in journal;
    }
    if multiset(page) == multiset(journal) {
      forall k | 0 <= k < |journal|
        ensures exists j :: 0 <= j < |page| && page[j] == journal[k]
      {
        assert journal[k] in multiset(journal);
        assert journal[k] in page;
      }
    }
  }

  lemma KeepFirst(a: seq<int>, b: seq<int>)
    requires forall x :: x in b ==> x !in a
    ensures Keep(a + b, IdSet(b)) == a
  {
    var gone := IdSet(b);
    KeepJoins(a, b, gone);
    KeepAll(a, gone);
    KeepNone(b, gone);
    assert a + [] == a;
  }

  /** A quiet run that only merged, fully read, is undone. */
  lemma QuietUnmerge(start: World, steps: seq<Step>, page: seq<Entry>, c: int)
    requires HasStreams(start) && OnlyMerged(start, steps, c) && Alone(steps) && c in start
    requires multiset(page) == multiset(RunOf(start, steps).journal)
    ensures Unmerged(RunOf(start, steps).live, page, {}, c) == StreamsOf(start, c)
  {
    SameAdded(page, RunOf(start, steps).journal, c);
    JournalSays(start, steps, c);
    CopyIsLive(start, steps, c);
    KeepFirst(StreamsOf(start, c), Merged(start, steps, c));
  }

  lemma SameEntry(journal: seq<Entry>, d: Entry, e: Entry)
    requires DistinctMerges(journal) && e in journal && exists j :: 0 <= j < |journal| && journal[j] == d
    requires Whole(e) && d.channel == e.channel && Key(e).1 in AddedStreamIds(d.before, d.after)
    ensures d == e
  {
    var j :| 0 <= j < |journal| && journal[j] == d;
    var k :| 0 <= k < |journal| && journal[k] == e;
    assert Key(journal[j]) == Key(journal[k]);
  }

  /** No entry but the one that was missed adds what it adds. */
  lemma NobodyElseAdds(page: seq<Entry>, journal: seq<Entry>, e: Entry)
    requires DistinctMerges(journal) && multiset(page) <= multiset(journal) && e in journal && e !in page
    ensures Whole(e) && Key(e).1 !in AddedTo(page, Key(e).0)
  {
    var (c, x) := Key(e);
    AddedByOne(page, c, x);
    SameMembers(page, journal);
    if x in AddedTo(page, c) {
      var i :| 0 <= i < |page| && page[i].channel == Some(c) && x in AddedStreamIds(page[i].before, page[i].after);
      SameEntry(journal, page[i], e);
    }
  }

  /** Otherwise some stream stays. */
  lemma PartialUnmerge(start: World, steps: seq<Step>, page: seq<Entry>) returns (c: int)
    requires HasStreams(start) && OnlyMergedAnywhere(start, steps) && Alone(steps)
    requires multiset(page) <= multiset(RunOf(start, steps).journal) && |page| < |RunOf(start, steps).journal|
    ensures c in start && Unmerged(RunOf(start, steps).live, page, {}, c) != StreamsOf(start, c)
  {
    var journal, live := RunOf(start, steps).journal, RunOf(start, steps).live;
    JournalIsDistinct(start, steps);
    var e := SomethingMissed(page, journal);
    NobodyElseAdds(page, journal, e);
    c := Key(e).0;
    var x := Key(e).1;
    JournalSays(start, steps, c);
    CopyIsLive(start, steps, c);
    assert x in Merged(start, steps, c);
    KeepMembers(StreamsOf(live, c), AddedTo(page, c));
    assert x in StreamsOf(live, c);
  }

  /** A quiet run that only merged is undone on every channel exactly when it fits in one page. */
  lemma UndoneIffOnePage(start: World, steps: seq<Step>, page: seq<Entry>)
    requires HasStreams(start) && OnlyMergedAnywhere(start, steps) && Alone(steps)
    requires ReadOf(page, RunOf(start, steps).journal)
    ensures (forall c :: c in start ==> Unmerged(RunOf(start, steps).live, page, {}, c) == StreamsOf(start, c)) <==>
            |RunOf(start, steps).journal| <= JOURNAL_PAGE
  {
    var journal := RunOf(start, steps).journal;
    if |journal| <= JOURNAL_PAGE {
      AllRead(page, journal);
      forall c | c in start
        ensures Unmerged(RunOf(start, steps).live, page, {}, c) == StreamsOf(start, c)
      {
        QuietUnmerge(start, steps, page, c);
      }
    } else {
      var c := PartialUnmerge(start, steps, page);
    }
  }

  lemma AllRead(page: seq<Entry>, journal: seq<Entry>)
    requires multiset(page) <= multiset(journal) && |page| == |journal|
    ensures multiset(page) == multiset(journal)
  {
    var rest := multiset(journal) - multiset(page);
    assert multiset(journal) == multiset(page) + rest;
    assert |multiset(page)| == |page| && |multiset(journal)| == |journal|;
    assert |rest| == 0;
  }

  // ----- the legacy branch

  /** Without a snapshot: refused when nothing was recorded; else the un-merge, and only if that finds no
      entries, the restore. */
  method LegacyRollback(created: nat, modified: seq<Modified>, page: Option<seq<Entry>>, live: World, lost: set<nat>,
                        failing: set<int>)
    returns (success: bool, live': World)
    ensures success <==> created > 0 || modified != []
    ensures !success ==> live' == live
    ensures success && page.Some? && page.value != [] ==>
              && (forall c :: c in live ==> StreamsOf(live', c) == Unmerged(live, page.value, failing, c))
              && (forall c, f :: f != STREAMS ==> Get(live', c, f) == Get(live, c, f))
    ensures success && (page.None? || page.value == []) ==> live' == ReplayBack(live, modified, lost)
  {
    if created == 0 && modified == [] { return false, live; }
    success := true;
    var handled, touched;
    handled, touched, live' := JournalDrivenUnmerge(page, live, failing);
    if !handled { live' := RestoreModified(live', modified, lost); }
  }

  /** A run that merges a stream as well as setting a field is un-merged, and its field is left as the run
      set it, which the restore would have put back. */
  lemma MergesLeaveFields(start: World, c: int, f: string, v: Value, x: int, category: Category)
    requires HasStreams(start) && c in start && f != STREAMS && v != Get(start, c, f) && x !in StreamsOf(start, c)
    ensures var s := RunOf(start, [Ran(c, Assign(map[f := v], {})), Ran(c, Merge(x, category, true))]);
            && s.journal != [] && Get(s.live, c, f) != Get(start, c, f)
            && Get(ReplayBack(s.live, s.modified, {}), c, f) == Get(start, c, f)
  {
    var steps := [Ran(c, Assign(map[f := v], {})), Ran(c, Merge(x, category, true))];
    assert steps[..0] == [] && steps[..2] == steps;
    StepMore(start, steps, 0);
    StepMore(start, steps, 1);
    FieldWritten(State(start, start, [], []), c, f, v, steps[0].action);
    MergeLeaves(RunOf(start, steps[..1]), c, f, x, category);
    ReplayIsInverse(start, steps, c, f);
  }

  lemma MergeLeaves(s: State, c: int, f: string, x: int, category: Category)
    requires c in s.cache && c in s.live && f != STREAMS && x !in StreamsOf(s.cache, c)
    ensures var t := Do(s, Ran(c, Merge(x, category, true))); t.journal != [] && Get(t.live, c, f) == Get(s.live, c, f)
  {
  }
}
