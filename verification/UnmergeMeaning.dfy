/** What a surgical un-merge leaves when others have been editing too
    (`_journal_driven_unmerge` in backend/channel_pipeline_engine.py), of a channel whose streams the run
    only merges into. */
module UnmergeMeaning {
  import opened Common
  import opened RunHistory
  import opened ReverseReplay
  import opened SurgicalUnmerge

  /** Whatever the run wrote to the channel's streams was a merge that was heard, and its entry was written. */
  ghost predicate OnlyMerged(start: World, steps: seq<Step>, c: int) {
    && (forall k: nat :: EffectiveAt(start, steps, k) && steps[k].channel == c && WritesStreams(steps[k].action) ==>
          steps[k].action.Merge? && steps[k].action.flushed)
    && forall k: nat :: !StreamsUnheard(start, steps, k, c)
  }

  ghost predicate StreamsUnheard(start: World, steps: seq<Step>, k: nat, c: int) {
    && k < |steps| && steps[k].Unheard? && steps[k].channel == c && WritesStreams(steps[k].action)
    && Effective(RunOf(start, steps[..k]).cache, c, steps[k].action)
  }

  predicate OnlyMergesNow(s: State, step: Step, c: int) {
    (step.Ran? || step.Unheard?) && step.channel == c && Effective(s.cache, c, step.action) &&
    WritesStreams(step.action) ==>
      step.Ran? && step.action.Merge? && step.action.flushed
  }

  predicate MergesNow(s: State, step: Step, c: int) {
    step.Ran? && step.channel == c && step.action.Merge? && Effective(s.cache, c, step.action)
  }

  /** The streams the run has merged into the channel, in order. */
  function Merged(start: World, steps: seq<Step>, c: int): seq<int> {
    if steps == [] then [] else
      var n := |steps| - 1;
      Merged(start, steps[..n], c) +
      if MergesNow(RunOf(start, steps[..n]), steps[n], c) then [steps[n].action.stream] else []
  }

  lemma OnlyMergedBefore(start: World, steps: seq<Step>, n: nat, c: int)
    requires OnlyMerged(start, steps, c) && n <= |steps|
    ensures OnlyMerged(start, steps[..n], c)
  {
    Prefixes(start, steps, {}, n, 0, "");
    forall k: nat | EffectiveAt(start, steps[..n], k) && steps[..n][k].channel == c &&
                    WritesStreams(steps[..n][k].action)
      ensures steps[..n][k].action.Merge? && steps[..n][k].action.flushed
    {
      assert EffectiveAt(start, steps, k);
    }
    forall k: nat ensures !StreamsUnheard(start, steps[..n], k, c) {
      assert !StreamsUnheard(start, steps, k, c);
      if k < n { assert steps[..n][..k] == steps[..k]; }
    }
  }

  lemma LastMerged(start: World, steps: seq<Step>, c: int)
    requires OnlyMerged(start, steps, c) && steps != []
    ensures OnlyMergesNow(RunOf(start, steps[..|steps| - 1]), steps[|steps| - 1], c)
  {
    assert EffectiveAt(start, steps, |steps| - 1) ==> steps[|steps| - 1].Ran?;
    assert !StreamsUnheard(start, steps, |steps| - 1, c);
  }

  /** The executor's copy is the list it started from with what it merged, each new; and that is what the
      journal says was added. */
  lemma {:induction false} JournalSays(start: World, steps: seq<Step>, c: int)
    requires HasStreams(start) && OnlyMerged(start, steps, c)
    ensures var s, merged := RunOf(start, steps), Merged(start, steps, c);
            && (c in start ==> StreamsOf(s.cache, c) == StreamsOf(start, c) + merged)
            && (forall x :: x in merged ==> c in start && x !in StreamsOf(start, c))
            && AddedTo(s.journal, c) == IdSet(merged)
  {
    if steps != [] {
      var n := |steps| - 1;
      OnlyMergedBefore(start, steps, n, c);
      LastMerged(start, steps, c);
      JournalSays(start, steps[..n], c);
      SameChannels(start, steps[..n]);
      var s, merged := RunOf(start, steps[..n]), Merged(start, steps[..n], c);
      JournalStep(s, steps[n], c);
      CacheStep(s, steps[n], c);
      if MergesNow(s, steps[n], c) {
        var x := steps[n].action.stream;
        Appended(StreamsOf(start, c), merged, [x]);
        assert x !in StreamsOf(start, c) + merged;
      } else {
        assert merged + [] == merged;
        assert StreamsOf(s.cache, c) + [] == StreamsOf(s.cache, c);
      }
    }
  }

  lemma AddedMore(entries: seq<Entry>, e: Entry, c: int)
    ensures AddedTo(entries + [e], c) == AddedTo(entries, c) +
              if e.channel == Some(c) then IdSet(AddedStreamIds(e.before, e.after)) else {}
  {
    assert (entries + [e])[..|entries|] == entries;
  }

  lemma JournalStep(s: State, step: Step, c: int)
    requires OnlyMergesNow(s, step, c)
    ensures AddedTo(Do(s, step).journal, c) == AddedTo(s.journal, c) +
              if MergesNow(s, step, c) then {step.action.stream} else {}
  {
    if step.Ran? && Effective(s.cache, step.channel, step.action) && step.action.Merge? && step.action.flushed {
      var x, streams := step.action.stream, StreamsOf(s.cache, step.channel);
      var e := Entry(Some(step.channel), step.action.category, Ids(streams), Ids(streams + [x]));
      assert Do(s, step).journal == s.journal + [e];
      AddedMerge(s.journal, e, streams, x, c);
    } else {
      assert Do(s, step).journal == s.journal;
      assert AddedTo(s.journal, c) + {} == AddedTo(s.journal, c);
    }
  }

  lemma AddedMerge(entries: seq<Entry>, e: Entry, streams: seq<int>, x: int, c: int)
    requires x !in streams && e.channel.Some? && e.before == Ids(streams) && e.after == Ids(streams + [x])
    ensures AddedTo(entries + [e], c) == AddedTo(entries, c) + if e.channel.value == c then {x} else {}
  {
    AddedMore(entries, e, c);
    OneAdded(streams, x);
    assert IdSet([x]) == {x};
  }

  lemma CacheStep(s: State, step: Step, c: int)
    requires OnlyMergesNow(s, step, c)
    ensures c in s.cache ==>
              StreamsOf(Do(s, step).cache, c) == StreamsOf(s.cache, c) +
              if MergesNow(s, step, c) then [step.action.stream] else []
  {
    if step.Ran? && Effective(s.cache, step.channel, step.action) && MergesNow(s, step, c) {
      WriteStreams(s.cache, step.channel, StreamsOf(s.cache, step.channel) + [step.action.stream], c);
    } else {
      LeavesStreams(s, step, c);
      assert StreamsOf(s.cache, c) + [] == StreamsOf(s.cache, c);
    }
  }

  /** A step of the run that does not write the channel's streams leaves them. */
  lemma LeavesStreams(s: State, step: Step, c: int)
    requires (step.Ran? || step.Unheard?) && step.channel == c && Effective(s.cache, c, step.action) ==>
               !WritesStreams(step.action)
    ensures StreamsOf(Do(s, step).cache, c) == StreamsOf(s.cache, c)
    ensures step.Ran? || step.Unheard? ==> StreamsOf(Do(s, step).live, c) == StreamsOf(s.live, c)
  {
  }

  lemma OneAdded(streams: seq<int>, x: int)
    requires x !in streams
    ensures AddedStreamIds(Ids(streams), Ids(streams + [x])) == [x]
  {
    var gone := IdSet(streams);
    assert (streams + [x])[..|streams|] == streams;
    assert Keep(streams, gone) == [] by { KeepNone(streams, gone); }
  }

  lemma {:induction false} KeepNone(s: seq<int>, gone: set<int>)
    requires forall x :: x in s ==> x in gone
    ensures Keep(s, gone) == []
  {
    if s != [] {
      var n := |s| - 1;
      assert s == s[..n] + [s[n]];
      var x := s[n];
      assert x in s && x in gone;
      KeepNone(s[..n], gone);
    }
  }

  // ----- whose each stream is

  /** A stream in the live list, and whether the run put it there. */
  datatype Item = Item(id: int, byRun: bool)

  function Items(ids: seq<int>, byRun: bool): (r: seq<Item>)
    ensures |r| == |ids| && forall k :: 0 <= k < |r| ==> r[k] == Item(ids[k], byRun)
  {
    seq(|ids|, k requires 0 <= k < |ids| => Item(ids[k], byRun))
  }

  function ItemIds(items: seq<Item>): (r: seq<int>)
    ensures |r| == |items| && forall k :: 0 <= k < |r| ==> r[k] == items[k].id
  {
    seq(|items|, k requires 0 <= k < |items| => items[k].id)
  }

  /** What is there besides the run's own. */
  function Others(items: seq<Item>): seq<int> {
    if items == [] then [] else
      var n := |items| - 1;
      Others(items[..n]) + if items[n].byRun then [] else [items[n].id]
  }

  /** The live list of a channel, marked. */
  function Tagged(start: World, steps: seq<Step>, c: int): seq<Item> {
    if steps == [] then Items(StreamsOf(start, c), false) else
      var n := |steps| - 1;
      TagStep(StreamsOf(start, c), Merged(start, steps[..n], c), RunOf(start, steps[..n]), Tagged(start, steps[..n], c),
              steps[n], c)
  }

  /** What a step does to the marked list. */
  function TagStep(start: seq<int>, merged: seq<int>, s: State, before: seq<Item>, step: Step, c: int): seq<Item> {
    match step
    case Ran(_, _) =>
      if MergesNow(s, step, c) then Items(start, false) + Items(merged + [step.action.stream], true) else before
    case Unheard(_, _) => before
    case Insert(d, at, x) => if d == c then InsertAt(before, at, Item(x, false)) else before
    case Drop(d, at) => if d == c then DropAt(before, at) else before
  }

  lemma IdsAfter(before: seq<Item>, at: nat, x: int, start: seq<int>, merged: seq<int>)
    ensures ItemIds(InsertAt(before, at, Item(x, false))) == InsertAt(ItemIds(before), at, x)
    ensures ItemIds(DropAt(before, at)) == DropAt(ItemIds(before), at)
    ensures ItemIds(Items(start, false) + Items(merged, true)) == start + merged
  {
  }

  lemma TagStepIsLive(start: seq<int>, merged: seq<int>, s: State, before: seq<Item>, step: Step, c: int)
    requires c in s.live && HasStreams(s.live) && s.live.Keys == s.cache.Keys
    requires OnlyMergesNow(s, step, c)
    requires ItemIds(before) == StreamsOf(s.live, c) && StreamsOf(s.cache, c) == start + merged
    ensures ItemIds(TagStep(start, merged, s, before, step, c)) == StreamsOf(Do(s, step).live, c)
  {
    match step
    case Ran(d, a) =>
      if MergesNow(s, step, c) {
        WriteStreams(s.live, d, StreamsOf(s.cache, d) + [a.stream], c);
        IdsAfter(before, 0, 0, start, merged + [a.stream]);
        Appended(start, merged, [a.stream]);
      } else {
        LeavesStreams(s, step, c);
      }
    case Unheard(_, _) => LeavesStreams(s, step, c);
    case Insert(d, at, x) =>
      WriteStreams(s.live, d, InsertAt(StreamsOf(s.live, d), at, x), c);
      IdsAfter(before, at, x, start, merged);
    case Drop(d, at) =>
      WriteStreams(s.live, d, DropAt(StreamsOf(s.live, d), at), c);
      IdsAfter(before, at, 0, start, merged);
  }

  ghost predicate RunsAre(items: seq<Item>, merged: seq<int>) {
    forall i :: i in items && i.byRun ==> i.id in merged
  }

  lemma TagStepRuns(start: seq<int>, merged: seq<int>, s: State, before: seq<Item>, step: Step, c: int)
    requires RunsAre(before, merged)
    ensures RunsAre(TagStep(start, merged, s, before, step, c),
                    merged + if MergesNow(s, step, c) then [step.action.stream] else [])
  {
  }

  lemma {:induction false} TaggedIsLive(start: World, steps: seq<Step>, c: int)
    requires HasStreams(start) && OnlyMerged(start, steps, c) && c in start
    ensures ItemIds(Tagged(start, steps, c)) == StreamsOf(RunOf(start, steps).live, c)
    ensures RunsAre(Tagged(start, steps, c), Merged(start, steps, c))
  {
    if steps != [] {
      var n := |steps| - 1;
      OnlyMergedBefore(start, steps, n, c);
      LastMerged(start, steps, c);
      TaggedIsLive(start, steps[..n], c);
      SameChannels(start, steps[..n]);
      JournalSays(start, steps[..n], c);
      var s, merged, before := RunOf(start, steps[..n]), Merged(start, steps[..n], c), Tagged(start, steps[..n], c);
      TagStepIsLive(StreamsOf(start, c), merged, s, before, steps[n], c);
      TagStepRuns(StreamsOf(start, c), merged, s, before, steps[n], c);
    }
  }

  lemma {:induction false} OthersJoin(a: seq<Item>, b: seq<Item>)
    ensures Others(a + b) == Others(a) + Others(b)
  {
    if b == [] {
      assert a + b == a;
    } else {
      var n := |b| - 1;
      OthersJoin(a, b[..n]);
      assert (a + b)[..|a + b| - 1] == a + b[..n];
      assert (a + b)[|a + b| - 1] == b[n];
    }
  }

  lemma {:induction false} OthersOf(ids: seq<int>, byRun: bool)
    ensures Others(Items(ids, byRun)) == if byRun then [] else ids
  {
    if ids != [] {
      var n := |ids| - 1;
      OthersOf(ids[..n], byRun);
      assert Items(ids, byRun)[..n] == Items(ids[..n], byRun);
    }
  }

  lemma OneItemMore(kept: seq<int>, others: seq<int>, x: int)
    ensures kept + [x] == others + [x] <==> kept == others
  {
    if kept + [x] == others + [x] {
      assert kept == (kept + [x])[..|kept|];
      assert others == (others + [x])[..|others|];
    }
  }

  /** Taking out the run's streams leaves the others', unless one of those has the id of one of the run's. */
  lemma {:induction false} KeepOthers(items: seq<Item>, gone: set<int>)
    requires forall i :: i in items && i.byRun ==> i.id in gone
    ensures |Keep(ItemIds(items), gone)| <= |Others(items)|
    ensures Keep(ItemIds(items), gone) == Others(items) <==> forall i :: i in items && !i.byRun ==> i.id !in gone
  {
    if items != [] {
      var n := |items| - 1;
      assert items == items[..n] + [items[n]];
      KeepOthers(items[..n], gone);
      var kept, others := Keep(ItemIds(items[..n]), gone), Others(items[..n]);
      assert ItemIds(items)[..n] == ItemIds(items[..n]);
      assert kept + [] == kept && others + [] == others;
      OneItemMore(kept, others, items[n].id);
    }
  }

  // ----- the others' edits, on their own

  function Min(a: nat, b: nat): nat {
    if a < b then a else b
  }

  /** Where in a list without the run's streams a place of the live list is. */
  function Place(items: seq<Item>, at: nat): nat {
    |Others(items[..Min(at, |items|)])|
  }

  /** What a step does to a list without the run's streams: an edit comes at the same place in it, and
      a merge brings back the list the run started from. */
  function LateStep(start: seq<int>, s: State, items: seq<Item>, alone: seq<int>, step: Step, c: int): seq<int> {
    match step
    case Ran(_, _) => if MergesNow(s, step, c) then start else alone
    case Unheard(_, _) => alone
    case Insert(d, at, x) => if d == c then InsertAt(alone, Place(items, at), x) else alone
    case Drop(d, at) => if d == c && at < |items| && !items[at].byRun then DropAt(alone, Place(items, at)) else alone
  }

  /** The edits made since the run last wrote the channel, on the list the run started from. */
  function LateEdits(start: World, steps: seq<Step>, c: int): seq<int> {
    if steps == [] then StreamsOf(start, c) else
      var n := |steps| - 1;
      LateStep(StreamsOf(start, c), RunOf(start, steps[..n]), Tagged(start, steps[..n], c),
               LateEdits(start, steps[..n], c), steps[n], c)
  }

  lemma InsertOthers(items: seq<Item>, at: nat, x: int)
    ensures Others(InsertAt(items, at, Item(x, false))) == InsertAt(Others(items), Place(items, at), x)
  {
    var p := Min(at, |items|);
    var a, b := items[..p], items[p..];
    assert items == a + b;
    OthersJoin(a, b);
    OthersJoin(a + [Item(x, false)], b);
    OthersJoin(a, [Item(x, false)]);
    assert [Item(x, false)][..0] == [];
    assert Others([Item(x, false)]) == [x];
    assert InsertAt(items, at, Item(x, false)) == a + [Item(x, false)] + b;
    assert Others(items)[..|Others(a)|] == Others(a) && Others(items)[|Others(a)|..] == Others(b);
  }

  lemma OthersAround(a: seq<Item>, i: Item, b: seq<Item>)
    ensures Others(a + [i] + b) == Others(a) + (if i.byRun then [] else [i.id]) + Others(b)
  {
    OthersJoin(a + [i], b);
    OthersJoin(a, [i]);
    assert [i][..0] == [];
  }

  lemma DropBetween(a: seq<int>, x: int, b: seq<int>)
    ensures DropAt(a + [x] + b, |a|) == a + b
  {
  }

  lemma DropOthers(items: seq<Item>, at: nat)
    requires at < |items|
    ensures Others(DropAt(items, at)) ==
              if items[at].byRun then Others(items) else DropAt(Others(items), Place(items, at))
  {
    var a, b := items[..at], items[at + 1..];
    assert DropAt(items, at) == a + b && Place(items, at) == |Others(a)|;
    OthersJoin(a, b);
    OthersSplit(items, at);
    if items[at].byRun {
      assert Others(a) + [] == Others(a);
    } else {
      DropBetween(Others(a), items[at].id, Others(b));
    }
  }

  lemma OthersSplit(items: seq<Item>, at: nat)
    requires at < |items|
    ensures Others(items) ==
              Others(items[..at]) + (if items[at].byRun then [] else [items[at].id]) + Others(items[at + 1..])
  {
    SplitAt(items, at);
    OthersAround(items[..at], items[at], items[at + 1..]);
  }

  lemma SplitAt<T>(s: seq<T>, at: nat)
    requires at < |s|
    ensures s == s[..at] + [s[at]] + s[at + 1..]
  {
  }

  lemma OthersAfterMerge(start: seq<int>, merged: seq<int>)
    ensures Others(Items(start, false) + Items(merged, true)) == start
  {
    OthersOf(start, false);
    OthersOf(merged, true);
    OthersJoin(Items(start, false), Items(merged, true));
    assert start + [] == start;
  }

  lemma TagStepOthers(start: seq<int>, merged: seq<int>, s: State, before: seq<Item>, step: Step, c: int)
    ensures Others(TagStep(start, merged, s, before, step, c)) == LateStep(start, s, before, Others(before), step, c)
  {
    match step
    case Ran(_, _) =>
      if MergesNow(s, step, c) { OthersAfterMerge(start, merged + [step.action.stream]); }
    case Unheard(_, _) =>
    case Insert(_, at, x) => InsertOthers(before, at, x);
    case Drop(_, at) => if at < |before| { DropOthers(before, at); }
  }

  lemma {:induction false} OthersAreLateEdits(start: World, steps: seq<Step>, c: int)
    ensures Others(Tagged(start, steps, c)) == LateEdits(start, steps, c)
  {
    if steps == [] {
      OthersOf(StreamsOf(start, c), false);
    } else {
      var n := |steps| - 1;
      OthersAreLateEdits(start, steps[..n], c);
      TagStepOthers(StreamsOf(start, c), Merged(start, steps[..n], c), RunOf(start, steps[..n]),
                    Tagged(start, steps[..n], c), steps[n], c);
    }
  }

  /** The un-merge of a run that only merged leaves what the later edits alone would have left, order
      kept, exactly when none of them brought in a stream that the run had merged. */
  lemma UnmergeLeavesEdits(start: World, steps: seq<Step>, c: int)
    requires HasStreams(start) && OnlyMerged(start, steps, c) && c in start
    ensures var s := RunOf(start, steps);
            Unmerged(s.live, s.journal, {}, c) == LateEdits(start, steps, c) <==>
              forall i :: i in Tagged(start, steps, c) && !i.byRun ==> i.id !in Merged(start, steps, c)
  {
    TaggedIsLive(start, steps, c);
    JournalSays(start, steps, c);
    OthersAreLateEdits(start, steps, c);
    KeepOthers(Tagged(start, steps, c), AddedTo(RunOf(start, steps).journal, c));
  }
}
