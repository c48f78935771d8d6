/** What a pipeline run does to channels, what it records of it, and what others do meanwhile
    (backend/channel_pipeline_executor.py and the later passes of backend/channel_pipeline_engine.py). */
module RunHistory {
  import opened Common

  datatype Value = Null | Scalar(value: int) | Streams(ids: seq<int>)

  /** A channel's fields; one that is missing reads as null. */
  type Row = map<string, Value>
  type World = map<int, Row>

  const STREAMS: string := "streams"

  function Get(world: World, c: int, f: string): Value {
    if c in world && f in world[c] then world[c][f] else Null
  }

  function StreamsOf(world: World, c: int): seq<int> {
    var v := Get(world, c, STREAMS);
    if v.Streams? then v.ids else []
  }

  datatype Category = EventSync | AutoCreation

  /** A merge's journal entry is written later, and may fail to be.

      The last three record nothing: the pruning of streams that no merge asked for, the sorting of a
      channel's streams, and writes of other fields.  Those are the rename of a channel that a name
      matched, a deferred guide assignment and an ownership marker, which the executor's copy follows, and
      a renumbering with the renames it brings, which it does not. */
  datatype Action = Merge(stream: int, category: Category, flushed: bool)
                  | RemoveStream(stream: int)
                  | SetPriority(stream: int, highest: bool)
                  | Assign(updates: map<string, Value>, noted: set<string>)
                  | Prune(desired: set<int>)
                  | Reorder(order: seq<int>)
                  | Unnoted(updates: map<string, Value>, followed: bool)

  /** A step of the run; one whose write landed while the call raised; or an edit that somebody else makes to a
      channel's stream list. */
  datatype Step =
    | Ran(channel: int, action: Action)
    | Unheard(channel: int, action: Action)
    | Insert(channel: int, at: nat, stream: int)
    | Drop(channel: int, at: nat)

  datatype EntityType = ChannelEntity | StreamEntity

  /** A record of a modified entity, and, when it is a channel, what it held before. */
  datatype Modified = Modified(entityType: EntityType, id: int, previous: Row)

  /** One side of a journal entry, as far as it can be read. */
  datatype Side = Missing | Malformed | Ids(ids: seq<int>)

  datatype Entry = Entry(channel: Option<int>, category: Category, before: Side, after: Side)

  /** The executor works from its own copy of each channel, taken when the run starts. */
  datatype State = State(live: World, cache: World, modified: seq<Modified>, journal: seq<Entry>)

  function Keep(s: seq<int>, gone: set<int>): (r: seq<int>)
  {
    if s == [] then [] else
      var n := |s| - 1;
      Keep(s[..n], gone) + if s[n] in gone then [] else [s[n]]
  }

  lemma {:induction false} KeepMembers(s: seq<int>, gone: set<int>)
    ensures forall x :: x in Keep(s, gone) <==> x in s && x !in gone
    ensures |Keep(s, gone)| <= |s|
  {
    if s != [] {
      var n := |s| - 1;
      KeepMembers(s[..n], gone);
      assert s == s[..n] + [s[n]];
    }
  }

  lemma {:induction false} KeepJoins(a: seq<int>, b: seq<int>, gone: set<int>)
    ensures Keep(a + b, gone) == Keep(a, gone) + Keep(b, gone)
  {
    if b == [] {
      assert a + b == a;
    } else {
      var n := |b| - 1;
      KeepJoins(a, b[..n], gone);
      assert (a + b)[..|a + b| - 1] == a + b[..n];
      assert (a + b)[|a + b| - 1] == b[n];
    }
  }

  lemma {:induction false} KeepAll(s: seq<int>, gone: set<int>)
    ensures Keep(s, gone) == s <==> forall x :: x in s ==> x !in gone
  {
    if s != [] {
      var n := |s| - 1;
      KeepAll(s[..n], gone);
      KeepMembers(s[..n], gone);
      assert s == s[..n] + [s[n]];
      if forall x :: x in s ==> x !in gone {
        assert forall x :: x in s[..n] ==> x in s;
        assert s[n] in s;
      }
    }
  }

  /** The list with nothing of `gone`, taken twice, is as taken once. */
  lemma KeepTwice(s: seq<int>, gone: set<int>)
    ensures Keep(Keep(s, gone), gone) == Keep(s, gone)
  {
    KeepMembers(s, gone);
    KeepAll(Keep(s, gone), gone);
  }

  /** What of `s` is wanted, order kept. */
  function Only(s: seq<int>, wanted: set<int>): seq<int> {
    if s == [] then [] else
      var n := |s| - 1;
      Only(s[..n], wanted) + if s[n] in wanted then [s[n]] else []
  }

  lemma {:induction false} OnlyMembers(s: seq<int>, wanted: set<int>)
    ensures forall x :: x in Only(s, wanted) <==> x in s && x in wanted
    ensures |Only(s, wanted)| <= |s|
    ensures |Only(s, wanted)| == |s| ==> Only(s, wanted) == s
  {
    if s != [] {
      var n := |s| - 1;
      OnlyMembers(s[..n], wanted);
      assert s == s[..n] + [s[n]];
    }
  }

  /** Taking out and letting through are the same where each member is one or the other. */
  lemma {:induction false} KeepIsOnly(s: seq<int>, gone: set<int>, wanted: set<int>)
    requires forall x :: x in s ==> (x in gone <==> x !in wanted)
    ensures Keep(s, gone) == Only(s, wanted)
  {
    if s != [] {
      var n := |s| - 1;
      assert s == s[..n] + [s[n]];
      var x := s[n];
      assert x in s;
      KeepIsOnly(s[..n], gone, wanted);
    }
  }

  // ----- the run

  /** Does the action find anything to do? */
  predicate Effective(cache: World, c: int, a: Action) {
    var streams := StreamsOf(cache, c);
    && c in cache
    && match a
       case Merge(s, _, _) => s !in streams
       case RemoveStream(s) => s in streams
       case SetPriority(s, highest) => s in streams && Prioritized(streams, s, highest) != streams
       case Assign(updates, _) => updates != map[] && STREAMS !in updates
       case Prune(desired) => Only(streams, desired) != streams
       case Reorder(order) => |streams| >= 2 && multiset(order) == multiset(streams) && order != streams
       case Unnoted(updates, _) => updates != map[] && STREAMS !in updates
  }

  function Prioritized(streams: seq<int>, s: int, highest: bool): seq<int> {
    if highest then [s] + Keep(streams, {s}) else Keep(streams, {s}) + [s]
  }

  /** What the action writes, made from the executor's copy. */
  function Updates(cache: World, c: int, a: Action): Row {
    var streams := StreamsOf(cache, c);
    match a
    case Merge(s, _, _) => map[STREAMS := Streams(streams + [s])]
    case RemoveStream(s) => map[STREAMS := Streams(Keep(streams, {s}))]
    case SetPriority(s, highest) => map[STREAMS := Streams(Prioritized(streams, s, highest))]
    case Assign(updates, _) => updates
    case Prune(desired) => map[STREAMS := Streams(Only(streams, desired))]
    case Reorder(order) => map[STREAMS := Streams(order)]
    case Unnoted(updates, _) => updates
  }

  /** Is the action recorded at all? */
  predicate IsRecorded(a: Action) {
    a.Merge? || a.RemoveStream? || a.SetPriority? || a.Assign?
  }

  predicate WritesStreams(a: Action) {
    !a.Assign? && !a.Unnoted?
  }

  /** Does the executor's copy follow the write? */
  predicate IsFollowed(a: Action) {
    a.Unnoted? ==> a.followed
  }

  /** What the action records to be put back: the fields it overwrites, and sometimes more. */
  function Previous(cache: World, c: int, a: Action): Row {
    var fields := Updates(cache, c, a).Keys + if a.Assign? then a.noted else {};
    map f | f in fields :: if f == STREAMS then Streams(StreamsOf(cache, c)) else Get(cache, c, f)
  }

  /** Removing a stream is recorded as a change to the stream. */
  function RecordOf(cache: World, c: int, a: Action): Modified {
    if a.RemoveStream? then Modified(StreamEntity, a.stream, Previous(cache, c, a))
    else Modified(ChannelEntity, c, Previous(cache, c, a))
  }

  function EntryOf(cache: World, c: int, a: Action): seq<Entry> {
    if a.Merge? && a.flushed then
      [Entry(Some(c), a.category, Ids(StreamsOf(cache, c)), Ids(StreamsOf(cache, c) + [a.stream]))]
    else []
  }

  function Write(world: World, c: int, updates: Row): World {
    if c in world then world[c := world[c] + updates] else world
  }

  lemma WriteStreams(world: World, c: int, ids: seq<int>, d: int)
    ensures StreamsOf(Write(world, c, map[STREAMS := Streams(ids)]), d) ==
              if d == c && c in world then ids else StreamsOf(world, d)
  {
  }

  function InsertAt<T>(s: seq<T>, at: nat, x: T): seq<T> {
    if at <= |s| then s[..at] + [x] + s[at..] else s + [x]
  }

  function DropAt<T>(s: seq<T>, at: nat): seq<T> {
    if at < |s| then s[..at] + s[at + 1..] else s
  }

  function Do(s: State, step: Step): State {
    match step
    case Ran(c, a) =>
      if !Effective(s.cache, c, a) then s
      else
        var updates := Updates(s.cache, c, a);
        State(Write(s.live, c, updates), if IsFollowed(a) then Write(s.cache, c, updates) else s.cache,
              s.modified + if IsRecorded(a) then [RecordOf(s.cache, c, a)] else [],
              s.journal + EntryOf(s.cache, c, a))
    case Unheard(c, a) => if Effective(s.cache, c, a) then s.(live := Write(s.live, c, Updates(s.cache, c, a))) else s
    case Insert(c, at, x) =>
      s.(live := Write(s.live, c, map[STREAMS := Streams(InsertAt(StreamsOf(s.live, c), at, x))]))
    case Drop(c, at) => s.(live := Write(s.live, c, map[STREAMS := Streams(DropAt(StreamsOf(s.live, c), at))]))
  }

  // ----- what each step does, in other words

  /** The step left the state as it was but for this channel's stream list, and what it records and journals. */
  ghost predicate Lists(s: State, t: State, c: int, after: seq<int>, modified: seq<Modified>, journal: seq<Entry>) {
    && StreamsOf(t.live, c) == after && StreamsOf(t.cache, c) == after
    && (forall d, f :: d != c || f != STREAMS ==>
          Get(t.live, d, f) == Get(s.live, d, f) && Get(t.cache, d, f) == Get(s.cache, d, f))
    && t.modified == s.modified + modified && t.journal == s.journal + journal
  }

  lemma ListsBy(s: State, c: int, a: Action, after: seq<int>)
    requires c in s.cache && c in s.live && Effective(s.cache, c, a) && IsFollowed(a)
    requires Updates(s.cache, c, a) == map[STREAMS := Streams(after)]
    ensures Lists(s, Do(s, Ran(c, a)), c, after, if IsRecorded(a) then [RecordOf(s.cache, c, a)] else [],
                  EntryOf(s.cache, c, a))
    ensures Previous(s.cache, c, a) == map[STREAMS := Streams(StreamsOf(s.cache, c))]
  {
    WriteStreams(s.live, c, after, c);
    WriteStreams(s.cache, c, after, c);
    assert Previous(s.cache, c, a).Keys == {STREAMS};
  }

  /** Merging adds the stream at the end, if it is new, and notes the list as it was. */
  lemma MergeDoes(s: State, c: int, x: int, category: Category, flushed: bool)
    requires c in s.cache && c in s.live
    ensures var before, t := StreamsOf(s.cache, c), Do(s, Ran(c, Merge(x, category, flushed)));
            if x in before then t == s
            else Lists(s, t, c, before + [x], [Modified(ChannelEntity, c, map[STREAMS := Streams(before)])],
                       if flushed then [Entry(Some(c), category, Ids(before), Ids(before + [x]))] else [])
  {
    var before := StreamsOf(s.cache, c);
    if x !in before { ListsBy(s, c, Merge(x, category, flushed), before + [x]); }
  }

  /** Removing takes the stream out, if it is there, and notes the list as it was, of the stream. */
  lemma RemoveDoes(s: State, c: int, x: int)
    requires c in s.cache && c in s.live
    ensures var before, t := StreamsOf(s.cache, c), Do(s, Ran(c, RemoveStream(x)));
            if x !in before then t == s
            else exists after ::
                   && Lists(s, t, c, after, [Modified(StreamEntity, x, map[STREAMS := Streams(before)])], [])
                   && forall y :: y in after <==> y in before && y != x
  {
    var before := StreamsOf(s.cache, c);
    KeepMembers(before, {x});
    if x in before { ListsBy(s, c, RemoveStream(x), Keep(before, {x})); }
  }

  lemma PrioritizedIs(streams: seq<int>, x: int, highest: bool)
    ensures var after := Prioritized(streams, x, highest);
            after != [] && after[if highest then 0 else |after| - 1] == x && Keep(after, {x}) == Keep(streams, {x})
  {
    var rest := Keep(streams, {x});
    KeepTwice(streams, {x});
    KeepJoins([x], rest, {x});
    KeepJoins(rest, [x], {x});
    KeepMembers([x], {x});
    assert [x][..0] == [];
    assert Keep([x], {x}) == [];
    assert rest + [] == rest && [] + rest == rest;
  }

  /** Setting a stream's priority puts it first, or last, if it is in the list, and leaves the others in order; if
      that changes anything, the list is noted as it was. */
  lemma PriorityDoes(s: State, c: int, x: int, highest: bool)
    requires c in s.cache && c in s.live
    ensures var before, t := StreamsOf(s.cache, c), Do(s, Ran(c, SetPriority(x, highest)));
            if x !in before then t == s
            else exists after ::
                   && after != [] && after[if highest then 0 else |after| - 1] == x
                   && Keep(after, {x}) == Keep(before, {x})
                   && if after == before then t == s
                      else Lists(s, t, c, after, [Modified(ChannelEntity, c, map[STREAMS := Streams(before)])], [])
  {
    var before := StreamsOf(s.cache, c);
    var after := Prioritized(before, x, highest);
    PrioritizedIs(before, x, highest);
    if x in before && after != before { ListsBy(s, c, SetPriority(x, highest), after); }
  }

  /** Pruning lets only wanted streams stay, and is not noted. */
  lemma PruneDoes(s: State, c: int, desired: set<int>)
    requires c in s.cache && c in s.live
    ensures var before, t := StreamsOf(s.cache, c), Do(s, Ran(c, Prune(desired)));
            if forall x :: x in before ==> x in desired then t == s
            else exists after ::
                   Lists(s, t, c, after, [], []) && forall y :: y in after <==> y in before && y in desired
  {
    var before := StreamsOf(s.cache, c);
    OnlyMembers(before, desired);
    if forall x :: x in before ==> x in desired {
      OnlyAll(before, desired);
    } else {
      ListsBy(s, c, Prune(desired), Only(before, desired));
    }
  }

  /** Nor is sorting, which takes another order of two streams or more. */
  lemma ReorderDoes(s: State, c: int, order: seq<int>)
    requires c in s.cache && c in s.live
    ensures var before, t := StreamsOf(s.cache, c), Do(s, Ran(c, Reorder(order)));
            if |before| >= 2 && multiset(order) == multiset(before) && order != before
            then Lists(s, t, c, order, [], []) else t == s
  {
    if Effective(s.cache, c, Reorder(order)) { ListsBy(s, c, Reorder(order), order); }
  }

  /** The fields of a channel are as written, and nothing else has changed. */
  ghost predicate Sets(was: World, now: World, c: int, updates: Row) {
    forall d, f :: Get(now, d, f) == if d == c && f in updates then updates[f] else Get(was, d, f)
  }

  /** Setting fields writes them, and notes what they were, and the others that it is told to note; a write that is
      not noted is followed by the executor's copy or not. */
  lemma FieldsDo(s: State, c: int, updates: Row, noted: set<string>, followed: bool)
    requires c in s.cache && c in s.live && updates != map[] && STREAMS !in updates && STREAMS !in noted
    ensures var t := Do(s, Ran(c, Assign(updates, noted)));
            && Sets(s.live, t.live, c, updates) && Sets(s.cache, t.cache, c, updates) && t.journal == s.journal
            && exists p: Row ::
                 && t.modified == s.modified + [Modified(ChannelEntity, c, p)] && p.Keys == updates.Keys + noted
                 && forall f :: f in p ==> p[f] == Get(s.cache, c, f)
    ensures var t := Do(s, Ran(c, Unnoted(updates, followed)));
            && Sets(s.live, t.live, c, updates) && t.modified == s.modified && t.journal == s.journal
            && (if followed then Sets(s.cache, t.cache, c, updates) else t.cache == s.cache)
  {
    var a := Assign(updates, noted);
    assert s.journal + [] == s.journal && s.modified + [] == s.modified;
    assert Do(s, Ran(c, a)).modified == s.modified + [Modified(ChannelEntity, c, Previous(s.cache, c, a))];
    assert Previous(s.cache, c, a).Keys == updates.Keys + noted;
  }

  lemma OnlyAll(s: seq<int>, wanted: set<int>)
    requires forall x :: x in s ==> x in wanted
    ensures Only(s, wanted) == s
  {
    KeepAll(s, {});
    KeepIsOnly(s, {}, wanted);
  }

  function RunOf(start: World, steps: seq<Step>): State {
    if steps == [] then State(start, start, [], [])
    else Do(RunOf(start, steps[..|steps| - 1]), steps[|steps| - 1])
  }

  /** Each channel has a stream list. */
  ghost predicate HasStreams(world: World) {
    forall c :: c in world ==> STREAMS in world[c] && world[c][STREAMS].Streams?
  }

  lemma {:induction false} SameChannels(start: World, steps: seq<Step>)
    requires HasStreams(start)
    ensures var s := RunOf(start, steps);
            s.live.Keys == s.cache.Keys == start.Keys && HasStreams(s.live) && HasStreams(s.cache)
  {
    if steps != [] {
      SameChannels(start, steps[..|steps| - 1]);
      SameChannelsStep(RunOf(start, steps[..|steps| - 1]), steps[|steps| - 1]);
    }
  }

  lemma SameChannelsStep(s: State, step: Step)
    requires s.live.Keys == s.cache.Keys && HasStreams(s.live) && HasStreams(s.cache)
    ensures var t := Do(s, step);
            t.live.Keys == t.cache.Keys == s.live.Keys && HasStreams(t.live) && HasStreams(t.cache)
  {
    var c := step.channel;
    match step
    case Ran(_, a) =>
      var updates := Updates(s.cache, c, a);
      if Effective(s.cache, c, a) {
        HasStreamsStill(s.live, c, updates);
        HasStreamsStill(s.cache, c, updates);
      }
    case Unheard(_, a) => if Effective(s.cache, c, a) { HasStreamsStill(s.live, c, Updates(s.cache, c, a)); }
    case Insert(_, at, x) => HasStreamsStill(s.live, c, map[STREAMS := Streams(InsertAt(StreamsOf(s.live, c), at, x))]);
    case Drop(_, at) => HasStreamsStill(s.live, c, map[STREAMS := Streams(DropAt(StreamsOf(s.live, c), at))]);
  }

  lemma HasStreamsStill(world: World, c: int, updates: Row)
    requires HasStreams(world) && (STREAMS in updates ==> updates[STREAMS].Streams?)
    ensures HasStreams(Write(world, c, updates)) && Write(world, c, updates).Keys == world.Keys
  {
  }

  /** Nobody edits anything while the run lasts, and no write of its lands unheard. */
  ghost predicate Alone(steps: seq<Step>) {
    forall k :: 0 <= k < |steps| ==> steps[k].Ran?
  }

  /** Then the executor's copy of a stream list is what is there. */
  lemma {:induction false} CopyIsLive(start: World, steps: seq<Step>, c: int)
    requires Alone(steps) && HasStreams(start)
    ensures StreamsOf(RunOf(start, steps).live, c) == StreamsOf(RunOf(start, steps).cache, c)
  {
    if steps != [] {
      CopyIsLive(start, steps[..|steps| - 1], c);
      SameChannels(start, steps[..|steps| - 1]);
      CopyIsLiveStep(RunOf(start, steps[..|steps| - 1]), steps[|steps| - 1], c);
    }
  }

  lemma CopyIsLiveStep(s: State, step: Step, c: int)
    requires step.Ran? && s.live.Keys == s.cache.Keys && StreamsOf(s.live, c) == StreamsOf(s.cache, c)
    ensures StreamsOf(Do(s, step).live, c) == StreamsOf(Do(s, step).cache, c)
  {
  }

  lemma StepMore(start: World, steps: seq<Step>, k: nat)
    requires k < |steps|
    ensures RunOf(start, steps[..k + 1]) == Do(RunOf(start, steps[..k]), steps[k])
  {
    assert steps[..k + 1][..k] == steps[..k];
  }

  /** A write of one field, noted or not, sets it and leaves the streams. */
  lemma FieldWritten(s: State, c: int, f: string, v: Value, a: Action)
    requires c in s.cache && c in s.live && f != STREAMS
    requires a == Unnoted(map[f := v], true) || a == Assign(map[f := v], {})
    ensures var t := Do(s, Ran(c, a));
            && Get(t.live, c, f) == v && StreamsOf(t.live, c) == StreamsOf(s.live, c)
            && StreamsOf(t.cache, c) == StreamsOf(s.cache, c) && t.live.Keys == s.live.Keys
            && t.cache.Keys == s.cache.Keys
            && t.journal == s.journal
  {
    assert f in a.updates;
    assert Effective(s.cache, c, a);
  }
}
