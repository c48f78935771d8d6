/** Putting recorded values back, newest first (the snapshot restore of `rollback_execution` and
    `_rollback_modified_entity` in backend/channel_pipeline_engine.py). */
module ReverseReplay {
  import opened Common
  import opened RunHistory

  predicate PutsBack(m: Modified) {
    m.entityType.ChannelEntity? && m.previous != map[]
  }

  function Restore(live: World, m: Modified): World {
    if PutsBack(m) then Write(live, m.id, m.previous) else live
  }

  /** `lost` are the records whose write failed: the failure is logged and passed over. */
  function ReplayBack(live: World, modified: seq<Modified>, lost: set<nat>): World
    decreases |modified|
  {
    if modified == [] then live else
      var n := |modified| - 1;
      ReplayBack(if n in lost then live else Restore(live, modified[n]), modified[..n], lost)
  }

  method RestoreModified(live: World, modified: seq<Modified>, lost: set<nat>) returns (live': World)
    ensures live' == ReplayBack(live, modified, lost)
  {
    live' := live;
    var k := |modified|;
    assert modified[..k] == modified;
    while k > 0
      invariant 0 <= k <= |modified|
      invariant ReplayBack(live', modified[..k], lost) == ReplayBack(live, modified, lost)
    {
      k := k - 1;
      assert modified[..k + 1][..k] == modified[..k];
      if k !in lost { live' := Restore(live', modified[k]); }
    }
  }

  predicate Notes(m: Modified, c: int, f: string) {
    PutsBack(m) && m.id == c && f in m.previous
  }

  /** What the earliest record of a field, of those that were put back, says of it. */
  function EarliestNote(modified: seq<Modified>, lost: set<nat>, c: int, f: string): Option<Value> {
    if modified == [] then None else
      var n := |modified| - 1;
      var before := EarliestNote(modified[..n], lost, c, f);
      if before.Some? then before
      else if n !in lost && Notes(modified[n], c, f) then Some(modified[n].previous[f])
      else None
  }

  /** The earliest record wins, however many there are. */
  lemma {:induction false} EarliestWins(live: World, modified: seq<Modified>, lost: set<nat>, c: int, f: string)
    requires c in live
    ensures var note := EarliestNote(modified, lost, c, f);
            Get(ReplayBack(live, modified, lost), c, f) == if note.Some? then note.value else Get(live, c, f)
    decreases |modified|
  {
    if modified != [] {
      var n := |modified| - 1;
      EarliestWins(if n in lost then live else Restore(live, modified[n]), modified[..n], lost, c, f);
    }
  }

  // ----- over a run

  ghost predicate EffectiveAt(start: World, steps: seq<Step>, k: nat) {
    k < |steps| && steps[k].Ran? && Effective(RunOf(start, steps[..k]).cache, steps[k].channel, steps[k].action)
  }

  /** The `k`th step noted the field, and its note was put back. */
  ghost predicate NotedAt(start: World, steps: seq<Step>, lost: set<nat>, k: nat, c: int, f: string) {
    && EffectiveAt(start, steps, k) && IsRecorded(steps[k].action)
    && var s := RunOf(start, steps[..k]);
       |s.modified| !in lost && Notes(RecordOf(s.cache, steps[k].channel, steps[k].action), c, f)
  }

  /** The first step to note the field, or the end. */
  ghost predicate FirstNotedAt(start: World, steps: seq<Step>, lost: set<nat>, k: nat, c: int, f: string) {
    && k <= |steps| && (k < |steps| ==> NotedAt(start, steps, lost, k, c, f))
    && forall j: nat :: j < k ==> !NotedAt(start, steps, lost, j, c, f)
  }

  lemma Prefixes(start: World, steps: seq<Step>, lost: set<nat>, n: nat, c: int, f: string)
    requires n <= |steps|
    ensures forall j: nat :: j < n ==>
              (NotedAt(start, steps[..n], lost, j, c, f) <==> NotedAt(start, steps, lost, j, c, f))
    ensures forall j: nat :: j < n ==> (EffectiveAt(start, steps[..n], j) <==> EffectiveAt(start, steps, j))
  {
    forall j: nat | j < n
      ensures NotedAt(start, steps[..n], lost, j, c, f) <==> NotedAt(start, steps, lost, j, c, f)
      ensures EffectiveAt(start, steps[..n], j) <==> EffectiveAt(start, steps, j)
    {
      assert steps[..n][..j] == steps[..j];
    }
  }

  lemma OneMoreRecord(modified: seq<Modified>, m: Modified, lost: set<nat>, c: int, f: string)
    ensures EarliestNote(modified + [m], lost, c, f) ==
              if EarliestNote(modified, lost, c, f).Some? then EarliestNote(modified, lost, c, f)
              else if |modified| !in lost && Notes(m, c, f) then Some(m.previous[f]) else None
  {
    assert (modified + [m])[..|modified|] == modified;
  }

  /** The earliest note of a field is what the executor's copy held just before the step that made it. */
  lemma {:induction false} NoteIsTrue(start: World, steps: seq<Step>, lost: set<nat>, c: int, f: string)
    returns (k: nat)
    requires HasStreams(start)
    ensures FirstNotedAt(start, steps, lost, k, c, f)
    ensures var note := EarliestNote(RunOf(start, steps).modified, lost, c, f);
            (note.None? <==> k == |steps|) && (note.Some? ==> note.value == Get(RunOf(start, steps[..k]).cache, c, f))
    decreases |steps|
  {
    if steps == [] { return 0; }
    var n := |steps| - 1;
    var i := NoteIsTrue(start, steps[..n], lost, c, f);
    assert steps[..n][..i] == steps[..i];
    LastNote(start, steps, lost, c, f);
    if i < n {
      k := i;
    } else {
      k := if NotedAt(start, steps, lost, n, c, f) then n else n + 1;
    }
    FirstNotedMore(start, steps, lost, i, k, c, f);
  }

  lemma FirstNotedMore(start: World, steps: seq<Step>, lost: set<nat>, i: nat, k: nat, c: int, f: string)
    requires steps != [] && FirstNotedAt(start, steps[..|steps| - 1], lost, i, c, f)
    requires k == if i < |steps| - 1 || NotedAt(start, steps, lost, |steps| - 1, c, f) then i else |steps|
    ensures FirstNotedAt(start, steps, lost, k, c, f)
  {
    Prefixes(start, steps, lost, |steps| - 1, c, f);
  }

  /** What the last step makes of the earliest note. */
  lemma LastNote(start: World, steps: seq<Step>, lost: set<nat>, c: int, f: string)
    requires HasStreams(start) && steps != []
    ensures var n := |steps| - 1;
            var before := EarliestNote(RunOf(start, steps[..n]).modified, lost, c, f);
            EarliestNote(RunOf(start, steps).modified, lost, c, f) ==
              if before.Some? then before
              else if NotedAt(start, steps, lost, n, c, f) then Some(Get(RunOf(start, steps[..n]).cache, c, f))
              else None
  {
    var n := |steps| - 1;
    var s := RunOf(start, steps[..n]);
    SameChannels(start, steps[..n]);
    if EffectiveAt(start, steps, n) && IsRecorded(steps[n].action) {
      OneMoreRecord(s.modified, RecordOf(s.cache, steps[n].channel, steps[n].action), lost, c, f);
    } else {
      assert s.modified + [] == s.modified;
    }
  }

  /** The restore takes each field of each channel back to what the executor took it for at its first note,
      whatever others have done to it since; a field with no note stays as it is. */
  lemma ReplayReturnsTo(start: World, steps: seq<Step>, lost: set<nat>, c: int, f: string) returns (k: nat)
    requires HasStreams(start) && c in start
    ensures FirstNotedAt(start, steps, lost, k, c, f)
    ensures var s := RunOf(start, steps);
            Get(ReplayBack(s.live, s.modified, lost), c, f) ==
              if k < |steps| then Get(RunOf(start, steps[..k]).cache, c, f) else Get(s.live, c, f)
  {
    k := NoteIsTrue(start, steps, lost, c, f);
    SameChannels(start, steps);
    EarliestWins(RunOf(start, steps).live, RunOf(start, steps).modified, lost, c, f);
  }

  // ----- what is not put back

  /** The writes that nothing puts back: a removal is recorded, but as a change to the stream. */
  predicate IsUnkept(a: Action) {
    a.RemoveStream? || !IsRecorded(a)
  }

  /** The `j`th step wrote the field and nothing puts it back; only what the executor's copy follows can
      be seen in a later note. */
  ghost predicate UnkeptAt(start: World, steps: seq<Step>, j: nat, c: int, f: string, noted: bool) {
    && EffectiveAt(start, steps, j) && steps[j].channel == c && IsUnkept(steps[j].action)
    && f in Updates(RunOf(start, steps[..j]).cache, c, steps[j].action)
    && (noted ==> IsFollowed(steps[j].action))
  }

  ghost function Written(start: World, steps: seq<Step>, j: nat, f: string): Value
    requires j < |steps| && steps[j].Ran?
  {
    var updates := Updates(RunOf(start, steps[..j]).cache, steps[j].channel, steps[j].action);
    if f in updates then updates[f] else Null
  }

  /** The last such write before the `k`th step, or none. */
  ghost predicate LastUnkept(start: World, steps: seq<Step>, j: Option<nat>, k: nat, c: int, f: string, noted: bool) {
    && (j.Some? ==> j.value < k && UnkeptAt(start, steps, j.value, c, f, noted))
    && forall i: nat :: (j.Some? ==> j.value < i) && i < k ==> !UnkeptAt(start, steps, i, c, f, noted)
  }

  /** What a step does to a field that it does not note. */
  lemma StepUnnoted(s: State, step: Step, c: int, f: string)
    requires c in s.live && c in s.cache && step.Ran?
    requires Effective(s.cache, step.channel, step.action) && IsRecorded(step.action) ==>
               !Notes(RecordOf(s.cache, step.channel, step.action), c, f)
    ensures var a := step.action;
            var writes := Effective(s.cache, step.channel, a) && step.channel == c && IsUnkept(a) &&
                          f in Updates(s.cache, c, a);
            && Get(Do(s, step).live, c, f) == (if writes then Updates(s.cache, c, a)[f] else Get(s.live, c, f))
            && Get(Do(s, step).cache, c, f) ==
                 (if writes && IsFollowed(a) then Updates(s.cache, c, a)[f] else Get(s.cache, c, f))
  {
    if Effective(s.cache, step.channel, step.action) && step.channel == c && IsRecorded(step.action) {
      var m := RecordOf(s.cache, c, step.action);
      assert f in m.previous ==> m.previous != map[];
    }
  }

  /** Until a field is noted, it is as the last write of it that nothing puts back left it. */
  lemma {:induction false} UntilNoted(start: World, steps: seq<Step>, c: int, f: string, k: nat, noted: bool)
    returns (j: Option<nat>)
    requires Alone(steps) && HasStreams(start) && c in start && k <= |steps|
    requires forall i: nat :: i < k ==> !NotedAt(start, steps, {}, i, c, f)
    ensures LastUnkept(start, steps, j, k, c, f, noted)
    ensures var s := RunOf(start, steps[..k]);
            Get(if noted then s.cache else s.live, c, f) ==
              if j.Some? then Written(start, steps, j.value, f) else Get(start, c, f)
    decreases k
  {
    if k == 0 { return None; }
    var i := k - 1;
    var before := UntilNoted(start, steps, c, f, i, noted);
    StepMore(start, steps, i);
    SameChannels(start, steps[..i]);
    assert !NotedAt(start, steps, {}, i, c, f);
    StepUnnoted(RunOf(start, steps[..i]), steps[i], c, f);
    j := if UnkeptAt(start, steps, i, c, f, noted) then Some(i) else before;
    LastUnkeptMore(start, steps, before, j, i, c, f, noted);
  }

  lemma LastUnkeptMore(start: World, steps: seq<Step>, before: Option<nat>, j: Option<nat>, i: nat, c: int, f: string,
                       noted: bool)
    requires LastUnkept(start, steps, before, i, c, f, noted)
    requires j == if UnkeptAt(start, steps, i, c, f, noted) then Some(i) else before
    ensures LastUnkept(start, steps, j, i + 1, c, f, noted)
  {
  }

  /** When every write goes through, the restore puts a field back as it was exactly when nothing wrote it
      unkept before its first note, or what was written so last was what it held at the start. */
  lemma RestoredIff(start: World, steps: seq<Step>, c: int, f: string) returns (k: nat, j: Option<nat>)
    requires Alone(steps) && HasStreams(start) && c in start
    ensures FirstNotedAt(start, steps, {}, k, c, f) && LastUnkept(start, steps, j, k, c, f, k < |steps|)
    ensures var s := RunOf(start, steps);
            Get(ReplayBack(s.live, s.modified, {}), c, f) == Get(start, c, f) <==>
              (j.Some? ==> Written(start, steps, j.value, f) == Get(start, c, f))
  {
    k := ReplayReturnsTo(start, steps, {}, c, f);
    j := UntilNoted(start, steps, c, f, k, k < |steps|);
    assert steps[..|steps|] == steps;
  }

  /** A run in which everything is noted is undone, whatever it did and however often. */
  lemma ReplayIsInverse(start: World, steps: seq<Step>, c: int, f: string)
    requires Alone(steps) && HasStreams(start) && c in start
    requires forall k :: 0 <= k < |steps| ==> !IsUnkept(steps[k].action)
    ensures var s := RunOf(start, steps); Get(ReplayBack(s.live, s.modified, {}), c, f) == Get(start, c, f)
  {
    var k, j := RestoredIff(start, steps, c, f);
  }

  // ----- streams that are taken out

  lemma {:induction false} Shrinks(streams: seq<int>, x: int)
    requires x in streams
    ensures |Keep(streams, {x})| < |streams|
  {
    var n := |streams| - 1;
    KeepMembers(streams[..n], {x});
    assert streams == streams[..n] + [streams[n]];
    if streams[n] != x { Shrinks(streams[..n], x); }
  }

  predicate TakesOut(a: Action) {
    a.RemoveStream? || a.Prune?
  }

  lemma TakesOutSome(cache: World, c: int, a: Action)
    requires Effective(cache, c, a) && IsUnkept(a) && WritesStreams(a)
    ensures var after := Updates(cache, c, a)[STREAMS].ids;
            |after| <= |StreamsOf(cache, c)| && (TakesOut(a) ==> |after| < |StreamsOf(cache, c)|)
  {
    match a
    case RemoveStream(x) => Shrinks(StreamsOf(cache, c), x);
    case Prune(desired) => OnlyMembers(StreamsOf(cache, c), desired);
    case Reorder(order) =>
      assert |multiset(order)| == |order| && |multiset(StreamsOf(cache, c))| == |StreamsOf(cache, c)|;
    case _ =>
  }

  /** Streams have been taken out before the `k`th step. */
  ghost predicate TakenOutBefore(start: World, steps: seq<Step>, c: int, k: nat) {
    exists j: nat :: j < k && EffectiveAt(start, steps, j) && steps[j].channel == c && TakesOut(steps[j].action)
  }

  lemma ShortenedStep(s: State, step: Step, c: int)
    requires c in s.live && c in s.cache
    requires step.Ran? && Effective(s.cache, step.channel, step.action) && IsRecorded(step.action) ==>
               !Notes(RecordOf(s.cache, step.channel, step.action), c, STREAMS)
    ensures |StreamsOf(Do(s, step).cache, c)| <= |StreamsOf(s.cache, c)|
    ensures TakesOutNow(s, step, c) ==> |StreamsOf(Do(s, step).cache, c)| < |StreamsOf(s.cache, c)|
  {
    if step.Ran? {
      StepUnnoted(s, step, c, STREAMS);
      if Effective(s.cache, step.channel, step.action) && step.channel == c && IsUnkept(step.action) &&
         WritesStreams(step.action) {
        TakesOutSome(s.cache, c, step.action);
      }
    }
  }

  predicate TakesOutNow(s: State, step: Step, c: int) {
    step.Ran? && step.channel == c && TakesOut(step.action) && Effective(s.cache, c, step.action)
  }

  lemma {:induction false} Shortened(start: World, steps: seq<Step>, c: int, k: nat)
    requires HasStreams(start) && c in start && k <= |steps|
    requires forall i: nat :: i < k ==> !NotedAt(start, steps, {}, i, c, STREAMS)
    ensures |StreamsOf(RunOf(start, steps[..k]).cache, c)| <= |StreamsOf(start, c)|
    ensures TakenOutBefore(start, steps, c, k) ==>
              |StreamsOf(RunOf(start, steps[..k]).cache, c)| < |StreamsOf(start, c)|
    decreases k
  {
    if k > 0 {
      var i := k - 1;
      Shortened(start, steps, c, i);
      StepMore(start, steps, i);
      SameChannels(start, steps[..i]);
      assert !NotedAt(start, steps, {}, i, c, STREAMS);
      ShortenedStep(RunOf(start, steps[..i]), steps[i], c);
      TakenOutOneMore(start, steps, c, i);
    }
  }

  lemma TakenOutOneMore(start: World, steps: seq<Step>, c: int, i: nat)
    requires i < |steps|
    ensures TakenOutBefore(start, steps, c, i + 1) <==>
              (TakenOutBefore(start, steps, c, i) || TakesOutNow(RunOf(start, steps[..i]), steps[i], c))
  {
  }

  /** A removal or a pruning before a list is first noted is for good. */
  lemma TakenOutForGood(start: World, steps: seq<Step>, c: int, k: nat)
    requires Alone(steps) && HasStreams(start) && c in start
    requires FirstNotedAt(start, steps, {}, k, c, STREAMS) && TakenOutBefore(start, steps, c, k)
    ensures var s := RunOf(start, steps);
            |StreamsOf(ReplayBack(s.live, s.modified, {}), c)| < |StreamsOf(start, c)|
  {
    var k' := ReplayReturnsTo(start, steps, {}, c, STREAMS);
    SameFirst(start, steps, k, k', c, STREAMS);
    Shortened(start, steps, c, k);
    if k == |steps| {
      assert steps[..k] == steps;
      CopyIsLive(start, steps, c);
    }
  }

  lemma SameFirst(start: World, steps: seq<Step>, k: nat, k': nat, c: int, f: string)
    requires FirstNotedAt(start, steps, {}, k, c, f) && FirstNotedAt(start, steps, {}, k', c, f)
    ensures k == k'
  {
  }

  /** A run that does nothing but remove one stream is not undone. */
  lemma RemovalStays(start: World, c: int, x: int)
    requires HasStreams(start) && c in start && x in StreamsOf(start, c)
    ensures var s := RunOf(start, [Ran(c, RemoveStream(x))]);
            s.modified != [] && Get(ReplayBack(s.live, s.modified, {}), c, STREAMS) != Get(start, c, STREAMS)
  {
    var steps := [Ran(c, RemoveStream(x))];
    assert steps[..0] == [] && steps[..1] == steps;
    assert EffectiveAt(start, steps, 0);
    var k := ReplayReturnsTo(start, steps, {}, c, STREAMS);
    StepMore(start, steps, 0);
    assert TakenOutBefore(start, steps, c, 1);
    TakenOutForGood(start, steps, c, k);
  }

  /** A run that renames a channel, as well as whatever it notes of another field, leaves it renamed. */
  lemma RenameStays(start: World, c: int, f: string, v: Value, g: string, w: Value)
    requires HasStreams(start) && c in start && f != STREAMS && g != STREAMS && f != g && v != Get(start, c, f)
    ensures var s := RunOf(start, [Ran(c, Unnoted(map[f := v], true)), Ran(c, Assign(map[g := w], {}))]);
            && s.modified != []
            && Get(ReplayBack(s.live, s.modified, {}), c, f) == v != Get(start, c, f)
            && Get(ReplayBack(s.live, s.modified, {}), c, g) == Get(start, c, g)
  {
    RenameAndAssign(start, c, f, v, g, w);
    var s := RunOf(start, [Ran(c, Unnoted(map[f := v], true)), Ran(c, Assign(map[g := w], {}))]);
    EarliestWins(s.live, s.modified, {}, c, f);
    EarliestWins(s.live, s.modified, {}, c, g);
    assert s.modified[..0] == [];
  }

  lemma RenameAndAssign(start: World, c: int, f: string, v: Value, g: string, w: Value)
    requires c in start && f != STREAMS && g != STREAMS && f != g
    ensures var s := RunOf(start, [Ran(c, Unnoted(map[f := v], true)), Ran(c, Assign(map[g := w], {}))]);
            && s.modified == [Modified(ChannelEntity, c, map[g := Get(start, c, g)])]
            && c in s.live && Get(s.live, c, f) == v
  {
    var first, second := Ran(c, Unnoted(map[f := v], true)), Ran(c, Assign(map[g := w], {}));
    var steps := [first, second];
    assert steps[..0] == [] && steps[..2] == steps;
    StepMore(start, steps, 0);
    StepMore(start, steps, 1);
    var s := RunOf(start, steps[..1]);
    assert f in first.action.updates && g in second.action.updates;
    assert Effective(start, c, first.action);
    assert s.modified == [] && s.live == s.cache == Write(start, c, map[f := v]);
    assert Effective(s.cache, c, second.action);
    assert Previous(s.cache, c, second.action) == map[g := Get(start, c, g)];
  }
}
