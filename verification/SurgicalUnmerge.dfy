/** Taking back only what a run merged (`_added_stream_ids` and `_journal_driven_unmerge` in
    backend/channel_pipeline_engine.py). */
module SurgicalUnmerge {
  import opened Common
  import opened RunHistory
  import opened ReverseReplay

  function Readable(s: Side): seq<int> {
    if s.Ids? then s.ids else []
  }

  /** What one merge added: after, without before.  Nothing, if either cannot be read. */
  function AddedStreamIds(before: Side, after: Side): (r: seq<int>)
    ensures forall x :: x in r ==> after.Ids? && x in after.ids && x !in Readable(before)
    ensures !before.Malformed? ==> forall x :: x in Readable(after) && x !in Readable(before) ==> x in r
  {
    if before.Malformed? || after.Malformed? then [] else
      var gone := IdSet(Readable(before));
      KeepMembers(Readable(after), gone);
      Keep(Readable(after), gone)
  }

  function IdSet(ids: seq<int>): (r: set<int>)
    ensures forall x :: x in r <==> x in ids
  {
    set x | x in ids
  }

  function AddedTo(entries: seq<Entry>, c: int): set<int> {
    if entries == [] then {} else
      var e := entries[|entries| - 1];
      AddedTo(entries[..|entries| - 1], c) +
      if e.channel == Some(c) then IdSet(AddedStreamIds(e.before, e.after)) else {}
  }

  lemma {:induction false} AddedByOne(entries: seq<Entry>, c: int, x: int)
    ensures x in AddedTo(entries, c) <==>
              exists k :: 0 <= k < |entries| && entries[k].channel == Some(c) &&
                          x in AddedStreamIds(entries[k].before, entries[k].after)
  {
    if entries != [] {
      var n := |entries| - 1;
      AddedByOne(entries[..n], c, x);
      assert forall k :: 0 <= k < n ==> entries[..n][k] == entries[k];
    }
  }

  /** What the un-merge makes of a channel. */
  function Unmerged(live: World, entries: seq<Entry>, failing: set<int>, c: int): seq<int> {
    if c in failing then StreamsOf(live, c) else Keep(StreamsOf(live, c), AddedTo(entries, c))
  }

  ghost function Changed(live: World, entries: seq<Entry>, failing: set<int>): set<int> {
    set c | c in live && Unmerged(live, entries, failing, c) != StreamsOf(live, c)
  }

  /** The entry says that the stream was added to the channel: it was there after, not before, and neither side is
      malformed. */
  ghost predicate Adds(e: Entry, c: int, x: int) {
    && e.channel == Some(c) && e.before != Malformed && e.after.Ids? && x in e.after.ids
    && (e.before.Ids? ==> x !in e.before.ids)
  }

  /** So the un-merge leaves a channel those of its streams that no entry says were added, or all of them if its
      calls fail, and in the order they were. */
  lemma UnmergedIff(live: World, entries: seq<Entry>, failing: set<int>, c: int)
    ensures var before, after := StreamsOf(live, c), Unmerged(live, entries, failing, c);
            && (forall x :: x in after <==>
                  x in before && (c in failing || forall k :: 0 <= k < |entries| ==> !Adds(entries[k], c, x)))
            && exists f: seq<int> :: InOrder(after, before, f)
  {
    var before, gone := StreamsOf(live, c), AddedTo(entries, c);
    forall x ensures x in gone <==> exists k :: 0 <= k < |entries| && Adds(entries[k], c, x) {
      AddedByOne(entries, c, x);
      forall e ensures Adds(e, c, x) <==> e.channel == Some(c) && x in AddedStreamIds(e.before, e.after) {}
    }
    KeepMembers(before, gone);
    var f := KeepInOrder(before, gone);
    var all := seq(|before|, i => i);
    assert InOrder(before, before, all);
  }

  /** `part` is `whole` at these ascending places. */
  ghost predicate InOrder(part: seq<int>, whole: seq<int>, f: seq<int>) {
    && |f| == |part| && Ascending(f)
    && forall i :: 0 <= i < |f| ==> 0 <= f[i] < |whole| && part[i] == whole[f[i]]
  }

  lemma {:induction false} KeepInOrder(s: seq<int>, gone: set<int>) returns (f: seq<int>)
    ensures InOrder(Keep(s, gone), s, f)
  {
    if s == [] { return []; }
    var n := |s| - 1;
    f := KeepInOrder(s[..n], gone);
    assert forall i :: 0 <= i < |f| ==> s[..n][f[i]] == s[f[i]];
    if s[n] !in gone { f := f + [n]; }
  }

  lemma OneMoreAdded(entries: seq<Entry>, k: nat)
    requires k < |entries|
    ensures var e := entries[k]; var ids := AddedStreamIds(e.before, e.after);
            forall c :: AddedTo(entries[..k + 1], c) ==
              if e.channel == Some(c) && ids != [] then AddedTo(entries[..k], c) + IdSet(ids)
              else AddedTo(entries[..k], c)
  {
    assert entries[..k + 1][..k] == entries[..k];
    var e := entries[k];
    var ids := AddedStreamIds(e.before, e.after);
    assert ids == [] ==> IdSet(ids) == {};
  }

  method CollectAdded(entries: seq<Entry>) returns (channels: seq<int>, added: map<int, set<int>>)
    ensures NoDup(channels) && forall c :: c in channels <==> c in added
    ensures forall c :: AddedTo(entries, c) == if c in added then added[c] else {}
  {
    channels, added := [], map[];
    for k := 0 to |entries|
      invariant NoDup(channels) && forall c :: c in channels <==> c in added
      invariant forall c :: AddedTo(entries[..k], c) == if c in added then added[c] else {}
    {
      var e := entries[k];
      OneMoreAdded(entries, k);
      var ids := AddedStreamIds(e.before, e.after);
      if e.channel.Some? && ids != [] {
        var c := e.channel.value;
        if c !in added { channels := channels + [c]; }
        added := added[c := (if c in added then added[c] else {}) + IdSet(ids)];
      }
    }
    assert entries[..|entries|] == entries;
  }

  /** One channel: its list is read as it is now, and written only if something goes. */
  method UnmergeChannel(live: World, c: int, added: set<int>, failing: set<int>) returns (live': World, touched: bool)
    ensures live'.Keys == live.Keys && forall d :: d in live && d != c ==> live'[d] == live[d]
    ensures forall f :: f != STREAMS ==> Get(live', c, f) == Get(live, c, f)
    ensures c in live ==>
              StreamsOf(live', c) == if c in failing then StreamsOf(live, c) else Keep(StreamsOf(live, c), added)
    ensures touched <==> c in live && StreamsOf(live', c) != StreamsOf(live, c)
  {
    live', touched := live, false;
    if c !in live || c in failing { return; }
    var current := StreamsOf(live, c);
    var remaining := Keep(current, added);
    if remaining != current {
      live', touched := Write(live, c, map[STREAMS := Streams(remaining)]), true;
    }
  }

  /** The channels of `done` have been un-merged, `changed` of them to some effect, and no others. */
  ghost predicate UnmergedSoFar(live: World, live': World, entries: seq<Entry>, failing: set<int>, done: seq<int>,
                                changed: set<int>) {
    && live'.Keys == live.Keys
    && (forall c :: c in live && c !in done ==> live'[c] == live[c])
    && (forall c :: c in live && c in done ==> StreamsOf(live', c) == Unmerged(live, entries, failing, c))
    && (forall c, f :: f != STREAMS ==> Get(live', c, f) == Get(live, c, f))
    && (forall c :: c in changed <==>
        c in live && c in done && Unmerged(live, entries, failing, c) != StreamsOf(live, c))
  }

  lemma AllUnmerged(live: World, live': World, entries: seq<Entry>, failing: set<int>, done: seq<int>,
                    changed: set<int>)
    requires UnmergedSoFar(live, live', entries, failing, done, changed)
    requires forall c :: c !in done ==> AddedTo(entries, c) == {}
    ensures forall c :: c in live ==> StreamsOf(live', c) == Unmerged(live, entries, failing, c)
    ensures changed == Changed(live, entries, failing)
  {
    forall c | c in live && c !in done
      ensures Unmerged(live, entries, failing, c) == StreamsOf(live, c) == StreamsOf(live', c)
    {
      KeepAll(StreamsOf(live, c), {});
    }
    assert forall c :: c in changed <==> c in Changed(live, entries, failing);
  }

  lemma NoneUnmerged(live: World, entries: seq<Entry>, failing: set<int>)
    ensures UnmergedSoFar(live, live, entries, failing, [], {})
  {
  }

  lemma UnmergedOneMore(live: World, live': World, live'': World, entries: seq<Entry>, failing: set<int>,
                        done: seq<int>, changed: set<int>, c: int, hit: bool)
    requires UnmergedSoFar(live, live', entries, failing, done, changed) && c !in done
    requires live''.Keys == live'.Keys && forall d :: d in live' && d != c ==> live''[d] == live'[d]
    requires forall f :: f != STREAMS ==> Get(live'', c, f) == Get(live', c, f)
    requires c in live' ==>
               StreamsOf(live'', c) == (if c in failing then StreamsOf(live', c)
                                        else Keep(StreamsOf(live', c), AddedTo(entries, c)))
    requires hit <==> c in live' && StreamsOf(live'', c) != StreamsOf(live', c)
    ensures UnmergedSoFar(live, live'', entries, failing, done + [c], if hit then changed + {c} else changed)
    ensures c !in changed
  {
    forall d, f | f != STREAMS
      ensures Get(live'', d, f) == Get(live, d, f)
    {
      assert Get(live', d, f) == Get(live, d, f);
    }
    assert c in live ==> StreamsOf(live', c) == StreamsOf(live, c);
  }

  method UnmergeNext(ghost live: World, now: World, ghost entries: seq<Entry>, added: map<int, set<int>>,
                     failing: set<int>, ghost done: seq<int>, ghost changed: set<int>, c: int)
    returns (live': World, hit: bool)
    requires UnmergedSoFar(live, now, entries, failing, done, changed) && c !in done
    requires c in added && added[c] == AddedTo(entries, c)
    ensures UnmergedSoFar(live, live', entries, failing, done + [c], if hit then changed + {c} else changed)
    ensures c !in changed
  {
    live', hit := UnmergeChannel(now, c, added[c], failing);
    UnmergedOneMore(live, now, live', entries, failing, done, changed, c, hit);
  }

  /** The read of the journal is `None` when it fails; `failing` are channels whose own calls fail. */
  method JournalDrivenUnmerge(page: Option<seq<Entry>>, live: World, failing: set<int>)
    returns (handled: bool, touched: nat, live': World)
    ensures handled <==> page.Some? && page.value != []
    ensures !handled ==> touched == 0 && live' == live
    ensures live'.Keys == live.Keys
    ensures handled ==> touched == |Changed(live, page.value, failing)|
    ensures handled ==> forall c :: c in live ==> StreamsOf(live', c) == Unmerged(live, page.value, failing, c)
    ensures forall c, f :: f != STREAMS ==> Get(live', c, f) == Get(live, c, f)
  {
    live', touched := live, 0;
    if page.None? || page.value == [] { return false, 0, live; }
    handled := true;
    var channels, added := CollectAdded(page.value);
    ghost var changed: set<int> := {};
    NoneUnmerged(live, page.value, failing);
    assert channels[..0] == [];
    for k := 0 to |channels|
      invariant UnmergedSoFar(live, live', page.value, failing, channels[..k], changed)
      invariant touched == |changed|
    {
      var c := channels[k];
      assert channels[..k + 1] == channels[..k] + [c];
      assert c in channels && c in added && added[c] == AddedTo(page.value, c);
      var hit;
      live', hit := UnmergeNext(live, live', page.value, added, failing, channels[..k], changed, c);
      if hit { touched, changed := touched + 1, changed + {c}; }
    }
    assert channels[..|channels|] == channels;
    AllUnmerged(live, live', page.value, failing, channels, changed);
  }

  /** Doing it again changes nothing more. */
  lemma UnmergeTwice(live: World, live': World, entries: seq<Entry>, c: int)
    requires StreamsOf(live', c) == Unmerged(live, entries, {}, c)
    ensures Unmerged(live', entries, {}, c) == StreamsOf(live', c)
  {
    KeepTwice(StreamsOf(live, c), AddedTo(entries, c));
  }
}
