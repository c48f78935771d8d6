/** Channel-health events: each is counted once, though every poll reads a window of the same feed
    (`_collect_channel_events` in backend/bandwidth_tracker.py). */
module EventIngest {
  import opened Common

  datatype Kind = Buffering | Reconnect | Error | StreamSwitch | Noise

  datatype Event = Event(kind: Kind, id: Option<int>, channel: Option<string>)

  /** An event counted towards a channel. */
  datatype Attribution = Attribution(id: int, channel: string, kind: Kind)

  /** Is the event looked up at all? */
  predicate Relevant(e: Event) {
    e.kind != Noise && e.id.Some?
  }

  predicate Mapped(e: Event, snapshot: set<string>) {
    e.channel.Some? && e.channel.value in snapshot
  }

  // ----- the ids seen, oldest first

  function Trim(seen: seq<int>, cap: nat): (r: seq<int>)
    ensures |r| <= cap && |r| <= |seen|
  {
    if |seen| > cap then seen[|seen| - cap..] else seen
  }

  function Bump(seen: seq<int>, id: int): seq<int> {
    Remove(seen, id) + [id]
  }

  /** What one event does to the ids seen. */
  function SeenAfter(seen: seq<int>, cap: nat, snapshot: set<string>, e: Event): seq<int> {
    if !Relevant(e) then seen
    else if e.id.value in seen then Bump(seen, e.id.value)
    else if !Mapped(e, snapshot) then Trim(seen + [e.id.value], cap)
    else seen + [e.id.value]
  }

  function Counted(known: bool, snapshot: set<string>, e: Event): seq<Attribution> {
    if Relevant(e) && !known && Mapped(e, snapshot) then [Attribution(e.id.value, e.channel.value, e.kind)] else []
  }

  function IsKnown(seen: seq<int>, e: Event): bool {
    e.id.Some? && e.id.value in seen
  }

  datatype Ingested = Ingested(seen: seq<int>, counted: seq<Attribution>)

  function Ingest(seen: seq<int>, cap: nat, snapshot: set<string>, events: seq<Event>): Ingested {
    if events == [] then Ingested(seen, []) else
      var before := Ingest(seen, cap, snapshot, events[..|events| - 1]);
      var e := events[|events| - 1];
      Ingested(SeenAfter(before.seen, cap, snapshot, e),
               before.counted + Counted(IsKnown(before.seen, e), snapshot, e))
  }

  /** How many of these events of a kind are counted towards a channel. */
  function Tally(counted: seq<Attribution>, channel: string, kind: Kind): nat {
    if counted == [] then 0 else
      Tally(counted[..|counted| - 1], channel, kind) +
      (if counted[|counted| - 1].channel == channel && counted[|counted| - 1].kind == kind then 1 else 0)
  }

  type Counts = map<string, map<Kind, nat>>

  function CountOf(counts: Counts, channel: string, kind: Kind): nat {
    if channel in counts && kind in counts[channel] then counts[channel][kind] else 0
  }

  class EventWindow {
    var seen: seq<int>
    const cap: nat

    constructor (cap: nat)
      ensures seen == [] && this.cap == cap
    {
      seen := [];
      this.cap := cap;
    }

    /** `response` is `None` when the request raised. */
    method CollectChannelEvents(snapshot: set<string>, response: Option<seq<Event>>) returns (counts: Counts)
      modifies this`seen
      ensures snapshot == {} || response.None? ==> seen == old(seen) && counts == map[]
      ensures snapshot != {} && response.Some? ==>
        var r := Ingest(old(seen), cap, snapshot, response.value);
        && seen == Trim(r.seen, cap)
        && forall c, k :: CountOf(counts, c, k) == Tally(r.counted, c, k)
    {
      counts := map[];
      if snapshot == {} || response.None? { return; }
      var events := response.value;
      ghost var start := seen;
      for i := 0 to |events|
        invariant seen == Ingest(start, cap, snapshot, events[..i]).seen
        invariant forall c, k :: CountOf(counts, c, k) == Tally(Ingest(start, cap, snapshot, events[..i]).counted, c, k)
      {
        var e := events[i];
        assert events[..i + 1][..i] == events[..i];
        ghost var counted := Ingest(start, cap, snapshot, events[..i]).counted;
        if Relevant(e) {
          var id := e.id.value;
          if id in seen {
            seen := Bump(seen, id);
          } else if !Mapped(e, snapshot) {
            seen := Trim(seen + [id], cap);
          } else {
            counts := OneMore(counts, e.channel.value, e.kind);
            seen := seen + [id];
            var a := Attribution(id, e.channel.value, e.kind);
            assert (counted + [a])[..|counted|] == counted;
          }
        }
        assert counted + [] == counted;
      }
      assert events[..|events|] == events;
      seen := Trim(seen, cap);
    }
  }

  function OneMore(counts: Counts, channel: string, kind: Kind): (r: Counts)
    ensures forall c, k :: CountOf(r, c, k) == CountOf(counts, c, k) + if c == channel && k == kind then 1 else 0
  {
    var inner := if channel in counts then counts[channel] else map[];
    counts[channel := inner[kind := CountOf(counts, channel, kind) + 1]]
  }

  // ----- the same with a memory that never forgets

  datatype Remembered = Remembered(known: set<int>, counted: seq<Attribution>)

  function Remember(known: set<int>, snapshot: set<string>, events: seq<Event>): Remembered {
    if events == [] then Remembered(known, []) else
      var before := Remember(known, snapshot, events[..|events| - 1]);
      var e := events[|events| - 1];
      Remembered(if Relevant(e) then before.known + {e.id.value} else before.known,
                 before.counted + Counted(e.id.Some? && e.id.value in before.known, snapshot, e))
  }

  /** The ids of a feed that are looked up. */
  function FeedIds(events: seq<Event>): set<int> {
    set e | e in events && Relevant(e) :: e.id.value
  }

  /** A poll that read nothing, or one that fetched a feed for a non-empty snapshot. */
  datatype Poll = NoFetch | Fetch(snapshot: set<string>, events: seq<Event>)

  function RunBounded(cap: nat, run: seq<Poll>): Ingested {
    if run == [] then Ingested([], []) else
      var before, poll := RunBounded(cap, run[..|run| - 1]), run[|run| - 1];
      if poll.NoFetch? then before else
        var r := Ingest(before.seen, cap, poll.snapshot, poll.events);
        Ingested(Trim(r.seen, cap), before.counted + r.counted)
  }

  function RunUnbounded(run: seq<Poll>): Remembered {
    if run == [] then Remembered({}, []) else
      var before, poll := RunUnbounded(run[..|run| - 1]), run[|run| - 1];
      if poll.NoFetch? then before else
        var r := Remember(before.known, poll.snapshot, poll.events);
        Remembered(r.known, before.counted + r.counted)
  }

  predicate InFeed(poll: Poll, id: int) {
    poll.Fetch? && id in FeedIds(poll.events)
  }

  /** Once gone from the feed, an id does not come back. */
  ghost predicate Contiguous(run: seq<Poll>) {
    forall a, b, c, id :: 0 <= a < b < c < |run| && run[b].Fetch? && InFeed(run[a], id) && InFeed(run[c], id) ==>
      InFeed(run[b], id)
  }

  ghost predicate FeedsAtMost(run: seq<Poll>, w: nat) {
    forall k :: 0 <= k < |run| && run[k].Fetch? ==> |FeedIds(run[k].events)| <= w
  }

  // ----- nothing needed is evicted

  /** `x` is in `seen` with only members of `s` after it. */
  ghost predicate Recent(seen: seq<int>, x: int, s: set<int>) {
    exists i :: 0 <= i < |seen| && seen[i] == x && forall j :: i < j < |seen| ==> seen[j] in s
  }

  lemma PushRecent(seen: seq<int>, x: int, s: set<int>, y: int)
    requires Recent(seen, x, s)
    ensures Recent(seen + [y], x, s + {y})
  {
    var i :| 0 <= i < |seen| && seen[i] == x && forall j :: i < j < |seen| ==> seen[j] in s;
    assert (seen + [y])[i] == x;
  }

  lemma {:induction false} RemoveRecent(seen: seq<int>, x: int, s: set<int>, y: int)
    requires Recent(seen, x, s) && x != y
    ensures Recent(Remove(seen, y), x, s)
  {
    var i :| 0 <= i < |seen| && seen[i] == x && forall j :: i < j < |seen| ==> seen[j] in s;
    var rest := seen[1..];
    if i > 0 {
      assert rest[i - 1] == x;
      assert Recent(rest, x, s) by {
        assert forall j :: i - 1 < j < |rest| ==> rest[j] == seen[j + 1];
      }
      RemoveRecent(rest, x, s, y);
      if seen[0] != y { FrontRecent(Remove(rest, y), x, s, seen[0]); }
    } else {
      var r := Remove(rest, y);
      forall j | 0 < j < |[x] + r| ensures ([x] + r)[j] in s {
        assert r[j - 1] in r;
        assert r[j - 1] in rest;
        var k :| 0 <= k < |rest| && rest[k] == r[j - 1];
        assert seen[k + 1] == rest[k];
      }
      assert ([x] + r)[0] == x;
    }
  }

  lemma FrontRecent(seen: seq<int>, x: int, s: set<int>, y: int)
    requires Recent(seen, x, s)
    ensures Recent([y] + seen, x, s)
  {
    var i :| 0 <= i < |seen| && seen[i] == x && forall j :: i < j < |seen| ==> seen[j] in s;
    assert ([y] + seen)[i + 1] == x;
    assert forall j :: i + 1 < j < |[y] + seen| ==> ([y] + seen)[j] == seen[j - 1];
  }

  lemma TrimRecent(seen: seq<int>, x: int, s: set<int>, cap: nat)
    requires Recent(seen, x, s) && NoDup(seen) && |s - {x}| < cap
    ensures Recent(Trim(seen, cap), x, s)
  {
    var i :| 0 <= i < |seen| && seen[i] == x && forall j :: i < j < |seen| ==> seen[j] in s;
    FewAfter(seen, x, s, i);
    var trimmed := Trim(seen, cap);
    var d := |seen| - |trimmed|;
    assert trimmed == seen[d..];
    assert trimmed[i - d] == x;
    forall j | i - d < j < |trimmed| ensures trimmed[j] in s {
      assert trimmed[j] == seen[j + d];
    }
  }

  lemma FewAfter(seen: seq<int>, x: int, s: set<int>, i: nat)
    requires NoDup(seen) && i < |seen| && seen[i] == x && forall j :: i < j < |seen| ==> seen[j] in s
    ensures |seen| - i - 1 <= |s - {x}|
  {
    var after := seen[i + 1..];
    var members := set y | y in after;
    assert NoDup(after);
    NoDupSize(after, members);
    forall y | y in members ensures y in s - {x} {
      var k :| 0 <= k < |after| && after[k] == y;
      assert seen[i + 1 + k] == y;
    }
    SubsetSize(members, s - {x});
  }

  lemma SetSum(a: set<int>, b: set<int>)
    ensures |a + b| <= |a| + |b|
  {
    assert a + b == a + (b - a);
  }

  /** Part way through a poll: everything read so far is recent, and so is everything of the previous
      feed (`previous`) still to be read. */
  ghost predicate MidPoll(seen: seq<int>, known: set<int>, previous: set<int>, read: set<int>, feed: set<int>) {
    && NoDup(seen)
    && (forall x :: x in seen ==> x in known)
    && (forall x :: x in read ==> Recent(seen, x, read))
    && (forall x :: x in previous && x in feed && x !in read ==> Recent(seen, x, previous + read))
  }

  lemma RecentIn(seen: seq<int>, x: int, s: set<int>)
    requires Recent(seen, x, s)
    ensures x in seen
  {
  }

  lemma BumpRecent(seen: seq<int>, x: int, s: set<int>, y: int)
    requires x == y || Recent(seen, x, s)
    ensures Recent(Bump(seen, y), x, s + {y})
  {
    if x == y {
      assert Bump(seen, y)[|Remove(seen, y)|] == y;
    } else {
      RemoveRecent(seen, x, s, y);
      PushRecent(Remove(seen, y), x, s, y);
    }
  }

  lemma RemoveNothing(seen: seq<int>, y: int)
    requires y !in seen
    ensures Remove(seen, y) == seen
  {
    if seen != [] { RemoveNothing(seen[1..], y); }
  }

  lemma BumpKeeps(seen: seq<int>, known: set<int>, previous: set<int>, read: set<int>, feed: set<int>, y: int)
    requires MidPoll(seen, known, previous, read, feed)
    ensures MidPoll(Bump(seen, y), known + {y}, previous, read + {y}, feed)
  {
    forall x | x in read + {y} ensures Recent(Bump(seen, y), x, read + {y}) {
      BumpRecent(seen, x, read, y);
    }
    forall x | x in previous && x in feed && x !in read + {y}
      ensures Recent(Bump(seen, y), x, previous + (read + {y}))
    {
      BumpRecent(seen, x, previous + read, y);
      assert previous + read + {y} == previous + (read + {y});
    }
  }

  /** Evicting down to the cap part way through loses nothing the rest of the poll needs. */
  lemma TrimKeeps(seen: seq<int>, known: set<int>, previous: set<int>, read: set<int>, feed: set<int>, cap: nat, w: nat)
    requires MidPoll(seen, known, previous, read, feed) && read <= feed
    requires |previous| <= w && |feed| <= w && cap >= 2 * w - 1
    ensures MidPoll(Trim(seen, cap), known, previous, read, feed)
  {
    TrimNoDup(seen, cap);
    forall x | x in read ensures Recent(Trim(seen, cap), x, read) {
      RoomForRead(read, feed, x);
      TrimRecent(seen, x, read, cap);
    }
    forall x | x in previous && x in feed && x !in read ensures Recent(Trim(seen, cap), x, previous + read) {
      RoomForPrevious(previous, read, feed, x);
      TrimRecent(seen, x, previous + read, cap);
    }
  }

  lemma TrimNoDup(seen: seq<int>, cap: nat)
    requires NoDup(seen)
    ensures NoDup(Trim(seen, cap)) && forall x :: x in Trim(seen, cap) ==> x in seen
  {
  }

  lemma RoomForRead(read: set<int>, feed: set<int>, x: int)
    requires read <= feed && x in read
    ensures |read - {x}| < |feed|
  {
    SubsetSize(read, feed);
    assert |read - {x}| == |read| - 1;
  }

  lemma RoomForPrevious(previous: set<int>, read: set<int>, feed: set<int>, x: int)
    requires read <= feed && x in previous && x in feed && x !in read
    ensures |(previous + read) - {x}| <= |previous| + |feed| - 2
  {
    SubsetSize(read, feed - {x});
    SetSum(previous - {x}, read);
    assert (previous + read) - {x} == (previous - {x}) + read;
    assert |previous - {x}| == |previous| - 1 && |feed - {x}| == |feed| - 1;
  }

  lemma OneEvent(seen: seq<int>, known: set<int>, previous: set<int>, read: set<int>, feed: set<int>, cap: nat, w: nat,
                 snapshot: set<string>, e: Event)
    requires MidPoll(seen, known, previous, read, feed) && read <= feed
    requires |previous| <= w && |feed| <= w && cap >= 2 * w - 1
    requires Relevant(e) && e.id.value in feed
    requires e.id.value in known ==> e.id.value in previous || e.id.value in read
    ensures IsKnown(seen, e) <==> e.id.value in known
    ensures MidPoll(SeenAfter(seen, cap, snapshot, e), known + {e.id.value}, previous, read + {e.id.value}, feed)
  {
    var y := e.id.value;
    if y in known {
      if y in read { RecentIn(seen, y, read); } else { RecentIn(seen, y, previous + read); }
    }
    BumpKeeps(seen, known, previous, read, feed, y);
    if y !in seen {
      RemoveNothing(seen, y);
      TrimKeeps(seen + [y], known + {y}, previous, read + {y}, feed, cap, w);
    }
  }

  lemma FeedIdsOf(events: seq<Event>, i: nat)
    requires i < |events|
    ensures FeedIds(events[..i + 1]) ==
            if Relevant(events[i]) then FeedIds(events[..i]) + {events[i].id.value} else FeedIds(events[..i])
    ensures FeedIds(events[..i]) <= FeedIds(events)
    ensures Relevant(events[i]) ==> events[i].id.value in FeedIds(events)
  {
    assert events[..i + 1] == events[..i] + [events[i]];
    assert forall e :: e in events[..i] ==> e in events;
    assert events[i] in events;
  }

  lemma PollStep(r: Ingested, m: Remembered, known: set<int>, previous: set<int>, read: set<int>, feed: set<int>,
                 cap: nat, w: nat, snapshot: set<string>, e: Event)
    requires MidPoll(r.seen, m.known, previous, read, feed) && read <= feed
    requires |previous| <= w && |feed| <= w && cap >= 2 * w - 1
    requires m.known == known + read && (forall x :: x in known && x in feed ==> x in previous)
    requires Relevant(e) ==> e.id.value in feed
    ensures Counted(IsKnown(r.seen, e), snapshot, e) == Counted(e.id.Some? && e.id.value in m.known, snapshot, e)
    ensures var read' := if Relevant(e) then read + {e.id.value} else read;
            var known' := if Relevant(e) then m.known + {e.id.value} else m.known;
            known' == known + read' && MidPoll(SeenAfter(r.seen, cap, snapshot, e), known', previous, read', feed)
  {
    if Relevant(e) {
      var y := e.id.value;
      assert y in known && y in feed ==> y in previous;
      assert y in m.known ==> y in known || y in read by { assert m.known == known + read; }
      OneEvent(r.seen, m.known, previous, read, feed, cap, w, snapshot, e);
      assert m.known + {e.id.value} == known + (read + {e.id.value});
    }
  }

  lemma IngestLast(seen: seq<int>, known: set<int>, cap: nat, snapshot: set<string>, events: seq<Event>)
    requires events != []
    ensures var r := Ingest(seen, cap, snapshot, events[..|events| - 1]);
            var m := Remember(known, snapshot, events[..|events| - 1]);
            var e := events[|events| - 1];
            && Ingest(seen, cap, snapshot, events) ==
               Ingested(SeenAfter(r.seen, cap, snapshot, e), r.counted + Counted(IsKnown(r.seen, e), snapshot, e))
            && Remember(known, snapshot, events) ==
               Remembered(if Relevant(e) then m.known + {e.id.value} else m.known,
                          m.counted + Counted(e.id.Some? && e.id.value in m.known, snapshot, e))
  {
  }

  /** How a poll stands that has read these events of a feed. */
  ghost predicate PollStands(r: Ingested, m: Remembered, known: set<int>, previous: set<int>, read: set<int>,
                             feed: set<int>) {
    m.known == known + read && r.counted == m.counted && MidPoll(r.seen, m.known, previous, read, feed)
  }

  lemma {:induction false} WholePoll(seen: seq<int>, known: set<int>, previous: set<int>, cap: nat, w: nat,
                                     snapshot: set<string>, events: seq<Event>, feed: set<int>)
    requires FeedIds(events) <= feed && MidPoll(seen, known, previous, {}, feed)
    requires |previous| <= w && |feed| <= w && cap >= 2 * w - 1
    requires forall x :: x in known && x in feed ==> x in previous
    ensures PollStands(Ingest(seen, cap, snapshot, events), Remember(known, snapshot, events), known, previous,
                       FeedIds(events), feed)
  {
    if events == [] {
      assert FeedIds(events) == {} && known + {} == known;
    } else {
      var n := |events| - 1;
      var e, read := events[n], FeedIds(events[..n]);
      FeedIdsOf(events, n);
      assert events[..n + 1] == events;
      assert read <= feed && (Relevant(e) ==> e.id.value in feed);
      WholePoll(seen, known, previous, cap, w, snapshot, events[..n], feed);
      IngestLast(seen, known, cap, snapshot, events);
      OneMoreRead(Ingest(seen, cap, snapshot, events[..n]), Remember(known, snapshot, events[..n]),
                  known, previous, read, feed, cap, w, snapshot, e);
    }
  }

  lemma OneMoreRead(r: Ingested, m: Remembered, known: set<int>, previous: set<int>, read: set<int>, feed: set<int>,
                    cap: nat, w: nat, snapshot: set<string>, e: Event)
    requires PollStands(r, m, known, previous, read, feed) && read <= feed
    requires |previous| <= w && |feed| <= w && cap >= 2 * w - 1
    requires (forall x :: x in known && x in feed ==> x in previous) && (Relevant(e) ==> e.id.value in feed)
    ensures PollStands(Ingested(SeenAfter(r.seen, cap, snapshot, e),
                                r.counted + Counted(IsKnown(r.seen, e), snapshot, e)),
                       Remembered(if Relevant(e) then m.known + {e.id.value} else m.known,
                                  m.counted + Counted(e.id.Some? && e.id.value in m.known, snapshot, e)),
                       known, previous, if Relevant(e) then read + {e.id.value} else read, feed)
  {
    PollStep(r, m, known, previous, read, feed, cap, w, snapshot, e);
  }

  /** The ids of the last feed fetched. */
  function LastFeed(run: seq<Poll>): set<int> {
    if run == [] then {}
    else if run[|run| - 1].Fetch? then FeedIds(run[|run| - 1].events)
    else LastFeed(run[..|run| - 1])
  }

  lemma {:induction false} KnownWasInFeed(run: seq<Poll>, x: int)
    ensures x in RunUnbounded(run).known <==> exists k :: 0 <= k < |run| && InFeed(run[k], x)
  {
    if run != [] {
      var earlier, poll := run[..|run| - 1], run[|run| - 1];
      KnownWasInFeed(earlier, x);
      if poll.Fetch? { RememberKnown(RunUnbounded(earlier).known, poll.snapshot, poll.events); }
      if k :| 0 <= k < |run| && InFeed(run[k], x) {
        if k < |earlier| { assert InFeed(earlier[k], x); }
      }
      if k :| 0 <= k < |earlier| && InFeed(earlier[k], x) { assert InFeed(run[k], x); }
    }
  }

  lemma {:induction false} RememberKnown(known: set<int>, snapshot: set<string>, events: seq<Event>)
    ensures Remember(known, snapshot, events).known == known + FeedIds(events)
  {
    if events != [] {
      RememberKnown(known, snapshot, events[..|events| - 1]);
      FeedIdsOf(events, |events| - 1);
      assert events[..|events|] == events;
    }
  }

  /** An id of the feed about to be read that was seen before was in the last feed. */
  lemma {:induction false} SeenBeforeWasLast(run: seq<Poll>, n: nat, c: nat, x: int)
    requires n <= c < |run| && Contiguous(run) && InFeed(run[c], x)
    requires forall k :: n <= k < c ==> run[k].NoFetch?
    requires exists k :: 0 <= k < n && InFeed(run[k], x)
    ensures x in LastFeed(run[..n])
  {
    assert run[..n][..n - 1] == run[..n - 1];
    if run[n - 1].NoFetch? {
      SeenBeforeWasLast(run, n - 1, c, x);
    } else {
      var k :| 0 <= k < n && InFeed(run[k], x);
      if k < n - 1 { assert InFeed(run[n - 1], x); }
    }
  }

  lemma {:induction false} LastFeedSize(run: seq<Poll>, w: nat)
    requires FeedsAtMost(run, w)
    ensures |LastFeed(run)| <= w
  {
    if run != [] && run[|run| - 1].NoFetch? { LastFeedSize(run[..|run| - 1], w); }
  }

  lemma KnownIsLast(run: seq<Poll>, n: nat)
    requires n < |run| && Contiguous(run) && run[n].Fetch?
    ensures forall x :: x in RunUnbounded(run[..n]).known && x in FeedIds(run[n].events) ==> x in LastFeed(run[..n])
  {
    forall x | x in RunUnbounded(run[..n]).known && x in FeedIds(run[n].events) ensures x in LastFeed(run[..n]) {
      KnownWasInFeed(run[..n], x);
      var k :| 0 <= k < n && InFeed(run[..n][k], x);
      assert InFeed(run[k], x);
      SeenBeforeWasLast(run, n, n, x);
    }
  }

  /** With a cap of twice the feed's size less one, the bounded memory counts over a whole run exactly
      what a memory that never forgets would. */
  lemma {:induction false} BoundedRefinesUnbounded(run: seq<Poll>, n: nat, cap: nat, w: nat)
    requires n <= |run| && Contiguous(run) && FeedsAtMost(run, w) && cap >= 2 * w - 1
    ensures RunBounded(cap, run[..n]).counted == RunUnbounded(run[..n]).counted
    ensures var last := LastFeed(run[..n]);
            MidPoll(RunBounded(cap, run[..n]).seen, RunUnbounded(run[..n]).known, {}, last, last)
  {
    if n > 0 {
      BoundedRefinesUnbounded(run, n - 1, cap, w);
      assert run[..n][..n - 1] == run[..n - 1];
      var poll := run[n - 1];
      if poll.Fetch? {
        var before, known, previous :=
          RunBounded(cap, run[..n - 1]), RunUnbounded(run[..n - 1]).known, LastFeed(run[..n - 1]);
        var events := poll.events;
        LastFeedSize(run[..n - 1], w);
        KnownIsLast(run, n - 1);
        assert previous + {} == previous;
        WholePoll(before.seen, known, previous, cap, w, poll.snapshot, events, FeedIds(events));
        var feed := FeedIds(events);
        var r := Ingest(before.seen, cap, poll.snapshot, events);
        assert MidPoll(r.seen, known + feed, {}, feed, feed);
        TrimKeeps(r.seen, known + feed, {}, feed, feed, cap, w);
      }
    }
  }

  // ----- which is once each

  ghost predicate OncePerId(counted: seq<Attribution>) {
    forall i, j :: 0 <= i < j < |counted| ==> counted[i].id != counted[j].id
  }

  lemma {:induction false} RememberOnce(known: set<int>, snapshot: set<string>, events: seq<Event>)
    ensures var m := Remember(known, snapshot, events);
            && OncePerId(m.counted) && known <= m.known
            && forall i :: 0 <= i < |m.counted| ==> m.counted[i].id !in known && m.counted[i].id in m.known
  {
    if events != [] { RememberOnce(known, snapshot, events[..|events| - 1]); }
  }

  lemma {:induction false} UnboundedOnce(run: seq<Poll>)
    ensures OncePerId(RunUnbounded(run).counted)
    ensures forall i :: 0 <= i < |RunUnbounded(run).counted| ==>
              RunUnbounded(run).counted[i].id in RunUnbounded(run).known
  {
    if run != [] {
      var earlier, poll := run[..|run| - 1], run[|run| - 1];
      UnboundedOnce(earlier);
      if poll.Fetch? { RememberOnce(RunUnbounded(earlier).known, poll.snapshot, poll.events); }
    }
  }

  /** No event is counted twice in a run. */
  lemma ExactlyOnce(run: seq<Poll>, cap: nat, w: nat)
    requires Contiguous(run) && FeedsAtMost(run, w) && cap >= 2 * w - 1
    ensures OncePerId(RunBounded(cap, run).counted)
  {
    BoundedRefinesUnbounded(run, |run|, cap, w);
    assert run[..|run|] == run;
    UnboundedOnce(run);
  }

  // ----- which events are counted, said of the feeds alone

  /** The event is of a kind that is looked for, and has this id. */
  ghost predicate Sights(e: Event, id: int) {
    e.kind != Noise && e.id == Some(id)
  }

  /** It is what was counted: of that id, kind and channel, which the snapshot has. */
  ghost predicate IsOf(e: Event, snapshot: set<string>, a: Attribution) {
    Sights(e, a.id) && e.kind == a.kind && e.channel == Some(a.channel) && a.channel in snapshot
  }

  /** The `i`th event is the first of the feed with this id. */
  ghost predicate FirstIn(events: seq<Event>, i: nat, id: int) {
    i < |events| && Sights(events[i], id) && forall j :: 0 <= j < i ==> !Sights(events[j], id)
  }

  ghost predicate FirstIs(events: seq<Event>, i: nat, snapshot: set<string>, a: Attribution) {
    FirstIn(events, i, a.id) && IsOf(events[i], snapshot, a)
  }

  lemma {:induction false} FeedIdsAre(events: seq<Event>, id: int)
    ensures id in FeedIds(events) <==> exists i: nat :: FirstIn(events, i, id)
  {
    if events == [] {
      assert FeedIds(events) == {};
    } else {
      var n := |events| - 1;
      FeedIdsAre(events[..n], id);
      FeedIdsOf(events, n);
      assert events[..n + 1] == events;
      forall i: nat
        ensures FirstIn(events, i, id) <==>
                  FirstIn(events[..n], i, id) || (i == n && Sights(events[n], id) && id !in FeedIds(events[..n]))
      {
        FirstMore(events, i, id);
      }
      assert Sights(events[n], id) && id !in FeedIds(events[..n]) ==> FirstIn(events, n, id);
    }
  }

  lemma FirstMore(events: seq<Event>, i: nat, id: int)
    requires events != []
    ensures var n := |events| - 1;
            FirstIn(events, i, id) <==>
              || FirstIn(events[..n], i, id)
              || (i == n && Sights(events[n], id) && id !in FeedIds(events[..n]))
  {
    var n := |events| - 1;
    assert forall j :: 0 <= j < n ==> events[..n][j] == events[j];
    if id in FeedIds(events[..n]) {
      var e :| e in events[..n] && Relevant(e) && e.id.value == id;
      var j :| 0 <= j < n && events[..n][j] == e;
      assert Sights(events[j], id);
    } else if j :| 0 <= j < n && Sights(events[j], id) {
      assert events[..n][j] in events[..n];
    }
  }

  lemma {:induction false} RememberCounted(known: set<int>, snapshot: set<string>, events: seq<Event>, a: Attribution)
    ensures a in Remember(known, snapshot, events).counted <==>
              a.id !in known && exists i: nat :: FirstIs(events, i, snapshot, a)
  {
    if events != [] {
      var n := |events| - 1;
      RememberCounted(known, snapshot, events[..n], a);
      RememberKnown(known, snapshot, events[..n]);
      forall i: nat
        ensures FirstIs(events, i, snapshot, a) <==>
                  || FirstIs(events[..n], i, snapshot, a)
                  || (i == n && IsOf(events[n], snapshot, a) && a.id !in FeedIds(events[..n]))
      {
        FirstMore(events, i, a.id);
      }
      assert IsOf(events[n], snapshot, a) && a.id !in FeedIds(events[..n]) ==> FirstIs(events, n, snapshot, a);
    }
  }

  /** The `i`th event of the `k`th poll is what was counted, and no earlier poll read one of its id. */
  ghost predicate FirstSight(run: seq<Poll>, k: nat, i: nat, a: Attribution) {
    && k < |run| && run[k].Fetch? && FirstIs(run[k].events, i, run[k].snapshot, a)
    && forall j :: 0 <= j < k && run[j].Fetch? ==> forall m: nat :: !FirstIn(run[j].events, m, a.id)
  }

  lemma {:induction false} UnboundedCounted(run: seq<Poll>, a: Attribution)
    ensures a in RunUnbounded(run).counted <==> exists k: nat, i: nat :: FirstSight(run, k, i, a)
  {
    if run != [] {
      var n := |run| - 1;
      UnboundedCounted(run[..n], a);
      var known := RunUnbounded(run[..n]).known;
      if run[n].Fetch? { RememberCounted(known, run[n].snapshot, run[n].events, a); }
      forall k: nat, i: nat
        ensures FirstSight(run, k, i, a) <==>
                  || FirstSight(run[..n], k, i, a)
                  || (k == n && run[n].Fetch? && a.id !in known && FirstIs(run[n].events, i, run[n].snapshot, a))
      {
        FirstSightMore(run, k, i, a);
      }
      if a.id !in known && run[n].Fetch? {
        assert forall i: nat :: FirstIs(run[n].events, i, run[n].snapshot, a) ==> FirstSight(run, n, i, a);
      }
    }
  }

  lemma FirstSightMore(run: seq<Poll>, k: nat, i: nat, a: Attribution)
    requires run != []
    ensures var n := |run| - 1;
            FirstSight(run, k, i, a) <==>
              || FirstSight(run[..n], k, i, a)
              || (k == n && run[n].Fetch? && a.id !in RunUnbounded(run[..n]).known &&
                  FirstIs(run[n].events, i, run[n].snapshot, a))
  {
    var n := |run| - 1;
    assert forall j :: 0 <= j < n ==> run[..n][j] == run[j];
    if k == n {
      KnownWasInFeed(run[..n], a.id);
      forall j | 0 <= j < n && run[j].Fetch?
        ensures InFeed(run[j], a.id) <==> exists m: nat :: FirstIn(run[j].events, m, a.id)
      {
        FeedIdsAre(run[j].events, a.id);
      }
    }
  }

  /** So with a cap large enough an event is counted in a run exactly when it is the first of its id that any poll
      read, and its channel was then in the snapshot. */
  lemma CountedIff(run: seq<Poll>, cap: nat, w: nat, a: Attribution)
    requires Contiguous(run) && FeedsAtMost(run, w) && cap >= 2 * w - 1
    ensures a in RunBounded(cap, run).counted <==> exists k: nat, i: nat :: FirstSight(run, k, i, a)
  {
    BoundedRefinesUnbounded(run, |run|, cap, w);
    assert run[..|run|] == run;
    UnboundedCounted(run, a);
  }

  /** Whatever the cap and the feeds, what is counted in a poll is an event of its feed, with that event's own id,
      kind and channel. */
  lemma {:induction false} CountedIsRead(seen: seq<int>, cap: nat, snapshot: set<string>, events: seq<Event>,
                                         a: Attribution)
    ensures a in Ingest(seen, cap, snapshot, events).counted ==> exists e :: e in events && IsOf(e, snapshot, a)
  {
    if events != [] {
      var n := |events| - 1;
      CountedIsRead(seen, cap, snapshot, events[..n], a);
      assert events[n] in events;
      assert forall e :: e in events[..n] ==> e in events;
    }
  }

  // ----- a smaller cap is too small

  function Ids(n: nat): (r: seq<int>)
    ensures |r| == n && forall i :: 0 <= i < n ==> r[i] == i + 1
  {
    seq(n, i => i + 1)
  }

  /** `w` events of a channel. */
  function FirstFeed(w: nat): (r: seq<Event>)
    ensures |r| == w && forall i :: 0 <= i < w ==> r[i] == Event(Error, Some(i + 1), Some("a"))
  {
    seq(w, i => Event(Error, Some(i + 1), Some("a")))
  }

  /** As many more, of no channel known, but for the first event of the first feed, which comes last. */
  function SecondFeed(w: nat): (r: seq<Event>)
    ensures |r| == w && forall i :: 0 <= i < w ==>
      r[i] == if i < w - 1 then Event(Error, Some(w + i + 1), None) else Event(Error, Some(1), Some("a"))
  {
    seq(w, i => if i < w - 1 then Event(Error, Some(w + i + 1), None) else Event(Error, Some(1), Some("a")))
  }

  lemma IngestMore(seen: seq<int>, cap: nat, snapshot: set<string>, events: seq<Event>, n: nat)
    requires n < |events|
    ensures var r := Ingest(seen, cap, snapshot, events[..n]);
            Ingest(seen, cap, snapshot, events[..n + 1]) ==
              Ingested(SeenAfter(r.seen, cap, snapshot, events[n]),
                       r.counted + Counted(IsKnown(r.seen, events[n]), snapshot, events[n]))
  {
    assert events[..n + 1][..n] == events[..n];
  }

  lemma {:induction false} FirstIngested(w: nat, cap: nat, n: nat)
    requires n <= w
    ensures var r := Ingest([], cap, {"a"}, FirstFeed(w)[..n]);
            r.seen == Ids(n) && |r.counted| == n && (n > 0 ==> r.counted[0].id == 1)
  {
    if n > 0 {
      FirstIngested(w, cap, n - 1);
      IngestMore([], cap, {"a"}, FirstFeed(w), n - 1);
      assert n !in Ids(n - 1);
      assert Ids(n - 1) + [n] == Ids(n);
    }
  }

  lemma TrimTrimmed(seen: seq<int>, cap: nat, x: int)
    ensures Trim(Trim(seen, cap) + [x], cap) == Trim(seen + [x], cap)
  {
  }

  lemma NewId(n: nat, cap: nat)
    ensures n + 1 !in Trim(Ids(n), cap)
  {
  }

  lemma UnmappedSeen(seen: seq<int>, cap: nat, e: Event, id: int)
    requires e == Event(Error, Some(id), None)
    ensures id !in seen ==> SeenAfter(seen, cap, {"a"}, e) == Trim(seen + [id], cap)
    ensures Counted(IsKnown(seen, e), {"a"}, e) == []
  {
  }

  /** The events are of no channel known, with the ids that come after `w`. */
  ghost predicate NextUnmapped(feed: seq<Event>, w: nat) {
    forall i :: 0 <= i < |feed| ==> feed[i] == Event(Error, Some(w + i + 1), None)
  }

  lemma {:induction false} UnmappedIngested(w: nat, cap: nat, seen: seq<int>, feed: seq<Event>)
    requires seen == Trim(Ids(w), cap) && NextUnmapped(feed, w)
    ensures Ingest(seen, cap, {"a"}, feed) == Ingested(Trim(Ids(w + |feed|), cap), [])
  {
    if feed == [] {
      assert w + |feed| == w;
    } else {
      var n := |feed| - 1;
      UnmappedIngested(w, cap, seen, feed[..n]);
      assert feed[n] == Event(Error, Some(w + n + 1), None) && w + |feed[..n]| == w + n && w + |feed| == w + n + 1;
      SecondStep(w, cap, n, feed[n]);
      IngestEnd(seen, cap, feed, Trim(Ids(w + n), cap), Trim(Ids(w + n + 1), cap), feed[n]);
    }
  }

  lemma IngestEnd(seen: seq<int>, cap: nat, feed: seq<Event>, before: seq<int>, after: seq<int>, e: Event)
    requires feed != [] && e == feed[|feed| - 1]
    requires Ingest(seen, cap, {"a"}, feed[..|feed| - 1]) == Ingested(before, [])
    requires SeenAfter(before, cap, {"a"}, e) == after && Counted(IsKnown(before, e), {"a"}, e) == []
    ensures Ingest(seen, cap, {"a"}, feed) == Ingested(after, [])
  {
  }

  lemma SecondStep(w: nat, cap: nat, n: nat, e: Event)
    requires e == Event(Error, Some(w + n + 1), None)
    ensures SeenAfter(Trim(Ids(w + n), cap), cap, {"a"}, e) == Trim(Ids(w + n + 1), cap)
    ensures Counted(IsKnown(Trim(Ids(w + n), cap), e), {"a"}, e) == []
  {
    UnmappedSeen(Trim(Ids(w + n), cap), cap, e, w + n + 1);
    NewId(w + n, cap);
    TrimTrimmed(Ids(w + n), cap, w + n + 1);
    assert Ids(w + n) + [w + n + 1] == Ids(w + n + 1);
  }

  /** By then the first event has been forgotten. */
  lemma CountedAgain(w: nat, cap: nat)
    requires w >= 1 && cap <= 2 * w - 2
    ensures Ingest(Trim(Ids(w), cap), cap, {"a"}, SecondFeed(w)).counted == [Attribution(1, "a", Error)]
  {
    UnmappedIngested(w, cap, Trim(Ids(w), cap), SecondFeed(w)[..w - 1]);
    assert SecondFeed(w)[w - 1] == Event(Error, Some(1), Some("a"));
    assert 1 !in Trim(Ids(w + w - 1), cap);
  }

  lemma {:induction false} FeedIdsFew(events: seq<Event>)
    ensures |FeedIds(events)| <= |events|
  {
    if events == [] {
      assert FeedIds(events) == {};
    } else {
      var n := |events| - 1;
      FeedIdsFew(events[..n]);
      FeedIdsOf(events, n);
      assert events[..n + 1] == events;
      SubsetSize(FeedIds(events), FeedIds(events[..n]) + if Relevant(events[n]) then {events[n].id.value} else {});
      SetSum(FeedIds(events[..n]), if Relevant(events[n]) then {events[n].id.value} else {});
    }
  }

  lemma TwoPolls(first: Poll, second: Poll, cap: nat)
    requires first.Fetch? && second.Fetch?
    ensures var a := Ingest([], cap, first.snapshot, first.events);
            RunBounded(cap, [first, second]).counted ==
            a.counted + Ingest(Trim(a.seen, cap), cap, second.snapshot, second.events).counted
  {
    assert [first, second][..1] == [first] && [first][..0] == [];
    assert RunBounded(cap, [first]).counted == Ingest([], cap, first.snapshot, first.events).counted;
  }

  lemma EndsRepeat(counted: seq<Attribution>)
    requires |counted| >= 2 && counted[0].id == counted[|counted| - 1].id
    ensures !OncePerId(counted)
  {
  }

  /** Any smaller cap is too small: an id is evicted before the poll reaches it, and is counted again. */
  lemma CapTooSmall(w: nat, cap: nat)
    requires w >= 1 && cap <= 2 * w - 2
    ensures var run := [Fetch({"a"}, FirstFeed(w)), Fetch({"a"}, SecondFeed(w))];
            FeedsAtMost(run, w) && Contiguous(run) && !OncePerId(RunBounded(cap, run).counted)
  {
    var first, second := Fetch({"a"}, FirstFeed(w)), Fetch({"a"}, SecondFeed(w));
    FirstIngested(w, cap, w);
    assert FirstFeed(w)[..w] == FirstFeed(w);
    CountedAgain(w, cap);
    TwoPolls(first, second, cap);
    EndsRepeat(RunBounded(cap, [first, second]).counted);
    TwoFeeds(first, second, w);
  }

  lemma TwoFeeds(first: Poll, second: Poll, w: nat)
    requires first.Fetch? && second.Fetch? && |first.events| <= w && |second.events| <= w
    ensures FeedsAtMost([first, second], w) && Contiguous([first, second])
  {
    FeedIdsFew(first.events);
    FeedIdsFew(second.events);
  }
}
