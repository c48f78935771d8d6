/** Emptying a channel group while others keep editing (backend/channel_group_reparent.py). */
module GroupReparent {
  import opened Common

  datatype Channel = Channel(id: int, group: Option<int>, name: Option<string>)

  /** What somebody else may do to a channel. */
  datatype Edit = Move(id: int, group: Option<int>) | Delete(id: int) | Create(channel: Channel)

  /** What a re-read says: nothing, because it failed; nothing, because it has no group in it; or a group. */
  datatype Answer = NoAnswer | NoGroup | In(group: Option<int>)

  /** What happened upstream, in order.  A PATCH that lands need not return. */
  datatype Event = Edited(edit: Edit) | Reread(id: int, answer: Answer) | Patched(id: int, to: int, returned: bool)

  // ----- the channels upstream

  ghost predicate Distinct(channels: seq<Channel>) {
    forall i, j :: 0 <= i < j < |channels| ==> channels[i].id != channels[j].id
  }

  function Find(channels: seq<Channel>, id: int): (r: Option<Channel>)
    ensures r.Some? ==> r.value in channels && r.value.id == id
    ensures r.None? <==> forall c :: c in channels ==> c.id != id
  {
    if channels == [] then None
    else if channels[0].id == id then Some(channels[0])
    else
      var r := Find(channels[1..], id);
      assert forall c :: c in channels <==> c == channels[0] || c in channels[1..];
      r
  }

  lemma {:induction false} FindIsAll(channels: seq<Channel>, c: Channel)
    requires Distinct(channels) && c in channels
    ensures Find(channels, c.id) == Some(c)
  {
    if channels[0] != c {
      var k :| 0 <= k < |channels| && channels[k] == c;
      assert channels[0].id != channels[k].id;
      FindIsAll(channels[1..], c);
    }
  }

  function SetGroup(channels: seq<Channel>, id: int, group: Option<int>): (r: seq<Channel>)
    ensures |r| == |channels| && forall k :: 0 <= k < |r| ==> r[k].id == channels[k].id
    ensures forall k :: 0 <= k < |r| ==>
              r[k] == if channels[k].id == id then channels[k].(group := group) else channels[k]
  {
    seq(|channels|, k requires 0 <= k < |channels| =>
      if channels[k].id == id then channels[k].(group := group) else channels[k])
  }

  function Without(channels: seq<Channel>, id: int): (r: seq<Channel>)
    ensures forall c :: c in r <==> c in channels && c.id != id
  {
    if channels == [] then []
    else
      var r := Without(channels[1..], id);
      assert forall c :: c in channels <==> c == channels[0] || c in channels[1..];
      if channels[0].id == id then r else [channels[0]] + r
  }

  function ApplyEdit(channels: seq<Channel>, e: Edit): seq<Channel> {
    match e
    case Move(id, group) => SetGroup(channels, id, group)
    case Delete(id) => Without(channels, id)
    case Create(c) => if Find(channels, c.id).Some? then channels else channels + [c]
  }

  function ApplyEvent(channels: seq<Channel>, e: Event): seq<Channel> {
    match e
    case Edited(edit) => ApplyEdit(channels, edit)
    case Reread(_, _) => channels
    case Patched(id, to, _) => SetGroup(channels, id, Some(to))
  }

  function Replay(channels: seq<Channel>, trace: seq<Event>): seq<Channel> {
    if trace == [] then channels
    else ApplyEvent(Replay(channels, trace[..|trace| - 1]), trace[|trace| - 1])
  }

  function ChannelOf(e: Edit): int {
    match e
    case Move(id, _) => id
    case Delete(id) => id
    case Create(c) => c.id
  }

  lemma {:induction false} WithoutDistinct(channels: seq<Channel>, id: int)
    requires Distinct(channels)
    ensures Distinct(Without(channels, id))
  {
    if channels != [] {
      WithoutDistinct(channels[1..], id);
      var r := Without(channels[1..], id);
      forall k | 0 <= k < |r| ensures r[k].id != channels[0].id {
        assert r[k] in channels[1..];
      }
    }
  }

  lemma EventDistinct(channels: seq<Channel>, e: Event)
    requires Distinct(channels)
    ensures Distinct(ApplyEvent(channels, e))
  {
    if e.Edited? && e.edit.Delete? { WithoutDistinct(channels, e.edit.id); }
  }

  lemma {:induction false} FindSetGroup(channels: seq<Channel>, id: int, group: Option<int>, other: int)
    ensures Find(SetGroup(channels, id, group), other) ==
              if other == id && Find(channels, id).Some? then Some(Find(channels, id).value.(group := group))
              else Find(channels, other)
  {
    if channels != [] {
      FindSetGroup(channels[1..], id, group, other);
      assert SetGroup(channels, id, group)[1..] == SetGroup(channels[1..], id, group);
    }
  }

  lemma {:induction false} FindWithout(channels: seq<Channel>, id: int, other: int)
    requires other != id
    ensures Find(Without(channels, id), other) == Find(channels, other)
  {
    if channels != [] {
      FindWithout(channels[1..], id, other);
      var r := Without(channels[1..], id);
      assert ([channels[0]] + r)[1..] == r;
    }
  }

  lemma {:induction false} FindAppended(channels: seq<Channel>, c: Channel, other: int)
    requires c.id != other
    ensures Find(channels + [c], other) == Find(channels, other)
  {
    if channels != [] {
      FindAppended(channels[1..], c, other);
      assert (channels + [c])[1..] == channels[1..] + [c];
    }
  }

  /** An event that is not about a channel leaves it as it is. */
  lemma Untouched(channels: seq<Channel>, e: Event, id: int)
    requires e.Edited? ==> ChannelOf(e.edit) != id
    requires e.Patched? ==> e.id != id
    ensures Find(ApplyEvent(channels, e), id) == Find(channels, id)
  {
    match e
    case Edited(Move(x, group)) => FindSetGroup(channels, x, group, id);
    case Edited(Delete(x)) => FindWithout(channels, x, id);
    case Edited(Create(c)) => FindAppended(channels, c, id);
    case Patched(x, to, _) => FindSetGroup(channels, x, Some(to), id);
    case Reread(_, _) =>
  }

  // ----- what a trace shows

  /** Where a channel is after the first `n` events: `None` when it is not there at all. */
  function GroupAfter(channels: seq<Channel>, trace: seq<Event>, n: nat, id: int): Option<Option<int>>
    requires n <= |trace|
  {
    var c := Find(Replay(channels, trace[..n]), id);
    if c.Some? then Some(c.value.group) else None
  }

  lemma StepAt(channels: seq<Channel>, trace: seq<Event>, n: nat)
    requires n < |trace|
    ensures Replay(channels, trace[..n + 1]) == ApplyEvent(Replay(channels, trace[..n]), trace[n])
  {
    assert trace[..n + 1][..n] == trace[..n];
  }

  /** A re-read that answers with a group tells the truth. */
  ghost predicate Truthful(channels: seq<Channel>, trace: seq<Event>) {
    forall i: nat :: i < |trace| ==> TruthfulAt(channels, trace, i)
  }

  ghost predicate TruthfulAt(channels: seq<Channel>, trace: seq<Event>, i: nat)
    requires i < |trace|
  {
    trace[i].Reread? && trace[i].answer.In? ==>
      GroupAfter(channels, trace, i, trace[i].id) == Some(trace[i].answer.group)
  }

  /** The `i`th event is the re-read that let the PATCH at `j` go ahead: nothing but edits lie between. */
  ghost predicate LetsThrough(trace: seq<Event>, group: int, i: int, j: int) {
    && 0 <= i < j < |trace| && trace[j].Patched? && trace[i].Reread? && trace[i].id == trace[j].id
    && (trace[i].answer.In? ==> trace[i].answer.group == Some(group))
    && forall k :: i < k < j ==> trace[k].Edited?
  }

  ghost predicate Guarded(trace: seq<Event>, group: int, j: int) {
    exists i :: LetsThrough(trace, group, i, j)
  }

  ghost predicate AllGuarded(trace: seq<Event>, group: int) {
    forall j :: 0 <= j < |trace| && trace[j].Patched? ==> Guarded(trace, group, j)
  }

  lemma {:induction false} UntouchedUpTo(channels: seq<Channel>, trace: seq<Event>, i: nat, j: nat, id: int)
    requires i <= j <= |trace|
    requires forall k :: i <= k < j ==> (trace[k].Edited? && ChannelOf(trace[k].edit) != id) || trace[k].Reread?
    ensures GroupAfter(channels, trace, j, id) == GroupAfter(channels, trace, i, id)
    decreases j
  {
    if i < j {
      UntouchedUpTo(channels, trace, i, j - 1, id);
      StepAt(channels, trace, j - 1);
      Untouched(Replay(channels, trace[..j - 1]), trace[j - 1], id);
    }
  }

  /** A PATCH moves a channel from elsewhere only if its re-read gave no evidence, or if someone edited
      that channel between the re-read and the PATCH. */
  lemma OverwritesOnlyInWindow(channels: seq<Channel>, trace: seq<Event>, group: int, j: nat)
    requires Truthful(channels, trace) && j < |trace| && trace[j].Patched? && Guarded(trace, group, j)
    requires GroupAfter(channels, trace, j, trace[j].id) != Some(Some(group))
    ensures exists i :: LetsThrough(trace, group, i, j) &&
              (!trace[i].answer.In? ||
               exists k :: i < k < j && trace[k].Edited? && ChannelOf(trace[k].edit) == trace[j].id)
  {
    var id := trace[j].id;
    var i :| LetsThrough(trace, group, i, j);
    if trace[i].answer.In? && forall k :: i < k < j && trace[k].Edited? ==> ChannelOf(trace[k].edit) != id {
      assert TruthfulAt(channels, trace, i);
      UntouchedUpTo(channels, trace, i, j, id);
    }
  }

  /** No PATCH was waiting when the `k`th event, a move, happened, and no later re-read of that channel
      came back without a group. */
  ghost predicate OutsideWindows(trace: seq<Event>, group: int, k: nat, id: int) {
    && (forall i, j :: LetsThrough(trace, group, i, j) && trace[j].id == id ==> k < i || j < k)
    && (forall i :: k < i < |trace| && trace[i].Reread? && trace[i].id == id ==> trace[i].answer.In?)
  }

  lemma PatchFoundItThere(channels: seq<Channel>, trace: seq<Event>, group: int, i: nat, j: nat)
    requires Truthful(channels, trace) && LetsThrough(trace, group, i, j) && trace[i].answer.In?
    ensures GroupAfter(channels, trace, i, trace[j].id) == Some(Some(group))
  {
    assert TruthfulAt(channels, trace, i);
  }

  lemma NotPatched(channels: seq<Channel>, trace: seq<Event>, group: int, k: nat, j: nat, id: int)
    requires Truthful(channels, trace) && AllGuarded(trace, group) && OutsideWindows(trace, group, k, id)
    requires k < j < |trace| && trace[j].Patched?
    requires forall i: nat :: k < i <= j ==> GroupAfter(channels, trace, i, id) != Some(Some(group))
    ensures trace[j].id != id
  {
    assert Guarded(trace, group, j);
    var i: nat :| LetsThrough(trace, group, i, j);
    if trace[i].answer.In? { PatchFoundItThere(channels, trace, group, i, j); }
  }

  /** The `k`th event is somebody's move of a channel that is there, and nobody else edits it after. */
  ghost predicate LastMove(channels: seq<Channel>, trace: seq<Event>, k: nat, id: int, group: Option<int>) {
    && k < |trace| && trace[k] == Edited(Move(id, group)) && GroupAfter(channels, trace, k, id).Some?
    && forall i :: k < i < |trace| && trace[i].Edited? ==> ChannelOf(trace[i].edit) != id
  }

  lemma StaysOne(channels: seq<Channel>, trace: seq<Event>, group: int, k: nat, j: nat, id: int, to: Option<int>)
    requires Truthful(channels, trace) && AllGuarded(trace, group) && OutsideWindows(trace, group, k, id)
    requires LastMove(channels, trace, k, id, to) && to != Some(group) && k < j < |trace|
    requires forall i: nat :: k < i <= j ==> GroupAfter(channels, trace, i, id) == Some(to)
    ensures GroupAfter(channels, trace, j + 1, id) == Some(to)
  {
    if trace[j].Patched? { NotPatched(channels, trace, group, k, j, id); }
    assert GroupAfter(channels, trace, j, id) == Some(to);
    StepAt(channels, trace, j);
    Untouched(Replay(channels, trace[..j]), trace[j], id);
  }

  lemma JustMoved(channels: seq<Channel>, trace: seq<Event>, k: nat, id: int, to: Option<int>)
    requires LastMove(channels, trace, k, id, to)
    ensures GroupAfter(channels, trace, k + 1, id) == Some(to)
  {
    StepAt(channels, trace, k);
    FindSetGroup(Replay(channels, trace[..k]), id, to, id);
  }

  lemma {:induction false} Stays(channels: seq<Channel>, trace: seq<Event>, group: int, k: nat, n: nat, id: int,
                                 to: Option<int>)
    requires Truthful(channels, trace) && AllGuarded(trace, group) && OutsideWindows(trace, group, k, id)
    requires LastMove(channels, trace, k, id, to) && to != Some(group) && k < n <= |trace|
    ensures forall i: nat :: k < i <= n ==> GroupAfter(channels, trace, i, id) == Some(to)
    decreases n
  {
    if n == k + 1 {
      JustMoved(channels, trace, k, id, to);
    } else {
      Stays(channels, trace, group, k, n - 1, id, to);
      StaysOne(channels, trace, group, k, n - 1, id, to);
    }
  }

  /** Someone's move out of the group, made outside the windows and not changed by anyone else after,
      is never overwritten. */
  lemma MoveSurvives(channels: seq<Channel>, trace: seq<Event>, group: int, k: nat, id: int, to: Option<int>)
    requires Truthful(channels, trace) && AllGuarded(trace, group) && OutsideWindows(trace, group, k, id)
    requires LastMove(channels, trace, k, id, to) && to != Some(group)
    ensures GroupAfter(channels, trace, |trace|, id) == Some(to)
  {
    Stays(channels, trace, group, k, |trace|, id, to);
  }

  /** And one made inside a window is lost. */
  lemma WindowLoses(channels: seq<Channel>, trace: seq<Event>, group: int, i: nat, k: nat, j: nat)
    requires LetsThrough(trace, group, i, j) && i < k < j
    requires trace[k].edit.Move? && trace[k].edit.id == trace[j].id
    requires GroupAfter(channels, trace, j, trace[j].id).Some?
    ensures GroupAfter(channels, trace, j + 1, trace[j].id) == Some(Some(trace[j].to))
  {
    StepAt(channels, trace, j);
    FindSetGroup(Replay(channels, trace[..j]), trace[j].id, Some(trace[j].to), trace[j].id);
  }

  // ----- upstream, and the edits that come between calls to it

  datatype Fault = NoFault | Refused | Unreadable | LostReply

  function EditEvents(edits: seq<Edit>): (r: seq<Event>)
    ensures |r| == |edits| && forall k :: 0 <= k < |r| ==> r[k] == Edited(edits[k])
  {
    seq(|edits|, k requires 0 <= k < |edits| => Edited(edits[k]))
  }

  /** What others do before the call at `clock`. */
  function EditsAt(script: seq<seq<Edit>>, clock: nat): (r: seq<Event>)
    ensures forall k :: 0 <= k < |r| ==> r[k].Edited?
  {
    EditEvents(if clock < |script| then script[clock] else [])
  }

  lemma {:induction false} ReplayMore(channels: seq<Channel>, trace: seq<Event>, more: seq<Event>)
    ensures Replay(channels, trace + more) == Replay(Replay(channels, trace), more)
  {
    if more == [] {
      assert trace + more == trace;
    } else {
      var n := |more| - 1;
      ReplayMore(channels, trace, more[..n]);
      assert (trace + more)[..|trace + more| - 1] == trace + more[..n];
      assert (trace + more)[|trace + more| - 1] == more[n];
    }
  }

  lemma {:induction false} ReplayDistinct(channels: seq<Channel>, trace: seq<Event>)
    requires Distinct(channels)
    ensures Distinct(Replay(channels, trace))
  {
    if trace != [] {
      ReplayDistinct(channels, trace[..|trace| - 1]);
      EventDistinct(Replay(channels, trace[..|trace| - 1]), trace[|trace| - 1]);
    }
  }

  lemma TruthfulMore(channels: seq<Channel>, trace: seq<Event>, e: Event)
    requires Truthful(channels, trace)
    requires e.Reread? && e.answer.In? ==>
               Find(Replay(channels, trace), e.id).Some? &&
               Find(Replay(channels, trace), e.id).value.group == e.answer.group
    ensures Truthful(channels, trace + [e])
  {
    var t := trace + [e];
    forall i: nat | i < |t| ensures TruthfulAt(channels, t, i) {
      assert t[..i] == trace[..i];
      assert trace[..|trace|] == trace;
      if i < |trace| { assert TruthfulAt(channels, trace, i); }
    }
  }

  lemma Recorded(initial: seq<Channel>, trace: seq<Event>, channels: seq<Channel>, e: Event)
    requires Distinct(channels) && channels == Replay(initial, trace) && Truthful(initial, trace)
    requires e.Reread? && e.answer.In? ==>
               Find(channels, e.id).Some? && Find(channels, e.id).value.group == e.answer.group
    ensures Distinct(ApplyEvent(channels, e)) && ApplyEvent(channels, e) == Replay(initial, trace + [e])
    ensures Truthful(initial, trace + [e])
  {
    assert (trace + [e])[..|trace|] == trace;
    EventDistinct(channels, e);
    TruthfulMore(initial, trace, e);
  }

  lemma {:induction false} TruthfulEdits(channels: seq<Channel>, trace: seq<Event>, edits: seq<Edit>)
    requires Truthful(channels, trace)
    ensures Truthful(channels, trace + EditEvents(edits))
  {
    if edits == [] {
      assert trace + EditEvents(edits) == trace;
    } else {
      var n := |edits| - 1;
      TruthfulEdits(channels, trace, edits[..n]);
      TruthfulMore(channels, trace + EditEvents(edits[..n]), Edited(edits[n]));
      assert trace + EditEvents(edits) == trace + EditEvents(edits[..n]) + [Edited(edits[n])];
    }
  }

  datatype GroupRow = GroupRow(id: Option<int>, baseline: bool)

  const PAGE_SIZE: nat := 500

  function PageOf(channels: seq<Channel>, page: nat): seq<Channel>
    requires page > 0
  {
    var from, upto := (page - 1) * PAGE_SIZE, page * PAGE_SIZE;
    if from >= |channels| then [] else if upto >= |channels| then channels[from..] else channels[from..upto]
  }

  /** What a re-read is told. */
  function Heard(fault: Fault, channels: seq<Channel>, id: int): Answer {
    match fault
    case NoFault => if Find(channels, id).Some? then In(Find(channels, id).value.group) else NoAnswer
    case Unreadable => NoGroup
    case _ => NoAnswer
  }

  /** A re-read that succeeds tells the group of the channel, and else that there is no telling. */
  lemma HeardIs(channels: seq<Channel>, fault: Fault, id: int)
    requires Distinct(channels)
    ensures forall c :: c in channels && c.id == id && fault == NoFault ==> Heard(fault, channels, id) == In(c.group)
    ensures (forall c :: c in channels ==> c.id != id) || fault != NoFault ==> !Heard(fault, channels, id).In?
  {
    forall c | c in channels && c.id == id ensures Find(channels, id) == Some(c) { FindIsAll(channels, c); }
  }

  /** Does a PATCH land? */
  predicate Lands(fault: Fault, channels: seq<Channel>, id: int) {
    Find(channels, id).Some? && fault != Refused
  }

  lemma LandsIff(fault: Fault, channels: seq<Channel>, id: int)
    ensures Lands(fault, channels, id) <==> fault != Refused && exists c :: c in channels && c.id == id
  {
  }

  function PatchEvents(fault: Fault, channels: seq<Channel>, id: int, to: int): seq<Event> {
    if Lands(fault, channels, id) then [Patched(id, to, fault != LostReply)] else []
  }

  /** The channels upstream; what others do to them before each call; and what goes wrong with each call. */
  class Dispatcharr {
    var channels: seq<Channel>
    var clock: nat
    const script: seq<seq<Edit>>
    const faults: nat -> Fault
    const groups: seq<GroupRow>
    ghost const initial: seq<Channel>
    ghost var trace: seq<Event>

    ghost predicate Valid()
      reads this
    {
      Distinct(channels) && channels == Replay(initial, trace) && Truthful(initial, trace)
    }

    constructor (channels: seq<Channel>, script: seq<seq<Edit>>, faults: nat -> Fault, groups: seq<GroupRow>)
      requires Distinct(channels)
      ensures Valid() && this.channels == channels && trace == [] && clock == 0 && initial == channels
      ensures this.script == script && this.faults == faults && this.groups == groups
    {
      this.channels, this.script, this.faults, this.groups, clock := channels, script, faults, groups, 0;
      initial, trace := channels, [];
    }

    method LetOthersEdit()
      requires Valid()
      modifies `channels, `clock, `trace
      ensures Valid() && clock == old(clock) + 1 && trace == old(trace) + EditsAt(script, old(clock))
      ensures channels == Replay(old(channels), EditsAt(script, old(clock)))
    {
      var edits := if clock < |script| then script[clock] else [];
      clock := clock + 1;
      NoEdits(channels);
      assert edits[..0] == [];
      for k := 0 to |edits|
        modifies `channels
        invariant channels == Replay(old(channels), EditEvents(edits[..k]))
      {
        OneMoreEdit(old(channels), edits, k);
        channels := ApplyEdit(channels, edits[k]);
      }
      assert edits[..|edits|] == edits;
      ReplayMore(initial, trace, EditEvents(edits));
      ReplayDistinct(old(channels), EditEvents(edits));
      TruthfulEdits(initial, trace, edits);
      trace := trace + EditEvents(edits);
    }

    method GetChannels(page: nat) returns (rows: seq<Channel>, next: bool, ok: bool)
      requires Valid() && page > 0
      modifies `channels, `clock, `trace
      ensures Valid() && clock == old(clock) + 1 && trace == old(trace) + EditsAt(script, old(clock))
      ensures channels == Replay(old(channels), EditsAt(script, old(clock)))
      ensures ok == (faults(clock) == NoFault)
      ensures ok ==> rows == PageOf(channels, page) && next == (page * PAGE_SIZE < |channels|)
    {
      LetOthersEdit();
      rows, next, ok := PageOf(channels, page), page * PAGE_SIZE < |channels|, faults(clock) == NoFault;
    }

    method GetChannelGroups() returns (rows: seq<GroupRow>, ok: bool)
      requires Valid()
      modifies `channels, `clock, `trace
      ensures Valid() && clock == old(clock) + 1 && trace == old(trace) + EditsAt(script, old(clock))
      ensures channels == Replay(old(channels), EditsAt(script, old(clock)))
      ensures ok == (faults(clock) == NoFault) && rows == groups
    {
      LetOthersEdit();
      rows, ok := groups, faults(clock) == NoFault;
    }

    method GetChannel(id: int) returns (answer: Answer)
      requires Valid()
      modifies `channels, `clock, `trace
      ensures Valid() && clock == old(clock) + 1
      ensures trace == old(trace) + EditsAt(script, old(clock)) + [Reread(id, answer)]
      ensures channels == Replay(old(channels), EditsAt(script, old(clock)))
      ensures answer == Heard(faults(clock), channels, id)
    {
      LetOthersEdit();
      answer := Heard(faults(clock), channels, id);
      ghost var event := Reread(id, answer);
      Recorded(initial, trace, channels, event);
      trace := trace + [event];
    }

    /** The write lands on a channel that is there, unless it is refused; its reply may still be lost. */
    method UpdateChannel(id: int, group: int) returns (ok: bool)
      requires Valid()
      modifies `channels, `clock, `trace
      ensures Valid() && clock == old(clock) + 1
      ensures var edited := Replay(old(channels), EditsAt(script, old(clock)));
              && ok == (Lands(faults(clock), edited, id) && faults(clock) != LostReply)
              && trace == old(trace) + EditsAt(script, old(clock)) + PatchEvents(faults(clock), edited, id, group)
              && (ok ==> channels == SetGroup(edited, id, Some(group)))
      ensures !ok && faults(clock) == NoFault ==> Find(channels, id).None?
    {
      LetOthersEdit();
      ok := Patch(id, group);
    }

    method Patch(id: int, group: int) returns (ok: bool)
      requires Valid()
      modifies `channels, `trace
      ensures Valid() && ok == (Lands(faults(clock), old(channels), id) && faults(clock) != LostReply)
      ensures trace == old(trace) + PatchEvents(faults(clock), old(channels), id, group)
      ensures ok ==> channels == SetGroup(old(channels), id, Some(group))
      ensures !ok && faults(clock) == NoFault ==> Find(channels, id).None?
    {
      if !Lands(faults(clock), channels, id) {
        assert trace + [] == trace;
        return false;
      }
      ok := faults(clock) != LostReply;
      ghost var event := Patched(id, group, ok);
      Recorded(initial, trace, channels, event);
      channels, trace := SetGroup(channels, id, Some(group)), trace + [event];
    }
  }

  // ----- emptying the group

  datatype Label = Named(name: string) | Numbered(id: int)

  /** A call of `on_channel_moved`. */
  datatype Call = Call(id: int, name: Label, to: int)

  datatype Outcome = Moved(count: nat) | NoTarget | TargetIsGroup | Raised

  function LabelOf(c: Channel): Label {
    if c.name.Some? && c.name.value != "" then Named(c.name.value) else Numbered(c.id)
  }

  function MembersOf(channels: seq<Channel>, group: int): (r: seq<int>)
    ensures forall c :: c in channels && c.group == Some(group) ==> c.id in r
  {
    if channels == [] then [] else
      var n := |channels| - 1;
      assert channels == channels[..n] + [channels[n]];
      MembersOf(channels[..n], group) + if channels[n].group == Some(group) then [channels[n].id] else []
  }

  lemma {:induction false} MembersAre(channels: seq<Channel>, group: int, id: int)
    ensures id in MembersOf(channels, group) <==> exists c :: c in channels && c.id == id && c.group == Some(group)
  {
    if channels != [] {
      var n := |channels| - 1;
      MembersAre(channels[..n], group, id);
      assert channels == channels[..n] + [channels[n]];
    }
  }

  /** The name each member is reported under: the last it was listed with. */
  function LabelsOf(channels: seq<Channel>, group: int): (r: map<int, Label>)
    ensures forall id :: id in MembersOf(channels, group) ==> id in r
  {
    if channels == [] then map[] else
      var n := |channels| - 1;
      var r := LabelsOf(channels[..n], group);
      if channels[n].group == Some(group) then r[channels[n].id := LabelOf(channels[n])] else r
  }

  lemma {:induction false} LabelsAre(channels: seq<Channel>, group: int, c: Channel)
    requires Distinct(channels) && c in channels && c.group == Some(group)
    ensures c.id in LabelsOf(channels, group)
    ensures LabelsOf(channels, group)[c.id] ==
              if c.name.Some? && c.name.value != "" then Named(c.name.value) else Numbered(c.id)
  {
    var n := |channels| - 1;
    if channels[n] != c {
      var k :| 0 <= k < |channels| && channels[k] == c;
      assert channels[..n][k] == c;
      LabelsAre(channels[..n], group, c);
    }
  }

  lemma ListingsJoin(a: seq<Channel>, b: seq<Channel>, group: int)
    ensures MembersOf(a + b, group) == MembersOf(a, group) + MembersOf(b, group)
    ensures LabelsOf(a + b, group) == LabelsOf(a, group) + LabelsOf(b, group)
  {
    MembersOfBoth(a, b, group);
    LabelsOfBoth(a, b, group);
  }

  lemma {:induction false} MembersOfBoth(a: seq<Channel>, b: seq<Channel>, group: int)
    ensures MembersOf(a + b, group) == MembersOf(a, group) + MembersOf(b, group)
  {
    if b == [] {
      assert a + b == a;
    } else {
      var n := |b| - 1;
      var m, c := b[..n], b[n];
      MembersOfBoth(a, m, group);
      ListingsMore(a + m, c, group);
      ListingsMore(m, c, group);
      LastApart(a, b, m, c);
      MembersJoin(MembersOf(a, group), MembersOf(m, group), c.id);
    }
  }

  lemma {:induction false} LabelsOfBoth(a: seq<Channel>, b: seq<Channel>, group: int)
    ensures LabelsOf(a + b, group) == LabelsOf(a, group) + LabelsOf(b, group)
  {
    if b == [] {
      assert a + b == a;
    } else {
      var n := |b| - 1;
      var m, c := b[..n], b[n];
      LabelsOfBoth(a, m, group);
      ListingsMore(a + m, c, group);
      ListingsMore(m, c, group);
      LastApart(a, b, m, c);
    }
  }

  lemma LastApart(a: seq<Channel>, b: seq<Channel>, m: seq<Channel>, c: Channel)
    requires b != [] && m == b[..|b| - 1] && c == b[|b| - 1]
    ensures b == m + [c] && a + b == a + m + [c]
  {
  }

  lemma ListingsMore(a: seq<Channel>, c: Channel, group: int)
    ensures MembersOf(a + [c], group) ==
              if c.group == Some(group) then MembersOf(a, group) + [c.id] else MembersOf(a, group)
    ensures LabelsOf(a + [c], group) ==
              if c.group == Some(group) then LabelsOf(a, group)[c.id := LabelOf(c)] else LabelsOf(a, group)
  {
    assert (a + [c])[..|a|] == a;
  }

  lemma MembersJoin(a: seq<int>, b: seq<int>, id: int)
    ensures a + b + [id] == a + (b + [id])
  {
  }

  method CollectMembers(rows: seq<Channel>, group: int, members: seq<int>, names: map<int, Label>)
    returns (members': seq<int>, names': map<int, Label>)
    ensures members' == members + MembersOf(rows, group) && names' == names + LabelsOf(rows, group)
  {
    members', names' := members, names;
    for k := 0 to |rows|
      invariant members' == members + MembersOf(rows[..k], group)
      invariant names' == names + LabelsOf(rows[..k], group)
    {
      assert rows[..k + 1] == rows[..k] + [rows[k]];
      ListingsMore(rows[..k], rows[k], group);
      MembersJoin(members, MembersOf(rows[..k], group), rows[k].id);
      if rows[k].group == Some(group) {
        members' := members' + [rows[k].id];
        names' := names'[rows[k].id := LabelOf(rows[k])];
      }
    }
    assert rows[..|rows|] == rows;
  }

  /** Nobody edits anything before the calls from the `from`th to the `upto`th. */
  ghost predicate Calm(script: seq<seq<Edit>>, from: nat, upto: nat) {
    forall k :: from <= k < upto && k < |script| ==> script[k] == []
  }

  lemma NoEdits(channels: seq<Channel>)
    ensures Replay(channels, EditEvents([])) == channels
  {
    assert EditEvents([]) == [];
  }

  lemma OneMoreEdit(channels: seq<Channel>, edits: seq<Edit>, k: nat)
    requires k < |edits|
    ensures Replay(channels, EditEvents(edits[..k + 1])) ==
              ApplyEdit(Replay(channels, EditEvents(edits[..k])), edits[k])
  {
    assert EditEvents(edits[..k + 1])[..k] == EditEvents(edits[..k]);
  }

  lemma CalmCall(channels: seq<Channel>, script: seq<seq<Edit>>, clock: nat)
    requires Calm(script, clock, clock + 1)
    ensures Replay(channels, EditsAt(script, clock)) == channels
  {
    NoEdits(channels);
  }

  ghost predicate OnlyEdits(was: seq<Event>, trace: seq<Event>) {
    && |was| <= |trace| && trace[..|was|] == was
    && forall k :: |was| <= k < |trace| ==> trace[k].Edited?
  }

  function Listed(channels: seq<Channel>, pages: nat): seq<Channel> {
    if pages * PAGE_SIZE >= |channels| then channels else channels[..pages * PAGE_SIZE]
  }

  lemma OnePageMore(channels: seq<Channel>, page: nat)
    requires page > 0
    ensures Listed(channels, page) == Listed(channels, page - 1) + PageOf(channels, page)
  {
  }

  ghost predicate Faultless(faults: nat -> Fault, from: nat, upto: nat) {
    forall n :: from < n <= upto ==> faults(n) == NoFault
  }

  /** The first pages have been listed. */
  ghost predicate Scanned(channels: seq<Channel>, group: int, pages: nat, members: seq<int>, names: map<int, Label>) {
    members == MembersOf(Listed(channels, pages), group) && names == LabelsOf(Listed(channels, pages), group)
  }

  method ScanPage(up: Dispatcharr, group: int, page: nat, members: seq<int>, names: map<int, Label>)
    returns (members': seq<int>, names': map<int, Label>, next: bool, ok: bool, ghost listed: seq<Channel>)
    requires up.Valid() && page > 0
    requires forall id :: id in members ==> id in names
    modifies up`channels, up`clock, up`trace
    ensures up.Valid() && up.clock == old(up.clock) + 1 && OnlyEdits(old(up.trace), up.trace)
    ensures old(up.clock) >= |up.script| ==> up.channels == old(up.channels)
    ensures ok == (up.faults(up.clock) == NoFault)
    ensures ok ==> forall id :: id in members' ==> id in names'
    ensures members' == members + MembersOf(listed, group) && Among(listed, up.channels)
    ensures ok ==> next == (page * PAGE_SIZE < |up.channels|)
    ensures ok && Calm(up.script, old(up.clock), up.clock) ==> up.channels == old(up.channels)
    ensures ok && Scanned(up.channels, group, page - 1, members, names) ==>
              Scanned(up.channels, group, page, members', names')
  {
    members', names', listed := members, names, [];
    var rows;
    rows, next, ok := up.GetChannels(page);
    if !ok { return; }
    listed := rows;
    NoEdits(old(up.channels));
    OnePageMore(up.channels, page);
    ListingsJoin(Listed(up.channels, page - 1), rows, group);
    members', names' := CollectMembers(rows, group, members, names);
  }

  ghost predicate Among(rows: seq<Channel>, channels: seq<Channel>) {
    forall c :: c in rows ==> c in channels
  }

  /** How the scan stands before it asks for a page, having started at `from`. */
  ghost predicate ScanStands(up: Dispatcharr, was: seq<Event>, start: seq<Channel>, from: nat, group: int,
                             page: nat, next: bool, members: seq<int>, names: map<int, Label>)
    reads up
  {
    && OnlyEdits(was, up.trace) && page > 0 && up.clock == from + page - 1
    && StandsAt(start, up.channels, up.script, up.faults, from, group, page, next, members, names)
  }

  ghost predicate StandsAt(start: seq<Channel>, channels: seq<Channel>, script: seq<seq<Edit>>, faults: nat -> Fault,
                           from: nat, group: int, page: nat, next: bool, members: seq<int>, names: map<int, Label>)
    requires page > 0
  {
    && (!next ==> page > 1) && Faultless(faults, from, from + page - 1)
    && (forall id :: id in members ==> id in names)
    && (page > 1 ==> next == ((page - 1) * PAGE_SIZE < |channels|))
    && ScannedCalmly(start, channels, Calm(script, from, from + page - 1), group, page - 1, members, names)
    && (OnePage(start, Calm(script, from, from + 1)) ==> page == if next then 1 else 2)
  }

  lemma StandsNext(start: seq<Channel>, before: seq<Channel>, channels: seq<Channel>, script: seq<seq<Edit>>,
                   faults: nat -> Fault, from: nat, group: int, page: nat, members: seq<int>, names: map<int, Label>,
                   next: bool, members': seq<int>, names': map<int, Label>)
    requires page > 0 && StandsAt(start, before, script, faults, from, group, page, true, members, names)
    requires faults(from + page) == NoFault && next == (page * PAGE_SIZE < |channels|)
    requires forall id :: id in members' ==> id in names'
    requires Calm(script, from + page - 1, from + page) ==> channels == before
    requires Scanned(channels, group, page - 1, members, names) ==> Scanned(channels, group, page, members', names')
    ensures StandsAt(start, channels, script, faults, from, group, page + 1, next, members', names')
  {
    CalmBefore(script, from, from + page - 1);
  }

  method ScanNext(up: Dispatcharr, ghost was: seq<Event>, ghost start: seq<Channel>, ghost from: nat, group: int,
                  page: nat, members: seq<int>, names: map<int, Label>)
    returns (members': seq<int>, names': map<int, Label>, next: bool, ok: bool, ghost listed: seq<Channel>)
    requires up.Valid() && ScanStands(up, was, start, from, group, page, true, members, names)
    modifies up`channels, up`clock, up`trace
    ensures up.Valid() && up.clock == old(up.clock) + 1 && OnlyEdits(was, up.trace)
    ensures old(up.clock) >= |up.script| ==> up.channels == old(up.channels)
    ensures ok == (up.faults(up.clock) == NoFault)
    ensures |old(up.trace)| <= |up.trace| && up.trace[..|old(up.trace)|] == old(up.trace)
    ensures members' == members + MembersOf(listed, group) && Among(listed, up.channels)
    ensures ok ==> ScanStands(up, was, start, from, group, page + 1, next, members', names')
  {
    ghost var before, there := up.trace, up.channels;
    members', names', next, ok, listed := ScanPage(up, group, page, members, names);
    StillOnlyEdits(was, before, up.trace);
    if ok {
      StandsNext(start, there, up.channels, up.script, up.faults, from, group, page, members, names, next, members',
                 names');
    }
  }

  /** At some moment from the `from`th event on, the channel was in the group. */
  ghost predicate WasIn(channels: seq<Channel>, trace: seq<Event>, from: nat, id: int, group: int) {
    exists n: nat :: from <= n <= |trace| && GroupAfter(channels, trace, n, id) == Some(Some(group))
  }

  ghost predicate AllWereIn(channels: seq<Channel>, trace: seq<Event>, from: nat, ids: seq<int>, group: int) {
    forall id :: id in ids ==> WasIn(channels, trace, from, id, group)
  }

  lemma StillWereIn(initial: seq<Channel>, before: seq<Event>, trace: seq<Event>, from: nat, members: seq<int>,
                    channels: seq<Channel>, listed: seq<Channel>, group: int)
    requires from <= |before| <= |trace| && trace[..|before|] == before
    requires AllWereIn(initial, before, from, members, group)
    requires channels == Replay(initial, trace) && Distinct(channels) && Among(listed, channels)
    ensures AllWereIn(initial, trace, from, members + MembersOf(listed, group), group)
  {
    forall id | id in members + MembersOf(listed, group) ensures WasIn(initial, trace, from, id, group) {
      if id in MembersOf(listed, group) {
        ListedWasIn(initial, trace, from, channels, listed, group, id);
      } else {
        assert WasIn(initial, before, from, id, group);
        var n: nat :| from <= n <= |before| && GroupAfter(initial, before, n, id) == Some(Some(group));
        assert trace[..n] == before[..n];
        assert GroupAfter(initial, trace, n, id) == Some(Some(group));
      }
    }
  }

  lemma ListedWasIn(initial: seq<Channel>, trace: seq<Event>, from: nat, channels: seq<Channel>, rows: seq<Channel>,
                    group: int, id: int)
    requires channels == Replay(initial, trace) && Distinct(channels) && from <= |trace|
    requires Among(rows, channels) && id in MembersOf(rows, group)
    ensures WasIn(initial, trace, from, id, group)
  {
    MembersAre(rows, group, id);
    var c :| c in rows && c.id == id && c.group == Some(group);
    FindIsAll(channels, c);
    assert trace[..|trace|] == trace;
    assert GroupAfter(initial, trace, |trace|, id) == Some(Some(group));
  }

  lemma StillOnlyEdits(was: seq<Event>, before: seq<Event>, trace: seq<Event>)
    requires OnlyEdits(was, before) && OnlyEdits(before, trace)
    ensures OnlyEdits(was, trace)
  {
    assert trace[..|was|] == trace[..|before|][..|was|];
    forall k | |was| <= k < |trace| ensures trace[k].Edited? {
      if k < |before| { assert trace[k] == trace[..|before|][k]; }
    }
  }

  method ScanMembers(up: Dispatcharr, group: int) returns (members: seq<int>, names: map<int, Label>, ok: bool)
    requires up.Valid()
    modifies up`channels, up`clock, up`trace
    ensures up.Valid() && up.clock > old(up.clock) && OnlyEdits(old(up.trace), up.trace)
    ensures ok ==> forall id :: id in members ==> id in names
    ensures ok <==> Faultless(up.faults, old(up.clock), up.clock)
    ensures !ok ==> up.faults(up.clock) != NoFault
    ensures AllWereIn(up.initial, up.trace, |old(up.trace)|, members, group)
    ensures OnePage(old(up.channels), Calm(up.script, old(up.clock), old(up.clock) + 1)) ==>
              up.clock == old(up.clock) + 1
    ensures ok && Calm(up.script, old(up.clock), up.clock) ==>
              up.channels == old(up.channels) &&
              members == MembersOf(up.channels, group) && names == LabelsOf(up.channels, group)
  {
    members, names, ok := [], map[], true;
    var page, next := 1, true;
    assert Listed(up.channels, 0) == [];
    while next
      invariant up.Valid() && page > 0
      invariant ScanStands(up, old(up.trace), old(up.channels), old(up.clock), group, page, next, members, names)
      invariant AllWereIn(up.initial, up.trace, |old(up.trace)|, members, group)
      decreases next, if up.clock < |up.script| then |up.script| - up.clock else 0,
                if (page - 1) * PAGE_SIZE < |up.channels| then |up.channels| - (page - 1) * PAGE_SIZE else 0
    {
      ghost var found, before := members, up.trace;
      ghost var listed;
      members, names, next, ok, listed :=
        ScanNext(up, old(up.trace), old(up.channels), old(up.clock), group, page, members, names);
      StillWereIn(up.initial, before, up.trace, |old(up.trace)|, found, up.channels, listed, group);
      if !ok { return; }
      page := page + 1;
    }
    assert Listed(up.channels, page - 1) == up.channels;
  }

  lemma CalmBefore(script: seq<seq<Edit>>, from: nat, upto: nat)
    requires from <= upto
    ensures Calm(script, from, upto + 1) <==> Calm(script, from, upto) && Calm(script, upto, upto + 1)
  {
  }

  ghost predicate OnePage(channels: seq<Channel>, calm: bool) {
    calm && |channels| <= PAGE_SIZE
  }

  ghost predicate ScannedCalmly(was: seq<Channel>, channels: seq<Channel>, calm: bool, group: int, pages: nat,
                                members: seq<int>, names: map<int, Label>) {
    calm ==> channels == was && Scanned(channels, group, pages, members, names)
  }

  /** The PATCHes that landed, as their channel and its new group. */
  function Landings(trace: seq<Event>): seq<(int, int)> {
    if trace == [] then [] else
      var e := trace[|trace| - 1];
      Landings(trace[..|trace| - 1]) + if e.Patched? then [(e.id, e.to)] else []
  }

  function Reported(calls: seq<Call>): (r: seq<(int, int)>)
    ensures |r| == |calls|
  {
    seq(|calls|, k requires 0 <= k < |calls| => (calls[k].id, calls[k].to))
  }

  lemma {:induction false} EditsLandNothing(was: seq<Event>, trace: seq<Event>)
    requires OnlyEdits(was, trace)
    ensures Landings(trace) == Landings(was)
    decreases |trace|
  {
    if |trace| > |was| {
      EditsLandNothing(was, trace[..|trace| - 1]);
    } else {
      assert trace == was;
    }
  }

  lemma OneMoreEvent(trace: seq<Event>, e: Event)
    ensures Landings(trace + [e]) == Landings(trace) + if e.Patched? then [(e.id, e.to)] else []
  {
    assert (trace + [e])[..|trace|] == trace;
  }

  lemma GuardedMore(was: seq<Event>, trace: seq<Event>, group: int)
    requires AllGuarded(was, group) && |was| <= |trace| && trace[..|was|] == was
    requires forall j :: |was| <= j < |trace| && trace[j].Patched? ==> Guarded(trace, group, j)
    ensures AllGuarded(trace, group)
  {
    forall j | 0 <= j < |trace| && trace[j].Patched?
      ensures Guarded(trace, group, j)
    {
      if j < |was| {
        assert trace[j] == was[j];
        assert Guarded(was, group, j);
        var i :| LetsThrough(was, group, i, j);
        assert forall k :: i <= k <= j ==> trace[k] == was[k];
        assert LetsThrough(trace, group, i, j);
      }
    }
  }

  /** Nobody puts a channel into the group from the `from`th call on. */
  ghost predicate NobodyJoins(script: seq<seq<Edit>>, group: int, from: nat) {
    forall k :: from <= k < |script| ==> NoneJoins(script[k], group)
  }

  ghost predicate NoneJoins(edits: seq<Edit>, group: int) {
    forall k :: 0 <= k < |edits| ==> !Joins(edits[k], group)
  }

  predicate Joins(e: Edit, group: int) {
    match e
    case Move(_, to) => to == Some(group)
    case Delete(_) => false
    case Create(c) => c.group == Some(group)
  }

  /** Whoever is still in the group is in the list. */
  ghost predicate Within(channels: seq<Channel>, group: int, ids: seq<int>) {
    forall c :: c in channels && c.group == Some(group) ==> c.id in ids
  }

  lemma {:induction false} EditsKeepWithin(channels: seq<Channel>, edits: seq<Edit>, group: int, ids: seq<int>)
    requires Within(channels, group, ids) && NoneJoins(edits, group)
    ensures Within(Replay(channels, EditEvents(edits)), group, ids)
  {
    if edits != [] {
      var n := |edits| - 1;
      EditsKeepWithin(channels, edits[..n], group, ids);
      assert EditEvents(edits)[..n] == EditEvents(edits[..n]);
      var before := Replay(channels, EditEvents(edits[..n]));
      assert !Joins(edits[n], group);
      forall c | c in ApplyEdit(before, edits[n]) && c.group == Some(group)
        ensures c.id in ids
      {
        assert c in before;
      }
    } else {
      assert EditEvents(edits) == [];
    }
  }

  lemma MovedOut(channels: seq<Channel>, group: int, to: int, id: int, ids: seq<int>)
    requires Within(channels, group, [id] + ids) && to != group
    ensures Within(SetGroup(channels, id, Some(to)), group, ids)
  {
    var r := SetGroup(channels, id, Some(to));
    forall c | c in r && c.group == Some(group)
      ensures c.id in ids
    {
      var k :| 0 <= k < |r| && r[k] == c;
      assert channels[k] in channels;
      assert c.id in [id] + ids;
    }
  }

  datatype Turn = Left | Sent | Broke

  /** What one member's turn adds to the trace: the re-read, which may show that the member has left,
      and the PATCH, which may be refused or not return. */
  ghost predicate TookTurn(was: seq<Event>, trace: seq<Event>, before: seq<Event>, between: seq<Event>,
                           group: int, to: int, id: int, answer: Answer, turn: Turn) {
    var reread := was + before + [Reread(id, answer)];
    var left := answer.In? && answer.group != Some(group);
    match turn
    case Left => left && trace == reread
    case Sent => !left && trace == reread + between + [Patched(id, to, true)]
    case Broke => !left && (trace == reread + between || trace == reread + between + [Patched(id, to, false)])
  }

  /** Every PATCH that landed returned. */
  ghost predicate AllReturned(trace: seq<Event>) {
    forall k :: 0 <= k < |trace| && trace[k].Patched? ==> trace[k].returned
  }

  /** The last thing that happened was a PATCH that landed and did not return. */
  ghost predicate ReplyLost(trace: seq<Event>) {
    trace != [] && trace[|trace| - 1].Patched? && !trace[|trace| - 1].returned
  }

  /** The next member's re-read shows it in the group, and then the reply to its PATCH is lost. */
  ghost predicate LosesReply(up: Dispatcharr, clock: nat, channels: seq<Channel>, id: int, group: int) {
    && Calm(up.script, clock, clock + 2)
    && up.faults(clock + 1) == NoFault && up.faults(clock + 2) == LostReply
    && Find(channels, id).Some? && Find(channels, id).value.group == Some(group)
  }

  ghost predicate LosesPatch(up: Dispatcharr, clock: nat, channels: seq<Channel>, id: int) {
    Calm(up.script, clock, clock + 1) && up.faults(clock + 1) == LostReply && Find(channels, id).Some?
  }

  ghost predicate OnlyEdited(events: seq<Event>) {
    forall k :: 0 <= k < |events| ==> events[k].Edited?
  }

  lemma TurnIsGuarded(was: seq<Event>, trace: seq<Event>, before: seq<Event>, between: seq<Event>,
                      group: int, to: int, id: int, answer: Answer, turn: Turn)
    requires OnlyEdited(before) && OnlyEdited(between)
    requires TookTurn(was, trace, before, between, group, to, id, answer, turn) && AllGuarded(was, group)
    ensures AllGuarded(trace, group)
  {
    var reread := was + before + [Reread(id, answer)];
    GuardedMore(was, reread, group);
    GuardedMore(reread, reread + between, group);
    if trace != reread && trace != reread + between {
      assert LetsThrough(trace, group, |reread| - 1, |trace| - 1);
      GuardedMore(reread + between, trace, group);
    }
  }

  /** A turn lands its PATCH and hears of it, lands none, or breaks; then it may have landed one whose reply
      was lost. */
  ghost predicate Landed(was: seq<Event>, trace: seq<Event>, id: int, to: int, turn: Turn) {
    match turn
    case Left => Landings(trace) == Landings(was) && AllReturned(trace)
    case Sent => Landings(trace) == Landings(was) + [(id, to)] && AllReturned(trace)
    case Broke =>
      || (Landings(trace) == Landings(was) && AllReturned(trace))
      || (Landings(trace) == Landings(was) + [(id, to)] && ReplyLost(trace))
  }

  lemma TurnLandings(was: seq<Event>, trace: seq<Event>, before: seq<Event>, between: seq<Event>,
                     group: int, to: int, id: int, answer: Answer, turn: Turn)
    requires OnlyEdited(before) && OnlyEdited(between) && AllReturned(was)
    requires TookTurn(was, trace, before, between, group, to, id, answer, turn)
    ensures Landed(was, trace, id, to, turn)
  {
    var reread := was + before + [Reread(id, answer)];
    EditsLandNothing(was, was + before);
    OneMoreEvent(was + before, Reread(id, answer));
    assert Landings(was) + [] == Landings(was);
    EditsLandNothing(reread, reread + between);
    OneMoreEvent(reread + between, Patched(id, to, !turn.Broke?));
  }

  /** The last call went wrong, or the channel is not there. */
  ghost predicate Failed(up: Dispatcharr, id: int)
    reads up
  {
    up.faults(up.clock) != NoFault || Find(up.channels, id).None?
  }

  /** One member: re-read it, and unless it is known to have left, PATCH it. */
  method MoveMember(up: Dispatcharr, group: int, to: int, id: int)
    returns (turn: Turn, answer: Answer, ghost there: seq<Channel>)
    requires up.Valid()
    modifies up`channels, up`clock, up`trace
    ensures up.Valid()
    ensures var before, between := EditsAt(up.script, old(up.clock)), EditsAt(up.script, old(up.clock) + 1);
            && TookTurn(old(up.trace), up.trace, before, between, group, to, id, answer, turn)
            && there == Replay(old(up.channels), before)
            && (turn.Left? ==> up.channels == there && StillOut(up.channels, id, group))
            && (turn.Sent? ==> up.channels == SetGroup(Replay(there, between), id, Some(to)))
    ensures up.clock == old(up.clock) + if turn.Left? then 1 else 2
    ensures turn.Broke? ==> Failed(up, id)
    ensures LosesReply(up, old(up.clock), old(up.channels), id, group) ==> turn.Broke? && ReplyLost(up.trace)
  {
    if LosesReply(up, up.clock, up.channels, id, group) { CalmCall(up.channels, up.script, up.clock); }
    ghost var was, before := up.trace, EditsAt(up.script, up.clock);
    answer := up.GetChannel(id);
    there := up.channels;
    if answer.In? && answer.group != Some(group) { return Left, answer, there; }
    turn := SendPatch(up, group, to, id, answer, was, before, there, old(up.clock) + 1);
  }

  /** The PATCH of a member that is not known to have left. */
  method SendPatch(up: Dispatcharr, group: int, to: int, id: int, ghost answer: Answer, ghost was: seq<Event>,
                   ghost before: seq<Event>, ghost there: seq<Channel>, ghost clock: nat)
    returns (turn: Turn)
    requires up.Valid() && up.trace == was + before + [Reread(id, answer)] && up.channels == there && up.clock == clock
    requires !(answer.In? && answer.group != Some(group))
    modifies up`channels, up`clock, up`trace
    ensures up.Valid() && up.clock == clock + 1 && !turn.Left?
    ensures TookTurn(was, up.trace, before, EditsAt(up.script, clock), group, to, id, answer, turn)
    ensures turn.Sent? ==> up.channels == SetGroup(Replay(there, EditsAt(up.script, clock)), id, Some(to))
    ensures turn.Broke? ==> Failed(up, id)
    ensures LosesPatch(up, clock, there, id) ==> turn.Broke? && ReplyLost(up.trace)
  {
    ghost var reread, between := up.trace, EditsAt(up.script, up.clock);
    if Calm(up.script, up.clock, up.clock + 1) { CalmCall(up.channels, up.script, up.clock); }
    var ok := up.UpdateChannel(id, to);
    turn := if ok then Sent else Broke;
    PatchTaken(was, before, reread, between, group, to, id, answer, up.faults(up.clock), Replay(there, between), ok,
               up.trace);
  }

  lemma PatchTaken(was: seq<Event>, before: seq<Event>, reread: seq<Event>, between: seq<Event>, group: int, to: int,
                   id: int, answer: Answer, fault: Fault, edited: seq<Channel>, ok: bool, trace: seq<Event>)
    requires !(answer.In? && answer.group != Some(group))
    requires ok == (Lands(fault, edited, id) && fault != LostReply)
    requires reread == was + before + [Reread(id, answer)]
    requires trace == reread + between + PatchEvents(fault, edited, id, to)
    ensures TookTurn(was, trace, before, between, group, to, id, answer, if ok then Sent else Broke)
    ensures fault == LostReply && Find(edited, id).Some? ==> ReplyLost(trace)
  {
    assert reread + between + [] == reread + between;
  }

  // ----- who is still in the group

  ghost predicate StillOut(channels: seq<Channel>, id: int, group: int) {
    Find(channels, id).Some? && Find(channels, id).value.group != Some(group)
  }

  lemma OneFewer(channels: seq<Channel>, group: int, id: int, rest: seq<int>)
    requires Distinct(channels) && Within(channels, group, [id] + rest) && StillOut(channels, id, group)
    ensures Within(channels, group, rest)
  {
    forall c | c in channels && c.group == Some(group)
      ensures c.id in rest
    {
      FindIsAll(channels, c);
      assert c.id in [id] + rest;
    }
  }

  lemma EditsAtKeepWithin(channels: seq<Channel>, script: seq<seq<Edit>>, clock: nat, group: int, from: nat,
                          ids: seq<int>)
    requires Within(channels, group, ids) && NobodyJoins(script, group, from) && from <= clock
    ensures Within(Replay(channels, EditsAt(script, clock)), group, ids)
  {
    if clock < |script| {
      EditsKeepWithin(channels, script[clock], group, ids);
    } else {
      NoEdits(channels);
    }
  }

  lemma FirstOfRest(members: seq<int>, k: nat)
    requires k < |members|
    ensures members[k..] == [members[k]] + members[k + 1..]
  {
  }

  lemma TurnDone(was: seq<Event>, trace: seq<Event>, before: seq<Event>, between: seq<Event>, group: int, to: int,
                 id: int, answer: Answer, turn: Turn)
    requires OnlyEdited(before) && OnlyEdited(between) && AllGuarded(was, group) && AllReturned(was)
    requires TookTurn(was, trace, before, between, group, to, id, answer, turn)
    ensures |was| <= |trace| && trace[..|was|] == was
    ensures AllGuarded(trace, group) && Landed(was, trace, id, to, turn)
    ensures turn.Broke? && ReplyLost(trace) ==> Landings(trace) == Landings(was) + [(id, to)]
  {
    TurnIsGuarded(was, trace, before, between, group, to, id, answer, turn);
    TurnLandings(was, trace, before, between, group, to, id, answer, turn);
  }

  /** The member's turn over, whoever is still in the group is among the rest. */
  method MoveOutMember(up: Dispatcharr, group: int, to: int, members: seq<int>, k: nat, ghost from: nat,
                       ghost quiet: bool)
    returns (turn: Turn)
    requires up.Valid() && k < |members| && from <= up.clock && to != group
    requires AllGuarded(up.trace, group) && AllReturned(up.trace)
    requires quiet ==> NobodyJoins(up.script, group, from) && Within(up.channels, group, members[k..])
    modifies up`channels, up`clock, up`trace
    ensures up.Valid() && up.clock > old(up.clock)
    ensures |old(up.trace)| <= |up.trace| && up.trace[..|old(up.trace)|] == old(up.trace)
    ensures AllGuarded(up.trace, group) && Landed(old(up.trace), up.trace, members[k], to, turn)
    ensures turn.Broke? ==> Failed(up, members[k])
    ensures quiet && !turn.Broke? ==> Within(up.channels, group, members[k + 1..])
    ensures LosesReply(up, old(up.clock), old(up.channels), members[k], group) ==>
              turn.Broke? && Landings(up.trace) == Landings(old(up.trace)) + [(members[k], to)]
  {
    ghost var was, before, clock := up.trace, up.channels, up.clock;
    ghost var first, second := EditsAt(up.script, clock), EditsAt(up.script, clock + 1);
    FirstOfRest(members, k);
    var answer;
    ghost var there;
    turn, answer, there := MoveMember(up, group, to, members[k]);
    TurnDone(was, up.trace, first, second, group, to, members[k], answer, turn);
    if quiet && !turn.Broke? {
      TurnWithin(before, there, up.channels, up.script, clock, group, to, members[k], members[k + 1..], from, turn);
    }
  }

  lemma TurnWithin(before: seq<Channel>, there: seq<Channel>, after: seq<Channel>, script: seq<seq<Edit>>, clock: nat,
                   group: int, to: int, id: int, rest: seq<int>, from: nat, turn: Turn)
    requires Within(before, group, [id] + rest) && NobodyJoins(script, group, from) && from <= clock && to != group
    requires Distinct(after) && !turn.Broke? && there == Replay(before, EditsAt(script, clock))
    requires turn.Left? ==> after == there && StillOut(after, id, group)
    requires turn.Sent? ==> after == SetGroup(Replay(there, EditsAt(script, clock + 1)), id, Some(to))
    ensures Within(after, group, rest)
  {
    EditsAtKeepWithin(before, script, clock, group, from, [id] + rest);
    if turn.Left? {
      OneFewer(after, group, id, rest);
    } else {
      EditsAtKeepWithin(there, script, clock + 1, group, from, [id] + rest);
      MovedOut(Replay(there, EditsAt(script, clock + 1)), group, to, id, rest);
    }
  }

  lemma OneMoreCall(calls: seq<Call>, c: Call)
    ensures Reported(calls + [c]) == Reported(calls) + [(c.id, c.to)]
  {
  }

  /** What `on_channel_moved` was told is what has landed, in order, unless the last PATCH landed and its
      reply was lost: then it is all but that. */
  ghost predicate ToldOf(trace: seq<Event>, calls: seq<Call>, to: Option<int>, members: seq<int>, broke: bool) {
    if AllReturned(trace) then Landings(trace) == Reported(calls)
    else broke && to.Some? && ReplyLost(trace) &&
         exists id :: id in members && Landings(trace) == Reported(calls) + [(id, to.value)]
  }

  method MoveAll(up: Dispatcharr, group: int, to: int, members: seq<int>, names: map<int, Label>, ghost from: nat,
                 ghost quiet: bool)
    returns (outcome: Outcome, calls: seq<Call>)
    requires up.Valid() && from <= up.clock && to != group
    requires AllGuarded(up.trace, group) && Landings(up.trace) == [] && AllReturned(up.trace)
    requires forall id :: id in members ==> id in names
    requires quiet ==> NobodyJoins(up.script, group, from) && Within(up.channels, group, members)
    modifies up`channels, up`clock, up`trace
    ensures up.Valid() && up.clock >= old(up.clock) && AllGuarded(up.trace, group)
    ensures outcome.Raised? || outcome == Moved(|calls|)
    ensures outcome.Raised? ==> exists id :: id in members && Failed(up, id)
    ensures ToldOf(up.trace, calls, Some(to), members, outcome.Raised?)
    ensures forall c :: c in calls ==> c.id in members && c.name == names[c.id] && c.to == to
    ensures quiet && outcome.Moved? ==> Within(up.channels, group, [])
    ensures members != [] && LosesReply(up, old(up.clock), old(up.channels), members[0], group) ==>
              outcome.Raised? && calls == [] && Landings(up.trace) == [(members[0], to)]
  {
    calls := [];
    ghost var loses := members != [] && LosesReply(up, up.clock, up.channels, members[0], group);
    for k := 0 to |members|
      invariant k == 0 ==> calls == [] && up.clock == old(up.clock) && up.channels == old(up.channels)
      invariant k > 0 ==> !loses
      invariant AllReturned(up.trace)
      invariant up.Valid() && up.clock >= old(up.clock) && AllGuarded(up.trace, group)
      invariant Landings(up.trace) == Reported(calls)
      invariant forall c :: c in calls ==> c.id in members && c.name == names[c.id] && c.to == to
      invariant quiet ==> Within(up.channels, group, members[k..])
    {
      var turn := MoveOutMember(up, group, to, members, k, from, quiet);
      if turn.Broke? { return Raised, calls; }
      if turn.Sent? {
        var call := Call(members[k], names[members[k]], to);
        OneMoreCall(calls, call);
        calls := calls + [call];
      }
    }
    outcome := Moved(|calls|);
  }

  // ----- the whole

  /** The first baseline group that has an id. */
  function Target(groups: seq<GroupRow>): (r: Option<int>) {
    if groups == [] then None
    else if groups[0].id.Some? && groups[0].baseline then groups[0].id
    else Target(groups[1..])
  }

  predicate IsBaseline(row: GroupRow) {
    row.id.Some? && row.baseline
  }

  /** The `k`th group is a baseline one with this id, and none before it is a baseline one with any. */
  ghost predicate FirstBaseline(groups: seq<GroupRow>, k: nat, id: int) {
    && k < |groups| && groups[k].baseline && groups[k].id == Some(id)
    && forall i :: 0 <= i < k ==> !IsBaseline(groups[i])
  }

  lemma {:induction false} TargetIs(groups: seq<GroupRow>, id: int)
    ensures Target(groups) == Some(id) <==> exists k: nat :: FirstBaseline(groups, k, id)
  {
    if groups != [] {
      if IsBaseline(groups[0]) {
        assert groups[0].id == Some(id) ==> FirstBaseline(groups, 0, id);
      } else {
        TargetIs(groups[1..], id);
        if k: nat :| FirstBaseline(groups[1..], k, id) {
          forall i | 0 <= i < k + 1 ensures !IsBaseline(groups[i]) {
            if i > 0 { assert groups[1..][i - 1] == groups[i]; }
          }
          assert FirstBaseline(groups, k + 1, id);
        }
        if k: nat :| FirstBaseline(groups, k, id) {
          assert forall i :: 0 <= i < k - 1 ==> groups[1..][i] == groups[i + 1];
          assert FirstBaseline(groups[1..], k - 1, id);
        }
      }
    }
  }

  lemma {:induction false} NoTargetIs(groups: seq<GroupRow>)
    ensures Target(groups) == None <==> forall k :: 0 <= k < |groups| ==> !IsBaseline(groups[k])
  {
    if groups != [] {
      NoTargetIs(groups[1..]);
      assert forall k :: 0 < k < |groups| ==> groups[k] == groups[1..][k - 1];
    }
  }

  method ResolveTarget(groups: seq<GroupRow>) returns (target: Option<int>)
    ensures target == Target(groups)
    ensures forall id :: target == Some(id) <==> exists k: nat :: FirstBaseline(groups, k, id)
    ensures target == None <==> forall k :: 0 <= k < |groups| ==> !IsBaseline(groups[k])
  {
    NoTargetIs(groups);
    forall id ensures Target(groups) == Some(id) <==> exists k: nat :: FirstBaseline(groups, k, id) {
      TargetIs(groups, id);
    }
    for k := 0 to |groups|
      invariant Target(groups) == Target(groups[k..])
      invariant forall i :: 0 <= i < k ==> !(groups[i].id.Some? && groups[i].baseline)
    {
      if groups[k].id.Some? && groups[k].baseline { return groups[k].id; }
      assert groups[k..][1..] == groups[k + 1..];
    }
    return None;
  }

  lemma OnlyEditsSoFar(was: seq<Event>, trace: seq<Event>, group: int)
    requires OnlyEdits(was, trace) && AllGuarded(was, group) && Landings(was) == [] && AllReturned(was)
    ensures AllGuarded(trace, group) && Landings(trace) == [] && AllReturned(trace)
  {
    EditsLandNothing(was, trace);
    GuardedMore(was, trace, group);
  }

  /** What there is to say once the members are known. */
  ghost predicate TargetAnswer(group: int, groups: seq<GroupRow>, outcome: Outcome, calls: seq<Call>,
                               trace: seq<Event>) {
    match outcome
    case Moved(n) => n == |calls| && Target(groups).Some? && Target(groups) != Some(group)
    case NoTarget => Target(groups) == None && calls == [] && Landings(trace) == []
    case TargetIsGroup => Target(groups) == Some(group) && calls == [] && Landings(trace) == []
    case Raised => Target(groups) == None || Target(groups) == Some(group) ==> calls == [] && Landings(trace) == []
  }

  /** All goes well until the PATCH of the first member, whose reply is lost. */
  ghost predicate LosesFirst(up: Dispatcharr, clock: nat, channels: seq<Channel>, members: seq<int>, group: int) {
    && members != [] && Target(up.groups).Some? && Target(up.groups) != Some(group)
    && Calm(up.script, clock, clock + 1) && up.faults(clock + 1) == NoFault
    && LosesReply(up, clock + 1, channels, members[0], group)
  }

  method MoveToTarget(up: Dispatcharr, group: int, members: seq<int>, names: map<int, Label>, ghost quiet: bool)
    returns (outcome: Outcome, calls: seq<Call>)
    requires up.Valid() && AllGuarded(up.trace, group) && Landings(up.trace) == [] && AllReturned(up.trace)
    requires forall id :: id in members ==> id in names
    requires quiet ==> NobodyJoins(up.script, group, up.clock) && Within(up.channels, group, members)
    modifies up`channels, up`clock, up`trace
    ensures up.Valid() && up.clock > old(up.clock) && AllGuarded(up.trace, group)
    ensures TargetAnswer(group, up.groups, outcome, calls, up.trace)
    ensures outcome.Raised? && up.faults(up.clock) == NoFault ==>
              exists id :: id in members && forall c :: c in up.channels ==> c.id != id
    ensures ToldOf(up.trace, calls, Target(up.groups), members, outcome.Raised?)
    ensures forall c :: c in calls ==> c.id in members && c.name == names[c.id]
    ensures forall l :: l in Landings(up.trace) ==> Target(up.groups) == Some(l.1) && l.1 != group
    ensures quiet && outcome.Moved? ==> Within(up.channels, group, [])
    ensures LosesFirst(up, old(up.clock), old(up.channels), members, group) ==>
              outcome.Raised? && calls == [] && Landings(up.trace) == [(members[0], Target(up.groups).value)]
  {
    NoEdits(up.channels);
    ghost var scanned, was, there := up.clock, up.trace, up.channels;
    var groups, ok := up.GetChannelGroups();
    OnlyEditsSoFar(was, up.trace, group);
    if quiet { EditsAtKeepWithin(there, up.script, scanned, group, scanned, members); }
    if !ok { return Raised, []; }
    var target := ResolveTarget(groups);
    if target.None? { return NoTarget, []; }
    if target == Some(group) { return TargetIsGroup, []; }
    outcome, calls := MoveAll(up, group, target.value, members, names, scanned, quiet);
    AllTo(up.trace, calls, target.value, members, outcome.Raised?);
  }

  lemma AllTo(trace: seq<Event>, calls: seq<Call>, to: int, members: seq<int>, broke: bool)
    requires ToldOf(trace, calls, Some(to), members, broke) && forall c :: c in calls ==> c.to == to
    ensures forall l :: l in Landings(trace) ==> l.1 == to
  {
    forall l | l in Reported(calls) ensures l.1 == to {
      var k :| 0 <= k < |calls| && l == Reported(calls)[k];
      assert calls[k] in calls;
    }
  }

  /** The members listed are the channels of the group. */
  ghost predicate ListsMembers(channels: seq<Channel>, group: int, members: seq<int>) {
    forall id :: id in members <==> exists c :: c in channels && c.id == id && c.group == Some(group)
  }

  lemma AllMembers(channels: seq<Channel>, group: int)
    ensures ListsMembers(channels, group, MembersOf(channels, group))
  {
    forall id
      ensures id in MembersOf(channels, group) <==> exists c :: c in channels && c.id == id && c.group == Some(group)
    {
      MembersAre(channels, group, id);
    }
  }

  /** `reparent_group_channels`.  `members` is what the scan found, and `scanned` is when it ended. */
  method ReparentGroupChannels(up: Dispatcharr, group: int)
    returns (outcome: Outcome, calls: seq<Call>, ghost members: seq<int>, ghost names: map<int, Label>,
             ghost scanned: nat)
    requires up.Valid() && up.trace == []
    modifies up`channels, up`clock, up`trace
    ensures up.Valid() && AllGuarded(up.trace, group)
    ensures ToldOf(up.trace, calls, Target(up.groups), members, outcome.Raised?)
    ensures forall c :: c in calls ==> c.id in members && c.id in names && c.name == names[c.id]
    ensures members != [] ==> TargetAnswer(group, up.groups, outcome, calls, up.trace)
    ensures outcome.Raised? && up.faults(up.clock) == NoFault ==>
              exists id :: id in members && forall c :: c in up.channels ==> c.id != id
    ensures members == [] ==> calls == [] && (outcome.Raised? || outcome == Moved(0)) && up.clock == scanned
    ensures Calm(up.script, old(up.clock), scanned) && !outcome.Raised? ==>
              members == MembersOf(old(up.channels), group) && names == LabelsOf(old(up.channels), group)
    ensures Calm(up.script, old(up.clock), scanned) && !outcome.Raised? ==>
              ListsMembers(old(up.channels), group, members)
    ensures outcome.Moved? && Calm(up.script, old(up.clock), scanned) && NobodyJoins(up.script, group, scanned) ==>
              Within(up.channels, group, [])
    ensures Landings(up.trace) == Reported(calls) <==> AllReturned(up.trace)
    ensures forall l :: l in Landings(up.trace) ==>
              l.1 != group && exists k: nat :: FirstBaseline(up.groups, k, l.1)
    ensures outcome.NoTarget? ==> forall k :: 0 <= k < |up.groups| ==> !IsBaseline(up.groups[k])
    ensures outcome.TargetIsGroup? ==> exists k: nat :: FirstBaseline(up.groups, k, group)
    ensures |old(up.channels)| <= PAGE_SIZE && Calm(up.script, old(up.clock), old(up.clock) + 1) &&
            up.faults(old(up.clock) + 1) == NoFault &&
            LosesFirst(up, old(up.clock) + 1, old(up.channels), MembersOf(old(up.channels), group), group) ==>
              outcome.Raised? && calls == [] &&
              Landings(up.trace) == [(MembersOf(old(up.channels), group)[0], Target(up.groups).value)]
  {
    calls := [];
    var ids, labels, ok := ScanMembers(up, group);
    members, names, scanned := if ok then ids else [], labels, up.clock;
    OnlyEditsSoFar([], up.trace, group);
    if !ok { return Raised, calls, members, names, scanned; }
    AllMembers(old(up.channels), group);
    if ids == [] { return Moved(0), calls, members, names, scanned; }
    ghost var quiet := Calm(up.script, old(up.clock), scanned) && NobodyJoins(up.script, group, scanned);
    outcome, calls := MoveToTarget(up, group, ids, labels, quiet);
    NoTargetIs(up.groups);
    TargetIs(up.groups, group);
    forall l | l in Landings(up.trace) ensures exists k: nat :: FirstBaseline(up.groups, k, l.1) {
      TargetIs(up.groups, l.1);
    }
  }

  /** A run whose only fault is that the reply to its one PATCH is lost: the channel has moved, and nobody
      has been told. */
  method UntoldMove() returns (outcome: Outcome, calls: seq<Call>, ghost landed: seq<(int, int)>)
    ensures outcome == Raised && calls == [] && landed == [(1, 8)]
  {
    var channels := [Channel(1, Some(7), None)];
    var groups := [GroupRow(Some(8), true)];
    var up := new Dispatcharr(channels, [], n => if n == 4 then LostReply else NoFault, groups);
    assert channels[..0] == [] && MembersOf(channels[..0], 7) == [];
    assert MembersOf(channels, 7) == [1];
    ghost var members, names, scanned;
    outcome, calls, members, names, scanned := ReparentGroupChannels(up, 7);
    landed := Landings(up.trace);
  }

  /** With nobody in the list, nobody is in the group. */
  lemma NobodyWithin(channels: seq<Channel>, group: int)
    ensures Within(channels, group, []) <==> MembersOf(channels, group) == []
  {
    if c :| c in channels && c.group == Some(group) {
      assert c.id in MembersOf(channels, group);
    } else {
      NobodyListed(channels, group);
    }
  }

  lemma {:induction false} NobodyListed(channels: seq<Channel>, group: int)
    requires forall c :: c in channels ==> c.group != Some(group)
    ensures MembersOf(channels, group) == []
  {
    if channels != [] {
      var n := |channels| - 1;
      assert channels[n] in channels;
      NobodyListed(channels[..n], group);
    }
  }
}
