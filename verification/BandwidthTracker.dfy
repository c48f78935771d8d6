/** Byte deltas, connection edges and the throttled telemetry write, over whole runs of observations
    (`_process_channel_snapshot` in backend/bandwidth_tracker.py).  Times are in milliseconds. */
module BandwidthTracker {
  import opened Common

  type Ip = int

  datatype Channel = Channel(id: string, bytes: int, clientCount: nat, ips: seq<Ip>)

  /** How far a pass over the rows came before its write failed: past the rows before `row`, and of that row
      to the clients that it had opened, and closed. */
  datatype Reach = All | Until(row: nat, added: set<Ip>, closed: set<Ip>)

  /** Which of the writes of an observation landed, each of which may fail and is passed over: those of the day,
      of the channels and of the telemetry rows; what the closing of stopped channels left open; and how
      far the passes over newly active and over still active channels came. */
  datatype Outcome = Outcome(daily: bool, perChannel: bool, rows: bool, left: set<(string, Ip)>,
                             counts: Reach, times: Reach)
  {
    /** Nothing went wrong with the connections. */
    predicate ConnectionsLand() {
      left == {} && counts.All? && times.All?
    }
  }

  const WELL: Outcome := Outcome(true, true, true, {}, All, All)

  datatype Observation = Observation(channels: seq<Channel>, now: int, interval: nat, optOut: bool,
                                     outcome: Outcome)

  datatype Tracker = Tracker(lastBytes: map<string, int>, lastActive: set<string>, lastClients: map<string, set<Ip>>,
                             lastWriteAt: Option<int>, connections: set<(string, Ip)>,
                             daily: int, perChannel: map<string, int>)

  const START: Tracker := Tracker(map[], {}, map[], None, {}, 0, map[])

  // ----- what an observation says

  function BytesBy(channels: seq<Channel>): map<string, int> {
    if channels == [] then map[] else
      BytesBy(channels[..|channels| - 1])[channels[|channels| - 1].id := channels[|channels| - 1].bytes]
  }

  function Addresses(c: Channel): set<Ip> {
    set ip | ip in c.ips
  }

  function ClientsBy(channels: seq<Channel>): map<string, set<Ip>> {
    if channels == [] then map[] else
      ClientsBy(channels[..|channels| - 1])[channels[|channels| - 1].id := Addresses(channels[|channels| - 1])]
  }

  function ActiveIds(channels: seq<Channel>): set<string> {
    set c | c in channels && c.id != "" :: c.id
  }

  /** The (channel, client) pairs being served. */
  function Live(channels: seq<Channel>): set<(string, Ip)> {
    set c, ip | c in channels && c.id != "" && ip in c.ips :: (c.id, ip)
  }

  /** The counter's growth since the last observation, none for a channel not in it or a counter reset. */
  function Delta(last: map<string, int>, c: Channel): nat {
    if c.id in last && c.bytes > last[c.id] then c.bytes - last[c.id] else 0
  }

  function TotalDelta(last: map<string, int>, channels: seq<Channel>): nat {
    if channels == [] then 0 else
      TotalDelta(last, channels[..|channels| - 1]) + Delta(last, channels[|channels| - 1])
  }

  function Or<K, V>(m: map<K, V>, k: K, v: V): V {
    if k in m then m[k] else v
  }

  function Accrue(perChannel: map<string, int>, last: map<string, int>, channels: seq<Channel>): map<string, int> {
    if channels == [] then perChannel else
      AccrueRow(Accrue(perChannel, last, channels[..|channels| - 1]), last, channels[|channels| - 1])
  }

  function AccrueRow(before: map<string, int>, last: map<string, int>, c: Channel): map<string, int> {
    if c.id != "" && (Delta(last, c) > 0 || c.clientCount > 0)
    then before[c.id := Or(before, c.id, 0) + Delta(last, c)] else before
  }

  /** Did the set of channels, or of a channel's clients, change? */
  predicate Edge(t: Tracker, channels: seq<Channel>) {
    || ActiveIds(channels) != t.lastActive
    || exists id :: id in ClientsBy(channels) && ClientsBy(channels)[id] != Or(t.lastClients, id, {})
  }

  predicate Due(t: Tracker, o: Observation) {
    t.lastWriteAt.None? || o.now - t.lastWriteAt.value >= o.interval
  }

  predicate Writes(t: Tracker, o: Observation) {
    !o.optOut && (Edge(t, o.channels) || Due(t, o))
  }

  /** The time a write stands for: since the last write, or one nominal interval. */
  function Stamp(t: Tracker, o: Observation): nat {
    if t.lastWriteAt.None? then o.interval
    else if o.now < t.lastWriteAt.value then 0 else o.now - t.lastWriteAt.value
  }

  // ----- connections

  /** What one row does to the connections of its channel: opens some, then closes others. */
  datatype Move = Move(id: string, added: set<Ip>, closed: set<Ip>)

  function Pairs(id: string, ips: set<Ip>): set<(string, Ip)> {
    set ip | ip in ips :: (id, ip)
  }

  function Made(connections: set<(string, Ip)>, m: Move): set<(string, Ip)> {
    connections + Pairs(m.id, m.added) - Pairs(m.id, m.closed)
  }

  function Pass(connections: set<(string, Ip)>, moves: seq<Move>): set<(string, Ip)> {
    if moves == [] then connections else
      Made(Pass(connections, moves[..|moves| - 1]), moves[|moves| - 1])
  }

  function OpenedTo(reach: Reach, at: nat, ips: set<Ip>): set<Ip> {
    if reach.All? || at < reach.row then ips else if at == reach.row then ips * reach.added else {}
  }

  /** A row's clients are closed once all that it opens have been. */
  function ClosedTo(reach: Reach, at: nat, unknown: set<Ip>, gone: set<Ip>): set<Ip> {
    if reach.All? || at < reach.row then gone
    else if at == reach.row && unknown <= reach.added then gone * reach.closed else {}
  }

  function Unknown(t: Tracker, c: Channel): set<Ip> {
    Addresses(c) - Or(t.lastClients, c.id, {})
  }

  /** The clients of the channel's last row that this row lacks: by now those are what is remembered as the
      last clients. */
  function Gone(channels: seq<Channel>, c: Channel): set<Ip> {
    Or(ClientsBy(channels), c.id, {}) - Addresses(c)
  }

  /** Of a channel not active last time all clients are opened; of another those not known then, and those
      taken to be gone are closed. */
  function MoveOf(t: Tracker, o: Observation, k: nat): Move
    requires k < |o.channels|
  {
    var c := o.channels[k];
    if c.id == "" then Move("", {}, {})
    else if c.id !in t.lastActive then Move(c.id, OpenedTo(o.outcome.counts, k, Addresses(c)), {})
    else Move(c.id, OpenedTo(o.outcome.times, k, Unknown(t, c)),
              ClosedTo(o.outcome.times, k, Unknown(t, c), Gone(o.channels, c)))
  }

  function MovesOf(t: Tracker, o: Observation, n: nat): seq<Move>
    requires n <= |o.channels|
  {
    if n == 0 then [] else MovesOf(t, o, n - 1) + [MoveOf(t, o, n - 1)]
  }

  predicate Stopped(t: Tracker, o: Observation, id: string) {
    id in t.lastActive && id !in ActiveIds(o.channels)
  }

  function Unstopped(t: Tracker, o: Observation): set<(string, Ip)> {
    set k | k in t.connections && (!Stopped(t, o, k.0) || k in o.outcome.left)
  }

  function Connected(t: Tracker, o: Observation): set<(string, Ip)> {
    Pass(Unstopped(t, o), MovesOf(t, o, |o.channels|))
  }

  function Observe(t: Tracker, o: Observation): Tracker {
    Tracker(BytesBy(o.channels), ActiveIds(o.channels), ClientsBy(o.channels),
            if Writes(t, o) then Some(o.now) else t.lastWriteAt,
            Connected(t, o),
            t.daily + if o.outcome.daily then TotalDelta(t.lastBytes, o.channels) else 0,
            if o.outcome.perChannel then Accrue(t.perChannel, t.lastBytes, o.channels) else t.perChannel)
  }

  /** Every client remembered of an active channel has a connection. */
  ghost predicate Covered(t: Tracker) {
    forall id, ip :: id in t.lastActive && id in t.lastClients && ip in t.lastClients[id] ==> (id, ip) in t.connections
  }

  /** A row of an active channel, with its place, its clients and those of them not known last time. */
  datatype Watched = Watched(at: nat, id: string, ips: set<Ip>, unknown: set<Ip>)

  class Bandwidth {
    var lastBytes: map<string, int>
    var lastActive: set<string>
    var lastClients: map<string, set<Ip>>
    var lastWriteAt: Option<int>
    var connections: set<(string, Ip)>
    var daily: int
    var perChannel: map<string, int>

    ghost function State(): Tracker
      reads this
    {
      Tracker(lastBytes, lastActive, lastClients, lastWriteAt, connections, daily, perChannel)
    }

    constructor ()
      ensures State() == START && Covered(State())
    {
      lastBytes, lastActive, lastClients, lastWriteAt := map[], {}, map[], None;
      connections, daily, perChannel := {}, 0, map[];
    }

    /** The loop over the snapshot: its totals, who is active, and the rows to watch. */
    method Scan(channels: seq<Channel>)
      returns (currentBytes: map<string, int>, currentActive: set<string>, currentClients: map<string, set<Ip>>,
               totalDelta: nat, bandwidth: map<string, int>, newly: seq<Watched>, still: seq<Watched>)
      ensures currentBytes == BytesBy(channels) && currentClients == ClientsBy(channels)
      ensures currentActive == ActiveIds(channels)
      ensures totalDelta == TotalDelta(lastBytes, channels) && bandwidth == Accrue(perChannel, lastBytes, channels)
      ensures newly == WatchedBy(State(), channels, false) && still == WatchedBy(State(), channels, true)
    {
      currentBytes, currentActive, currentClients := map[], {}, map[];
      totalDelta, bandwidth, newly, still := 0, perChannel, [], [];
      ghost var t := State();
      for k := 0 to |channels|
        invariant currentBytes == BytesBy(channels[..k]) && currentClients == ClientsBy(channels[..k])
        invariant currentActive == ActiveIds(channels[..k])
        invariant totalDelta == TotalDelta(lastBytes, channels[..k])
        invariant bandwidth == Accrue(perChannel, lastBytes, channels[..k])
        invariant newly == WatchedBy(t, channels[..k], false) && still == WatchedBy(t, channels[..k], true)
      {
        var c := channels[k];
        OneMoreTotal(channels, k, lastBytes, perChannel);
        OneMoreChannel(channels, k);
        currentBytes := currentBytes[c.id := c.bytes];
        currentClients := currentClients[c.id := Addresses(c)];
        var delta := Delta(lastBytes, c);
        totalDelta := totalDelta + delta;
        bandwidth := AccrueRow(bandwidth, lastBytes, c);
        if c.id != "" { currentActive := currentActive + {c.id}; }
        newly, still := WatchRow(channels, k, newly, still);
      }
      assert channels[..|channels|] == channels;
    }

    method WatchRow(channels: seq<Channel>, k: nat, newly: seq<Watched>, still: seq<Watched>)
      returns (newly': seq<Watched>, still': seq<Watched>)
      requires k < |channels|
      requires newly == WatchedBy(State(), channels[..k], false) && still == WatchedBy(State(), channels[..k], true)
      ensures newly' == WatchedBy(State(), channels[..k + 1], false)
      ensures still' == WatchedBy(State(), channels[..k + 1], true)
    {
      newly', still' := newly, still;
      WatchedMore(State(), channels, k, false);
      WatchedMore(State(), channels, k, true);
      var c := channels[k];
      if c.id != "" {
        var w := Watched(k, c.id, Addresses(c), Addresses(c) - Or(lastClients, c.id, {}));
        if c.id !in lastActive { newly' := newly + [w]; } else { still' := still + [w]; }
      }
    }

    method Changed(channels: seq<Channel>, currentActive: set<string>, currentClients: map<string, set<Ip>>,
                   newly: seq<Watched>, stopped: set<string>)
      returns (changed: bool)
      requires currentActive == ActiveIds(channels) && currentClients == ClientsBy(channels)
      requires stopped == lastActive - currentActive && newly == WatchedBy(State(), channels, false)
      ensures changed == Edge(State(), channels)
    {
      changed := newly != [] || stopped != {};
      NewlyIff(State(), channels);
      EdgeOfActive(lastActive, currentActive);
      if !changed {
        changed := exists id | id in currentClients :: currentClients[id] != Or(lastClients, id, {});
      }
    }

    /** Newly active channels: every client is opened. */
    method UpdateWatchCounts(newly: seq<Watched>, reach: Reach)
      modifies `connections
      ensures connections == Pass(old(connections), CountMoves(newly, reach))
    {
      for k := 0 to |newly|
        invariant connections == Pass(old(connections), CountMoves(newly[..k], reach))
      {
        assert newly[..k + 1][..k] == newly[..k];
        var w := newly[k];
        PassOne(old(connections), CountMoves(newly[..k], reach), CountMove(w, reach));
        connections := connections + Pairs(w.id, OpenedTo(reach, w.at, w.ips)) - Pairs(w.id, {});
      }
      assert newly[..|newly|] == newly;
    }

    /** Still active channels: clients that are new are opened, and those that the row lacks closed. */
    method UpdateWatchTime(still: seq<Watched>, reach: Reach)
      modifies `connections
      ensures connections == Pass(old(connections), TimeMoves(still, lastClients, reach))
    {
      for k := 0 to |still|
        invariant connections == Pass(old(connections), TimeMoves(still[..k], lastClients, reach))
      {
        assert still[..k + 1][..k] == still[..k];
        var w := still[k];
        PassOne(old(connections), TimeMoves(still[..k], lastClients, reach), TimeMove(w, lastClients, reach));
        connections := connections + Pairs(w.id, OpenedTo(reach, w.at, w.unknown));
        var gone := Or(lastClients, w.id, {}) - w.ips;
        connections := connections - Pairs(w.id, ClosedTo(reach, w.at, w.unknown, gone));
      }
      assert still[..|still|] == still;
    }

    /** When channels stop, their connections are closed. */
    method CloseClientConnections(o: Observation, stopped: set<string>)
      requires stopped == lastActive - ActiveIds(o.channels)
      modifies `connections
      ensures connections == Unstopped(old(State()), o)
    {
      connections := set k | k in connections && (k.0 !in stopped || k in o.outcome.left);
    }

    method Watch(ghost t: Tracker, o: Observation, newly: seq<Watched>, still: seq<Watched>)
      requires newly == WatchedBy(t, o.channels, false) && still == WatchedBy(t, o.channels, true)
      requires lastClients == ClientsBy(o.channels) && connections == Unstopped(t, o)
      modifies `connections
      ensures connections == Connected(t, o)
    {
      UpdateWatchCounts(newly, o.outcome.counts);
      UpdateWatchTime(still, o.outcome.times);
      TwoPasses(t, o, Unstopped(t, o));
    }

    /** What the day and the channels are credited with. */
    method Credit(o: Observation, totalDelta: nat, bandwidth: map<string, int>)
      modifies `daily, `perChannel
      ensures daily == old(daily) + if o.outcome.daily && (totalDelta > 0 || o.channels != []) then totalDelta else 0
      ensures perChannel == if o.outcome.perChannel then bandwidth else old(perChannel)
    {
      if (totalDelta > 0 || |o.channels| > 0) && o.outcome.daily { daily := daily + totalDelta; }
      if o.outcome.perChannel { perChannel := bandwidth; }
    }

    /** Phase A: everything but the telemetry write. */
    method Account(o: Observation) returns (changed: bool)
      modifies `lastBytes, `lastActive, `lastClients, `connections, `daily, `perChannel
      ensures changed == Edge(old(State()), o.channels)
      ensures State() == Observe(old(State()), o).(lastWriteAt := lastWriteAt)
    {
      ghost var was := State();
      var currentBytes, currentActive, currentClients, totalDelta, bandwidth, newly, still := Scan(o.channels);
      var stopped := lastActive - currentActive;
      changed := Changed(o.channels, currentActive, currentClients, newly, stopped);
      CloseClientConnections(o, stopped);
      lastBytes, lastActive, lastClients := currentBytes, currentActive, currentClients;
      Credit(o, totalDelta, bandwidth);
      Watch(was, o, newly, still);
    }

    /** The stamp of the batch of telemetry rows, if one is written. */
    method ProcessChannelSnapshot(o: Observation) returns (stamp: Option<nat>)
      modifies this
      ensures State() == Observe(old(State()), o)
      ensures stamp == if Writes(old(State()), o) then Some(Stamp(old(State()), o)) else None
    {
      var changed := Account(o);
      var due := lastWriteAt.None? || o.now - lastWriteAt.value >= o.interval;
      if o.optOut || !(changed || due) { return None; }
      stamp := Some(if lastWriteAt.None? then o.interval
                    else if o.now < lastWriteAt.value then 0 else o.now - lastWriteAt.value);
      lastWriteAt := Some(o.now);
    }
  }

  // ----- the two passes over the rows are one

  /** The rows of channels that were active last time, or of those that were not. */
  function WatchedBy(t: Tracker, channels: seq<Channel>, before: bool): seq<Watched> {
    if channels == [] then [] else
      var n := |channels| - 1;
      var c := channels[n];
      WatchedRow(t, WatchedBy(t, channels[..n], before), c, n, before)
  }

  function WatchedRow(t: Tracker, rows: seq<Watched>, c: Channel, at: nat, before: bool): seq<Watched> {
    if c.id != "" && (c.id in t.lastActive) == before
    then rows + [Watched(at, c.id, Addresses(c), Unknown(t, c))] else rows
  }

  function CountMove(w: Watched, reach: Reach): Move {
    Move(w.id, OpenedTo(reach, w.at, w.ips), {})
  }

  function CountMoves(newly: seq<Watched>, reach: Reach): seq<Move> {
    if newly == [] then [] else
      CountMoves(newly[..|newly| - 1], reach) + [CountMove(newly[|newly| - 1], reach)]
  }

  function TimeMove(w: Watched, lastClients: map<string, set<Ip>>, reach: Reach): Move {
    Move(w.id, OpenedTo(reach, w.at, w.unknown), ClosedTo(reach, w.at, w.unknown, Or(lastClients, w.id, {}) - w.ips))
  }

  function TimeMoves(still: seq<Watched>, lastClients: map<string, set<Ip>>, reach: Reach): seq<Move> {
    if still == [] then [] else
      TimeMoves(still[..|still| - 1], lastClients, reach) + [TimeMove(still[|still| - 1], lastClients, reach)]
  }

  lemma PassOne(connections: set<(string, Ip)>, moves: seq<Move>, m: Move)
    ensures Pass(connections, moves + [m]) == Made(Pass(connections, moves), m)
  {
    assert (moves + [m])[..|moves|] == moves;
  }

  /** What the moves make of one connection. */
  predicate Has(held: bool, moves: seq<Move>, id: string, ip: Ip) {
    if moves == [] then held else
      var m := moves[|moves| - 1];
      if m.id != id then Has(held, moves[..|moves| - 1], id, ip)
      else ip !in m.closed && (ip in m.added || Has(held, moves[..|moves| - 1], id, ip))
  }

  lemma {:induction false} PassHas(connections: set<(string, Ip)>, moves: seq<Move>, id: string, ip: Ip)
    ensures (id, ip) in Pass(connections, moves) <==> Has((id, ip) in connections, moves, id, ip)
  {
    if moves != [] {
      var before, m := Pass(connections, moves[..|moves| - 1]), moves[|moves| - 1];
      PassHas(connections, moves[..|moves| - 1], id, ip);
      MadeHas(before, m, id, ip);
    }
  }

  lemma MadeHas(before: set<(string, Ip)>, m: Move, id: string, ip: Ip)
    ensures (id, ip) in Made(before, m) <==>
              if m.id != id then (id, ip) in before
              else ip !in m.closed && (ip in m.added || (id, ip) in before)
  {
  }

  lemma HasOne(held: bool, moves: seq<Move>, m: Move, id: string, ip: Ip)
    ensures Has(held, moves + [m], id, ip) ==
              if m.id != id then Has(held, moves, id, ip)
              else ip !in m.closed && (ip in m.added || Has(held, moves, id, ip))
  {
    assert (moves + [m])[..|moves|] == moves;
  }

  lemma WatchedMore(t: Tracker, channels: seq<Channel>, k: nat, before: bool)
    requires k < |channels|
    ensures WatchedBy(t, channels[..k + 1], before) ==
              WatchedRow(t, WatchedBy(t, channels[..k], before), channels[k], k, before)
  {
    assert channels[..k + 1][..k] == channels[..k];
  }

  lemma CountOne(newly: seq<Watched>, w: Watched, reach: Reach)
    ensures CountMoves(newly + [w], reach) == CountMoves(newly, reach) + [CountMove(w, reach)]
  {
    assert (newly + [w])[..|newly|] == newly;
  }

  lemma TimeOne(still: seq<Watched>, w: Watched, lastClients: map<string, set<Ip>>, reach: Reach)
    ensures TimeMoves(still + [w], lastClients, reach) ==
              TimeMoves(still, lastClients, reach) + [TimeMove(w, lastClients, reach)]
  {
    assert (still + [w])[..|still|] == still;
  }

  function CountsTo(t: Tracker, o: Observation, n: nat): seq<Move>
    requires n <= |o.channels|
  {
    CountMoves(WatchedBy(t, o.channels[..n], false), o.outcome.counts)
  }

  function TimesTo(t: Tracker, o: Observation, n: nat): seq<Move>
    requires n <= |o.channels|
  {
    TimeMoves(WatchedBy(t, o.channels[..n], true), ClientsBy(o.channels), o.outcome.times)
  }

  lemma CountsMore(t: Tracker, o: Observation, k: nat)
    requires k < |o.channels|
    ensures var c := o.channels[k];
            CountsTo(t, o, k + 1) == CountsTo(t, o, k) +
              if c.id != "" && c.id !in t.lastActive then [MoveOf(t, o, k)] else []
  {
    var c := o.channels[k];
    WatchedMore(t, o.channels, k, false);
    if c.id != "" && c.id !in t.lastActive {
      CountOne(WatchedBy(t, o.channels[..k], false), Watched(k, c.id, Addresses(c), Unknown(t, c)), o.outcome.counts);
    } else {
      assert WatchedBy(t, o.channels[..k + 1], false) == WatchedBy(t, o.channels[..k], false);
    }
  }

  lemma TimesMore(t: Tracker, o: Observation, k: nat)
    requires k < |o.channels|
    ensures var c := o.channels[k];
            TimesTo(t, o, k + 1) == TimesTo(t, o, k) +
              if c.id != "" && c.id in t.lastActive then [MoveOf(t, o, k)] else []
  {
    var c := o.channels[k];
    WatchedMore(t, o.channels, k, true);
    if c.id != "" && c.id in t.lastActive {
      TimeOne(WatchedBy(t, o.channels[..k], true), Watched(k, c.id, Addresses(c), Unknown(t, c)),
              ClientsBy(o.channels), o.outcome.times);
    } else {
      assert WatchedBy(t, o.channels[..k + 1], true) == WatchedBy(t, o.channels[..k], true);
    }
  }

  lemma EachPassMore(t: Tracker, o: Observation, k: nat, held: bool, id: string, ip: Ip)
    requires k < |o.channels|
    ensures Has(held, MovesOf(t, o, k + 1), id, ip) == Has(held, MovesOf(t, o, k) + [MoveOf(t, o, k)], id, ip)
    ensures Has(held, CountsTo(t, o, k + 1), id, ip) ==
              if id in t.lastActive then Has(held, CountsTo(t, o, k), id, ip)
              else Has(held, CountsTo(t, o, k) + [MoveOf(t, o, k)], id, ip)
    ensures Has(held, TimesTo(t, o, k + 1), id, ip) ==
              if id in t.lastActive then Has(held, TimesTo(t, o, k) + [MoveOf(t, o, k)], id, ip)
              else Has(held, TimesTo(t, o, k), id, ip)
  {
    var c, m, counts, times := o.channels[k], MoveOf(t, o, k), CountsTo(t, o, k), TimesTo(t, o, k);
    CountsMore(t, o, k);
    TimesMore(t, o, k);
    HasOne(held, counts, m, id, ip);
    HasOne(held, times, m, id, ip);
    assert m.id == c.id && (c.id == "" ==> m == Move("", {}, {}));
    assert counts + [] == counts && times + [] == times;
  }

  /** The moves of a channel's rows are all in one of the passes. */
  lemma {:induction false} EachPass(t: Tracker, o: Observation, n: nat, held: bool, id: string, ip: Ip)
    requires n <= |o.channels|
    ensures Has(held, CountsTo(t, o, n), id, ip) ==
              if id in t.lastActive then held else Has(held, MovesOf(t, o, n), id, ip)
    ensures Has(held, TimesTo(t, o, n), id, ip) ==
              if id in t.lastActive then Has(held, MovesOf(t, o, n), id, ip) else held
  {
    if n > 0 {
      var k := n - 1;
      EachPass(t, o, k, held, id, ip);
      EachPassMore(t, o, k, held, id, ip);
    } else {
      assert CountsTo(t, o, 0) == [] && TimesTo(t, o, 0) == [];
    }
  }

  lemma TwoPasses(t: Tracker, o: Observation, connections: set<(string, Ip)>)
    ensures var newly, still := WatchedBy(t, o.channels, false), WatchedBy(t, o.channels, true);
            Pass(Pass(connections, CountMoves(newly, o.outcome.counts)),
                 TimeMoves(still, ClientsBy(o.channels), o.outcome.times)) ==
              Pass(connections, MovesOf(t, o, |o.channels|))
  {
    var newly := CountMoves(WatchedBy(t, o.channels, false), o.outcome.counts);
    var still := TimeMoves(WatchedBy(t, o.channels, true), ClientsBy(o.channels), o.outcome.times);
    assert o.channels[..|o.channels|] == o.channels;
    forall k: (string, Ip)
      ensures k in Pass(Pass(connections, newly), still) <==> k in Pass(connections, MovesOf(t, o, |o.channels|))
    {
      PassHas(connections, newly, k.0, k.1);
      PassHas(Pass(connections, newly), still, k.0, k.1);
      PassHas(connections, MovesOf(t, o, |o.channels|), k.0, k.1);
      EachPass(t, o, |o.channels|, k in connections, k.0, k.1);
      EachPass(t, o, |o.channels|, k in Pass(connections, newly), k.0, k.1);
    }
  }

  lemma {:induction false} NewlyIff(t: Tracker, channels: seq<Channel>)
    ensures WatchedBy(t, channels, false) != [] <==> !(ActiveIds(channels) <= t.lastActive)
  {
    if channels != [] {
      var k := |channels| - 1;
      NewlyIff(t, channels[..k]);
      OneMoreChannel(channels, k);
      assert channels[..k + 1] == channels;
    }
  }

  lemma EdgeOfActive(last: set<string>, current: set<string>)
    ensures !(current <= last) || last - current != {} <==> current != last
  {
    if current <= last && last - current == {} {
      assert forall x :: x in last ==> x in last - current || x in current;
      assert current == last;
    }
  }

  lemma OneMoreTotal(channels: seq<Channel>, k: nat, last: map<string, int>, perChannel: map<string, int>)
    requires k < |channels|
    ensures BytesBy(channels[..k + 1]) == BytesBy(channels[..k])[channels[k].id := channels[k].bytes]
    ensures ClientsBy(channels[..k + 1]) == ClientsBy(channels[..k])[channels[k].id := Addresses(channels[k])]
    ensures TotalDelta(last, channels[..k + 1]) == TotalDelta(last, channels[..k]) + Delta(last, channels[k])
    ensures Accrue(perChannel, last, channels[..k + 1]) ==
              AccrueRow(Accrue(perChannel, last, channels[..k]), last, channels[k])
  {
    assert channels[..k + 1][..k] == channels[..k];
  }

  lemma OneMoreChannel(channels: seq<Channel>, k: nat)
    requires k < |channels|
    ensures ActiveIds(channels[..k + 1]) ==
              if channels[k].id != "" then ActiveIds(channels[..k]) + {channels[k].id} else ActiveIds(channels[..k])
  {
    assert channels[..k + 1] == channels[..k] + [channels[k]];
  }

  // ----- what an observation does to one connection

  ghost predicate OpensAt(t: Tracker, o: Observation, j: nat, id: string, ip: Ip) {
    j < |o.channels| && MoveOf(t, o, j).id == id && ip in MoveOf(t, o, j).added
  }

  ghost predicate ClosesAt(t: Tracker, o: Observation, j: nat, id: string, ip: Ip) {
    j < |o.channels| && MoveOf(t, o, j).id == id && ip in MoveOf(t, o, j).closed
  }

  /** A row opens the connection, and none from there on closes it. */
  ghost predicate Opened(t: Tracker, o: Observation, id: string, ip: Ip) {
    exists j: nat :: OpensAt(t, o, j, id, ip) && forall i: nat :: j <= i < |o.channels| ==> !ClosesAt(t, o, i, id, ip)
  }

  /** The channel stopped, and this connection was closed with it, or a row closes it. */
  ghost predicate Shut(t: Tracker, o: Observation, id: string, ip: Ip) {
    (Stopped(t, o, id) && (id, ip) !in o.outcome.left) || exists j: nat :: ClosesAt(t, o, j, id, ip)
  }

  ghost predicate OpenedBefore(t: Tracker, o: Observation, n: nat, id: string, ip: Ip) {
    exists j: nat :: j < n && OpensAt(t, o, j, id, ip) && forall i: nat :: j <= i < n ==> !ClosesAt(t, o, i, id, ip)
  }

  lemma {:induction false} HasIff(held: bool, t: Tracker, o: Observation, n: nat, id: string, ip: Ip)
    requires n <= |o.channels|
    ensures Has(held, MovesOf(t, o, n), id, ip) <==>
              OpenedBefore(t, o, n, id, ip) || (held && forall i: nat :: i < n ==> !ClosesAt(t, o, i, id, ip))
  {
    if n > 0 {
      HasIff(held, t, o, n - 1, id, ip);
      HasOne(held, MovesOf(t, o, n - 1), MoveOf(t, o, n - 1), id, ip);
      OpenedBeforeMore(t, o, n, id, ip);
    }
  }

  lemma OpenedBeforeMore(t: Tracker, o: Observation, n: nat, id: string, ip: Ip)
    requires 0 < n
    ensures OpenedBefore(t, o, n, id, ip) <==>
              !ClosesAt(t, o, n - 1, id, ip) &&
              (OpensAt(t, o, n - 1, id, ip) || OpenedBefore(t, o, n - 1, id, ip))
  {
    if OpenedBefore(t, o, n, id, ip) {
      var j: nat :| j < n && OpensAt(t, o, j, id, ip) && forall i: nat :: j <= i < n ==> !ClosesAt(t, o, i, id, ip);
      assert j < n - 1 ==> forall i: nat :: j <= i < n - 1 ==> !ClosesAt(t, o, i, id, ip);
    }
  }

  /** A connection is held after an observation exactly when a row opened it for good, or it was held and
      nothing shut it. */
  lemma HeldAfter(t: Tracker, o: Observation, id: string, ip: Ip)
    ensures (id, ip) in Observe(t, o).connections <==>
              Opened(t, o, id, ip) || ((id, ip) in t.connections && !Shut(t, o, id, ip))
  {
    var n := |o.channels|;
    PassHas(Unstopped(t, o), MovesOf(t, o, n), id, ip);
    HasIff((id, ip) in Unstopped(t, o), t, o, n, id, ip);
    assert OpenedBefore(t, o, n, id, ip) <==> Opened(t, o, id, ip);
  }

  /** The last row of a channel is what is remembered of it. */
  lemma {:induction false} LastRow(channels: seq<Channel>, id: string) returns (j: nat)
    requires id in ClientsBy(channels)
    ensures j < |channels| && channels[j].id == id && Addresses(channels[j]) == ClientsBy(channels)[id]
    ensures forall i :: j < i < |channels| ==> channels[i].id != id
  {
    var k := |channels| - 1;
    if channels[k].id == id {
      j := k;
    } else {
      j := LastRow(channels[..k], id);
      assert forall i :: j < i < k ==> channels[i] == channels[..k][i];
    }
  }

  /** Known last time on a channel that was then active. */
  ghost predicate Continuing(t: Tracker, id: string, ip: Ip) {
    id in t.lastActive && ip in Or(t.lastClients, id, {})
  }

  /** On the last row of an active channel. */
  ghost predicate Remembered(o: Observation, id: string, ip: Ip) {
    id in ActiveIds(o.channels) && ip in Or(ClientsBy(o.channels), id, {})
  }

  /** A row closes a client that was known and that the channel's last row still has. */
  ghost predicate SomeCut(t: Tracker, o: Observation) {
    exists id, ip, j :: Continuing(t, id, ip) && Remembered(o, id, ip) && ClosesAt(t, o, j, id, ip)
  }

  /** The write failed that would have opened a new client, and the channel had no connection of its left. */
  ghost predicate SomeMissed(t: Tracker, o: Observation) {
    exists id, ip :: !Continuing(t, id, ip) && Remembered(o, id, ip) && !Opened(t, o, id, ip) &&
                     !((id, ip) in t.connections && !Shut(t, o, id, ip))
  }

  /** Clients that have their connections keep them over an observation, and new ones get theirs, unless a row
      closed one that the last row still has, or the write that would have opened one failed. */
  lemma CoveredAfter(t: Tracker, o: Observation)
    requires Covered(t)
    ensures Covered(Observe(t, o)) <==> !SomeCut(t, o) && !SomeMissed(t, o)
  {
    var u := Observe(t, o);
    forall id, ip | Remembered(o, id, ip) && Continuing(t, id, ip)
      ensures (id, ip) in u.connections <==> forall j: nat :: !ClosesAt(t, o, j, id, ip) {
      HeldAfter(t, o, id, ip);
      NotOpened(t, o, id, ip);
    }
    forall id, ip | Remembered(o, id, ip) && !Continuing(t, id, ip)
      ensures (id, ip) in u.connections <==>
                Opened(t, o, id, ip) || ((id, ip) in t.connections && !Shut(t, o, id, ip)) {
      HeldAfter(t, o, id, ip);
    }
    assert Covered(u) <==> forall id, ip :: Remembered(o, id, ip) ==> (id, ip) in u.connections;
  }

  lemma NotOpened(t: Tracker, o: Observation, id: string, ip: Ip)
    requires Continuing(t, id, ip)
    ensures !Opened(t, o, id, ip)
  {
  }

  /** A client without a connection is given none for as long as it is taken to be continuing. */
  lemma NeverReopened(t: Tracker, o: Observation, id: string, ip: Ip)
    requires Continuing(t, id, ip) && (id, ip) !in t.connections
    ensures (id, ip) !in Observe(t, o).connections
  {
    NotOpened(t, o, id, ip);
    HeldAfter(t, o, id, ip);
  }

  /** A row of a still active channel lacks a client that was known and that its last row has. */
  ghost predicate SomeRowLacks(t: Tracker, o: Observation) {
    exists id, ip, j :: Continuing(t, id, ip) && Remembered(o, id, ip) && RowLacks(o, j, id, ip)
  }

  ghost predicate RowLacks(o: Observation, j: nat, id: string, ip: Ip) {
    j < |o.channels| && o.channels[j].id == id && ip !in o.channels[j].ips
  }

  /** When the writes land, only such a row can leave a client without its connection. */
  lemma WhenWritesLand(t: Tracker, o: Observation)
    requires o.outcome.ConnectionsLand()
    ensures SomeCut(t, o) <==> SomeRowLacks(t, o)
    ensures !SomeMissed(t, o)
  {
    forall id, ip, j: nat | Continuing(t, id, ip) && Remembered(o, id, ip)
      ensures ClosesAt(t, o, j, id, ip) <==> RowLacks(o, j, id, ip) {
      LacksCloses(t, o, j, id, ip);
    }
    forall id, ip | !Continuing(t, id, ip) && Remembered(o, id, ip) ensures Opened(t, o, id, ip) {
      OpensAll(t, o, id, ip);
    }
  }

  lemma LacksCloses(t: Tracker, o: Observation, j: nat, id: string, ip: Ip)
    requires o.outcome.ConnectionsLand() && Continuing(t, id, ip) && Remembered(o, id, ip)
    ensures ClosesAt(t, o, j, id, ip) <==> RowLacks(o, j, id, ip)
  {
  }

  lemma OpensAll(t: Tracker, o: Observation, id: string, ip: Ip)
    requires o.outcome.ConnectionsLand() && !Continuing(t, id, ip) && Remembered(o, id, ip)
    ensures Opened(t, o, id, ip)
  {
    var j := LastRow(o.channels, id);
    assert OpensAt(t, o, j, id, ip);
    forall i | j <= i < |o.channels| ensures !ClosesAt(t, o, i, id, ip) {}
  }
}
