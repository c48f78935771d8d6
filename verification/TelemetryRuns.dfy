/** What a whole run of observations adds up to (backend/bandwidth_tracker.py). */
module TelemetryRuns {
  import opened Common
  import opened BandwidthTracker

  function After(t: Tracker, run: seq<Observation>): Tracker {
    if run == [] then t else Observe(After(t, run[..|run| - 1]), run[|run| - 1])
  }

  // ----- the telemetry writes

  /** A batch of rows, and whether it landed. */
  datatype Write = Write(at: int, stamp: nat, edge: bool, interval: nat, landed: bool)

  function WriteOf(t: Tracker, o: Observation): seq<Write> {
    if Writes(t, o) then [Write(o.now, Stamp(t, o), Edge(t, o.channels), o.interval, o.outcome.rows)] else []
  }

  /** The telemetry writes of a run, in order. */
  function Log(t: Tracker, run: seq<Observation>): seq<Write> {
    if run == [] then [] else
      Log(t, run[..|run| - 1]) + WriteOf(After(t, run[..|run| - 1]), run[|run| - 1])
  }

  /** The stamps of the batches that landed, or of those that did not. */
  function Stamps(log: seq<Write>, landed: bool): nat {
    if log == [] then 0 else
      Stamps(log[..|log| - 1], landed) + if log[|log| - 1].landed == landed then log[|log| - 1].stamp else 0
  }

  lemma {:induction false} NoneLost(log: seq<Write>)
    ensures Stamps(log, false) == 0 <==> forall k :: 0 <= k < |log| && !log[k].landed ==> log[k].stamp == 0
  {
    if log != [] { NoneLost(log[..|log| - 1]); }
  }

  ghost predicate MonotoneClock(run: seq<Observation>) {
    forall i, j :: 0 <= i < j < |run| ==> run[i].now <= run[j].now
  }

  lemma {:induction false} LastWriteLogged(run: seq<Observation>)
    ensures var log := Log(START, run);
            After(START, run).lastWriteAt == if log == [] then None else Some(log[|log| - 1].at)
    ensures var log := Log(START, run);
            log != [] ==> exists k :: 0 <= k < |run| && run[k].now == log[|log| - 1].at
  {
    if run != [] {
      var earlier, o := run[..|run| - 1], run[|run| - 1];
      LastWriteLogged(earlier);
      if Writes(After(START, earlier), o) {
        assert run[|run| - 1].now == o.now;
      } else if Log(START, earlier) != [] {
        var k :| 0 <= k < |earlier| && earlier[k].now == Log(START, earlier)[|Log(START, earlier)| - 1].at;
        assert run[k].now == earlier[k].now;
      }
    }
  }

  predicate Telescopes(log: seq<Write>) {
    log != [] ==> log[0].stamp == log[0].interval
                  && Stamps(log, true) + Stamps(log, false) == log[0].interval + (log[|log| - 1].at - log[0].at)
  }

  lemma TelescopesMore(log: seq<Write>, w: Write)
    requires Telescopes(log) && w.stamp == if log == [] then w.interval else w.at - log[|log| - 1].at
    ensures Telescopes(log + [w])
  {
    assert (log + [w])[..|log|] == log;
  }

  lemma NotAfter(run: seq<Observation>, earlier: seq<Observation>, at: int)
    requires run != [] && MonotoneClock(run) && earlier == run[..|run| - 1]
    requires exists k :: 0 <= k < |earlier| && earlier[k].now == at
    ensures at <= run[|run| - 1].now
  {
    var k :| 0 <= k < |earlier| && earlier[k].now == at;
    assert run[k].now <= run[|run| - 1].now;
  }

  lemma StampOfNext(t: Tracker, o: Observation, log: seq<Write>)
    requires t.lastWriteAt == (if log == [] then None else Some(log[|log| - 1].at)) && Writes(t, o)
    requires log != [] ==> log[|log| - 1].at <= o.now
    ensures var w := WriteOf(t, o)[0]; w.stamp == if log == [] then w.interval else w.at - log[|log| - 1].at
  {
  }

  lemma {:induction false} AllStampsTelescope(run: seq<Observation>)
    requires MonotoneClock(run)
    ensures Telescopes(Log(START, run))
  {
    if run != [] {
      var earlier, o := run[..|run| - 1], run[|run| - 1];
      var t, log := After(START, earlier), Log(START, earlier);
      AllStampsTelescope(earlier);
      LastWriteLogged(earlier);
      if Writes(t, o) {
        if log != [] { NotAfter(run, earlier, log[|log| - 1].at); }
        StampOfNext(t, o, log);
        TelescopesMore(log, WriteOf(t, o)[0]);
        assert WriteOf(t, o) == [WriteOf(t, o)[0]];
      } else {
        assert log + WriteOf(t, o) == log;
      }
    }
  }

  /** The stamps of a run's batches add up to one nominal interval and the time from the first to the last,
      however edges, throttling and opt-out space them; what is written says so exactly when each batch that
      did not land stood for no time, since no later stamp makes up for it. */
  lemma StampsTelescope(run: seq<Observation>)
    requires MonotoneClock(run) && Log(START, run) != []
    ensures var log := Log(START, run);
            var whole := log[0].interval + (log[|log| - 1].at - log[0].at);
            && log[0].stamp == log[0].interval
            && Stamps(log, true) + Stamps(log, false) == whole
            && (Stamps(log, true) == whole <==> forall k :: 0 <= k < |log| && !log[k].landed ==> log[k].stamp == 0)
  {
    AllStampsTelescope(run);
    NoneLost(Log(START, run));
  }

  /** A channel starts and stops, and the second batch fails: what is written stands for the first interval only,
      whenever the channel stopped. */
  lemma LostStamp(id: string, ip: Ip, now: int, later: int, interval: nat)
    requires id != "" && now <= later
    ensures var log := Log(START, [Observation([Channel(id, 0, 1, [ip])], now, interval, false, WELL),
                                   Observation([], later, interval, false, WELL.(rows := false))]);
            |log| == 2 && Stamps(log, true) == interval && Stamps(log, false) == later - now
  {
    var c := Channel(id, 0, 1, [ip]);
    var o := Observation([c], now, interval, false, WELL);
    var p := Observation([], later, interval, false, WELL.(rows := false));
    LogOfTwo(o, p);
    assert c in o.channels && id in ActiveIds(o.channels);
    FirstWrite(o, id);
    StopWrite(Observe(START, o), p, id);
    TwoStamps(WriteOf(START, o)[0], WriteOf(Observe(START, o), p)[0]);
  }

  lemma FirstWrite(o: Observation, id: string)
    requires id in ActiveIds(o.channels) && !o.optOut
    ensures WriteOf(START, o) == [Write(o.now, o.interval, true, o.interval, o.outcome.rows)]
    ensures Observe(START, o).lastWriteAt == Some(o.now) && id in Observe(START, o).lastActive
  {
  }

  lemma StopWrite(t: Tracker, o: Observation, id: string)
    requires o.channels == [] && !o.optOut && id in t.lastActive && t.lastWriteAt.Some? && t.lastWriteAt.value <= o.now
    ensures WriteOf(t, o) == [Write(o.now, o.now - t.lastWriteAt.value, true, o.interval, o.outcome.rows)]
  {
    assert id !in ActiveIds(o.channels);
  }

  lemma TwoStamps(w: Write, v: Write)
    requires w.landed && !v.landed
    ensures Stamps([w] + [v], true) == w.stamp && Stamps([w] + [v], false) == v.stamp
  {
    assert ([w] + [v])[..1] == [w] && [w][..0] == [];
    assert Stamps([w], true) == w.stamp && Stamps([w], false) == 0;
  }

  lemma LogOfTwo(o: Observation, p: Observation)
    ensures Log(START, [o, p]) == WriteOf(START, o) + WriteOf(Observe(START, o), p)
  {
    assert [o, p][..1] == [o] && [o][..0] == [];
    assert After(START, [o]) == Observe(After(START, [o][..0]), o);
    assert Log(START, [o]) == WriteOf(START, o);
  }

  /** A write comes at an edge, or a full interval after the one before it. */
  lemma {:induction false} WritesSpaced(run: seq<Observation>, k: nat)
    requires 1 <= k < |Log(START, run)|
    ensures var log := Log(START, run); log[k].edge || log[k].at - log[k - 1].at >= log[k].interval
  {
    var earlier, o := run[..|run| - 1], run[|run| - 1];
    if k < |Log(START, earlier)| {
      WritesSpaced(earlier, k);
      assert Log(START, run)[..|Log(START, earlier)|] == Log(START, earlier);
    } else {
      LastWriteLogged(earlier);
      assert Writes(After(START, earlier), o) && k == |Log(START, earlier)|;
    }
  }

  /** Wherever in a run an edge comes, the write that follows those before it is at the edge, unless telemetry
      is switched off, when nothing is written; and later observations take no write back. */
  lemma {:induction false} EdgesWrittenAtOnce(run: seq<Observation>, k: nat)
    requires k < |run|
    ensures var o, earlier, log := run[k], Log(START, run[..k]), Log(START, run);
            && |earlier| <= |log| && earlier == log[..|earlier|]
            && (Edge(After(START, run[..k]), o.channels) && !o.optOut ==>
                |earlier| < |log| && log[|earlier|].at == o.now && log[|earlier|].edge)
            && (o.optOut ==> Log(START, run[..k + 1]) == earlier)
  {
    WriteAt(run, k);
    LogKept(run, k);
    LogKept(run, k + 1);
    EntryKept(Log(START, run[..k]), Log(START, run[..k + 1]), Log(START, run));
  }

  lemma WriteAt(run: seq<Observation>, k: nat)
    requires k < |run|
    ensures var o, earlier, log := run[k], Log(START, run[..k]), Log(START, run[..k + 1]);
            && (Edge(After(START, run[..k]), o.channels) && !o.optOut ==>
                |log| == |earlier| + 1 && log[|earlier|].at == o.now && log[|earlier|].edge)
            && (o.optOut ==> log == earlier)
  {
    LastWrites(run[..k + 1]);
    assert run[..k + 1][..k] == run[..k];
  }

  lemma EntryKept(earlier: seq<Write>, log: seq<Write>, all: seq<Write>)
    requires |log| <= |all| && log == all[..|log|]
    ensures |earlier| < |log| ==> log[|earlier|] == all[|earlier|]
  {
  }

  lemma LastWrites(run: seq<Observation>)
    requires run != []
    ensures var earlier, o := run[..|run| - 1], run[|run| - 1];
            var before, log := Log(START, earlier), Log(START, run);
            && |before| <= |log| && before == log[..|before|]
            && (Edge(After(START, earlier), o.channels) && !o.optOut ==>
                |log| == |before| + 1 && log[|before|].at == o.now && log[|before|].edge)
            && (o.optOut ==> log == before)
  {
  }

  lemma {:induction false} LogKept(run: seq<Observation>, k: nat)
    requires k <= |run|
    ensures |Log(START, run[..k])| <= |Log(START, run)|
    ensures Log(START, run[..k]) == Log(START, run)[..|Log(START, run[..k])|]
  {
    var n := |run| - 1;
    if k == |run| {
      assert run[..k] == run;
    } else {
      LogKept(run[..n], k);
      assert run[..n][..k] == run[..k];
      LogGrows(run);
      PrefixOfPrefix(Log(START, run[..k]), Log(START, run[..n]), Log(START, run));
    }
  }

  lemma LogGrows(run: seq<Observation>)
    requires run != []
    ensures Log(START, run[..|run| - 1]) <= Log(START, run)
  {
  }

  lemma PrefixOfPrefix(a: seq<Write>, b: seq<Write>, c: seq<Write>)
    requires |a| <= |b| && a == b[..|a|] && b <= c
    ensures |a| <= |c| && a == c[..|a|]
  {
  }

  // ----- bytes

  ghost function Total(m: map<string, int>): int {
    if m == map[] then 0 else var k :| k in m; m[k] + Total(m - {k})
  }

  lemma {:induction false} TotalWithout(m: map<string, int>, k: string)
    requires k in m
    ensures Total(m) == m[k] + Total(m - {k})
    decreases |m|
  {
    var j :| j in m && Total(m) == m[j] + Total(m - {j});
    if j != k {
      TotalWithout(m - {j}, k);
      TotalWithout(m - {k}, j);
      assert m - {j} - {k} == m - {k} - {j};
    }
  }

  lemma TotalUpdate(m: map<string, int>, k: string, v: int)
    ensures Total(m[k := v]) == Total(m) - Or(m, k, 0) + v
  {
    TotalWithout(m[k := v], k);
    assert m[k := v] - {k} == m - {k};
    if k in m { TotalWithout(m, k); } else { assert m - {k} == m; }
  }

  /** Rows of a snapshot, by whether they have an id. */
  datatype Rows = Every | Named | Nameless

  predicate Among(rows: Rows, c: Channel) {
    rows.Every? || rows.Named? == (c.id != "")
  }

  function Growth(last: map<string, int>, channels: seq<Channel>, rows: Rows): nat {
    if channels == [] then 0 else
      Growth(last, channels[..|channels| - 1], rows) +
      (var c := channels[|channels| - 1]; if Among(rows, c) then Delta(last, c) else 0)
  }

  lemma {:induction false} GrowthSplits(last: map<string, int>, channels: seq<Channel>)
    ensures Growth(last, channels, Every) == TotalDelta(last, channels)
    ensures Growth(last, channels, Named) + Growth(last, channels, Nameless) == TotalDelta(last, channels)
  {
    if channels != [] { GrowthSplits(last, channels[..|channels| - 1]); }
  }

  lemma {:induction false} AccrueTotal(perChannel: map<string, int>, last: map<string, int>, channels: seq<Channel>)
    ensures Total(Accrue(perChannel, last, channels)) == Total(perChannel) + Growth(last, channels, Named)
  {
    if channels != [] {
      var before, c := Accrue(perChannel, last, channels[..|channels| - 1]), channels[|channels| - 1];
      AccrueTotal(perChannel, last, channels[..|channels| - 1]);
      TotalUpdate(before, c.id, Or(before, c.id, 0) + Delta(last, c));
    }
  }

  datatype Side = Day | Channels

  /** The rows whose growth only this side is credited with: the channels never with that of a row that has no
      id, and neither when its write fails. */
  function CreditedOnly(side: Side, outcome: Outcome): Option<Rows> {
    match side
    case Day => if !outcome.daily then None else Some(if outcome.perChannel then Nameless else Every)
    case Channels => if outcome.daily || !outcome.perChannel then None else Some(Named)
  }

  function OnlyIn(last: map<string, int>, o: Observation, side: Side): nat {
    match CreditedOnly(side, o.outcome)
    case None => 0
    case Some(rows) => Growth(last, o.channels, rows)
  }

  function OnlyOver(run: seq<Observation>, side: Side): nat {
    if run == [] then 0 else
      OnlyOver(run[..|run| - 1], side) + OnlyIn(After(START, run[..|run| - 1]).lastBytes, run[|run| - 1], side)
  }

  ghost predicate SomeGrew(last: map<string, int>, channels: seq<Channel>, rows: Rows) {
    exists i :: 0 <= i < |channels| && Among(rows, channels[i]) && Delta(last, channels[i]) > 0
  }

  /** In the `k`th observation a row grew whose growth only this side was credited with. */
  ghost predicate SomeOnly(run: seq<Observation>, k: nat, side: Side) {
    && k < |run| && CreditedOnly(side, run[k].outcome).Some?
    && SomeGrew(After(START, run[..k]).lastBytes, run[k].channels, CreditedOnly(side, run[k].outcome).value)
  }

  lemma {:induction false} SomeRowGrew(last: map<string, int>, channels: seq<Channel>, rows: Rows)
    ensures Growth(last, channels, rows) > 0 <==> SomeGrew(last, channels, rows)
  {
    if channels != [] {
      var n := |channels| - 1;
      SomeRowGrew(last, channels[..n], rows);
      if i :| 0 <= i < n && Among(rows, channels[..n][i]) && Delta(last, channels[..n][i]) > 0 {
        assert channels[i] == channels[..n][i];
      }
      if i :| 0 <= i < |channels| && Among(rows, channels[i]) && Delta(last, channels[i]) > 0 {
        if i < n { assert channels[..n][i] == channels[i]; }
      }
    }
  }

  lemma {:induction false} OnlyRows(run: seq<Observation>, side: Side)
    ensures OnlyOver(run, side) > 0 <==> exists k: nat :: SomeOnly(run, k, side)
  {
    if run != [] {
      var n := |run| - 1;
      OnlyRows(run[..n], side);
      OnlyRow(run, n, side);
      OnlyBefore(run, n, side);
      OnlyMore(run, side);
    } else {
      assert OnlyOver(run, side) == 0;
    }
  }

  lemma OnlyMore(run: seq<Observation>, side: Side)
    requires run != []
    ensures var n := |run| - 1;
            OnlyOver(run, side) == OnlyOver(run[..n], side) + OnlyIn(After(START, run[..n]).lastBytes, run[n], side)
  {
  }

  lemma OnlyBefore(run: seq<Observation>, n: nat, side: Side)
    requires run != [] && n == |run| - 1
    ensures (exists k: nat :: SomeOnly(run, k, side)) <==>
              SomeOnly(run, n, side) || exists k: nat :: SomeOnly(run[..n], k, side)
  {
    forall k: nat ensures SomeOnly(run[..n], k, side) <==> k < n && SomeOnly(run, k, side) {
      if k < n { SameOnly(run, n, k, side); }
    }
  }

  lemma SameOnly(run: seq<Observation>, n: nat, k: nat, side: Side)
    requires k < n <= |run|
    ensures SomeOnly(run[..n], k, side) <==> SomeOnly(run, k, side)
  {
    assert run[..n][..k] == run[..k];
  }

  lemma OnlyRow(run: seq<Observation>, k: nat, side: Side)
    requires k < |run|
    ensures OnlyIn(After(START, run[..k]).lastBytes, run[k], side) > 0 <==> SomeOnly(run, k, side)
  {
    var rows := CreditedOnly(side, run[k].outcome);
    if rows.Some? { SomeRowGrew(After(START, run[..k]).lastBytes, run[k].channels, rows.value); }
  }

  lemma {:induction false} DailyAndTotal(run: seq<Observation>)
    ensures After(START, run).daily + OnlyOver(run, Channels) ==
              Total(After(START, run).perChannel) + OnlyOver(run, Day)
  {
    if run != [] {
      var t, o := After(START, run[..|run| - 1]), run[|run| - 1];
      DailyAndTotal(run[..|run| - 1]);
      AccrueTotal(t.perChannel, t.lastBytes, o.channels);
      GrowthSplits(t.lastBytes, o.channels);
    }
  }

  /** Daily bytes and the channels' bytes differ by what only one of them was credited with.  So when nothing was
      credited to the channels alone, they agree exactly when nothing was credited to the day alone, that is,
      no row without an id grew, nor any while only the channels' write failed; and the other way round. */
  lemma BytesConserved(run: seq<Observation>)
    ensures var t := After(START, run); t.daily + OnlyOver(run, Channels) == Total(t.perChannel) + OnlyOver(run, Day)
    ensures (forall k: nat :: !SomeOnly(run, k, Channels)) ==>
              (After(START, run).daily == Total(After(START, run).perChannel) <==>
               forall k: nat :: !SomeOnly(run, k, Day))
    ensures (forall k: nat :: !SomeOnly(run, k, Day)) ==>
              (After(START, run).daily == Total(After(START, run).perChannel) <==>
               forall k: nat :: !SomeOnly(run, k, Channels))
  {
    DailyAndTotal(run);
    OnlyRows(run, Day);
    OnlyRows(run, Channels);
  }

  lemma TwoRows(first: Channel, second: Channel, now: int, later: int, outcome: Outcome)
    requires first.id == second.id && outcome.perChannel
    ensures var t := After(START, [Observation([first], now, 0, true, WELL),
                                   Observation([second], later, 0, true, outcome)]);
            var one := AccrueRow(map[], map[], first);
            var last := map[first.id := first.bytes];
            && t.daily == (if outcome.daily then Delta(last, second) else 0)
            && t.perChannel == AccrueRow(one, last, second)
  {
    var o, p := Observation([first], now, 0, true, WELL), Observation([second], later, 0, true, outcome);
    AfterTwo(o, p);
    OneRow(START, o, first);
    OneRow(Observe(START, o), p, second);
  }

  /** Two observations of a channel with no id, whose counter grows by `n`: the day is credited and no
      channel is. */
  lemma NamelessBytes(n: nat, now: int, later: int)
    ensures var run := [Observation([Channel("", 0, 0, [])], now, 0, true, WELL),
                        Observation([Channel("", n, 0, [])], later, 0, true, WELL)];
            After(START, run).daily == n && After(START, run).perChannel == map[]
  {
    TwoRows(Channel("", 0, 0, []), Channel("", n, 0, []), now, later, WELL);
  }

  /** The same of a channel with an id, when the second write of the day fails: the channel is credited and the
      day never is. */
  lemma LostDay(id: string, n: nat, now: int, later: int)
    requires id != ""
    ensures var run := [Observation([Channel(id, 0, 1, [])], now, 0, true, WELL),
                        Observation([Channel(id, n, 1, [])], later, 0, true, WELL.(daily := false))];
            After(START, run).daily == 0 && After(START, run).perChannel == map[id := n]
  {
    TwoRows(Channel(id, 0, 1, []), Channel(id, n, 1, []), now, later, WELL.(daily := false));
  }

  lemma AfterTwo(o: Observation, p: Observation)
    ensures After(START, [o, p]) == Observe(Observe(START, o), p)
  {
    assert [o, p][..1] == [o] && [o][..0] == [];
    assert After(START, [o]) == Observe(After(START, [o][..0]), o);
  }

  lemma OneRow(t: Tracker, o: Observation, c: Channel)
    requires o.channels == [c] && o.outcome.perChannel
    ensures var u := Observe(t, o);
            && u.lastBytes == map[c.id := c.bytes]
            && u.daily == t.daily + (if o.outcome.daily then Delta(t.lastBytes, c) else 0)
            && u.perChannel == AccrueRow(t.perChannel, t.lastBytes, c)
  {
    assert [c][..0] == [];
    assert BytesBy([c]) == BytesBy([])[c.id := c.bytes];
    assert TotalDelta(t.lastBytes, [c]) == TotalDelta(t.lastBytes, []) + Delta(t.lastBytes, c);
    assert Accrue(t.perChannel, t.lastBytes, [c]) == AccrueRow(Accrue(t.perChannel, t.lastBytes, []), t.lastBytes, c);
  }

  // ----- one channel

  function RowsOf(channels: seq<Channel>, id: string): nat {
    if channels == [] then 0 else
      RowsOf(channels[..|channels| - 1], id) + if channels[|channels| - 1].id == id then 1 else 0
  }

  /** How far the channel's counter rose above the last one known. */
  function Rise(last: map<string, int>, channels: seq<Channel>, id: string): nat {
    if id in last && id in BytesBy(channels) && BytesBy(channels)[id] > last[id]
    then BytesBy(channels)[id] - last[id] else 0
  }

  lemma {:induction false} AccrueOne(perChannel: map<string, int>, last: map<string, int>, channels: seq<Channel>,
                                     id: string)
    requires id != "" && RowsOf(channels, id) <= 1
    ensures (id in BytesBy(channels)) == (RowsOf(channels, id) == 1)
    ensures Or(Accrue(perChannel, last, channels), id, 0) == Or(perChannel, id, 0) + Rise(last, channels, id)
  {
    if channels != [] { AccrueOne(perChannel, last, channels[..|channels| - 1], id); }
  }

  /** The channel is in every observation, once, with a counter that never goes down. */
  ghost predicate Continuous(run: seq<Observation>, id: string) {
    && (forall k :: 0 <= k < |run| ==> RowsOf(run[k].channels, id) == 1 && id in BytesBy(run[k].channels))
    && forall i, j :: 0 <= i < j < |run| ==> BytesBy(run[i].channels)[id] <= BytesBy(run[j].channels)[id]
  }

  /** What the channel was not credited with, because the write failed. */
  function LostBy(t: Tracker, run: seq<Observation>, id: string): nat {
    if run == [] then 0 else
      var earlier, o := run[..|run| - 1], run[|run| - 1];
      LostBy(t, earlier, id) +
      if o.outcome.perChannel then 0 else Rise(After(t, earlier).lastBytes, o.channels, id)
  }

  lemma {:induction false} CreditAndLoss(t: Tracker, run: seq<Observation>, id: string)
    requires id != "" && id !in t.lastBytes && run != [] && Continuous(run, id)
    ensures Or(After(t, run).perChannel, id, 0) + LostBy(t, run, id) ==
              Or(t.perChannel, id, 0) + BytesBy(run[|run| - 1].channels)[id] - BytesBy(run[0].channels)[id]
  {
    var n := |run| - 1;
    var earlier, o := run[..n], run[n];
    AccrueOne(After(t, earlier).perChannel, After(t, earlier).lastBytes, o.channels, id);
    if n > 0 {
      assert forall k :: 0 <= k < n ==> earlier[k] == run[k];
      CreditAndLoss(t, earlier, id);
      assert After(t, earlier).lastBytes == BytesBy(run[n - 1].channels);
    } else {
      assert earlier == [];
    }
  }

  /** The write failed of an observation before which the counter had risen. */
  ghost predicate LosesRise(run: seq<Observation>, k: nat, id: string) {
    && 1 <= k < |run| && !run[k].outcome.perChannel
    && id in BytesBy(run[k].channels) && id in BytesBy(run[k - 1].channels)
    && BytesBy(run[k].channels)[id] > BytesBy(run[k - 1].channels)[id]
  }

  lemma LosesBefore(run: seq<Observation>, n: nat, id: string)
    requires n == |run| - 1
    ensures (exists k: nat :: LosesRise(run, k, id)) <==>
              LosesRise(run, n, id) || exists k: nat :: LosesRise(run[..n], k, id)
  {
    forall k: nat | k < n ensures LosesRise(run[..n], k, id) <==> LosesRise(run, k, id) {
      assert run[..n][k] == run[k] && (k >= 1 ==> run[..n][k - 1] == run[k - 1]);
    }
  }

  lemma LosesNow(t: Tracker, run: seq<Observation>, n: nat, id: string)
    requires 0 < n == |run| - 1 && id in BytesBy(run[n].channels) && id in BytesBy(run[n - 1].channels)
    ensures LosesRise(run, n, id) <==>
              !run[n].outcome.perChannel && Rise(After(t, run[..n]).lastBytes, run[n].channels, id) > 0
  {
    assert After(t, run[..n]).lastBytes == BytesBy(run[n - 1].channels);
  }

  lemma {:induction false} LostIff(t: Tracker, run: seq<Observation>, id: string)
    requires id !in t.lastBytes && run != [] && forall o :: o in run ==> id in BytesBy(o.channels)
    ensures LostBy(t, run, id) > 0 <==> exists k: nat :: LosesRise(run, k, id)
  {
    var n := |run| - 1;
    var earlier := run[..n];
    LosesBefore(run, n, id);
    LostMore(t, run, id);
    if n > 0 {
      assert forall o :: o in earlier ==> o in run;
      assert run[n] in run && run[n - 1] in run;
      LostIff(t, earlier, id);
      LosesNow(t, run, n, id);
    } else {
      assert earlier == [];
    }
  }

  lemma LostMore(t: Tracker, run: seq<Observation>, id: string)
    requires run != []
    ensures var n := |run| - 1;
            LostBy(t, run, id) == LostBy(t, run[..n], id) +
              if run[n].outcome.perChannel then 0 else Rise(After(t, run[..n]).lastBytes, run[n].channels, id)
  {
  }

  /** Such a channel is credited with its last count less its first, but for what a failed write lost: with all
      of it exactly when each write that failed came while the counter stood still. */
  lemma ContinuousChannel(t: Tracker, run: seq<Observation>, id: string)
    requires id != "" && id !in t.lastBytes && run != [] && Continuous(run, id)
    ensures var rise := BytesBy(run[|run| - 1].channels)[id] - BytesBy(run[0].channels)[id];
            var credit := Or(After(t, run).perChannel, id, 0) - Or(t.perChannel, id, 0);
            && credit + LostBy(t, run, id) == rise
            && (credit == rise <==> forall k: nat :: !LosesRise(run, k, id))
  {
    CreditAndLoss(t, run, id);
    LostIff(t, run, id);
  }

  /** So whichever observations between the first and the last are missed, the credit and what failed writes
      lost of it are together the same. */
  lemma MissedObservations(t: Tracker, run: seq<Observation>, fewer: seq<Observation>, id: string)
    requires id != "" && id !in t.lastBytes && run != [] && Continuous(run, id)
    requires fewer != [] && Continuous(fewer, id)
    requires fewer[0].channels == run[0].channels && fewer[|fewer| - 1].channels == run[|run| - 1].channels
    ensures Or(After(t, fewer).perChannel, id, 0) + LostBy(t, fewer, id) ==
              Or(After(t, run).perChannel, id, 0) + LostBy(t, run, id)
  {
    ContinuousChannel(t, run, id);
    ContinuousChannel(t, fewer, id);
  }
}
