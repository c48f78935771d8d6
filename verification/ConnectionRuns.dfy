/** Who is connected over a whole run of observations (`_update_watch_counts`, `_update_watch_time` and
    `_close_client_connections` in backend/bandwidth_tracker.py). */
module ConnectionRuns {
  import opened Common
  import opened BandwidthTracker
  import opened TelemetryRuns

  /** The `k`th observation opened the connection, and no later one shut it. */
  ghost predicate HeldSince(run: seq<Observation>, k: nat, id: string, ip: Ip) {
    && k < |run| && Opened(After(START, run[..k]), run[k], id, ip)
    && forall m: nat :: k < m < |run| ==> !ShutAt(run, m, id, ip)
  }

  ghost predicate ShutAt(run: seq<Observation>, m: nat, id: string, ip: Ip) {
    m < |run| && Shut(After(START, run[..m]), run[m], id, ip)
  }

  lemma HeldSinceBefore(run: seq<Observation>, k: nat, id: string, ip: Ip)
    requires run != [] && k < |run| - 1
    ensures HeldSince(run, k, id, ip) <==>
              HeldSince(run[..|run| - 1], k, id, ip) && !ShutAt(run, |run| - 1, id, ip)
  {
    var n := |run| - 1;
    assert run[..n][..k] == run[..k];
    forall m: nat | m < n ensures ShutAt(run[..n], m, id, ip) <==> ShutAt(run, m, id, ip) {
      SameShut(run, n, m, id, ip);
    }
  }

  lemma SameShut(run: seq<Observation>, n: nat, m: nat, id: string, ip: Ip)
    requires m < n <= |run|
    ensures ShutAt(run[..n], m, id, ip) <==> ShutAt(run, m, id, ip)
  {
    assert run[..n][..m] == run[..m];
  }

  /** The connections held are those that a row opened, whose observation and all since left them open:
      whichever writes failed, and however often a channel is listed. */
  lemma {:induction false} ConnectionsHeld(run: seq<Observation>, id: string, ip: Ip)
    ensures (id, ip) in After(START, run).connections <==> exists k: nat :: HeldSince(run, k, id, ip)
  {
    if run != [] {
      var n := |run| - 1;
      var t, o := After(START, run[..n]), run[n];
      ConnectionsHeld(run[..n], id, ip);
      HeldAfter(t, o, id, ip);
      assert HeldSince(run, n, id, ip) <==> Opened(t, o, id, ip);
      forall k: nat | k < n
        ensures HeldSince(run, k, id, ip) <==> HeldSince(run[..n], k, id, ip) && !ShutAt(run, n, id, ip)
      {
        HeldSinceBefore(run, k, id, ip);
      }
    }
  }

  // ----- quiet runs

  /** No write of a connection fails, and no channel has two rows in one observation. */
  ghost predicate Quiet(run: seq<Observation>) {
    forall k :: 0 <= k < |run| ==> run[k].outcome.ConnectionsLand() && OneRowEach(run[k].channels)
  }

  ghost predicate OneRowEach(channels: seq<Channel>) {
    forall i, j :: 0 <= i < j < |channels| && channels[i].id != "" ==> channels[i].id != channels[j].id
  }

  /** Since `k` channel `id` has been active throughout, and at `k` it had client `ip`. */
  ghost predicate SeenSince(run: seq<Observation>, k: int, id: string, ip: Ip) {
    0 <= k < |run| && (id, ip) in Live(run[k].channels) &&
    forall m :: k <= m < |run| ==> id in ActiveIds(run[m].channels)
  }

  ghost predicate Seen(run: seq<Observation>, id: string, ip: Ip) {
    exists k :: SeenSince(run, k, id, ip)
  }

  lemma SeenStep(run: seq<Observation>, id: string, ip: Ip)
    requires run != []
    ensures Seen(run, id, ip) <==>
              (id, ip) in Live(run[|run| - 1].channels) ||
              (id in ActiveIds(run[|run| - 1].channels) && Seen(run[..|run| - 1], id, ip))
  {
    var n := |run| - 1;
    var earlier := run[..n];
    if k :| SeenSince(run, k, id, ip) {
      if k < n {
        assert forall m :: k <= m < n ==> earlier[m] == run[m];
        assert SeenSince(earlier, k, id, ip);
      }
    }
    if (id, ip) in Live(run[n].channels) {
      assert SeenSince(run, n, id, ip);
    } else if id in ActiveIds(run[n].channels) {
      if k :| SeenSince(earlier, k, id, ip) {
        forall m | k <= m < |run| ensures id in ActiveIds(run[m].channels) {
          if m < n { assert earlier[m] == run[m]; }
        }
        assert SeenSince(run, k, id, ip);
      }
    }
  }

  /** Where each channel has one row, being on it is being on its last row. */
  lemma LiveIsRemembered(o: Observation, id: string, ip: Ip)
    requires OneRowEach(o.channels) && id in ActiveIds(o.channels)
    ensures id in ClientsBy(o.channels)
    ensures (id, ip) in Live(o.channels) <==> ip in ClientsBy(o.channels)[id]
  {
    var c :| c in o.channels && c.id == id != "";
    HasClients(o.channels, c);
    var j := LastRow(o.channels, id);
    if (id, ip) in Live(o.channels) {
      var d :| d in o.channels && d.id == id && ip in d.ips;
      var i :| 0 <= i < |o.channels| && o.channels[i] == d;
      assert i == j;
    }
    if ip in ClientsBy(o.channels)[id] {
      assert o.channels[j] in o.channels && ip in o.channels[j].ips;
    }
  }

  lemma {:induction false} HasClients(channels: seq<Channel>, c: Channel)
    requires c in channels
    ensures c.id in ClientsBy(channels)
  {
    var n := |channels| - 1;
    if channels[n] != c { HasClients(channels[..n], c); }
  }

  lemma NoneLacks(t: Tracker, o: Observation)
    requires OneRowEach(o.channels)
    ensures !SomeRowLacks(t, o)
  {
    forall id, ip, j: nat | Remembered(o, id, ip) ensures !RowLacks(o, j, id, ip) {
      LiveIsRemembered(o, id, ip);
      var i := LastRow(o.channels, id);
      assert RowLacks(o, j, id, ip) ==> i == j;
    }
  }

  lemma QuietStep(t: Tracker, o: Observation, id: string, ip: Ip)
    requires o.outcome.ConnectionsLand() && OneRowEach(o.channels) && Covered(t)
    requires (id, ip) in t.connections ==> id in t.lastActive
    ensures Covered(Observe(t, o))
    ensures (id, ip) in Observe(t, o).connections <==>
              (id, ip) in Live(o.channels) || (id in ActiveIds(o.channels) && (id, ip) in t.connections)
  {
    CoveredAfter(t, o);
    WhenWritesLand(t, o);
    NoneLacks(t, o);
    HeldAfter(t, o, id, ip);
    if id in ActiveIds(o.channels) {
      LiveIsRemembered(o, id, ip);
      QuietMoves(t, o, id, ip);
    } else {
      NotActive(t, o, id, ip);
    }
  }

  lemma QuietMoves(t: Tracker, o: Observation, id: string, ip: Ip)
    requires o.outcome.ConnectionsLand() && OneRowEach(o.channels) && id in ActiveIds(o.channels)
    ensures Opened(t, o, id, ip) ==> (id, ip) in Live(o.channels)
    ensures !Shut(t, o, id, ip)
  {
    LiveIsRemembered(o, id, ip);
    var j := LastRow(o.channels, id);
    forall i: nat ensures !ClosesAt(t, o, i, id, ip) {
      assert ClosesAt(t, o, i, id, ip) ==> i == j;
    }
    if Opened(t, o, id, ip) {
      var i: nat :| OpensAt(t, o, i, id, ip);
      assert o.channels[i] in o.channels && ip in o.channels[i].ips;
    }
  }

  lemma RowIsActive(channels: seq<Channel>, j: nat)
    requires j < |channels| && channels[j].id != ""
    ensures channels[j].id in ActiveIds(channels)
  {
    assert channels[j] in channels;
  }

  lemma NotActive(t: Tracker, o: Observation, id: string, ip: Ip)
    requires o.outcome.ConnectionsLand() && id !in ActiveIds(o.channels)
    ensures !Opened(t, o, id, ip) && (id, ip) !in Live(o.channels)
    ensures id in t.lastActive ==> Shut(t, o, id, ip)
  {
    forall j: nat ensures !OpensAt(t, o, j, id, ip) {
      if j < |o.channels| && o.channels[j].id != "" { RowIsActive(o.channels, j); }
    }
  }

  /** In a quiet run the connections held are the clients seen on a channel since it last became active:
      every live one, and those that left while the channel stayed. */
  lemma {:induction false} SeenAreHeld(run: seq<Observation>, id: string, ip: Ip)
    requires Quiet(run)
    ensures Covered(After(START, run))
    ensures (id, ip) in After(START, run).connections <==> Seen(run, id, ip)
  {
    if run != [] {
      var n := |run| - 1;
      var earlier := run[..n];
      SeenAreHeld(earlier, id, ip);
      SeenStep(run, id, ip);
      if k :| SeenSince(earlier, k, id, ip) {
        assert id in ActiveIds(earlier[n - 1].channels);
        LastIsActive(earlier);
      }
      QuietStep(After(START, earlier), run[n], id, ip);
    }
  }

  lemma LastIsActive(run: seq<Observation>)
    requires run != []
    ensures After(START, run).lastActive == ActiveIds(run[|run| - 1].channels)
    ensures After(START, run).lastClients == ClientsBy(run[|run| - 1].channels)
  {
  }

  ghost predicate CoveredAt(run: seq<Observation>, n: nat) {
    n <= |run| && Covered(After(START, run[..n]))
  }

  ghost predicate LacksAt(run: seq<Observation>, k: nat) {
    k < |run| && SomeRowLacks(After(START, run[..k]), run[k])
  }

  lemma CoveredMore(run: seq<Observation>, n: nat)
    requires n < |run| && run[n].outcome.ConnectionsLand()
    ensures CoveredAt(run, n) ==> (CoveredAt(run, n + 1) <==> !LacksAt(run, n))
  {
    assert run[..n + 1][..n] == run[..n];
    if CoveredAt(run, n) {
      CoveredAfter(After(START, run[..n]), run[n]);
      WhenWritesLand(After(START, run[..n]), run[n]);
    }
  }

  lemma {:induction false} CoveredUpTo(run: seq<Observation>, n: nat)
    requires n <= |run| && forall k :: 0 <= k < |run| ==> run[k].outcome.ConnectionsLand()
    requires forall k: nat :: k < n ==> !LacksAt(run, k)
    ensures CoveredAt(run, n)
  {
    if n > 0 {
      CoveredUpTo(run, n - 1);
      CoveredMore(run, n - 1);
    } else {
      assert run[..0] == [];
    }
  }

  /** If every write of a connection lands, every client remembered has its connection at each moment of a run
      exactly when no row of a still active channel ever lacked a client that was known and that the
      channel's last row had. */
  lemma AlwaysCovered(run: seq<Observation>)
    requires forall k :: 0 <= k < |run| ==> run[k].outcome.ConnectionsLand()
    ensures (forall n: nat :: n <= |run| ==> CoveredAt(run, n)) <==> forall k: nat :: !LacksAt(run, k)
  {
    if forall n: nat :: n <= |run| ==> CoveredAt(run, n) {
      forall k: nat | k < |run| ensures !LacksAt(run, k) {
        assert CoveredAt(run, k) && CoveredAt(run, k + 1);
        CoveredMore(run, k);
      }
    }
    if forall k: nat :: !LacksAt(run, k) {
      forall n: nat | n <= |run| ensures CoveredAt(run, n) { CoveredUpTo(run, n); }
    }
  }

  // ----- what goes wrong

  /** A client that leaves a channel which stays active keeps its connection. */
  lemma DepartedStaysConnected(id: string, ip: Ip, now: int, later: int)
    requires id != ""
    ensures var run := [Observation([Channel(id, 0, 1, [ip])], now, 0, true, WELL),
                        Observation([Channel(id, 0, 0, [])], later, 0, true, WELL)];
            (id, ip) in After(START, run).connections && (id, ip) !in Live(run[1].channels)
  {
    var run := [Observation([Channel(id, 0, 1, [ip])], now, 0, true, WELL),
                Observation([Channel(id, 0, 0, [])], later, 0, true, WELL)];
    var c, d := run[0].channels[0], run[1].channels[0];
    assert c in run[0].channels && ip in c.ips;
    assert (id, ip) in Live(run[0].channels);
    assert d in run[1].channels && id in ActiveIds(run[1].channels) && id in ActiveIds(run[0].channels);
    assert SeenSince(run, 0, id, ip);
    SeenAreHeld(run, id, ip);
  }

  /** A client that is known and has no connection gets none for as long as its channel's last row has it. */
  lemma {:induction false} NeverConnected(t: Tracker, run: seq<Observation>, id: string, ip: Ip)
    requires Continuing(t, id, ip) && (id, ip) !in t.connections
    requires forall k :: 0 <= k < |run| ==> Remembered(run[k], id, ip)
    ensures Continuing(After(t, run), id, ip) && (id, ip) !in After(t, run).connections
  {
    if run != [] {
      NeverConnected(t, run[..|run| - 1], id, ip);
      NeverReopened(After(t, run[..|run| - 1]), run[|run| - 1], id, ip);
    }
  }

  /** A channel listed twice, its client on the second row only: the client loses its connection, and however
      long it stays it gets no other. */
  lemma RepeatedRow(id: string, ip: Ip, now: int, later: int, rest: seq<Observation>)
    requires id != "" && forall k :: 0 <= k < |rest| ==> Remembered(rest[k], id, ip)
    ensures var first := Observation([Channel(id, 0, 1, [ip])], now, 0, true, WELL);
            var second := Observation([Channel(id, 0, 0, []), Channel(id, 0, 1, [ip])], later, 0, true, WELL);
            var t := After(Observe(Observe(START, first), second), rest);
            (id, ip) in Observe(START, first).connections && Continuing(t, id, ip) && (id, ip) !in t.connections
  {
    var with, without := Channel(id, 0, 1, [ip]), Channel(id, 0, 0, []);
    var first := Observation([with], now, 0, true, WELL);
    var second := Observation([without, with], later, 0, true, WELL);
    EndsWith(first, [], with);
    EndsWith(second, [without], with);
    Joins(START, first, id, ip);
    assert RowLacks(second, 0, id, ip);
    Cut(Observe(START, first), second, 0, id, ip);
    NeverConnected(Observe(Observe(START, first), second), rest, id, ip);
  }

  lemma Joins(t: Tracker, o: Observation, id: string, ip: Ip)
    requires o.outcome.ConnectionsLand() && !Continuing(t, id, ip) && Remembered(o, id, ip)
    ensures (id, ip) in Observe(t, o).connections && Continuing(Observe(t, o), id, ip)
  {
    OpensAll(t, o, id, ip);
    HeldAfter(t, o, id, ip);
  }

  lemma Cut(t: Tracker, o: Observation, j: nat, id: string, ip: Ip)
    requires o.outcome.ConnectionsLand() && Continuing(t, id, ip) && Remembered(o, id, ip) && RowLacks(o, j, id, ip)
    ensures (id, ip) !in Observe(t, o).connections && Continuing(Observe(t, o), id, ip)
  {
    LacksCloses(t, o, j, id, ip);
    NotOpened(t, o, id, ip);
    HeldAfter(t, o, id, ip);
  }

  lemma EndsWith(o: Observation, before: seq<Channel>, c: Channel)
    requires o.channels == before + [c] && c.id != ""
    ensures forall ip :: ip in c.ips ==> Remembered(o, c.id, ip)
  {
    assert o.channels[..|before|] == before && c in o.channels;
  }

  lemma NothingCounted(t: Tracker, o: Observation, id: string, ip: Ip)
    requires o.outcome.counts == Until(0, {}, {}) && id !in t.lastActive && (id, ip) !in t.connections
    ensures (id, ip) !in Observe(t, o).connections
  {
    forall j: nat ensures !OpensAt(t, o, j, id, ip) {}
    HeldAfter(t, o, id, ip);
  }

  /** A client whose connection could not be written when it came is taken for continuing from then on, and
      gets none. */
  lemma FailedCount(id: string, ip: Ip, now: int, rest: seq<Observation>)
    requires id != "" && forall k :: 0 <= k < |rest| ==> Remembered(rest[k], id, ip)
    ensures var first := Observation([Channel(id, 0, 1, [ip])], now, 0, true, WELL.(counts := Until(0, {}, {})));
            var t := After(Observe(START, first), rest);
            Continuing(t, id, ip) && (id, ip) !in t.connections
  {
    var c := Channel(id, 0, 1, [ip]);
    var first := Observation([c], now, 0, true, WELL.(counts := Until(0, {}, {})));
    EndsWith(first, [], c);
    NothingCounted(START, first, id, ip);
    NeverConnected(Observe(START, first), rest, id, ip);
  }
}
