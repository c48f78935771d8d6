/** What one observation of a run writes, credits, opens and closes, said of its rows and those of the observation
    before it (backend/bandwidth_tracker.py). */
module ObservationMeaning {
  import opened Common
  import opened BandwidthTracker
  import opened TelemetryRuns

  // ----- what is remembered

  /** The rows of the observation before the `k`th, none before the first. */
  function RowsBefore(run: seq<Observation>, k: nat): seq<Channel>
    requires k <= |run|
  {
    if k == 0 then [] else run[k - 1].channels
  }

  ghost predicate HasRow(channels: seq<Channel>, id: string) {
    exists j :: 0 <= j < |channels| && channels[j].id == id
  }

  ghost predicate IsLastRow(channels: seq<Channel>, j: nat, id: string) {
    j < |channels| && channels[j].id == id && forall i :: j < i < |channels| ==> channels[i].id != id
  }

  /** The client is on the channel's last row. */
  ghost predicate HasClient(channels: seq<Channel>, id: string, ip: Ip) {
    exists j: nat :: IsLastRow(channels, j, id) && ip in channels[j].ips
  }

  ghost predicate Remembers(t: Tracker, before: seq<Channel>) {
    && t.lastBytes == BytesBy(before) && t.lastActive == ActiveIds(before) && t.lastClients == ClientsBy(before)
  }

  lemma RemembersBefore(run: seq<Observation>, k: nat)
    requires k <= |run|
    ensures Remembers(After(START, run[..k]), RowsBefore(run, k))
  {
    if k > 0 {
      assert run[..k][..k - 1] == run[..k - 1];
    } else {
      assert ActiveIds([]) == {};
    }
  }

  lemma {:induction false} OfLastRow(channels: seq<Channel>, id: string)
    ensures id in BytesBy(channels) <==> HasRow(channels, id)
    ensures id in ClientsBy(channels) <==> HasRow(channels, id)
    ensures forall j: nat :: IsLastRow(channels, j, id) ==>
              && id in BytesBy(channels) && BytesBy(channels)[id] == channels[j].bytes
              && id in ClientsBy(channels) && ClientsBy(channels)[id] == Addresses(channels[j])
  {
    if channels != [] {
      var n := |channels| - 1;
      OfLastRow(channels[..n], id);
      LastRowMore(channels, id);
    }
  }

  lemma SomeLastRow(channels: seq<Channel>, id: string) returns (j: nat)
    requires HasRow(channels, id)
    ensures IsLastRow(channels, j, id)
  {
    OfLastRow(channels, id);
    j := LastRow(channels, id);
  }

  lemma LastRowMore(channels: seq<Channel>, id: string)
    requires channels != []
    ensures var n := |channels| - 1;
            && (HasRow(channels, id) <==> channels[n].id == id || HasRow(channels[..n], id))
            && forall j: nat :: IsLastRow(channels, j, id) <==>
                 if channels[n].id == id then j == n else IsLastRow(channels[..n], j, id)
  {
    var n := |channels| - 1;
    if HasRow(channels[..n], id) {
      var j :| 0 <= j < n && channels[..n][j].id == id;
      assert channels[j].id == id;
    }
    forall j: nat
      ensures IsLastRow(channels, j, id) <==> if channels[n].id == id then j == n else IsLastRow(channels[..n], j, id)
    {
      if channels[n].id != id && IsLastRow(channels[..n], j, id) {
        forall i | j < i < |channels| ensures channels[i].id != id {
          if i < n { assert channels[..n][i] == channels[i]; }
        }
      }
    }
  }

  lemma ClientIff(channels: seq<Channel>, id: string, ip: Ip)
    ensures HasClient(channels, id, ip) <==> ip in Or(ClientsBy(channels), id, {})
  {
    OfLastRow(channels, id);
    if id in ClientsBy(channels) {
      var j := SomeLastRow(channels, id);
      if ip in Or(ClientsBy(channels), id, {}) { assert ip in channels[j].ips; }
    }
  }

  lemma ActiveIff(channels: seq<Channel>, id: string)
    ensures id in ActiveIds(channels) <==> id != "" && HasRow(channels, id)
  {
    if j :| 0 <= j < |channels| && channels[j].id == id != "" { assert channels[j] in channels; }
  }

  // ----- when a batch of telemetry rows is written

  /** A channel started or stopped, or one that has a row now has other clients. */
  ghost predicate Changes(before: seq<Channel>, now: seq<Channel>) {
    || (exists id :: id != "" && HasRow(before, id) != HasRow(now, id))
    || exists id, ip :: HasRow(now, id) && HasClient(before, id, ip) != HasClient(now, id, ip)
  }

  lemma EdgeIff(t: Tracker, before: seq<Channel>, now: seq<Channel>)
    requires Remembers(t, before)
    ensures Edge(t, now) <==> Changes(before, now)
  {
    forall id ensures id in t.lastActive <==> id != "" && HasRow(before, id) { ActiveIff(before, id); }
    forall id ensures id in ActiveIds(now) <==> id != "" && HasRow(now, id) { ActiveIff(now, id); }
    StartsOrStops(t.lastActive, before, now);
    forall id ensures id in ClientsBy(now) <==> HasRow(now, id) { OfLastRow(now, id); }
    forall id, ip
      ensures HasClient(before, id, ip) <==> ip in Or(t.lastClients, id, {})
      ensures HasClient(now, id, ip) <==> ip in Or(ClientsBy(now), id, {})
    {
      ClientIff(before, id, ip);
      ClientIff(now, id, ip);
    }
    OtherClients(t.lastClients, before, now);
  }

  lemma StartsOrStops(last: set<string>, before: seq<Channel>, now: seq<Channel>)
    requires forall id :: id in last <==> id != "" && HasRow(before, id)
    requires forall id :: id in ActiveIds(now) <==> id != "" && HasRow(now, id)
    ensures ActiveIds(now) != last <==> exists id :: id != "" && HasRow(before, id) != HasRow(now, id)
  {
    if forall id :: id != "" ==> HasRow(before, id) == HasRow(now, id) {
      assert forall id :: id in ActiveIds(now) <==> id in last;
      assert ActiveIds(now) == last;
    }
    if id :| id != "" && HasRow(before, id) != HasRow(now, id) {
      assert id in ActiveIds(now) <==> id !in last;
    }
  }

  lemma OtherClients(last: map<string, set<Ip>>, before: seq<Channel>, now: seq<Channel>)
    requires forall id :: id in ClientsBy(now) <==> HasRow(now, id)
    requires forall id, ip :: HasClient(before, id, ip) <==> ip in Or(last, id, {})
    requires forall id, ip :: HasClient(now, id, ip) <==> ip in Or(ClientsBy(now), id, {})
    ensures (exists id :: id in ClientsBy(now) && ClientsBy(now)[id] != Or(last, id, {})) <==>
            exists id, ip :: HasRow(now, id) && HasClient(before, id, ip) != HasClient(now, id, ip)
  {
    if id :| id in ClientsBy(now) && ClientsBy(now)[id] != Or(last, id, {}) {
      var a, b := ClientsBy(now)[id], Or(last, id, {});
      DifferSomewhere(a, b);
      var ip :| ip in a <==> ip !in b;
      assert HasClient(before, id, ip) != HasClient(now, id, ip);
    }
    if id, ip :| HasRow(now, id) && HasClient(before, id, ip) != HasClient(now, id, ip) {
      assert ip in Or(ClientsBy(now), id, {}) <==> ip !in Or(last, id, {});
      assert id in ClientsBy(now);
    }
  }

  lemma DifferSomewhere(a: set<Ip>, b: set<Ip>)
    ensures a == b || exists ip :: ip in a <==> ip !in b
  {
    if forall ip :: ip in a <==> ip in b { assert a == b; }
  }

  /** A batch is due when none has been written, or a full interval has passed since the last. */
  ghost predicate NeedsWrite(log: seq<Write>, before: seq<Channel>, o: Observation) {
    && !o.optOut
    && (log == [] || o.now - log[|log| - 1].at >= o.interval || Changes(before, o.channels))
  }

  /** What it stands for: the time since the last batch, never less than none, or one interval. */
  ghost predicate IsWrite(log: seq<Write>, before: seq<Channel>, o: Observation, w: Write) {
    && w.at == o.now && w.interval == o.interval && w.landed == o.outcome.rows
    && (w.edge <==> Changes(before, o.channels))
    && (log == [] ==> w.stamp == o.interval)
    && (log != [] && log[|log| - 1].at <= o.now ==> w.stamp == o.now - log[|log| - 1].at)
    && (log != [] && o.now < log[|log| - 1].at ==> w.stamp == 0)
  }

  /** An observation writes a batch exactly when telemetry is not switched off and one is due or something
      changed. */
  lemma WrittenIff(run: seq<Observation>, k: nat)
    requires k < |run|
    ensures var log, log' := Log(START, run[..k]), Log(START, run[..k + 1]);
            if NeedsWrite(log, RowsBefore(run, k), run[k])
            then |log'| == |log| + 1 && log'[..|log|] == log && IsWrite(log, RowsBefore(run, k), run[k], log'[|log|])
            else log' == log
  {
    var t, log := After(START, run[..k]), Log(START, run[..k]);
    assert run[..k + 1][..k] == run[..k];
    RemembersBefore(run, k);
    EdgeIff(t, RowsBefore(run, k), run[k].channels);
    LastWriteLogged(run[..k]);
    NextLog(run, k);
  }

  lemma NextLog(run: seq<Observation>, k: nat)
    requires k < |run|
    ensures Log(START, run[..k + 1]) == Log(START, run[..k]) + WriteOf(After(START, run[..k]), run[k])
  {
    assert run[..k + 1][..k] == run[..k];
  }

  // ----- what is credited

  /** A row's counter grew by what it is above that of the channel's last row before, if it had one and is not
      below it. */
  ghost predicate Grew(before: seq<Channel>, c: Channel, n: nat) {
    if exists j: nat :: IsLastRow(before, j, c.id) && before[j].bytes < c.bytes
    then exists j: nat :: IsLastRow(before, j, c.id) && n == c.bytes - before[j].bytes
    else n == 0
  }

  lemma GrewIff(before: seq<Channel>, c: Channel, n: nat)
    ensures Grew(before, c, n) <==> n == Delta(BytesBy(before), c)
  {
    OfLastRow(before, c.id);
    if c.id in BytesBy(before) {
      var j := SomeLastRow(before, c.id);
      assert BytesBy(before)[c.id] == before[j].bytes;
    }
  }

  /** A channel has an entry once a row of it has clients, or has grown. */
  lemma {:induction false} EntryIff(perChannel: map<string, int>, before: seq<Channel>, channels: seq<Channel>,
                                    id: string)
    ensures id in Accrue(perChannel, BytesBy(before), channels) <==>
              || id in perChannel
              || (id != "" && exists j :: 0 <= j < |channels| && channels[j].id == id &&
                                          (channels[j].clientCount > 0 || !Grew(before, channels[j], 0)))
  {
    if channels != [] {
      var n := |channels| - 1;
      EntryIff(perChannel, before, channels[..n], id);
      GrewIff(before, channels[n], 0);
      if j :| 0 <= j < n && channels[..n][j].id == id &&
              (channels[..n][j].clientCount > 0 || !Grew(before, channels[..n][j], 0)) {
        assert channels[j] == channels[..n][j];
      }
      if j :| 0 <= j < |channels| && channels[j].id == id &&
              (channels[j].clientCount > 0 || !Grew(before, channels[j], 0)) {
        if j < n { assert channels[..n][j] == channels[j]; }
      }
    }
  }

  // ----- which connections a row opens and closes

  /** The pass came as far as opening this client of the row at `j`. */
  ghost predicate CameTo(reach: Reach, j: nat, ip: Ip) {
    reach.Until? ==> j < reach.row || (j == reach.row && ip in reach.added)
  }

  /** A row opens a connection exactly for a client of it that was not on its channel's last row before, or any
      if the channel had none, if the pass that it falls to came so far. */
  lemma OpensIff(t: Tracker, o: Observation, before: seq<Channel>, j: nat, id: string, ip: Ip)
    requires Remembers(t, before)
    ensures OpensAt(t, o, j, id, ip) <==>
              && j < |o.channels| && o.channels[j].id == id && id != "" && ip in o.channels[j].ips
              && (if HasRow(before, id) then !HasClient(before, id, ip) && CameTo(o.outcome.times, j, ip)
                  else CameTo(o.outcome.counts, j, ip))
  {
    ActiveIff(before, id);
    ClientIff(before, id, ip);
  }

  /** A row of a channel that had one before closes exactly those clients that it lacks and the channel's last row
      has, if the pass came so far: on the row where it failed, to each client that the row opens first. */
  lemma ClosesIff(t: Tracker, o: Observation, before: seq<Channel>, j: nat, id: string, ip: Ip)
    requires Remembers(t, before)
    ensures ClosesAt(t, o, j, id, ip) <==>
              && j < |o.channels| && o.channels[j].id == id && id != "" && HasRow(before, id)
              && ip !in o.channels[j].ips && HasClient(o.channels, id, ip)
              && (var reach := o.outcome.times;
                  reach.Until? ==>
                    || j < reach.row
                    || (j == reach.row && ip in reach.closed &&
                        forall other :: other in o.channels[j].ips && !HasClient(before, id, other) ==>
                                          other in reach.added))
  {
    ActiveIff(before, id);
    ClientIff(o.channels, id, ip);
    forall other ensures HasClient(before, id, other) <==> other in Or(t.lastClients, id, {}) {
      ClientIff(before, id, other);
    }
    if j < |o.channels| && o.channels[j].id == id {
      var reach := o.outcome.times;
      if reach.Until? { AllAmong(o.channels[j], Or(t.lastClients, id, {}), reach.added); }
    }
  }

  lemma AllAmong(c: Channel, known: set<Ip>, added: set<Ip>)
    ensures Addresses(c) - known <= added <==> forall ip :: ip in c.ips && ip !in known ==> ip in added
  {
    var unknown := Addresses(c) - known;
    if forall ip :: ip in c.ips && ip !in known ==> ip in added {
      forall ip | ip in unknown ensures ip in added {}
      assert unknown * added == unknown;
    }
    if unknown <= added {
      forall ip | ip in c.ips && ip !in known ensures ip in added {
        assert ip in unknown;
      }
    }
  }
}
