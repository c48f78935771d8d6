/** The session_telemetry rows of one poll (`_write_session_telemetry` in
    backend/bandwidth_tracker.py): bytes shared among a channel's clients, event counts on the
    channel's first row. */
module TelemetryRows {
  import opened Common
  import opened EventIngest

  /** A client address, an integer that sorts as the address does. */
  type Ip = int

  datatype Entry = Entry(channel: string, ips: seq<Ip>, bytesDelta: int)

  datatype Bare = Bare(channel: string, ip: Ip, connection: int, bytes: int)

  datatype Row = Row(bare: Bare, events: map<Kind, nat>)

  /** The connection each client was recorded under, and the clients the operator excludes. */
  datatype Clients = Clients(connected: map<(string, Ip), int>, excluded: set<(string, Ip)>)

  predicate Survives(clients: Clients, channel: string, ip: Ip) {
    (channel, ip) in clients.connected && (channel, ip) !in clients.excluded
  }

  predicate IpLe(a: Ip, b: Ip) { a <= b }

  function Positive(x: int): nat {
    if x < 0 then 0 else x
  }

  function PerClient(e: Entry): nat
    requires e.ips != []
  {
    Positive(e.bytesDelta) / |e.ips|
  }

  function ClientRows(e: Entry, sorted: seq<Ip>, share: nat, clients: Clients): seq<Bare> {
    if sorted == [] then [] else
      var earlier, ip := ClientRows(e, sorted[..|sorted| - 1], share, clients), sorted[|sorted| - 1];
      if Survives(clients, e.channel, ip)
      then earlier + [Bare(e.channel, ip, clients.connected[(e.channel, ip)], share)]
      else earlier
  }

  /** A row for every surviving client of a channel. */
  function EntryRows(e: Entry, clients: Clients): seq<Bare> {
    if e.ips == [] then [] else ClientRows(e, Sort(e.ips, IpLe), PerClient(e), clients)
  }

  function AllRows(snapshot: seq<Entry>, clients: Clients): seq<Bare> {
    if snapshot == [] then [] else
      AllRows(snapshot[..|snapshot| - 1], clients) + EntryRows(snapshot[|snapshot| - 1], clients)
  }

  /** A client has a row exactly when it was recorded and is not excluded, and the row carries its connection and
      an equal share of the channel's bytes, rounded down. */
  ghost predicate IsRowOf(b: Bare, e: Entry, ip: Ip, clients: Clients) {
    && ip in e.ips && (e.channel, ip) in clients.connected && (e.channel, ip) !in clients.excluded
    && b.channel == e.channel && b.ip == ip && b.connection == clients.connected[(e.channel, ip)]
    && b.bytes == (if e.bytesDelta < 0 then 0 else e.bytesDelta) / |e.ips|
  }

  ghost predicate FromClients(rows: seq<Bare>, e: Entry, ips: seq<Ip>, clients: Clients) {
    forall i :: 0 <= i < |rows| ==> rows[i].ip in ips && IsRowOf(rows[i], e, rows[i].ip, clients)
  }

  ghost predicate RowsAscend(rows: seq<Bare>) {
    forall i, j :: 0 <= i < j < |rows| ==> rows[i].ip <= rows[j].ip
  }

  /** How many rows a client has. */
  function RowsWith(rows: seq<Bare>, ip: Ip): nat {
    if rows == [] then 0 else
      RowsWith(rows[..|rows| - 1], ip) + if rows[|rows| - 1].ip == ip then 1 else 0
  }

  /** One row for each time that a client recorded and not excluded is listed. */
  ghost predicate RowsCount(rows: seq<Bare>, e: Entry, ips: multiset<Ip>, clients: Clients) {
    forall ip :: RowsWith(rows, ip) ==
      if (e.channel, ip) in clients.connected && (e.channel, ip) !in clients.excluded then ips[ip] else 0
  }

  lemma FromMore(before: seq<Bare>, b: Bare, e: Entry, earlier: seq<Ip>, ips: seq<Ip>, clients: Clients)
    requires FromClients(before, e, earlier, clients) && ips == earlier + [b.ip] && IsRowOf(b, e, b.ip, clients)
    ensures FromClients(before + [b], e, ips, clients)
  {
    assert ips[|earlier|] == b.ip;
    assert forall ip :: ip in earlier ==> ip in ips;
  }

  lemma RowsCountMore(before: seq<Bare>, rows: seq<Bare>, e: Entry, earlier: seq<Ip>, last: Ip, clients: Clients)
    requires RowsCount(before, e, multiset(earlier), clients)
    requires if Survives(clients, e.channel, last) then exists b :: rows == before + [b] && b.ip == last
             else rows == before
    ensures RowsCount(rows, e, multiset(earlier + [last]), clients)
  {
    forall ip ensures multiset(earlier + [last])[ip] == multiset(earlier)[ip] + if last == ip then 1 else 0 {}
    if Survives(clients, e.channel, last) {
      assert rows[..|rows| - 1] == before;
    }
  }

  lemma {:induction false} ClientRowsAre(e: Entry, sorted: seq<Ip>, clients: Clients)
    requires e.ips != [] && (forall ip :: ip in sorted ==> ip in e.ips) && SortedBy(sorted, IpLe)
    ensures var rows := ClientRows(e, sorted, PerClient(e), clients);
            && FromClients(rows, e, sorted, clients) && RowsAscend(rows)
            && RowsCount(rows, e, multiset(sorted), clients)
  {
    if sorted != [] {
      var n := |sorted| - 1;
      var earlier, last := sorted[..n], sorted[n];
      assert sorted == earlier + [last];
      assert SortedBy(earlier, IpLe);
      assert last in sorted;
      ClientRowsAre(e, earlier, clients);
      var before, rows := ClientRows(e, earlier, PerClient(e), clients), ClientRows(e, sorted, PerClient(e), clients);
      if Survives(clients, e.channel, last) {
        var b := Bare(e.channel, last, clients.connected[(e.channel, last)], PerClient(e));
        assert rows == before + [b];
        FromMore(before, b, e, earlier, sorted, clients);
        AscendMore(before, b, e, earlier, clients);
      }
      RowsCountMore(before, rows, e, earlier, last, clients);
    }
  }

  lemma AscendMore(before: seq<Bare>, b: Bare, e: Entry, earlier: seq<Ip>, clients: Clients)
    requires FromClients(before, e, earlier, clients) && RowsAscend(before) && SortedBy(earlier + [b.ip], IpLe)
    ensures RowsAscend(before + [b])
  {
    forall i | 0 <= i < |before| ensures before[i].ip <= b.ip { NoneAfter(earlier, b.ip, before[i].ip); }
  }

  lemma NoneAfter(earlier: seq<Ip>, last: Ip, ip: Ip)
    requires SortedBy(earlier + [last], IpLe) && ip in earlier
    ensures ip <= last
  {
    var k :| 0 <= k < |earlier| && earlier[k] == ip;
    assert IpLe((earlier + [last])[k], (earlier + [last])[|earlier|]);
  }

  /** So a channel's rows are those of its clients that were recorded and are not excluded, by ascending address,
      one for each time that the channel lists the client. */
  lemma RowsOfEntry(e: Entry, clients: Clients)
    ensures var rows := EntryRows(e, clients);
            && FromClients(rows, e, e.ips, clients) && RowsAscend(rows)
            && RowsCount(rows, e, multiset(e.ips), clients)
  {
    if e.ips != [] {
      var sorted := Sort(e.ips, IpLe);
      assert TotalOrder(IpLe);
      SortSpec(e.ips, IpLe);
      forall ip ensures ip in sorted <==> ip in e.ips { assert ip in multiset(sorted) <==> ip in multiset(e.ips); }
      ClientRowsAre(e, sorted, clients);
    }
  }

  /** And a poll writes those of each channel. */
  lemma {:induction false} RowIff(snapshot: seq<Entry>, clients: Clients, b: Bare)
    ensures b in AllRows(snapshot, clients) <==>
              exists k :: 0 <= k < |snapshot| && IsRowOf(b, snapshot[k], b.ip, clients)
  {
    if snapshot != [] {
      var n := |snapshot| - 1;
      RowIff(snapshot[..n], clients, b);
      RowOfEntryIff(snapshot[n], clients, b);
      if k :| 0 <= k < n && IsRowOf(b, snapshot[..n][k], b.ip, clients) { assert snapshot[k] == snapshot[..n][k]; }
      if k :| 0 <= k < |snapshot| && IsRowOf(b, snapshot[k], b.ip, clients) {
        if k < n { assert snapshot[..n][k] == snapshot[k]; }
      }
    }
  }

  lemma RowOfEntryIff(e: Entry, clients: Clients, b: Bare)
    ensures b in EntryRows(e, clients) <==> IsRowOf(b, e, b.ip, clients)
  {
    RowsOfEntry(e, clients);
    var rows := EntryRows(e, clients);
    if IsRowOf(b, e, b.ip, clients) {
      assert b.ip in multiset(e.ips);
      assert RowsWith(rows, b.ip) > 0;
      var i := SomeRowWith(rows, b.ip);
      assert rows[i] == b;
    }
  }

  lemma {:induction false} SomeRowWith(rows: seq<Bare>, ip: Ip) returns (i: nat)
    requires RowsWith(rows, ip) > 0
    ensures i < |rows| && rows[i].ip == ip
  {
    i := |rows| - 1;
    if rows[i].ip != ip { i := SomeRowWith(rows[..i], ip); }
  }

  predicate HasRow(rows: seq<Row>, channel: string) {
    exists i :: 0 <= i < |rows| && rows[i].bare.channel == channel
  }

  /** The first row of a channel carries all its counts, later ones none. */
  ghost predicate FirstRowWins(rows: seq<Row>, counts: Counts) {
    forall i :: 0 <= i < |rows| ==>
      var c := rows[i].bare.channel;
      rows[i].events == if HasRow(rows[..i], c) || c !in counts then map[] else counts[c]
  }

  ghost predicate BareRows(rows: seq<Row>, bare: seq<Bare>) {
    |rows| == |bare| && forall i :: 0 <= i < |rows| ==> rows[i].bare == bare[i]
  }

  method WriteSessionTelemetry(snapshot: seq<Entry>, counts: Counts, clients: Clients) returns (rows: seq<Row>)
    ensures BareRows(rows, AllRows(snapshot, clients)) && FirstRowWins(rows, counts)
  {
    rows := [];
    var attributed: set<string> := {};
    for n := 0 to |snapshot|
      invariant BareRows(rows, AllRows(snapshot[..n], clients)) && FirstRowWins(rows, counts)
      invariant forall c :: c in attributed <==> HasRow(rows, c)
    {
      var e := snapshot[n];
      assert snapshot[..n + 1][..n] == snapshot[..n];
      ghost var before := rows;
      if e.ips != [] {
        rows, attributed := WriteEntry(e, counts, clients, rows, attributed);
      }
      BareConcat(rows, |before|, AllRows(snapshot[..n], clients), EntryRows(e, clients));
    }
    assert snapshot[..|snapshot|] == snapshot;
  }

  lemma BareConcat(rows: seq<Row>, k: nat, a: seq<Bare>, b: seq<Bare>)
    requires k <= |rows| && BareRows(rows[..k], a) && BareRows(rows[k..], b)
    ensures BareRows(rows, a + b)
  {
    forall i | 0 <= i < |rows| ensures rows[i].bare == (a + b)[i] {
      if i < k { assert rows[..k][i] == rows[i]; } else { assert rows[k..][i - k] == rows[i]; }
    }
  }

  method WriteEntry(e: Entry, counts: Counts, clients: Clients, before: seq<Row>, attributed: set<string>)
    returns (rows: seq<Row>, attributed': set<string>)
    requires e.ips != [] && FirstRowWins(before, counts)
    requires forall c :: c in attributed <==> HasRow(before, c)
    ensures |before| <= |rows| && rows[..|before|] == before
    ensures BareRows(rows[|before|..], EntryRows(e, clients)) && FirstRowWins(rows, counts)
    ensures forall c :: c in attributed' <==> HasRow(rows, c)
  {
    var sorted := Sort(e.ips, IpLe);
    var share := PerClient(e);
    rows, attributed' := before, attributed;
    for k := 0 to |sorted|
      invariant |before| <= |rows| && rows[..|before|] == before
      invariant BareRows(rows[|before|..], ClientRows(e, sorted[..k], share, clients))
      invariant FirstRowWins(rows, counts)
      invariant forall c :: c in attributed' <==> HasRow(rows, c)
    {
      var ip := sorted[k];
      assert sorted[..k + 1][..k] == sorted[..k];
      if Survives(clients, e.channel, ip) {
        var events := if e.channel in attributed' || e.channel !in counts then map[] else counts[e.channel];
        var row := Row(Bare(e.channel, ip, clients.connected[(e.channel, ip)], share), events);
        OneMoreRow(rows, row, counts);
        assert (rows + [row])[|before|..] == rows[|before|..] + [row];
        rows := rows + [row];
        attributed' := attributed' + {e.channel};
      }
    }
    assert sorted[..|sorted|] == sorted;
  }

  lemma OneMoreRow(rows: seq<Row>, row: Row, counts: Counts)
    requires FirstRowWins(rows, counts)
    requires row.events ==
               if HasRow(rows, row.bare.channel) || row.bare.channel !in counts then map[] else counts[row.bare.channel]
    ensures FirstRowWins(rows + [row], counts)
    ensures forall c :: HasRow(rows + [row], c) <==> HasRow(rows, c) || c == row.bare.channel
  {
    var all := rows + [row];
    assert forall i :: 0 <= i <= |rows| ==> all[..i] == rows[..i];
    assert rows[..|rows|] == rows;
    forall c ensures HasRow(all, c) <==> HasRow(rows, c) || c == row.bare.channel {
      assert all[|rows|] == row;
      if i :| 0 <= i < |rows| && rows[i].bare.channel == c { assert all[i] == rows[i]; }
    }
  }

  // ----- totals

  function Sum(rows: seq<Row>, channel: string, kind: Kind): nat {
    if rows == [] then 0 else
      Sum(rows[..|rows| - 1], channel, kind) +
      (var r := rows[|rows| - 1];
       if r.bare.channel == channel && kind in r.events then r.events[kind] else 0)
  }

  /** Summed over its rows, a channel's counts are those of the poll if it has a row at all. */
  lemma {:induction false} TotalsMatch(rows: seq<Row>, counts: Counts, channel: string, kind: Kind)
    requires FirstRowWins(rows, counts)
    ensures Sum(rows, channel, kind) == if HasRow(rows, channel) then CountOf(counts, channel, kind) else 0
  {
    if rows != [] {
      var earlier, last := rows[..|rows| - 1], rows[|rows| - 1];
      WinsBefore(rows, counts);
      TotalsMatch(earlier, counts, channel, kind);
      RowAtEnd(earlier, last, channel);
      assert rows == earlier + [last];
      assert last.bare.channel == channel && HasRow(earlier, channel) ==> last.events == map[];
    }
  }

  lemma RowAtEnd(earlier: seq<Row>, last: Row, channel: string)
    ensures HasRow(earlier + [last], channel) <==> HasRow(earlier, channel) || last.bare.channel == channel
  {
    var all := earlier + [last];
    assert all[|earlier|] == last;
    if i :| 0 <= i < |earlier| && earlier[i].bare.channel == channel { assert all[i] == earlier[i]; }
  }

  lemma WinsBefore(rows: seq<Row>, counts: Counts)
    requires rows != [] && FirstRowWins(rows, counts)
    ensures FirstRowWins(rows[..|rows| - 1], counts)
    ensures var last := rows[|rows| - 1];
            last.events == if HasRow(rows[..|rows| - 1], last.bare.channel) || last.bare.channel !in counts then map[]
                           else counts[last.bare.channel]
  {
    var earlier := rows[..|rows| - 1];
    forall i | 0 <= i < |earlier|
      ensures earlier[i].events ==
                if HasRow(earlier[..i], earlier[i].bare.channel) || earlier[i].bare.channel !in counts
                                   then map[] else counts[earlier[i].bare.channel]
    {
      assert earlier[..i] == rows[..i] && earlier[i] == rows[i];
    }
  }

  /** So what a poll's rows say of a channel is what the poll counted, once. */
  lemma PollTotals(rows: seq<Row>, counts: Counts, counted: seq<Attribution>, channel: string, kind: Kind)
    requires FirstRowWins(rows, counts)
    requires forall c, k :: CountOf(counts, c, k) == Tally(counted, c, k)
    ensures Sum(rows, channel, kind) == if HasRow(rows, channel) then Tally(counted, channel, kind) else 0
  {
    TotalsMatch(rows, counts, channel, kind);
  }

  // ----- over a run

  /** The rows of a poll, with the counts they were written from and the events counted. */
  datatype Poll = Poll(rows: seq<Row>, counts: Counts, counted: seq<Attribution>)

  ghost predicate WrittenFrom(p: Poll) {
    FirstRowWins(p.rows, p.counts) && forall c, k :: CountOf(p.counts, c, k) == Tally(p.counted, c, k)
  }

  function SumOver(run: seq<Poll>, channel: string, kind: Kind): nat {
    if run == [] then 0 else
      SumOver(run[..|run| - 1], channel, kind) + Sum(run[|run| - 1].rows, channel, kind)
  }

  function AllCounted(run: seq<Poll>): seq<Attribution> {
    if run == [] then [] else AllCounted(run[..|run| - 1]) + run[|run| - 1].counted
  }

  lemma {:induction false} TallyJoins(a: seq<Attribution>, b: seq<Attribution>, channel: string, kind: Kind)
    ensures Tally(a + b, channel, kind) == Tally(a, channel, kind) + Tally(b, channel, kind)
  {
    if b == [] {
      assert a + b == a;
    } else {
      var n := |b| - 1;
      TallyJoins(a, b[..n], channel, kind);
      assert (a + b)[..|a + b| - 1] == a + b[..n];
      assert (a + b)[|a + b| - 1] == b[n];
    }
  }

  /** A poll in which events of a channel were counted and it has no row: they are dropped. */
  ghost predicate Dropped(run: seq<Poll>, channel: string, kind: Kind, i: nat) {
    i < |run| && Tally(run[i].counted, channel, kind) > 0 && !HasRow(run[i].rows, channel)
  }

  /** Summed over every row of a run, a channel's events of a kind are no more than were counted, and are all
      of them exactly when it had a row in each poll that counted one. */
  lemma {:induction false} RunTotals(run: seq<Poll>, channel: string, kind: Kind)
    requires forall i :: 0 <= i < |run| ==> WrittenFrom(run[i])
    ensures SumOver(run, channel, kind) <= Tally(AllCounted(run), channel, kind)
    ensures SumOver(run, channel, kind) == Tally(AllCounted(run), channel, kind) <==>
              forall i: nat :: !Dropped(run, channel, kind, i)
  {
    if run != [] {
      var n := |run| - 1;
      RunTotals(run[..n], channel, kind);
      PollTotals(run[n].rows, run[n].counts, run[n].counted, channel, kind);
      TallyJoins(AllCounted(run[..n]), run[n].counted, channel, kind);
      forall i: nat | i < n ensures Dropped(run[..n], channel, kind, i) <==> Dropped(run, channel, kind, i) {
        assert run[..n][i] == run[i];
      }
      assert Dropped(run, channel, kind, n) <==>
             (Tally(run[n].counted, channel, kind) > 0 && !HasRow(run[n].rows, channel));
    }
  }

  // ----- from the feed to the rows

  /** What the `i`th poll counted, with the ids that it remembered from those before. */
  function CountedIn(cap: nat, feeds: seq<EventIngest.Poll>, i: nat): seq<Attribution>
    requires i < |feeds|
  {
    if feeds[i].NoFetch? then []
    else Ingest(RunBounded(cap, feeds[..i]).seen, cap, feeds[i].snapshot, feeds[i].events).counted
  }

  /** Each poll's rows were written from what it counted. */
  ghost predicate WrittenFromFeeds(run: seq<Poll>, feeds: seq<EventIngest.Poll>, cap: nat) {
    && |run| == |feeds|
    && forall i :: 0 <= i < |run| ==> WrittenFrom(run[i]) && run[i].counted == CountedIn(cap, feeds, i)
  }

  lemma {:induction false} CountedOverRun(run: seq<Poll>, feeds: seq<EventIngest.Poll>, cap: nat)
    requires WrittenFromFeeds(run, feeds, cap)
    ensures AllCounted(run) == RunBounded(cap, feeds).counted
  {
    if run != [] {
      var n := |run| - 1;
      FeedsBefore(run, feeds, cap, n);
      CountedOverRun(run[..n], feeds[..n], cap);
      assert run[n].counted == CountedIn(cap, feeds, n);
    }
  }

  lemma FeedsBefore(run: seq<Poll>, feeds: seq<EventIngest.Poll>, cap: nat, n: nat)
    requires WrittenFromFeeds(run, feeds, cap) && n <= |run|
    ensures WrittenFromFeeds(run[..n], feeds[..n], cap)
  {
    forall i | 0 <= i < n ensures CountedIn(cap, feeds[..n], i) == CountedIn(cap, feeds, i) {
      assert feeds[..n][..i] == feeds[..i];
    }
  }

  /** The different events of a kind that were counted towards a channel. */
  function EventsOf(counted: seq<Attribution>, channel: string, kind: Kind): set<int> {
    set a | a in counted && a.channel == channel && a.kind == kind :: a.id
  }

  lemma {:induction false} TallyIsSize(counted: seq<Attribution>, channel: string, kind: Kind)
    requires OncePerId(counted)
    ensures Tally(counted, channel, kind) == |EventsOf(counted, channel, kind)|
  {
    if counted == [] {
      assert EventsOf(counted, channel, kind) == {};
    } else {
      var n := |counted| - 1;
      TallyIsSize(counted[..n], channel, kind);
      OneMoreEvent(counted[..n], counted[n], channel, kind);
      assert counted == counted[..n] + [counted[n]];
      forall a | a in counted[..n] ensures a.id != counted[n].id {
        var i :| 0 <= i < n && counted[..n][i] == a;
        assert counted[i] == a;
      }
    }
  }

  lemma OneMoreEvent(counted: seq<Attribution>, a: Attribution, channel: string, kind: Kind)
    ensures EventsOf(counted + [a], channel, kind) ==
              EventsOf(counted, channel, kind) + if a.channel == channel && a.kind == kind then {a.id} else {}
  {
    var all := counted + [a];
    assert a in all && forall b :: b in all <==> b in counted || b == a;
  }

  /** Every row of a run together carries no event twice, though each poll read a window of the same feed: of the
      different events of a kind counted towards a channel at most each is in a row, and all are exactly when
      the channel had a row in each poll that counted one. */
  lemma EachEventInOneRow(run: seq<Poll>, feeds: seq<EventIngest.Poll>, cap: nat, w: nat, channel: string, kind: Kind)
    requires WrittenFromFeeds(run, feeds, cap)
    requires Contiguous(feeds) && FeedsAtMost(feeds, w) && cap >= 2 * w - 1
    ensures OncePerId(AllCounted(run))
    ensures SumOver(run, channel, kind) <= |EventsOf(AllCounted(run), channel, kind)|
    ensures SumOver(run, channel, kind) == |EventsOf(AllCounted(run), channel, kind)| <==>
              forall i: nat :: !Dropped(run, channel, kind, i)
  {
    CountedOverRun(run, feeds, cap);
    ExactlyOnce(feeds, cap, w);
    TallyIsSize(AllCounted(run), channel, kind);
    RunTotals(run, channel, kind);
  }

  // ----- bytes

  function Bytes(rows: seq<Bare>): int {
    if rows == [] then 0 else Bytes(rows[..|rows| - 1]) + rows[|rows| - 1].bytes
  }

  lemma {:induction false} ClientBytes(e: Entry, sorted: seq<Ip>, share: nat, clients: Clients)
    ensures |ClientRows(e, sorted, share, clients)| <= |sorted|
    ensures Bytes(ClientRows(e, sorted, share, clients)) == |ClientRows(e, sorted, share, clients)| * share
    ensures (forall k :: 0 <= k < |sorted| ==> Survives(clients, e.channel, sorted[k])) ==>
              |ClientRows(e, sorted, share, clients)| == |sorted|
  {
    if sorted != [] {
      ClientBytes(e, sorted[..|sorted| - 1], share, clients);
      var rows := ClientRows(e, sorted, share, clients);
      if Survives(clients, e.channel, sorted[|sorted| - 1]) {
        assert rows[..|rows| - 1] == ClientRows(e, sorted[..|sorted| - 1], share, clients);
      }
    }
  }

  /** A channel's rows never carry more than it moved, and when every client has a row the remainder
      is less than a byte a client. */
  lemma BytesShared(e: Entry, clients: Clients)
    ensures 0 <= Bytes(EntryRows(e, clients)) <= Positive(e.bytesDelta)
    ensures e.ips != [] && (forall ip :: ip in e.ips ==> Survives(clients, e.channel, ip)) ==>
              Positive(e.bytesDelta) - Bytes(EntryRows(e, clients)) < |e.ips|
  {
    if e.ips != [] {
      var sorted := Sort(e.ips, IpLe);
      SortSpec(e.ips, IpLe);
      ClientBytes(e, sorted, PerClient(e), clients);
      SharesFit(Positive(e.bytesDelta), |e.ips|, |EntryRows(e, clients)|);
      forall k | 0 <= k < |sorted| ensures sorted[k] in e.ips {
        assert sorted[k] in multiset(sorted);
      }
    }
  }

  lemma SharesFit(d: nat, n: nat, m: nat)
    requires 0 < n && m <= n
    ensures 0 <= m * (d / n) <= d
    ensures m == n ==> d - m * (d / n) < n
  {
    var q := d / n;
    assert d == n * q + d % n;
    assert n * q == m * q + (n - m) * q;
    assert 0 <= (n - m) * q && 0 <= m * q;
  }
}
