/** Who provides the stream of each active channel, with a time-limited cache in front of the lookup
    (`StreamProviderCache` and `resolve_active_channel_streams` in backend/bandwidth_tracker.py). */
module StreamProviders {
  import opened Common

  /** What the catalogue says of a stream. */
  datatype Record = Record(provider: Option<int>, name: Option<string>)

  datatype Resolution = Resolution(providerId: Option<int>, streamId: Option<int>, streamName: Option<string>,
                                   providerName: Option<string>, hostname: Option<string>)

  const EMPTY: Resolution := Resolution(None, None, None, None, None)
  const LOCAL_TUNER_ID: int := -1
  const LOCAL_TUNER_NAME: string := "HD HomeRun"

  /** An active URL, with what parsing it yields: a trailing stream id, a host name, and the provider
      that host name is matched to. */
  datatype Url = Url(derived: Option<int>, hostname: Option<string>, byHost: Option<Resolution>)

  datatype Entry = Entry(channel: string, streamId: Option<int>, url: Option<Url>)

  datatype Stream = Stream(id: Option<int>, record: Record)

  // ----- the cache

  datatype Cached = Cached(at: int, record: Record)

  predicate Fresh(entries: map<int, Cached>, ttl: int, now: int, id: int) {
    id in entries && now - entries[id].at <= ttl
  }

  /** What is done to the cache, in order: a batch is asked of it, and what is missing then goes to
      upstream; a record of the answer to the `asked`th step is put; it is cleared. */
  datatype Step = Ask(ids: set<int>, now: int) | Put(asked: nat, id: int, record: Record, at: int) | Clear

  function Members(ids: seq<int>): (r: set<int>)
    ensures forall id :: id in r <==> id in ids
  {
    set id | id in ids
  }

  lemma MembersOfList(list: seq<int>, ids: set<int>)
    requires forall id :: id in list <==> id in ids
    ensures Members(list) == ids
  {
    assert forall id :: id in Members(list) <==> id in ids;
  }

  function Apply(entries: map<int, Cached>, ttl: int, step: Step): map<int, Cached> {
    match step
    case Ask(ids, now) => map id | id in entries && (id in ids ==> Fresh(entries, ttl, now, id)) :: entries[id]
    case Put(_, id, record, at) => entries[id := Cached(at, record)]
    case Clear => map[]
  }

  function CacheAfter(ttl: int, log: seq<Step>): map<int, Cached> {
    if log == [] then map[] else Apply(CacheAfter(ttl, log[..|log| - 1]), ttl, log[|log| - 1])
  }

  /** Each record put is of the answer to a batch that was asked before. */
  ghost predicate IsLog(log: seq<Step>) {
    forall k: nat :: k < |log| ==> AnswersAsk(log, k)
  }

  ghost predicate AnswersAsk(log: seq<Step>, k: nat)
    requires k < |log|
  {
    log[k].Put? ==> log[k].asked < k && log[log[k].asked].Ask?
  }

  lemma LogGrows(log: seq<Step>, step: Step)
    requires IsLog(log) && (step.Put? ==> step.asked < |log| && log[step.asked].Ask?)
    ensures IsLog(log + [step])
  {
    forall k: nat | k < |log| + 1 ensures AnswersAsk(log + [step], k) {
      if k < |log| { assert AnswersAsk(log, k); }
    }
  }

  class StreamProviderCache {
    var entries: map<int, Cached>
    const ttl: int
    ghost var log: seq<Step>

    ghost predicate Valid()
      reads this
    {
      entries == CacheAfter(ttl, log) && IsLog(log)
    }

    constructor (ttl: int)
      ensures Valid() && entries == map[] && log == [] && this.ttl == ttl
    {
      entries, this.ttl, log := map[], ttl, [];
    }

    /** Fresh hits, and the rest once each; what has expired is dropped. */
    method GetBatch(ids: seq<int>, now: int) returns (hits: map<int, Record>, misses: seq<int>)
      requires Valid()
      modifies this
      ensures Valid() && log == old(log) + [Ask(Members(ids), now)]
      ensures forall id :: id in hits <==> id in ids && id in old(entries) && now - old(entries)[id].at <= ttl
      ensures forall id :: id in hits ==> id in old(entries) && hits[id] == old(entries)[id].record
      ensures NoDup(misses) && forall id :: id in misses <==> id in ids && id !in hits
      ensures forall id :: id in entries <==> id in old(entries) && (id in ids ==> now - old(entries)[id].at <= ttl)
      ensures forall id :: id in entries ==> entries[id] == old(entries)[id]
      ensures entries == Apply(old(entries), ttl, Ask(Members(ids), now))
    {
      hits, misses := map[], [];
      for k := 0 to |ids|
        modifies `entries
        invariant forall id :: id in hits <==> id in ids[..k] && Fresh(old(entries), ttl, now, id)
        invariant forall id :: id in hits ==> id in old(entries) && hits[id] == old(entries)[id].record
        invariant NoDup(misses) && forall id :: id in misses <==> id in ids[..k] && id !in hits
        invariant forall id :: id in entries <==> id in old(entries) && (id in ids[..k] ==> id in hits)
        invariant forall id :: id in entries ==> entries[id] == old(entries)[id]
      {
        var id := ids[k];
        assert ids[..k + 1] == ids[..k] + [id];
        if id in entries && now - entries[id].at <= ttl {
          hits := hits[id := entries[id].record];
        } else {
          entries := entries - {id};
          if id !in misses { misses := misses + [id]; }
        }
      }
      assert ids[..|ids|] == ids;
      AfterAsk(old(entries), entries, ttl, Members(ids), now);
      OneMoreStep(ttl, log, Ask(Members(ids), now));
      LogGrows(log, Ask(Members(ids), now));
      log := log + [Ask(Members(ids), now)];
    }

    method Put(ghost asked: nat, id: int, record: Record, now: int)
      requires Valid() && asked < |log| && log[asked].Ask?
      modifies this
      ensures Valid() && log == old(log) + [Step.Put(asked, id, record, now)]
      ensures entries == old(entries)[id := Cached(now, record)]
    {
      OneMoreStep(ttl, log, Step.Put(asked, id, record, now));
      LogGrows(log, Step.Put(asked, id, record, now));
      entries, log := entries[id := Cached(now, record)], log + [Step.Put(asked, id, record, now)];
    }

    method Clear()
      requires Valid()
      modifies this
      ensures Valid() && log == old(log) + [Step.Clear] && entries == map[]
    {
      OneMoreStep(ttl, log, Step.Clear);
      LogGrows(log, Step.Clear);
      entries, log := map[], log + [Step.Clear];
    }
  }

  lemma AfterAsk(was: map<int, Cached>, entries: map<int, Cached>, ttl: int, ids: set<int>, now: int)
    requires forall id :: id in entries <==> id in was && (id in ids ==> Fresh(was, ttl, now, id))
    requires forall id :: id in entries ==> entries[id] == was[id]
    ensures entries == Apply(was, ttl, Ask(ids, now))
  {
    var after := Apply(was, ttl, Ask(ids, now));
    assert forall id :: id in entries <==> id in after;
    assert forall id :: id in entries ==> entries[id] == after[id];
  }

  lemma OneMoreStep(ttl: int, log: seq<Step>, step: Step)
    ensures CacheAfter(ttl, log + [step]) == Apply(CacheAfter(ttl, log), ttl, step)
  {
    assert (log + [step])[..|log|] == log;
  }

  // ----- where what is cached comes from

  ghost predicate ClearedBetween(log: seq<Step>, i: int, j: int) {
    exists c :: 0 <= c < |log| && i < c < j && log[c].Clear?
  }

  /** The `k`th step put the record, and nothing has cleared it since, or put another. */
  ghost predicate PutBy(log: seq<Step>, k: nat, id: int, cached: Cached) {
    && k < |log| && log[k].Put? && log[k].id == id && log[k].record == cached.record && log[k].at == cached.at
    && !ClearedBetween(log, k, |log|)
    && forall j :: k < j < |log| && log[j].Put? ==> log[j].id != id
  }

  /** What is cached was put by an answer since the last clear, and is the last such record. */
  lemma {:induction false} CachedWasPut(ttl: int, log: seq<Step>, id: int) returns (k: nat)
    requires id in CacheAfter(ttl, log)
    ensures PutBy(log, k, id, CacheAfter(ttl, log)[id])
  {
    var n := |log| - 1;
    if log[n] == Step.Put(if log[n].Put? then log[n].asked else 0, id, CacheAfter(ttl, log)[id].record,
                          CacheAfter(ttl, log)[id].at) {
      k := n;
    } else {
      k := CachedWasPut(ttl, log[..n], id);
      assert forall c :: 0 <= c < n && log[c].Clear? ==> log[..n][c].Clear?;
    }
  }

  /** A batch asked since for the record found it too old. */
  ghost predicate Expired(ttl: int, log: seq<Step>, k: nat, id: int, cached: Cached) {
    exists j :: k < j < |log| && log[j].Ask? && id in log[j].ids && log[j].now - cached.at > ttl
  }

  /** The `k`th step put the record, and it has stayed. */
  ghost predicate Stays(ttl: int, log: seq<Step>, k: nat, id: int, cached: Cached) {
    PutBy(log, k, id, cached) && !Expired(ttl, log, k, id, cached)
  }

  /** And what has been put so is cached for as long as no batch that asks for it finds it too old. */
  lemma {:induction false} CachedIff(ttl: int, log: seq<Step>, id: int, cached: Cached)
    ensures id in CacheAfter(ttl, log) && CacheAfter(ttl, log)[id] == cached <==>
              exists k: nat :: Stays(ttl, log, k, id, cached)
  {
    if log != [] {
      var n := |log| - 1;
      CachedIff(ttl, log[..n], id, cached);
      forall k: nat
        ensures Stays(ttl, log, k, id, cached) <==>
                  || (k == n && IsPut(log[n], id, cached))
                  || (Stays(ttl, log[..n], k, id, cached) && Keeps(ttl, log[n], id, cached))
      {
        StaysMore(ttl, log, k, id, cached);
      }
      assert Stays(ttl, log, n, id, cached) <== IsPut(log[n], id, cached);
      StillThere(ttl, log, id, cached);
    }
  }

  ghost predicate IsPut(step: Step, id: int, cached: Cached) {
    step.Put? && step.id == id && step.record == cached.record && step.at == cached.at
  }

  ghost predicate Keeps(ttl: int, step: Step, id: int, cached: Cached) {
    match step
    case Ask(ids, now) => id in ids ==> now - cached.at <= ttl
    case Put(_, other, _, _) => other != id
    case Clear => false
  }

  lemma StillThere(ttl: int, log: seq<Step>, id: int, cached: Cached)
    requires log != []
    ensures var n := |log| - 1;
            var before, after := CacheAfter(ttl, log[..n]), CacheAfter(ttl, log);
            id in after && after[id] == cached <==>
              IsPut(log[n], id, cached) || (id in before && before[id] == cached && Keeps(ttl, log[n], id, cached))
  {
  }

  lemma StaysMore(ttl: int, log: seq<Step>, k: nat, id: int, cached: Cached)
    requires log != []
    ensures var n := |log| - 1;
            Stays(ttl, log, k, id, cached) <==>
              || (k == n && IsPut(log[n], id, cached))
              || (Stays(ttl, log[..n], k, id, cached) && Keeps(ttl, log[n], id, cached))
  {
    var n := |log| - 1;
    if k < n {
      ClearedMore(log, k);
      ExpiredMore(ttl, log, k, id, cached);
      assert log[..n][k] == log[k];
      assert forall j :: k < j < n ==> log[..n][j] == log[j];
    }
  }

  lemma ClearedMore(log: seq<Step>, k: nat)
    requires k < |log| - 1
    ensures var n := |log| - 1;
            ClearedBetween(log, k, |log|) <==> ClearedBetween(log[..n], k, n) || log[n].Clear?
  {
    var n := |log| - 1;
    if c :| 0 <= c < n && k < c && log[..n][c].Clear? { assert log[c].Clear?; }
    if c :| 0 <= c < |log| && k < c && log[c].Clear? {
      if c < n { assert log[..n][c].Clear?; }
    }
  }

  lemma ExpiredMore(ttl: int, log: seq<Step>, k: nat, id: int, cached: Cached)
    requires k < |log| - 1
    ensures var n := |log| - 1;
            Expired(ttl, log, k, id, cached) <==>
              Expired(ttl, log[..n], k, id, cached) ||
              (log[n].Ask? && id in log[n].ids && log[n].now - cached.at > ttl)
  {
    var n := |log| - 1;
    if j :| k < j < n && log[..n][j].Ask? && id in log[..n][j].ids && log[..n][j].now - cached.at > ttl {
      assert log[j] == log[..n][j];
    }
    if j :| k < j < |log| && log[j].Ask? && id in log[j].ids && log[j].now - cached.at > ttl {
      if j < n { assert log[..n][j] == log[j]; }
    }
  }

  /** So a cached record was also asked for since the last clear, unless the cache was cleared while its
      answer was awaited, and only then not. */
  lemma AskedSinceClear(ttl: int, log: seq<Step>, id: int) returns (k: nat)
    requires IsLog(log) && id in CacheAfter(ttl, log)
    ensures PutBy(log, k, id, CacheAfter(ttl, log)[id])
    ensures !ClearedBetween(log, log[k].asked, |log|) <==> !ClearedBetween(log, log[k].asked, k)
  {
    k := CachedWasPut(ttl, log, id);
  }

  /** A clear that comes while an answer is awaited does not keep out what upstream held before it. */
  lemma ClearedTooSoon(ttl: int, id: int, record: Record, now: int, at: int)
    ensures var log := [Ask({id}, now), Clear, Put(0, id, record, at)];
            && IsLog(log) && CacheAfter(ttl, log) == map[id := Cached(at, record)]
            && ClearedBetween(log, log[2].asked, |log|)
  {
    var log := [Ask({id}, now), Clear, Put(0, id, record, at)];
    assert log[..2][..1][..0] == [] && log[..2] == [log[0], log[1]];
    OneMoreStep(ttl, [log[0]], log[1]);
    OneMoreStep(ttl, log[..2], log[2]);
    assert [log[0]] + [log[1]] == log[..2] && log[..2] + [log[2]] == log;
    assert log[1].Clear?;
  }

  // ----- resolution without a cache

  function HostnameOf(url: Option<Url>): Option<string> {
    if url.None? then None else url.value.hostname
  }

  function ByHost(url: Option<Url>): Option<Resolution> {
    if url.None? then None else url.value.byHost
  }

  /** A channel known by a stream id, looked up in a catalogue. */
  function ByStream(sid: int, derived: bool, url: Option<Url>, catalogue: map<int, Record>, names: map<int, string>)
    : Resolution {
    var found := sid in catalogue;
    var provider := if found then catalogue[sid].provider else None;
    if provider.Some? then
      Resolution(provider, Some(sid), catalogue[sid].name,
                 if provider.value in names then Some(names[provider.value]) else HostnameOf(url), HostnameOf(url))
    else if (derived || !found) && ByHost(url).Some? then ByHost(url).value
    else if found then
      Resolution(Some(LOCAL_TUNER_ID), Some(sid), catalogue[sid].name, Some(LOCAL_TUNER_NAME), HostnameOf(url))
    else EMPTY
  }

  /** A channel with a stream id, else the one in its URL, else only its URL's host. */
  function ResolveEntry(e: Entry, catalogue: map<int, Record>, names: map<int, string>): Resolution {
    if e.streamId.Some? then ByStream(e.streamId.value, false, e.url, catalogue, names)
    else if e.url.Some? && e.url.value.derived.Some? then
      ByStream(e.url.value.derived.value, true, e.url, catalogue, names)
    else if ByHost(e.url).Some? then ByHost(e.url).value
    else EMPTY
  }

  /** The channel's stream id, or else the one that its URL yields. */
  ghost predicate KnownBy(e: Entry, sid: int, derived: bool) {
    if e.streamId.Some? then e.streamId == Some(sid) && !derived
    else e.url.Some? && e.url.value.derived == Some(sid) && derived
  }

  /** The stream is in the catalogue, with a provider: whose name is the one it goes by, or else the URL's host
      name. */
  ghost predicate Provided(e: Entry, sid: int, record: Record, names: map<int, string>, r: Resolution) {
    && r.streamId == Some(sid) && r.streamName == record.name && r.providerId == record.provider
    && (r.hostname.Some? <==> e.url.Some? && e.url.value.hostname.Some?)
    && (r.hostname.Some? ==> r.hostname == e.url.value.hostname)
    && forall p :: record.provider == Some(p) ==>
         (p in names ==> r.providerName == Some(names[p])) && (p !in names ==> r.providerName == r.hostname)
  }

  /** What an entry of a snapshot is resolved to, for a stream that the catalogue has with a provider, one that it
      has without, and one that it does not have, or none. */
  lemma ResolvedTo(e: Entry, catalogue: map<int, Record>, names: map<int, string>)
    ensures var r := ResolveEntry(e, catalogue, names);
            var matched := e.url.Some? && e.url.value.byHost.Some?;
            && (forall sid, derived ::
                  KnownBy(e, sid, derived) && sid in catalogue && catalogue[sid].provider.Some? ==>
                    Provided(e, sid, catalogue[sid], names, r))
            && (forall sid, derived ::
                  KnownBy(e, sid, derived) && sid in catalogue && catalogue[sid].provider.None? ==>
                    if derived && matched then Some(r) == e.url.value.byHost
                    else Provided(e, sid, Record(Some(-1), catalogue[sid].name), map[-1 := "HD HomeRun"], r))
            && ((forall sid, derived :: KnownBy(e, sid, derived) ==> sid !in catalogue) ==>
                  if matched then Some(r) == e.url.value.byHost else r == Resolution(None, None, None, None, None))
  {
    if e.streamId.Some? {
      assert KnownBy(e, e.streamId.value, false);
    } else if e.url.Some? && e.url.value.derived.Some? {
      assert KnownBy(e, e.url.value.derived.value, true);
    }
  }

  /** The dictionaries the first pass fills. */
  datatype Sorted = Sorted(resolved: map<string, Resolution>, sids: map<string, int>, derived: set<string>,
                           urls: map<string, Url>)

  function UrlOf(urls: map<string, Url>, channel: string): Option<Url> {
    if channel in urls then Some(urls[channel]) else None
  }

  function SortEntry(s: Sorted, e: Entry): Sorted {
    var urls := if e.url.Some? then s.urls[e.channel := e.url.value] else s.urls;
    if e.streamId.Some? then s.(sids := s.sids[e.channel := e.streamId.value], urls := urls)
    else if e.url.Some? && e.url.value.derived.Some? then
      s.(sids := s.sids[e.channel := e.url.value.derived.value], derived := s.derived + {e.channel}, urls := urls)
    else
      var r := if ByHost(UrlOf(urls, e.channel)).Some? then ByHost(UrlOf(urls, e.channel)).value else EMPTY;
      s.(resolved := s.resolved[e.channel := r], urls := urls)
  }

  function SortAll(snapshot: seq<Entry>): Sorted {
    if snapshot == [] then Sorted(map[], map[], {}, map[])
    else SortEntry(SortAll(snapshot[..|snapshot| - 1]), snapshot[|snapshot| - 1])
  }

  /** The whole resolution over a catalogue. */
  function Resolve(snapshot: seq<Entry>, catalogue: map<int, Record>, names: map<int, string>)
    : map<string, Resolution> {
    var s := SortAll(snapshot);
    s.resolved + map c | c in s.sids :: ByStream(s.sids[c], c in s.derived, UrlOf(s.urls, c), catalogue, names)
  }

  ghost predicate DistinctChannels(snapshot: seq<Entry>) {
    forall i, j :: 0 <= i < j < |snapshot| ==> snapshot[i].channel != snapshot[j].channel
  }

  lemma {:induction false} SortedAt(snapshot: seq<Entry>, k: nat)
    requires DistinctChannels(snapshot) && k < |snapshot|
    ensures var s, e := SortAll(snapshot), snapshot[k];
            var bySid := e.streamId.Some? || (e.url.Some? && e.url.value.derived.Some?);
            && UrlOf(s.urls, e.channel) == e.url
            && (e.channel in s.sids <==> bySid)
            && (e.channel in s.derived <==> e.streamId.None? && bySid)
            && (bySid ==> s.sids[e.channel] == if e.streamId.Some? then e.streamId.value else e.url.value.derived.value)
            && (!bySid ==>
                e.channel in s.resolved &&
                s.resolved[e.channel] == if ByHost(e.url).Some? then ByHost(e.url).value else EMPTY)
  {
    var n := |snapshot| - 1;
    if k < n {
      SortedAt(snapshot[..n], k);
    } else {
      NotSorted(snapshot[..n], snapshot[n].channel);
    }
  }

  lemma {:induction false} NotSorted(snapshot: seq<Entry>, c: string)
    ensures var s := SortAll(snapshot);
            && (c in s.resolved || c in s.sids <==> exists k :: 0 <= k < |snapshot| && snapshot[k].channel == c)
            && (c in s.derived || c in s.urls ==> exists k :: 0 <= k < |snapshot| && snapshot[k].channel == c)
  {
    if snapshot != [] {
      var n := |snapshot| - 1;
      NotSorted(snapshot[..n], c);
      if k :| 0 <= k < n && snapshot[..n][k].channel == c { assert snapshot[k].channel == c; }
      if k :| 0 <= k < |snapshot| && snapshot[k].channel == c {
        if k < n { assert snapshot[..n][k].channel == c; }
      }
    }
  }

  /** One result for each channel of the snapshot, and no others; where each channel is in it once,
      the result of its own entry. */
  lemma OneResultEach(snapshot: seq<Entry>, catalogue: map<int, Record>, names: map<int, string>)
    ensures forall c :: c in Resolve(snapshot, catalogue, names) <==>
              exists k :: 0 <= k < |snapshot| && snapshot[k].channel == c
    ensures DistinctChannels(snapshot) ==> forall k :: 0 <= k < |snapshot| ==>
      snapshot[k].channel in Resolve(snapshot, catalogue, names) &&
      Resolve(snapshot, catalogue, names)[snapshot[k].channel] == ResolveEntry(snapshot[k], catalogue, names)
  {
    forall c ensures c in Resolve(snapshot, catalogue, names) <==>
             exists k :: 0 <= k < |snapshot| && snapshot[k].channel == c {
      NotSorted(snapshot, c);
    }
    if DistinctChannels(snapshot) {
      forall k | 0 <= k < |snapshot|
        ensures snapshot[k].channel in Resolve(snapshot, catalogue, names)
        ensures Resolve(snapshot, catalogue, names)[snapshot[k].channel] == ResolveEntry(snapshot[k], catalogue, names)
      {
        SortedAt(snapshot, k);
        NotSorted(snapshot, snapshot[k].channel);
      }
    }
  }

  // ----- resolution

  /** What a response adds to the catalogue, a later record of a stream replacing an earlier. */
  function Found(streams: seq<Stream>): map<int, Record> {
    if streams == [] then map[] else
      var before, last := Found(streams[..|streams| - 1]), streams[|streams| - 1];
      if last.id.None? then before else before[last.id.value := last.record]
  }

  lemma {:induction false} FoundIs(streams: seq<Stream>, id: int)
    ensures id in Found(streams) <==> exists j: nat :: LastOfId(streams, j, id)
    ensures forall j: nat :: LastOfId(streams, j, id) ==>
              id in Found(streams) && Found(streams)[id] == streams[j].record
  {
    if streams != [] {
      var n := |streams| - 1;
      FoundIs(streams[..n], id);
      forall j: nat
        ensures LastOfId(streams, j, id) <==>
                  if streams[n].id == Some(id) then j == n else LastOfId(streams[..n], j, id)
      {
        assert forall i :: 0 <= i < n ==> streams[..n][i] == streams[i];
      }
      if streams[n].id == Some(id) { assert LastOfId(streams, n, id); }
    }
  }

  /** The `j`th stream is the last of its id. */
  ghost predicate LastOfId(streams: seq<Stream>, j: nat, id: int) {
    && j < |streams| && streams[j].id == Some(id)
    && forall i :: j < i < |streams| ==> streams[i].id != Some(id)
  }

  method SortSnapshot(snapshot: seq<Entry>) returns (s: Sorted)
    ensures s == SortAll(snapshot)
  {
    var resolved, sids, derived, urls := map[], map[], {}, map[];
    for k := 0 to |snapshot|
      invariant Sorted(resolved, sids, derived, urls) == SortAll(snapshot[..k])
    {
      var e := snapshot[k];
      assert snapshot[..k + 1][..k] == snapshot[..k];
      if e.url.Some? { urls := urls[e.channel := e.url.value]; }
      if e.streamId.Some? {
        sids := sids[e.channel := e.streamId.value];
      } else if e.url.Some? && e.url.value.derived.Some? {
        sids, derived := sids[e.channel := e.url.value.derived.value], derived + {e.channel};
      } else {
        var byHost := ByHost(UrlOf(urls, e.channel));
        resolved := resolved[e.channel := if byHost.Some? then byHost.value else EMPTY];
      }
    }
    assert snapshot[..|snapshot|] == snapshot;
    s := Sorted(resolved, sids, derived, urls);
  }

  /** Python's `sorted` of a set. */
  method Listed(ids: set<int>) returns (list: seq<int>)
    ensures Ascending(list) && forall id :: id in list <==> id in ids
  {
    list := [];
    var rest := ids;
    while rest != {}
      invariant rest <= ids && Ascending(list)
      invariant forall id :: id in list <==> id in ids && id !in rest
      invariant forall id, m :: id in list && m in rest ==> id < m
      decreases rest
    {
      var least := Minimum(rest);
      assert forall k :: 0 <= k < |list| ==> list[k] in list;
      list, rest := list + [least], rest - {least};
    }
  }

  /** A response as steps: each stream that was found is put. */
  function PutSteps(asked: nat, streams: seq<Stream>, clock: nat -> int): seq<Step> {
    if streams == [] then [] else
      var last := streams[|streams| - 1];
      PutSteps(asked, streams[..|streams| - 1], clock) + PutStep(asked, last, clock(|streams| - 1))
  }

  function PutStep(asked: nat, stream: Stream, at: int): seq<Step> {
    if stream.id.None? then [] else [Put(asked, stream.id.value, stream.record, at)]
  }

  lemma OneMorePut(asked: nat, streams: seq<Stream>, k: nat, clock: nat -> int)
    requires k < |streams|
    ensures PutSteps(asked, streams[..k + 1], clock) ==
              PutSteps(asked, streams[..k], clock) + PutStep(asked, streams[k], clock(k))
  {
    assert streams[..k + 1][..k] == streams[..k];
  }

  method LearnOne(stream: Stream, known: map<int, Record>, cache: StreamProviderCache?, ghost asked: nat, later: int)
    returns (known': map<int, Record>)
    requires cache != null ==> cache.Valid() && asked < |cache.log| && cache.log[asked].Ask?
    modifies cache
    ensures cache != null ==> cache.Valid() && cache.log == old(cache.log) + PutStep(asked, stream, later)
    ensures known' == Noted(known, stream)
  {
    known' := known;
    if stream.id.Some? {
      known' := known[stream.id.value := stream.record];
      if cache != null { cache.Put(asked, stream.id.value, stream.record, later); }
    }
  }

  function Noted(known: map<int, Record>, stream: Stream): map<int, Record> {
    if stream.id.None? then known else known[stream.id.value := stream.record]
  }

  lemma OneMoreFound(hits: map<int, Record>, streams: seq<Stream>, k: nat)
    requires k < |streams|
    ensures hits + Found(streams[..k + 1]) == Noted(hits + Found(streams[..k]), streams[k])
  {
    assert streams[..k + 1][..k] == streams[..k];
  }

  method LearnNext(streams: seq<Stream>, k: nat, hits: map<int, Record>, known: map<int, Record>,
                   cache: StreamProviderCache?, ghost asked: nat, clock: nat -> int, ghost was: seq<Step>)
    returns (known': map<int, Record>)
    requires k < |streams| && known == hits + Found(streams[..k])
    requires cache != null ==> cache.Valid() && asked < |was| && was[asked].Ask?
    requires cache != null ==> cache.log == was + PutSteps(asked, streams[..k], clock)
    modifies cache
    ensures known' == hits + Found(streams[..k + 1])
    ensures cache != null ==> cache.Valid() && cache.log == was + PutSteps(asked, streams[..k + 1], clock)
  {
    OneMoreFound(hits, streams, k);
    OneMorePut(asked, streams, k, clock);
    PutsJoin(was, PutSteps(asked, streams[..k], clock), PutStep(asked, streams[k], clock(k)));
    known' := LearnOne(streams[k], known, cache, asked, clock(k));
  }

  /** Add what a response holds to what is known, and to the cache, by the clock as it is at each stream. */
  method Learn(streams: seq<Stream>, hits: map<int, Record>, cache: StreamProviderCache?, ghost asked: nat,
               clock: nat -> int)
    returns (catalogue: map<int, Record>)
    requires cache != null ==> cache.Valid() && asked < |cache.log| && cache.log[asked].Ask?
    modifies cache
    ensures cache != null ==> cache.Valid() && cache.log == old(cache.log) + PutSteps(asked, streams, clock)
    ensures catalogue == hits + Found(streams)
  {
    catalogue := hits;
    ghost var was := if cache != null then cache.log else [];
    NoneYet(streams, hits, asked, clock, was);
    for k := 0 to |streams|
      invariant cache != null ==> cache.Valid() && cache.log == was + PutSteps(asked, streams[..k], clock)
      invariant catalogue == hits + Found(streams[..k])
    {
      catalogue := LearnNext(streams, k, hits, catalogue, cache, asked, clock, was);
    }
    assert streams[..|streams|] == streams;
  }

  lemma NoneYet(streams: seq<Stream>, hits: map<int, Record>, asked: nat, clock: nat -> int, was: seq<Step>)
    ensures hits == hits + Found(streams[..0]) && was == was + PutSteps(asked, streams[..0], clock)
  {
    assert streams[..0] == [];
  }

  lemma PutsJoin(was: seq<Step>, puts: seq<Step>, more: seq<Step>)
    ensures was + puts + more == was + (puts + more)
  {
  }

  function ByHostOnly(url: Option<Url>): Resolution {
    if ByHost(url).Some? then ByHost(url).value else EMPTY
  }

  function ResultFor(s: Sorted, c: string, known: map<int, Record>, names: map<int, string>): Resolution
    requires c in s.sids
  {
    ByStream(s.sids[c], c in s.derived, UrlOf(s.urls, c), known, names)
  }

  lemma UnknownStream(s: Sorted, c: string, known: map<int, Record>, names: map<int, string>)
    requires c in s.sids && s.sids[c] !in known
    ensures ResultFor(s, c, known, names) == ByHostOnly(UrlOf(s.urls, c))
  {
  }

  /** The results once the first `k` entries of the snapshot have been gone through. */
  function ResultsUpTo(snapshot: seq<Entry>, k: nat, s: Sorted, known: map<int, Record>, names: map<int, string>)
    : map<string, Resolution>
    requires k <= |snapshot|
  {
    if k == 0 then s.resolved else
      var before, c := ResultsUpTo(snapshot, k - 1, s, known, names), snapshot[k - 1].channel;
      if c in s.sids then before[c := ResultFor(s, c, known, names)] else before
  }

  predicate GoneThrough(snapshot: seq<Entry>, k: nat, c: string)
    requires k <= |snapshot|
  {
    exists j :: 0 <= j < k && snapshot[j].channel == c
  }

  lemma {:induction false} ResultsAt(snapshot: seq<Entry>, k: nat, s: Sorted, known: map<int, Record>,
                                     names: map<int, string>, c: string)
    requires k <= |snapshot|
    ensures var r := ResultsUpTo(snapshot, k, s, known, names);
            if c in s.sids && GoneThrough(snapshot, k, c) then c in r && r[c] == ResultFor(s, c, known, names)
            else (c in r <==> c in s.resolved) && (c in r ==> r[c] == s.resolved[c])
  {
    if k > 0 {
      ResultsAt(snapshot, k - 1, s, known, names, c);
      assert GoneThrough(snapshot, k, c) <==> GoneThrough(snapshot, k - 1, c) || snapshot[k - 1].channel == c;
    }
  }

  lemma ResultsComplete(snapshot: seq<Entry>, known: map<int, Record>, names: map<int, string>)
    ensures ResultsUpTo(snapshot, |snapshot|, SortAll(snapshot), known, names) == Resolve(snapshot, known, names)
  {
    var s := SortAll(snapshot);
    var r, all := ResultsUpTo(snapshot, |snapshot|, s, known, names), Resolve(snapshot, known, names);
    forall c ensures (c in r <==> c in all) && (c in r ==> r[c] == all[c]) {
      ResultsAt(snapshot, |snapshot|, s, known, names, c);
      NotSorted(snapshot, c);
    }
  }

  /** Read the results off what is known; after a failed lookup the channels whose stream is not known
      have only their URL's host. */
  method ResolveAll(snapshot: seq<Entry>, s: Sorted, known: map<int, Record>, names: map<int, string>, failed: bool)
    returns (result: map<string, Resolution>)
    requires s == SortAll(snapshot)
    ensures result == Resolve(snapshot, known, names)
  {
    result := s.resolved;
    for k := 0 to |snapshot|
      invariant result == ResultsUpTo(snapshot, k, s, known, names)
    {
      var c := snapshot[k].channel;
      if c in s.sids {
        if failed && s.sids[c] !in known {
          UnknownStream(s, c, known, names);
          result := result[c := ByHostOnly(UrlOf(s.urls, c))];
        } else {
          result := result[c := ResultFor(s, c, known, names)];
        }
      }
    }
    ResultsComplete(snapshot, known, names);
  }

  /** A record used is of the answer just given, or upstream gave it no longer than the time to live ago
      and since the cache was last cleared. */
  ghost predicate Held(id: int, record: Record, answer: Option<seq<Stream>>, log: seq<Step>, ttl: int, now: int) {
    || (answer.Some? && id in Found(answer.value) && record == Found(answer.value)[id])
    || exists k: nat, at :: PutBy(log, k, id, Cached(at, record)) && now - at <= ttl
  }

  function Wanted(snapshot: seq<Entry>): set<int> {
    var s := SortAll(snapshot);
    set c | c in s.sids :: s.sids[c]
  }

  /** What others do to the cache while an answer is awaited. */
  method Await(cache: StreamProviderCache, during: seq<Step>)
    requires cache.Valid() && IsLog(cache.log + during)
    modifies cache
    ensures cache.Valid() && cache.log == old(cache.log) + during
  {
    ghost var log := cache.log;
    assert log + during[..0] == log;
    for k := 0 to |during|
      invariant cache.Valid() && cache.log == log + during[..k]
    {
      var step := during[k];
      assert (log + during)[|log| + k] == step && log + during[..k] + [step] == log + during[..k + 1];
      match step {
        case Ask(ids, now) =>
          var list := Listed(ids);
          var hits, misses := cache.GetBatch(list, now);
          MembersOfList(list, ids);
        case Put(asked, id, record, at) =>
          assert AnswersAsk(log + during, |log| + k);
          assert (log + during)[asked] == cache.log[asked];
          cache.Put(asked, id, record, at);
        case Clear => cache.Clear();
      }
    }
    assert during[..|during|] == during;
  }

  /** What the cache gives is held. */
  lemma HitsHeld(ttl: int, log: seq<Step>, hits: map<int, Record>, now: int)
    requires forall id :: id in hits ==>
      Fresh(CacheAfter(ttl, log), ttl, now, id) && hits[id] == CacheAfter(ttl, log)[id].record
    ensures forall id :: id in hits ==> Held(id, hits[id], None, log, ttl, now)
  {
    forall id | id in hits ensures Held(id, hits[id], None, log, ttl, now) {
      var k := CachedWasPut(ttl, log, id);
      assert PutBy(log, k, id, Cached(CacheAfter(ttl, log)[id].at, hits[id]));
    }
  }

  function Answered(at: nat, asked: seq<int>, upstream: seq<int> -> Option<seq<Stream>>, clock: nat -> int)
    : seq<Step> {
    if asked != [] && upstream(asked).Some? then PutSteps(at, upstream(asked).value, clock) else []
  }

  /** `upstream` answers the lookup of the ids it is asked for, `None` when it raises; `now` is when the
      cache is read, `clock` what the clock says at each stream of the answer, and `during` what others do to
      the cache between.  `catalogue` is what the result is read off. */
  method ResolveActiveChannelStreams(snapshot: seq<Entry>, names: map<int, string>, cache: StreamProviderCache?,
                                     upstream: seq<int> -> Option<seq<Stream>>, now: int,
                                     clock: nat -> int, during: seq<Step>)
    returns (result: map<string, Resolution>, ghost catalogue: map<int, Record>, ghost asked: seq<int>)
    requires cache != null ==> cache.Valid() && IsLog(cache.log + [Ask(Wanted(snapshot), now)] + during)
    modifies cache
    ensures cache != null ==> cache.Valid()
    ensures cache != null ==> cache.log == old(cache.log) + [Ask(Wanted(snapshot), now)] + during +
                                             Answered(|old(cache.log)|, asked, upstream, clock)
    ensures result == Resolve(snapshot, catalogue, names)
    ensures forall id :: id in catalogue ==>
      Held(id, catalogue[id], if asked == [] then None else upstream(asked),
           if cache == null then [] else old(cache.log), if cache == null then 0 else cache.ttl, now)
    ensures asked != [] && upstream(asked).Some? ==>
      forall id :: id in Found(upstream(asked).value) ==>
               id in catalogue && catalogue[id] == Found(upstream(asked).value)[id]
    ensures NoDup(asked)
    ensures forall c :: c in SortAll(snapshot).sids ==>
              SortAll(snapshot).sids[c] in catalogue || SortAll(snapshot).sids[c] in asked
    ensures cache == null ==> forall id :: id in asked ==>
              exists c :: c in SortAll(snapshot).sids && SortAll(snapshot).sids[c] == id
  {
    var s := SortSnapshot(snapshot);
    var ids := Listed(Wanted(snapshot));
    MembersOfList(ids, Wanted(snapshot));
    var hits: map<int, Record>, misses := map[], ids;
    ghost var log := if cache == null then [] else cache.log;
    if cache != null {
      hits, misses := cache.GetBatch(ids, now);
      HitsHeld(cache.ttl, log, hits, now);
      assert cache.log[|log|].Ask?;
      Await(cache, during);
      assert cache.log[|log|].Ask?;
      assert cache.log + [] == cache.log;
    }
    asked := misses;
    var answer := if misses == [] then Some([]) else upstream(misses);
    if answer.None? {
      catalogue := hits;
      result := ResolveAll(snapshot, s, hits, names, true);
    } else {
      var known := Learn(answer.value, hits, cache, |log|, clock);
      catalogue := known;
      result := ResolveAll(snapshot, s, known, names, false);
    }
  }

  // ----- over a run of resolutions and clears, however they overlap

  /** A resolution reads the cache; its answer comes, if it does; the cache is cleared. */
  datatype Event = Began(ids: set<int>, now: int) | Came(asked: nat, streams: seq<Stream>, clock: nat -> int) | Cleared

  function StepsOf(e: Event): seq<Step> {
    match e
    case Began(ids, now) => [Ask(ids, now)]
    case Came(asked, streams, clock) => PutSteps(asked, streams, clock)
    case Cleared => [Clear]
  }

  function LogOf(events: seq<Event>): seq<Step> {
    if events == [] then [] else LogOf(events[..|events| - 1]) + StepsOf(events[|events| - 1])
  }

  lemma {:induction false} AfterPuts(ttl: int, log: seq<Step>, asked: nat, streams: seq<Stream>, clock: nat -> int,
                                     id: int)
    returns (j: nat)
    ensures var before, after := CacheAfter(ttl, log), CacheAfter(ttl, log + PutSteps(asked, streams, clock));
            if id in Found(streams)
            then id in after && LastOfId(streams, j, id) && after[id] == Cached(clock(j), streams[j].record)
            else (id in after <==> id in before) && (id in after ==> after[id] == before[id])
  {
    j := 0;
    if streams == [] {
      assert log + [] == log;
    } else {
      var n := |streams| - 1;
      j := AfterPuts(ttl, log, asked, streams[..n], clock, id);
      AfterPut(ttl, log + PutSteps(asked, streams[..n], clock), asked, streams[n], clock(n), id);
      assert log + PutSteps(asked, streams, clock) ==
             log + PutSteps(asked, streams[..n], clock) + PutStep(asked, streams[n], clock(n));
      if streams[n].id == Some(id) { j := n; }
      assert forall i :: 0 <= i < n ==> streams[..n][i] == streams[i];
    }
  }

  lemma AfterPut(ttl: int, log: seq<Step>, asked: nat, stream: Stream, at: int, id: int)
    ensures var before, after := CacheAfter(ttl, log), CacheAfter(ttl, log + PutStep(asked, stream, at));
            if stream.id == Some(id) then id in after && after[id] == Cached(at, stream.record)
            else (id in after <==> id in before) && (id in after ==> after[id] == before[id])
  {
    if stream.id.None? {
      assert log + [] == log;
    } else {
      OneMoreStep(ttl, log, PutStep(asked, stream, at)[0]);
    }
  }

  /** Every record cached is one that upstream gave, in an answer whose last stream of that id came when the
      record says, and since which the cache has not been cleared. */
  lemma {:induction false} CachedWasGiven(ttl: int, events: seq<Event>, id: int) returns (k: nat, j: nat)
    requires id in CacheAfter(ttl, LogOf(events))
    ensures k < |events| && events[k].Came? && id in Found(events[k].streams) && LastOfId(events[k].streams, j, id)
    ensures CacheAfter(ttl, LogOf(events))[id] == Cached(events[k].clock(j), events[k].streams[j].record)
    ensures forall c :: k < c < |events| ==> !events[c].Cleared?
  {
    var n := |events| - 1;
    var log, e := LogOf(events[..n]), events[n];
    if e.Came? {
      j := AfterPuts(ttl, log, e.asked, e.streams, e.clock, id);
      if id in Found(e.streams) { return n, j; }
    } else {
      OneMoreStep(ttl, log, StepsOf(e)[0]);
    }
    k, j := CachedWasGiven(ttl, events[..n], id);
    assert forall c :: k < c < n ==> events[..n][c] == events[c];
  }
}
