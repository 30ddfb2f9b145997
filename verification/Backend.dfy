/** The two backend services around the host table, run one request at a time: the cached
    host list and the transactional ingest.
    backend/src/hosts/hosts.service.ts, backend/src/ingest/ingest.service.ts */
module Backend {
  import opened Prelude
  import opened HostsModel

  datatype Process = Process(
    pid: int, name: string, cmd: Option<string>, cpuPct: real, rssMb: real,
    ioReadBps: Option<real>, ioWriteBps: Option<real>, state: Option<string>)

  datatype ProcRow = ProcRow(
    hostId: string, ts: int, pid: int, name: string, cmd: Option<string>, cpuPct: real, rssMb: real,
    ioReadBps: Option<int>, ioWriteBps: Option<int>, state: Option<string>)

  /** A request body; `ts` is None when the string is no date. */
  datatype Batch = Batch(
    hostId: string, ts: Option<int>, shown: LastMetric, diskUsedPct: real, netRxBps: real, netTxBps: real,
    processes: seq<Process>)

  datatype Db = Db(tables: Tables, procs: seq<ProcRow>)

  /** How the commit of a transaction ends; when only the answer is lost the rows are there. */
  datatype Commit = Acked | RolledBack | AckLost

  datatype Answer = Created | BadRequest | ServerError

  // ---- What a batch writes ---------------------------------------------------------------------

  /** BigInt of a number throws on a fraction. */
  predicate Whole(x: real) { x == x.Floor as real }

  predicate WholeOption(x: Option<real>) { x.Some? ==> Whole(x.value) }

  function ToBigInt(x: Option<real>): Option<int> {
    if x.None? then None else Some(x.value.Floor)
  }

  /** The request is well-formed, its numbers convert, and the host row is there. */
  predicate Storable(db: Db, hostId: string, b: Batch) {
    && b.hostId == hostId && b.ts.Some?
    && Whole(b.netRxBps) && Whole(b.netTxBps)
    && (forall p :: p in b.processes ==> WholeOption(p.ioReadBps) && WholeOption(p.ioWriteBps))
    && hostId in db.tables.hosts
  }

  function MetricOf(b: Batch): MetricRow
    requires b.ts.Some?
  {
    MetricRow(b.hostId, b.ts.value, b.shown, b.diskUsedPct, b.netRxBps.Floor, b.netTxBps.Floor)
  }

  function ProcOf(hostId: string, ts: int, p: Process): ProcRow {
    ProcRow(hostId, ts, p.pid, p.name, p.cmd, p.cpuPct, p.rssMb, ToBigInt(p.ioReadBps), ToBigInt(p.ioWriteBps), p.state)
  }

  function ProcsOf(b: Batch): seq<ProcRow>
    requires b.ts.Some?
  {
    seq(|b.processes|, i requires 0 <= i < |b.processes| => ProcOf(b.hostId, b.ts.value, b.processes[i]))
  }

  function Touched(h: HostRow, ts: int, agentUrl: Option<string>): HostRow {
    var h := h.(lastSeenAt := Some(ts));
    if agentUrl.Some? && agentUrl.value != "" then h.(agentUrl := agentUrl) else h
  }

  /** The store after one committed batch: its metrics, its processes and the host's lastSeenAt, together. */
  function Ingested(db: Db, b: Batch, agentUrl: Option<string>): Db
    requires b.ts.Some? && b.hostId in db.tables.hosts
  {
    var hosts := db.tables.hosts;
    Db(Tables(hosts[b.hostId := Touched(hosts[b.hostId], b.ts.value, agentUrl)], db.tables.metrics + [MetricOf(b)]),
       db.procs + ProcsOf(b))
  }

  /** The row says of its process what the request says, under the batch's host and time. */
  predicate Records(row: ProcRow, b: Batch, p: Process) {
    && row.hostId == b.hostId && Some(row.ts) == b.ts && row.pid == p.pid && row.name == p.name && row.cmd == p.cmd
    && row.cpuPct == p.cpuPct && row.rssMb == p.rssMb && row.state == p.state
    && (p.ioReadBps == if row.ioReadBps.Some? then Some(row.ioReadBps.value as real) else None)
    && (p.ioWriteBps == if row.ioWriteBps.Some? then Some(row.ioWriteBps.value as real) else None)
  }

  /** What storing a batch changes, field by field: one metrics row more, one row more for each process, in order,
      and of the hosts only this one's lastSeenAt and, if one is given, its URL. */
  ghost predicate Recorded(before: Db, after: Db, b: Batch, agentUrl: Option<string>) {
    var n, k := |before.tables.metrics|, |before.procs|;
    && |after.tables.metrics| == n + 1 && after.tables.metrics[..n] == before.tables.metrics
    && var m := after.tables.metrics[n];
    && m.hostId == b.hostId && Some(m.ts) == b.ts && m.shown == b.shown && m.diskUsedPct == b.diskUsedPct
    && m.netRxBps as real == b.netRxBps && m.netTxBps as real == b.netTxBps
    && |after.procs| == k + |b.processes| && after.procs[..k] == before.procs
    && (forall i :: 0 <= i < |b.processes| ==> Records(after.procs[k + i], b, b.processes[i]))
    && HostTouched(before.tables.hosts, after.tables.hosts, b.hostId, b.ts, agentUrl)
  }

  predicate HostTouched(before: map<string, HostRow>, after: map<string, HostRow>, id: string, ts: Option<int>,
      agentUrl: Option<string>)
  {
    && after.Keys == before.Keys && id in before && (forall other :: other in before && other != id ==>
          after[other] == before[other])
    && var h := after[id];
    && h.id == before[id].id && h.name == before[id].name && h.lastSeenAt == ts
    && h.agentUrl == (if agentUrl in {None, Some("")} then before[id].agentUrl else agentUrl)
  }

  lemma RecordedProcs(db: Db, b: Batch)
    requires b.ts.Some?
    requires forall p :: p in b.processes ==> WholeOption(p.ioReadBps) && WholeOption(p.ioWriteBps)
    ensures var rows, k := db.procs + ProcsOf(b), |db.procs|;
      && |rows| == k + |b.processes| && rows[..k] == db.procs
      && forall i :: 0 <= i < |b.processes| ==> Records(rows[k + i], b, b.processes[i])
  {
    forall i | 0 <= i < |b.processes| ensures Records(ProcsOf(b)[i], b, b.processes[i]) {
      assert b.processes[i] in b.processes;
    }
  }

  lemma IngestedRecords(db: Db, b: Batch, agentUrl: Option<string>)
    requires Storable(db, b.hostId, b)
    ensures Recorded(db, Ingested(db, b, agentUrl), b, agentUrl)
  {
    RecordedProcs(db, b);
  }

  /** Nothing but a date that is none, a byte rate with a fraction, or a host that is gone keeps a batch out. */
  lemma StorableMeaning(db: Db, hostId: string, b: Batch)
    ensures Storable(db, hostId, b) <==>
      && b.hostId == hostId && b.ts.Some? && hostId in db.tables.hosts
      && b.netRxBps == b.netRxBps.Floor as real && b.netTxBps == b.netTxBps.Floor as real
      && forall p :: p in b.processes ==>
           && (p.ioReadBps.Some? ==> p.ioReadBps.value == p.ioReadBps.value.Floor as real)
           && (p.ioWriteBps.Some? ==> p.ioWriteBps.value == p.ioWriteBps.value.Floor as real)
  {
  }

  // ---- The services ------------------------------------------------------------------------------

  class Store {
    var db: Db

    constructor (db: Db)
      ensures this.db == db
    {
      this.db := db;
    }
  }

  datatype CacheEntry = CacheEntry(data: seq<HostView>, expiresAt: int)

  class HostsService {
    var hostsCache: Option<CacheEntry>
    const store: Store

    constructor (store: Store)
      ensures this.store == store && hostsCache == None
    {
      this.store := store;
      hostsCache := None;
    }

    method InvalidateCache()
      modifies this
      ensures hostsCache == None
    {
      hostsCache := None;
    }

    method FindAll(now: int, onlineOnly: Option<bool>, hosts: seq<HostRow>, recentMetrics: seq<MetricRow>)
      returns (result: seq<HostView>)
      requires HostsAnswer(store.db.tables, hosts) && RecentAnswer(store.db.tables, now, recentMetrics)
      modifies this
      ensures
        var hit := old(hostsCache).Some? && old(hostsCache).value.expiresAt > now && onlineOnly == None;
        && (hit ==> result == old(hostsCache).value.data && hostsCache == old(hostsCache))
        && (!hit ==> result == Reply(hosts, recentMetrics, now, onlineOnly))
        && (!hit ==> ShowsHosts(result, store.db.tables, now, onlineOnly))
        && (!hit ==> forall v :: v in result ==> ShowsNewest(v, store.db.tables, now, |recentMetrics|))
        && (!hit && onlineOnly == None ==> hostsCache == Some(CacheEntry(result, now + 5_000)))
        && (onlineOnly.Some? ==> hostsCache == old(hostsCache))
    {
      if hostsCache.Some? && hostsCache.value.expiresAt > now && onlineOnly == None {
        return hostsCache.value.data;
      }
      var lastMetricByHost: map<string, MetricRow> := map[];
      for i := 0 to |recentMetrics|
        invariant lastMetricByHost == FirstByHost(recentMetrics[..i])
      {
        assert recentMetrics[..i + 1][..i] == recentMetrics[..i];
        if recentMetrics[i].hostId !in lastMetricByHost {
          lastMetricByHost := lastMetricByHost[recentMetrics[i].hostId := recentMetrics[i]];
        }
      }
      assert recentMetrics[..|recentMetrics|] == recentMetrics;
      result := Filter(Views(hosts, lastMetricByHost, now), (v: HostView) => Shown(onlineOnly, v));
      ReplyMeaning(store.db.tables, hosts, recentMetrics, now, onlineOnly);
      if onlineOnly == None {
        hostsCache := Some(CacheEntry(result, now + HOSTS_CACHE_TTL_MS));
      }
    }
  }

  class IngestService {
    const hosts: HostsService
    const store: Store

    constructor (hosts: HostsService)
      ensures this.hosts == hosts && store == hosts.store
    {
      this.hosts := hosts;
      this.store := hosts.store;
    }

    /** All or nothing: either every row of the batch is in the store, or none is. */
    method Ingest(hostId: string, dto: Batch, agentUrl: Option<string>, commit: Commit) returns (answer: Answer)
      modifies store, hosts
      ensures
        var storable := Storable(old(store.db), hostId, dto);
        && (answer == Created <==> storable && commit == Acked)
        && (answer == BadRequest <==> dto.hostId != hostId || dto.ts.None?)
        && store.db == (if storable && commit != RolledBack
                        then Ingested(old(store.db), dto, agentUrl) else old(store.db))
        && (storable && commit != RolledBack ==> Recorded(old(store.db), store.db, dto, agentUrl))
      ensures hosts.hostsCache == if answer == Created then None else old(hosts.hostsCache)
    {
      if dto.hostId != hostId || dto.ts.None? {
        return BadRequest;
      }
      var ts := dto.ts.value;
      var tx := store.db;
      if !Whole(dto.netRxBps) || !Whole(dto.netTxBps) {
        return ServerError;
      }
      tx := tx.(tables := tx.tables.(metrics := tx.tables.metrics + [MetricRow(
        hostId, ts, dto.shown, dto.diskUsedPct, dto.netRxBps.Floor, dto.netTxBps.Floor)]));
      if |dto.processes| > 0 {
        var rows: seq<ProcRow> := [];
        for i := 0 to |dto.processes|
          invariant rows == ProcsOf(dto)[..i]
          invariant forall j :: 0 <= j < i ==>
            WholeOption(dto.processes[j].ioReadBps) && WholeOption(dto.processes[j].ioWriteBps)
        {
          var p := dto.processes[i];
          if !WholeOption(p.ioReadBps) || !WholeOption(p.ioWriteBps) {
            return ServerError;
          }
          rows := rows + [ProcRow(hostId, ts, p.pid, p.name, p.cmd, p.cpuPct, p.rssMb,
                                  ToBigInt(p.ioReadBps), ToBigInt(p.ioWriteBps), p.state)];
        }
        tx := tx.(procs := tx.procs + rows);
      }
      if hostId !in tx.tables.hosts {
        return ServerError;
      }
      var host := tx.tables.hosts[hostId].(lastSeenAt := Some(ts));
      if agentUrl.Some? && agentUrl.value != "" {
        host := host.(agentUrl := agentUrl);
      }
      tx := tx.(tables := tx.tables.(hosts := tx.tables.hosts[hostId := host]));
      assert tx == Ingested(store.db, dto, agentUrl);
      IngestedRecords(store.db, dto, agentUrl);
      match commit {
        case RolledBack => return ServerError;
        case AckLost =>
          store.db := tx;
          return ServerError;
        case Acked =>
          store.db := tx;
      }
      hosts.InvalidateCache();
      return Created;
    }
  }

  /** Without interleaving, the list asked for after an ingest is the uncached one over the new store. */
  method IngestThenList(
      service: IngestService, hostId: string, dto: Batch, agentUrl: Option<string>, now: int,
      hosts: seq<HostRow>, recent: seq<MetricRow>) returns (result: seq<HostView>)
    requires service.store == service.hosts.store
    requires Storable(service.store.db, hostId, dto) && service.store.db.tables.hosts[hostId].id == hostId
    requires HostsAnswer(Ingested(service.store.db, dto, agentUrl).tables, hosts)
    requires RecentAnswer(Ingested(service.store.db, dto, agentUrl).tables, now, recent)
    modifies service.store, service.hosts
    ensures result == Reply(hosts, recent, now, None)
    ensures exists v :: (
      v in result && v.host.id == hostId && v.host.lastSeenAt == dto.ts && (v.online <==> now - dto.ts.value <= 30_000))
  {
    var answer := service.Ingest(hostId, dto, agentUrl, Acked);
    result := service.hosts.FindAll(now, None, hosts, recent);
    ghost var t := service.store.db.tables;
    assert Listed(result, hostId);
  }
}
