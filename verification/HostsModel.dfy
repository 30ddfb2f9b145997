/** The host list: rows, what its two queries may answer, and the reply made of them.
    backend/src/hosts/hosts.service.ts */
module HostsModel {
  import opened Prelude

  datatype HostRow = HostRow(id: string, name: string, agentUrl: Option<string>, lastSeenAt: Option<int>)

  datatype LastMetric = LastMetric(
    cpuTotalPct: real, memUsedMb: real, memTotalMb: real, load1: real, load5: real, load15: real)

  datatype MetricRow = MetricRow(
    hostId: string, ts: int, shown: LastMetric, diskUsedPct: real, netRxBps: int, netTxBps: int)

  datatype HostView = HostView(host: HostRow, online: bool, lastMetric: Option<LastMetric>)

  datatype Tables = Tables(hosts: map<string, HostRow>, metrics: seq<MetricRow>)

  const ONLINE_MS := 30_000
  const HOSTS_CACHE_TTL_MS := 5_000
  const RECENT_MS := 300_000
  const MAX_RECENT := 1_000

  /** `a` may stand before `b` when sorted by lastSeenAt, newest first (a missing value sorts first). */
  predicate NotOlder(a: HostRow, b: HostRow) {
    a.lastSeenAt.None? || (b.lastSeenAt.Some? && a.lastSeenAt.value >= b.lastSeenAt.value)
  }

  /** All hosts, each once, newest first. */
  ghost predicate HostsAnswer(t: Tables, rows: seq<HostRow>) {
    && (forall i, j :: 0 <= i < j < |rows| ==> rows[i].id != rows[j].id && NotOlder(rows[i], rows[j]))
    && (forall h :: h in rows <==> h.id in t.hosts && t.hosts[h.id] == h)
  }

  predicate Recent(t: Tables, now: int, m: MetricRow) {
    m in t.metrics && m.ts >= now - RECENT_MS
  }

  predicate Newest(t: Tables, now: int, hostId: string, m: MetricRow) {
    Recent(t, now, m) && m.hostId == hostId && forall n :: n in t.metrics && n.hostId == hostId ==> n.ts <= m.ts
  }

  /** The newest row of the last five minutes for each host, for at most 1000 hosts. */
  ghost predicate RecentAnswer(t: Tables, now: int, rows: seq<MetricRow>) {
    && |rows| <= MAX_RECENT
    && (forall i, j :: 0 <= i < j < |rows| ==> rows[i].hostId != rows[j].hostId)
    && (forall m :: m in rows ==> Recent(t, now, m))
    && (forall m, n :: m in rows && n in t.metrics && n.hostId == m.hostId ==> n.ts <= m.ts)
    && (|rows| < MAX_RECENT ==> forall n {:trigger HasRow(rows, n.hostId)} :: Recent(t, now, n) ==>
        HasRow(rows, n.hostId))
  }

  ghost predicate HasRow(rows: seq<MetricRow>, hostId: string) {
    exists m :: m in rows && m.hostId == hostId
  }

  /** The Map of last metrics: the first row seen for a host stays. */
  function FirstByHost(rows: seq<MetricRow>): map<string, MetricRow> {
    if rows == [] then map[]
    else
      var before, row := FirstByHost(rows[..|rows| - 1]), rows[|rows| - 1];
      if row.hostId in before then before else before[row.hostId := row]
  }

  predicate Online(h: HostRow, now: int) {
    h.lastSeenAt.Some? && h.lastSeenAt.value >= now - ONLINE_MS
  }

  function View(h: HostRow, latest: map<string, MetricRow>, now: int): HostView {
    HostView(h, Online(h, now), if h.id in latest then Some(latest[h.id].shown) else None)
  }

  function Views(hosts: seq<HostRow>, latest: map<string, MetricRow>, now: int): seq<HostView> {
    seq(|hosts|, i requires 0 <= i < |hosts| => View(hosts[i], latest, now))
  }

  predicate Shown(onlineOnly: Option<bool>, v: HostView) {
    onlineOnly == None || onlineOnly.value == v.online
  }

  /** What findAll computes from the two answers. */
  function Reply(hosts: seq<HostRow>, recent: seq<MetricRow>, now: int, onlineOnly: Option<bool>): seq<HostView> {
    Filter(Views(hosts, FirstByHost(recent), now), (v: HostView) => Shown(onlineOnly, v))
  }

  lemma {:induction false} FirstByHostRows(rows: seq<MetricRow>)
    ensures forall h :: h in FirstByHost(rows) <==> HasRow(rows, h)
    ensures forall h :: h in FirstByHost(rows) ==> FirstByHost(rows)[h] in rows && FirstByHost(rows)[h].hostId == h
  {
    if rows == [] {
    } else {
      var init, last := rows[..|rows| - 1], rows[|rows| - 1];
      FirstByHostRows(init);
      assert rows == init + [last];
      forall h ensures HasRow(rows, h) <==> HasRow(init, h) || last.hostId == h {
        if HasRow(init, h) {
          var m :| m in init && m.hostId == h;
          assert m in rows;
        }
        assert last in rows;
      }
    }
  }

  /** The hosts are shown with their own rows, under the 30 s rule, and only those of the wanted kind. */
  lemma ReplyHosts(t: Tables, hosts: seq<HostRow>, recent: seq<MetricRow>, now: int, onlineOnly: Option<bool>)
    requires HostsAnswer(t, hosts)
    ensures forall v :: v in Reply(hosts, recent, now, onlineOnly) ==>
      && v.host.id in t.hosts && v.host == t.hosts[v.host.id]
      && v == View(v.host, FirstByHost(recent), now) && Shown(onlineOnly, v)
    ensures forall id :: id in t.hosts && t.hosts[id].id == id ==>
      var v := View(t.hosts[id], FirstByHost(recent), now);
      v in Reply(hosts, recent, now, onlineOnly) <==> Shown(onlineOnly, v)
  {
    var latest := FirstByHost(recent);
    var views := Views(hosts, latest, now);
    FilterElements(views, (v: HostView) => Shown(onlineOnly, v));
    forall v | v in views ensures v.host in hosts && v == View(v.host, latest, now) {
      var i :| 0 <= i < |views| && views[i] == v;
      assert hosts[i] in hosts;
    }
    forall id | id in t.hosts && t.hosts[id].id == id ensures View(t.hosts[id], latest, now) in views {
      var i :| 0 <= i < |hosts| && hosts[i] == t.hosts[id];
      assert views[i] == View(t.hosts[id], latest, now);
    }
  }

  /** A shown metric is the newest of its host; below 1000 active hosts it is missing only if there is none. */
  lemma LastMetricMeaning(t: Tables, h: HostRow, recent: seq<MetricRow>, now: int)
    requires RecentAnswer(t, now, recent)
    ensures var v := View(h, FirstByHost(recent), now);
      && (v.lastMetric.Some? ==> exists m :: Newest(t, now, h.id, m) && m.shown == v.lastMetric.value)
      && (v.lastMetric.None? && |recent| < MAX_RECENT ==> forall n :: Recent(t, now, n) ==> n.hostId != h.id)
  {
    var latest := FirstByHost(recent);
    FirstByHostRows(recent);
    if h.id in latest {
      assert latest[h.id] in recent && Newest(t, now, h.id, latest[h.id]);
    } else if |recent| < MAX_RECENT {
      forall n | Recent(t, now, n) ensures n.hostId != h.id {
        assert HasRow(recent, n.hostId);
      }
    }
  }

  predicate MayPrecede(a: HostView, b: HostView) { a.host.id != b.host.id && NotOlder(a.host, b.host) }

  /** No host is listed twice, and none before one that was seen later. */
  lemma ReplyOrdered(t: Tables, hosts: seq<HostRow>, recent: seq<MetricRow>, now: int, onlineOnly: Option<bool>)
    requires HostsAnswer(t, hosts)
    ensures var out := Reply(hosts, recent, now, onlineOnly);
      forall i, j :: 0 <= i < j < |out| ==> MayPrecede(out[i], out[j])
  {
    var views := Views(hosts, FirstByHost(recent), now);
    assert forall i, j :: 0 <= i < j < |views| ==> MayPrecede(views[i], views[j]);
    FilterKeepsOrder(views, (v: HostView) => Shown(onlineOnly, v), (a, b) => MayPrecede(a, b));
  }

  /** The metric shown is the newest of the host and at most five minutes old; it is missing only if there is none
      that young, unless 1000 hosts have one. */
  ghost predicate ShowsNewest(v: HostView, t: Tables, now: int, answered: nat) {
    && (v.lastMetric.Some? ==> exists m :: (
          && m in t.metrics && m.hostId == v.host.id && now - m.ts <= 300_000 && m.shown == v.lastMetric.value
          && forall n :: n in t.metrics && n.hostId == v.host.id ==> n.ts <= m.ts))
    && (v.lastMetric.None? && answered < 1_000 ==>
          forall n :: n in t.metrics && n.hostId == v.host.id ==> now - n.ts > 300_000)
  }

  ghost predicate Listed(out: seq<HostView>, id: string) { exists v :: v in out && v.host.id == id }

  /** What a list of hosts says: each host of the wanted kind and no other, once, newest first (those never seen at
      the very front), each with its own row; online means seen within the last 30 s. */
  ghost predicate ShowsHosts(out: seq<HostView>, t: Tables, now: int, onlineOnly: Option<bool>) {
    && (forall v :: v in out ==>
          && v.host.id in t.hosts && v.host == t.hosts[v.host.id]
          && (v.online <==> v.host.lastSeenAt.Some? && now - v.host.lastSeenAt.value <= 30_000))
    && (forall id :: id in t.hosts && t.hosts[id].id == id ==>
          var seen := t.hosts[id].lastSeenAt;
          Listed(out, id) <==>
            match onlineOnly
            case None => true
            case Some(true) => seen.Some? && now - seen.value <= 30_000
            case Some(false) => seen.None? || now - seen.value > 30_000)
    && (forall i, j :: 0 <= i < j < |out| ==>
          var a, b := out[i].host, out[j].host;
          && a.id != b.id
          && (a.lastSeenAt.Some? ==> b.lastSeenAt.Some? && a.lastSeenAt.value >= b.lastSeenAt.value))
  }

  /** The reply is such a list, with such metrics. */
  lemma ReplyMeaning(t: Tables, hosts: seq<HostRow>, recent: seq<MetricRow>, now: int, onlineOnly: Option<bool>)
    requires HostsAnswer(t, hosts) && RecentAnswer(t, now, recent)
    ensures var out := Reply(hosts, recent, now, onlineOnly);
      ShowsHosts(out, t, now, onlineOnly) && forall v :: v in out ==> ShowsNewest(v, t, now, |recent|)
  {
    var out := Reply(hosts, recent, now, onlineOnly);
    ReplyHosts(t, hosts, recent, now, onlineOnly);
    ReplyOrdered(t, hosts, recent, now, onlineOnly);
    forall id | id in t.hosts && t.hosts[id].id == id
      ensures Listed(out, id) <==> Shown(onlineOnly, View(t.hosts[id], FirstByHost(recent), now))
    {
      var v := View(t.hosts[id], FirstByHost(recent), now);
      assert v in out ==> Listed(out, id);
    }
    assert forall i, j :: 0 <= i < j < |out| ==> MayPrecede(out[i], out[j]);
    forall v | v in out ensures ShowsNewest(v, t, now, |recent|) {
      LastMetricMeaning(t, v.host, recent, now);
      NewestMeaning(t, v, now, |recent|);
    }
  }

  lemma NewestMeaning(t: Tables, v: HostView, now: int, answered: nat)
    requires v.lastMetric.Some? ==> exists m :: Newest(t, now, v.host.id, m) && m.shown == v.lastMetric.value
    requires v.lastMetric.None? && answered < MAX_RECENT ==> forall n :: Recent(t, now, n) ==> n.hostId != v.host.id
    ensures ShowsNewest(v, t, now, answered)
  {
    if v.lastMetric.None? && answered < 1_000 {
      forall n | n in t.metrics && n.hostId == v.host.id ensures now - n.ts > 300_000 {
        assert !Recent(t, now, n);
      }
    }
  }
}
