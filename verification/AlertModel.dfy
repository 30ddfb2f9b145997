/** The tables the alert engine reads and writes, and its two decisions: does a rule
    hold for a host now, and which event (if any) that calls for.
    backend/src/alerts/alerts-cron.service.ts, backend/prisma/schema.prisma */
module AlertModel {
  import opened Prelude

  datatype Status = Firing | Resolved

  datatype Host = Host(lastSeenAt: Option<int>)

  datatype Metric = Metric(
    hostId: string, ts: int, cpuTotalPct: real, memUsedMb: real, memTotalMb: real, diskUsedPct: real)

  datatype Rule = Rule(
    id: string, hostId: Option<string>, metric: string, op: string, threshold: Option<real>, enabled: bool)

  datatype Event = Event(ruleId: string, hostId: string, ts: int, status: Status) {
    function Pair(): (string, string) { (ruleId, hostId) }
  }

  datatype Db = Db(hosts: map<string, Host>, rules: map<string, Rule>, metrics: seq<Metric>, events: seq<Event>)

  const ONLINE_THRESHOLD_MS := 60_000

  // ---- One pair's log --------------------------------------------------------------

  /** The surviving events of one (rule, host) pair, oldest first. */
  function Log(events: seq<Event>, p: (string, string)): seq<Event> {
    Filter(events, (e: Event) => e.Pair() == p)
  }

  /** Ordered by time, and no two neighbours carry the same status. */
  predicate Alternating(log: seq<Event>) {
    forall i, j :: 0 <= i < j < |log| ==>
      log[i].ts < log[j].ts && (j == i + 1 ==> log[i].status != log[j].status)
  }

  function LastStatus(log: seq<Event>): Option<Status> {
    if log == [] then None else Some(log[|log| - 1].status)
  }

  lemma LogElements(events: seq<Event>, p: (string, string))
    ensures forall e :: e in Log(events, p) <==> e in events && e.Pair() == p
  {
    FilterElements(events, (e: Event) => e.Pair() == p);
  }

  lemma LogAppend(events: seq<Event>, e: Event, p: (string, string))
    ensures Log(events + [e], p) == if e.Pair() == p then Log(events, p) + [e] else Log(events, p)
  {
    FilterAppend(events, e, (e: Event) => e.Pair() == p);
  }

  // ---- Keys ------------------------------------------------------------------------

  /** The key under which the latest status of a pair is kept. */
  function Key(ruleId: string, hostId: string): string {
    ruleId + ":" + hostId
  }

  predicate NoColon(id: string) { ':' !in id }

  /** Distinct pairs never share a key, because a rule id (a UUID) holds no colon. */
  lemma KeyInjective(r1: string, h1: string, r2: string, h2: string)
    requires NoColon(r1) && NoColon(r2)
    requires Key(r1, h1) == Key(r2, h2)
    ensures r1 == r2 && h1 == h2
  {
    var k1, k2 := Key(r1, h1), Key(r2, h2);
    assert forall i :: 0 <= i < |r1| ==> k1[i] == r1[i];
    assert forall i :: 0 <= i < |r2| ==> k2[i] == r2[i];
    assert k1[|r1|] == ':' && k2[|r2|] == ':';
    assert |r1| == |r2|;
    assert r1 == k1[..|r1|] && r2 == k2[..|r2|];
    assert h1 == k1[|r1| + 1..] && h2 == k2[|r2| + 1..];
  }

  /** With a colon in a rule id two different pairs do collide. */
  lemma KeyCollision()
    ensures Key("a:b", "c") == Key("a", "b:c")
  {
    assert Key("a:b", "c") == "a:b:c" == Key("a", "b:c");
  }

  // ---- What the queries may answer ---------------------------------------------------

  /** The enabled rules, each once, in any order. */
  ghost predicate RulesAnswer(db: Db, rules: seq<Rule>) {
    && (forall i, j :: 0 <= i < j < |rules| ==> rules[i].id != rules[j].id)
    && (forall r :: r in rules <==> r.id in db.rules && db.rules[r.id] == r && r.enabled)
  }

  /** DISTINCT ON (host_id) ... ORDER BY host_id, ts DESC: one newest row a host, any of them on a tie. */
  ghost predicate MetricsAnswer(db: Db, rows: seq<Metric>) {
    && (forall i, j :: 0 <= i < j < |rows| ==> rows[i].hostId != rows[j].hostId)
    && (forall m :: m in rows ==> m in db.metrics)
    && (forall m {:trigger MetricCovered(rows, m)} :: m in db.metrics ==> MetricCovered(rows, m))
  }

  ghost predicate MetricCovered(rows: seq<Metric>, m: Metric) {
    exists n :: n in rows && n.hostId == m.hostId && m.ts <= n.ts
  }

  /** DISTINCT ON (rule_id, host_id) ... ORDER BY rule_id, host_id, ts DESC over the given rules. */
  ghost predicate EventsAnswer(db: Db, ruleIds: set<string>, rows: seq<Event>) {
    && (forall i, j :: 0 <= i < j < |rows| ==> rows[i].Pair() != rows[j].Pair())
    && (forall e :: e in rows ==> e in db.events && e.ruleId in ruleIds)
    && (forall e {:trigger EventCovered(rows, e)} :: e in db.events && e.ruleId in ruleIds ==> EventCovered(rows, e))
  }

  ghost predicate EventCovered(rows: seq<Event>, e: Event) {
    exists n :: n in rows && n.Pair() == e.Pair() && e.ts <= n.ts
  }

  /** The Map that the rows of the metrics query are put into. */
  function LatestByHost(rows: seq<Metric>): map<string, Metric> {
    if rows == [] then map[]
    else LatestByHost(rows[..|rows| - 1])[rows[|rows| - 1].hostId := rows[|rows| - 1]]
  }

  /** The Map that the rows of the events query are put into. */
  function LatestEvents(rows: seq<Event>): map<string, Status> {
    if rows == [] then map[]
    else var e := rows[|rows| - 1]; LatestEvents(rows[..|rows| - 1])[Key(e.ruleId, e.hostId) := e.status]
  }

  /** In an alternating log the newest row the query can return is the last one written. */
  lemma NewestIsLast(db: Db, ruleIds: set<string>, rows: seq<Event>, n: Event)
    requires EventsAnswer(db, ruleIds, rows) && n in rows
    requires Alternating(Log(db.events, n.Pair()))
    ensures var log := Log(db.events, n.Pair()); log != [] && log[|log| - 1] == n
  {
    var log := Log(db.events, n.Pair());
    LogElements(db.events, n.Pair());
    assert n in log;
    var last := log[|log| - 1];
    assert last in log && last.ruleId == n.ruleId;
    assert EventCovered(rows, last);
    var top :| top in rows && top.Pair() == last.Pair() && last.ts <= top.ts;
    assert top == n;
  }

  /** What the Map holds for a pair is the status of the last event of the pair's log. */
  lemma {:induction false} SnapshotIsLast(db: Db, ruleIds: set<string>, rows: seq<Event>, p: (string, string))
    requires EventsAnswer(db, ruleIds, rows)
    requires forall e :: e in db.events ==> NoColon(e.ruleId)
    requires forall q :: Alternating(Log(db.events, q))
    requires p.0 in ruleIds && NoColon(p.0)
    ensures Lookup(LatestEvents(rows), p) == LastStatus(Log(db.events, p))
  {
    var log := Log(db.events, p);
    LogElements(db.events, p);
    MapOfRows(rows, p);
    if log != [] {
      var last := log[|log| - 1];
      assert last in log && EventCovered(rows, last);
      var n :| n in rows && n.Pair() == last.Pair() && last.ts <= n.ts;
      NewestIsLast(db, ruleIds, rows, n);
    } else {
      forall n | n in rows ensures n.Pair() != p {
        assert n in db.events && n !in log;
      }
    }
  }

  function Lookup(snap: map<string, Status>, p: (string, string)): Option<Status> {
    if Key(p.0, p.1) in snap then Some(snap[Key(p.0, p.1)]) else None
  }

  lemma {:induction false} MapOfRows(rows: seq<Event>, p: (string, string))
    requires forall i, j :: 0 <= i < j < |rows| ==> rows[i].Pair() != rows[j].Pair()
    requires forall e :: e in rows ==> NoColon(e.ruleId)
    requires NoColon(p.0)
    ensures forall n :: n in rows && n.Pair() == p ==> Lookup(LatestEvents(rows), p) == Some(n.status)
    ensures (forall n :: n in rows ==> n.Pair() != p) ==> Lookup(LatestEvents(rows), p) == None
  {
    if rows == [] {
    } else {
      var init, last := rows[..|rows| - 1], rows[|rows| - 1];
      assert rows == init + [last];
      MapOfRows(init, p);
      if Key(last.ruleId, last.hostId) == Key(p.0, p.1) {
        KeyInjective(last.ruleId, last.hostId, p.0, p.1);
      }
    }
  }

  // ---- The two decisions -------------------------------------------------------------

  /** The value a threshold rule looks at; None for a metric name the engine does not know. */
  function MetricValue(metric: string, m: Metric): Option<real> {
    if metric == "cpu_total_pct" then Some(m.cpuTotalPct)
    else if metric == "mem_used_pct" then
      Some(if m.memTotalMb > 0.0 then m.memUsedMb / m.memTotalMb * 100.0 else 0.0)
    else if metric == "disk_used_pct" then Some(m.diskUsedPct)
    else None
  }

  function Compare(op: string, value: real, threshold: real): bool {
    if op == ">" then value > threshold
    else if op == "<" then value < threshold
    else if op == "==" then value == threshold
    else false
  }

  function IsDown(h: Host, now: int): bool {
    now - (if h.lastSeenAt.Some? then h.lastSeenAt.value else 0) > ONLINE_THRESHOLD_MS
  }

  /** The event status to write, given whether the rule holds and the status last logged. */
  function Decide(holds: bool, last: Option<Status>): Option<Status> {
    if holds && last != Some(Firing) then Some(Firing)
    else if !holds && last == Some(Firing) then Some(Resolved)
    else None
  }

  // ---- The pairs a pass visits ---------------------------------------------------------

  datatype Job = Job(rule: Rule, hostId: string) {
    function Pair(): (string, string) { (rule.id, hostId) }
  }

  predicate Truthy(hostId: Option<string>) { hostId.Some? && hostId.value != "" }

  /** The host ids one rule is checked against, in the order of the loop. */
  function HostIds(r: Rule, latest: seq<Metric>): seq<string> {
    if r.metric == "host_down" then (if Truthy(r.hostId) then [r.hostId.value] else [])
    else if r.threshold.None? then []
    else if Truthy(r.hostId) then [r.hostId.value]
    else seq(|latest|, i requires 0 <= i < |latest| => latest[i].hostId)
  }

  function RuleJobs(r: Rule, latest: seq<Metric>): seq<Job> {
    var ids := HostIds(r, latest);
    seq(|ids|, i requires 0 <= i < |ids| => Job(r, ids[i]))
  }

  /** Every pair of the two nested loops, in order. */
  function Jobs(rules: seq<Rule>, latest: seq<Metric>): seq<Job> {
    if rules == [] then []
    else Jobs(rules[..|rules| - 1], latest) + RuleJobs(rules[|rules| - 1], latest)
  }

  predicate DistinctPairs(jobs: seq<Job>) {
    forall i, j :: 0 <= i < j < |jobs| ==> jobs[i].Pair() != jobs[j].Pair()
  }

  lemma DistinctConcat(a: seq<Job>, b: seq<Job>)
    requires DistinctPairs(a) && DistinctPairs(b)
    requires forall i, j :: 0 <= i < |a| && 0 <= j < |b| ==> a[i].rule.id != b[j].rule.id
    ensures DistinctPairs(a + b)
  {
  }

  lemma RuleJobsDistinct(r: Rule, latest: seq<Metric>)
    requires forall i, j :: 0 <= i < j < |latest| ==> latest[i].hostId != latest[j].hostId
    ensures DistinctPairs(RuleJobs(r, latest))
  {
  }

  lemma {:induction false} JobsElements(rules: seq<Rule>, rows: seq<Metric>)
    ensures forall b :: b in Jobs(rules, rows) <==> b.rule in rules && b.hostId in HostIds(b.rule, rows)
  {
    if rules == [] {
    } else {
      var init, last := rules[..|rules| - 1], rules[|rules| - 1];
      assert rules == init + [last];
      JobsElements(init, rows);
      var ids, jobs := HostIds(last, rows), RuleJobs(last, rows);
      forall b ensures b in jobs <==> b.rule == last && b.hostId in ids {
        if b.rule == last && b.hostId in ids {
          var i :| 0 <= i < |ids| && ids[i] == b.hostId;
          assert jobs[i] == b;
        }
      }
    }
  }

  lemma {:induction false} JobsPairsDistinct(rules: seq<Rule>, latest: seq<Metric>)
    requires forall i, j :: 0 <= i < j < |rules| ==> rules[i].id != rules[j].id
    requires forall i, j :: 0 <= i < j < |latest| ==> latest[i].hostId != latest[j].hostId
    ensures DistinctPairs(Jobs(rules, latest))
  {
    if rules == [] {
    } else {
      var init, last := rules[..|rules| - 1], rules[|rules| - 1];
      var before := Jobs(init, latest);
      JobsPairsDistinct(init, latest);
      RuleJobsDistinct(last, latest);
      JobsElements(init, latest);
      forall i | 0 <= i < |before| ensures before[i].rule.id != last.id {
        assert before[i] in before;
        var k :| 0 <= k < |init| && init[k] == before[i].rule;
        assert rules[k] == init[k];
      }
      DistinctConcat(before, RuleJobs(last, latest));
    }
  }

  /** No pair is visited twice in one pass. */
  lemma JobsDistinct(rules: seq<Rule>, latest: seq<Metric>)
    requires forall i, j :: 0 <= i < j < |rules| ==> rules[i].id != rules[j].id
    requires forall i, j :: 0 <= i < j < |latest| ==> latest[i].hostId != latest[j].hostId
    ensures DistinctPairs(Jobs(rules, latest))
    ensures forall b :: b in Jobs(rules, latest) ==> b.rule in rules && b.hostId in HostIds(b.rule, latest)
  {
    JobsPairsDistinct(rules, latest);
    JobsElements(rules, latest);
  }
}
