/** checkAlerts as it is written, run with nothing else going on: Maps filled by loops and
    events created inside nested loops. The rows the queries return are parameters, and so is
    the database call that throws, if one does. */
module AlertsCron {
  import opened Prelude
  import opened AlertModel
  import opened AlertMachine
  import opened AlertPass
  import opened AlertCalls

  /** What the schema's foreign keys and the engine's own history guarantee between passes. */
  ghost predicate Consistent(db: Db) {
    && (forall id :: id in db.rules ==> db.rules[id].id == id && NoColon(id))
    && (forall id :: id in db.rules && db.rules[id].hostId.Some? ==> db.rules[id].hostId.value in db.hosts)
    && (forall m :: m in db.metrics ==> m.hostId in db.hosts)
    && (forall e :: e in db.events ==> NoColon(e.ruleId) && CanStore(db, e))
    && (forall p :: Alternating(Log(db.events, p)))
  }

  /** The metrics query is issued only when some rule needs it. */
  function FetchedRows(rules: seq<Rule>, rows: seq<Metric>): seq<Metric> {
    if NeedsMetrics(rules) then rows else []
  }

  function Seen(rows: seq<Metric>, events: seq<Event>): Snapshot {
    Snapshot(LatestByHost(rows), LatestEvents(events))
  }

  lemma {:induction false} LatestByHostKeys(rows: seq<Metric>)
    ensures forall h :: h in LatestByHost(rows) <==> exists m :: m in rows && m.hostId == h
    ensures forall h :: h in LatestByHost(rows) ==> LatestByHost(rows)[h] in rows && LatestByHost(rows)[h].hostId == h
  {
    if rows == [] {
    } else {
      LatestByHostKeys(rows[..|rows| - 1]);
      assert rows == rows[..|rows| - 1] + [rows[|rows| - 1]];
    }
  }

  method FetchLatestMetricsByHost(rows: seq<Metric>) returns (latest: map<string, Metric>, keys: seq<string>)
    requires forall i, j :: 0 <= i < j < |rows| ==> rows[i].hostId != rows[j].hostId
    ensures latest == LatestByHost(rows)
    ensures keys == seq(|rows|, i requires 0 <= i < |rows| => rows[i].hostId)
  {
    latest, keys := map[], [];
    for i := 0 to |rows|
      invariant latest == LatestByHost(rows[..i])
      invariant |keys| == i && forall j :: 0 <= j < i ==> keys[j] == rows[j].hostId
    {
      LatestByHostKeys(rows[..i]);
      assert rows[..i + 1][..i] == rows[..i];
      if rows[i].hostId !in latest {
        keys := keys + [rows[i].hostId];
      }
      latest := latest[rows[i].hostId := rows[i]];
    }
    assert rows[..|rows|] == rows;
  }

  method FetchLatestEvents(rows: seq<Event>) returns (statuses: map<string, Status>)
    ensures statuses == LatestEvents(rows)
  {
    statuses := map[];
    for i := 0 to |rows|
      invariant statuses == LatestEvents(rows[..i])
    {
      assert rows[..i + 1][..i] == rows[..i];
      statuses := statuses[rows[i].ruleId + ":" + rows[i].hostId := rows[i].status];
    }
    assert rows[..|rows|] == rows;
  }

  /** Every write of the pass meets its foreign keys, so an undisturbed pass never throws. */
  lemma {:induction false} PassStorable(db: Db, rules: seq<Rule>, rows: seq<Metric>, jobs: seq<Job>,
      snap: Snapshot, now: int)
    requires Consistent(db) && RulesAnswer(db, rules)
    requires forall m :: m in rows ==> m in db.metrics
    requires snap.latest == LatestByHost(rows)
    requires forall b :: b in jobs ==> b.rule in rules && b.hostId in HostIds(b.rule, rows)
    ensures forall e :: e in PassEvents(jobs, db.hosts, snap, now) ==> CanStore(db, e) && NoColon(e.ruleId)
  {
    if jobs == [] {
    } else {
      LatestByHostKeys(rows);
      var last := jobs[|jobs| - 1];
      PassStorable(db, rules, rows, jobs[..|jobs| - 1], snap, now);
      assert last.rule in rules && last.hostId in HostIds(last.rule, rows);
    }
  }

  lemma SeenFaithful(db: Db, rules: seq<Rule>, rows: seq<Metric>, eventRows: seq<Event>)
    requires Consistent(db) && RulesAnswer(db, rules)
    requires EventsAnswer(db, RuleIds(rules), eventRows)
    requires forall i, j :: 0 <= i < j < |rows| ==> rows[i].hostId != rows[j].hostId
    ensures DistinctPairs(Jobs(rules, rows))
    ensures Faithful(Jobs(rules, rows), db.events, LatestEvents(eventRows))
  {
    JobsDistinct(rules, rows);
    forall b | b in Jobs(rules, rows)
      ensures Lookup(LatestEvents(eventRows), b.Pair()) == LastStatus(Log(db.events, b.Pair()))
    {
      SnapshotIsLast(db, RuleIds(rules), eventRows, b.Pair());
    }
  }

  lemma PassConsistent(db: Db, rules: seq<Rule>, rows: seq<Metric>, eventRows: seq<Event>, now: int)
    requires Consistent(db) && RulesAnswer(db, rules)
    requires EventsAnswer(db, RuleIds(rules), eventRows)
    requires forall i, j :: 0 <= i < j < |rows| ==> rows[i].hostId != rows[j].hostId
    requires forall m :: m in rows ==> m in db.metrics
    requires forall e :: e in db.events ==> e.ts < now
    ensures Consistent(db.(
      events := db.events + PassEvents(Jobs(rules, rows), db.hosts, Seen(rows, eventRows), now)))
  {
    var jobs, snap := Jobs(rules, rows), Seen(rows, eventRows);
    var more := PassEvents(jobs, db.hosts, snap, now);
    SeenFaithful(db, rules, rows, eventRows);
    JobsDistinct(rules, rows);
    PassStorable(db, rules, rows, jobs, snap, now);
    forall p ensures Alternating(Log(db.events + more, p)) {
      PassKeepsAlternating(jobs, db.events, db.hosts, snap, now, p);
    }
    AppendConsistent(db, more);
  }

  lemma AppendConsistent(db: Db, more: seq<Event>)
    requires Consistent(db) && forall e :: e in more ==> NoColon(e.ruleId) && CanStore(db, e)
    requires forall p :: Alternating(Log(db.events + more, p))
    ensures Consistent(db.(events := db.events + more))
  {
  }

  ghost predicate HasMetrics(rows: seq<Metric>, h: string) {
    exists i :: 0 <= i < |rows| && rows[i].hostId == h
  }

  /** A host-down rule looks at its own host; a threshold rule with a known metric at its own host, or at every
      host when it names none, as far as there are metrics. */
  ghost predicate Evaluated(r: Rule, h: string, hosts: map<string, Host>, rows: seq<Metric>) {
    if r.metric == "host_down" then r.hostId == Some(h) && h != "" && h in hosts
    else
      && r.metric in {"cpu_total_pct", "mem_used_pct", "disk_used_pct"} && r.threshold.Some?
      && r.hostId in {Some(h), None, Some("")} && HasMetrics(rows, h)
  }

  lemma HasMetricsMeaning(rows: seq<Metric>, h: string)
    ensures HasMetrics(rows, h) <==> h in LatestByHost(rows)
  {
    LatestByHostKeys(rows);
    if HasMetrics(rows, h) {
      var i :| 0 <= i < |rows| && rows[i].hostId == h;
      assert rows[i] in rows;
    }
  }

  lemma HostIdsMeaning(r: Rule, h: string, rows: seq<Metric>)
    ensures h in HostIds(r, rows) <==>
      if r.hostId in {None, Some("")} then r.metric != "host_down" && r.threshold.Some? && h in LatestByHost(rows)
      else h == r.hostId.value && (r.metric == "host_down" || r.threshold.Some?)
  {
    assert Truthy(r.hostId) <==> r.hostId !in {None, Some("")};
    LatestByHostKeys(rows);
    assert forall i :: 0 <= i < |rows| ==> rows[i] in rows;
    if exists m :: m in rows && m.hostId == h {
      var i :| 0 <= i < |rows| && rows[i].hostId == h;
      assert !Truthy(r.hostId) && r.metric != "host_down" && r.threshold.Some? ==> HostIds(r, rows)[i] == h;
    }
  }

  lemma VerdictKnown(r: Rule, h: string, hosts: map<string, Host>, latest: map<string, Metric>, now: int)
    ensures Verdict(Job(r, h), hosts, latest, now).Some? <==>
      if r.metric == "host_down" then h in hosts
      else r.metric in {"cpu_total_pct", "mem_used_pct", "disk_used_pct"} && r.threshold.Some? && h in latest
  {
  }

  /** These are the pairs a pass comes to a verdict on, no more and no fewer. */
  lemma EvaluatedPairs(rules: seq<Rule>, r: Rule, h: string, hosts: map<string, Host>, rows: seq<Metric>, now: int)
    requires h != ""
    ensures Job(r, h) in Jobs(rules, rows) && Verdict(Job(r, h), hosts, LatestByHost(rows), now).Some?
       <==> r in rules && Evaluated(r, h, hosts, rows)
  {
    JobsElements(rules, rows);
    HostIdsMeaning(r, h, rows);
    HasMetricsMeaning(rows, h);
    VerdictKnown(r, h, hosts, LatestByHost(rows), now);
    assert Job(r, h) in Jobs(rules, rows) <==> r in rules && h in HostIds(r, rows);
  }

  /** Whatever part of the pass got logged, the tables stay consistent. */
  lemma PartConsistent(db: Db, more: seq<Event>, n: nat)
    requires Consistent(db) && Consistent(db.(events := db.events + more)) && n <= |more|
    ensures Consistent(db.(events := db.events + more[..n]))
  {
    forall e | e in more[..n] ensures NoColon(e.ruleId) && CanStore(db, e) {
      assert e in db.(events := db.events + more).events;
    }
    forall p ensures Alternating(Log(db.events + more[..n], p)) {
      assert Alternating(Log(db.(events := db.events + more).events, p));
      PrefixAlternates(db.events, more, n, p);
    }
    AppendConsistent(db, more[..n]);
  }

  /** Each pair the pass came to a verdict on says so; every other log is as it was. */
  ghost predicate Settled(before: seq<Event>, after: Db, jobs: seq<Job>, latest: map<string, Metric>, now: int) {
    forall b :: b in jobs ==>
      var verdict := Verdict(b, after.hosts, latest, now);
      if verdict.Some? then (LastStatus(Log(after.events, b.Pair())) == Some(Firing) <==> verdict.value)
      else Log(after.events, b.Pair()) == Log(before, b.Pair())
  }

  lemma WholePassSettles(db: Db, rules: seq<Rule>, rows: seq<Metric>, eventRows: seq<Event>, now: int)
    requires Consistent(db) && RulesAnswer(db, rules)
    requires EventsAnswer(db, RuleIds(rules), eventRows)
    requires forall i, j :: 0 <= i < j < |rows| ==> rows[i].hostId != rows[j].hostId
    ensures var jobs, snap := Jobs(rules, rows), Seen(rows, eventRows);
      Settled(db.events, db.(events := db.events + PassEvents(jobs, db.hosts, snap, now)), jobs, snap.latest, now)
  {
    var jobs, snap := Jobs(rules, rows), Seen(rows, eventRows);
    SeenFaithful(db, rules, rows, eventRows);
    forall b | b in jobs
      ensures var verdict := Verdict(b, db.hosts, snap.latest, now);
        var after := Log(db.events + PassEvents(jobs, db.hosts, snap, now), b.Pair());
        if verdict.Some? then (LastStatus(after) == Some(Firing) <==> verdict.value)
        else after == Log(db.events, b.Pair())
    {
      PassSettles(jobs, db.events, db.hosts, snap, now, b);
    }
  }

  /** The pass over these answers, up to the call that throws. */
  ghost predicate PassLogged(before: Db, after: Db, rules: seq<Rule>, rows: seq<Metric>, eventRows: seq<Event>,
                             now: int, fault: Fault, failed: bool)
  {
    var jobs, snap := Jobs(rules, rows), Seen(rows, eventRows);
    && after == before.(events := after.events)
    && failed == Hits(fault, 0, StartCalls(rules) + PassCalls(jobs, before.hosts, snap, now))
    && Logged(before.events, after.events, PassEvents(jobs, before.hosts, snap, now), failed)
  }

  ghost predicate Answers(db: Db, rules: seq<Rule>, rows: seq<Metric>, eventRows: seq<Event>) {
    && RulesAnswer(db, rules) && EventsAnswer(db, RuleIds(rules), eventRows)
    && (forall i, j :: 0 <= i < j < |rows| ==> rows[i].hostId != rows[j].hostId)
    && (forall m :: m in rows ==> m in db.metrics)
  }

  /** A pass that got through settles its pairs. */
  lemma LoggedSettles(before: Db, after: Db, rules: seq<Rule>, rows: seq<Metric>, eventRows: seq<Event>,
                      now: int, fault: Fault)
    requires Consistent(before) && Answers(before, rules, rows, eventRows)
    requires PassLogged(before, after, rules, rows, eventRows, now, fault, false)
    ensures Settled(before.events, after, Jobs(rules, rows), LatestByHost(rows), now)
  {
    WholePassSettles(before, rules, rows, eventRows, now);
  }

  // ---- What the log says of a rule ---------------------------------------------------------------

  /** The last event of the pair is `firing`. */
  predicate SaysFiring(db: Db, ruleId: string, hostId: string) {
    var log := Log(db.events, (ruleId, hostId));
    log != [] && log[|log| - 1].status == Firing
  }

  /** Every other row of its host is older. */
  ghost predicate IsNewest(db: Db, m: Metric) {
    m in db.metrics && forall n :: n in db.metrics && n.hostId == m.hostId && n != m ==> n.ts < m.ts
  }

  /** For a threshold rule and the newest row of a host it concerns: the log says `firing` exactly when the row's own
      figure is above, below or equal to the threshold, as the operator asks; for another operator it never does. */
  ghost predicate ThresholdSays(db: Db, id: string, m: Metric)
    requires id in db.rules
  {
    var r := db.rules[id];
    r.enabled && r.threshold.Some? && m.hostId != "" && r.hostId in {None, Some(""), Some(m.hostId)} ==>
      var t, says := r.threshold.value, SaysFiring(db, id, m.hostId);
      var mem := if m.memTotalMb > 0.0 then m.memUsedMb / m.memTotalMb * 100.0 else 0.0;
      && (r.metric == "cpu_total_pct" ==> (says <==>
            || (r.op == ">" && m.cpuTotalPct > t) || (r.op == "<" && m.cpuTotalPct < t)
            || (r.op == "==" && m.cpuTotalPct == t)))
      && (r.metric == "disk_used_pct" ==> (says <==>
            || (r.op == ">" && m.diskUsedPct > t) || (r.op == "<" && m.diskUsedPct < t)
            || (r.op == "==" && m.diskUsedPct == t)))
      && (r.metric == "mem_used_pct" ==> (says <==>
            || (r.op == ">" && mem > t) || (r.op == "<" && mem < t) || (r.op == "==" && mem == t)))
  }

  /** For a host-down rule: exactly when its host was last seen more than a minute ago, or never. */
  ghost predicate HostDownSays(db: Db, id: string, now: int)
    requires id in db.rules
  {
    var r := db.rules[id];
    r.enabled && r.metric == "host_down" && r.hostId.Some? && r.hostId.value != "" && r.hostId.value in db.hosts ==>
      var seen := db.hosts[r.hostId.value].lastSeenAt;
      SaysFiring(db, id, r.hostId.value) <==> now - (if seen.Some? then seen.value else 0) > 60_000
  }

  /** What a threshold rule compares, and how. */
  lemma ThresholdVerdict(r: Rule, h: string, hosts: map<string, Host>, latest: map<string, Metric>, now: int)
    requires r.metric != "host_down" && r.threshold.Some? && h in latest
    ensures
      var v, m, t := Verdict(Job(r, h), hosts, latest, now), latest[h], r.threshold.value;
      var mem := if m.memTotalMb > 0.0 then m.memUsedMb / m.memTotalMb * 100.0 else 0.0;
      && (r.metric == "cpu_total_pct" ==> v == Some(
            || (r.op == ">" && m.cpuTotalPct > t) || (r.op == "<" && m.cpuTotalPct < t)
            || (r.op == "==" && m.cpuTotalPct == t)))
      && (r.metric == "disk_used_pct" ==> v == Some(
            || (r.op == ">" && m.diskUsedPct > t) || (r.op == "<" && m.diskUsedPct < t)
            || (r.op == "==" && m.diskUsedPct == t)))
      && (r.metric == "mem_used_pct" ==> v == Some(
            || (r.op == ">" && mem > t) || (r.op == "<" && mem < t) || (r.op == "==" && mem == t)))
  {
  }

  lemma HostDownVerdict(r: Rule, h: string, hosts: map<string, Host>, latest: map<string, Metric>, now: int)
    requires r.metric == "host_down" && h in hosts
    ensures Verdict(Job(r, h), hosts, latest, now)
         == Some(now - (if hosts[h].lastSeenAt.Some? then hosts[h].lastSeenAt.value else 0) > 60_000)
  {
  }

  /** A pass that judges the pair leaves its log saying so. */
  lemma JudgedSays(before: Db, after: Db, rules: seq<Rule>, rows: seq<Metric>, now: int, r: Rule, h: string)
    requires Settled(before.events, after, Jobs(rules, rows), LatestByHost(rows), now)
    requires r in rules && h != "" && Evaluated(r, h, after.hosts, rows)
    ensures Verdict(Job(r, h), after.hosts, LatestByHost(rows), now) == Some(SaysFiring(after, r.id, h))
  {
    EvaluatedPairs(rules, r, h, after.hosts, rows, now);
    assert Job(r, h) in Jobs(rules, rows) && Job(r, h).Pair() == (r.id, h);
  }

  /** The answer to the metrics query holds a newest row, and the map shows it. */
  lemma NewestIsShown(db: Db, rows: seq<Metric>, m: Metric)
    requires MetricsAnswer(db, rows) && IsNewest(db, m)
    ensures HasMetrics(rows, m.hostId) && m.hostId in LatestByHost(rows) && LatestByHost(rows)[m.hostId] == m
  {
    assert MetricCovered(rows, m);
    var n :| n in rows && n.hostId == m.hostId && m.ts <= n.ts;
    var i :| 0 <= i < |rows| && rows[i] == n;
    assert rows[i].hostId == m.hostId;
    LatestByHostKeys(rows);
  }

  lemma ThresholdIsSaid(
      before: Db, after: Db, rules: seq<Rule>, metricRows: seq<Metric>, now: int, id: string, m: Metric)
    requires Consistent(before) && RulesAnswer(before, rules) && MetricsAnswer(before, metricRows)
    requires after == before.(events := after.events)
    requires var rows := FetchedRows(rules, metricRows);
      Settled(before.events, after, Jobs(rules, rows), LatestByHost(rows), now)
    requires id in before.rules && IsNewest(before, m)
    ensures ThresholdSays(after, id, m)
  {
    var r, rows := before.rules[id], FetchedRows(rules, metricRows);
    if r.enabled && r.threshold.Some? && m.hostId != "" && r.hostId in {None, Some(""), Some(m.hostId)}
       && r.metric in {"cpu_total_pct", "disk_used_pct", "mem_used_pct"} {
      assert r.id == id && r in rules && rows == metricRows;
      NewestIsShown(before, rows, m);
      JudgedSays(before, after, rules, rows, now, r, m.hostId);
      ThresholdVerdict(r, m.hostId, after.hosts, LatestByHost(rows), now);
    }
  }

  lemma HostDownIsSaid(before: Db, after: Db, rules: seq<Rule>, rows: seq<Metric>, now: int, id: string)
    requires Consistent(before) && RulesAnswer(before, rules) && after == before.(events := after.events)
    requires Settled(before.events, after, Jobs(rules, rows), LatestByHost(rows), now)
    requires id in before.rules
    ensures HostDownSays(after, id, now)
  {
    var r := before.rules[id];
    if r.enabled && r.metric == "host_down" && r.hostId.Some? && r.hostId.value != ""
       && r.hostId.value in before.hosts {
      assert r.id == id && r in rules;
      JudgedSays(before, after, rules, rows, now, r, r.hostId.value);
      HostDownVerdict(r, r.hostId.value, after.hosts, LatestByHost(rows), now);
    }
  }

  /** Every enabled rule says what it should of every host it concerns. */
  ghost predicate RulesSay(db: Db, now: int) {
    && (forall id, m :: id in db.rules && IsNewest(db, m) ==> ThresholdSays(db, id, m))
    && (forall id :: id in db.rules ==> HostDownSays(db, id, now))
  }

  lemma RulesAreSaid(before: Db, after: Db, rules: seq<Rule>, metricRows: seq<Metric>, now: int)
    requires Consistent(before) && RulesAnswer(before, rules) && MetricsAnswer(before, metricRows)
    requires after == before.(events := after.events)
    requires var rows := FetchedRows(rules, metricRows);
      Settled(before.events, after, Jobs(rules, rows), LatestByHost(rows), now)
    ensures RulesSay(after, now)
  {
    forall id, m | id in after.rules && IsNewest(after, m) ensures ThresholdSays(after, id, m) {
      assert IsNewest(before, m);
      ThresholdIsSaid(before, after, rules, metricRows, now, id, m);
    }
    forall id | id in after.rules ensures HostDownSays(after, id, now) {
      HostDownIsSaid(before, after, rules, FetchedRows(rules, metricRows), now, id);
    }
  }

  /** A pass later than what is logged keeps the tables consistent, whether or not it got through. */
  lemma LoggedStaysConsistent(before: Db, after: Db, rules: seq<Rule>, rows: seq<Metric>, eventRows: seq<Event>,
                              now: int, fault: Fault, failed: bool)
    requires Consistent(before) && Answers(before, rules, rows, eventRows)
    requires PassLogged(before, after, rules, rows, eventRows, now, fault, failed)
    requires forall e :: e in before.events ==> e.ts < now
    ensures Consistent(after)
  {
    var more := PassEvents(Jobs(rules, rows), before.hosts, Seen(rows, eventRows), now);
    PassConsistent(before, rules, rows, eventRows, now);
    if failed {
      var n: nat := |after.events| - |before.events|;
      PartConsistent(before, more, n);
      assert after == before.(events := before.events + more[..n]);
    } else {
      assert after == before.(events := before.events + more);
    }
  }

  class Engine {
    var isRunning: bool
    var db: Db

    constructor (db: Db)
      ensures this.db == db && !isRunning
    {
      this.db := db;
      isRunning := false;
    }

    /** `failed`: an error was logged. */
    method CheckAlerts(now: int, rules: seq<Rule>, metricRows: seq<Metric>, eventRows: seq<Event>, fault: Fault)
      returns (failed: bool)
      requires Consistent(db)
      requires RulesAnswer(db, rules) && MetricsAnswer(db, metricRows)
      requires EventsAnswer(db, RuleIds(rules), eventRows)
      modifies this
      ensures old(isRunning) ==> isRunning && db == old(db) && !failed
      ensures !old(isRunning) ==>
        var rows := FetchedRows(rules, metricRows);
        && !isRunning
        && PassLogged(old(db), db, rules, rows, eventRows, now, fault, failed)
        && (!failed ==> Settled(old(db.events), db, Jobs(rules, rows), LatestByHost(rows), now))
      ensures !old(isRunning) && !failed ==> RulesSay(db, now)
      ensures (forall e :: e in old(db.events) ==> e.ts < now) ==> Consistent(db)
    {
      if isRunning {
        return false;
      }
      isRunning := true;
      failed := CheckAlertsImpl(now, rules, metricRows, eventRows, fault);
      isRunning := false;

      ghost var rows := FetchedRows(rules, metricRows);
      if !failed {
        LoggedSettles(old(db), db, rules, rows, eventRows, now, fault);
        RulesAreSaid(old(db), db, rules, metricRows, now);
      }
      if forall e :: e in old(db.events) ==> e.ts < now {
        LoggedStaysConsistent(old(db), db, rules, rows, eventRows, now, fault, failed);
      }
    }

    method CheckAlertsImpl(now: int, rules: seq<Rule>, metricRows: seq<Metric>, eventRows: seq<Event>, fault: Fault)
      returns (threw: bool)
      requires forall i, j :: 0 <= i < j < |metricRows| ==> metricRows[i].hostId != metricRows[j].hostId
      modifies this`db
      ensures PassLogged(old(db), db, rules, FetchedRows(rules, metricRows), eventRows, now, fault, threw)
    {
      ghost var rows := FetchedRows(rules, metricRows);
      ghost var jobs, snap := Jobs(rules, rows), Seen(rows, eventRows);
      var latestByHost, keys, statuses, made;
      latestByHost, keys, statuses, made, threw := Query(rules, metricRows, eventRows, fault);
      if threw {
        LoggedNone(db.events, PassEvents(jobs, db.hosts, snap, now));
        return;
      }
      made, threw := CheckRules(rules, keys, latestByHost, statuses, rows, now, fault, made);
      assert rules == [] ==> Jobs(rules, rows) == [] && PassEvents([], db.hosts, snap, now) == [];
    }

    /** The outer loop. */
    method CheckRules(
        rules: seq<Rule>, keys: seq<string>, latestByHost: map<string, Metric>, statuses: map<string, Status>,
        ghost rows: seq<Metric>, now: int, fault: Fault, calls: nat)
      returns (made: nat, threw: bool)
      requires NeedsMetrics(rules) ==> keys == seq(|rows|, i requires 0 <= i < |rows| => rows[i].hostId)
      modifies this`db
      ensures db == old(db).(events := db.events)
      ensures Did(Jobs(rules, rows), Setting(db.hosts, Snapshot(latestByHost, statuses), now, fault),
                  Point(old(db.events), calls), Point(db.events, made), threw)
    {
      ghost var ctx := Setting(db.hosts, Snapshot(latestByHost, statuses), now, fault);
      ghost var start := Point(db.events, calls);
      DidNothing(ctx, start);
      made, threw := calls, false;
      for i := 0 to |rules|
        invariant db == old(db).(events := db.events) && !threw
        invariant Did(Jobs(rules[..i], rows), ctx, start, Point(db.events, made), false)
      {
        ghost var here := Point(db.events, made);
        made, threw := CheckRule(rules[i], keys, latestByHost, statuses, rows, now, fault, made);
        JobsAround(rules, i, rows);
        DidRound(Jobs(rules[..i], rows), RuleJobs(rules[i], rows), JobsFrom(rules, i + 1, rows), ctx,
                 start, here, Point(db.events, made), threw);
        if threw {
          return;
        }
      }
      assert rules[..|rules|] == rules;
    }

    /** The body of the outer loop. */
    method CheckRule(
        rule: Rule, keys: seq<string>, latestByHost: map<string, Metric>, statuses: map<string, Status>,
        ghost rows: seq<Metric>, now: int, fault: Fault, calls: nat)
      returns (made: nat, threw: bool)
      requires rule.metric != "host_down" && rule.threshold.Some? ==>
        keys == seq(|rows|, i requires 0 <= i < |rows| => rows[i].hostId)
      modifies this`db
      ensures db == old(db).(events := db.events)
      ensures Did(RuleJobs(rule, rows), Setting(db.hosts, Snapshot(latestByHost, statuses), now, fault),
                  Point(old(db.events), calls), Point(db.events, made), threw)
    {
      if rule.metric == "host_down" {
        made, threw := CheckHostDown(rule, statuses, latestByHost, rows, now, fault, calls);
      } else {
        made, threw := CheckThreshold(rule, keys, latestByHost, statuses, rows, now, fault, calls);
      }
    }

    /** The queries before the loops. */
    method Query(rules: seq<Rule>, metricRows: seq<Metric>, eventRows: seq<Event>, fault: Fault)
      returns (latestByHost: map<string, Metric>, keys: seq<string>, statuses: map<string, Status>, made: nat,
        threw: bool)
      requires forall i, j :: 0 <= i < j < |metricRows| ==> metricRows[i].hostId != metricRows[j].hostId
      ensures threw == Hits(fault, 0, StartCalls(rules))
      ensures !threw ==>
        var rows := FetchedRows(rules, metricRows);
        && made == StartCalls(rules)
        && latestByHost == LatestByHost(rows)
        && (NeedsMetrics(rules) ==> keys == seq(|rows|, i requires 0 <= i < |rows| => rows[i].hostId))
        && (rules != [] ==> statuses == LatestEvents(eventRows))
    {
      latestByHost, keys, statuses := map[], [], map[];
      made := 1;
      threw := fault.At? && fault.call == 0;
      if threw {
        return;
      }
      if exists r :: r in rules && r.metric != "host_down" && r.threshold.Some? {
        threw := fault.At? && fault.call == made;
        made := made + 1;
        if threw {
          return;
        }
        latestByHost, keys := FetchLatestMetricsByHost(metricRows);
      }
      if |rules| > 0 {
        threw := fault.At? && fault.call == made;
        made := made + 1;
        if threw {
          return;
        }
        statuses := FetchLatestEvents(eventRows);
      }
    }

    /** alertEvent.create: one call. */
    method Create(event: Event, fault: Fault, calls: nat) returns (made: nat, threw: bool)
      modifies this`db
      ensures db == old(db).(events := db.events)
      ensures made == calls + 1 && threw == Hits(fault, calls, calls + 1)
      ensures Logged(old(db.events), db.events, [event], threw)
    {
      made := calls + 1;
      threw := fault.At? && fault.call == calls;
      LoggedNone(db.events, [event]);
      if !threw || fault.stored {
        db := db.(events := db.events + [event]);
      }
    }

    method CheckHostDown(
        rule: Rule, statuses: map<string, Status>, ghost latest: map<string, Metric>, ghost rows: seq<Metric>, now: int,
        fault: Fault, calls: nat)
      returns (made: nat, threw: bool)
      requires rule.metric == "host_down"
      modifies this`db
      ensures db == old(db).(events := db.events)
      ensures Did(RuleJobs(rule, rows), Setting(db.hosts, Snapshot(latest, statuses), now, fault),
                  Point(old(db.events), calls), Point(db.events, made), threw)
    {
      ghost var ctx := Setting(db.hosts, Snapshot(latest, statuses), now, fault);
      if !Truthy(rule.hostId) {
        DidNothing(ctx, Point(db.events, calls));
        return calls, false;
      }
      var hostId := rule.hostId.value;
      assert RuleJobs(rule, rows) == [Job(rule, hostId)];
      OneJob(Job(rule, hostId), db.hosts, ctx.snap, now);
      made := calls + 1;
      threw := fault.At? && fault.call == calls;
      LoggedNone(db.events, PassEvents([Job(rule, hostId)], db.hosts, ctx.snap, now));
      if threw || hostId !in db.hosts {
        return;
      }
      var status := EvaluateHostDown(rule, hostId, db.hosts[hostId], statuses, latest, db.hosts, now);
      if status.Some? {
        made, threw := Create(Event(rule.id, hostId, now, status.value), fault, made);
      }
    }

    method CheckThreshold(
        rule: Rule, keys: seq<string>, latestByHost: map<string, Metric>, statuses: map<string, Status>,
        ghost rows: seq<Metric>, now: int, fault: Fault, calls: nat)
      returns (made: nat, threw: bool)
      requires rule.metric != "host_down"
      requires rule.threshold.Some? ==> keys == seq(|rows|, i requires 0 <= i < |rows| => rows[i].hostId)
      modifies this`db
      ensures db == old(db).(events := db.events)
      ensures Did(RuleJobs(rule, rows), Setting(db.hosts, Snapshot(latestByHost, statuses), now, fault),
                  Point(old(db.events), calls), Point(db.events, made), threw)
    {
      ghost var ctx := Setting(db.hosts, Snapshot(latestByHost, statuses), now, fault);
      ghost var start := Point(db.events, calls);
      ghost var jobs := RuleJobs(rule, rows);
      DidNothing(ctx, start);
      made, threw := calls, false;
      if rule.threshold.None? {
        return;
      }
      var hostIds := if Truthy(rule.hostId) then [rule.hostId.value] else keys;
      assert hostIds == HostIds(rule, rows);
      for i := 0 to |hostIds|
        invariant db == old(db).(events := db.events) && !threw
        invariant Did(jobs[..i], ctx, start, Point(db.events, made), false)
      {
        ghost var here := Point(db.events, made);
        made, threw := CheckOneHost(rule, hostIds[i], latestByHost, statuses, now, fault, made);
        Around(jobs, i, Job(rule, hostIds[i]));
        DidRound(jobs[..i], [Job(rule, hostIds[i])], jobs[i + 1..], ctx, start, here, Point(db.events, made), threw);
        if threw {
          return;
        }
      }
      assert jobs[..|jobs|] == jobs;
    }

    /** The body of the inner loop. */
    method CheckOneHost(
        rule: Rule, hostId: string, latestByHost: map<string, Metric>, statuses: map<string, Status>, now: int,
        fault: Fault, calls: nat)
      returns (made: nat, threw: bool)
      requires rule.metric != "host_down" && rule.threshold.Some?
      modifies this`db
      ensures db == old(db).(events := db.events)
      ensures Did([Job(rule, hostId)], Setting(db.hosts, Snapshot(latestByHost, statuses), now, fault),
                  Point(old(db.events), calls), Point(db.events, made), threw)
    {
      OneJob(Job(rule, hostId), db.hosts, Snapshot(latestByHost, statuses), now);
      var status := EvaluateThreshold(rule, hostId, latestByHost, statuses, db.hosts, now);
      if status.Some? {
        made, threw := Create(Event(rule.id, hostId, now, status.value), fault, calls);
      } else {
        LoggedNone(db.events, []);
        made, threw := calls, false;
      }
    }
  }

  lemma Around(jobs: seq<Job>, i: nat, job: Job)
    requires i < |jobs| && jobs[i] == job
    ensures jobs[..i + 1] == jobs[..i] + [job] && jobs == jobs[..i] + [job] + jobs[i + 1..]
  {
  }

  /** Which status, if any, to log for the host of a host-down rule. */
  method EvaluateHostDown(
      rule: Rule, hostId: string, host: Host, statuses: map<string, Status>, ghost latest: map<string, Metric>,
      ghost hosts: map<string, Host>, now: int)
    returns (status: Option<Status>)
    requires rule.metric == "host_down" && hostId in hosts && hosts[hostId] == host
    ensures JobEvents(Job(rule, hostId), hosts, Snapshot(latest, statuses), now)
      == if status.None? then [] else [Event(rule.id, hostId, now, status.value)]
  {
    var lastSeen := if host.lastSeenAt.Some? then host.lastSeenAt.value else 0;
    var isDown := now - lastSeen > ONLINE_THRESHOLD_MS;
    var key := rule.id + ":" + hostId;
    var currentFiring := key in statuses && statuses[key] == Firing;
    if isDown && !currentFiring {
      return Some(Firing);
    } else if !isDown && currentFiring {
      return Some(Resolved);
    }
    return None;
  }

  /** The metric a rule names, out of a row. */
  method ReadValue(metric: string, latest: Metric) returns (value: Option<real>)
    ensures value == MetricValue(metric, latest)
  {
    if metric == "cpu_total_pct" {
      value := Some(latest.cpuTotalPct);
    } else if metric == "mem_used_pct" {
      value := Some(if latest.memTotalMb > 0.0 then latest.memUsedMb / latest.memTotalMb * 100.0 else 0.0);
    } else if metric == "disk_used_pct" {
      value := Some(latest.diskUsedPct);
    } else {
      value := None;
    }
  }

  /** The body of the inner loop up to the write: which status, if any, to log for this host. */
  method EvaluateThreshold(
      rule: Rule, hostId: string, latestByHost: map<string, Metric>, statuses: map<string, Status>,
      ghost hosts: map<string, Host>, ghost now: int)
    returns (status: Option<Status>)
    requires rule.metric != "host_down" && rule.threshold.Some?
    ensures JobEvents(Job(rule, hostId), hosts, Snapshot(latestByHost, statuses), now)
      == if status.None? then [] else [Event(rule.id, hostId, now, status.value)]
  {
    if hostId !in latestByHost {
      return None;
    }
    var value := ReadValue(rule.metric, latestByHost[hostId]);
    if value.None? {
      return None;
    }
    var threshold := rule.threshold.value;
    var firing :=
      if rule.op == ">" then value.value > threshold
      else if rule.op == "<" then value.value < threshold
      else if rule.op == "==" then value.value == threshold
      else false;
    assert firing == Compare(rule.op, value.value, threshold);
    var key := rule.id + ":" + hostId;
    var currentFiring := key in statuses && statuses[key] == Firing;
    if firing && !currentFiring {
      return Some(Firing);
    } else if !firing && currentFiring {
      return Some(Resolved);
    }
    return None;
  }
}
