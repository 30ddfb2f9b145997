/** Passes with nothing else going on: two calls of checkAlerts in a row, and the step system taking
    the steps of one call without interruption. */
module AlertQuiet {
  import opened AlertModel
  import opened AlertMachine
  import opened AlertPass
  import opened AlertCalls
  import opened AlertsCron

  /** A second call on the tables the first one left, at the same time, logs nothing. The answers may come in any
      order; only on a tie must the metrics query pick rows that the first one picked. */
  method CheckTwice(
      engine: Engine, now: int, rules: seq<Rule>, metricRows: seq<Metric>, eventRows: seq<Event>,
      rules2: seq<Rule>, metricRows2: seq<Metric>, eventRows2: seq<Event>)
    requires !engine.isRunning && Consistent(engine.db) && forall e :: e in engine.db.events ==> e.ts < now
    requires RulesAnswer(engine.db, rules) && MetricsAnswer(engine.db, metricRows)
    requires EventsAnswer(engine.db, RuleIds(rules), eventRows)
    requires RulesAnswer(engine.db, rules2) && MetricsAnswer(engine.db, metricRows2)
    requires LatestByHost(FetchedRows(rules2, metricRows2)) == LatestByHost(FetchedRows(rules, metricRows))
    requires EventsAnswer(AfterPass(engine.db, rules, FetchedRows(rules, metricRows), eventRows, now),
                          RuleIds(rules2), eventRows2)
    modifies engine
    ensures !engine.isRunning
    ensures engine.db == AfterPass(old(engine.db), rules, FetchedRows(rules, metricRows), eventRows, now)
  {
    ghost var before, rows, rows2 := engine.db, FetchedRows(rules, metricRows), FetchedRows(rules2, metricRows2);
    var failed := engine.CheckAlerts(now, rules, metricRows, eventRows, NoFault);
    ghost var mid := engine.db;
    assert mid == AfterPass(before, rules, rows, eventRows, now);
    failed := engine.CheckAlerts(now, rules2, metricRows2, eventRows2, NoFault);
    SecondCallSilent(before, rules, rows, eventRows, rules2, rows2, eventRows2, now);
    assert mid.events + [] == mid.events;
  }

  function AfterPass(db: Db, rules: seq<Rule>, rows: seq<Metric>, eventRows: seq<Event>, now: int): Db {
    db.(events := db.events + PassEvents(Jobs(rules, rows), db.hosts, Seen(rows, eventRows), now))
  }

  lemma SecondCallSilent(
      db: Db, rules: seq<Rule>, rows: seq<Metric>, eventRows: seq<Event>,
      rules2: seq<Rule>, rows2: seq<Metric>, eventRows2: seq<Event>, now: int)
    requires Consistent(db) && Answers(db, rules, rows, eventRows)
    requires forall e :: e in db.events ==> e.ts < now
    requires Answers(AfterPass(db, rules, rows, eventRows, now), rules2, rows2, eventRows2)
    requires LatestByHost(rows2) == LatestByHost(rows)
    ensures PassEvents(Jobs(rules2, rows2), db.hosts, Seen(rows2, eventRows2), now) == []
  {
    var after := AfterPass(db, rules, rows, eventRows, now);
    PassConsistent(db, rules, rows, eventRows, now);
    SeenFaithful(db, rules, rows, eventRows);
    SeenFaithful(after, rules2, rows2, eventRows2);
    SameJobs(rules, rows, rules2, rows2);
    SecondPassSilent(Jobs(rules, rows), Jobs(rules2, rows2), db.events, db.hosts, Seen(rows, eventRows),
                     LatestEvents(eventRows2), now);
  }

  lemma SameJobs(rules: seq<Rule>, rows: seq<Metric>, rules2: seq<Rule>, rows2: seq<Metric>)
    requires (forall r :: r in rules <==> r in rules2) && LatestByHost(rows2) == LatestByHost(rows)
    ensures forall b :: b in Jobs(rules, rows) <==> b in Jobs(rules2, rows2)
  {
    JobsElements(rules, rows);
    JobsElements(rules2, rows2);
    LatestByHostKeys(rows);
    LatestByHostKeys(rows2);
    forall r, h ensures h in HostIds(r, rows) <==> h in HostIds(r, rows2) {
      HostIdsMeaning(r, h, rows);
      HostIdsMeaning(r, h, rows2);
    }
  }

  // ---- The pass of the step system --------------------------------------------------------------

  /** The steps of a pass up to its loops. */
  function StartSteps(k: nat, now: int, rules: seq<Rule>, rows: seq<Metric>, eventRows: seq<Event>): seq<Step> {
    [Tick(now, k)] + [ReadRules(k, rules)]
    + (if NeedsMetrics(rules) then [ReadMetrics(k, rows)] else [])
    + (if rules != [] then [ReadEvents(k, eventRows)] else [])
  }

  function Walking(s: State, k: nat, now: int, pc: Pc): State {
    s.(clock := now, isRunning := true, passes := map[k := Pass(now, pc)])
  }

  lemma StartRun(s: State, k: nat, now: int, rules: seq<Rule>, rows: seq<Metric>, eventRows: seq<Event>)
    requires !s.isRunning && s.passes == map[] && now > s.clock
    requires RulesAnswer(s.db, rules) && EventsAnswer(s.db, RuleIds(rules), eventRows)
    requires if NeedsMetrics(rules) then MetricsAnswer(s.db, rows) else rows == []
    ensures var steps := StartSteps(k, now, rules, rows, eventRows);
      && ValidRun(s, steps) && Exec(s, steps) == Walking(s, k, now, Walk(Seen(rows, eventRows), Jobs(rules, rows)))
  {
    RulesRun(s, k, now, rules);
    MetricsRun(s, k, now, rules, rows);
    EventsRun(s, k, now, rules, rows, eventRows);
    var a := [Tick(now, k)] + [ReadRules(k, rules)];
    var b := if NeedsMetrics(rules) then [ReadMetrics(k, rows)] else [];
    RunAppend(s, a, b);
    RunAppend(s, a + b, if rules != [] then [ReadEvents(k, eventRows)] else []);
  }

  lemma RulesRun(s: State, k: nat, now: int, rules: seq<Rule>)
    requires !s.isRunning && s.passes == map[] && now > s.clock && RulesAnswer(s.db, rules)
    ensures var steps := [Tick(now, k)] + [ReadRules(k, rules)];
      ValidRun(s, steps) && Exec(s, steps)
        == Walking(s, k, now, if NeedsMetrics(rules) then AskMetrics(rules) else AfterMetrics(rules, []))
  {
    var t := Apply(s, Tick(now, k));
    RunOne(s, Tick(now, k));
    RunOne(t, ReadRules(k, rules));
    RunAppend(s, [Tick(now, k)], [ReadRules(k, rules)]);
  }

  lemma MetricsRun(s: State, k: nat, now: int, rules: seq<Rule>, rows: seq<Metric>)
    requires if NeedsMetrics(rules) then MetricsAnswer(s.db, rows) else rows == []
    ensures var from := Walking(s, k, now, if NeedsMetrics(rules) then AskMetrics(rules) else AfterMetrics(rules, []));
      var steps := if NeedsMetrics(rules) then [ReadMetrics(k, rows)] else [];
      ValidRun(from, steps) && Exec(from, steps) == Walking(s, k, now, AfterMetrics(rules, rows))
  {
    if NeedsMetrics(rules) {
      RunOne(Walking(s, k, now, AskMetrics(rules)), ReadMetrics(k, rows));
    }
  }

  lemma EventsRun(s: State, k: nat, now: int, rules: seq<Rule>, rows: seq<Metric>, eventRows: seq<Event>)
    requires EventsAnswer(s.db, RuleIds(rules), eventRows) && (rules == [] ==> rows == [])
    ensures var from := Walking(s, k, now, AfterMetrics(rules, rows));
      var steps := if rules != [] then [ReadEvents(k, eventRows)] else [];
      ValidRun(from, steps) && Exec(from, steps) == Walking(s, k, now, Walk(Seen(rows, eventRows), Jobs(rules, rows)))
  {
    if rules != [] {
      RunOne(Walking(s, k, now, AskEvents(rules, rows)), ReadEvents(k, eventRows));
    } else {
      NoEventsOfNoRules(s.db, eventRows);
    }
  }

  lemma NoEventsOfNoRules(db: Db, eventRows: seq<Event>)
    requires EventsAnswer(db, {}, eventRows)
    ensures eventRows == []
  {
    if eventRows != [] {
      SomeEvent(eventRows);
    }
  }

  lemma SomeEvent(events: seq<Event>)
    requires events != []
    ensures exists e :: e in events
  {
    assert events[0] in events;
  }

  /** The step system, from a tick to the end of the pass with nothing in between, does what CheckAlerts does. */
  lemma QuietRun(s: State, k: nat, now: int, rules: seq<Rule>, metricRows: seq<Metric>, eventRows: seq<Event>)
    requires !s.isRunning && s.passes == map[] && now > s.clock && Consistent(s.db)
    requires RulesAnswer(s.db, rules) && MetricsAnswer(s.db, metricRows)
    requires EventsAnswer(s.db, RuleIds(rules), eventRows)
    ensures
      var rows := FetchedRows(rules, metricRows);
      var steps := StartSteps(k, now, rules, rows, eventRows)
                   + WalkSteps(k, Jobs(rules, rows), s.db.hosts, Seen(rows, eventRows), now);
      ValidRun(s, steps) && Exec(s, steps) == s.(clock := now, db := AfterPass(s.db, rules, rows, eventRows, now))
  {
    var rows := FetchedRows(rules, metricRows);
    var jobs, snap := Jobs(rules, rows), Seen(rows, eventRows);
    StartRun(s, k, now, rules, rows, eventRows);
    JobsExist(s.db, rules, rows);
    var t := Walking(s, k, now, Walk(snap, jobs));
    WalkRun(t, k, snap, jobs);
    RunAppend(s, StartSteps(k, now, rules, rows, eventRows), WalkSteps(k, jobs, s.db.hosts, snap, now));
    assert t.passes - {k} == map[];
  }

  lemma JobsExist(db: Db, rules: seq<Rule>, rows: seq<Metric>)
    requires Consistent(db) && RulesAnswer(db, rules) && forall m :: m in rows ==> m in db.metrics
    ensures forall b :: b in Jobs(rules, rows) ==> b.rule.id in db.rules && b.hostId in db.hosts
  {
    JobsElements(rules, rows);
    LatestByHostKeys(rows);
    forall b | b in Jobs(rules, rows) ensures b.rule.id in db.rules && b.hostId in db.hosts {
      HostIdsMeaning(b.rule, b.hostId, rows);
    }
  }
}
