/** The alert engine as a step system. A pass of checkAlerts is cut at its awaits; between
    two steps of a pass any other step may run: another cron tick, an ingest, retention,
    rule edits, cascading deletes, or an exception that ends the pass.

    Assumptions: one backend process; the clock never goes back and a cron tick comes
    strictly later than everything before it; ids of new rows are fresh; a query whose
    promise has settled has no later effect. */
module AlertMachine {
  import opened Prelude
  import opened AlertModel

  datatype Snapshot = Snapshot(latest: map<string, Metric>, statuses: map<string, Status>)

  /** Where a pass waits. */
  datatype Pc =
    | AskRules
    | AskMetrics(rules: seq<Rule>)
    | AskEvents(rules: seq<Rule>, rows: seq<Metric>)
    | Walk(snap: Snapshot, todo: seq<Job>)
    | HostRead(snap: Snapshot, todo: seq<Job>, host: Option<Host>)
    | Inserting(snap: Snapshot, todo: seq<Job>, event: Event)

  datatype Pass = Pass(started: int, pc: Pc)

  datatype State = State(
    clock: int, isRunning: bool, passes: map<nat, Pass>, db: Db,
    usedRules: set<string>, usedHosts: set<string>)

  datatype Step =
    | Tick(now: int, k: nat)
    | ReadRules(k: nat, rules: seq<Rule>)
    | ReadMetrics(k: nat, rows: seq<Metric>)
    | ReadEvents(k: nat, events: seq<Event>)
    | Evaluate(k: nat)
    | ReadHost(k: nat)
    | DecideHost(k: nat)
    | Insert(k: nat)
    | Throw(k: nat, stored: bool)
    | Wait(now: int)
    | Ingest(row: Metric)
    | Retain(metricsCutoff: int, eventsCutoff: int)
    | CreateRule(rule: Rule)
    | UpdateRule(ruleId: string, enabled: Option<bool>, threshold: Option<Option<real>>)
    | DeleteRule(ruleId: string)
    | CreateHost(hostId: string)
    | DeleteHost(hostId: string)

  // ---- Steps of a pass -----------------------------------------------------------------

  function Goto(s: State, k: nat, pc: Pc): State
    requires k in s.passes
  {
    s.(passes := s.passes[k := s.passes[k].(pc := pc)])
  }

  /** The `finally` block: the pass is gone and the flag is cleared, however it ended. */
  function EndPass(s: State, k: nat): State {
    s.(passes := s.passes - {k}, isRunning := false)
  }

  predicate NeedsMetrics(rules: seq<Rule>) {
    exists r :: r in rules && r.metric != "host_down" && r.threshold.Some?
  }

  function AfterMetrics(rules: seq<Rule>, rows: seq<Metric>): Pc {
    if rules == [] then Walk(Snapshot(map[], map[]), []) else AskEvents(rules, rows)
  }

  function RuleIds(rules: seq<Rule>): set<string> { set r | r in rules :: r.id }

  predicate CanStore(db: Db, e: Event) { e.ruleId in db.rules && e.hostId in db.hosts }

  function Store(db: Db, e: Event): Db { db.(events := db.events + [e]) }

  /** Whether the job's rule holds now; None when the job is skipped. `host` is the row read for a host_down rule. */
  function Holds(job: Job, latest: map<string, Metric>, host: Option<Host>, now: int): Option<bool> {
    if job.rule.metric == "host_down" then
      (if host.Some? then Some(IsDown(host.value, now)) else None)
    else if job.hostId !in latest || job.rule.threshold.None? then None
    else
      var value := MetricValue(job.rule.metric, latest[job.hostId]);
      if value.None? then None else Some(Compare(job.rule.op, value.value, job.rule.threshold.value))
  }

  /** The event a job calls for, given the statuses snapshot. */
  function JobEvent(job: Job, snap: Snapshot, host: Option<Host>, now: int): Option<Event> {
    var holds := Holds(job, snap.latest, host, now);
    if holds.None? then None
    else
      var status := Decide(holds.value, Lookup(snap.statuses, job.Pair()));
      if status.None? then None else Some(Event(job.rule.id, job.hostId, now, status.value))
  }

  function AfterJob(snap: Snapshot, todo: seq<Job>, host: Option<Host>, now: int): Pc
    requires todo != []
  {
    var event := JobEvent(todo[0], snap, host, now);
    if event.None? then Walk(snap, todo[1..]) else Inserting(snap, todo[1..], event.value)
  }

  function HostRow(db: Db, id: string): Option<Host> {
    if id in db.hosts then Some(db.hosts[id]) else None
  }

  // ---- All steps -----------------------------------------------------------------------

  ghost predicate Enabled(s: State, st: Step) {
    match st
    case Tick(now, k) => now > s.clock && k !in s.passes
    case ReadRules(k, rules) => k in s.passes && s.passes[k].pc.AskRules? && RulesAnswer(s.db, rules)
    case ReadMetrics(k, rows) => k in s.passes && s.passes[k].pc.AskMetrics? && MetricsAnswer(s.db, rows)
    case ReadEvents(k, events) =>
      && k in s.passes && s.passes[k].pc.AskEvents?
      && EventsAnswer(s.db, RuleIds(s.passes[k].pc.rules), events)
    case Evaluate(k) =>
      && k in s.passes && s.passes[k].pc.Walk?
      && (var todo := s.passes[k].pc.todo; todo == [] || todo[0].rule.metric != "host_down")
    case ReadHost(k) =>
      && k in s.passes && s.passes[k].pc.Walk?
      && (var todo := s.passes[k].pc.todo; todo != [] && todo[0].rule.metric == "host_down")
    case DecideHost(k) => k in s.passes && s.passes[k].pc.HostRead? && s.passes[k].pc.todo != []
    case Insert(k) => k in s.passes && s.passes[k].pc.Inserting?
    case Throw(k, _) => k in s.passes
    case Wait(now) => now >= s.clock
    case CreateRule(r) => r.id !in s.usedRules && NoColon(r.id) && (r.hostId.Some? ==> r.hostId.value in s.db.hosts)
    case CreateHost(h) => h !in s.usedHosts
    case _ => true
  }

  function Apply(s: State, st: Step): State
    requires Enabled(s, st)
  {
    match st
    case Tick(now, k) =>
      var s := s.(clock := now);
      if s.isRunning then s else s.(isRunning := true, passes := s.passes[k := Pass(now, AskRules)])
    case ReadRules(k, rules) =>
      Goto(s, k, if NeedsMetrics(rules) then AskMetrics(rules) else AfterMetrics(rules, []))
    case ReadMetrics(k, rows) => Goto(s, k, AfterMetrics(s.passes[k].pc.rules, rows))
    case ReadEvents(k, events) =>
      var pc := s.passes[k].pc;
      Goto(s, k, Walk(Snapshot(LatestByHost(pc.rows), LatestEvents(events)), Jobs(pc.rules, pc.rows)))
    case Evaluate(k) =>
      var pc := s.passes[k].pc;
      if pc.todo == [] then EndPass(s, k) else Goto(s, k, AfterJob(pc.snap, pc.todo, None, s.clock))
    case ReadHost(k) =>
      var pc := s.passes[k].pc;
      Goto(s, k, HostRead(pc.snap, pc.todo, HostRow(s.db, pc.todo[0].hostId)))
    case DecideHost(k) =>
      var pc := s.passes[k].pc;
      Goto(s, k, AfterJob(pc.snap, pc.todo, pc.host, s.clock))
    case Insert(k) =>
      var pc := s.passes[k].pc;
      if CanStore(s.db, pc.event) then Goto(s, k, Walk(pc.snap, pc.todo)).(db := Store(s.db, pc.event))
      else EndPass(s, k)
    case Throw(k, stored) =>
      var pc := s.passes[k].pc;
      if stored && pc.Inserting? && CanStore(s.db, pc.event)
      then EndPass(s, k).(db := Store(s.db, pc.event))
      else EndPass(s, k)
    case Wait(now) => s.(clock := now)
    case Ingest(m) =>
      if m.hostId !in s.db.hosts then s
      else s.(db := s.db.(metrics := s.db.metrics + [m], hosts := s.db.hosts[m.hostId := Host(Some(m.ts))]))
    case Retain(mc, ec) =>
      s.(db := s.db.(metrics := Filter(s.db.metrics, (m: Metric) => m.ts >= mc),
                     events := Filter(s.db.events, (e: Event) => e.ts >= ec)))
    case CreateRule(r) =>
      s.(db := s.db.(rules := s.db.rules[r.id := r]), usedRules := s.usedRules + {r.id})
    case UpdateRule(id, enabled, threshold) =>
      if id !in s.db.rules then s
      else
        var r := s.db.rules[id];
        var r := if enabled.Some? then r.(enabled := enabled.value) else r;
        var r := if threshold.Some? then r.(threshold := threshold.value) else r;
        s.(db := s.db.(rules := s.db.rules[id := r]))
    case DeleteRule(id) =>
      s.(db := s.db.(rules := s.db.rules - {id}, events := Filter(s.db.events, (e: Event) => e.ruleId != id)))
    case CreateHost(h) =>
      s.(db := s.db.(hosts := s.db.hosts[h := Host(None)]), usedHosts := s.usedHosts + {h})
    case DeleteHost(h) =>
      var gone := set id | id in s.db.rules && s.db.rules[id].hostId == Some(h);
      s.(db := Db(s.db.hosts - {h}, s.db.rules - gone, Filter(s.db.metrics, (m: Metric) => m.hostId != h),
                  Filter(s.db.events, (e: Event) => e.hostId != h && e.ruleId !in gone)))
  }

  ghost predicate ValidRun(s: State, steps: seq<Step>)
    decreases |steps|
  {
    steps == [] || (Enabled(s, steps[0]) && ValidRun(Apply(s, steps[0]), steps[1..]))
  }

  ghost function Exec(s: State, steps: seq<Step>): State
    requires ValidRun(s, steps)
    decreases |steps|
  {
    if steps == [] then s else Exec(Apply(s, steps[0]), steps[1..])
  }

  /** A freshly started backend over tables that hold rules and hosts but no alert event yet. */
  ghost predicate Init(s: State) {
    && !s.isRunning && s.passes == map[] && s.db.events == []
    && (forall id :: id in s.db.rules ==> s.db.rules[id].id == id && NoColon(id))
    && s.db.rules.Keys <= s.usedRules && s.db.hosts.Keys <= s.usedHosts
  }
}
