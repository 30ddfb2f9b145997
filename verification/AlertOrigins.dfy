/** Where alert events come from: only rules that can fire produce any, and every step but
    retention keeps each pair's log opening with `firing`. */
module AlertOrigins {
  import opened Prelude
  import opened AlertModel
  import opened AlertMachine
  import opened AlertSafety

  // ---- Only rules that can fire -----------------------------------------------------------

  /** host_down, or a known metric compared with one of the three operators the engine knows. */
  predicate CanFire(r: Rule) {
    || r.metric == "host_down"
    || (r.metric in {"cpu_total_pct", "mem_used_pct", "disk_used_pct"} && r.op in {">", "<", "=="})
  }

  /** A rule a pass holds: its id is taken for good, and its metric and operator cannot be edited. */
  predicate RuleKnown(s: State, r: Rule) {
    && r.id in s.usedRules
    && (r.id in s.db.rules ==> s.db.rules[r.id].metric == r.metric && s.db.rules[r.id].op == r.op)
  }

  predicate JobKnown(s: State, snap: Snapshot, b: Job) {
    RuleKnown(s, b.rule) && (Lookup(snap.statuses, b.Pair()) == Some(Firing) ==> CanFire(b.rule))
  }

  predicate EventKnown(s: State, e: Event) {
    e.ruleId in s.usedRules && (e.ruleId in s.db.rules ==> CanFire(s.db.rules[e.ruleId]))
  }

  ghost predicate PassKnown(s: State, pc: Pc) {
    match pc
    case AskRules => true
    case AskMetrics(rules) => forall r :: r in rules ==> RuleKnown(s, r)
    case AskEvents(rules, _) => forall r :: r in rules ==> RuleKnown(s, r)
    case Walk(snap, todo) => forall b :: b in todo ==> JobKnown(s, snap, b)
    case HostRead(snap, todo, _) => forall b :: b in todo ==> JobKnown(s, snap, b)
    case Inserting(snap, todo, e) => (forall b :: b in todo ==> JobKnown(s, snap, b)) && EventKnown(s, e)
  }

  ghost predicate Known(s: State) {
    && s.db.rules.Keys <= s.usedRules && s.db.hosts.Keys <= s.usedHosts
    && (forall e :: e in s.db.events ==> EventKnown(s, e))
    && (forall k :: k in s.passes ==> PassKnown(s, s.passes[k].pc))
  }

  lemma JobKeepsKnown(s: State, pc: Pc, host: Option<Host>)
    requires (pc.Walk? || pc.HostRead?) && pc.todo != [] && PassKnown(s, pc)
    ensures PassKnown(s, AfterJob(pc.snap, pc.todo, host, s.clock))
  {
    assert pc.todo[0] in pc.todo;
  }

  lemma EventsAnswerKeepsKnown(s: State, pc: Pc, rows: seq<Event>)
    requires Inv(s) && Known(s) && pc.AskEvents? && PassKnown(s, pc) && DistinctRules(pc.rules)
    requires forall i, j :: 0 <= i < j < |pc.rows| ==> pc.rows[i].hostId != pc.rows[j].hostId
    requires EventsAnswer(s.db, RuleIds(pc.rules), rows)
    ensures PassKnown(s, Walk(Snapshot(LatestByHost(pc.rows), LatestEvents(rows)), Jobs(pc.rules, pc.rows)))
  {
    JobsDistinct(pc.rules, pc.rows);
    forall b | b in Jobs(pc.rules, pc.rows)
      ensures RuleKnown(s, b.rule)
      ensures Lookup(LatestEvents(rows), b.Pair()) == Some(Firing) ==> CanFire(b.rule)
    {
      SnapshotIsLast(s.db, RuleIds(pc.rules), rows, b.Pair());
      var log := Log(s.db.events, b.Pair());
      LogElements(s.db.events, b.Pair());
      if log != [] {
        var last := log[|log| - 1];
        assert last in log && last in s.db.events;
      }
    }
  }

  /** Ids stay taken, and a rule that is still there kept its metric and operator. */
  predicate Later(s: State, t: State) { LaterRules(s, t) && LaterHosts(s, t) }

  predicate LaterRules(s: State, t: State) {
    && s.usedRules <= t.usedRules
    && (forall id :: id in s.usedRules && id in t.db.rules ==>
          id in s.db.rules && t.db.rules[id].metric == s.db.rules[id].metric && t.db.rules[id].op == s.db.rules[id].op)
  }

  predicate LaterHosts(s: State, t: State) {
    && s.usedHosts <= t.usedHosts
    && (forall h :: h in s.usedHosts && h in t.db.hosts ==> h in s.db.hosts)
  }

  lemma LaterKeepsPass(s: State, t: State, pc: Pc)
    requires Later(s, t) && PassKnown(s, pc)
    ensures PassKnown(t, pc)
  {
  }

  lemma StepLaterRules(s: State, st: Step)
    requires Known(s) && Enabled(s, st)
    ensures LaterRules(s, Apply(s, st))
  {
    if !(st.CreateRule? || st.UpdateRule? || st.DeleteRule? || st.DeleteHost?) {
      assert Apply(s, st).db.rules == s.db.rules;
    }
  }

  lemma StepLaterHosts(s: State, st: Step)
    requires Known(s) && Enabled(s, st)
    ensures LaterHosts(s, Apply(s, st))
  {
  }

  lemma StepKeepsUsedRules(s: State, st: Step)
    requires Known(s) && Enabled(s, st)
    ensures Apply(s, st).db.rules.Keys <= Apply(s, st).usedRules
  {
  }

  lemma StepKeepsUsedHosts(s: State, st: Step)
    requires Known(s) && Enabled(s, st)
    ensures Apply(s, st).db.hosts.Keys <= Apply(s, st).usedHosts
  {
  }

  predicate OwnStep(st: Step) {
    || st.ReadRules? || st.ReadMetrics? || st.ReadEvents? || st.ReadHost? || st.DecideHost? || st.Evaluate?
    || st.Insert?
  }

  /** The pass that takes the step keeps what it knows. */
  lemma OwnStepKeepsKnown(s: State, st: Step)
    requires Inv(s) && Known(s) && Enabled(s, st)
    requires OwnStep(st)
    ensures st.k in Apply(s, st).passes ==> PassKnown(s, Apply(s, st).passes[st.k].pc)
  {
    var pc := s.passes[st.k].pc;
    assert PassKnown(s, pc);
    if st.ReadEvents? {
      assert PassOk(s.db, s.clock, s.passes[st.k]);
      EventsAnswerKeepsKnown(s, pc, st.events);
    } else if st.Evaluate? && pc.todo != [] {
      JobKeepsKnown(s, pc, None);
    } else if st.DecideHost? {
      JobKeepsKnown(s, pc, pc.host);
    }
  }

  lemma EventsStayKnown(s: State, st: Step)
    requires Inv(s) && Known(s) && Enabled(s, st)
    ensures forall e :: e in Apply(s, st).db.events ==> EventKnown(s, e)
  {
    match st {
      case Insert(k) => assert PassKnown(s, s.passes[k].pc);
      case Throw(k, _) => assert PassKnown(s, s.passes[k].pc);
      case Retain(_, cutoff) => FilterElements(s.db.events, (e: Event) => e.ts >= cutoff);
      case DeleteRule(_) => DeleteKeepsInv(s, st);
      case DeleteHost(_) => DeleteKeepsInv(s, st);
      case _ =>
    }
  }

  lemma StepKeepsKnown(s: State, st: Step)
    requires Inv(s) && Known(s) && Enabled(s, st)
    ensures Known(Apply(s, st))
  {
    var t := Apply(s, st);
    StepLaterRules(s, st);
    StepLaterHosts(s, st);
    StepKeepsUsedRules(s, st);
    StepKeepsUsedHosts(s, st);
    EventsStayKnown(s, st);
    forall k | k in t.passes ensures PassKnown(t, t.passes[k].pc) {
      if OwnStep(st) {
        OwnStepKeepsKnown(s, st);
      }
      if k in s.passes { assert PassKnown(s, s.passes[k].pc); }
      LaterKeepsPass(s, t, t.passes[k].pc);
    }
  }

  lemma {:induction false} RunKeepsKnown(s: State, steps: seq<Step>)
    requires Inv(s) && Known(s) && ValidRun(s, steps)
    ensures Inv(Exec(s, steps)) && Known(Exec(s, steps))
    decreases |steps|
  {
    if steps == [] {
    } else {
      StepKeepsInv(s, steps[0]);
      StepKeepsKnown(s, steps[0]);
      RunKeepsKnown(Apply(s, steps[0]), steps[1..]);
    }
  }

  /** In every run, no event is ever written for a rule whose operator the engine does not
      know, such as the `gt` the web form sends, nor for an unknown metric. */
  lemma OnlyKnownOperatorsAlert(s: State, steps: seq<Step>, e: Event)
    requires Init(s) && ValidRun(s, steps)
    requires e in Exec(s, steps).db.events
    ensures e.ruleId in Exec(s, steps).db.rules && CanFire(Exec(s, steps).db.rules[e.ruleId])
  {
    RunKeepsKnown(s, steps);
    assert EventKnown(Exec(s, steps), e);
  }

  // ---- A log opens with `firing` -------------------------------------------------------------

  /** The pair lost its rule or its host, so nothing can be written for it any more. */
  predicate Dead(s: State, p: (string, string)) {
    || (p.0 in s.usedRules && p.0 !in s.db.rules)
    || (p.1 in s.usedHosts && p.1 !in s.db.hosts)
  }

  predicate LoggedOrDead(s: State, p: (string, string)) {
    Log(s.db.events, p) != [] || Dead(s, p)
  }

  ghost predicate PassOpens(s: State, pc: Pc) {
    && (pc.Walk? || pc.HostRead? || pc.Inserting? ==>
          forall b :: b in pc.todo && Lookup(pc.snap.statuses, b.Pair()) == Some(Firing) ==> LoggedOrDead(s, b.Pair()))
    && (pc.Inserting? && pc.event.status == Resolved ==> LoggedOrDead(s, pc.event.Pair()))
  }

  ghost predicate OpensWithFiring(log: seq<Event>) {
    log != [] ==> log[0].status == Firing
  }

  ghost predicate Opens(s: State) {
    && (forall p :: OpensWithFiring(Log(s.db.events, p)))
    && (forall k :: k in s.passes ==> PassOpens(s, s.passes[k].pc))
  }

  lemma JobKeepsOpens(s: State, pc: Pc, host: Option<Host>)
    requires (pc.Walk? || pc.HostRead?) && pc.todo != [] && PassOpens(s, pc)
    ensures PassOpens(s, AfterJob(pc.snap, pc.todo, host, s.clock))
  {
    assert pc.todo[0] in pc.todo;
  }

  lemma EventsAnswerOpens(s: State, pc: Pc, rows: seq<Event>)
    requires Inv(s) && pc.AskEvents? && DistinctRules(pc.rules)
    requires forall i, j :: 0 <= i < j < |pc.rows| ==> pc.rows[i].hostId != pc.rows[j].hostId
    requires EventsAnswer(s.db, RuleIds(pc.rules), rows)
    ensures PassOpens(s, Walk(Snapshot(LatestByHost(pc.rows), LatestEvents(rows)), Jobs(pc.rules, pc.rows)))
  {
    JobsDistinct(pc.rules, pc.rows);
    forall b | b in Jobs(pc.rules, pc.rows)
      ensures Lookup(LatestEvents(rows), b.Pair()) == Some(Firing) ==> LoggedOrDead(s, b.Pair())
    {
      SnapshotIsLast(s.db, RuleIds(pc.rules), rows, b.Pair());
    }
  }

  /** Storing the event a pass holds keeps every log opening with `firing`. */
  lemma StoreKeepsOpens(s: State, e: Event)
    requires Opens(s) && CanStore(s.db, e)
    requires e.status == Resolved ==> LoggedOrDead(s, e.Pair())
    ensures forall p :: OpensWithFiring(Log(Store(s.db, e).events, p))
    ensures forall p :: Log(s.db.events, p) != [] ==> Log(Store(s.db, e).events, p) != []
  {
    forall p
      ensures OpensWithFiring(Log(s.db.events + [e], p))
      ensures Log(s.db.events, p) != [] ==> Log(s.db.events + [e], p) != []
    {
      LogAppend(s.db.events, e, p);
      assert OpensWithFiring(Log(s.db.events, p));
    }
  }

  /** The pair's rule or host is deleted, or its rule goes with a host. */
  predicate Cascades(s: State, st: Step, p: (string, string)) {
    || (st.DeleteRule? && p.0 == st.ruleId)
    || (st.DeleteHost? && (p.1 == st.hostId || (p.0 in s.db.rules && s.db.rules[p.0].hostId == Some(st.hostId))))
  }

  /** A cascade empties the logs of the pairs it reaches and leaves the others alone. */
  lemma CascadeLog(s: State, st: Step, p: (string, string))
    requires Enabled(s, st) && (st.DeleteRule? || st.DeleteHost?)
    ensures Log(Apply(s, st).db.events, p) == if Cascades(s, st, p) then [] else Log(s.db.events, p)
  {
    LogElements(s.db.events, p);
    if st.DeleteRule? {
      KeepOrDrop(s.db.events, (e: Event) => e.ruleId != st.ruleId, p, Cascades(s, st, p));
    } else {
      var gone := set id | id in s.db.rules && s.db.rules[id].hostId == Some(st.hostId);
      KeepOrDrop(s.db.events, (e: Event) => e.hostId != st.hostId && e.ruleId !in gone, p, Cascades(s, st, p));
    }
  }

  lemma KeepOrDrop(events: seq<Event>, keep: Event -> bool, p: (string, string), drop: bool)
    requires forall e :: e in Log(events, p) ==> (keep(e) <==> !drop)
    ensures Log(Filter(events, keep), p) == if drop then [] else Log(events, p)
  {
    FilterCommutes(events, keep, (e: Event) => e.Pair() == p);
    if drop {
      FilterNone(Log(events, p), keep);
    } else {
      FilterAll(Log(events, p), keep);
    }
  }

  /** A pair that a cascade empties is dead from then on. */
  lemma CascadeLeavesDead(s: State, st: Step, p: (string, string))
    requires Inv(s) && Known(s) && Enabled(s, st) && (st.DeleteRule? || st.DeleteHost?)
    requires LoggedOrDead(s, p)
    ensures LoggedOrDead(Apply(s, st), p)
  {
    CascadeLog(s, st, p);
    LogElements(s.db.events, p);
    if Cascades(s, st, p) && Log(s.db.events, p) != [] {
      var e := Log(s.db.events, p)[0];
      assert e in Log(s.db.events, p);
      assert CanStore(s.db, e);
      DeletedIsDead(s, st, p);
    }
  }

  lemma DeletedIsDead(s: State, st: Step, p: (string, string))
    requires Known(s) && Enabled(s, st) && Cascades(s, st, p) && p.0 in s.db.rules && p.1 in s.db.hosts
    ensures Dead(Apply(s, st), p)
  {
  }

  lemma DeleteKeepsOpens(s: State, st: Step)
    requires Inv(s) && Known(s) && Opens(s) && Enabled(s, st) && (st.DeleteRule? || st.DeleteHost?)
    ensures Opens(Apply(s, st))
  {
    var t := Apply(s, st);
    forall p ensures OpensWithFiring(Log(t.db.events, p)) {
      assert OpensWithFiring(Log(s.db.events, p));
      CascadeLog(s, st, p);
    }
    forall p | LoggedOrDead(s, p) ensures LoggedOrDead(t, p) {
      CascadeLeavesDead(s, st, p);
    }
    forall k | k in t.passes ensures PassOpens(t, t.passes[k].pc) {
      assert PassOpens(s, s.passes[k].pc);
    }
  }

  lemma OwnStepKeepsOpens(s: State, st: Step)
    requires Inv(s) && Opens(s) && Enabled(s, st)
    requires st.ReadRules? || st.ReadMetrics? || st.ReadEvents? || st.ReadHost? || st.DecideHost? || st.Evaluate?
    ensures Opens(Apply(s, st))
  {
    var pc := s.passes[st.k].pc;
    assert PassOpens(s, pc);
    assert PassOk(s.db, s.clock, s.passes[st.k]);
    if st.ReadEvents? {
      EventsAnswerOpens(s, pc, st.events);
    } else if st.Evaluate? && pc.todo != [] {
      JobKeepsOpens(s, pc, None);
    } else if st.DecideHost? {
      JobKeepsOpens(s, pc, pc.host);
    }
    var t := Apply(s, st);
    forall k | k in t.passes ensures PassOpens(t, t.passes[k].pc) {
      assert PassOpens(s, t.passes[k].pc);
      assert forall p :: LoggedOrDead(s, p) ==> LoggedOrDead(t, p);
    }
  }

  lemma OtherKeepsOpens(s: State, st: Step)
    requires Inv(s) && Known(s) && Opens(s) && Enabled(s, st)
    requires st.Tick? || st.Wait? || st.Ingest? || st.CreateRule? || st.UpdateRule? || st.CreateHost?
    ensures Opens(Apply(s, st))
  {
    var t := Apply(s, st);
    assert t.db.events == s.db.events;
    StepLaterRules(s, st);
    StepLaterHosts(s, st);
    StepKeepsUsedRules(s, st);
    StepKeepsUsedHosts(s, st);
    assert forall p :: LoggedOrDead(s, p) ==> LoggedOrDead(t, p);
    forall k | k in t.passes ensures PassOpens(t, t.passes[k].pc) {
      if k in s.passes { assert PassOpens(s, s.passes[k].pc); }
    }
  }

  lemma StepKeepsOpens(s: State, st: Step)
    requires Inv(s) && Known(s) && Opens(s) && Enabled(s, st) && !st.Retain?
    ensures Opens(Apply(s, st))
  {
    if st.DeleteRule? || st.DeleteHost? {
      DeleteKeepsOpens(s, st);
    } else if st.Insert? || st.Throw? {
      WriteKeepsOpens(s, st);
    } else if st.Tick? || st.Wait? || st.Ingest? || st.CreateRule? || st.UpdateRule? || st.CreateHost? {
      OtherKeepsOpens(s, st);
    } else {
      OwnStepKeepsOpens(s, st);
    }
  }

  lemma WriteKeepsOpens(s: State, st: Step)
    requires Inv(s) && Opens(s) && Enabled(s, st) && (st.Insert? || st.Throw?)
    ensures Opens(Apply(s, st))
  {
    var pc := s.passes[st.k].pc;
    assert PassOpens(s, pc);
    if pc.Inserting? && CanStore(s.db, pc.event) {
      StoreKeepsOpens(s, pc.event);
    }
  }
}
