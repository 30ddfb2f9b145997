/** What every run of the alert engine keeps. */
module AlertSafety {
  import opened Prelude
  import opened AlertModel
  import opened AlertMachine

  // ---- Invariant -------------------------------------------------------------------------

  ghost predicate DbOk(db: Db, clock: int) {
    KeysOk(db, clock) && forall p :: Alternating(Log(db.events, p))
  }

  /** Ids are keys, and every event refers to a rule and a host that exist. */
  ghost predicate KeysOk(db: Db, clock: int) {
    && (forall id :: id in db.rules ==> db.rules[id].id == id && NoColon(id))
    && (forall e :: e in db.events ==> NoColon(e.ruleId) && e.ts <= clock && CanStore(db, e))
  }

  /** The snapshot still tells the truth about a pair the pass has yet to visit. */
  ghost predicate PairCurrent(events: seq<Event>, started: int, statuses: map<string, Status>, p: (string, string)) {
    var log := Log(events, p);
    log != [] ==> Lookup(statuses, p) == LastStatus(log) && log[|log| - 1].ts < started
  }

  ghost predicate TodoOk(events: seq<Event>, started: int, snap: Snapshot, todo: seq<Job>) {
    && DistinctPairs(todo)
    && (forall b :: b in todo ==> NoColon(b.rule.id) && PairCurrent(events, started, snap.statuses, b.Pair()))
  }

  /** Appending `e` keeps its pair's log alternating. */
  ghost predicate MayFollow(events: seq<Event>, e: Event) {
    var log := Log(events, e.Pair());
    log != [] ==> log[|log| - 1].ts < e.ts && log[|log| - 1].status != e.status
  }

  ghost predicate DistinctRules(rules: seq<Rule>) {
    && (forall i, j :: 0 <= i < j < |rules| ==> rules[i].id != rules[j].id)
    && (forall r :: r in rules ==> NoColon(r.id))
  }

  ghost predicate PassOk(db: Db, clock: int, pass: Pass) {
    && pass.started <= clock
    && (pass.pc.AskRules? || pass.pc.AskMetrics? || pass.pc.AskEvents? ==>
          forall e :: e in db.events ==> e.ts < pass.started)
    && match pass.pc
       case AskRules => true
       case AskMetrics(rules) => DistinctRules(rules)
       case AskEvents(rules, rows) =>
         && DistinctRules(rules)
         && (forall i, j :: 0 <= i < j < |rows| ==> rows[i].hostId != rows[j].hostId)
       case Walk(snap, todo) => TodoOk(db.events, pass.started, snap, todo)
       case HostRead(snap, todo, _) => todo != [] && TodoOk(db.events, pass.started, snap, todo)
       case Inserting(snap, todo, e) =>
         && TodoOk(db.events, pass.started, snap, todo)
         && NoColon(e.ruleId) && e.ts <= clock && MayFollow(db.events, e)
         && (forall b :: b in todo ==> b.Pair() != e.Pair())
  }

  /** The flag lets at most one pass be under way. */
  ghost predicate FlagOk(s: State) {
    && (s.isRunning <==> s.passes != map[])
    && (forall j, k :: j in s.passes && k in s.passes ==> j == k)
  }

  ghost predicate Inv(s: State) {
    && DbOk(s.db, s.clock)
    && FlagOk(s)
    && (forall k :: k in s.passes ==> PassOk(s.db, s.clock, s.passes[k]))
  }

  // ---- Rows disappear ----------------------------------------------------------------------

  ghost predicate IsSuffix(part: seq<Event>, log: seq<Event>) {
    exists k :: 0 <= k <= |log| && part == log[k..]
  }

  /** Every pair keeps a suffix of its log: what deletions by age or by cascade do. */
  ghost predicate LogsShrink(before: seq<Event>, after: seq<Event>) {
    && (forall e :: e in after ==> e in before)
    && (forall p :: IsSuffix(Log(after, p), Log(before, p)))
  }

  lemma SuffixSnoc(init: seq<Event>, e: Event, k: nat)
    requires k <= |init|
    ensures (init + [e])[k..] == init[k..] + [e] && IsSuffix(init[k..] + [e], init + [e])
  {
  }

  lemma {:induction false} AgedFrom(log: seq<Event>, cutoff: int) returns (k: nat)
    requires forall i, j :: 0 <= i < j < |log| ==> log[i].ts < log[j].ts
    ensures k <= |log| && Filter(log, (e: Event) => e.ts >= cutoff) == log[k..]
  {
    if log == [] {
      k := 0;
    } else if log[|log| - 1].ts < cutoff {
      FilterNone(log, (e: Event) => e.ts >= cutoff);
      k := |log|;
    } else {
      var init, last := log[..|log| - 1], log[|log| - 1];
      k := AgedFrom(init, cutoff);
      SuffixSnoc(init, last, k);
      assert log == init + [last];
    }
  }

  lemma AgedIsSuffix(log: seq<Event>, cutoff: int)
    requires Alternating(log)
    ensures IsSuffix(Filter(log, (e: Event) => e.ts >= cutoff), log)
  {
    var k := AgedFrom(log, cutoff);
  }

  lemma RetentionShrinks(events: seq<Event>, cutoff: int)
    requires forall p :: Alternating(Log(events, p))
    ensures LogsShrink(events, Filter(events, (e: Event) => e.ts >= cutoff))
  {
    var keep := (e: Event) => e.ts >= cutoff;
    FilterElements(events, keep);
    forall p ensures IsSuffix(Log(Filter(events, keep), p), Log(events, p)) {
      FilterCommutes(events, keep, (e: Event) => e.Pair() == p);
      AgedIsSuffix(Log(events, p), cutoff);
    }
  }

  /** A cascade drops all events of a pair or none. */
  lemma CascadeShrinks(events: seq<Event>, keep: Event -> bool)
    requires forall a: Event, b: Event :: a.Pair() == b.Pair() ==> keep(a) == keep(b)
    ensures LogsShrink(events, Filter(events, keep))
    ensures forall p :: Log(Filter(events, keep), p) == Log(events, p) || Log(Filter(events, keep), p) == []
  {
    FilterElements(events, keep);
    forall p
      ensures Log(Filter(events, keep), p) == Log(events, p) || Log(Filter(events, keep), p) == []
      ensures IsSuffix(Log(Filter(events, keep), p), Log(events, p))
    {
      var log := Log(events, p);
      FilterCommutes(events, keep, (e: Event) => e.Pair() == p);
      LogElements(events, p);
      if log != [] && keep(log[0]) {
        FilterAll(log, keep);
        assert log[0..] == log;
      } else {
        FilterNone(log, keep);
        assert log[|log|..] == [];
      }
    }
  }

  lemma ShrinkKeeps(before: Db, after: Db, clock: int, pass: Pass)
    requires PassOk(before, clock, pass) && LogsShrink(before.events, after.events)
    ensures PassOk(after, clock, pass)
  {
    forall p | |Log(after.events, p)| > 0
      ensures |Log(before.events, p)| > 0
      ensures Log(after.events, p)[|Log(after.events, p)| - 1] == Log(before.events, p)[|Log(before.events, p)| - 1]
    {
      assert IsSuffix(Log(after.events, p), Log(before.events, p));
    }
  }

  lemma ShrinkKeepsAlternating(before: seq<Event>, after: seq<Event>)
    requires LogsShrink(before, after) && forall p :: Alternating(Log(before, p))
    ensures forall p :: Alternating(Log(after, p))
  {
    forall p ensures Alternating(Log(after, p)) {
      assert IsSuffix(Log(after, p), Log(before, p)) && Alternating(Log(before, p));
    }
  }

  // ---- A row is written ----------------------------------------------------------------------

  lemma StoreKeepsLog(events: seq<Event>, e: Event, p: (string, string))
    requires Alternating(Log(events, p)) && MayFollow(events, e)
    ensures Alternating(Log(events + [e], p))
  {
    LogAppend(events, e, p);
    var log := Log(events, p);
    if log != [] {
      assert forall i :: 0 <= i < |log| ==> log[i].ts <= log[|log| - 1].ts;
    }
  }

  lemma StoreKeepsAlternating(events: seq<Event>, e: Event)
    requires MayFollow(events, e) && forall p :: Alternating(Log(events, p))
    ensures forall p :: Alternating(Log(events + [e], p))
  {
    forall p ensures Alternating(Log(events + [e], p)) {
      assert Alternating(Log(events, p));
      if p == e.Pair() {
        StoreKeepsLog(events, e, p);
      } else {
        LogAppend(events, e, p);
      }
    }
  }

  lemma StoreKeepsKeys(db: Db, clock: int, e: Event)
    requires KeysOk(db, clock) && CanStore(db, e) && NoColon(e.ruleId) && e.ts <= clock
    ensures KeysOk(Store(db, e), clock)
  {
  }

  lemma StoreKeepsDb(db: Db, clock: int, e: Event)
    requires DbOk(db, clock) && CanStore(db, e) && NoColon(e.ruleId) && e.ts <= clock && MayFollow(db.events, e)
    ensures DbOk(Store(db, e), clock)
  {
    StoreKeepsAlternating(db.events, e);
    StoreKeepsKeys(db, clock, e);
  }

  lemma StoreKeepsTodo(events: seq<Event>, started: int, snap: Snapshot, todo: seq<Job>, e: Event)
    requires TodoOk(events, started, snap, todo)
    requires forall b :: b in todo ==> b.Pair() != e.Pair()
    ensures TodoOk(events + [e], started, snap, todo)
  {
    forall b | b in todo ensures PairCurrent(events + [e], started, snap.statuses, b.Pair()) {
      LogAppend(events, e, b.Pair());
    }
  }

  // ---- Steps of a pass ------------------------------------------------------------------------

  lemma JobKeepsPass(db: Db, clock: int, pass: Pass, host: Option<Host>)
    requires pass.pc.Walk? || pass.pc.HostRead?
    requires PassOk(db, clock, pass) && pass.pc.todo != []
    ensures PassOk(db, clock, pass.(pc := AfterJob(pass.pc.snap, pass.pc.todo, host, clock)))
  {
    var todo := pass.pc.todo;
    assert todo[0] in todo;
    assert forall i :: 0 < i < |todo| ==> todo[i] in todo;
  }

  lemma EventsAnswerKeepsPass(db: Db, clock: int, pass: Pass, rows: seq<Event>)
    requires DbOk(db, clock) && PassOk(db, clock, pass) && pass.pc.AskEvents?
    requires EventsAnswer(db, RuleIds(pass.pc.rules), rows)
    ensures PassOk(db, clock, pass.(pc :=
      Walk(Snapshot(LatestByHost(pass.pc.rows), LatestEvents(rows)), Jobs(pass.pc.rules, pass.pc.rows))))
  {
    JobsDistinct(pass.pc.rules, pass.pc.rows);
    forall b | b in Jobs(pass.pc.rules, pass.pc.rows)
      ensures NoColon(b.rule.id)
      ensures PairCurrent(db.events, pass.started, LatestEvents(rows), b.Pair())
    {
      SnapshotIsLast(db, RuleIds(pass.pc.rules), rows, b.Pair());
      LogElements(db.events, b.Pair());
      var log := Log(db.events, b.Pair());
      assert log != [] ==> log[|log| - 1] in log;
    }
  }

  /** Steps of a pass other than those that write or end it. */
  lemma ReadKeepsInv(s: State, st: Step)
    requires Inv(s) && Enabled(s, st)
    requires st.ReadRules? || st.ReadMetrics? || st.ReadEvents? || st.ReadHost? || st.DecideHost? || st.Evaluate?
    ensures Inv(Apply(s, st))
  {
    var pass := s.passes[st.k];
    assert PassOk(s.db, s.clock, pass);
    if st.ReadEvents? {
      EventsAnswerKeepsPass(s.db, s.clock, pass, st.events);
    } else if st.Evaluate? && pass.pc.todo != [] {
      JobKeepsPass(s.db, s.clock, pass, None);
    } else if st.DecideHost? {
      JobKeepsPass(s.db, s.clock, pass, pass.pc.host);
    }
  }

  lemma WriteKeepsInv(s: State, st: Step)
    requires Inv(s) && Enabled(s, st) && (st.Insert? || st.Throw?)
    ensures Inv(Apply(s, st))
  {
    var pass := s.passes[st.k];
    assert PassOk(s.db, s.clock, pass);
    if pass.pc.Inserting? && CanStore(s.db, pass.pc.event) {
      StoreKeepsDb(s.db, s.clock, pass.pc.event);
      StoreKeepsTodo(s.db.events, pass.started, pass.pc.snap, pass.pc.todo, pass.pc.event);
    }
  }

  lemma DeleteKeepsInv(s: State, st: Step)
    requires Inv(s) && Enabled(s, st) && (st.Retain? || st.DeleteRule? || st.DeleteHost?)
    ensures Inv(Apply(s, st))
    ensures LogsShrink(s.db.events, Apply(s, st).db.events)
  {
    var t := Apply(s, st);
    match st {
      case Retain(_, cutoff) => RetentionShrinks(s.db.events, cutoff);
      case DeleteRule(id) =>
        CascadeShrinks(s.db.events, (e: Event) => e.ruleId != id);
        FilterElements(s.db.events, (e: Event) => e.ruleId != id);
      case DeleteHost(h) =>
        var gone := set id | id in s.db.rules && s.db.rules[id].hostId == Some(h);
        CascadeShrinks(s.db.events, (e: Event) => e.hostId != h && e.ruleId !in gone);
        FilterElements(s.db.events, (e: Event) => e.hostId != h && e.ruleId !in gone);
    }
    ShrinkKeepsAlternating(s.db.events, t.db.events);
    forall k | k in t.passes ensures PassOk(t.db, t.clock, t.passes[k]) {
      ShrinkKeeps(s.db, t.db, s.clock, s.passes[k]);
    }
  }

  /** Steps that leave the events alone and take nothing away from the referenced tables. */
  lemma TickKeepsInv(s: State, st: Step)
    requires Inv(s) && Enabled(s, st) && st.Tick?
    ensures Inv(Apply(s, st))
  {
    var t := Apply(s, st);
    forall k | k in t.passes ensures PassOk(t.db, t.clock, t.passes[k]) {
      if k in s.passes {
        assert PassOk(s.db, s.clock, s.passes[k]);
      }
    }
  }

  /** The events and the passes under way stay as they are; the clock may move on. */
  lemma QuietKeepsInv(s: State, t: State)
    requires Inv(s) && t.clock >= s.clock && t.db.events == s.db.events
    requires KeysOk(t.db, t.clock) && t.isRunning == s.isRunning && t.passes == s.passes
    ensures Inv(t)
  {
    forall k | k in t.passes ensures PassOk(t.db, t.clock, t.passes[k]) {
      assert PassOk(s.db, s.clock, s.passes[k]);
    }
  }

  lemma OtherKeepsInv(s: State, st: Step)
    requires Inv(s) && Enabled(s, st)
    requires st.Wait? || st.Ingest? || st.CreateRule? || st.UpdateRule? || st.CreateHost?
    ensures Inv(Apply(s, st))
  {
    OtherKeepsKeys(s, st);
    QuietKeepsInv(s, Apply(s, st));
  }

  lemma OtherKeepsKeys(s: State, st: Step)
    requires KeysOk(s.db, s.clock) && Enabled(s, st)
    requires st.Wait? || st.Ingest? || st.CreateRule? || st.UpdateRule? || st.CreateHost?
    ensures var t := Apply(s, st);
      && t.clock >= s.clock && t.db.events == s.db.events && t.isRunning == s.isRunning && t.passes == s.passes
      && KeysOk(t.db, t.clock)
  {
  }

  lemma StepKeepsInv(s: State, st: Step)
    requires Inv(s) && Enabled(s, st)
    ensures Inv(Apply(s, st))
  {
    match st {
      case ReadRules(_, _) => ReadKeepsInv(s, st);
      case ReadMetrics(_, _) => ReadKeepsInv(s, st);
      case ReadEvents(_, _) => ReadKeepsInv(s, st);
      case ReadHost(_) => ReadKeepsInv(s, st);
      case DecideHost(_) => ReadKeepsInv(s, st);
      case Evaluate(_) => ReadKeepsInv(s, st);
      case Insert(_) => WriteKeepsInv(s, st);
      case Throw(_, _) => WriteKeepsInv(s, st);
      case Retain(_, _) => DeleteKeepsInv(s, st);
      case DeleteRule(_) => DeleteKeepsInv(s, st);
      case DeleteHost(_) => DeleteKeepsInv(s, st);
      case Tick(_, _) => TickKeepsInv(s, st);
      case _ => OtherKeepsInv(s, st);
    }
  }

  lemma {:induction false} RunKeepsInv(s: State, steps: seq<Step>)
    requires Inv(s) && ValidRun(s, steps)
    ensures Inv(Exec(s, steps))
    decreases |steps|
  {
    if steps == [] {
    } else {
      StepKeepsInv(s, steps[0]);
      RunKeepsInv(Apply(s, steps[0]), steps[1..]);
    }
  }

  /** In every run the surviving events of every pair, by time, never repeat a status. */
  lemma AlertsAlternate(s: State, steps: seq<Step>, p: (string, string))
    requires Init(s) && ValidRun(s, steps)
    ensures Alternating(Log(Exec(s, steps).db.events, p))
  {
    RunKeepsInv(s, steps);
  }
}
