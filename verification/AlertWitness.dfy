/** Concrete runs of the alert engine that show where its guarantees stop. */
module AlertWitness {
  import opened Prelude
  import opened AlertModel
  import opened AlertMachine
  import opened AlertSafety
  import opened AlertPass
  import opened AlertsCron
  import opened AlertQuiet

  const DOWN := Rule("r", Some("h"), "host_down", ">", None, true)
  const P := ("r", "h")

  function Tables(lastSeen: Option<int>, metrics: seq<Metric>, events: seq<Event>): Db {
    Db(map["h" := Host(lastSeen)], map["r" := DOWN], metrics, events)
  }

  function Quiet(clock: int, db: Db): State {
    State(clock, false, map[], db, {"r"}, {"h"})
  }

  const EARLY := Event("r", "h", 1, Firing)
  const LATE := Event("r", "h", 2, Firing)

  /** Two passes that both found no event for the pair and are about to write. */
  function Overlapping(): State {
    var snap := Snapshot(map[], map[]);
    State(2, true, map[0 := Pass(1, Inserting(snap, [], EARLY)), 1 := Pass(2, Inserting(snap, [], LATE))],
          Tables(None, [], []), {"r"}, {"h"})
  }

  /** Without the flag a second pass could start from the same snapshot: two passes, each of them
      in good order on its own, then log `firing` twice in a row. */
  lemma OverlappingPassesRepeat()
    ensures var s := Overlapping();
      && DbOk(s.db, s.clock) && PassOk(s.db, s.clock, s.passes[0]) && PassOk(s.db, s.clock, s.passes[1])
      && ValidRun(s, [Insert(0), Insert(1)])
      && Log(Exec(s, [Insert(0), Insert(1)]).db.events, P) == [EARLY, LATE]
      && !Alternating([EARLY, LATE])
  {
    var s := Overlapping();
    RunTwo(s, Insert(0), Insert(1));
    assert Exec(s, [Insert(0), Insert(1)]).db.events == [] + [EARLY] + [LATE];
    TwoFirings();
  }

  lemma TwoFirings()
    ensures Log([] + [EARLY] + [LATE], P) == [EARLY, LATE] && !Alternating([EARLY, LATE])
  {
    LogAppend([], EARLY, P);
    LogAppend([] + [EARLY], LATE, P);
    assert [EARLY, LATE][0].status == [EARLY, LATE][1].status;
  }

  /** One undisturbed pass over the single host_down rule, tick to end. */
  function PassSteps(k: nat, now: int, db: Db, rows: seq<Event>): seq<Step> {
    StartSteps(k, now, [DOWN], [], rows) + WalkSteps(k, [Job(DOWN, "h")], db.hosts, Seen([], rows), now)
  }

  lemma OneRule(db: Db)
    requires db.rules == map["r" := DOWN]
    ensures RulesAnswer(db, [DOWN]) && !NeedsMetrics([DOWN]) && RuleIds([DOWN]) == {"r"}
    ensures Jobs([DOWN], []) == [Job(DOWN, "h")]
  {
    assert [DOWN][..0] == [] && RuleJobs(DOWN, []) == [Job(DOWN, "h")] && Jobs([], []) == [];
  }

  lemma PassRun(s: State, k: nat, now: int, rows: seq<Event>)
    requires s == Quiet(s.clock, s.db) && now > s.clock
    requires s.db.rules == map["r" := DOWN] && "h" in s.db.hosts
    requires EventsAnswer(s.db, {"r"}, rows)
    ensures var more := JobEvents(Job(DOWN, "h"), s.db.hosts, Seen([], rows), now);
      && ValidRun(s, PassSteps(k, now, s.db, rows))
      && Exec(s, PassSteps(k, now, s.db, rows)) == Quiet(now, s.db.(events := s.db.events + more))
  {
    var jobs, snap := [Job(DOWN, "h")], Seen([], rows);
    var start := StartSteps(k, now, [DOWN], [], rows);
    OneRule(s.db);
    StartRun(s, k, now, [DOWN], [], rows);
    WalkRun(Exec(s, start), k, snap, jobs);
    RunAppend(s, start, WalkSteps(k, jobs, s.db.hosts, snap, now));
    OneJobEvents(jobs[0], s.db.hosts, snap, now);
  }

  lemma OneJobEvents(job: Job, hosts: map<string, Host>, snap: Snapshot, now: int)
    ensures PassEvents([job], hosts, snap, now) == JobEvents(job, hosts, snap, now)
  {
    assert [job][..0] == [] && PassEvents([], hosts, snap, now) == [];
  }

  ghost predicate Reaches(s: State, t: State) {
    exists steps :: ValidRun(s, steps) && Exec(s, steps) == t
  }

  lemma ReachesTransitive(s: State, t: State, u: State)
    requires Reaches(s, t) && Reaches(t, u)
    ensures Reaches(s, u)
  {
    var a :| ValidRun(s, a) && Exec(s, a) == t;
    var b :| ValidRun(t, b) && Exec(t, b) == u;
    RunAppend(s, a, b);
  }

  const FIRED := Event("r", "h", 100_000, Firing)
  const RESOLVED := Event("r", "h", 200_001, Resolved)
  const SAMPLE := Metric("h", 200_000, 0.0, 0.0, 0.0, 0.0)

  /** The host has never been seen, so the first pass fires. */
  lemma FirstPass(s: State)
    requires s == Quiet(0, Tables(None, [], []))
    ensures Reaches(s, Quiet(100_000, Tables(None, [], [FIRED])))
  {
    var steps := PassSteps(0, 100_000, s.db, []);
    PassRun(s, 0, 100_000, []);
    assert [] + [FIRED] == [FIRED];
    assert Exec(s, steps) == Quiet(100_000, Tables(None, [], [FIRED]));
  }

  /** A sample has arrived, so the next pass resolves. */
  lemma SecondPass(s: State)
    requires s == Quiet(100_000, Tables(Some(200_000), [SAMPLE], [FIRED]))
    ensures Reaches(s, Quiet(200_001, Tables(Some(200_000), [SAMPLE], [FIRED] + [RESOLVED])))
  {
    var steps := PassSteps(1, 200_001, s.db, [FIRED]);
    assert EventCovered([FIRED], FIRED);
    PassRun(s, 1, 200_001, [FIRED]);
    assert [FIRED][..0] == [];
    assert Lookup(LatestEvents([FIRED]), P) == Some(Firing);
    assert Exec(s, steps) == Quiet(200_001, Tables(Some(200_000), [SAMPLE], [FIRED] + [RESOLVED]));
  }

  lemma Drop(s: State)
    requires s == Quiet(200_001, Tables(Some(200_000), [SAMPLE], [FIRED] + [RESOLVED]))
    ensures Reaches(s, Quiet(200_001, Tables(Some(200_000), [SAMPLE], [RESOLVED])))
  {
    var drop := Retain(0, 200_001);
    FilterAppend([FIRED], RESOLVED, (e: Event) => e.ts >= 200_001);
    FilterAppend([], FIRED, (e: Event) => e.ts >= 200_001);
    FilterAppend([], SAMPLE, (m: Metric) => m.ts >= 0);
    assert [] + [FIRED] == [FIRED] && [] + [RESOLVED] == [RESOLVED] && [] + [SAMPLE] == [SAMPLE];
    RunOne(s, drop);
    assert Exec(s, [drop]) == Quiet(200_001, Tables(Some(200_000), [SAMPLE], [RESOLVED]));
  }

  lemma Back(s: State)
    requires s == Quiet(100_000, Tables(None, [], [FIRED]))
    ensures Reaches(s, Quiet(100_000, Tables(Some(200_000), [SAMPLE], [FIRED])))
  {
    RunOne(s, Ingest(SAMPLE));
    assert [] + [SAMPLE] == [SAMPLE];
    assert Exec(s, [Ingest(SAMPLE)]) == Quiet(100_000, Tables(Some(200_000), [SAMPLE], [FIRED]));
  }

  /** A reachable log that opens with `resolved`: the host goes down, comes back, and
      retention removes the older of the two events. */
  lemma RetentionMayLeaveResolvedFirst()
    ensures Init(Quiet(0, Tables(None, [], [])))
    ensures Reaches(Quiet(0, Tables(None, [], [])), Quiet(200_001, Tables(Some(200_000), [SAMPLE], [RESOLVED])))
    ensures Log([RESOLVED], P) == [RESOLVED]
  {
    var s0, s1 := Quiet(0, Tables(None, [], [])), Quiet(100_000, Tables(None, [], [FIRED]));
    var s2 := Quiet(100_000, Tables(Some(200_000), [SAMPLE], [FIRED]));
    var s3 := Quiet(200_001, Tables(Some(200_000), [SAMPLE], [FIRED] + [RESOLVED]));
    FirstPass(s0);
    Back(s1);
    SecondPass(s2);
    Drop(s3);
    ReachesTransitive(s0, s1, s2);
    ReachesTransitive(s0, s2, s3);
    ReachesTransitive(s0, s3, Quiet(200_001, Tables(Some(200_000), [SAMPLE], [RESOLVED])));
    LogAppend([], RESOLVED, P);
    assert [] + [RESOLVED] == [RESOLVED];
  }
}
