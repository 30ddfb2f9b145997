/** One pass with nothing else going on: what it appends, and what the log then says. */
module AlertPass {
  import opened Prelude
  import opened AlertModel
  import opened AlertMachine

  /** The host row a job looks at. */
  function JobHost(hosts: map<string, Host>, job: Job): Option<Host> {
    if job.rule.metric == "host_down" && job.hostId in hosts then Some(hosts[job.hostId]) else None
  }

  function JobEvents(job: Job, hosts: map<string, Host>, snap: Snapshot, now: int): seq<Event> {
    var event := JobEvent(job, snap, JobHost(hosts, job), now);
    if event.None? then [] else [event.value]
  }

  /** The events one undisturbed pass at time `now` appends, job by job. */
  function PassEvents(jobs: seq<Job>, hosts: map<string, Host>, snap: Snapshot, now: int): seq<Event> {
    if jobs == [] then []
    else PassEvents(jobs[..|jobs| - 1], hosts, snap, now) + JobEvents(jobs[|jobs| - 1], hosts, snap, now)
  }

  lemma {:induction false} PassEventsConcat(a: seq<Job>, b: seq<Job>, hosts: map<string, Host>, snap: Snapshot,
      now: int)
    ensures PassEvents(a + b, hosts, snap, now) == PassEvents(a, hosts, snap, now) + PassEvents(b, hosts, snap, now)
  {
    if b == [] {
      assert a + b == a;
    } else {
      assert (a + b)[..|a + b| - 1] == a + b[..|b| - 1];
      PassEventsConcat(a, b[..|b| - 1], hosts, snap, now);
    }
  }

  /** Whether the job's rule holds for its host on this data; None when the pass skips the pair. */
  function Verdict(job: Job, hosts: map<string, Host>, latest: map<string, Metric>, now: int): Option<bool> {
    Holds(job, latest, JobHost(hosts, job), now)
  }

  lemma {:induction false} PassLogUnvisited(
      jobs: seq<Job>, events: seq<Event>, hosts: map<string, Host>, snap: Snapshot, now: int, p: (string, string))
    requires forall i :: 0 <= i < |jobs| ==> jobs[i].Pair() != p
    ensures Log(events + PassEvents(jobs, hosts, snap, now), p) == Log(events, p)
  {
    if jobs == [] {
      assert events + [] == events;
    } else {
      PassLogUnvisited(jobs[..|jobs| - 1], events, hosts, snap, now, p);
      LastJobLog(jobs, events, hosts, snap, now, p);
    }
  }

  lemma {:induction false} PassLogVisited(
      jobs: seq<Job>, k: nat, events: seq<Event>, hosts: map<string, Host>, snap: Snapshot, now: int)
    requires DistinctPairs(jobs) && k < |jobs|
    ensures Log(events + PassEvents(jobs, hosts, snap, now), jobs[k].Pair())
         == Log(events, jobs[k].Pair()) + JobEvents(jobs[k], hosts, snap, now)
  {
    var init := jobs[..|jobs| - 1];
    LastJobLog(jobs, events, hosts, snap, now, jobs[k].Pair());
    if k == |init| {
      PassLogUnvisited(init, events, hosts, snap, now, jobs[k].Pair());
    } else {
      PassLogVisited(init, k, events, hosts, snap, now);
    }
  }

  lemma LastJobLog(jobs: seq<Job>, events: seq<Event>, hosts: map<string, Host>, snap: Snapshot, now: int,
      p: (string, string))
    requires jobs != []
    ensures var last := jobs[|jobs| - 1];
      var before := Log(events + PassEvents(jobs[..|jobs| - 1], hosts, snap, now), p);
      Log(events + PassEvents(jobs, hosts, snap, now), p)
        == if last.Pair() == p then before + JobEvents(last, hosts, snap, now) else before
  {
    var before, more := PassEvents(jobs[..|jobs| - 1], hosts, snap, now), JobEvents(jobs[|jobs| - 1], hosts, snap, now);
    JobLog(events + before, jobs[|jobs| - 1], hosts, snap, now, p);
    assert events + (before + more) == events + before + more;
  }

  lemma PassLog(
      jobs: seq<Job>, events: seq<Event>, hosts: map<string, Host>, snap: Snapshot, now: int, p: (string, string))
    requires DistinctPairs(jobs)
    ensures var after := Log(events + PassEvents(jobs, hosts, snap, now), p);
      && (forall b :: b in jobs && b.Pair() == p ==> after == Log(events, p) + JobEvents(b, hosts, snap, now))
      && ((forall b :: b in jobs ==> b.Pair() != p) ==> after == Log(events, p))
  {
    if forall i :: 0 <= i < |jobs| ==> jobs[i].Pair() != p {
      PassLogUnvisited(jobs, events, hosts, snap, now, p);
    } else {
      var k: nat :| k < |jobs| && jobs[k].Pair() == p;
      PassLogVisited(jobs, k, events, hosts, snap, now);
    }
  }

  /** One job adds its event to the log of its own pair and to no other. */
  lemma JobLog(before: seq<Event>, job: Job, hosts: map<string, Host>, snap: Snapshot, now: int, p: (string, string))
    ensures var more := JobEvents(job, hosts, snap, now);
      Log(before + more, p) == if job.Pair() == p then Log(before, p) + more else Log(before, p)
  {
    var more := JobEvents(job, hosts, snap, now);
    if more == [] {
      assert before + more == before;
    } else {
      LogAppend(before, more[0], p);
    }
  }

  /** The snapshot every job of the pass relies on: for each pair, the status last logged. */
  ghost predicate Faithful(jobs: seq<Job>, events: seq<Event>, statuses: map<string, Status>) {
    forall b :: b in jobs ==> Lookup(statuses, b.Pair()) == LastStatus(Log(events, b.Pair()))
  }

  /** After an undisturbed pass the log says `firing` for exactly the visited pairs whose rule holds;
      a pair gets at most one new event, and a pair that is skipped gets none. */
  lemma PassSettles(jobs: seq<Job>, events: seq<Event>, hosts: map<string, Host>, snap: Snapshot, now: int, b: Job)
    requires DistinctPairs(jobs) && Faithful(jobs, events, snap.statuses) && b in jobs
    ensures
      var before := Log(events, b.Pair());
      var after := Log(events + PassEvents(jobs, hosts, snap, now), b.Pair());
      var verdict := Verdict(b, hosts, snap.latest, now);
      && (verdict.Some? ==> (LastStatus(after) == Some(Firing) <==> verdict.value))
      && (verdict.None? ==> after == before)
      && (after == before || exists e :: after == before + [e] && e.ts == now)
  {
    PassLog(jobs, events, hosts, snap, now, b.Pair());
    JobSettles(Log(events, b.Pair()), b, hosts, snap, now);
  }

  lemma JobSettles(log: seq<Event>, b: Job, hosts: map<string, Host>, snap: Snapshot, now: int)
    requires Lookup(snap.statuses, b.Pair()) == LastStatus(log)
    ensures
      var after := log + JobEvents(b, hosts, snap, now);
      var verdict := Verdict(b, hosts, snap.latest, now);
      && (verdict.Some? ==> (LastStatus(after) == Some(Firing) <==> verdict.value))
      && (verdict.None? ==> after == log)
      && (after == log || exists e :: after == log + [e] && e.ts == now)
  {
    var more := JobEvents(b, hosts, snap, now);
    assert log + [] == log;
    assert more == [] || more == [more[0]];
  }

  /** The pass leaves every log alternating, provided it runs later than what is logged. */
  lemma PassKeepsAlternating(
      jobs: seq<Job>, events: seq<Event>, hosts: map<string, Host>, snap: Snapshot, now: int, p: (string, string))
    requires DistinctPairs(jobs) && Faithful(jobs, events, snap.statuses)
    requires Alternating(Log(events, p)) && forall e :: e in events ==> e.ts < now
    ensures Alternating(Log(events + PassEvents(jobs, hosts, snap, now), p))
  {
    PassLog(jobs, events, hosts, snap, now, p);
    LogElements(events, p);
    var log := Log(events, p);
    forall i | 0 <= i < |log| ensures log[i].ts < now { assert log[i] in log; }
    forall b | b in jobs && b.Pair() == p ensures Alternating(log + JobEvents(b, hosts, snap, now)) {
      JobAlternates(log, b, hosts, snap, now);
    }
  }

  lemma JobAlternates(log: seq<Event>, job: Job, hosts: map<string, Host>, snap: Snapshot, now: int)
    requires Alternating(log) && Lookup(snap.statuses, job.Pair()) == LastStatus(log)
    requires forall i :: 0 <= i < |log| ==> log[i].ts < now
    ensures Alternating(log + JobEvents(job, hosts, snap, now))
  {
  }

  /** A pair the pass does not visit keeps its log. */
  lemma PassLeavesOthers(
      jobs: seq<Job>, events: seq<Event>, hosts: map<string, Host>, snap: Snapshot, now: int, p: (string, string))
    requires DistinctPairs(jobs) && forall b :: b in jobs ==> b.Pair() != p
    ensures Log(events + PassEvents(jobs, hosts, snap, now), p) == Log(events, p)
  {
    PassLog(jobs, events, hosts, snap, now, p);
  }

  /** A second pass over the same data at the same time has nothing to say. */
  lemma {:induction false} SecondPassSilent(
      jobs: seq<Job>, visited: seq<Job>, events: seq<Event>, hosts: map<string, Host>,
      snap: Snapshot, again: map<string, Status>, now: int)
    requires DistinctPairs(jobs) && Faithful(jobs, events, snap.statuses)
    requires Faithful(jobs, events + PassEvents(jobs, hosts, snap, now), again)
    requires forall b :: b in visited ==> b in jobs
    ensures PassEvents(visited, hosts, snap.(statuses := again), now) == []
  {
    if visited == [] {
    } else {
      var init, last := visited[..|visited| - 1], visited[|visited| - 1];
      SecondPassSilent(jobs, init, events, hosts, snap, again, now);
      PassSettles(jobs, events, hosts, snap, now, last);
    }
  }

  // ---- The step system takes the same pass --------------------------------------------------

  lemma {:induction false} RunAppend(s: State, a: seq<Step>, b: seq<Step>)
    requires ValidRun(s, a) && ValidRun(Exec(s, a), b)
    ensures ValidRun(s, a + b) && Exec(s, a + b) == Exec(Exec(s, a), b)
    decreases |a|
  {
    if a == [] {
      assert a + b == b;
    } else {
      assert (a + b)[0] == a[0] && (a + b)[1..] == a[1..] + b;
      RunAppend(Apply(s, a[0]), a[1..], b);
    }
  }

  lemma RunOne(s: State, st: Step)
    requires Enabled(s, st)
    ensures ValidRun(s, [st]) && Exec(s, [st]) == Apply(s, st)
  {
    assert [st][1..] == [];
  }

  lemma RunTwo(s: State, first: Step, second: Step)
    requires Enabled(s, first) && Enabled(Apply(s, first), second)
    ensures ValidRun(s, [first, second]) && Exec(s, [first, second]) == Apply(Apply(s, first), second)
  {
    RunOne(s, first);
    RunOne(Apply(s, first), second);
    RunAppend(s, [first], [second]);
    assert [first] + [second] == [first, second];
  }

  /** The steps of pass `k` for one job, nothing in between. */
  function JobSteps(k: nat, job: Job, hosts: map<string, Host>, snap: Snapshot, now: int): seq<Step> {
    AskSteps(k, job) + (if JobEvents(job, hosts, snap, now) == [] then [] else [Insert(k)])
  }

  function WalkSteps(k: nat, jobs: seq<Job>, hosts: map<string, Host>, snap: Snapshot, now: int): seq<Step> {
    if jobs == [] then [Evaluate(k)]
    else JobSteps(k, jobs[0], hosts, snap, now) + WalkSteps(k, jobs[1..], hosts, snap, now)
  }

  /** Up to the decision: one step for a threshold rule, two for a host-down rule. */
  function AskSteps(k: nat, job: Job): seq<Step> {
    if job.rule.metric == "host_down" then [ReadHost(k), DecideHost(k)] else [Evaluate(k)]
  }

  lemma AskRun(s: State, k: nat, snap: Snapshot, todo: seq<Job>)
    requires k in s.passes && s.passes[k].pc == Walk(snap, todo) && todo != []
    ensures var steps := AskSteps(k, todo[0]);
      && ValidRun(s, steps)
      && Exec(s, steps) == Goto(s, k, AfterJob(snap, todo, JobHost(s.db.hosts, todo[0]), s.clock))
  {
    if todo[0].rule.metric == "host_down" {
      var read := Apply(s, ReadHost(k));
      assert read.passes[k].pc == HostRead(snap, todo, JobHost(s.db.hosts, todo[0]));
      RunTwo(s, ReadHost(k), DecideHost(k));
      assert Apply(read, DecideHost(k)).passes
          == Goto(s, k, AfterJob(snap, todo, JobHost(s.db.hosts, todo[0]), s.clock)).passes;
    } else {
      RunOne(s, Evaluate(k));
    }
  }

  lemma JobRun(s: State, k: nat, snap: Snapshot, todo: seq<Job>)
    requires k in s.passes && s.passes[k].pc == Walk(snap, todo) && todo != []
    requires todo[0].rule.id in s.db.rules && todo[0].hostId in s.db.hosts
    ensures var steps := JobSteps(k, todo[0], s.db.hosts, snap, s.clock);
      && ValidRun(s, steps)
      && Exec(s, steps) == Goto(s, k, Walk(snap, todo[1..])).(
           db := s.db.(events := s.db.events + JobEvents(todo[0], s.db.hosts, snap, s.clock)))
  {
    var asked := AskSteps(k, todo[0]);
    AskRun(s, k, snap, todo);
    var s1 := Exec(s, asked);
    if JobEvents(todo[0], s.db.hosts, snap, s.clock) == [] {
      assert asked + [] == asked && s.db.events + [] == s.db.events;
    } else {
      RunOne(s1, Insert(k));
      RunAppend(s, asked, [Insert(k)]);
      assert Apply(s1, Insert(k)).passes == Goto(s, k, Walk(snap, todo[1..])).passes;
    }
  }

  /** Run without interleaving, the machine's pass appends exactly PassEvents and ends. */
  lemma {:induction false} WalkRun(s: State, k: nat, snap: Snapshot, todo: seq<Job>)
    requires k in s.passes && s.passes[k].pc == Walk(snap, todo)
    requires forall b :: b in todo ==> b.rule.id in s.db.rules && b.hostId in s.db.hosts
    ensures var steps := WalkSteps(k, todo, s.db.hosts, snap, s.clock);
      && ValidRun(s, steps)
      && Exec(s, steps) == EndPass(s, k).(
           db := s.db.(events := s.db.events + PassEvents(todo, s.db.hosts, snap, s.clock)))
    decreases |todo|
  {
    if todo == [] {
      RunOne(s, Evaluate(k));
      assert s.db.events + [] == s.db.events;
    } else {
      assert todo[0] in todo && forall b :: b in todo[1..] ==> b in todo;
      JobRun(s, k, snap, todo);
      var first := JobSteps(k, todo[0], s.db.hosts, snap, s.clock);
      var s1 := Exec(s, first);
      WalkRun(s1, k, snap, todo[1..]);
      RunAppend(s, first, WalkSteps(k, todo[1..], s.db.hosts, snap, s.clock));
      PassEventsSplit(todo, s.db.events, s.db.hosts, snap, s.clock);
      EndLater(s, s1, k, Walk(snap, todo[1..]), JobEvents(todo[0], s.db.hosts, snap, s.clock),
               PassEvents(todo[1..], s.db.hosts, snap, s.clock));
    }
  }

  /** Ending a pass after some events and some more. */
  lemma EndLater(s: State, s1: State, k: nat, pc: Pc, some: seq<Event>, more: seq<Event>)
    requires k in s.passes && s1 == Goto(s, k, pc).(db := s.db.(events := s.db.events + some))
    ensures EndPass(s1, k).(db := s1.db.(events := s1.db.events + more))
         == EndPass(s, k).(db := s.db.(events := s.db.events + some + more))
  {
    assert s1.passes - {k} == s.passes - {k};
  }

  lemma PassEventsSplit(todo: seq<Job>, events: seq<Event>, hosts: map<string, Host>, snap: Snapshot, now: int)
    requires todo != []
    ensures events + PassEvents(todo, hosts, snap, now)
         == events + JobEvents(todo[0], hosts, snap, now) + PassEvents(todo[1..], hosts, snap, now)
  {
    var head := [todo[0]];
    assert todo == head + todo[1..] && head[..0] == [] && PassEvents([], hosts, snap, now) == [];
    PassEventsConcat(head, todo[1..], hosts, snap, now);
    assert PassEvents(head, hosts, snap, now) == JobEvents(todo[0], hosts, snap, now);
    Regroup(events, JobEvents(todo[0], hosts, snap, now), PassEvents(todo[1..], hosts, snap, now));
  }
}
