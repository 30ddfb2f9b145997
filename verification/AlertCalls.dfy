/** The database calls of a pass, counted, and what is logged when one of them throws. */
module AlertCalls {
  import opened Prelude
  import opened AlertModel
  import opened AlertMachine
  import opened AlertPass

  /** Which call of a pass throws, if any; a create that throws may have stored its row (`stored`). */
  datatype Fault = NoFault | At(call: nat, stored: bool)

  predicate Hits(fault: Fault, from: nat, to: nat) { fault.At? && from <= fault.call < to }

  /** Reading the host for a host-down rule, and writing the event if there is one. */
  function JobCalls(job: Job, hosts: map<string, Host>, snap: Snapshot, now: int): nat {
    (if job.rule.metric == "host_down" then 1 else 0) + |JobEvents(job, hosts, snap, now)|
  }

  function PassCalls(jobs: seq<Job>, hosts: map<string, Host>, snap: Snapshot, now: int): nat {
    if jobs == [] then 0
    else PassCalls(jobs[..|jobs| - 1], hosts, snap, now) + JobCalls(jobs[|jobs| - 1], hosts, snap, now)
  }

  lemma {:induction false} PassCallsConcat(a: seq<Job>, b: seq<Job>, hosts: map<string, Host>, snap: Snapshot, now: int)
    ensures PassCalls(a + b, hosts, snap, now) == PassCalls(a, hosts, snap, now) + PassCalls(b, hosts, snap, now)
  {
    if b == [] {
      assert a + b == a;
    } else {
      assert (a + b)[..|a + b| - 1] == a + b[..|b| - 1];
      PassCallsConcat(a, b[..|b| - 1], hosts, snap, now);
    }
  }

  /** The queries a pass starts with. */
  function StartCalls(rules: seq<Rule>): nat {
    1 + (if NeedsMetrics(rules) then 1 else 0) + (if rules != [] then 1 else 0)
  }

  /** All of these events were logged, in order; the first few of them when a call threw. */
  predicate Logged(before: seq<Event>, after: seq<Event>, events: seq<Event>, threw: bool) {
    if threw then
      && |before| <= |after| <= |before| + |events|
      && after == before + events[..|after| - |before|]
    else after == before + events
  }

  lemma LoggedNone(before: seq<Event>, events: seq<Event>)
    ensures Logged(before, before, events, true) && Logged(before, before, [], false)
  {
    assert before + events[..0] == before;
  }

  lemma LoggedThen(a: seq<Event>, b: seq<Event>, c: seq<Event>, some: seq<Event>, more: seq<Event>, threw: bool)
    requires Logged(a, b, some, false) && Logged(b, c, more, threw)
    ensures Logged(a, c, some + more, threw)
  {
    if threw {
      var n: nat := |c| - |b|;
      Regroup(a, some, more[..n]);
      assert (some + more)[..|some| + n] == some + more[..n];
    } else {
      Regroup(a, some, more);
    }
  }

  lemma LoggedSoFar(a: seq<Event>, b: seq<Event>, some: seq<Event>, more: seq<Event>)
    requires Logged(a, b, some, true)
    ensures Logged(a, b, some + more, true)
  {
    var n: nat := |b| - |a|;
    assert (some + more)[..n] == some[..n];
  }

  /** What a pass judges its jobs by, and the call that throws. */
  datatype Setting = Setting(hosts: map<string, Host>, snap: Snapshot, now: int, fault: Fault)
  {
    function Events(jobs: seq<Job>): seq<Event> { PassEvents(jobs, hosts, snap, now) }

    function Calls(jobs: seq<Job>): nat { PassCalls(jobs, hosts, snap, now) }
  }

  /** The log, and the number of calls made so far. */
  datatype Point = Point(events: seq<Event>, calls: nat)

  /** What one part of a pass did between two points. */
  ghost predicate Did(jobs: seq<Job>, ctx: Setting, from: Point, to: Point, threw: bool) {
    && threw == Hits(ctx.fault, from.calls, from.calls + ctx.Calls(jobs))
    && (!threw ==> to.calls == from.calls + ctx.Calls(jobs))
    && Logged(from.events, to.events, ctx.Events(jobs), threw)
  }

  lemma DidNothing(ctx: Setting, at: Point)
    ensures Did([], ctx, at, at, false)
  {
    LoggedNone(at.events, []);
  }

  lemma DidThen(a: seq<Job>, b: seq<Job>, ctx: Setting, p0: Point, p1: Point, p2: Point, threw: bool)
    requires Did(a, ctx, p0, p1, false) && Did(b, ctx, p1, p2, threw)
    ensures Did(a + b, ctx, p0, p2, threw)
  {
    PassCallsConcat(a, b, ctx.hosts, ctx.snap, ctx.now);
    PassEventsConcat(a, b, ctx.hosts, ctx.snap, ctx.now);
    LoggedThen(p0.events, p1.events, p2.events, ctx.Events(a), ctx.Events(b), threw);
  }

  /** A part that threw is where the whole ends. */
  lemma DidStop(a: seq<Job>, b: seq<Job>, ctx: Setting, p0: Point, p1: Point)
    requires Did(a, ctx, p0, p1, true)
    ensures Did(a + b, ctx, p0, p1, true)
  {
    PassCallsConcat(a, b, ctx.hosts, ctx.snap, ctx.now);
    PassEventsConcat(a, b, ctx.hosts, ctx.snap, ctx.now);
    LoggedSoFar(p0.events, p1.events, ctx.Events(a), ctx.Events(b));
  }

  /** One round of a loop over jobs: `a` is done, `b` is next, `c` comes after it. */
  lemma DidRound(a: seq<Job>, b: seq<Job>, c: seq<Job>, ctx: Setting, p0: Point, p1: Point, p2: Point, threw: bool)
    requires Did(a, ctx, p0, p1, false) && Did(b, ctx, p1, p2, threw)
    ensures Did(if threw then a + b + c else a + b, ctx, p0, p2, threw)
  {
    DidThen(a, b, ctx, p0, p1, p2, threw);
    if threw {
      DidStop(a + b, c, ctx, p0, p2);
    }
  }

  lemma OneJob(job: Job, hosts: map<string, Host>, snap: Snapshot, now: int)
    ensures PassEvents([job], hosts, snap, now) == JobEvents(job, hosts, snap, now)
    ensures PassCalls([job], hosts, snap, now) == JobCalls(job, hosts, snap, now)
  {
    assert [job][..0] == [] && PassEvents([], hosts, snap, now) == [];
  }

  lemma {:induction false} JobsPrefix(rules: seq<Rule>, i: nat, rows: seq<Metric>)
    requires i <= |rules|
    ensures Jobs(rules[..i], rows) <= Jobs(rules, rows)
    decreases |rules| - i
  {
    if i == |rules| {
      assert rules[..i] == rules;
    } else {
      JobsPrefix(rules, i + 1, rows);
      assert rules[..i + 1][..i] == rules[..i];
    }
  }

  /** The jobs behind those of the first `i` rules. */
  function JobsFrom(rules: seq<Rule>, i: nat, rows: seq<Metric>): seq<Job>
    requires i <= |rules|
  {
    JobsPrefix(rules, i, rows);
    Jobs(rules, rows)[|Jobs(rules[..i], rows)|..]
  }

  /** Up to rule `i`, rule `i`, and what comes behind it. */
  lemma JobsAround(rules: seq<Rule>, i: nat, rows: seq<Metric>)
    requires i < |rules|
    ensures Jobs(rules[..i + 1], rows) == Jobs(rules[..i], rows) + RuleJobs(rules[i], rows)
    ensures Jobs(rules, rows) == Jobs(rules[..i], rows) + RuleJobs(rules[i], rows) + JobsFrom(rules, i + 1, rows)
  {
    assert rules[..i + 1][..i] == rules[..i];
    JobsPrefix(rules, i + 1, rows);
  }

  lemma {:induction false} PrefixAlternates(events: seq<Event>, more: seq<Event>, n: nat, p: (string, string))
    requires n <= |more| && Alternating(Log(events + more, p))
    ensures Alternating(Log(events + more[..n], p))
  {
    assert events + more == events + more[..n] + more[n..];
    FilterConcat(events + more[..n], more[n..], (e: Event) => e.Pair() == p);
    var log, all := Log(events + more[..n], p), Log(events + more, p);
    assert forall i :: 0 <= i < |log| ==> log[i] == all[i];
  }
}
