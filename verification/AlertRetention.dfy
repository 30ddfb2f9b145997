/** When a pair's log opens with `firing` although retention deletes from its front: exactly, for every
    step and every run. */
module AlertRetention {
  import opened Prelude
  import opened AlertModel
  import opened AlertMachine
  import opened AlertSafety
  import opened AlertOrigins
  import opened AlertPass

  // ---- One retention run -----------------------------------------------------------------------

  /** How many events of the log a run with this cutoff deletes. */
  function Older(log: seq<Event>, cutoff: int): nat {
    |Filter(log, (e: Event) => e.ts < cutoff)|
  }

  lemma KeptBehindOlder(log: seq<Event>, cutoff: int)
    requires Alternating(log)
    ensures Older(log, cutoff) <= |log|
    ensures Filter(log, (e: Event) => e.ts >= cutoff) == log[Older(log, cutoff)..]
  {
    var k := AgedFrom(log, cutoff);
    FilterSplits(log, (e: Event) => e.ts >= cutoff, (e: Event) => e.ts < cutoff);
  }

  lemma {:induction false} StatusByParity(log: seq<Event>, k: nat)
    requires Alternating(log) && k < |log|
    ensures log[k].status == log[0].status <==> k % 2 == 0
  {
    if k == 0 {
    } else {
      StatusByParity(log, k - 1);
      assert log[k - 1].status != log[k].status;
    }
  }

  /** A log from which retention has deleted opens with `firing` exactly when nothing is left of it, or the
      number of deleted events has the right parity. */
  lemma RetainedOpens(log: seq<Event>, cutoff: int)
    requires Alternating(log)
    ensures var kept := Filter(log, (e: Event) => e.ts >= cutoff);
      && (kept == [] <==> Older(log, cutoff) == |log|)
      && (OpensWithFiring(kept) <==> kept == [] || (OpensWithFiring(log) <==> Older(log, cutoff) % 2 == 0))
  {
    var k := Older(log, cutoff);
    KeptBehindOlder(log, cutoff);
    if k < |log| {
      StatusByParity(log, k);
    }
  }

  /** The run deletes an odd number of the pair's events and leaves some. */
  predicate CutsOdd(s: State, cutoff: int, p: (string, string)) {
    var log := Log(s.db.events, p);
    Older(log, cutoff) < |log| && Older(log, cutoff) % 2 == 1
  }

  lemma RetainLog(s: State, mc: int, ec: int, p: (string, string))
    ensures Log(Apply(s, Retain(mc, ec)).db.events, p) == Filter(Log(s.db.events, p), (e: Event) => e.ts >= ec)
  {
    FilterCommutes(s.db.events, (e: Event) => e.ts >= ec, (e: Event) => e.Pair() == p);
  }

  /** In every reachable state: which pairs open with `firing` after a retention run. */
  lemma RetainOpens(s: State, mc: int, ec: int, p: (string, string))
    requires Inv(s)
    ensures var log := Log(s.db.events, p);
      OpensWithFiring(Log(Apply(s, Retain(mc, ec)).db.events, p)) <==>
        (Older(log, ec) == |log| || (OpensWithFiring(log) <==> Older(log, ec) % 2 == 0))
  {
    RetainLog(s, mc, ec, p);
    RetainedOpens(Log(s.db.events, p), ec);
  }

  // ---- Every step ------------------------------------------------------------------------------

  /** The event a step puts into the log, if any. */
  function Stored(s: State, st: Step): Option<Event> {
    if (st.Insert? || (st.Throw? && st.stored)) && st.k in s.passes && s.passes[st.k].pc.Inserting?
       && CanStore(s.db, s.passes[st.k].pc.event)
    then Some(s.passes[st.k].pc.event)
    else None
  }

  /** Whether the pair's log opens with `firing` after the step, from what is known before it. */
  ghost predicate OpensAfter(s: State, st: Step, p: (string, string)) {
    var log := Log(s.db.events, p);
    var stored := Stored(s, st);
    if st.Retain? then
      var older := Older(log, st.eventsCutoff);
      older == |log| || (OpensWithFiring(log) <==> older % 2 == 0)
    else if Cascades(s, st, p) then true
    else if log == [] && stored.Some? && stored.value.Pair() == p then stored.value.status == Firing
    else OpensWithFiring(log)
  }

  lemma StoredIsAppended(s: State, st: Step)
    requires Enabled(s, st) && (st.Insert? || st.Throw?)
    ensures Apply(s, st).db.events == s.db.events + (if Stored(s, st).Some? then [Stored(s, st).value] else [])
  {
  }

  lemma StoreOpens(s: State, st: Step, p: (string, string))
    requires Enabled(s, st) && (st.Insert? || st.Throw?)
    ensures OpensWithFiring(Log(Apply(s, st).db.events, p)) <==> OpensAfter(s, st, p)
  {
    StoredIsAppended(s, st);
    if Stored(s, st).Some? {
      LogAppend(s.db.events, Stored(s, st).value, p);
    } else {
      assert s.db.events + [] == s.db.events;
    }
  }

  /** Every step of every kind, for every pair: no more and no less than this decides. */
  lemma StepOpens(s: State, st: Step, p: (string, string))
    requires Inv(s) && Enabled(s, st)
    ensures OpensWithFiring(Log(Apply(s, st).db.events, p)) <==> OpensAfter(s, st, p)
  {
    if st.Retain? {
      RetainOpens(s, st.metricsCutoff, st.eventsCutoff, p);
    } else if st.Insert? || st.Throw? {
      StoreOpens(s, st, p);
    } else if st.DeleteRule? || st.DeleteHost? {
      CascadeLog(s, st, p);
    } else {
      assert Apply(s, st).db.events == s.db.events;
    }
  }

  // ---- Every run -------------------------------------------------------------------------------

  /** The only two ways to lose the property: retention cuts an odd number of events off a log, or
      `resolved` is written into an empty one. */
  predicate Spoils(s: State, st: Step, p: (string, string)) {
    || (st.Retain? && CutsOdd(s, st.eventsCutoff, p))
    || (Stored(s, st).Some? && Stored(s, st).value.Pair() == p && Stored(s, st).value.status == Resolved
        && Log(s.db.events, p) == [])
  }

  lemma RetainSpoils(s: State, mc: int, ec: int, p: (string, string))
    requires Inv(s) && OpensWithFiring(Log(s.db.events, p))
    ensures CutsOdd(s, ec, p) <==> !OpensWithFiring(Log(Apply(s, Retain(mc, ec)).db.events, p))
  {
    RetainOpens(s, mc, ec, p);
    KeptBehindOlder(Log(s.db.events, p), ec);
  }

  lemma SpoilsMeaning(s: State, st: Step, p: (string, string))
    requires Inv(s) && Enabled(s, st) && OpensWithFiring(Log(s.db.events, p))
    ensures Spoils(s, st, p) <==> !OpensWithFiring(Log(Apply(s, st).db.events, p))
  {
    if st.Retain? {
      RetainSpoils(s, st.metricsCutoff, st.eventsCutoff, p);
    } else {
      StepOpens(s, st, p);
    }
  }

  ghost predicate NeverSpoilt(s: State, steps: seq<Step>, p: (string, string))
    requires ValidRun(s, steps)
    decreases |steps|
  {
    steps == [] || (!Spoils(s, steps[0], p) && NeverSpoilt(Apply(s, steps[0]), steps[1..], p))
  }

  ghost predicate AlwaysOpens(s: State, steps: seq<Step>, p: (string, string))
    requires ValidRun(s, steps)
    decreases |steps|
  {
    OpensWithFiring(Log(s.db.events, p)) && (steps == [] || AlwaysOpens(Apply(s, steps[0]), steps[1..], p))
  }

  /** All through a run the pair's log opens with `firing` exactly when no step of the run spoils it. */
  lemma {:induction false} RunOpens(s: State, steps: seq<Step>, p: (string, string))
    requires Inv(s) && ValidRun(s, steps) && OpensWithFiring(Log(s.db.events, p))
    ensures AlwaysOpens(s, steps, p) <==> NeverSpoilt(s, steps, p)
    decreases |steps|
  {
    if steps == [] {
    } else {
      SpoilsMeaning(s, steps[0], p);
      StepKeepsInv(s, steps[0]);
      if !Spoils(s, steps[0], p) {
        RunOpens(Apply(s, steps[0]), steps[1..], p);
      }
    }
  }

  // ---- When later steps are safe as well -------------------------------------------------------

  /** A pass under way still holds `firing` for the pair: it may come to write `resolved`. */
  ghost predicate HeldBy(pc: Pc, p: (string, string)) {
    && (pc.Walk? || pc.HostRead? || pc.Inserting?)
    && (|| (exists b :: b in pc.todo && b.Pair() == p && Lookup(pc.snap.statuses, p) == Some(Firing))
        || (pc.Inserting? && pc.event.Pair() == p && pc.event.status == Resolved))
  }

  lemma PassOpensMeaning(s: State, pc: Pc)
    ensures PassOpens(s, pc) <==> forall p :: HeldBy(pc, p) ==> LoggedOrDead(s, p)
  {
    if forall p :: HeldBy(pc, p) ==> LoggedOrDead(s, p) {
      if pc.Walk? || pc.HostRead? || pc.Inserting? {
        forall b | b in pc.todo && Lookup(pc.snap.statuses, b.Pair()) == Some(Firing)
          ensures LoggedOrDead(s, b.Pair())
        {
          assert HeldBy(pc, b.Pair());
        }
      }
      if pc.Inserting? && pc.event.status == Resolved {
        assert HeldBy(pc, pc.event.Pair());
      }
    }
  }

  /** The run leaves a pair that some pass still holds at `firing` without events, though its rule and host exist. */
  ghost predicate EmptiesHeld(s: State, cutoff: int, k: nat, p: (string, string))
    requires k in s.passes
  {
    HeldBy(s.passes[k].pc, p) && !Dead(s, p) && Older(Log(s.db.events, p), cutoff) == |Log(s.db.events, p)|
  }

  ghost predicate Harmless(s: State, cutoff: int) {
    && (forall p :: !CutsOdd(s, cutoff, p))
    && (forall k, p :: k in s.passes ==> !EmptiesHeld(s, cutoff, k, p))
  }

  lemma RetainLogged(s: State, mc: int, ec: int, p: (string, string))
    requires Inv(s)
    ensures LoggedOrDead(Apply(s, Retain(mc, ec)), p)
       <==> Dead(s, p) || Older(Log(s.db.events, p), ec) != |Log(s.db.events, p)|
  {
    RetainLog(s, mc, ec, p);
    RetainedOpens(Log(s.db.events, p), ec);
  }

  /** A retention run keeps the invariant behind the property exactly when it cuts no log at an odd place and
      empties none that a pass under way holds at `firing`. */
  lemma RetainKeepsOpens(s: State, mc: int, ec: int)
    requires Inv(s) && Opens(s)
    ensures Opens(Apply(s, Retain(mc, ec))) <==> Harmless(s, ec)
  {
    var t := Apply(s, Retain(mc, ec));
    forall p ensures OpensWithFiring(Log(t.db.events, p)) <==> !CutsOdd(s, ec, p) {
      assert OpensWithFiring(Log(s.db.events, p));
      RetainSpoils(s, mc, ec, p);
    }
    forall k | k in s.passes
      ensures PassOpens(t, s.passes[k].pc) <==> forall p :: !EmptiesHeld(s, ec, k, p)
    {
      PassOpensMeaning(t, s.passes[k].pc);
      forall p ensures EmptiesHeld(s, ec, k, p) <==> HeldBy(s.passes[k].pc, p) && !LoggedOrDead(t, p) {
        RetainLogged(s, mc, ec, p);
      }
    }
  }

  /** Every retention run of the run is harmless when it comes. */
  ghost predicate HarmlessRun(s: State, steps: seq<Step>)
    requires ValidRun(s, steps)
    decreases |steps|
  {
    steps == [] ||
    ((steps[0].Retain? ==> Harmless(s, steps[0].eventsCutoff)) && HarmlessRun(Apply(s, steps[0]), steps[1..]))
  }

  lemma {:induction false} RunKeepsOpens(s: State, steps: seq<Step>)
    requires Inv(s) && Known(s) && Opens(s) && ValidRun(s, steps) && HarmlessRun(s, steps)
    ensures Opens(Exec(s, steps))
    decreases |steps|
  {
    if steps == [] {
    } else {
      StepKeepsInv(s, steps[0]);
      StepKeepsKnown(s, steps[0]);
      if steps[0].Retain? {
        RetainKeepsOpens(s, steps[0].metricsCutoff, steps[0].eventsCutoff);
      } else {
        StepKeepsOpens(s, steps[0]);
      }
      RunKeepsOpens(Apply(s, steps[0]), steps[1..]);
    }
  }

  /** In every run whose retention runs are harmless each pair's log opens with `firing`. */
  lemma LogsOpenWithFiring(s: State, steps: seq<Step>, p: (string, string))
    requires Init(s) && ValidRun(s, steps) && HarmlessRun(s, steps)
    ensures OpensWithFiring(Log(Exec(s, steps).db.events, p))
  {
    RunKeepsOpens(s, steps);
  }

  /** Such as every run without any. */
  lemma {:induction false} NoRetentionIsHarmless(s: State, steps: seq<Step>)
    requires ValidRun(s, steps) && forall st :: st in steps ==> !st.Retain?
    ensures HarmlessRun(s, steps)
    decreases |steps|
  {
    if steps == [] {
    } else {
      assert steps[0] in steps && forall st :: st in steps[1..] ==> st in steps;
      NoRetentionIsHarmless(Apply(s, steps[0]), steps[1..]);
    }
  }

  // ---- The extra case is real ------------------------------------------------------------------

  /** A pass about to write `resolved` for a pair whose log retention empties first: the log is that one event. */
  lemma EmptiedThenResolved(s: State, k: nat, mc: int, ec: int)
    requires Inv(s) && k in s.passes && s.passes[k].pc.Inserting?
    requires var e := s.passes[k].pc.event;
      && e.status == Resolved && CanStore(s.db, e)
      && Older(Log(s.db.events, e.Pair()), ec) == |Log(s.db.events, e.Pair())|
    ensures var e, steps := s.passes[k].pc.event, [Retain(mc, ec), Insert(k)];
      && ValidRun(s, steps) && Log(Exec(s, steps).db.events, e.Pair()) == [e]
      && !OpensWithFiring(Log(Exec(s, steps).db.events, e.Pair()))
  {
    var e := s.passes[k].pc.event;
    RunTwo(s, Retain(mc, ec), Insert(k));
    RetainLog(s, mc, ec, e.Pair());
    RetainedOpens(Log(s.db.events, e.Pair()), ec);
    LogAppend(Apply(s, Retain(mc, ec)).db.events, e, e.Pair());
  }

  /** A pass that has come to a pair it holds at `firing` and whose rule no longer holds, when retention has
      emptied the log in between: the same. */
  lemma EmptiedThenJudged(s: State, k: nat, snap: Snapshot, todo: seq<Job>, mc: int, ec: int)
    requires Inv(s) && k in s.passes && s.passes[k].pc == Walk(snap, todo) && todo != []
    requires todo[0].rule.id in s.db.rules && todo[0].hostId in s.db.hosts
    requires Lookup(snap.statuses, todo[0].Pair()) == Some(Firing)
    requires Verdict(todo[0], s.db.hosts, snap.latest, s.clock) == Some(false)
    requires Older(Log(s.db.events, todo[0].Pair()), ec) == |Log(s.db.events, todo[0].Pair())|
    ensures var steps := [Retain(mc, ec)] + JobSteps(k, todo[0], s.db.hosts, snap, s.clock);
      && ValidRun(s, steps) && !OpensWithFiring(Log(Exec(s, steps).db.events, todo[0].Pair()))
  {
    var t, p := Apply(s, Retain(mc, ec)), todo[0].Pair();
    RunOne(s, Retain(mc, ec));
    JobRun(t, k, snap, todo);
    RunAppend(s, [Retain(mc, ec)], JobSteps(k, todo[0], s.db.hosts, snap, s.clock));
    RetainLog(s, mc, ec, p);
    RetainedOpens(Log(s.db.events, p), ec);
    var e := Event(todo[0].rule.id, todo[0].hostId, s.clock, Resolved);
    assert JobEvents(todo[0], s.db.hosts, snap, s.clock) == [e];
    LogAppend(t.db.events, e, p);
  }
}
