/** When the agent takes process snapshots, and what that does to the batch limit.
    agent/internal/sampler/sampler.go, agent/internal/service/service.go */
module Schedule {
  import opened Prelude
  import opened Procs
  import opened Sampling
  import opened BatchLimit

  // ---- A run of the sampler --------------------------------------------------------------------

  /** The files Sample cannot do without. */
  predicate Works(k: Kernel) { k.cpu.Some? && k.loads.Some? && k.memory.Some? && k.net.Some? }

  /** lastProcAt after these calls of Sample. */
  function LastProcAfter(cfg: Config, kernels: seq<Kernel>): Option<int> {
    if kernels == [] then None
    else
      var before, k := LastProcAfter(cfg, kernels[..|kernels| - 1]), kernels[|kernels| - 1];
      if Works(k) && k.entries.Some? && Due(cfg, before, k.now) then Some(k.now) else before
  }

  /** Call `i` takes a process snapshot. */
  predicate TakesSnapshot(cfg: Config, kernels: seq<Kernel>, i: nat)
    requires i < |kernels|
  {
    Works(kernels[i]) && kernels[i].entries.Some? && Due(cfg, LastProcAfter(cfg, kernels[..i]), kernels[i].now)
  }

  /** The process list of a snapshot, against some baseline of this run: one without I/O. */
  ghost predicate IsSnapshot(cfg: Config, k: Kernel, processes: seq<ProcInfo>)
    requires k.entries.Some?
  {
    exists prev: map<int, ProcRaw> :: SnapshotFrom(cfg, k, prev, processes)
  }

  ghost predicate SnapshotFrom(cfg: Config, k: Kernel, prev: map<int, ProcRaw>, processes: seq<ProcInfo>)
    requires k.entries.Some?
  {
    && NoBaselineIO(prev)
    && Reported(Listed(k.entries.value, k.pageSize), prev, cfg.processIntervalSec as real, cfg.processTopN,
                k.readings, processes)
  }

  /** Sample `i` of a run: an error, a snapshot, or no processes. */
  ghost predicate SampledAt(cfg: Config, kernels: seq<Kernel>, i: nat, sample: Option<AgentSample>)
    requires i < |kernels|
  {
    && (sample.Some? <==> Works(kernels[i]))
    && (sample.Some? ==>
          if TakesSnapshot(cfg, kernels, i) then IsSnapshot(cfg, kernels[i], sample.value.processes)
          else sample.value.processes == [])
  }

  ghost predicate Sampled(cfg: Config, kernels: seq<Kernel>, samples: seq<Option<AgentSample>>) {
    |samples| == |kernels| && forall i :: 0 <= i < |kernels| ==> SampledAt(cfg, kernels, i, samples[i])
  }

  /** Sample called once for each of these states of the kernel. */
  method SampleAll(sampler: Sampler, kernels: seq<Kernel>, sort: seq<Score> -> seq<Score>)
    returns (samples: seq<Option<AgentSample>>)
    requires SortsDescending(sort)
    requires sampler.lastProcAt == None && NoBaselineIO(sampler.prevProcs)
    modifies sampler
    ensures Sampled(sampler.cfg, kernels, samples)
    ensures sampler.lastProcAt == LastProcAfter(sampler.cfg, kernels) && NoBaselineIO(sampler.prevProcs)
  {
    samples := [];
    for i := 0 to |kernels|
      invariant |samples| == i && forall j :: 0 <= j < i ==> SampledAt(sampler.cfg, kernels, j, samples[j])
      invariant sampler.lastProcAt == LastProcAfter(sampler.cfg, kernels[..i]) && NoBaselineIO(sampler.prevProcs)
    {
      LastProcOneMore(sampler.cfg, kernels, i);
      ghost var prev := sampler.prevProcs;
      var sample := sampler.Sample(kernels[i], sort);
      if sample.Some? && TakesSnapshot(sampler.cfg, kernels, i) {
        assert SnapshotFrom(sampler.cfg, kernels[i], prev, sample.value.processes);
      }
      samples := samples + [sample];
    }
    assert kernels[..|kernels|] == kernels;
  }

  lemma LastProcOneMore(cfg: Config, kernels: seq<Kernel>, i: nat)
    requires i < |kernels|
    ensures LastProcAfter(cfg, kernels[..i + 1])
         == if TakesSnapshot(cfg, kernels, i) then Some(kernels[i].now) else LastProcAfter(cfg, kernels[..i])
  {
    assert kernels[..i + 1][..i] == kernels[..i];
  }

  /** Each I/O rate of a snapshot is a lifetime total over the interval, or zero. */
  lemma SnapshotIOIsLifetime(cfg: Config, k: Kernel, processes: seq<ProcInfo>, i: nat)
    requires k.entries.Some? && IsSnapshot(cfg, k, processes) && cfg.processIntervalSec >= 1 && i < |processes|
    ensures var r, d := k.readings(processes[i].pid), cfg.processIntervalSec as real;
      (processes[i].ioReadBps, processes[i].ioWriteBps) in
        {(LifetimeRate(r.rchar, d), LifetimeRate(r.wchar, d)), (0, 0)}
  {
    var prev: map<int, ProcRaw> :| SnapshotFrom(cfg, k, prev, processes);
    ReportedIOIsLifetime(Listed(k.entries.value, k.pageSize), prev, cfg.processIntervalSec as real, cfg.processTopN,
                         k.readings, processes, i);
  }

  /** For distinct pids a snapshot holds as many processes as it may. */
  lemma SnapshotSize(cfg: Config, k: Kernel, processes: seq<ProcInfo>)
    requires k.entries.Some? && IsSnapshot(cfg, k, processes) && DistinctPids(Listed(k.entries.value, k.pageSize))
    ensures |processes| == Min(cfg.processTopN, |Listed(k.entries.value, k.pageSize)|)
  {
    var all, d := Listed(k.entries.value, k.pageSize), cfg.processIntervalSec as real;
    var prev: map<int, ProcRaw> :| SnapshotFrom(cfg, k, prev, processes);
    var ranked :| Reports(all, ranked, prev, d, cfg.processTopN, k.readings, processes);
    ReportLines(all, ranked, prev, d, cfg.processTopN, k.readings);
  }

  // ---- Snapshots and ticks ---------------------------------------------------------------------

  /** Two calls less than the process interval apart do not both take a snapshot. */
  lemma NoTwoInARow(cfg: Config, kernels: seq<Kernel>, i: nat)
    requires i + 1 < |kernels| && kernels[i + 1].now - kernels[i].now < cfg.processIntervalSec * 1000
    ensures !(TakesSnapshot(cfg, kernels, i) && TakesSnapshot(cfg, kernels, i + 1))
  {
    LastProcOneMore(cfg, kernels, i);
  }

  /** The loop's ticks are those of these samples. */
  ghost predicate TicksOf(ticks: seq<Tick>, samples: seq<Option<AgentSample>>) {
    && |ticks| == |samples|
    && (forall i :: 0 <= i < |ticks| ==> (ticks[i].SampleFailed? <==> samples[i].None?))
    && (forall i :: 0 <= i < |ticks| && ticks[i].Sent? ==> ticks[i].processes == |samples[i].value.processes|)
  }

  ghost predicate AgentTicks(cfg: Config, kernels: seq<Kernel>, ticks: seq<Tick>) {
    exists samples: seq<Option<AgentSample>> :: Sampled(cfg, kernels, samples) && TicksOf(ticks, samples)
  }

  lemma TickCarries(cfg: Config, kernels: seq<Kernel>, ticks: seq<Tick>, i: nat)
    requires AgentTicks(cfg, kernels, ticks) && i < |ticks|
    ensures |ticks| == |kernels|
    ensures ticks[i].Sent? && ticks[i].processes > 0 ==> TakesSnapshot(cfg, kernels, i)
  {
    var samples: seq<Option<AgentSample>> :| Sampled(cfg, kernels, samples) && TicksOf(ticks, samples);
    assert SampledAt(cfg, kernels, i, samples[i]);
  }

  /** With ticks closer together than the process interval, the halving is undone before every snapshot exactly
      when the tick before each snapshot gets through. */
  lemma ScheduleInterleaves(cfg: Config, kernels: seq<Kernel>, ticks: seq<Tick>)
    requires AgentTicks(cfg, kernels, ticks)
    requires forall i :: 0 < i < |kernels| ==> kernels[i].now - kernels[i - 1].now < cfg.processIntervalSec * 1000
    ensures Interleaved(ticks)
       <==> forall i :: 0 < i < |ticks| && ticks[i].Sent? && ticks[i].processes > 0 ==> Accepted(ticks[i - 1])
  {
    forall i | 0 < i < |ticks| && ticks[i].Sent? && ticks[i].processes > 0 && Accepted(ticks[i - 1])
      ensures ticks[i - 1].processes == 0
    {
      TickCarries(cfg, kernels, ticks, i);
      TickCarries(cfg, kernels, ticks, i - 1);
      NoTwoInARow(cfg, kernels, i - 1);
    }
  }

  // ---- The defaults ----------------------------------------------------------------------------

  /** Ticks 10 s apart, with a jitter of less than 5 s; the agent's own is at most 2 s. */
  ghost predicate TenSeconds(kernels: seq<Kernel>) {
    forall i :: 0 < i < |kernels| ==> 10_000 <= kernels[i].now - kernels[i - 1].now < 15_000
  }

  ghost predicate AllReadable(kernels: seq<Kernel>) {
    forall i :: 0 <= i < |kernels| ==> Works(kernels[i]) && kernels[i].entries.Some?
  }

  /** With a process interval of 30 s exactly every third tick takes a snapshot, from the first on. */
  lemma {:induction false} EveryThirdTick(cfg: Config, kernels: seq<Kernel>, i: nat)
    requires cfg.processIntervalSec == 30 && TenSeconds(kernels) && AllReadable(kernels) && i < |kernels|
    ensures TakesSnapshot(cfg, kernels, i) <==> i % 3 == 0
    ensures i > 0 ==> LastProcAfter(cfg, kernels[..i]) == Some(kernels[i - 1 - (i - 1) % 3].now)
  {
    if i == 0 {
    } else {
      EveryThirdTick(cfg, kernels, i - 1);
      LastProcOneMore(cfg, kernels, i - 1);
      if i >= 2 { assert kernels[i - 1].now - kernels[i - 2].now >= 10_000; }
      if i >= 3 { assert kernels[i - 2].now - kernels[i - 3].now >= 10_000; }
    }
  }

  /** A busy host: always at least as many processes as are reported, none listed twice. */
  ghost predicate Busy(cfg: Config, kernels: seq<Kernel>) {
    forall i :: 0 <= i < |kernels| && kernels[i].entries.Some? ==>
      var all := Listed(kernels[i].entries.value, kernels[i].pageSize);
      DistinctPids(all) && |all| >= cfg.processTopN
  }

  lemma DefaultTick(cfg: Config, kernels: seq<Kernel>, ticks: seq<Tick>, i: nat)
    requires cfg.processIntervalSec == 30 && TenSeconds(kernels) && AllReadable(kernels) && Busy(cfg, kernels)
    requires AgentTicks(cfg, kernels, ticks) && i < |ticks| && ticks[i].Sent?
    ensures ticks[i].processes == if i % 3 == 0 then cfg.processTopN else 0
  {
    var samples: seq<Option<AgentSample>> :| Sampled(cfg, kernels, samples) && TicksOf(ticks, samples);
    assert SampledAt(cfg, kernels, i, samples[i]);
    EveryThirdTick(cfg, kernels, i);
    if i % 3 == 0 {
      SnapshotSize(cfg, kernels[i], samples[i].value.processes);
    }
  }

  /** The pattern that gives: a full snapshot, then two ticks without processes. */
  ghost predicate ThirdsFull(topN: nat, ticks: seq<Tick>) {
    forall i :: 0 <= i < |ticks| ==> ticks[i].Sent? && ticks[i].processes == if i % 3 == 0 then topN else 0
  }

  lemma DefaultPattern(cfg: Config, kernels: seq<Kernel>, ticks: seq<Tick>)
    requires cfg.processIntervalSec == 30 && TenSeconds(kernels) && AllReadable(kernels) && Busy(cfg, kernels)
    requires AgentTicks(cfg, kernels, ticks) && forall i :: 0 <= i < |ticks| ==> ticks[i].Sent?
    ensures ThirdsFull(cfg.processTopN, ticks)
  {
    forall i | 0 <= i < |ticks| ensures ticks[i].processes == if i % 3 == 0 then cfg.processTopN else 0 {
      DefaultTick(cfg, kernels, ticks, i);
    }
  }

  ghost predicate AllServed(topN: int, k: nat, ticks: seq<Tick>) {
    forall i :: 0 <= i < |ticks| ==> ServedAt(topN, k, ticks, i)
  }

  lemma {:induction false} PatternStarves(topN: int, k: nat, ticks: seq<Tick>, i: nat)
    requires 1 <= topN <= MAX_INT32 && i < |ticks| && ThirdsFull(topN, ticks) && AllServed(topN, k, ticks)
    ensures Accepted(ticks[i]) <==> i % 3 != 0 || topN <= k
    ensures i % 3 == 0 ==> LimitAt(topN, ticks, i) == topN
  {
    if i > 0 && i % 3 == 0 {
      PatternStarves(topN, k, ticks, i - 1);
    }
    assert ServedAt(topN, k, ticks, i);
    FullOrEmpty(topN, k, ticks, i);
  }

  /** A tick that carries all processes after an accepted one, or none at any time. */
  lemma FullOrEmpty(topN: int, k: nat, ticks: seq<Tick>, i: nat)
    requires 1 <= topN <= MAX_INT32 && i < |ticks| && ServedAt(topN, k, ticks, i)
    requires ticks[i].processes == if i % 3 == 0 then topN else 0
    requires i > 0 && i % 3 == 0 ==> Accepted(ticks[i - 1])
    ensures Accepted(ticks[i]) <==> i % 3 != 0 || topN <= k
    ensures i % 3 == 0 ==> LimitAt(topN, ticks, i) == topN
  {
    AcceptedExactly(topN, k, ticks, i);
    if i % 3 == 0 {
      assert i > 0 ==> ticks[..i][i - 1] == ticks[i - 1];
      LimitIsHalved(topN, ticks[..i]);
    }
  }

  /** On such a host, against a server that takes at most k processes, every run of the default agent goes on for
      ever like this: each tick between snapshots is accepted, and each snapshot exactly if k admits all of it. */
  lemma StarvedForever(cfg: Config, kernels: seq<Kernel>, ticks: seq<Tick>, k: nat, i: nat)
    requires 1 <= cfg.processTopN <= MAX_INT32 && cfg.processIntervalSec == 30
    requires TenSeconds(kernels) && AllReadable(kernels) && Busy(cfg, kernels) && AgentTicks(cfg, kernels, ticks)
    requires i < |ticks| && AllServed(cfg.processTopN, k, ticks)
    ensures Accepted(ticks[i]) <==> i % 3 != 0 || cfg.processTopN <= k
    ensures i % 3 == 0 ==> LimitAt(cfg.processTopN, ticks, i) == cfg.processTopN
  {
    forall j | 0 <= j < |ticks| ensures ticks[j].Sent? {
      assert ServedAt(cfg.processTopN, k, ticks, j);
    }
    DefaultPattern(cfg, kernels, ticks);
    PatternStarves(cfg.processTopN, k, ticks, i);
  }
}
