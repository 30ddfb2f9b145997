/** One sample of the agent: what it carries from one call to the next, and what that makes
    of the reported process I/O.
    agent/internal/sampler/sampler.go, agent/internal/procs/procs.go */
module Sampling {
  import opened Prelude
  import opened Rates
  import opened Procs
  import Division

  datatype Config = Config(intervalSec: int, processIntervalSec: int, processTopN: nat)

  datatype Loads = Loads(load1: real, load5: real, load15: real)

  datatype Memory = Memory(usedMB: real, totalMB: real)

  datatype MetricsSnapshot = MetricsSnapshot(
    cpuTotalPct: real, loads: Loads, memory: Memory, diskUsedPct: real, netRxBps: int, netTxBps: int)

  datatype AgentSample = AgentSample(ts: int, metrics: MetricsSnapshot, processes: seq<ProcInfo>)

  /** A parsed /proc/<pid>/stat line. */
  datatype Stat = Stat(name: string, utime: uint64, stime: uint64, rssPages: uint64, state: string)

  /** A directory of /proc: a pid when the name is a number, a stat when the file could be read. */
  datatype Entry = Entry(pid: Option<int>, stat: Option<Stat>)

  /** What the kernel answers during one call; None is a read error. `now` is in milliseconds. */
  datatype Kernel = Kernel(
    now: int, cpu: Option<CPUStats>, loads: Option<Loads>, memory: Option<Memory>, disk: Option<real>,
    net: Option<NetStats>, entries: Option<seq<Entry>>, pageSize: nat, readings: int -> Reading)

  // ---- TopN ------------------------------------------------------------------------------------

  predicate NoIO(p: ProcRaw) { p.rchar == 0 && p.wchar == 0 }

  /** The cheap first look: no I/O counters and no command line yet, unreadable processes left out. */
  function Listed(entries: seq<Entry>, pageSize: nat): seq<ProcRaw> {
    if entries == [] then []
    else
      var e := entries[|entries| - 1];
      Listed(entries[..|entries| - 1], pageSize) + (if e.pid.Some? && e.stat.Some? then [LiteOf(e, pageSize)] else [])
  }

  function LiteOf(e: Entry, pageSize: nat): ProcRaw
    requires e.pid.Some? && e.stat.Some?
  {
    var s := e.stat.value;
    ProcRaw(e.pid.value, s.name, s.name, s.utime, s.stime, Wrap(s.rssPages * (pageSize / 1024)), 0, 0, s.state)
  }

  /** What the first look says of a readable entry: the command line is the name, and pages are counted in KiB. */
  predicate FirstLook(p: ProcRaw, e: Entry, pageSize: nat)
    requires e.stat.Some?
  {
    var s := e.stat.value;
    && e.pid == Some(p.pid) && p.name == s.name && p.utime == s.utime && p.stime == s.stime && p.state == s.state
    && p.rssKB == s.rssPages * (pageSize / 1024) % 0x1_0000_0000_0000_0000
    && p.cmd == p.name && p.rchar == 0 && p.wchar == 0
  }

  /** One more entry is one more process behind the others if its name is a number and its stat could be read. */
  lemma ListedSnoc(entries: seq<Entry>, e: Entry, pageSize: nat)
    ensures Listed([], pageSize) == []
    ensures var before, list := Listed(entries, pageSize), Listed(entries + [e], pageSize);
      if e.pid.None? || e.stat.None? then list == before
      else |list| == |before| + 1 && list[..|before|] == before && FirstLook(list[|before|], e, pageSize)
  {
    assert (entries + [e])[..|entries|] == entries;
  }

  lemma {:induction false} ListedNoIO(entries: seq<Entry>, pageSize: nat)
    ensures forall p :: p in Listed(entries, pageSize) ==> NoIO(p) && p.cmd == p.name
  {
    if entries == [] {
    } else {
      ListedNoIO(entries[..|entries| - 1], pageSize);
    }
  }

  method CollectAllLite(entries: seq<Entry>, pageSize: nat) returns (list: seq<ProcRaw>)
    ensures list == Listed(entries, pageSize)
  {
    list := [];
    for i := 0 to |entries|
      invariant list == Listed(entries[..i], pageSize)
    {
      assert entries[..i + 1][..i] == entries[..i];
      var e := entries[i];
      if e.pid.None? || e.stat.None? {
        continue;
      }
      var s := e.stat.value;
      var rssKB := Wrap(s.rssPages * (pageSize / 1024));
      list := list + [ProcRaw(e.pid.value, s.name, s.name, s.utime, s.stime, rssKB, 0, 0, s.state)];
    }
    assert entries[..|entries|] == entries;
  }

  /** The map of a snapshot by pid; a later entry replaces an earlier one. */
  function ByPid(list: seq<ProcRaw>): map<int, ProcRaw> {
    if list == [] then map[] else ByPid(list[..|list| - 1])[list[|list| - 1].pid := list[|list| - 1]]
  }

  lemma {:induction false} ByPidEntries(list: seq<ProcRaw>)
    ensures forall pid :: pid in ByPid(list) ==> ByPid(list)[pid] in list && ByPid(list)[pid].pid == pid
    ensures forall p :: p in list ==> p.pid in ByPid(list)
  {
    if list == [] {
    } else {
      ByPidEntries(list[..|list| - 1]);
      assert list == list[..|list| - 1] + [list[|list| - 1]];
    }
  }

  /** The entry of a pid is the last of the list with that pid. */
  lemma {:induction false} ByPidLast(list: seq<ProcRaw>, i: nat)
    requires i < |list| && forall j :: i < j < |list| ==> list[j].pid != list[i].pid
    ensures list[i].pid in ByPid(list) && ByPid(list)[list[i].pid] == list[i]
  {
    if i < |list| - 1 {
      ByPidLast(list[..|list| - 1], i);
    }
  }

  predicate NoBaselineIO(prev: map<int, ProcRaw>) {
    forall pid :: pid in prev ==> NoIO(prev[pid])
  }

  /** `next` is filled before the enrichment writes the I/O counters into the list, so it never holds any. */
  method TopN(prev: map<int, ProcRaw>, intervalSec: real, n: nat, kernel: Kernel, sort: seq<Score> -> seq<Score>)
    returns (out: seq<ProcInfo>, next: map<int, ProcRaw>, failed: bool)
    requires SortsDescending(sort)
    ensures failed <==> kernel.entries.None?
    ensures failed ==> out == [] && next == map[]
    ensures NoBaselineIO(next)
    ensures !failed ==>
      var all := Listed(kernel.entries.value, kernel.pageSize);
      && next == ByPid(all)
      && Reported(all, prev, intervalSec, n, kernel.readings, out)
  {
    if kernel.entries.None? {
      return [], map[], true;
    }
    var listing := CollectAllLite(kernel.entries.value, kernel.pageSize);
    var all := new ProcRaw[|listing|](i requires 0 <= i < |listing| => listing[i]);
    assert all[..] == listing;
    next := map[];
    for i := 0 to all.Length
      invariant next == ByPid(listing[..i])
      invariant all[..] == listing
    {
      assert listing[..i + 1][..i] == listing[..i];
      next := next[all[i].pid := all[i]];
    }
    assert listing[..all.Length] == listing;
    ByPidEntries(listing);
    ListedNoIO(kernel.entries.value, kernel.pageSize);
    out := TopNByCPUAndRSS(all, prev, intervalSec, n, sort, kernel.readings);
    assert Reports(listing, sort(Scores(listing, prev, intervalSec)), prev, intervalSec, n, kernel.readings, out);
    failed := false;
  }

  ghost predicate Reports(
      all: seq<ProcRaw>, ranked: seq<Score>, prev: map<int, ProcRaw>, intervalSec: real, n: nat,
      readings: int -> Reading, out: seq<ProcInfo>)
  {
    && Ranking(all, prev, intervalSec, ranked)
    && (forall p :: p in all ==> NoIO(p))
    && out == TopInfos(all, ranked, prev, intervalSec, n, readings)
  }

  ghost predicate Reported(
      all: seq<ProcRaw>, prev: map<int, ProcRaw>, intervalSec: real, n: nat, readings: int -> Reading,
      out: seq<ProcInfo>)
  {
    exists ranked :: Reports(all, ranked, prev, intervalSec, n, readings, out)
  }

  /** Bytes since boot, or since the process started, spread over one interval. */
  function LifetimeRate(bytes: uint64, intervalSec: real): int
    requires intervalSec > 0.0
  {
    (bytes as real / intervalSec).Floor
  }

  /** With a baseline that holds no I/O the reported rate of a known pid is its lifetime total over
      the interval, not a difference; an unknown pid reports zero. */
  lemma ReportedIOIsLifetime(
      all: seq<ProcRaw>, prev: map<int, ProcRaw>, intervalSec: real, n: nat,
      readings: int -> Reading, out: seq<ProcInfo>, k: nat)
    requires Reported(all, prev, intervalSec, n, readings, out) && NoBaselineIO(prev)
    requires intervalSec > 0.0 && k < |out|
    ensures
      var r := readings(out[k].pid);
      (out[k].ioReadBps, out[k].ioWriteBps) ==
        if out[k].pid in prev then (LifetimeRate(r.rchar, intervalSec), LifetimeRate(r.wchar, intervalSec)) else (0, 0)
  {
    var ranked :| Reports(all, ranked, prev, intervalSec, n, readings, out);
    LineAt(all, ranked, prev, intervalSec, n, readings, k);
  }

  /** The documented delta: what buildProcInfoFromIndices computes against a true baseline. */
  function DeltaRate(before: uint64, after: uint64, intervalSec: real): int
    requires intervalSec > 0.0
  {
    Bps(before, after, intervalSec)
  }

  /** The reported rate equals the documented delta exactly when what was read before the interval
      fits into the remainder the truncation drops. */
  lemma LifetimeEqualsDelta(before: uint64, after: uint64, d: nat)
    requires before <= after && d >= 1
    ensures LifetimeRate(after, d as real) == DeltaRate(before, after, d as real) <==> before <= after % d
  {
    FloorDivides(after, d);
    FloorDivides(after - before, d);
    Division.SameQuotient(after, before, d);
  }

  /** A process that has read 3000 bytes long ago and nothing since: a delta of 0, a report of 100. */
  lemma IdleProcessReportsTraffic()
    ensures DeltaRate(3000, 3000, 30.0) == 0 && LifetimeRate(3000, 30.0) == 100
  {
  }

  /** The zero time before the first snapshot is always long enough ago. */
  predicate Due(cfg: Config, lastProcAt: Option<int>, now: int) {
    lastProcAt.None? || now - lastProcAt.value >= cfg.processIntervalSec * 1000
  }

  // ---- The sampler ---------------------------------------------------------------------------------

  class Sampler {
    const cfg: Config
    var prevCPU: Option<CPUStats>
    var prevNet: Option<NetStats>
    var prevProcs: map<int, ProcRaw>
    var lastProcAt: Option<int>

    constructor (cfg: Config)
      ensures this.cfg == cfg
      ensures prevCPU == None && prevNet == None && prevProcs == map[] && lastProcAt == None
      ensures NoBaselineIO(prevProcs)
    {
      this.cfg := cfg;
      prevCPU, prevNet, prevProcs, lastProcAt := None, None, map[], None;
    }

    predicate ShouldSampleProcs(now: int)
      reads this`lastProcAt
    {
      Due(cfg, lastProcAt, now)
    }

    method Sample(kernel: Kernel, sort: seq<Score> -> seq<Score>) returns (sample: Option<AgentSample>)
      requires SortsDescending(sort)
      modifies this
      // An error keeps what was read so far.
      ensures sample.Some? <==> kernel.cpu.Some? && kernel.loads.Some? && kernel.memory.Some? && kernel.net.Some?
      ensures prevCPU == if kernel.cpu.Some? then kernel.cpu else old(prevCPU)
      ensures prevNet == if sample.Some? then kernel.net else old(prevNet)
      ensures sample.None? ==> prevProcs == old(prevProcs) && lastProcAt == old(lastProcAt)
      ensures sample.Some? ==>
        var m := sample.value.metrics;
        var interval := if cfg.intervalSec <= 0 then 10.0 else cfg.intervalSec as real;
        && sample.value.ts == kernel.now
        && m.loads == kernel.loads.value && m.memory == kernel.memory.value
        && m.cpuTotalPct == (if old(prevCPU).Some? then CPUPercent(old(prevCPU).value, kernel.cpu.value) else 0.0)
        && m.diskUsedPct == (if kernel.disk.Some? then kernel.disk.value else 0.0)
        && (m.netRxBps, m.netTxBps) ==
             (if old(prevNet).Some? then NetBps(old(prevNet).value, kernel.net.value, interval) else (0, 0))
      // Processes come only with a due and readable snapshot; a failed one drops the baseline.
      ensures sample.Some? && !old(ShouldSampleProcs(kernel.now)) ==>
        sample.value.processes == [] && prevProcs == old(prevProcs) && lastProcAt == old(lastProcAt)
      ensures sample.Some? && old(ShouldSampleProcs(kernel.now)) && kernel.entries.None? ==>
        sample.value.processes == [] && prevProcs == map[] && lastProcAt == old(lastProcAt)
      ensures sample.Some? && old(ShouldSampleProcs(kernel.now)) && kernel.entries.Some? ==>
        var all := Listed(kernel.entries.value, kernel.pageSize);
        && lastProcAt == Some(kernel.now) && prevProcs == ByPid(all)
        && Reported(all, old(prevProcs), cfg.processIntervalSec as real, cfg.processTopN, kernel.readings,
                    sample.value.processes)
      ensures old(NoBaselineIO(prevProcs)) ==> NoBaselineIO(prevProcs)
    {
      if kernel.cpu.None? {
        return None;
      }
      var cpuPct := 0.0;
      if prevCPU.Some? {
        cpuPct := CPUPercent(prevCPU.value, kernel.cpu.value);
      }
      prevCPU := kernel.cpu;
      if kernel.loads.None? || kernel.memory.None? {
        return None;
      }
      var diskPct := if kernel.disk.Some? then kernel.disk.value else 0.0;
      if kernel.net.None? {
        return None;
      }
      var intervalSec := cfg.intervalSec as real;
      if intervalSec <= 0.0 {
        intervalSec := 10.0;
      }
      var net := (0, 0);
      if prevNet.Some? {
        net := NetBps(prevNet.value, kernel.net.value, intervalSec);
      }
      prevNet := kernel.net;
      var metrics := MetricsSnapshot(cpuPct, kernel.loads.value, kernel.memory.value, diskPct, net.0, net.1);
      var procsList: seq<ProcInfo> := [];
      if ShouldSampleProcs(kernel.now) {
        var failed;
        procsList, prevProcs, failed := TopN(prevProcs, cfg.processIntervalSec as real, cfg.processTopN, kernel, sort);
        if !failed {
          lastProcAt := Some(kernel.now);
        }
      }
      return Some(AgentSample(kernel.now, metrics, procsList));
    }
  }
}
