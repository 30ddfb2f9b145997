/** From a sample to a request body, cut to the batch limit.
    agent/internal/encoder/encoder.go */
module Encoder {
  import opened Procs
  import opened Sampling

  datatype ProcessDTO = ProcessDTO(
    pid: int, name: string, cmd: string, cpuPercent: real, rssMB: real, ioReadBps: int, ioWriteBps: int, state: string)

  datatype IngestBatchDTO = IngestBatchDTO(hostId: string, ts: int, metrics: MetricsSnapshot,
      processes: seq<ProcessDTO>)

  function ToDTO(p: ProcInfo): ProcessDTO {
    ProcessDTO(p.pid, p.name, p.cmd, p.cpuPercent, p.rssMB, p.ioReadBps, p.ioWriteBps, p.state)
  }

  function ToDTOs(ps: seq<ProcInfo>): seq<ProcessDTO> {
    seq(|ps|, i requires 0 <= i < |ps| => ToDTO(ps[i]))
  }

  /** The request says of the process what the sample says. */
  predicate Carries(d: ProcessDTO, p: ProcInfo) {
    && d.pid == p.pid && d.name == p.name && d.cmd == p.cmd && d.state == p.state
    && d.cpuPercent == p.cpuPercent && d.rssMB == p.rssMB
    && d.ioReadBps == p.ioReadBps && d.ioWriteBps == p.ioWriteBps
  }

  /** At most `maxProcs` processes; no limit when it is not positive. */
  function Limited<T>(s: seq<T>, maxProcs: int): seq<T> {
    if maxProcs > 0 && |s| > maxProcs then s[..maxProcs] else s
  }

  method EncodeBatch(hostId: string, sample: AgentSample) returns (dto: IngestBatchDTO)
    ensures dto == IngestBatchDTO(hostId, sample.ts, sample.metrics, ToDTOs(sample.processes))
    ensures |dto.processes| == |sample.processes|
    ensures forall i :: 0 <= i < |dto.processes| ==> Carries(dto.processes[i], sample.processes[i])
  {
    dto := IngestBatchDTO(hostId, sample.ts, sample.metrics, []);
    for i := 0 to |sample.processes|
      invariant dto == IngestBatchDTO(hostId, sample.ts, sample.metrics, ToDTOs(sample.processes)[..i])
    {
      var p := sample.processes[i];
      dto := dto.(processes := dto.processes + [
        ProcessDTO(p.pid, p.name, p.cmd, p.cpuPercent, p.rssMB, p.ioReadBps, p.ioWriteBps, p.state)]);
    }
  }

  method EncodeBatchMaxProcs(hostId: string, sample: AgentSample, maxProcs: int) returns (dto: IngestBatchDTO)
    ensures dto == IngestBatchDTO(hostId, sample.ts, sample.metrics, Limited(ToDTOs(sample.processes), maxProcs))
    ensures |dto.processes| == if 0 < maxProcs < |sample.processes| then maxProcs else |sample.processes|
    ensures forall i :: 0 <= i < |dto.processes| ==> Carries(dto.processes[i], sample.processes[i])
  {
    dto := EncodeBatch(hostId, sample);
    if maxProcs > 0 && |dto.processes| > maxProcs {
      dto := dto.(processes := dto.processes[..maxProcs]);
    }
  }

  /** Encoding the top n at limit k sends the same processes, in the same order, as sampling the top k. */
  lemma EncodingCommutesWithSelection(
      all: seq<ProcRaw>, ranked: seq<Score>, prev: map<int, ProcRaw>, intervalSec: real, k: nat, n: nat,
      readings: int -> Reading)
    requires Ranking(all, prev, intervalSec, ranked) && DistinctPids(all) && 1 <= k <= n
    ensures Limited(ToDTOs(TopInfos(all, ranked, prev, intervalSec, n, readings)), k)
         == ToDTOs(TopInfos(all, ranked, prev, intervalSec, k, readings))
  {
    TruncationCommutes(all, ranked, prev, intervalSec, k, n, readings);
    LimitedDTOs(TopInfos(all, ranked, prev, intervalSec, n, readings), k);
  }

  /** Converting and cutting commute. */
  lemma LimitedDTOs(ps: seq<ProcInfo>, k: int)
    ensures Limited(ToDTOs(ps), k) == ToDTOs(Limited(ps, k))
  {
  }
}
