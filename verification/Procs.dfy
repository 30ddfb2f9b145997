/** Process sampling: score every process, keep the top n, enrich only those, report rates.
    The order sort.Slice produces on ties is not fixed by the source: `sort` stands for any
    function that sorts scores in descending order. float64 is real here.
    agent/internal/procs/procs.go */
module Procs {
  import opened Prelude
  import opened Rates

  const CLK_TCK := 100.0
  const NAME_MAX_LEN := 255

  datatype ProcRaw = ProcRaw(
    pid: int, name: string, cmd: string, utime: uint64, stime: uint64, rssKB: uint64,
    rchar: uint64, wchar: uint64, state: string)

  datatype ProcInfo = ProcInfo(
    pid: int, name: string, cmd: string, cpuPercent: real, rssMB: real, ioReadBps: int, ioWriteBps: int, state: string)

  datatype Score = Score(idx: nat, cpu: real, rss: real, comb: real)

  /** What /proc says about one process at enrichment time. */
  datatype Reading = Reading(rchar: uint64, wchar: uint64, cmdline: string)

  // ---- Scores ------------------------------------------------------------------------------

  function CpuPct(p: ProcRaw, prev: map<int, ProcRaw>, intervalSec: real): real {
    if p.pid in prev && intervalSec > 0.0 then
      var cur, last := Wrap(p.utime + p.stime), Wrap(prev[p.pid].utime + prev[p.pid].stime);
      if cur > last then (cur - last) as real * (100.0 / (CLK_TCK * intervalSec)) else 0.0
    else 0.0
  }

  function RssMB(p: ProcRaw): real { p.rssKB as real / 1024.0 }

  function ScoreOf(all: seq<ProcRaw>, i: nat, prev: map<int, ProcRaw>, intervalSec: real): Score
    requires i < |all|
  {
    var cpu, rss := CpuPct(all[i], prev, intervalSec), RssMB(all[i]);
    Score(i, cpu, rss, cpu + rss / 100.0)
  }

  function Scores(all: seq<ProcRaw>, prev: map<int, ProcRaw>, intervalSec: real): seq<Score> {
    seq(|all|, i requires 0 <= i < |all| => ScoreOf(all, i, prev, intervalSec))
  }

  predicate Descending(s: seq<Score>) {
    forall i, j :: 0 <= i < j < |s| ==> s[i].comb >= s[j].comb
  }

  ghost predicate SortsDescending(sort: seq<Score> -> seq<Score>) {
    forall s :: multiset(sort(s)) == multiset(s) && Descending(sort(s))
  }

  /** Every score names a process. */
  predicate InRange(ranked: seq<Score>, n: nat) {
    forall i :: 0 <= i < |ranked| ==> ranked[i].idx < n
  }

  // ---- Selection ---------------------------------------------------------------------------

  predicate ValidIndices(indices: seq<nat>, n: nat) {
    forall k :: 0 <= k < |indices| ==> indices[k] < n
  }

  function Pids(all: seq<ProcRaw>, indices: seq<nat>): set<int>
    requires ValidIndices(indices, |all|)
  {
    set k | 0 <= k < |indices| :: all[indices[k]].pid
  }

  /** The first `k` ranked processes, leaving out a pid that was already picked. */
  function Picked(all: seq<ProcRaw>, ranked: seq<Score>, k: nat): (r: seq<nat>)
    requires k <= |ranked| && InRange(ranked, |all|)
    ensures ValidIndices(r, |all|)
  {
    if k == 0 then []
    else
      var before, idx := Picked(all, ranked, k - 1), ranked[k - 1].idx;
      if all[idx].pid in Pids(all, before) then before else before + [idx]
  }

  method TopNIndices(all: seq<ProcRaw>, prev: map<int, ProcRaw>, intervalSec: real, n: nat,
      sort: seq<Score> -> seq<Score>)
    returns (indices: seq<nat>)
    requires SortsDescending(sort)
    ensures Ranking(all, prev, intervalSec, sort(Scores(all, prev, intervalSec)))
    ensures indices == Picked(all, sort(Scores(all, prev, intervalSec)), Min(n, |all|))
  {
    var scores := ComputeScores(all, prev, intervalSec);
    SortRanks(all, prev, intervalSec, sort);
    scores := sort(scores);
    indices := PickTop(all, scores, Min(n, |scores|));
  }

  /** The first loop: one score a process. */
  method ComputeScores(all: seq<ProcRaw>, prev: map<int, ProcRaw>, intervalSec: real) returns (scores: seq<Score>)
    ensures scores == Scores(all, prev, intervalSec)
  {
    scores := [];
    var tickMult := 0.0;
    if intervalSec > 0.0 {
      tickMult := 100.0 / (CLK_TCK * intervalSec);
    }
    for i := 0 to |all|
      invariant scores == Scores(all, prev, intervalSec)[..i]
    {
      var p := all[i];
      var cpuPct := 0.0;
      if p.pid in prev && intervalSec > 0.0 {
        var curTicks := Wrap(p.utime + p.stime);
        var prevTicks := Wrap(prev[p.pid].utime + prev[p.pid].stime);
        if curTicks > prevTicks {
          cpuPct := (curTicks - prevTicks) as real * tickMult;
        }
      }
      var rssMB := p.rssKB as real / 1024.0;
      var score := Score(i, cpuPct, rssMB, cpuPct + rssMB / 100.0);
      assert score == ScoreOf(all, i, prev, intervalSec);
      scores := scores + [score];
    }
  }

  /** The last loop: walk down the ranking, skipping pids already seen. */
  method PickTop(all: seq<ProcRaw>, scores: seq<Score>, top: nat) returns (indices: seq<nat>)
    requires top <= |scores| && InRange(scores, |all|)
    ensures indices == Picked(all, scores, top)
  {
    indices := [];
    var seen: set<int> := {};
    for k := 0 to top
      invariant indices == Picked(all, scores, k)
      invariant seen == Pids(all, indices)
    {
      var idx := scores[k].idx;
      if all[idx].pid !in seen {
        PidsAppend(all, indices, idx);
        seen := seen + {all[idx].pid};
        indices := indices + [idx];
      }
    }
  }

  lemma PidsAppend(all: seq<ProcRaw>, indices: seq<nat>, idx: nat)
    requires ValidIndices(indices, |all|) && idx < |all|
    ensures ValidIndices(indices + [idx], |all|)
    ensures Pids(all, indices + [idx]) == Pids(all, indices) + {all[idx].pid}
  {
    var more := indices + [idx];
    assert more[|indices|] == idx && forall k :: 0 <= k < |indices| ==> more[k] == indices[k];
    forall p | p in Pids(all, indices) + {all[idx].pid} ensures p in Pids(all, more) {
      if p in Pids(all, indices) {
        var k :| 0 <= k < |indices| && all[indices[k]].pid == p;
        assert all[more[k]].pid == p;
      } else {
        assert all[more[|indices|]].pid == p;
      }
    }
  }

  // ---- The ranking is a permutation -----------------------------------------------------------

  lemma {:induction false} CountOnce(s: seq<Score>, x: Score)
    requires forall i, j :: 0 <= i < j < |s| ==> s[i] != s[j]
    ensures multiset(s)[x] <= 1
  {
    if s == [] {
    } else {
      var init, last := s[..|s| - 1], s[|s| - 1];
      assert s == init + [last];
      CountOnce(init, x);
      if x == last { assert x !in init; }
    }
  }

  /** What any descending sort makes of the scores: each process once, best first. */
  ghost predicate Ranking(all: seq<ProcRaw>, prev: map<int, ProcRaw>, intervalSec: real, ranked: seq<Score>) {
    && |ranked| == |all| && InRange(ranked, |all|) && Descending(ranked)
    && (forall j :: 0 <= j < |ranked| ==> ranked[j] == ScoreOf(all, ranked[j].idx, prev, intervalSec))
    && (forall i, j :: 0 <= i < j < |ranked| ==> ranked[i].idx != ranked[j].idx)
    && (forall i :: 0 <= i < |all| ==> ScoreOf(all, i, prev, intervalSec) in ranked)
  }

  lemma SortRanks(all: seq<ProcRaw>, prev: map<int, ProcRaw>, intervalSec: real, sort: seq<Score> -> seq<Score>)
    requires SortsDescending(sort)
    ensures Ranking(all, prev, intervalSec, sort(Scores(all, prev, intervalSec)))
  {
    var scores := Scores(all, prev, intervalSec);
    var ranked := sort(scores);
    assert multiset(ranked) == multiset(scores) && |multiset(ranked)| == |multiset(scores)|;
    assert |ranked| == |scores|;
    forall j | 0 <= j < |ranked|
      ensures ranked[j].idx < |all| && ranked[j] == ScoreOf(all, ranked[j].idx, prev, intervalSec)
    {
      assert ranked[j] in multiset(ranked);
      assert ranked[j] in scores;
    }
    forall i, j | 0 <= i < j < |ranked| ensures ranked[i].idx != ranked[j].idx {
      if ranked[i].idx == ranked[j].idx {
        CountOnce(scores, ranked[i]);
        TwiceInMultiset(ranked, i, j);
      }
    }
    forall i | 0 <= i < |all| ensures ScoreOf(all, i, prev, intervalSec) in ranked {
      assert scores[i] in multiset(scores);
    }
  }

  lemma TwiceInMultiset(s: seq<Score>, i: nat, j: nat)
    requires i < j < |s| && s[i] == s[j]
    ensures multiset(s)[s[i]] >= 2
  {
    var a, b := s[..j], s[j..];
    assert s == a + b && a[i] == s[i] && b[0] == s[j];
    assert multiset(s) == multiset(a) + multiset(b);
    assert s[i] in multiset(a) && s[i] in multiset(b);
  }

  predicate DistinctPids(all: seq<ProcRaw>) {
    forall i, j :: 0 <= i < j < |all| ==> all[i].pid != all[j].pid
  }

  /** The first `k` of the ranking, all of them. */
  predicate FirstRanked(picked: seq<nat>, ranked: seq<Score>, k: nat) {
    |picked| == k <= |ranked| && forall j :: 0 <= j < k ==> picked[j] == ranked[j].idx
  }

  lemma NotPickedYet(all: seq<ProcRaw>, ranked: seq<Score>, k: nat, picked: seq<nat>)
    requires k < |ranked| && InRange(ranked, |all|) && DistinctPids(all)
    requires forall i, j :: 0 <= i < j < |ranked| ==> ranked[i].idx != ranked[j].idx
    requires ValidIndices(picked, |all|) && FirstRanked(picked, ranked, k)
    ensures all[ranked[k].idx].pid !in Pids(all, picked)
    ensures FirstRanked(picked + [ranked[k].idx], ranked, k + 1)
  {
    forall j | 0 <= j < k ensures all[picked[j]].pid != all[ranked[k].idx].pid {
      assert ranked[j].idx != ranked[k].idx;
    }
  }

  /** With distinct pids nothing is left out. */
  lemma {:induction false} PickedFirst(all: seq<ProcRaw>, ranked: seq<Score>, k: nat)
    requires k <= |ranked| && InRange(ranked, |all|) && DistinctPids(all)
    requires forall i, j :: 0 <= i < j < |ranked| ==> ranked[i].idx != ranked[j].idx
    ensures FirstRanked(Picked(all, ranked, k), ranked, k)
  {
    if k == 0 {
    } else {
      PickedFirst(all, ranked, k - 1);
      NotPickedYet(all, ranked, k - 1, Picked(all, ranked, k - 1));
    }
  }

  lemma PickedAll(all: seq<ProcRaw>, ranked: seq<Score>, k: nat)
    requires k <= |ranked| && InRange(ranked, |all|) && DistinctPids(all)
    requires forall i, j :: 0 <= i < j < |ranked| ==> ranked[i].idx != ranked[j].idx
    ensures |Picked(all, ranked, k)| == k
    ensures forall j :: 0 <= j < k ==> Picked(all, ranked, k)[j] == ranked[j].idx
  {
    PickedFirst(all, ranked, k);
  }

  predicate PidsDiffer(all: seq<ProcRaw>, picked: seq<nat>)
    requires ValidIndices(picked, |all|)
  {
    forall i, j :: 0 <= i < j < |picked| ==> all[picked[i]].pid != all[picked[j]].pid
  }

  lemma PidsStillDiffer(all: seq<ProcRaw>, picked: seq<nat>, idx: nat)
    requires ValidIndices(picked, |all|) && idx < |all| && PidsDiffer(all, picked)
    requires all[idx].pid !in Pids(all, picked)
    ensures ValidIndices(picked + [idx], |all|) && PidsDiffer(all, picked + [idx])
  {
    forall i | 0 <= i < |picked| ensures all[picked[i]].pid != all[idx].pid {
      assert all[picked[i]].pid in Pids(all, picked);
    }
  }

  /** Whatever the snapshot holds, no pid is picked twice. */
  lemma {:induction false} PickedDistinct(all: seq<ProcRaw>, ranked: seq<Score>, k: nat)
    requires k <= |ranked| && InRange(ranked, |all|)
    ensures |Picked(all, ranked, k)| <= k && PidsDiffer(all, Picked(all, ranked, k))
  {
    if k == 0 {
    } else {
      var before, idx := Picked(all, ranked, k - 1), ranked[k - 1].idx;
      PickedDistinct(all, ranked, k - 1);
      if all[idx].pid !in Pids(all, before) {
        PidsStillDiffer(all, before, idx);
      }
    }
  }

  /** A smaller selection is a prefix of a larger one. */
  lemma {:induction false} PickedPrefix(all: seq<ProcRaw>, ranked: seq<Score>, k: nat, n: nat)
    requires k <= n <= |ranked| && InRange(ranked, |all|)
    ensures Picked(all, ranked, k) <= Picked(all, ranked, n)
  {
    if k < n {
      PickedPrefix(all, ranked, k, n - 1);
      var before := Picked(all, ranked, n - 1);
      assert before <= Picked(all, ranked, n);
    }
  }

  // ---- Enrichment and report --------------------------------------------------------------------

  function Enrich(p: ProcRaw, r: Reading): ProcRaw {
    p.(rchar := r.rchar, wchar := r.wchar, cmd := if r.cmdline != "" then r.cmdline else p.cmd)
  }

  function Enriched(all: seq<ProcRaw>, indices: seq<int>, readings: int -> Reading): seq<ProcRaw> {
    seq(|all|, i requires 0 <= i < |all| => if i in indices then Enrich(all[i], readings(all[i].pid)) else all[i])
  }

  lemma EnrichTwice(p: ProcRaw, r: Reading)
    ensures Enrich(Enrich(p, r), r) == Enrich(p, r) && Enrich(p, r).pid == p.pid
  {
  }

  lemma EnrichedStep(all: seq<ProcRaw>, indices: seq<int>, k: nat, readings: int -> Reading)
    requires k < |indices|
    ensures var before, idx := Enriched(all, indices[..k], readings), indices[k];
      Enriched(all, indices[..k + 1], readings)
        == if 0 <= idx < |all| then before[idx := Enrich(before[idx], readings(before[idx].pid))] else before
  {
    assert indices[..k + 1] == indices[..k] + [indices[k]];
    var before, after := Enriched(all, indices[..k], readings), Enriched(all, indices[..k + 1], readings);
    var idx := indices[k];
    forall i | 0 <= i < |all|
      ensures after[i] == if i == idx then Enrich(before[i], readings(before[i].pid)) else before[i]
    {
      assert i in indices[..k + 1] <==> i in indices[..k] || i == idx;
      EnrichTwice(all[i], readings(all[i].pid));
    }
  }

  method EnrichProcRaw(list: array<ProcRaw>, indices: seq<int>, readings: int -> Reading)
    modifies list
    ensures list[..] == Enriched(old(list[..]), indices, readings)
  {
    for k := 0 to |indices|
      invariant list[..] == Enriched(old(list[..]), indices[..k], readings)
    {
      EnrichedStep(old(list[..]), indices, k, readings);
      var idx := indices[k];
      if idx < 0 || idx >= list.Length {
        continue;
      }
      ghost var before := list[..];
      assert list[idx] == before[idx];
      var reading := readings(list[idx].pid);
      list[idx] := list[idx].(rchar := reading.rchar, wchar := reading.wchar);
      if reading.cmdline != "" {
        list[idx] := list[idx].(cmd := reading.cmdline);
      }
      assert list[..] == before[idx := Enrich(before[idx], readings(before[idx].pid))];
    }
    assert indices[..|indices|] == indices;
  }

  function TruncateName(s: string): string {
    if |s| <= NAME_MAX_LEN then s else s[..NAME_MAX_LEN]
  }

  function IoRate(p: ProcRaw, prev: map<int, ProcRaw>, intervalSec: real): (int, int) {
    if p.pid in prev && intervalSec > 0.0
    then (Bps(prev[p.pid].rchar, p.rchar, intervalSec), Bps(prev[p.pid].wchar, p.wchar, intervalSec))
    else (0, 0)
  }

  function Info(p: ProcRaw, prev: map<int, ProcRaw>, intervalSec: real): ProcInfo {
    var io := IoRate(p, prev, intervalSec);
    var cmd := if TruncateName(p.cmd) == "" then TruncateName(p.name) else TruncateName(p.cmd);
    ProcInfo(p.pid, TruncateName(p.name), cmd, CpuPct(p, prev, intervalSec), RssMB(p), io.0, io.1, p.state)
  }

  function Infos(all: seq<ProcRaw>, indices: seq<nat>, prev: map<int, ProcRaw>, intervalSec: real): seq<ProcInfo>
    requires ValidIndices(indices, |all|)
  {
    seq(|indices|, k requires 0 <= k < |indices| => Info(all[indices[k]], prev, intervalSec))
  }

  method BuildProcInfoFromIndices(all: seq<ProcRaw>, indices: seq<nat>, prev: map<int, ProcRaw>, intervalSec: real)
    returns (result: seq<ProcInfo>)
    requires ValidIndices(indices, |all|)
    ensures result == Infos(all, indices, prev, intervalSec)
  {
    result := [];
    for k := 0 to |indices|
      invariant result == Infos(all, indices, prev, intervalSec)[..k]
    {
      var info := BuildProcInfo(all[indices[k]], prev, intervalSec);
      result := result + [info];
    }
  }

  /** The body of the loop, with its own copy of the CPU formula. */
  method BuildProcInfo(p: ProcRaw, prev: map<int, ProcRaw>, intervalSec: real) returns (info: ProcInfo)
    ensures info == Info(p, prev, intervalSec)
  {
    var tickMult := 0.0;
    if intervalSec > 0.0 {
      tickMult := 100.0 / (CLK_TCK * intervalSec);
    }
    var cpuPct := 0.0;
    if p.pid in prev && intervalSec > 0.0 {
      var curTicks := Wrap(p.utime + p.stime);
      var prevTicks := Wrap(prev[p.pid].utime + prev[p.pid].stime);
      if curTicks > prevTicks {
        cpuPct := (curTicks - prevTicks) as real * tickMult;
      }
    }
    var ioR, ioW := 0, 0;
    if intervalSec > 0.0 && p.pid in prev {
      if p.rchar >= prev[p.pid].rchar {
        ioR := ((p.rchar - prev[p.pid].rchar) as real / intervalSec).Floor;
      }
      if p.wchar >= prev[p.pid].wchar {
        ioW := ((p.wchar - prev[p.pid].wchar) as real / intervalSec).Floor;
      }
    }
    var cmd := TruncateName(p.cmd);
    if cmd == "" {
      cmd := TruncateName(p.name);
    }
    info := ProcInfo(p.pid, TruncateName(p.name), cmd, cpuPct, p.rssKB as real / 1024.0, ioR, ioW, p.state);
  }

  /** The report on the top `n` of a snapshot ranked this way. */
  function TopInfos(
      all: seq<ProcRaw>, ranked: seq<Score>, prev: map<int, ProcRaw>, intervalSec: real, n: nat,
      readings: int -> Reading): seq<ProcInfo>
    requires |ranked| == |all| && InRange(ranked, |all|)
  {
    var indices := Picked(all, ranked, Min(n, |all|));
    Infos(Enriched(all, indices, readings), indices, prev, intervalSec)
  }

  method TopNByCPUAndRSS(
      all: array<ProcRaw>, prev: map<int, ProcRaw>, intervalSec: real, n: nat,
      sort: seq<Score> -> seq<Score>, readings: int -> Reading)
    returns (result: seq<ProcInfo>)
    requires SortsDescending(sort)
    modifies all
    ensures Ranking(old(all[..]), prev, intervalSec, sort(Scores(old(all[..]), prev, intervalSec)))
    ensures result ==
      TopInfos(old(all[..]), sort(Scores(old(all[..]), prev, intervalSec)), prev, intervalSec, n, readings)
    ensures forall line :: line in result ==> DescribesOne(line, old(all[..]), prev, intervalSec, readings)
  {
    var indices := TopNIndices(all[..], prev, intervalSec, n, sort);
    LinesDescribe(all[..], sort(Scores(all[..], prev, intervalSec)), prev, intervalSec, n, readings);
    EnrichProcRaw(all, indices, readings);
    result := BuildProcInfoFromIndices(all[..], indices, prev, intervalSec);
  }

  // ---- What the figures mean ------------------------------------------------------------------------

  /** Hundredths of a second on a CPU since the baseline, per second, in percent: nothing for an unknown process, an
      interval that is not positive, or ticks that did not grow. */
  predicate CpuShare(pct: real, p: ProcRaw, prev: map<int, ProcRaw>, intervalSec: real) {
    if p.pid in prev && intervalSec > 0.0 then
      var now := (p.utime + p.stime) % 0x1_0000_0000_0000_0000;
      var before := (prev[p.pid].utime + prev[p.pid].stime) % 0x1_0000_0000_0000_0000;
      pct * intervalSec == if now > before then (now - before) as real else 0.0
    else pct == 0.0
  }

  lemma TicksPerSecond(ticks: real, intervalSec: real)
    requires intervalSec > 0.0
    ensures ticks * (100.0 / (100.0 * intervalSec)) * intervalSec == ticks
  {
    var inverse := 100.0 / (100.0 * intervalSec);
    Quotient(100.0, 100.0 * intervalSec);
    assert inverse * intervalSec == 1.0;
  }

  lemma CpuPctMeaning(p: ProcRaw, prev: map<int, ProcRaw>, intervalSec: real)
    ensures CpuShare(CpuPct(p, prev, intervalSec), p, prev, intervalSec)
  {
    if p.pid in prev && intervalSec > 0.0 {
      var now: int, before: int := Wrap(p.utime + p.stime), Wrap(prev[p.pid].utime + prev[p.pid].stime);
      TicksPerSecond((now - before) as real, intervalSec);
    }
  }

  /** The score: CPU percent, and a hundredth of the resident megabytes. */
  lemma ScoreMeaning(all: seq<ProcRaw>, i: nat, prev: map<int, ProcRaw>, intervalSec: real)
    requires i < |all|
    ensures var s := ScoreOf(all, i, prev, intervalSec);
      && s.idx == i && CpuShare(s.cpu, all[i], prev, intervalSec) && 1024.0 * s.rss == all[i].rssKB as real
      && s.comb == s.cpu + s.rss / 100.0
  {
    CpuPctMeaning(all[i], prev, intervalSec);
  }

  /** Whole bytes per second since the baseline; none for an unknown process, an interval that is not positive, or a
      counter that went back. */
  predicate IoShare(bps: int, known: bool, before: int, now: int, intervalSec: real) {
    if known && intervalSec > 0.0 && now >= before
    then 0.0 <= (now - before) as real - bps as real * intervalSec < intervalSec
    else bps == 0
  }

  lemma BpsShares(before: uint64, now: uint64, intervalSec: real)
    requires intervalSec > 0.0
    ensures IoShare(Bps(before, now, intervalSec), true, before, now, intervalSec)
  {
    BpsMeaning(before, now, intervalSec);
  }

  /** The line says of the process what the snapshot and the second look said: at most 255 characters of its name and of
      its command line, or the name where that is empty. */
  predicate Describes(line: ProcInfo, p: ProcRaw, r: Reading, prev: map<int, ProcRaw>, intervalSec: real) {
    var known, full := p.pid in prev, if r.cmdline == "" then p.cmd else r.cmdline;
    && line.pid == p.pid && line.state == p.state
    && line.name == (if |p.name| > 255 then p.name[..255] else p.name)
    && line.cmd == (if full == "" then line.name else if |full| > 255 then full[..255] else full)
    && CpuShare(line.cpuPercent, p, prev, intervalSec) && 1024.0 * line.rssMB == p.rssKB as real
    && IoShare(line.ioReadBps, known, if known then prev[p.pid].rchar else 0, r.rchar, intervalSec)
    && IoShare(line.ioWriteBps, known, if known then prev[p.pid].wchar else 0, r.wchar, intervalSec)
  }

  lemma InfoDescribes(p: ProcRaw, r: Reading, prev: map<int, ProcRaw>, intervalSec: real)
    ensures Describes(Info(Enrich(p, r), prev, intervalSec), p, r, prev, intervalSec)
  {
    CpuPctMeaning(p, prev, intervalSec);
    if p.pid in prev && intervalSec > 0.0 {
      BpsShares(prev[p.pid].rchar, r.rchar, intervalSec);
      BpsShares(prev[p.pid].wchar, r.wchar, intervalSec);
    }
  }

  // ---- What the report promises -------------------------------------------------------------------

  function Comb(i: ProcInfo): real { i.cpuPercent + i.rssMB / 100.0 }

  /** Enrichment does not touch what the score is made of. */
  lemma InfoKeepsScore(all: seq<ProcRaw>, i: nat, prev: map<int, ProcRaw>, intervalSec: real, r: Reading)
    requires i < |all|
    ensures Comb(Info(Enrich(all[i], r), prev, intervalSec)) == ScoreOf(all, i, prev, intervalSec).comb
  {
  }

  /** For distinct pids the k-th line reports the k-th ranked process. */
  lemma ReportLines(
      all: seq<ProcRaw>, ranked: seq<Score>, prev: map<int, ProcRaw>, intervalSec: real, n: nat,
      readings: int -> Reading)
    requires Ranking(all, prev, intervalSec, ranked) && DistinctPids(all)
    ensures var out := TopInfos(all, ranked, prev, intervalSec, n, readings);
      && |out| == Min(n, |all|)
      && forall k :: 0 <= k < |out| ==>
           && out[k] == Info(Enrich(all[ranked[k].idx], readings(all[ranked[k].idx].pid)), prev, intervalSec)
           && Comb(out[k]) == ranked[k].comb
  {
    PickedAll(all, ranked, Min(n, |all|));
    forall k | 0 <= k < Min(n, |all|)
      ensures
        var out := TopInfos(all, ranked, prev, intervalSec, n, readings);
        && out[k] == Info(Enrich(all[ranked[k].idx], readings(all[ranked[k].idx].pid)), prev, intervalSec)
        && Comb(out[k]) == ranked[k].comb
    {
      LineAt(all, ranked, prev, intervalSec, n, readings, k);
      InfoKeepsScore(all, ranked[k].idx, prev, intervalSec, readings(all[ranked[k].idx].pid));
    }
  }

  /** Each line reports the enriched process it was picked for. */
  lemma LineAt(
      all: seq<ProcRaw>, ranked: seq<Score>, prev: map<int, ProcRaw>, intervalSec: real, n: nat,
      readings: int -> Reading, k: nat)
    requires |ranked| == |all| && InRange(ranked, |all|)
    requires k < |Picked(all, ranked, Min(n, |all|))|
    ensures var idx := Picked(all, ranked, Min(n, |all|))[k];
      TopInfos(all, ranked, prev, intervalSec, n, readings)[k] ==
        Info(Enrich(all[idx], readings(all[idx].pid)), prev, intervalSec)
  {
    var indices := Picked(all, ranked, Min(n, |all|));
    assert indices[k] in indices;
  }

  /** Each line describes one process of the snapshot. */
  ghost predicate DescribesOne(
      line: ProcInfo, all: seq<ProcRaw>, prev: map<int, ProcRaw>, intervalSec: real, readings: int -> Reading)
  {
    exists a :: 0 <= a < |all| && Describes(line, all[a], readings(all[a].pid), prev, intervalSec)
  }

  lemma LinesDescribe(
      all: seq<ProcRaw>, ranked: seq<Score>, prev: map<int, ProcRaw>, intervalSec: real, n: nat,
      readings: int -> Reading)
    requires |ranked| == |all| && InRange(ranked, |all|)
    ensures forall line :: line in TopInfos(all, ranked, prev, intervalSec, n, readings) ==>
      DescribesOne(line, all, prev, intervalSec, readings)
  {
    var out, picked := TopInfos(all, ranked, prev, intervalSec, n, readings), Picked(all, ranked, Min(n, |all|));
    forall k | 0 <= k < |out| ensures DescribesOne(out[k], all, prev, intervalSec, readings) {
      LineAt(all, ranked, prev, intervalSec, n, readings, k);
      InfoDescribes(all[picked[k]], readings(all[picked[k]].pid), prev, intervalSec);
    }
  }

  /** For distinct pids: min(n, len) distinct processes, in non-increasing order of the reported score,
      and no process left out scores higher than one reported. */
  lemma SelectionIsTopN(
      all: seq<ProcRaw>, ranked: seq<Score>, prev: map<int, ProcRaw>, intervalSec: real, n: nat,
      readings: int -> Reading)
    requires Ranking(all, prev, intervalSec, ranked) && DistinctPids(all)
    ensures var out := TopInfos(all, ranked, prev, intervalSec, n, readings);
      && |out| == Min(n, |all|)
      && (forall i, j :: 0 <= i < j < |out| ==> out[i].pid != out[j].pid && Comb(out[i]) >= Comb(out[j]))
      && (forall i :: 0 <= i < |out| ==> exists a :: 0 <= a < |all| && all[a].pid == out[i].pid)
      && (forall a, i :: 0 <= a < |all| && 0 <= i < |out| && LeftOut(out, all[a].pid) ==>
            Comb(out[i]) >= ScoreOf(all, a, prev, intervalSec).comb)
  {
    var out := TopInfos(all, ranked, prev, intervalSec, n, readings);
    ReportLines(all, ranked, prev, intervalSec, n, readings);
    forall a, i | 0 <= a < |all| && 0 <= i < |out| && LeftOut(out, all[a].pid)
      ensures Comb(out[i]) >= ScoreOf(all, a, prev, intervalSec).comb
    {
      LeftOutRanksLower(all, ranked, prev, intervalSec, n, readings, a, i);
    }
    forall i, j | 0 <= i < j < |out| ensures out[i].pid != out[j].pid && Comb(out[i]) >= Comb(out[j]) {
      assert ranked[i].idx != ranked[j].idx && ranked[i].comb >= ranked[j].comb;
    }
    forall i | 0 <= i < |out| ensures exists a :: 0 <= a < |all| && all[a].pid == out[i].pid {
      assert all[ranked[i].idx].pid == out[i].pid;
    }
  }

  lemma LeftOutRanksLower(
      all: seq<ProcRaw>, ranked: seq<Score>, prev: map<int, ProcRaw>, intervalSec: real, n: nat,
      readings: int -> Reading, a: nat, i: nat)
    requires Ranking(all, prev, intervalSec, ranked) && DistinctPids(all) && a < |all|
    requires i < |TopInfos(all, ranked, prev, intervalSec, n, readings)|
    requires LeftOut(TopInfos(all, ranked, prev, intervalSec, n, readings), all[a].pid)
    ensures Comb(TopInfos(all, ranked, prev, intervalSec, n, readings)[i]) >= ScoreOf(all, a, prev, intervalSec).comb
  {
    var out := TopInfos(all, ranked, prev, intervalSec, n, readings);
    ReportLines(all, ranked, prev, intervalSec, n, readings);
    var s, pid := ScoreOf(all, a, prev, intervalSec), all[a].pid;
    assert s in ranked;
    var j :| 0 <= j < |ranked| && ranked[j] == s;
    assert j < |out| ==> out[j].pid == pid;
  }

  predicate LeftOut(out: seq<ProcInfo>, pid: int) {
    forall j :: 0 <= j < |out| ==> out[j].pid != pid
  }

  /** Repeated pids may shorten the report, never repeat in it. */
  lemma ReportedPidsDistinct(
      all: seq<ProcRaw>, ranked: seq<Score>, prev: map<int, ProcRaw>, intervalSec: real, n: nat,
      readings: int -> Reading)
    requires Ranking(all, prev, intervalSec, ranked)
    ensures var out := TopInfos(all, ranked, prev, intervalSec, n, readings);
      |out| <= n && forall i, j :: 0 <= i < j < |out| ==> out[i].pid != out[j].pid
  {
    PickedDistinct(all, ranked, Min(n, |all|));
    var indices := Picked(all, ranked, Min(n, |all|));
    var out := TopInfos(all, ranked, prev, intervalSec, n, readings);
    forall k | 0 <= k < |out| ensures out[k].pid == all[indices[k]].pid {
      LineAt(all, ranked, prev, intervalSec, n, readings, k);
    }
  }

  /** The report on the top k is the beginning of the report on the top n, as long as the selection of k is. */
  lemma SmallerReport(
      all: seq<ProcRaw>, ranked: seq<Score>, prev: map<int, ProcRaw>, intervalSec: real, k: nat, n: nat,
      readings: int -> Reading)
    requires Ranking(all, prev, intervalSec, ranked) && k <= n
    ensures var full := TopInfos(all, ranked, prev, intervalSec, n, readings);
      var part := TopInfos(all, ranked, prev, intervalSec, k, readings);
      |part| == |Selected(all, ranked, k)| <= Min(k, |full|) && part == full[..|part|]
  {
    var full := TopInfos(all, ranked, prev, intervalSec, n, readings);
    var part := TopInfos(all, ranked, prev, intervalSec, k, readings);
    PickedPrefix(all, ranked, Min(k, |all|), Min(n, |all|));
    PickedDistinct(all, ranked, Min(k, |all|));
    forall i | 0 <= i < |part| ensures part[i] == full[i] {
      LineAt(all, ranked, prev, intervalSec, k, readings, i);
      LineAt(all, ranked, prev, intervalSec, n, readings, i);
    }
  }

  /** What topNIndices selects for `n`. */
  function Selected(all: seq<ProcRaw>, ranked: seq<Score>, n: nat): seq<nat>
    requires |ranked| == |all| && InRange(ranked, |all|)
  {
    Picked(all, ranked, Min(n, |all|))
  }

  /** One of the first `k` ranked processes has this pid. */
  ghost predicate Occurs(all: seq<ProcRaw>, ranked: seq<Score>, k: nat, pid: int)
    requires k <= |ranked| && InRange(ranked, |all|)
  {
    exists i :: 0 <= i < k && all[ranked[i].idx].pid == pid
  }

  /** No pid repeats among the first `k` ranked. */
  ghost predicate NoRepeat(all: seq<ProcRaw>, ranked: seq<Score>, k: nat)
    requires k <= |ranked| && InRange(ranked, |all|)
  {
    forall i, j :: 0 <= i < j < k ==> all[ranked[i].idx].pid != all[ranked[j].idx].pid
  }

  /** Every pid among the first `n` ranked is already among the first `k`. */
  ghost predicate NothingNew(all: seq<ProcRaw>, ranked: seq<Score>, k: nat, n: nat)
    requires k <= n <= |ranked| && InRange(ranked, |all|)
  {
    forall j :: k <= j < n ==> Occurs(all, ranked, k, all[ranked[j].idx].pid)
  }

  /** The pids picked are those that occur. */
  lemma {:induction false} PickedPids(all: seq<ProcRaw>, ranked: seq<Score>, k: nat, pid: int)
    requires k <= |ranked| && InRange(ranked, |all|)
    ensures pid in Pids(all, Picked(all, ranked, k)) <==> Occurs(all, ranked, k, pid)
  {
    if k == 0 {
    } else {
      var before, idx := Picked(all, ranked, k - 1), ranked[k - 1].idx;
      PickedPids(all, ranked, k - 1, pid);
      PidsAppend(all, before, idx);
      assert Occurs(all, ranked, k, pid) <==> Occurs(all, ranked, k - 1, pid) || all[idx].pid == pid;
    }
  }

  /** One more ranked process is picked unless its pid has occurred. */
  lemma PickedGrows(all: seq<ProcRaw>, ranked: seq<Score>, k: nat)
    requires k < |ranked| && InRange(ranked, |all|)
    ensures |Picked(all, ranked, k + 1)|
         == |Picked(all, ranked, k)| + (if Occurs(all, ranked, k, all[ranked[k].idx].pid) then 0 else 1)
  {
    PickedPids(all, ranked, k, all[ranked[k].idx].pid);
  }

  lemma {:induction false} PickedWhole(all: seq<ProcRaw>, ranked: seq<Score>, k: nat)
    requires k <= |ranked| && InRange(ranked, |all|)
    ensures |Picked(all, ranked, k)| <= k && (|Picked(all, ranked, k)| == k <==> NoRepeat(all, ranked, k))
  {
    if k == 0 {
    } else {
      PickedWhole(all, ranked, k - 1);
      PickedGrows(all, ranked, k - 1);
      assert NoRepeat(all, ranked, k) <==>
        NoRepeat(all, ranked, k - 1) && !Occurs(all, ranked, k - 1, all[ranked[k - 1].idx].pid);
    }
  }

  /** NothingNew, one ranked process at a time. */
  ghost predicate AllSeen(all: seq<ProcRaw>, ranked: seq<Score>, k: nat, n: nat)
    requires k <= n <= |ranked| && InRange(ranked, |all|)
  {
    n == k || (AllSeen(all, ranked, k, n - 1) && Occurs(all, ranked, k, all[ranked[n - 1].idx].pid))
  }

  lemma {:induction false} AllSeenMeaning(all: seq<ProcRaw>, ranked: seq<Score>, k: nat, n: nat)
    requires k <= n <= |ranked| && InRange(ranked, |all|)
    ensures AllSeen(all, ranked, k, n) <==> NothingNew(all, ranked, k, n)
  {
    if n > k {
      AllSeenMeaning(all, ranked, k, n - 1);
    }
  }

  lemma {:induction false} PickedStays(all: seq<ProcRaw>, ranked: seq<Score>, k: nat, n: nat)
    requires k <= n <= |ranked| && InRange(ranked, |all|)
    ensures |Picked(all, ranked, k)| <= |Picked(all, ranked, n)|
    ensures |Picked(all, ranked, n)| == |Picked(all, ranked, k)| <==> AllSeen(all, ranked, k, n)
  {
    if n > k {
      PickedStays(all, ranked, k, n - 1);
      PickedGrows(all, ranked, n - 1);
      if |Picked(all, ranked, n - 1)| == |Picked(all, ranked, k)| {
        SamePids(all, ranked, k, n - 1, all[ranked[n - 1].idx].pid);
      }
    }
  }

  lemma SamePids(all: seq<ProcRaw>, ranked: seq<Score>, k: nat, n: nat, pid: int)
    requires k <= n <= |ranked| && InRange(ranked, |all|) && |Picked(all, ranked, k)| == |Picked(all, ranked, n)|
    ensures Occurs(all, ranked, k, pid) <==> Occurs(all, ranked, n, pid)
  {
    PickedPrefix(all, ranked, k, n);
    assert Picked(all, ranked, k) == Picked(all, ranked, n);
    PickedPids(all, ranked, k, pid);
    PickedPids(all, ranked, n, pid);
  }

  /** Cutting the report on the top n down to k is reporting on the top k exactly when no pid repeats among the first k
      ranked, or none of the next, up to n, is new: a repeat shortens only the selection of k. */
  lemma TruncationExactly(
      all: seq<ProcRaw>, ranked: seq<Score>, prev: map<int, ProcRaw>, intervalSec: real, k: nat, n: nat,
      readings: int -> Reading)
    requires Ranking(all, prev, intervalSec, ranked) && k <= n
    ensures var full := TopInfos(all, ranked, prev, intervalSec, n, readings);
      var commutes := (if k < |full| then full[..k] else full) == TopInfos(all, ranked, prev, intervalSec, k, readings);
      var first, last := Min(k, |all|), Min(n, |all|);
      commutes <==> NoRepeat(all, ranked, first) || NothingNew(all, ranked, first, last)
  {
    SmallerReport(all, ranked, prev, intervalSec, k, n, readings);
    PickedWhole(all, ranked, Min(k, |all|));
    PickedStays(all, ranked, Min(k, |all|), Min(n, |all|));
    AllSeenMeaning(all, ranked, Min(k, |all|), Min(n, |all|));
  }

  /** So for distinct pids it always is. */
  lemma TruncationCommutes(
      all: seq<ProcRaw>, ranked: seq<Score>, prev: map<int, ProcRaw>, intervalSec: real, k: nat, n: nat,
      readings: int -> Reading)
    requires Ranking(all, prev, intervalSec, ranked) && DistinctPids(all) && k <= n
    ensures var full := TopInfos(all, ranked, prev, intervalSec, n, readings);
      (if k < |full| then full[..k] else full) == TopInfos(all, ranked, prev, intervalSec, k, readings)
  {
    PickedAll(all, ranked, Min(k, |all|));
    PickedWhole(all, ranked, Min(k, |all|));
    TruncationExactly(all, ranked, prev, intervalSec, k, n, readings);
  }
}
