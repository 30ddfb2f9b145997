/** Percentages and byte rates from kernel counters. Counters are 64-bit and wrap; float64
    percentages are reals here and byte rates keep their truncation.
    agent/internal/collectors/cpu.go, agent/internal/collectors/net.go */
module Rates {
  const TWO64 := 0x1_0000_0000_0000_0000

  type uint64 = x: int | 0 <= x < TWO64

  datatype CPUStats = CPUStats(
    user: uint64, nice: uint64, system: uint64, idle: uint64, iowait: uint64,
    irq: uint64, softirq: uint64, steal: uint64, guest: uint64, guestNice: uint64)
  {
    function Sum(): nat { user + nice + system + idle + iowait + irq + softirq + steal + guest + guestNice }

    function Total(): uint64 { Wrap(Sum()) }

    function IdleTotal(): uint64 { Wrap(idle + iowait) }

    function Busy(): uint64 { Wrap(Total() - IdleTotal()) }
  }

  /** 64-bit unsigned arithmetic. */
  function Wrap(x: int): uint64 { x % TWO64 }

  lemma WrapSmall(x: int)
    requires 0 <= x < TWO64
    ensures Wrap(x) == x
  {
  }

  /** 100 * busy / total. */
  function Unclamped(busy: int, total: int): (pct: real)
    requires 0 < busy && 0 < total
    ensures pct >= 0.0
  {
    100.0 * busy as real / total as real
  }

  /** The same, clamped at 100. */
  function Share(busy: int, total: int): (pct: real)
    requires 0 < busy && 0 < total
    ensures 0.0 <= pct <= 100.0
  {
    if Unclamped(busy, total) > 100.0 then 100.0 else Unclamped(busy, total)
  }

  function PercentOf(ct: int, pt: int, cb: int, pb: int): (pct: real)
    ensures 0.0 <= pct <= 100.0
  {
    if ct <= pt || cb <= pb then 0.0 else Share(cb - pb, ct - pt)
  }

  function CPUPercent(prev: CPUStats, curr: CPUStats): (pct: real)
    ensures 0.0 <= pct <= 100.0
  {
    PercentOf(curr.Total(), prev.Total(), curr.Busy(), prev.Busy())
  }

  predicate Grows(a: CPUStats, b: CPUStats) {
    && a.user <= b.user && a.nice <= b.nice && a.system <= b.system && a.idle <= b.idle && a.iowait <= b.iowait
    && a.irq <= b.irq && a.softirq <= b.softirq && a.steal <= b.steal
    && a.guest <= b.guest && a.guestNice <= b.guestNice
  }

  lemma Quotient(x: real, t: real)
    requires t > 0.0
    ensures x / t * t == x
  {
  }

  lemma AtMostHundred(x: real, t: real)
    requires t > 0.0 && x <= t
    ensures 100.0 * x / t <= 100.0 && 100.0 * x / t * t == 100.0 * x
  {
    Quotient(100.0 * x, t);
  }

  lemma ShareExact(busy: int, total: int)
    requires 0 < busy <= total
    ensures Share(busy, total) == Unclamped(busy, total)
    ensures Share(busy, total) * total as real == 100.0 * busy as real
  {
    AtMostHundred(busy as real, total as real);
  }

  lemma PercentOfExact(ct: int, pt: int, cb: int, pb: int)
    requires 0 <= cb - pb <= ct - pt
    ensures Weigh(ct, pt, cb, pb) == 100.0 * (cb - pb) as real
    ensures pb < cb ==> pt < ct && PercentOf(ct, pt, cb, pb) == Unclamped(cb - pb, ct - pt)
  {
    if pb < cb {
      ShareExact(cb - pb, ct - pt);
    }
  }

  lemma NoOverflow(a: CPUStats)
    requires a.Sum() < TWO64
    ensures a.Total() == a.user + a.nice + a.system + a.idle + a.iowait + a.irq + a.softirq + a.steal + a.guest
                       + a.guestNice
    ensures a.Busy() == a.user + a.nice + a.system + a.irq + a.softirq + a.steal + a.guest + a.guestNice
    ensures a.Total() == a.Sum()
  {
    WrapSmall(a.Sum());
    assert a.Total() == a.Sum();
    WrapSmall(a.idle + a.iowait);
    assert a.IdleTotal() == a.idle + a.iowait;
    WrapSmall(a.Sum() - a.idle - a.iowait);
  }

  lemma BusyWithinTotal(a: CPUStats, b: CPUStats)
    requires Grows(a, b) && b.Sum() < TWO64
    ensures 0 <= b.Busy() - a.Busy() <= b.Total() - a.Total()
  {
    NoOverflow(a);
    NoOverflow(b);
  }

  function Weigh(ct: int, pt: int, cb: int, pb: int): real {
    PercentOf(ct, pt, cb, pb) * (ct - pt) as real
  }

  /** Ticks of a sample pair weighted by the percentage reported for it. */
  function BusyTerm(a: CPUStats, b: CPUStats): real {
    Weigh(b.Total(), a.Total(), b.Busy(), a.Busy())
  }

  /** Between two samples of growing counters that do not overflow, the percentage is the exact busy share. */
  lemma PercentIsShare(a: CPUStats, b: CPUStats)
    requires Grows(a, b) && b.Sum() < TWO64
    ensures BusyTerm(a, b) == 100.0 * (b.Busy() - a.Busy()) as real
  {
    var ct, pt, cb, pb := b.Total(), a.Total(), b.Busy(), a.Busy();
    BusyWithinTotal(a, b);
    PercentOfExact(ct, pt, cb, pb);
  }

  /** Without overflow, whichever counters grow: the growth of the eight busy counters over that of all ten, in percent
      and at most 100; zero when either did not grow. */
  lemma PercentMeaning(a: CPUStats, b: CPUStats, busy: int, total: int)
    requires a.Sum() < TWO64 && b.Sum() < TWO64
    requires busy == (b.user + b.nice + b.system + b.irq + b.softirq + b.steal + b.guest + b.guestNice)
                     - (a.user + a.nice + a.system + a.irq + a.softirq + a.steal + a.guest + a.guestNice)
    requires total == busy + (b.idle + b.iowait) - (a.idle + a.iowait)
    ensures SharesGrowth(CPUPercent(a, b), busy, total)
  {
    NoOverflow(a);
    NoOverflow(b);
    GrowthShared(a, b, busy, total);
  }

  lemma GrowthShared(a: CPUStats, b: CPUStats, busy: int, total: int)
    requires busy == b.Busy() - a.Busy() && total == b.Total() - a.Total()
    ensures SharesGrowth(CPUPercent(a, b), busy, total)
  {
    PercentOfGrowth(b.Total(), a.Total(), b.Busy(), a.Busy());
  }

  predicate SharesGrowth(pct: real, busy: int, total: int) {
    && (total <= 0 || busy <= 0 ==> pct == 0.0)
    && (0 < busy <= total ==> pct == 100.0 * busy as real / total as real)
    && (0 < total < busy ==> pct == 100.0)
  }

  lemma PercentOfGrowth(ct: int, pt: int, cb: int, pb: int)
    ensures SharesGrowth(PercentOf(ct, pt, cb, pb), cb - pb, ct - pt)
  {
    if 0 < cb - pb <= ct - pt {
      AtMostHundred((cb - pb) as real, (ct - pt) as real);
    } else if 0 < ct - pt < cb - pb {
      AboveHundred((cb - pb) as real, (ct - pt) as real);
    }
  }

  lemma AboveHundred(x: real, t: real)
    requires 0.0 < t < x
    ensures 100.0 * x / t > 100.0
  {
    var y := 100.0 * x / t;
    Quotient(100.0 * x, t);
    Product(y, 100.0, t);
  }

  /** For growing counters the clamp at 100 never cuts anything off. */
  lemma ClampNeverFires(a: CPUStats, b: CPUStats)
    requires Grows(a, b) && b.Sum() < TWO64 && a.Total() < b.Total() && a.Busy() < b.Busy()
    ensures CPUPercent(a, b) == Unclamped(b.Busy() - a.Busy(), b.Total() - a.Total())
  {
    BusyWithinTotal(a, b);
    PercentOfExact(b.Total(), a.Total(), b.Busy(), a.Busy());
  }

  /** Sum over a run of percentage times elapsed ticks. */
  function Weighted(samples: seq<CPUStats>): real {
    if |samples| < 2 then 0.0
    else
      Weighted(samples[..|samples| - 1]) + BusyTerm(samples[|samples| - 2], samples[|samples| - 1])
  }

  /** The reported percentages account for all busy ticks of the run, no more and no less. */
  lemma {:induction false} PercentagesConserveBusyTicks(samples: seq<CPUStats>)
    requires samples != []
    requires forall i :: 0 <= i < |samples| ==> samples[i].Sum() < TWO64
    requires forall i, j :: 0 <= i < j < |samples| ==> Grows(samples[i], samples[j])
    ensures Weighted(samples) == 100.0 * (samples[|samples| - 1].Busy() - samples[0].Busy()) as real
    ensures var first, last := samples[0], samples[|samples| - 1];
      && last.Busy() == last.user + last.nice + last.system + last.irq + last.softirq + last.steal + last.guest
                        + last.guestNice
      && first.Busy() == first.user + first.nice + first.system + first.irq + first.softirq + first.steal
                         + first.guest + first.guestNice
  {
    NoOverflow(samples[0]);
    NoOverflow(samples[|samples| - 1]);
    if |samples| >= 2 {
      PercentagesConserveBusyTicks(samples[..|samples| - 1]);
      PercentIsShare(samples[|samples| - 2], samples[|samples| - 1]);
    }
  }

  datatype NetStats = NetStats(rxBytes: uint64, rxPackets: uint64, txBytes: uint64, txPackets: uint64)

  /** Bytes per second, truncated; a counter that went back counts as no traffic. */
  function Bps(prev: uint64, curr: uint64, intervalSec: real): int
    requires intervalSec > 0.0
  {
    if curr >= prev then ((curr - prev) as real / intervalSec).Floor else 0
  }

  function NetBps(prev: NetStats, curr: NetStats, intervalSec: real): (int, int) {
    if intervalSec <= 0.0 then (0, 0)
    else (Bps(prev.rxBytes, curr.rxBytes, intervalSec), Bps(prev.txBytes, curr.txBytes, intervalSec))
  }

  /** Whole bytes per second between the two readings of each counter; none for a counter that went back, nor for an
      interval that is not positive. */
  lemma NetMeaning(prev: NetStats, curr: NetStats, intervalSec: real)
    ensures var (rx, tx) := NetBps(prev, curr, intervalSec);
      && (intervalSec <= 0.0 || curr.rxBytes < prev.rxBytes ==> rx == 0)
      && (intervalSec <= 0.0 || curr.txBytes < prev.txBytes ==> tx == 0)
      && (intervalSec > 0.0 && curr.rxBytes >= prev.rxBytes ==>
            0.0 <= (curr.rxBytes - prev.rxBytes) as real - rx as real * intervalSec < intervalSec)
      && (intervalSec > 0.0 && curr.txBytes >= prev.txBytes ==>
            0.0 <= (curr.txBytes - prev.txBytes) as real - tx as real * intervalSec < intervalSec)
  {
    if intervalSec > 0.0 {
      BpsMeaning(prev.rxBytes, curr.rxBytes, intervalSec);
      BpsMeaning(prev.txBytes, curr.txBytes, intervalSec);
    }
  }

  lemma BpsMeaning(prev: uint64, curr: uint64, intervalSec: real)
    requires intervalSec > 0.0
    ensures var r := Bps(prev, curr, intervalSec);
      && (curr < prev ==> r == 0)
      && (curr >= prev ==> 0.0 <= (curr - prev) as real - r as real * intervalSec < intervalSec)
  {
    var r := Bps(prev, curr, intervalSec);
    if curr >= prev {
      var bytes := (curr - prev) as real;
      Quotient(bytes, intervalSec);
      var y, q := bytes / intervalSec, r as real;
      Leftover(bytes, y, q, y - q, intervalSec);
    }
  }

  lemma Leftover(x: real, y: real, q: real, rest: real, t: real)
    requires t > 0.0 && y * t == x && rest == y - q && 0.0 <= rest < 1.0
    ensures 0.0 <= x - q * t < t
  {
    Part(rest, t);
    var part := rest * t;
    assert 0.0 <= part < t;
    Difference(y, q, rest, t);
    assert part == x - q * t;
  }

  lemma Difference(y: real, q: real, rest: real, t: real)
    requires rest == y - q
    ensures rest * t == y * t - q * t
  {
  }

  lemma Part(r: real, t: real)
    requires t > 0.0 && 0.0 <= r < 1.0
    ensures 0.0 <= r * t < t
  {
    var missing := 1.0 - r;
    assert missing * t > 0.0;
  }

  lemma FloorDivides(x: nat, d: nat)
    requires d >= 1
    ensures (x as real / d as real).Floor == x / d
  {
    var q, r := x / d, x % d;
    assert x == q * d + r;
    var y, s := x as real / d as real, d as real;
    Quotient(x as real, s);
    RealOf(q, d, r);
    AtLeast(y, q as real, s, r as real);
    FloorBetween(y, q);
  }

  lemma AtLeast(y: real, q: real, s: real, r: real)
    requires s > 0.0 && 0.0 <= r < s && y * s == q * s + r
    ensures q <= y < q + 1.0
  {
    Product(y, q, s);
    Product(q + 1.0, y, s);
    assert (q + 1.0) * s == q * s + s;
  }

  lemma FloorBetween(y: real, q: int)
    requires q as real <= y < q as real + 1.0
    ensures y.Floor == q
  {
  }

  lemma RealOf(q: nat, d: nat, r: nat)
    ensures (q * d + r) as real == q as real * d as real + r as real
  {
  }

  lemma Product(a: real, b: real, d: real)
    requires d > 0.0
    ensures a < b ==> a * d < b * d
    ensures a <= b ==> a * d <= b * d
  {
  }

  lemma BpsTruncates(prev: uint64, curr: uint64, d: nat)
    requires d >= 1 && prev <= curr
    ensures 0 <= (curr - prev) - d * Bps(prev, curr, d as real) <= d - 1
  {
    FloorDivides(curr - prev, d);
    assert (curr - prev) == d * ((curr - prev) / d) + (curr - prev) % d;
  }

  /** Sum of the receive rates reported over a run. */
  function RxRates(samples: seq<NetStats>, intervalSec: real): int {
    if |samples| < 2 then 0
    else RxRates(samples[..|samples| - 1], intervalSec)
         + NetBps(samples[|samples| - 2], samples[|samples| - 1], intervalSec).0
  }

  function TxRates(samples: seq<NetStats>, intervalSec: real): int {
    if |samples| < 2 then 0
    else TxRates(samples[..|samples| - 1], intervalSec)
         + NetBps(samples[|samples| - 2], samples[|samples| - 1], intervalSec).1
  }

  /** Rates times the interval lose less than one interval's worth of bytes per sample, in each direction. */
  lemma {:induction false} RatesConserveBytes(samples: seq<NetStats>, d: nat)
    requires d >= 1 && samples != []
    requires forall i, j :: 0 <= i < j < |samples| ==>
      samples[i].rxBytes <= samples[j].rxBytes && samples[i].txBytes <= samples[j].txBytes
    ensures var n, first, last := |samples| - 1, samples[0], samples[|samples| - 1];
      && 0 <= (last.rxBytes - first.rxBytes) - d * RxRates(samples, d as real) <= (d - 1) * n
      && 0 <= (last.txBytes - first.txBytes) - d * TxRates(samples, d as real) <= (d - 1) * n
  {
    if |samples| >= 2 {
      var init, a, b := samples[..|samples| - 1], samples[|samples| - 2], samples[|samples| - 1];
      RatesConserveBytes(init, d);
      BpsTruncates(a.rxBytes, b.rxBytes, d);
      BpsTruncates(a.txBytes, b.txBytes, d);
      var (rx, tx) := NetBps(a, b, d as real);
      Distribute(d, RxRates(init, d as real), rx);
      Distribute(d, TxRates(init, d as real), tx);
      Distribute(d - 1, |init| - 1, 1);
    }
  }

  lemma Distribute(d: int, x: int, y: int)
    ensures d * (x + y) == d * x + d * y
  {
  }
}
