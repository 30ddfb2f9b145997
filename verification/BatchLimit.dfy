/** The agent's adaptive batch limit: halved after each 413, reset after each success.
    agent/internal/service/service.go */
module BatchLimit {
  import opened Prelude
  import opened Transport
  import Division

  const MAX_INT32 := 0x7fff_ffff

  /** The cast int32(x). */
  function ToInt32(x: int): int {
    if 0 <= x <= MAX_INT32 then x else
    var low := x % 0x1_0000_0000;
    if low > MAX_INT32 then low - 0x1_0000_0000 else low
  }

  /** One turn of the loop. */
  datatype Tick =
    | SampleFailed
    | EncodeFailed
    | Sent(processes: nat, result: SendError)

  function Used(topN: int, stored: int): int {
    if stored <= 0 then topN else stored
  }

  /** What is stored for the next tick. */
  function Next(topN: int, stored: int, t: Tick): int {
    var kept := if stored <= 0 then ToInt32(topN) else stored;
    match t
    case SampleFailed => stored
    case EncodeFailed => kept
    case Sent(_, Nil) => ToInt32(topN)
    case Sent(_, PayloadTooLarge) =>
      var half := Used(topN, stored) / 2;
      ToInt32(if half < 1 then 1 else half)
    case Sent(_, _) => kept
  }

  function After(topN: int, ticks: seq<Tick>): int {
    if ticks == [] then ToInt32(topN) else Next(topN, After(topN, ticks[..|ticks| - 1]), ticks[|ticks| - 1])
  }

  class Service {
    const topN: int
    var maxProcs: int

    constructor (topN: int)
      ensures this.topN == topN && maxProcs == After(topN, [])
    {
      this.topN := topN;
      maxProcs := ToInt32(topN);
    }

    /** One turn; `limit` is what the batch was encoded with. */
    method Turn(t: Tick) returns (limit: int)
      modifies this
      ensures maxProcs == Next(topN, old(maxProcs), t)
      ensures !t.SampleFailed? ==> limit == Used(topN, old(maxProcs))
    {
      limit := 0;
      if t.SampleFailed? {
        return;
      }
      limit := maxProcs;
      if limit <= 0 {
        limit := topN;
        maxProcs := ToInt32(limit);
      }
      if t.EncodeFailed? {
        return;
      }
      if t.result != Nil {
        if t.result == PayloadTooLarge {
          var next := limit / 2;
          if next < 1 {
            next := 1;
          }
          maxProcs := ToInt32(next);
        }
        return;
      }
      maxProcs := ToInt32(topN);
    }

    /** Ticks until the context is done. */
    method Run(ticks: seq<Tick>) returns (limits: seq<int>)
      requires topN >= 1 && maxProcs == After(topN, [])
      modifies this
      ensures maxProcs == After(topN, ticks)
      ensures |limits| == |ticks|
      ensures forall i :: 0 <= i < |ticks| && !ticks[i].SampleFailed? ==> limits[i] == LimitAt(topN, ticks, i)
    {
      limits := [];
      for i := 0 to |ticks|
        invariant maxProcs == After(topN, ticks[..i])
        invariant LimitsUsed(topN, ticks, limits, i)
      {
        AfterOneMore(topN, ticks, i);
        var limit := Turn(ticks[i]);
        LimitsOneMore(topN, ticks, limits, i, limit);
        limits := limits + [limit];
      }
      assert ticks[..|ticks|] == ticks;
    }
  }

  /** The limit the ticks before tick `i` leave for it. */
  function LimitAt(topN: int, ticks: seq<Tick>, i: nat): int
    requires i < |ticks|
  {
    Used(topN, After(topN, ticks[..i]))
  }

  ghost predicate LimitsUsed(topN: int, ticks: seq<Tick>, limits: seq<int>, n: nat) {
    && |limits| == n <= |ticks|
    && forall i :: 0 <= i < n && !ticks[i].SampleFailed? ==> limits[i] == LimitAt(topN, ticks, i)
  }

  lemma LimitsOneMore(topN: int, ticks: seq<Tick>, limits: seq<int>, n: nat, limit: int)
    requires n < |ticks| && LimitsUsed(topN, ticks, limits, n)
    requires !ticks[n].SampleFailed? ==> limit == LimitAt(topN, ticks, n)
    ensures LimitsUsed(topN, ticks, limits + [limit], n + 1)
  {
  }

  lemma AfterOneMore(topN: int, ticks: seq<Tick>, i: nat)
    requires i < |ticks|
    ensures After(topN, ticks[..i + 1]) == Next(topN, After(topN, ticks[..i]), ticks[i])
  {
    assert ticks[..i + 1][..i] == ticks[..i];
  }

  // ---- Range and halving ----------------------------------------------------------------------

  /** The limit used is always between 1 and the configured number of processes. */
  lemma {:induction false} LimitInRange(topN: int, ticks: seq<Tick>)
    requires 1 <= topN <= MAX_INT32
    ensures 1 <= After(topN, ticks) <= topN && Used(topN, After(topN, ticks)) == After(topN, ticks)
  {
    if ticks == [] {
    } else {
      LimitInRange(topN, ticks[..|ticks| - 1]);
      NextInRange(topN, After(topN, ticks[..|ticks| - 1]), ticks[|ticks| - 1]);
    }
  }

  /** One turn with a limit in range. */
  lemma NextInRange(topN: int, stored: int, t: Tick)
    requires 1 <= stored <= topN <= MAX_INT32
    ensures Used(topN, stored) == stored
    ensures Next(topN, stored, t) ==
      if Accepted(t) then topN else if TooLarge(t) then Max(1, stored / 2) else stored
    ensures 1 <= Next(topN, stored, t) <= topN
  {
  }

  predicate TooLarge(t: Tick) { t.Sent? && t.result == PayloadTooLarge }

  predicate Accepted(t: Tick) { t.Sent? && t.result == Nil }

  function Max(a: int, b: int): int { if a < b then b else a }

  /** Refusals among the last `j` ticks. */
  function Refusals(ticks: seq<Tick>): nat {
    if ticks == [] then 0 else Refusals(ticks[..|ticks| - 1]) + (if TooLarge(ticks[|ticks| - 1]) then 1 else 0)
  }

  lemma {:induction false} Pow2Positive(j: nat)
    ensures Pow2(j) >= 1
  {
    if j > 0 { Pow2Positive(j - 1); }
  }

  /** With no success in between, j refusals divide the limit by 2^j, but not below 1; ticks that fail
      in other ways change nothing. */
  lemma {:induction false} HalvedByRefusals(topN: int, before: seq<Tick>, more: seq<Tick>)
    requires 1 <= topN <= MAX_INT32
    requires forall t :: t in more ==> !Accepted(t)
    ensures Pow2(Refusals(more)) >= 1
    ensures After(topN, before + more) == Max(1, After(topN, before) / Pow2(Refusals(more)))
  {
    LimitInRange(topN, before);
    Pow2Positive(Refusals(more));
    if more == [] {
      assert before + more == before;
    } else {
      var init, last := more[..|more| - 1], more[|more| - 1];
      assert last in more && forall t :: t in init ==> t in more;
      assert (before + more)[..|before + more| - 1] == before + init;
      HalvedByRefusals(topN, before, init);
      LimitInRange(topN, before + init);
      NextInRange(topN, After(topN, before + init), last);
      if TooLarge(last) {
        HalveAgain(After(topN, before), Refusals(init));
      }
    }
  }

  lemma HalveAgain(x: int, j: nat)
    requires x >= 1
    ensures Pow2(j) >= 1 && Pow2(j + 1) >= 1
    ensures Max(1, Max(1, x / Pow2(j)) / 2) == Max(1, x / Pow2(j + 1))
  {
    Pow2Positive(j);
    var p := Pow2(j);
    Division.Twice(x, p, 2);
  }

  /** From a fresh limit: after j refusals in a row exactly max(1, topN / 2^j). */
  lemma FreshHalving(topN: int, before: seq<Tick>, more: seq<Tick>)
    requires 1 <= topN <= MAX_INT32
    requires before == [] || Accepted(before[|before| - 1])
    requires forall t :: t in more ==> TooLarge(t)
    ensures Pow2(|more|) >= 1 && After(topN, before + more) == Max(1, topN / Pow2(|more|))
  {
    AllRefusals(more);
    HalvedByRefusals(topN, before, more);
    ResetBySuccess(topN, before);
  }

  lemma ResetBySuccess(topN: int, before: seq<Tick>)
    requires 1 <= topN <= MAX_INT32
    requires before == [] || Accepted(before[|before| - 1])
    ensures After(topN, before) == topN
  {
    if before != [] {
      LimitInRange(topN, before[..|before| - 1]);
      NextInRange(topN, After(topN, before[..|before| - 1]), before[|before| - 1]);
    }
  }

  lemma {:induction false} AllRefusals(more: seq<Tick>)
    requires forall t :: t in more ==> TooLarge(t)
    ensures Refusals(more) == |more|
  {
    if more == [] {
    } else {
      AllRefusals(more[..|more| - 1]);
    }
  }

  // ---- The limit of every run -----------------------------------------------------------------

  /** Refusals since the last accepted tick. */
  function RefusalsSince(ticks: seq<Tick>): nat {
    if ticks == [] || Accepted(ticks[|ticks| - 1]) then 0
    else RefusalsSince(ticks[..|ticks| - 1]) + (if TooLarge(ticks[|ticks| - 1]) then 1 else 0)
  }

  /** In every run the limit is the configured number, halved once for each refusal since the last success. */
  lemma {:induction false} LimitIsHalved(topN: int, ticks: seq<Tick>)
    requires 1 <= topN <= MAX_INT32
    ensures Pow2(RefusalsSince(ticks)) >= 1
    ensures After(topN, ticks) == Max(1, topN / Pow2(RefusalsSince(ticks)))
  {
    Pow2Positive(RefusalsSince(ticks));
    if ticks == [] {
    } else {
      var init, last := ticks[..|ticks| - 1], ticks[|ticks| - 1];
      LimitIsHalved(topN, init);
      LimitInRange(topN, init);
      NextInRange(topN, After(topN, init), last);
      if TooLarge(last) {
        HalveAgain(topN, RefusalsSince(init));
      }
    }
  }

  function Batch(topN: int, stored: int, processes: nat): int {
    Min(Used(topN, stored), processes)
  }

  /** Tick `i` reached a server that takes exactly the batches of at most k processes and refuses others with 413. */
  ghost predicate ServedAt(topN: int, k: nat, ticks: seq<Tick>, i: nat)
    requires i < |ticks|
  {
    && ticks[i].Sent? && (Accepted(ticks[i]) || TooLarge(ticks[i]))
    && (Accepted(ticks[i]) <==> Batch(topN, After(topN, ticks[..i]), ticks[i].processes) <= k)
  }

  /** The run against such a server of an agent whose samples hold these numbers of processes. */
  function Answered(topN: int, k: nat, counts: seq<nat>): (ticks: seq<Tick>)
    ensures |ticks| == |counts|
  {
    if counts == [] then []
    else
      var before, n := Answered(topN, k, counts[..|counts| - 1]), counts[|counts| - 1];
      before + [Sent(n, if Batch(topN, After(topN, before), n) <= k then Nil else PayloadTooLarge)]
  }

  /** There is such a run for all numbers of processes. */
  lemma {:induction false} AnsweredServed(topN: int, k: nat, counts: seq<nat>, i: nat)
    requires i < |counts|
    ensures ServedAt(topN, k, Answered(topN, k, counts), i) && Answered(topN, k, counts)[i].processes == counts[i]
  {
    var init := counts[..|counts| - 1];
    var ticks, before := Answered(topN, k, counts), Answered(topN, k, init);
    if i == |init| {
      assert ticks[..i] == before;
    } else {
      AnsweredServed(topN, k, init, i);
      assert ticks[..i] == before[..i] && ticks[i] == before[i];
    }
  }

  /** What such a server does with a tick depends on its processes and the refusals since the last success alone. */
  lemma AcceptedExactly(topN: int, k: nat, ticks: seq<Tick>, i: nat)
    requires 1 <= topN <= MAX_INT32 && i < |ticks| && ServedAt(topN, k, ticks, i)
    ensures var r := RefusalsSince(ticks[..i]);
      Pow2(r) >= 1 && (Accepted(ticks[i]) <==> Min(Max(1, topN / Pow2(r)), ticks[i].processes) <= k)
  {
    LimitIsHalved(topN, ticks[..i]);
    LimitInRange(topN, ticks[..i]);
  }

  // ---- Convergence ----------------------------------------------------------------------------

  /** Once j refusals have come since the last success and topN <= k * 2^j, the next tick is accepted,
      whatever ticks failed in other ways in between. */
  lemma EnoughRefusals(topN: int, k: nat, j: nat, ticks: seq<Tick>, i: nat)
    requires 1 <= topN <= MAX_INT32 && k >= 1 && topN <= k * Pow2(j)
    requires i < |ticks| && ServedAt(topN, k, ticks, i) && RefusalsSince(ticks[..i]) >= j
    ensures Accepted(ticks[i])
  {
    AcceptedExactly(topN, k, ticks, i);
    HalvedToFit(topN, k, j, RefusalsSince(ticks[..i]));
  }

  lemma HalvedToFit(n: nat, k: nat, j: nat, r: nat)
    requires n <= k * Pow2(j) && j <= r
    ensures Pow2(r) >= 1 && n / Pow2(r) <= k
  {
    Pow2Positive(r);
    Pow2Grows(j, r);
    TimesAtMost(k, Pow2(j), Pow2(r));
    QuotientAtMost(n, k, Pow2(r));
  }

  lemma TimesAtMost(k: nat, a: nat, b: nat)
    requires a <= b
    ensures k * a <= k * b
  {
  }

  lemma {:induction false} Pow2Grows(a: nat, b: nat)
    requires a <= b
    ensures Pow2(a) <= Pow2(b)
  {
    Pow2Positive(b);
    if a == b {
    } else {
      Pow2Grows(a, b - 1);
    }
  }

  /** Against such a server one of any j + 1 ticks in a row is accepted, as soon as topN <= k * 2^j: at the latest
      after ceil(log2(topN / k)) refusals. (A tick without processes counts: it is always accepted.) */
  lemma ConvergesWithin(topN: int, k: nat, j: nat, ticks: seq<Tick>, from: nat)
    requires 1 <= topN <= MAX_INT32 && k >= 1 && topN <= k * Pow2(j)
    requires from + j < |ticks|
    requires forall i :: from <= i <= from + j ==> ServedAt(topN, k, ticks, i)
    ensures exists i :: from <= i <= from + j && Accepted(ticks[i])
  {
    if forall i :: from <= i < from + j ==> !Accepted(ticks[i]) {
      RefusalsInARow(topN, k, ticks, from, j);
      EnoughRefusals(topN, k, j, ticks, from + j);
    }
  }

  lemma {:induction false} RefusalsInARow(topN: int, k: nat, ticks: seq<Tick>, from: nat, j: nat)
    requires from + j < |ticks|
    requires forall i :: from <= i < from + j ==> ServedAt(topN, k, ticks, i) && !Accepted(ticks[i])
    ensures RefusalsSince(ticks[..from + j]) >= j
  {
    if j == 0 {
    } else {
      RefusalsInARow(topN, k, ticks, from, j - 1);
      assert ServedAt(topN, k, ticks, from + j - 1);
      assert ticks[..from + j][..from + j - 1] == ticks[..from + j - 1];
    }
  }

  lemma QuotientAtMost(x: nat, k: nat, d: nat)
    requires d >= 1 && x <= k * d
    ensures x / d <= k
  {
    if x / d > k {
      Division.TimesMonotone(k + 1, x / d, d);
    }
  }

  // ---- Where it does not converge -------------------------------------------------------------

  /** Every tick with processes comes right after one without that got through, or first. */
  ghost predicate Interleaved(ticks: seq<Tick>) {
    forall i :: 0 < i < |ticks| && ticks[i].Sent? && ticks[i].processes > 0 ==>
      Accepted(ticks[i - 1]) && ticks[i - 1].processes == 0
  }

  /** Then every snapshot is sent at the full limit, however many were refused before, and is accepted only if
      it fits from the start. */
  lemma ProcesslessTicksUndoHalving(topN: int, k: nat, ticks: seq<Tick>, i: nat)
    requires 1 <= topN <= MAX_INT32 && Interleaved(ticks)
    requires i < |ticks| && ServedAt(topN, k, ticks, i) && ticks[i].processes > 0
    ensures RefusalsSince(ticks[..i]) == 0 && LimitAt(topN, ticks, i) == topN
    ensures Accepted(ticks[i]) <==> Min(topN, ticks[i].processes) <= k
  {
    var before := ticks[..i];
    assert i > 0 ==> before[|before| - 1] == ticks[i - 1];
    AcceptedExactly(topN, k, ticks, i);
    LimitIsHalved(topN, before);
  }
}
