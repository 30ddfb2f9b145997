/** The agent's sending: each tick's batch goes through the retry loop, and its outcome sets the next limit.
    agent/internal/service/service.go, agent/internal/transport/transport.go */
module AgentLoop {
  import opened Transport
  import opened BatchLimit

  /** How often the last answer to a batch was 413 since it was last a 2xx. */
  function TooLargeSince(last: seq<Outcome>): nat {
    if last == [] then 0
    else
      var o, before := last[|last| - 1], last[..|last| - 1];
      if o.Code? && 200 <= o.status < 300 then 0
      else TooLargeSince(before) + (if o == Code(413) then 1 else 0)
  }

  /** What a batch whose last request ended this way means for the limit. */
  predicate TickOf(t: Tick, o: Outcome) {
    && t.Sent?
    && (t.result == Nil <==> o.Code? && 200 <= o.status < 300)
    && (t.result == PayloadTooLarge <==> o == Code(413))
  }

  lemma {:induction false} SameRefusals(ticks: seq<Tick>, last: seq<Outcome>)
    requires |ticks| == |last| && forall i :: 0 <= i < |ticks| ==> TickOf(ticks[i], last[i])
    ensures RefusalsSince(ticks) == TooLargeSince(last)
  {
    if ticks == [] {
    } else {
      SameRefusals(ticks[..|ticks| - 1], last[..|last| - 1]);
      assert TickOf(ticks[|ticks| - 1], last[|last| - 1]);
    }
  }

  /** One of the answers a batch may meet within this many requests. */
  ghost predicate Meets(o: Outcome, answers: nat -> Outcome, retries: int) {
    exists n: nat :: n < retries && answers(n) == o
  }

  ghost predicate Ran(ticks: seq<Tick>, last: seq<Outcome>, answers: seq<nat -> Outcome>, retries: int, n: nat) {
    && |ticks| == |last| == n <= |answers|
    && (forall j :: 0 <= j < n ==> TickOf(ticks[j], last[j]))
    && (forall j :: 0 <= j < n ==> Meets(last[j], answers[j], retries))
  }

  lemma RanOneMore(ticks: seq<Tick>, last: seq<Outcome>, answers: seq<nat -> Outcome>, retries: int, n: nat,
      t: Tick, attempts: nat)
    requires Ran(ticks, last, answers, retries, n) && n < |answers|
    requires 1 <= attempts <= retries && TickOf(t, answers[n](attempts - 1))
    ensures Ran(ticks + [t], last + [answers[n](attempts - 1)], answers, retries, n + 1)
  {
    var o := answers[n](attempts - 1);
    assert Meets(o, answers[n], retries);
  }

  lemma AfterSnoc(topN: int, ticks: seq<Tick>, t: Tick)
    ensures After(topN, ticks + [t]) == Next(topN, After(topN, ticks), t)
  {
    assert (ticks + [t])[..|ticks|] == ticks;
  }

  /** Every batch of a run: `answers[i]` is how the requests for batch `i` would end, `last[i]` how the last one did.
      The limit left is the configured number, halved for each 413 since the last 2xx, but at least one. */
  method SendAll(client: Client, service: Service, processes: seq<nat>, answers: seq<nat -> Outcome>)
    returns (last: seq<Outcome>)
    requires client.retries >= 1 && |processes| == |answers|
    requires 1 <= service.topN <= MAX_INT32 && service.maxProcs == service.topN
    modifies service
    ensures |last| == |answers| && forall i :: 0 <= i < |last| ==> Meets(last[i], answers[i], client.retries)
    ensures Pow2(TooLargeSince(last)) >= 1
    ensures var halved := service.topN / Pow2(TooLargeSince(last));
      service.maxProcs == if halved < 1 then 1 else halved
  {
    last := [];
    ghost var ticks: seq<Tick> := [];
    for i := 0 to |answers|
      invariant Ran(ticks, last, answers, client.retries, i)
      invariant service.maxProcs == After(service.topN, ticks)
    {
      var err, attempts, pauses := client.SendIngest(true, answers[i]);
      var limit := service.Turn(Sent(processes[i], err));
      RanOneMore(ticks, last, answers, client.retries, i, Sent(processes[i], err), attempts);
      AfterSnoc(service.topN, ticks, Sent(processes[i], err));
      last := last + [answers[i](attempts - 1)];
      ticks := ticks + [Sent(processes[i], err)];
    }
    LimitIsHalved(service.topN, ticks);
    SameRefusals(ticks, last);
  }
}
