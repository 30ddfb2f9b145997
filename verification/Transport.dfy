/** The agent's HTTP sender: a retry loop with capped exponential backoff.
    agent/internal/transport/transport.go */
module Transport {
  import opened Prelude

  /** How one request ends for the client. */
  datatype Outcome = NetError | Code(status: int)

  /** BadRequest: no request could be built from the configured URL. */
  datatype SendError = Nil | PayloadTooLarge | ClientError(status: int) | GaveUp(last: Outcome) | BadRequest

  predicate Success(o: Outcome) { o.Code? && 200 <= o.status < 300 }

  predicate Refusal(o: Outcome) { o.Code? && 400 <= o.status < 500 }

  /** Anything else is tried again: network errors, redirects left unfollowed, server errors. */
  predicate Retryable(o: Outcome) { !Success(o) && !Refusal(o) }

  /** What the caller is told when the last request ended this way. */
  function Verdict(o: Outcome): (e: SendError)
    ensures e == Nil <==> o.Code? && 200 <= o.status < 300
    ensures e == PayloadTooLarge <==> o == Code(413)
    ensures o.Code? && 400 <= o.status < 500 && o.status != 413 ==> e == ClientError(o.status)
    ensures o.NetError? || !(200 <= o.status < 300 || 400 <= o.status < 500) ==> e == GaveUp(o)
  {
    if Success(o) then Nil
    else if o == Code(413) then PayloadTooLarge
    else if Refusal(o) then ClientError(o.status)
    else GaveUp(o)
  }

  function Pow2(n: nat): nat {
    if n == 0 then 1 else 2 * Pow2(n - 1)
  }

  /** Seconds slept after pauses ending with `last`. */
  function NextPause(pauses: seq<nat>): nat {
    if pauses == [] then 1
    else if 2 * pauses[|pauses| - 1] > 30 then 30
    else 2 * pauses[|pauses| - 1]
  }

  /** One second before the second request, then doubled each time up to thirty. */
  ghost predicate Doubling(pauses: seq<nat>) {
    && (pauses != [] ==> pauses[0] == 1)
    && (forall i :: 0 < i < |pauses| ==>
          pauses[i] == if 2 * pauses[i - 1] > 30 then 30 else 2 * pauses[i - 1])
  }

  lemma DoublingOn(pauses: seq<nat>)
    requires Doubling(pauses)
    ensures Doubling(pauses + [NextPause(pauses)])
  {
    var more := pauses + [NextPause(pauses)];
    forall i | 0 < i < |more| ensures more[i] == if 2 * more[i - 1] > 30 then 30 else 2 * more[i - 1] {
      if i < |pauses| {
        assert pauses[i] == if 2 * pauses[i - 1] > 30 then 30 else 2 * pauses[i - 1];
      }
    }
  }

  /** So the pauses are powers of two, but never longer than thirty seconds. */
  lemma {:induction false} PausesArePowers(pauses: seq<nat>, i: nat)
    requires Doubling(pauses) && i < |pauses|
    ensures pauses[i] == Min(Pow2(i), 30) && Total(pauses[..i]) <= 30 * i
  {
    if i > 0 {
      PausesArePowers(pauses, i - 1);
      assert pauses[..i][..i - 1] == pauses[..i - 1];
    }
  }

  /** How many requests are sent when the k-th request would end as `outcomes(k)`. */
  function Attempts(outcomes: nat -> Outcome, retries: nat, from: nat): (n: nat)
    requires from <= retries
    ensures from <= n <= retries && (from < retries ==> from < n)
    decreases retries - from
  {
    if from == retries then retries
    else if !Retryable(outcomes(from)) then from + 1
    else Attempts(outcomes, retries, from + 1)
  }

  function Total(pauses: seq<nat>): nat {
    if pauses == [] then 0 else Total(pauses[..|pauses| - 1]) + pauses[|pauses| - 1]
  }

  class Client {
    const retries: int
    const timeoutSec: int

    constructor New(timeoutSec: int, retries: int)
      ensures this.retries >= 1 && (retries > 0 ==> this.retries == retries) && (retries <= 0 ==> this.retries == 3)
      ensures this.timeoutSec == if timeoutSec <= 0 then 30 else timeoutSec
    {
      this.timeoutSec := if timeoutSec <= 0 then 30 else timeoutSec;
      this.retries := if retries <= 0 then 3 else retries;
    }

    /** `urlParses`: whether http.NewRequest accepts the URL made of the configured one. */
    method SendIngest(urlParses: bool, outcomes: nat -> Outcome)
      returns (err: SendError, attempts: nat, pauses: seq<nat>)
      ensures !urlParses ==> err == BadRequest && attempts == 0
      ensures urlParses && retries >= 1 ==> 1 <= attempts <= retries && err == Verdict(outcomes(attempts - 1))
      ensures forall j :: 0 <= j < attempts - 1 ==> Retryable(outcomes(j))
      ensures 1 <= attempts < retries ==> !Retryable(outcomes(attempts - 1))
      ensures urlParses && retries <= 0 ==> attempts == 0 && err == Nil
      // Which error the last answer gives.
      ensures urlParses && retries >= 1 ==>
        var o := outcomes(attempts - 1);
        && (err == Nil <==> o.Code? && 200 <= o.status < 300)
        && (err == PayloadTooLarge <==> o == Code(413))
        && (o.Code? && 400 <= o.status < 500 && o.status != 413 ==> err == ClientError(o.status))
        && (o.NetError? || !(200 <= o.status < 300 || 400 <= o.status < 500) ==> err == GaveUp(o))
      // Only these lead to another request.
      ensures forall j :: 0 <= j < attempts - 1 ==>
        outcomes(j).NetError? || !(200 <= outcomes(j).status < 300 || 400 <= outcomes(j).status < 500)
      ensures |pauses| == (if attempts == 0 then 0 else attempts - 1) && Doubling(pauses)
    {
      pauses := [];
      attempts := 0;
      if !urlParses {
        return BadRequest, attempts, pauses;
      }
      err := Nil;
      var backoff := 1;
      while attempts < retries
        invariant retries >= 1 ==> attempts <= retries
        invariant retries <= 0 ==> attempts == 0
        invariant |pauses| == (if attempts == 0 then 0 else attempts - 1) && Doubling(pauses)
        invariant attempts == 0 ==> err == Nil && backoff == 1
        invariant attempts >= 1 ==> err == Verdict(outcomes(attempts - 1)) && backoff == NextPause(pauses)
        invariant forall j :: 0 <= j < attempts ==> Retryable(outcomes(j))
      {
        if attempts > 0 {
          DoublingOn(pauses);
          pauses := pauses + [backoff];
          backoff := backoff * 2;
          if backoff > 30 {
            backoff := 30;
          }
        }
        var outcome := outcomes(attempts);
        attempts := attempts + 1;
        if outcome.NetError? {
          err := GaveUp(outcome);
          continue;
        }
        if 200 <= outcome.status < 300 {
          err := Nil;
          break;
        }
        if outcome.status == 413 {
          err := PayloadTooLarge;
          break;
        }
        if 400 <= outcome.status < 500 {
          err := ClientError(outcome.status);
          break;
        }
        err := GaveUp(outcome);
      }
    }
  }

  /** The recursion says the same as the loop: the first request that is not retryable, or the budget. */
  lemma {:induction false} AttemptsMeaning(outcomes: nat -> Outcome, retries: nat, from: nat)
    requires from <= retries
    ensures var n := Attempts(outcomes, retries, from);
      && (forall j :: from <= j < n - 1 ==> Retryable(outcomes(j)))
      && (from < n < retries ==> !Retryable(outcomes(n - 1)))
    decreases retries - from
  {
    if from < retries && Retryable(outcomes(from)) {
      AttemptsMeaning(outcomes, retries, from + 1);
    }
  }

  /** Only one count of requests fits what SendIngest promises. */
  lemma AttemptsUnique(outcomes: nat -> Outcome, retries: nat, n: nat)
    requires 1 <= n <= retries
    requires forall j :: 0 <= j < n - 1 ==> Retryable(outcomes(j))
    requires n < retries ==> !Retryable(outcomes(n - 1))
    ensures n == Attempts(outcomes, retries, 0)
  {
    AttemptsMeaning(outcomes, retries, 0);
    var a: nat, b: nat := Attempts(outcomes, retries, 0) - 1, n - 1;
    assert a < b ==> Retryable(outcomes(a));
    assert b < a ==> Retryable(outcomes(b));
  }

  /** Request `i` gets a 2xx after retryable outcomes only. */
  ghost predicate SucceedsAt(outcomes: nat -> Outcome, i: nat) {
    Success(outcomes(i)) && forall j :: 0 <= j < i ==> Retryable(outcomes(j))
  }

  /** Nil exactly when a 2xx comes within the budget after retryable outcomes only. */
  lemma NilMeansSuccess(outcomes: nat -> Outcome, retries: nat)
    requires retries >= 1
    ensures Verdict(outcomes(Attempts(outcomes, retries, 0) - 1)) == Nil <==>
      exists i: nat :: i < retries && SucceedsAt(outcomes, i)
  {
    var last: nat := Attempts(outcomes, retries, 0) - 1;
    AttemptsMeaning(outcomes, retries, 0);
    assert Success(outcomes(last)) ==> SucceedsAt(outcomes, last);
    forall i: nat | i < retries && SucceedsAt(outcomes, i) ensures i == last {
      SuccessIsLast(outcomes, retries, i);
    }
  }

  lemma SuccessIsLast(outcomes: nat -> Outcome, retries: nat, i: nat)
    requires i < retries && SucceedsAt(outcomes, i)
    ensures Attempts(outcomes, retries, 0) == i + 1
  {
    AttemptsUnique(outcomes, retries, i + 1);
  }
}
