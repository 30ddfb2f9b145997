/** The sender against the transactional server over a network that may lose requests and
    answers but does not reorder them: a request the client has given up on is either
    handled before the next one is sent, or never. */
module Delivery {
  import opened Prelude
  import opened HostsModel
  import opened Backend
  import opened Transport

  /** What happens to one request. Refused: answered before the service runs (guard, validation, body limit). */
  datatype Fate = RequestLost | Refused(status: int) | Served(commit: Commit, answerLost: bool)

  /** Whether this request leaves the batch in the store. */
  predicate Stores(db: Db, hostId: string, b: Batch, fate: Fate) {
    fate.Served? && fate.commit != RolledBack && Storable(db, hostId, b)
  }

  function AnswerTo(db: Db, hostId: string, b: Batch, fate: Fate): Outcome {
    match fate
    case RequestLost => NetError
    case Refused(status) => Code(status)
    case Served(commit, answerLost) =>
      if answerLost then NetError
      else if b.hostId != hostId || b.ts.None? then Code(400)
      else if Storable(db, hostId, b) && commit == Acked then Code(201)
      else Code(500)
  }

  function After(db: Db, hostId: string, b: Batch, fates: nat -> Fate, n: nat): Db {
    if n == 0 then db
    else
      var before := After(db, hostId, b, fates, n - 1);
      if Stores(before, hostId, b, fates(n - 1)) then Ingested(before, b, None) else before
  }

  /** The outcome of request `i` for the client. */
  function OutcomeOf(db: Db, hostId: string, b: Batch, fates: nat -> Fate, i: nat): Outcome {
    AnswerTo(After(db, hostId, b, fates, i), hostId, b, fates(i))
  }

  /** The outcomes the client meets, request by request. */
  function Outcomes(db: Db, hostId: string, b: Batch, fates: nat -> Fate): nat -> Outcome {
    (i: nat) => OutcomeOf(db, hostId, b, fates, i)
  }

  /** No middleware refuses with a success code. */
  ghost predicate HonestRefusals(fates: nat -> Fate) {
    forall i: nat :: fates(i).Refused? ==> !(200 <= fates(i).status < 300)
  }

  /** The store after the same batch has been committed `c` times. */
  function Times(db: Db, b: Batch, c: nat): Db
    requires b.ts.Some? && b.hostId in db.tables.hosts
    ensures b.hostId in Times(db, b, c).tables.hosts
  {
    if c == 0 then db else Ingested(Times(db, b, c - 1), b, None)
  }

  function Copies(db: Db, hostId: string, b: Batch, fates: nat -> Fate, n: nat): nat {
    if n == 0 then 0
    else Copies(db, hostId, b, fates, n - 1) + (if Stores(db, hostId, b, fates(n - 1)) then 1 else 0)
  }

  lemma {:induction false} AfterIsTimes(db: Db, hostId: string, b: Batch, fates: nat -> Fate, n: nat)
    ensures Copies(db, hostId, b, fates, n) <= n
    ensures !Storable(db, hostId, b) ==> After(db, hostId, b, fates, n) == db && Copies(db, hostId, b, fates, n) == 0
    ensures Storable(db, hostId, b) ==>
      && After(db, hostId, b, fates, n) == Times(db, b, Copies(db, hostId, b, fates, n))
      && Storable(After(db, hostId, b, fates, n), hostId, b)
  {
    if n == 0 {
    } else {
      AfterIsTimes(db, hostId, b, fates, n - 1);
    }
  }

  function Repeat<T>(block: seq<T>, c: nat): seq<T> {
    if c == 0 then [] else Repeat(block, c - 1) + block
  }

  /** `after` is `db` with the batch in it `c` times: metrics row, process rows and lastSeenAt together. */
  ghost predicate HoldsTimes(db: Db, after: Db, b: Batch, c: nat)
    requires b.ts.Some? && b.hostId in db.tables.hosts
  {
    && after.tables.metrics == db.tables.metrics + Repeat([MetricOf(b)], c)
    && after.procs == db.procs + Repeat(ProcsOf(b), c)
    && after.tables.hosts == if c == 0 then db.tables.hosts
                             else db.tables.hosts[b.hostId := db.tables.hosts[b.hostId].(lastSeenAt := b.ts)]
  }

  /** Stored metrics always come with their processes and with lastSeenAt. */
  lemma {:induction false} TimesContents(db: Db, b: Batch, c: nat)
    requires b.ts.Some? && b.hostId in db.tables.hosts
    ensures HoldsTimes(db, Times(db, b, c), b, c)
  {
    if c == 0 {
    } else {
      TimesContents(db, b, c - 1);
    }
  }

  /** One SendIngest: the store it leaves holds the batch `c` times, whole each time, with `c` at most
      the number of requests and so at most the retries. */
  lemma SendStores(db: Db, hostId: string, b: Batch, fates: nat -> Fate, retries: nat)
    requires retries >= 1 && b.ts.Some? && hostId in db.tables.hosts && b.hostId == hostId
    ensures
      var n := Attempts(Outcomes(db, hostId, b, fates), retries, 0);
      var c := Copies(db, hostId, b, fates, n);
      c <= n <= retries && HoldsTimes(db, After(db, hostId, b, fates, n), b, c)
  {
    var n := Attempts(Outcomes(db, hostId, b, fates), retries, 0);
    CopiesAtMost(db, hostId, b, fates, n);
    RequestsHold(db, hostId, b, fates, n, Copies(db, hostId, b, fates, n));
  }

  /** A nil return means at least once. */
  lemma NilStores(db: Db, hostId: string, b: Batch, fates: nat -> Fate, retries: nat)
    requires retries >= 1 && HonestRefusals(fates)
    ensures
      var n := Attempts(Outcomes(db, hostId, b, fates), retries, 0);
      n >= 1 && (Verdict(OutcomeOf(db, hostId, b, fates, n - 1)) == Nil ==> Copies(db, hostId, b, fates, n) >= 1)
  {
    SuccessStores(db, hostId, b, fates, Attempts(Outcomes(db, hostId, b, fates), retries, 0) - 1);
  }

  lemma CopiesAtMost(db: Db, hostId: string, b: Batch, fates: nat -> Fate, n: nat)
    ensures Copies(db, hostId, b, fates, n) <= n
  {
    AfterIsTimes(db, hostId, b, fates, n);
  }

  lemma RequestsHold(db: Db, hostId: string, b: Batch, fates: nat -> Fate, n: nat, c: nat)
    requires b.ts.Some? && b.hostId in db.tables.hosts && c == Copies(db, hostId, b, fates, n)
    ensures HoldsTimes(db, After(db, hostId, b, fates, n), b, c)
  {
    AfterIsTimes(db, hostId, b, fates, n);
    TimesContents(db, b, c);
  }

  /** A success answer comes only after the batch was committed by that very request. */
  lemma SuccessStores(db: Db, hostId: string, b: Batch, fates: nat -> Fate, i: nat)
    requires HonestRefusals(fates)
    ensures Verdict(OutcomeOf(db, hostId, b, fates, i)) == Nil ==> Copies(db, hostId, b, fates, i + 1) >= 1
  {
    AfterIsTimes(db, hostId, b, fates, i);
  }

  // ---- A whole run of the backend ----------------------------------------------------------------

  datatype Send = Send(batch: Batch, fates: nat -> Fate)

  /** One SendIngest of the agent of a host, or a retention run. */
  datatype Event = Sends(hostId: string, send: Send) | Aged(metricsCutoff: int, procsCutoff: int)
  {
    predicate Of(hostId: string) { Sends? && this.hostId == hostId }
  }

  /** The samples of the agent of this host: well-formed, with timestamps that increase. Of the others nothing is
      asked. */
  ghost predicate AgentRun(hostId: string, run: seq<Event>) {
    && (forall i :: 0 <= i < |run| && run[i].Of(hostId) ==> ProperSend(hostId, run[i].send))
    && (forall i, j :: 0 <= i < j < |run| && run[i].Of(hostId) && run[j].Of(hostId) ==>
          run[i].send.batch.ts.value < run[j].send.batch.ts.value)
  }

  ghost predicate ProperSend(hostId: string, s: Send) {
    s.batch.hostId == hostId && s.batch.ts.Some? && HonestRefusals(s.fates)
  }

  function SendCount(db: Db, hostId: string, s: Send, retries: nat): nat {
    Attempts(Outcomes(db, hostId, s.batch, s.fates), retries, 0)
  }

  function AfterSend(db: Db, hostId: string, s: Send, retries: nat): Db {
    After(db, hostId, s.batch, s.fates, SendCount(db, hostId, s, retries))
  }

  function AfterAged(db: Db, metricsCutoff: int, procsCutoff: int): Db {
    db.(tables := db.tables.(metrics := Filter(db.tables.metrics, (m: MetricRow) => m.ts >= metricsCutoff)),
        procs := Filter(db.procs, (p: ProcRow) => p.ts >= procsCutoff))
  }

  function AfterEvent(db: Db, e: Event, retries: nat): Db {
    match e
    case Sends(h, s) => AfterSend(db, h, s, retries)
    case Aged(mc, pc) => AfterAged(db, mc, pc)
  }

  function AfterRun(db: Db, run: seq<Event>, retries: nat): Db {
    if run == [] then db else AfterEvent(AfterRun(db, run[..|run| - 1], retries), run[|run| - 1], retries)
  }

  predicate IsAt(m: MetricRow, hostId: string, ts: int) { m.hostId == hostId && m.ts == ts }

  /** How often the store holds a metrics row of this host and time. */
  function CountRows(rows: seq<MetricRow>, hostId: string, ts: int): nat {
    |Filter(rows, (m: MetricRow) => IsAt(m, hostId, ts))|
  }

  lemma {:induction false} CountRepeat(rows: seq<MetricRow>, m: MetricRow, c: nat, hostId: string, ts: int)
    ensures CountRows(rows + Repeat([m], c), hostId, ts)
      == CountRows(rows, hostId, ts) + (if IsAt(m, hostId, ts) then c else 0)
  {
    if c == 0 {
      assert rows + [] == rows;
    } else {
      CountRepeat(rows, m, c - 1, hostId, ts);
      assert rows + Repeat([m], c) == rows + Repeat([m], c - 1) + [m];
      FilterAppend(rows + Repeat([m], c - 1), m, (m: MetricRow) => IsAt(m, hostId, ts));
    }
  }

  lemma CountAged(rows: seq<MetricRow>, cutoff: int, hostId: string, ts: int)
    ensures CountRows(Filter(rows, (m: MetricRow) => m.ts >= cutoff), hostId, ts)
         == if ts >= cutoff then CountRows(rows, hostId, ts) else 0
  {
    var young, mine := (m: MetricRow) => m.ts >= cutoff, (m: MetricRow) => IsAt(m, hostId, ts);
    FilterCommutes(rows, young, mine);
    FilterElements(rows, mine);
    if ts >= cutoff {
      FilterAll(Filter(rows, mine), young);
    } else {
      FilterNone(Filter(rows, mine), young);
    }
  }

  function LastSeen(db: Db, hostId: string): Option<int> {
    if hostId in db.tables.hosts then db.tables.hosts[hostId].lastSeenAt else None
  }

  predicate NotLater(a: Option<int>, t: int) { a.Some? ==> a.value <= t }

  /** What one send of its own agent adds to the rows of a host at a given time. */
  lemma SendCounts(db: Db, hostId: string, s: Send, retries: nat, ts: int)
    requires retries >= 1 && ProperSend(hostId, s) && hostId in db.tables.hosts
    ensures var after := AfterSend(db, hostId, s, retries);
      var n := SendCount(db, hostId, s, retries);
      var c := Copies(db, hostId, s.batch, s.fates, n);
      && c <= retries && hostId in after.tables.hosts
      && CountRows(after.tables.metrics, hostId, ts)
         == CountRows(db.tables.metrics, hostId, ts) + (if s.batch.ts.value == ts then c else 0)
      && LastSeen(after, hostId) == (if c == 0 then LastSeen(db, hostId) else s.batch.ts)
  {
    var n := SendCount(db, hostId, s, retries);
    SendStores(db, hostId, s.batch, s.fates, retries);
    CountRepeat(db.tables.metrics, MetricOf(s.batch), Copies(db, hostId, s.batch, s.fates, n), hostId, ts);
  }

  /** What a send of another agent adds to them, whatever it sends: nothing. */
  lemma OtherSendCounts(db: Db, other: string, s: Send, retries: nat, hostId: string, ts: int)
    requires other != hostId
    ensures var after := AfterSend(db, other, s, retries);
      && CountRows(after.tables.metrics, hostId, ts) == CountRows(db.tables.metrics, hostId, ts)
      && (hostId in after.tables.hosts <==> hostId in db.tables.hosts)
      && LastSeen(after, hostId) == LastSeen(db, hostId)
  {
    var n := SendCount(db, other, s, retries);
    var c := Copies(db, other, s.batch, s.fates, n);
    AfterIsTimes(db, other, s.batch, s.fates, n);
    if Storable(db, other, s.batch) {
      RequestsHold(db, other, s.batch, s.fates, n, c);
      CountRepeat(db.tables.metrics, MetricOf(s.batch), c, hostId, ts);
    }
  }

  /** Any other event leaves the sample of a time alone, unless it is a retention run with a later cutoff. */
  lemma EventCounts(db: Db, e: Event, retries: nat, hostId: string, ts: int)
    requires retries >= 1 && hostId in db.tables.hosts
    requires e.Of(hostId) ==> ProperSend(hostId, e.send) && e.send.batch.ts.value != ts
    ensures hostId in AfterEvent(db, e, retries).tables.hosts
    ensures CountRows(AfterEvent(db, e, retries).tables.metrics, hostId, ts)
         == if e.Aged? && ts < e.metricsCutoff then 0 else CountRows(db.tables.metrics, hostId, ts)
  {
    match e
    case Sends(h, s) =>
      if h == hostId {
        SendCounts(db, hostId, s, retries, ts);
      } else {
        OtherSendCounts(db, h, s, retries, hostId, ts);
      }
    case Aged(mc, _) => CountAged(db.tables.metrics, mc, hostId, ts);
  }

  /** What any event does to lastSeenAt of a host. */
  lemma EventSeen(db: Db, e: Event, retries: nat, hostId: string)
    requires retries >= 1 && hostId in db.tables.hosts && (e.Of(hostId) ==> ProperSend(hostId, e.send))
    ensures hostId in AfterEvent(db, e, retries).tables.hosts
    ensures var seen := LastSeen(AfterEvent(db, e, retries), hostId);
      seen == LastSeen(db, hostId) || (e.Of(hostId) && seen == e.send.batch.ts)
  {
    if e.Of(hostId) {
      SendCounts(db, hostId, e.send, retries, 0);
    } else if e.Sends? {
      OtherSendCounts(db, e.hostId, e.send, retries, hostId, 0);
    }
  }

  lemma {:induction false} RunKeepsHost(db: Db, hostId: string, run: seq<Event>, retries: nat)
    requires retries >= 1 && AgentRun(hostId, run) && hostId in db.tables.hosts
    ensures hostId in AfterRun(db, run, retries).tables.hosts
  {
    if run == [] {
    } else {
      RunKeepsHost(db, hostId, run[..|run| - 1], retries);
      EventSeen(AfterRun(db, run[..|run| - 1], retries), run[|run| - 1], retries, hostId);
    }
  }

  lemma {:induction false} NothingYet(db: Db, hostId: string, run: seq<Event>, retries: nat, ts: int)
    requires retries >= 1 && AgentRun(hostId, run) && hostId in db.tables.hosts
    requires CountRows(db.tables.metrics, hostId, ts) == 0
    requires forall i :: 0 <= i < |run| && run[i].Of(hostId) ==> run[i].send.batch.ts.value != ts
    ensures CountRows(AfterRun(db, run, retries).tables.metrics, hostId, ts) == 0
  {
    if run == [] {
    } else {
      var init := run[..|run| - 1];
      NothingYet(db, hostId, init, retries, ts);
      RunKeepsHost(db, hostId, init, retries);
      EventCounts(AfterRun(db, init, retries), run[|run| - 1], retries, hostId, ts);
    }
  }

  /** No retention run from event `from` on deletes a row of this time. */
  ghost predicate Kept(run: seq<Event>, from: nat, ts: int) {
    forall j :: from <= j < |run| && run[j].Aged? ==> run[j].metricsCutoff <= ts
  }

  /** The sample of this send is in the store at most `retries` times; while it is kept, at least once if the send
      returned nil; and no longer once it has been deleted. */
  ghost predicate Delivered(before: Db, after: Db, hostId: string, s: Send, retries: nat, kept: bool)
    requires retries >= 1 && s.batch.ts.Some?
  {
    var stored := CountRows(after.tables.metrics, hostId, s.batch.ts.value);
    && stored <= retries
    && (kept && ReturnsNil(before, hostId, s, retries) ==> stored >= 1)
    && (!kept ==> stored == 0)
  }

  predicate ReturnsNil(before: Db, hostId: string, s: Send, retries: nat)
    requires retries >= 1
  {
    Verdict(OutcomeOf(before, hostId, s.batch, s.fates, SendCount(before, hostId, s, retries) - 1)) == Nil
  }

  lemma SendDelivers(before: Db, hostId: string, s: Send, retries: nat)
    requires retries >= 1 && ProperSend(hostId, s) && hostId in before.tables.hosts
    requires CountRows(before.tables.metrics, hostId, s.batch.ts.value) == 0
    ensures Delivered(before, AfterSend(before, hostId, s, retries), hostId, s, retries, true)
  {
    SendCounts(before, hostId, s, retries, s.batch.ts.value);
    SuccessStores(before, hostId, s.batch, s.fates, SendCount(before, hostId, s, retries) - 1);
  }

  /** One more event after the send. */
  lemma StillDelivered(before: Db, now: Db, e: Event, hostId: string, s: Send, retries: nat, kept: bool)
    requires retries >= 1 && s.batch.ts.Some? && hostId in now.tables.hosts
    requires e.Of(hostId) ==> ProperSend(hostId, e.send) && e.send.batch.ts.value != s.batch.ts.value
    requires Delivered(before, now, hostId, s, retries, kept)
    ensures Delivered(before, AfterEvent(now, e, retries), hostId, s, retries,
                      kept && (e.Aged? ==> e.metricsCutoff <= s.batch.ts.value))
  {
    EventCounts(now, e, retries, hostId, s.batch.ts.value);
  }

  lemma KeptLonger(run: seq<Event>, from: nat, ts: int)
    requires from < |run|
    ensures Kept(run, from, ts) <==>
      Kept(run[..|run| - 1], from, ts) && (run[|run| - 1].Aged? ==> run[|run| - 1].metricsCutoff <= ts)
  {
    var init := run[..|run| - 1];
    assert forall j :: 0 <= j < |init| ==> init[j] == run[j];
  }

  /** Over a whole run, whatever is lost and whoever else sends: the sample of event `i` is stored at most `retries`
      times, and until retention deletes it at least once when its SendIngest returned nil. */
  lemma {:induction false} RunDelivers(db: Db, hostId: string, run: seq<Event>, retries: nat, i: nat)
    requires retries >= 1 && AgentRun(hostId, run) && hostId in db.tables.hosts && i < |run| && run[i].Of(hostId)
    requires CountRows(db.tables.metrics, hostId, run[i].send.batch.ts.value) == 0
    ensures Delivered(AfterRun(db, run[..i], retries), AfterRun(db, run, retries), hostId, run[i].send, retries,
                      Kept(run, i + 1, run[i].send.batch.ts.value))
    decreases |run|
  {
    var init, last := run[..|run| - 1], run[|run| - 1];
    var before, s := AfterRun(db, init, retries), run[i].send;
    RunKeepsHost(db, hostId, init, retries);
    if i == |run| - 1 {
      NothingYet(db, hostId, init, retries, s.batch.ts.value);
      SendDelivers(before, hostId, s, retries);
    } else {
      assert init[..i] == run[..i];
      RunDelivers(db, hostId, init, retries, i);
      KeptLonger(run, i + 1, s.batch.ts.value);
      StillDelivered(AfterRun(db, run[..i], retries), before, last, hostId, s, retries,
                     Kept(init, i + 1, s.batch.ts.value));
    }
  }

  /** lastSeenAt never passes a time that neither it nor any sample sent has passed. */
  lemma {:induction false} LastSeenAtMost(db: Db, hostId: string, run: seq<Event>, retries: nat, t: int)
    requires retries >= 1 && AgentRun(hostId, run) && hostId in db.tables.hosts && NotLater(LastSeen(db, hostId), t)
    requires forall i :: 0 <= i < |run| && run[i].Of(hostId) ==> run[i].send.batch.ts.value <= t
    ensures NotLater(LastSeen(AfterRun(db, run, retries), hostId), t)
  {
    if run == [] {
    } else {
      var init := run[..|run| - 1];
      LastSeenAtMost(db, hostId, init, retries, t);
      RunKeepsHost(db, hostId, init, retries);
      EventSeen(AfterRun(db, init, retries), run[|run| - 1], retries, hostId);
    }
  }

  /** And it never goes back, at any event of any run. */
  lemma LastSeenNeverDecreases(db: Db, hostId: string, run: seq<Event>, retries: nat)
    requires retries >= 1 && AgentRun(hostId, run) && hostId in db.tables.hosts && run != []
    requires forall i :: 0 <= i < |run| && run[i].Of(hostId) ==>
      NotLater(LastSeen(db, hostId), run[i].send.batch.ts.value)
    ensures
      var before, after := LastSeen(AfterRun(db, run[..|run| - 1], retries), hostId),
                           LastSeen(AfterRun(db, run, retries), hostId);
      before.Some? ==> after.Some? && before.value <= after.value
  {
    var init, last := run[..|run| - 1], run[|run| - 1];
    RunKeepsHost(db, hostId, init, retries);
    EventSeen(AfterRun(db, init, retries), last, retries, hostId);
    if last.Of(hostId) {
      LastSeenAtMost(db, hostId, init, retries, last.send.batch.ts.value);
    }
  }
}
