/** The nightly clean-up of the three time-series tables.
    backend/src/metrics/retention.service.ts */
module Retention {
  import opened Prelude
  import AlertModel
  import AlertSafety
  import RowStore

  const DAY_MS := 86_400_000

  /** The three day counts as parseInt reads them from the environment; None for no number. */
  datatype Settings = Settings(metricsDays: Option<int>, procsDays: Option<int>, alertsDays: Option<int>)

  /** No number, and zero, fall back to the default; a negative count does not. */
  function DaysOr(days: Option<int>, fallback: int): int {
    if days.None? || days.value == 0 then fallback else days.value
  }

  datatype Tables = Tables(metrics: seq<AlertModel.Metric>, procs: seq<RowStore.Row>, events: seq<AlertModel.Event>)

  function TrimMetrics(rows: seq<AlertModel.Metric>, cutoff: int): seq<AlertModel.Metric> {
    Filter(rows, (m: AlertModel.Metric) => m.ts >= cutoff)
  }

  function TrimEvents(rows: seq<AlertModel.Event>, cutoff: int): seq<AlertModel.Event> {
    Filter(rows, (e: AlertModel.Event) => e.ts >= cutoff)
  }

  function CutoffOf(now: int, days: Option<int>, fallback: int): int { now - DaysOr(days, fallback) * DAY_MS }

  /** The tables after the first `done` of the three deletions. */
  function Cleaned(t: Tables, s: Settings, now: int, done: nat): Tables {
    Tables(
      if done >= 1 then TrimMetrics(t.metrics, CutoffOf(now, s.metricsDays, 30)) else t.metrics,
      if done >= 2 then RowStore.Younger(t.procs, CutoffOf(now, s.procsDays, 14)) else t.procs,
      if done >= 3 then TrimEvents(t.events, CutoffOf(now, s.alertsDays, 90)) else t.events)
  }

  class Service {
    const settings: Settings
    var running: bool
    var tables: Tables

    constructor (settings: Settings, tables: Tables)
      ensures this.settings == settings && this.tables == tables && !running
    {
      this.settings := settings;
      this.tables := tables;
      running := false;
    }

    /** `deletions` of the three deletions succeed before one throws, if any does. */
    method RunRetention(now: int, deletions: nat)
      modifies this
      ensures running == old(running)
      ensures tables == if old(running) then old(tables) else Cleaned(old(tables), settings, now, deletions)
    {
      if running {
        return;
      }
      running := true;
      var threw := Cleanup(now, deletions);
      running := false;
    }

    method Cleanup(now: int, deletions: nat) returns (threw: bool)
      modifies this`tables
      ensures tables == Cleaned(old(tables), settings, now, deletions)
      ensures threw <==> deletions < 3
    {
      var metricsCutoff := now - DaysOr(settings.metricsDays, 30) * DAY_MS;
      if deletions == 0 { return true; }
      tables := tables.(metrics := TrimMetrics(tables.metrics, metricsCutoff));
      var procsCutoff := now - DaysOr(settings.procsDays, 14) * DAY_MS;
      if deletions == 1 { return true; }
      tables := tables.(procs := RowStore.Younger(tables.procs, procsCutoff));
      var alertsCutoff := now - DaysOr(settings.alertsDays, 90) * DAY_MS;
      if deletions == 2 { return true; }
      tables := tables.(events := TrimEvents(tables.events, alertsCutoff));
      return false;
    }
  }

  /** A row is kept exactly while it is no older than this many days, whatever else is in the table. */
  predicate Young(ts: int, now: int, days: Option<int>, fallback: int) {
    now - ts <= (if days in {None, Some(0)} then fallback else days.value) * 86_400_000
  }

  /** A run nothing interrupts keeps the metrics of 30 days, the process rows of 14 and the events of 90, or as many as
      are configured; an interrupted one leaves the tables it did not reach. */
  lemma KeptWhileYoung(t: Tables, s: Settings, now: int, done: nat)
    ensures var left := Cleaned(t, s, now, done);
      && (forall m :: m in left.metrics <==> m in t.metrics && (done < 1 || Young(m.ts, now, s.metricsDays, 30)))
      && (forall r :: r in left.procs <==> r in t.procs && (done < 2 || Young(r.ts, now, s.procsDays, 14)))
      && (forall e :: e in left.events <==> e in t.events && (done < 3 || Young(e.ts, now, s.alertsDays, 90)))
  {
    YoungMeans(now, s.metricsDays, 30);
    YoungMeans(now, s.procsDays, 14);
    YoungMeans(now, s.alertsDays, 90);
    TrimsOlder(t, CutoffOf(now, s.metricsDays, 30));
    TrimsOlder(t, CutoffOf(now, s.procsDays, 14));
    TrimsOlder(t, CutoffOf(now, s.alertsDays, 90));
  }

  lemma YoungMeans(now: int, days: Option<int>, fallback: int)
    ensures forall ts {:trigger Young(ts, now, days, fallback)} ::
      Young(ts, now, days, fallback) <==> ts >= CutoffOf(now, days, fallback)
  {
    assert DaysOr(days, fallback) == if days in {None, Some(0)} then fallback else days.value;
  }

  lemma TrimsOlder(t: Tables, cutoff: int)
    ensures forall m :: m in TrimMetrics(t.metrics, cutoff) <==> m in t.metrics && m.ts >= cutoff
    ensures forall r :: r in RowStore.Younger(t.procs, cutoff) <==> r in t.procs && r.ts >= cutoff
    ensures forall e :: e in TrimEvents(t.events, cutoff) <==> e in t.events && e.ts >= cutoff
  {
    FilterElements(t.metrics, (m: AlertModel.Metric) => m.ts >= cutoff);
    FilterElements(t.procs, (r: RowStore.Row) => r.ts >= cutoff);
    FilterElements(t.events, (e: AlertModel.Event) => e.ts >= cutoff);
  }

  /** Runs in a row, interrupted or not, leave what the latest cutoff leaves. */
  lemma {:induction false} RunsCompose(events: seq<AlertModel.Event>, a: int, b: int)
    ensures TrimEvents(TrimEvents(events, a), b) == TrimEvents(events, if a > b then a else b)
  {
    if events == [] {
    } else {
      var init, last := events[..|events| - 1], events[|events| - 1];
      RunsCompose(init, a, b);
      FilterAppend(TrimEvents(init, a), last, (e: AlertModel.Event) => e.ts >= b);
      assert last.ts < a ==> TrimEvents(events, a) == TrimEvents(init, a);
      assert last.ts < b ==> TrimEvents(init, b) + [] == TrimEvents(init, b);
    }
  }

  /** No run breaks the alternation of firing and resolved in any pair's log. */
  lemma RetentionKeepsAlternating(events: seq<AlertModel.Event>, cutoff: int)
    requires forall p :: AlertModel.Alternating(AlertModel.Log(events, p))
    ensures forall p :: AlertModel.Alternating(AlertModel.Log(TrimEvents(events, cutoff), p))
  {
    AlertSafety.RetentionShrinks(events, cutoff);
    AlertSafety.ShrinkKeepsAlternating(events, TrimEvents(events, cutoff));
  }
}
