/** The hosts cache under concurrency. A findAll captures the time, then awaits two queries,
    then writes the cache and returns; commits, invalidations and other findAlls run in
    between. The store keeps every committed version so that replies can be dated. */
module HostsCache {
  import opened Prelude
  import opened HostsModel
  import AlertModel

  datatype Version = Version(tables: Tables, at: int)

  /** Where a list came from: the time its call captured, and the versions its two queries saw. */
  datatype Source = Source(
    now: int, hosts: seq<HostRow>, hostsAt: nat, recent: seq<MetricRow>, metricsAt: nat)

  datatype Entry = Entry(data: seq<HostView>, expiresAt: int, src: Source)

  datatype Call =
    | Asked(start: int, onlineOnly: Option<bool>)
    | GotHosts(start: int, onlineOnly: Option<bool>, hosts: seq<HostRow>, hostsAt: nat)
    | GotBoth(start: int, onlineOnly: Option<bool>, src: Source)
    | Replied(start: int, onlineOnly: Option<bool>, data: seq<HostView>, src: Source)
    | Failed(start: int, onlineOnly: Option<bool>)

  datatype State = State(clock: int, versions: seq<Version>, hostsCache: Option<Entry>, calls: map<nat, Call>)

  datatype Step =
    | Wait(now: int)
    | Ask(k: nat, onlineOnly: Option<bool>)
    | ReadHosts(k: nat, rows: seq<HostRow>)
    | ReadMetrics(k: nat, recent: seq<MetricRow>)
    | Finish(k: nat)
    | Fail(k: nat)
    | Commit(tables: Tables)
    | Invalidate

  function Current(s: State): Tables
    requires s.versions != []
  {
    s.versions[|s.versions| - 1].tables
  }

  predicate Hit(s: State, onlineOnly: Option<bool>) {
    s.hostsCache.Some? && s.hostsCache.value.expiresAt > s.clock && onlineOnly == None
  }

  ghost predicate Enabled(s: State, st: Step) {
    && s.versions != []
    && match st
       case Wait(now) => now >= s.clock
       case Ask(k, _) => k !in s.calls
       case ReadHosts(k, rows) => k in s.calls && s.calls[k].Asked? && HostsAnswer(Current(s), rows)
       case ReadMetrics(k, rows) =>
         k in s.calls && s.calls[k].GotHosts? && RecentAnswer(Current(s), s.calls[k].start, rows)
       case Finish(k) => k in s.calls && s.calls[k].GotBoth?
       case Fail(k) => k in s.calls && (s.calls[k].Asked? || s.calls[k].GotHosts?)
       case _ => true
  }

  function Data(src: Source, onlineOnly: Option<bool>): seq<HostView> {
    Reply(src.hosts, src.recent, src.now, onlineOnly)
  }

  function Apply(s: State, st: Step): State
    requires Enabled(s, st)
  {
    match st
    case Wait(now) => s.(clock := now)
    case Ask(k, onlineOnly) =>
      var call := if Hit(s, onlineOnly)
                  then Replied(s.clock, onlineOnly, s.hostsCache.value.data, s.hostsCache.value.src)
                  else Asked(s.clock, onlineOnly);
      s.(calls := s.calls[k := call])
    case ReadHosts(k, rows) =>
      var c := s.calls[k];
      s.(calls := s.calls[k := GotHosts(c.start, c.onlineOnly, rows, |s.versions| - 1)])
    case ReadMetrics(k, rows) =>
      var c := s.calls[k];
      var src := Source(c.start, c.hosts, c.hostsAt, rows, |s.versions| - 1);
      s.(calls := s.calls[k := GotBoth(c.start, c.onlineOnly, src)])
    case Finish(k) =>
      var c := s.calls[k];
      var data := Data(c.src, c.onlineOnly);
      var entry := Entry(data, c.start + HOSTS_CACHE_TTL_MS, c.src);
      s.(hostsCache := if c.onlineOnly == None then Some(entry) else s.hostsCache,
         calls := s.calls[k := Replied(c.start, c.onlineOnly, data, c.src)])
    case Fail(k) => s.(calls := s.calls[k := Failed(s.calls[k].start, s.calls[k].onlineOnly)])
    case Commit(t) => s.(versions := s.versions + [Version(t, s.clock)])
    case Invalidate => s.(hostsCache := None)
  }

  ghost predicate ValidRun(s: State, steps: seq<Step>)
    decreases |steps|
  {
    steps == [] || (Enabled(s, steps[0]) && ValidRun(Apply(s, steps[0]), steps[1..]))
  }

  ghost function Exec(s: State, steps: seq<Step>): State
    requires ValidRun(s, steps)
    decreases |steps|
  {
    if steps == [] then s else Exec(Apply(s, steps[0]), steps[1..])
  }

  ghost predicate Init(s: State) {
    |s.versions| == 1 && s.versions[0].at <= s.clock && s.hostsCache == None && s.calls == map[]
  }

  // ---- Invariant -----------------------------------------------------------------------------

  /** Every write committed before time `t` is in version `v` or an earlier one. */
  ghost predicate CoversBefore(s: State, v: nat, t: int) {
    v < |s.versions| && forall i :: v < i < |s.versions| ==> s.versions[i].at >= t
  }

  ghost predicate SourceOk(s: State, src: Source) {
    && src.hostsAt <= src.metricsAt < |s.versions|
    && CoversBefore(s, src.hostsAt, src.now)
    && HostsAnswer(s.versions[src.hostsAt].tables, src.hosts)
    && RecentAnswer(s.versions[src.metricsAt].tables, src.now, src.recent)
  }

  ghost predicate CallOk(s: State, c: Call) {
    && c.start <= s.clock
    && match c
       case Asked(_, _) => true
       case GotHosts(start, _, hosts, v) =>
         CoversBefore(s, v, start) && HostsAnswer(s.versions[v].tables, hosts)
       case GotBoth(start, _, src) => src.now == start && SourceOk(s, src)
       case Replied(start, onlineOnly, data, src) =>
         && SourceOk(s, src) && data == Data(src, onlineOnly)
         && (src.now == start || (onlineOnly == None && start - HOSTS_CACHE_TTL_MS < src.now <= start))
       case Failed(_, _) => true
  }

  ghost predicate Inv(s: State) {
    && s.versions != []
    && (forall i, j :: 0 <= i <= j < |s.versions| ==> s.versions[i].at <= s.versions[j].at <= s.clock)
    && (s.hostsCache.Some? ==>
          var e := s.hostsCache.value;
          SourceOk(s, e.src) && e.data == Data(e.src, None) && e.expiresAt == e.src.now + HOSTS_CACHE_TTL_MS
          && e.src.now <= s.clock)
    && (forall k :: k in s.calls ==> CallOk(s, s.calls[k]))
  }

  lemma CommitKeepsInv(s: State, t: Tables)
    requires Inv(s)
    ensures Inv(s.(versions := s.versions + [Version(t, s.clock)]))
  {
    var u := s.(versions := s.versions + [Version(t, s.clock)]);
    assert forall i :: 0 <= i < |s.versions| ==> u.versions[i] == s.versions[i];
    forall k | k in u.calls ensures CallOk(u, u.calls[k]) {
      assert CallOk(s, s.calls[k]);
      CommitKeepsCall(s, t, s.calls[k]);
    }
    if s.hostsCache.Some? {
      CommitKeepsSource(s, t, s.hostsCache.value.src);
    }
  }

  lemma CommitKeepsSource(s: State, t: Tables, src: Source)
    requires SourceOk(s, src) && src.now <= s.clock
    ensures SourceOk(s.(versions := s.versions + [Version(t, s.clock)]), src)
  {
  }

  lemma CommitKeepsCall(s: State, t: Tables, c: Call)
    requires CallOk(s, c)
    ensures CallOk(s.(versions := s.versions + [Version(t, s.clock)]), c)
  {
    if c.GotBoth? || c.Replied? {
      CommitKeepsSource(s, t, c.src);
    }
  }

  lemma SameVersions(s: State, t: State, c: Call)
    requires CallOk(s, c) && t.versions == s.versions && s.clock <= t.clock
    ensures CallOk(t, c)
  {
  }

  /** The call that takes the step stays in order. */
  lemma OwnStepKeepsCall(s: State, st: Step)
    requires Inv(s) && Enabled(s, st) && !st.Wait? && !st.Commit? && !st.Invalidate?
    ensures CallOk(s, Apply(s, st).calls[st.k])
  {
    if st.k in s.calls { assert CallOk(s, s.calls[st.k]); }
  }

  lemma StepKeepsInv(s: State, st: Step)
    requires Inv(s) && Enabled(s, st)
    ensures Inv(Apply(s, st))
  {
    if st.Commit? {
      CommitKeepsInv(s, st.tables);
    } else {
      var t := Apply(s, st);
      if !st.Wait? && !st.Invalidate? {
        OwnStepKeepsCall(s, st);
      }
      forall k | k in t.calls ensures CallOk(t, t.calls[k]) {
        assert CallOk(s, t.calls[k]);
        SameVersions(s, t, t.calls[k]);
      }
      if st.Finish? { assert CallOk(s, s.calls[st.k]); }
    }
  }

  lemma {:induction false} RunKeepsInv(s: State, steps: seq<Step>)
    requires Inv(s) && ValidRun(s, steps)
    ensures Inv(Exec(s, steps))
    decreases |steps|
  {
    if steps == [] {
    } else {
      StepKeepsInv(s, steps[0]);
      RunKeepsInv(Apply(s, steps[0]), steps[1..]);
    }
  }

  // ---- Staleness -------------------------------------------------------------------------------

  /** Every reply of every run is the list of some committed versions, and it reflects every write
      committed 5 s or more before its call started; a filtered reply every write before its call. */
  lemma RepliesAreFresh(s: State, steps: seq<Step>, k: nat)
    requires Init(s) && ValidRun(s, steps)
    requires k in Exec(s, steps).calls && Exec(s, steps).calls[k].Replied?
    ensures
      var end := Exec(s, steps);
      var c := end.calls[k];
      && c.src.hostsAt <= c.src.metricsAt < |end.versions|
      && HostsAnswer(end.versions[c.src.hostsAt].tables, c.src.hosts)
      && RecentAnswer(end.versions[c.src.metricsAt].tables, c.src.now, c.src.recent)
      && c.data == Reply(c.src.hosts, c.src.recent, c.src.now, c.onlineOnly)
      && (forall i :: 0 <= i < |end.versions| && end.versions[i].at <= c.start - 5_000 ==>
          i <= c.src.hostsAt)
      && (c.onlineOnly.Some? ==>
            c.src.now == c.start && forall i :: 0 <= i < |end.versions| && end.versions[i].at < c.start ==>
              i <= c.src.hostsAt)
  {
    RunKeepsInv(s, steps);
    assert CallOk(Exec(s, steps), Exec(s, steps).calls[k]);
  }

  /** No version moves a host's lastSeenAt back. */
  ghost predicate LastSeenGrows(versions: seq<Version>) {
    forall i, j, id :: 0 <= i <= j < |versions| && id in versions[i].tables.hosts && id in versions[j].tables.hosts ==>
      var a, b := versions[i].tables.hosts[id].lastSeenAt, versions[j].tables.hosts[id].lastSeenAt;
      a.Some? ==> b.Some? && b.value >= a.value
  }

  /** A host that a reply, cached or fresh, shows online was seen less than 35 s before the call
      started, in the version read and in every later one; so the alert engine does not call it
      down at that time and the health endpoint counts it online. */
  lemma ShownOnlineIsNotDown(s: State, steps: seq<Step>, k: nat, view: HostView, j: nat)
    requires Init(s) && ValidRun(s, steps)
    requires k in Exec(s, steps).calls && Exec(s, steps).calls[k].Replied?
    requires view in Exec(s, steps).calls[k].data && view.online
    requires LastSeenGrows(Exec(s, steps).versions)
    requires Exec(s, steps).calls[k].src.hostsAt <= j < |Exec(s, steps).versions|
    requires view.host.id in Exec(s, steps).versions[j].tables.hosts
    ensures
      var t := Exec(s, steps).calls[k].start;
      var row := Exec(s, steps).versions[j].tables.hosts[view.host.id];
      && row.lastSeenAt.Some? && row.lastSeenAt.value > t - 35_000
      && !AlertModel.IsDown(AlertModel.Host(row.lastSeenAt), t)
      && row.lastSeenAt.value >= t - 120_000
  {
    var end := Exec(s, steps);
    var c := end.calls[k];
    RunKeepsInv(s, steps);
    assert CallOk(end, c);
    ReplyRows(end.versions[c.src.hostsAt].tables, c.src.hosts, c.src.recent, c.src.now, c.onlineOnly, view);
  }

  lemma ReplyRows(
      t: Tables, hosts: seq<HostRow>, recent: seq<MetricRow>, now: int, onlineOnly: Option<bool>, view: HostView)
    requires HostsAnswer(t, hosts) && view in Reply(hosts, recent, now, onlineOnly)
    ensures view.host.id in t.hosts && t.hosts[view.host.id] == view.host && view.online == Online(view.host, now)
  {
    var views := Views(hosts, FirstByHost(recent), now);
    FilterElements(views, (v: HostView) => Shown(onlineOnly, v));
    var i :| 0 <= i < |views| && views[i] == view;
    assert hosts[i] in hosts;
  }

  // ---- Read after ingest -------------------------------------------------------------------------

  /** An unfiltered findAll already holds rows older than version `v` and could still cache them. */
  ghost predicate StaleCall(s: State, c: Call, v: nat) {
    && (c.GotHosts? || c.GotBoth?) && c.onlineOnly == None
    && (if c.GotHosts? then c.hostsAt else c.src.hostsAt) < v
    && c.start + HOSTS_CACHE_TTL_MS > s.clock
  }

  ghost predicate StaleEntry(s: State, v: nat) {
    s.hostsCache.Some? && s.hostsCache.value.src.hostsAt < v && s.hostsCache.value.expiresAt > s.clock
  }

  /** A findAll that starts from now on may still miss version `v`. */
  ghost predicate AtRisk(s: State, v: nat) {
    StaleEntry(s, v) || exists k :: k in s.calls && StaleCall(s, s.calls[k], v)
  }

  /** Calls that are not in `before` have only seen version `v` or later. */
  ghost predicate NewCallsSee(s: State, before: set<nat>, v: nat) {
    && v < |s.versions|
    && (forall k :: k in s.calls && k !in before ==>
          var c := s.calls[k];
          && (c.GotHosts? ==> c.hostsAt >= v)
          && (c.GotBoth? || c.Replied? ==> c.src.hostsAt >= v))
  }

  /** No step puts a version at risk again. */
  lemma StepKeepsSafe(s: State, st: Step, v: nat)
    requires Inv(s) && Enabled(s, st) && !AtRisk(s, v) && v < |s.versions|
    ensures !AtRisk(Apply(s, st), v)
  {
    var t := Apply(s, st);
    forall k | k in t.calls ensures !StaleCall(t, t.calls[k], v) {
      if k in s.calls { assert !StaleCall(s, s.calls[k], v); }
    }
    if st.Finish? {
      assert !StaleCall(s, s.calls[st.k], v);
    }
  }

  lemma StepKeepsSeeing(s: State, st: Step, before: set<nat>, v: nat)
    requires Inv(s) && Enabled(s, st) && !AtRisk(s, v) && NewCallsSee(s, before, v)
    ensures NewCallsSee(Apply(s, st), before, v)
  {
  }

  lemma {:induction false} SafeRun(s: State, steps: seq<Step>, before: set<nat>, v: nat)
    requires Inv(s) && ValidRun(s, steps) && !AtRisk(s, v) && NewCallsSee(s, before, v)
    ensures NewCallsSee(Exec(s, steps), before, v)
    decreases |steps|
  {
    if steps == [] {
    } else {
      StepKeepsInv(s, steps[0]);
      StepKeepsSafe(s, steps[0], v);
      StepKeepsSeeing(s, steps[0], before, v);
      SafeRun(Apply(s, steps[0]), steps[1..], before, v);
    }
  }

  /** Once nothing stale is in flight or cached, every findAll started later sees version `v`, in every run. */
  lemma ReadAfterWriteHolds(s: State, steps: seq<Step>, v: nat, k: nat)
    requires Inv(s) && v < |s.versions| && !AtRisk(s, v)
    requires ValidRun(s, steps)
    requires k !in s.calls && k in Exec(s, steps).calls && Exec(s, steps).calls[k].Replied?
    ensures Exec(s, steps).calls[k].src.hostsAt >= v
  {
    SafeRun(s, steps, s.calls.Keys, v);
  }

  ghost predicate Misses(s: State, k: nat, v: nat) {
    k in s.calls && s.calls[k].Replied? && s.calls[k].src.hostsAt < v
  }

  /** Otherwise some run lets a findAll started later miss version `v` (`rows`: what the store
      answers to the metrics query now). */
  lemma ReadAfterWriteFails(s: State, v: nat, k: nat, j: nat, rows: seq<MetricRow>)
    requires Inv(s) && v < |s.versions|
    requires
      || StaleEntry(s, v)
      || (j in s.calls && StaleCall(s, s.calls[j], v) && RecentAnswer(Current(s), s.calls[j].start, rows))
    requires k !in s.calls
    ensures exists steps: seq<Step> :: ValidRun(s, steps) && Misses(Exec(s, steps), k, v)
  {
    if StaleEntry(s, v) {
      StaleEntryMisses(s, [], v, k);
    } else if s.calls[j].GotBoth? {
      RunThen(s, [], Finish(j));
      StaleEntryMisses(s, [] + [Finish(j)], v, k);
    } else {
      assert CallOk(s, s.calls[j]);
      RunThen(s, [], ReadMetrics(j, rows));
      RunThen(s, [] + [ReadMetrics(j, rows)], Finish(j));
      StaleEntryMisses(s, [] + [ReadMetrics(j, rows)] + [Finish(j)], v, k);
    }
  }

  lemma StaleEntryMisses(s: State, steps: seq<Step>, v: nat, k: nat)
    requires ValidRun(s, steps) && StaleEntry(Exec(s, steps), v)
    requires k !in Exec(s, steps).calls && Exec(s, steps).versions != []
    ensures exists steps: seq<Step> :: ValidRun(s, steps) && Misses(Exec(s, steps), k, v)
  {
    RunThen(s, steps, Ask(k, None));
    assert Misses(Exec(s, steps + [Ask(k, None)]), k, v);
  }

  /** One more step at the end of a run. */
  lemma {:induction false} RunThen(s: State, steps: seq<Step>, last: Step)
    requires ValidRun(s, steps) && Enabled(Exec(s, steps), last)
    ensures ValidRun(s, steps + [last]) && Exec(s, steps + [last]) == Apply(Exec(s, steps), last)
    decreases |steps|
  {
    if steps == [] {
      assert ([] + [last])[1..] == [] && ([] + [last])[0] == last;
    } else {
      assert (steps + [last])[1..] == steps[1..] + [last];
      RunThen(Apply(s, steps[0]), steps[1..], last);
    }
  }

  /** An ingest that commits and invalidates while a findAll is between its queries leaves the
      cache service at risk: a reachable state. */
  lemma IngestDuringFindAllIsAtRisk(hosts: seq<HostRow>, before: Tables, after: Tables)
    requires HostsAnswer(before, hosts)
    ensures
      var s := State(0, [Version(before, 0)], None, map[]);
      var steps := [Ask(0, None), ReadHosts(0, hosts), Commit(after), Invalidate];
      && Init(s) && ValidRun(s, steps)
      && AtRisk(Exec(s, steps), 1) && Exec(s, steps).hostsCache == None
  {
    var s := State(0, [Version(before, 0)], None, map[]);
    RunThen(s, [], Ask(0, None));
    assert [] + [Ask(0, None)] == [Ask(0, None)];
    RunThen(s, [Ask(0, None)], ReadHosts(0, hosts));
    assert [Ask(0, None)] + [ReadHosts(0, hosts)] == [Ask(0, None), ReadHosts(0, hosts)];
    RunThen(s, [Ask(0, None), ReadHosts(0, hosts)], Commit(after));
    assert [Ask(0, None), ReadHosts(0, hosts)] + [Commit(after)] == [Ask(0, None), ReadHosts(0, hosts), Commit(after)];
    RunThen(s, [Ask(0, None), ReadHosts(0, hosts), Commit(after)], Invalidate);
    assert [Ask(0, None), ReadHosts(0, hosts), Commit(after)] + [Invalidate]
        == [Ask(0, None), ReadHosts(0, hosts), Commit(after), Invalidate];
    var steps := [Ask(0, None), ReadHosts(0, hosts), Commit(after), Invalidate];
    assert StaleCall(Exec(s, steps), Exec(s, steps).calls[0], 1);
  }
}
