/** Where a walk over pages ends: the process fallback, a growing metrics table, and a cursor row that is gone. */
module PagingEnds {
  import opened Prelude
  import opened RowStore
  import opened Paging
  import opened PagingWalks

  function Same(table: seq<Row>, n: nat): seq<seq<Row>> { seq(n, i => table) }

  lemma {:induction false} SameServes(fetch: Fetch, table: seq<Row>, n: nat, w: Where, limit: Limit)
    requires PagesWindow(fetch, w, limit) && Keyed(w.Window(table))
    ensures AllServe(fetch, Same(table, n), w, limit, w.Window(table))
  {
    if n == 0 {
    } else {
      var first := w.Window(table);
      assert FollowsWith(first, first, [], |first|);
      FollowingServes(fetch, table, w, limit, first);
      assert Same(table, n)[1..] == Same(table, n - 1);
      SameServes(fetch, table, n - 1, w, limit);
    }
  }

  /** On a table that stays as it is, enough requests return the window exactly. */
  lemma WalkOfSame(fetch: Fetch, table: seq<Row>, n: nat, w: Where, limit: Limit)
    requires PagesWindow(fetch, w, limit) && Keyed(w.Window(table))
    requires fetch(table, None) == RowPage(w.Window(table), limit, None)
    requires n >= NeededRequests(|w.Window(table)|, limit)
    ensures Walk(fetch, Same(table, n), None) == Walked(w.Window(table), true)
  {
    var tables, first := Same(table, n), w.Window(table);
    SameServes(fetch, table, n - 1, w, limit);
    assert tables[1..] == Same(table, n - 1);
    WalkFromStart(fetch, tables, w, limit, first);
    NothingGone(Walk(fetch, tables, None), tables, w, first);
  }

  lemma NothingGone(r: Walked, tables: seq<seq<Row>>, w: Where, first: seq<Row>)
    requires Returns(r, tables, w, first, 0) && r.done
    requires forall i :: 0 <= i < |tables| ==> w.Window(tables[i]) == first
    ensures r.rows == first
  {
    var n: nat := |r.rows|;
    assert RestGone(tables, w, first, n);
    forall j | n <= j < |first| ensures !Gone(tables, w, first[j]) {
      assert first[j] in first;
    }
    if n < |first| {
      RestIncludes(tables, w, first, n);
    }
  }

  lemma RestIncludes(tables: seq<seq<Row>>, w: Where, first: seq<Row>, j: nat)
    requires j < |first| && RestGone(tables, w, first, j)
    ensures Gone(tables, w, first[j])
  {
  }

  lemma MetricWalkIsWindow(q: MetricQuery, table: seq<Row>, n: nat)
    requires Keyed(table) && n >= NeededRequests(|q.Where().Window(table)|, q.limit)
    ensures Walk((t, c) => MetricPage(t, q, c), Same(table, n), None) == Walked(q.Where().Window(table), true)
    ensures forall r :: r in Walk((t, c) => MetricPage(t, q, c), Same(table, n), None).rows <==>
      r in table && r.hostId == q.hostId && q.from <= r.ts <= q.to
  {
    WindowMeaning(table, q.Where());
    MetricPages(q);
    WindowKeyed(table, q.Where());
    WalkOfSame((t, c) => MetricPage(t, q, c), table, n, q.Where(), q.limit);
  }

  // ---- The fallback of the process list ------------------------------------------------------

  /** What a client that follows nextCursor should see: the window, or the host's history when that is empty. */
  function Promised(table: seq<Row>, q: ProcessQuery): seq<Row> {
    var window := q.Where().Window(table);
    if window == [] && q.Where().Bounded() then q.Where().Host().Window(table) else window
  }

  lemma FallbackWalk(q: ProcessQuery, table: seq<Row>, n: nat)
    requires Keyed(table) && !NoFallback(table, q) && n >= 2
    ensures ProcessWalk(q, Same(table, n)) == Walked(Take(Promised(table, q), q.limit), true)
  {
    var history := Promised(table, q);
    ProcessPages(q);
    ProcessPageFirst(q, table);
    WindowKeyed(table, q.Where().Host());
    PageOfTake(history, q.limit);
    var fetch := (t, c) => ProcessPage(t, q, c);
    var tables := Same(table, n);
    WalkUnfolds(fetch, tables, None);
    if |history| > q.limit {
      var cursor := Some(history[q.limit - 1].id);
      assert tables[1..][0] == table;
      assert fetch(table, cursor) == Page([], None);
      WalkUnfolds(fetch, tables[1..], cursor);
    }
  }

  /** The walk keeps the promise exactly when no fallback is needed or the history fits on one page. */
  lemma WalkKeepsPromise(q: ProcessQuery, table: seq<Row>, n: nat)
    requires Keyed(table) && n >= 2 && n >= NeededRequests(|q.Where().Window(table)|, q.limit)
    ensures var r := ProcessWalk(q, Same(table, n));
      r.done && (r.rows == Promised(table, q) <==> NoFallback(table, q) || |Promised(table, q)| <= q.limit)
  {
    if NoFallback(table, q) {
      ProcessPages(q);
      ProcessPageFirst(q, table);
      WindowKeyed(table, q.Where());
      WalkOfSame((t, c) => ProcessPage(t, q, c), table, n, q.Where(), q.limit);
    } else {
      FallbackWalk(q, table, n);
    }
  }

  /** Which rows that is: those inside the bounds, or all of the host when none is and bounds were given. */
  lemma PromisedMeaning(table: seq<Row>, q: ProcessQuery)
    ensures
      var inside := AnyInside(table, q.hostId, q.from, q.to);
      && (NoFallback(table, q) <==> inside || (q.from.None? && q.to.None?))
      && (inside ==> forall r :: r in Promised(table, q) <==> r in table && Inside(r, q.hostId, q.from, q.to))
      && (!inside ==> forall r :: r in Promised(table, q) <==>
            r in table && r.hostId == q.hostId && !NoFallback(table, q))
  {
    WindowMeaning(table, q.Where());
    WindowEmpty(table, q.Where());
    WindowMeaning(table, q.Where().Host());
  }

  /** The rows a client gets by following nextCursor: all those inside the bounds; or, when there are none and bounds
      were given, the host's history, cut at the limit. */
  lemma ProcessWalkRows(q: ProcessQuery, table: seq<Row>, n: nat)
    requires Keyed(table) && n >= 2 && n >= NeededRequests(|q.Where().Window(table)|, q.limit)
    ensures var rows := ProcessWalk(q, Same(table, n)).rows;
      if AnyInside(table, q.hostId, q.from, q.to) then
        forall r :: r in rows <==> r in table && Inside(r, q.hostId, q.from, q.to)
      else if q.from.None? && q.to.None? then rows == []
      else
        && |rows| <= q.limit && (forall r :: r in rows ==> r in table && r.hostId == q.hostId)
        && (|rows| < q.limit ==> forall r :: r in table && r.hostId == q.hostId ==> r in rows)
  {
    PromisedMeaning(table, q);
    WalkKeepsPromise(q, table, n);
    if !NoFallback(table, q) {
      FallbackWalk(q, table, n);
      var rows, all := ProcessWalk(q, Same(table, n)).rows, Promised(table, q);
      forall r | r in rows ensures r in all {
        var i :| 0 <= i < |rows| && rows[i] == r;
        assert all[i] == r;
      }
    } else {
      WindowEmpty(table, q.Where());
    }
  }

  // ---- Oldest first: the metrics table -------------------------------------------------------

  ghost predicate Prefix(a: seq<Row>, b: seq<Row>) { |a| <= |b| && a == b[..|a|] }

  /** Between requests only ingests happen: they add rows behind the others. */
  ghost predicate Grows(tables: seq<seq<Row>>) {
    tables != [] ==> Keyed(tables[0]) && (|tables| >= 2 ==> Prefix(tables[0], tables[1])) && Grows(tables[1..])
  }

  /** `rows` is what the window holds behind its first `k`, all of it when the walk has ended. */
  ghost predicate SnapshotAt(r: Walked, window: seq<Row>, k: nat) {
    && k + |r.rows| <= |window|
    && r.rows == window[k..k + |r.rows|]
    && (r.done ==> k + |r.rows| == |window|)
  }

  /** A snapshot as of the last of the `made` requests. */
  ghost predicate Snapshot(r: Walked, made: nat, tables: seq<seq<Row>>, w: Where, k: nat) {
    && 1 <= made <= |tables|
    && SnapshotAt(r, w.Window(tables[made - 1]), k)
    && Prefix(w.Window(tables[0]), w.Window(tables[made - 1]))
  }

  lemma PrefixWindow(a: seq<Row>, b: seq<Row>, w: Where)
    requires Prefix(a, b)
    ensures Prefix(w.Window(a), w.Window(b))
  {
    assert b == a + b[|a|..];
    FilterConcat(a, b[|a|..], (r: Row) => w.Matches(r));
  }

  /** Every page is one of the window the request finds. */
  ghost predicate ServesOwn(fetch: Fetch, table: seq<Row>, w: Where, limit: Limit) {
    var f := w.Window(table);
    forall k :: 1 <= k <= |f| ==> ServesBehind(fetch, table, limit, f, |f|, k)
  }

  ghost predicate ServesGrowing(fetch: Fetch, tables: seq<seq<Row>>, w: Where, limit: Limit) {
    tables != [] ==>
      && ServesOwn(fetch, tables[0], w, limit)
      && (|tables| >= 2 ==> Prefix(w.Window(tables[0]), w.Window(tables[1])))
      && ServesGrowing(fetch, tables[1..], w, limit)
  }

  lemma OwnPages(fetch: Fetch, table: seq<Row>, w: Where, limit: Limit)
    requires PagesWindow(fetch, w, limit) && Keyed(table)
    ensures ServesOwn(fetch, table, w, limit)
  {
    var f := w.Window(table);
    WindowKeyed(table, w);
    assert FollowsWith(f, f, [], |f|);
    forall k | 1 <= k <= |f| ensures ServesBehind(fetch, table, limit, f, |f|, k) {
      PageBehind(f, f, [], |f|, k, limit);
    }
  }

  lemma {:induction false} GrowingServes(fetch: Fetch, tables: seq<seq<Row>>, w: Where, limit: Limit)
    requires PagesWindow(fetch, w, limit) && Grows(tables)
    ensures ServesGrowing(fetch, tables, w, limit)
  {
    if tables == [] {
    } else {
      OwnPages(fetch, tables[0], w, limit);
      if |tables| >= 2 { PrefixWindow(tables[0], tables[1], w); }
      GrowingServes(fetch, tables[1..], w, limit);
    }
  }

  lemma SnapshotLast(fetch: Fetch, tables: seq<seq<Row>>, cursor: Option<string>, w: Where, limit: Limit, k: nat)
    requires tables != []
    requires var f := w.Window(tables[0]);
      IsPage(fetch(tables[0], cursor), f, k, |f|, limit) && (|f| <= k + limit || |tables| == 1)
    ensures Snapshot(Walk(fetch, tables, cursor), Made(fetch, tables, cursor), tables, w, k)
  {
    WalkUnfolds(fetch, tables, cursor);
    MadeUnfolds(fetch, tables, cursor);
    var page := fetch(tables[0], cursor);
    assert page.data + [] == page.data;
  }

  lemma SlicesJoin(g: seq<Row>, a: nat, b: nat, c: nat)
    requires a <= b <= c <= |g|
    ensures g[a..b] + g[b..c] == g[a..c]
  {
  }

  lemma PrefixSlice(f: seq<Row>, g: seq<Row>, k: nat, next: nat)
    requires Prefix(f, g) && k <= next <= |f|
    ensures f[k..next] == g[k..next]
  {
  }

  /** A page of `f`, then what is left of its extension `g`. */
  lemma SnapshotThrough(data: seq<Row>, rest: Walked, f: seq<Row>, g: seq<Row>, k: nat, next: nat)
    requires k <= next <= |f| && data == f[k..next] && Prefix(f, g) && SnapshotAt(rest, g, next)
    ensures SnapshotAt(Walked(data + rest.rows, rest.done), g, k)
  {
    PrefixSlice(f, g, k, next);
    SlicesJoin(g, k, next, next + |rest.rows|);
  }

  lemma SnapshotNext(fetch: Fetch, tables: seq<seq<Row>>, cursor: Option<string>, w: Where, f: seq<Row>, k: nat,
      next: nat)
    requires |tables| >= 2 && f == w.Window(tables[0]) && 1 <= next && k <= next < |f| && Prefix(f, w.Window(tables[1]))
    requires fetch(tables[0], cursor) == Page(f[k..next], Some(f[next - 1].id))
    requires Snapshot(Walk(fetch, tables[1..], Some(f[next - 1].id)), Made(fetch, tables[1..], Some(f[next - 1].id)),
                      tables[1..], w, next)
    ensures Snapshot(Walk(fetch, tables, cursor), Made(fetch, tables, cursor), tables, w, k)
  {
    WalkUnfolds(fetch, tables, cursor);
    MadeUnfolds(fetch, tables, cursor);
    var rest, made := Walk(fetch, tables[1..], Some(f[next - 1].id)), Made(fetch, tables[1..], Some(f[next - 1].id));
    assert tables[made] == tables[1..][made - 1];
    SnapshotThrough(f[k..next], rest, f, w.Window(tables[made]), k, next);
  }

  /** From a page at `k` on. */
  lemma {:induction false} WalkGrowing(fetch: Fetch, tables: seq<seq<Row>>, cursor: Option<string>, w: Where,
      limit: Limit, k: nat)
    requires tables != [] && ServesGrowing(fetch, tables, w, limit)
    requires var f := w.Window(tables[0]); IsPage(fetch(tables[0], cursor), f, k, |f|, limit)
    ensures Snapshot(Walk(fetch, tables, cursor), Made(fetch, tables, cursor), tables, w, k)
    decreases |tables|
  {
    var f, next := w.Window(tables[0]), k + limit;
    if |f| <= next || |tables| == 1 {
      SnapshotLast(fetch, tables, cursor, w, limit, k);
    } else {
      var g := w.Window(tables[1]);
      assert g[next - 1] == f[next - 1];
      assert ServesBehind(fetch, tables[1..][0], limit, g, |g|, next);
      WalkGrowing(fetch, tables[1..], Some(f[next - 1].id), w, limit, next);
      SnapshotNext(fetch, tables, cursor, w, f, k, next);
    }
  }

  /** While samples keep arriving, a walk over the metrics that ends has returned the whole window as the last request
      it made found it; one that has not ended has returned the first rows of it. */
  lemma MetricWalkIsSnapshot(q: MetricQuery, tables: seq<seq<Row>>)
    requires tables != [] && Grows(tables)
    ensures Snapshot(Walk((t, c) => MetricPage(t, q, c), tables, None),
                     Made((t, c) => MetricPage(t, q, c), tables, None), tables, q.Where(), 0)
  {
    var first := q.Where().Window(tables[0]);
    MetricPages(q);
    FirstPage(first, q.limit);
    GrowingServes((t, c) => MetricPage(t, q, c), tables, q.Where(), q.limit);
    WalkGrowing((t, c) => MetricPage(t, q, c), tables, None, q.Where(), q.limit, 0);
  }

  // ---- Retention under a walk ----------------------------------------------------------------

  ghost predicate OldestFirst(rows: seq<Row>) {
    forall i, j :: 0 <= i < j < |rows| ==> rows[i].ts <= rows[j].ts
  }

  lemma {:induction false} RetainedSuffix(rows: seq<Row>, cutoff: int) returns (d: nat)
    requires OldestFirst(rows)
    ensures d <= |rows| && Younger(rows, cutoff) == rows[d..]
    ensures forall i :: 0 <= i < |rows| ==> (i < d <==> rows[i].ts < cutoff)
  {
    if rows == [] {
      d := 0;
    } else if rows[|rows| - 1].ts < cutoff {
      FilterNone(rows, (r: Row) => r.ts >= cutoff);
      d := |rows|;
    } else {
      d := RetainedSuffix(rows[..|rows| - 1], cutoff);
      assert rows[..|rows| - 1][d..] + [rows[|rows| - 1]] == rows[d..];
    }
  }

  lemma BehindSuffix(f: seq<Row>, d: nat, k: nat)
    requires DistinctIds(f) && d <= |f| && 1 <= k <= |f|
    ensures var s := f[d..]; s[Behind(s, f[k - 1].id)..] == if d < k then f[k..] else []
  {
    var s := f[d..];
    if d < k {
      assert s[k - 1 - d] == f[k - 1];
      BehindAt(s, k - 1 - d);
      assert s[k - d..] == f[k..];
    } else {
      BehindMissing(s, f[k - 1].id);
    }
  }

  lemma RetainedWindow(table: seq<Row>, w: Where, cutoff: int)
    ensures w.Window(Younger(table, cutoff)) == Younger(w.Window(table), cutoff)
  {
    FilterCommutes(table, (r: Row) => r.ts >= cutoff, (r: Row) => w.Matches(r));
  }

  /** A retention run between two requests: the walk goes on as if nothing had happened exactly when the cursor row
      is still there; otherwise it ends at once, whatever rows remain. */
  lemma RetentionUnderWalk(q: MetricQuery, table: seq<Row>, cutoff: int, k: nat)
    requires Keyed(table) && OldestFirst(q.Where().Window(table)) && 1 <= k < |q.Where().Window(table)|
    ensures var f := q.Where().Window(table);
      var page := MetricPage(Younger(table, cutoff), q, Some(f[k - 1].id));
      if f[k - 1].ts >= cutoff then page == MetricPage(table, q, Some(f[k - 1].id)) && page.data != []
      else page == Page([], None)
  {
    var f := q.Where().Window(table);
    WindowKeyed(table, q.Where());
    RetainedWindow(table, q.Where(), cutoff);
    var d := RetainedSuffix(f, cutoff);
    SuffixPage(Younger(table, cutoff), q, f, d, k);
    assert f[0..] == f;
    SuffixPage(table, q, f, 0, k);
  }

  /** The page behind row `k` of a window whose first `d` rows are gone. */
  lemma SuffixPage(table: seq<Row>, q: MetricQuery, f: seq<Row>, d: nat, k: nat)
    requires Keyed(f) && d <= |f| && 1 <= k < |f| && q.Where().Window(table) == f[d..]
    ensures var page := MetricPage(table, q, Some(f[k - 1].id));
      if d < k then page == PageOf(Take(f[k..], q.limit + 1), q.limit) && page.data != [] else page == Page([], None)
  {
    BehindSuffix(f, d, k);
    MetricPageIs(table, q, Some(f[k - 1].id));
  }

  lemma MetricPageIs(table: seq<Row>, q: MetricQuery, cursor: Option<string>)
    requires cursor.Some? && cursor.value != ""
    ensures var f := q.Where().Window(table);
      MetricPage(table, q, cursor) == PageOf(Take(f[Behind(f, cursor.value)..], q.limit + 1), q.limit)
  {
  }
}
