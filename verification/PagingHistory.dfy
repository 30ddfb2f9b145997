/** A whole walk over the metrics while samples arrive, retention runs and hosts are deleted. */
module PagingHistory {
  import opened Prelude
  import opened RowStore
  import opened Paging
  import opened PagingWalks
  import opened PagingEnds

  // ---- A table over time -----------------------------------------------------------------------

  /** `table` is in the order ts ASC: new rows stand behind the others. */
  function Next(table: seq<Row>, ch: Change): seq<Row> {
    match ch
    case Added(rows) => table + rows
    case Aged(cutoff) => Younger(table, cutoff)
    case HostDeleted(h) => WithoutHost(table, h)
  }

  function TableAfter(start: seq<Row>, chs: seq<Change>): seq<Row> {
    if chs == [] then start else Next(TableAfter(start, chs[..|chs| - 1]), chs[|chs| - 1])
  }

  /** Every row the table has held, in the order they came. */
  function History(start: seq<Row>, chs: seq<Change>): seq<Row> {
    if chs == [] then start
    else History(start, chs[..|chs| - 1]) + (if chs[|chs| - 1].Added? then chs[|chs| - 1].rows else [])
  }

  /** How many rows of the window are gone. */
  function Lost(start: seq<Row>, chs: seq<Change>, w: Where): int {
    |w.Window(History(start, chs))| - |w.Window(TableAfter(start, chs))|
  }

  /** What is left of the window is the end of its history. */
  ghost predicate LeftBehind(start: seq<Row>, chs: seq<Change>, w: Where) {
    var a := Lost(start, chs, w);
    0 <= a && w.Window(TableAfter(start, chs)) == w.Window(History(start, chs))[a..]
  }

  lemma SuffixIsLeft(start: seq<Row>, chs: seq<Change>, w: Where, a: nat)
    requires a <= |w.Window(History(start, chs))|
    requires w.Window(TableAfter(start, chs)) == w.Window(History(start, chs))[a..]
    ensures Lost(start, chs, w) == a && LeftBehind(start, chs, w)
  {
  }

  lemma NextAdded(table: seq<Row>, history: seq<Row>, rows: seq<Row>, w: Where, a: nat)
    requires a <= |w.Window(history)| && w.Window(table) == w.Window(history)[a..]
    ensures w.Window(history + rows) == w.Window(history) + w.Window(rows)
    ensures w.Window(table + rows) == w.Window(history + rows)[a..]
  {
    FilterConcat(table, rows, (r: Row) => w.Matches(r));
    FilterConcat(history, rows, (r: Row) => w.Matches(r));
  }

  lemma NextAged(table: seq<Row>, history: seq<Row>, cutoff: int, w: Where, a: nat) returns (b: nat)
    requires a <= |w.Window(history)| && w.Window(table) == w.Window(history)[a..] && OldestFirst(w.Window(history))
    ensures a <= b <= |w.Window(history)| && w.Window(Younger(table, cutoff)) == w.Window(history)[b..]
  {
    var h, now := w.Window(history), w.Window(table);
    RetainedWindow(table, w, cutoff);
    var d := RetainedSuffix(now, cutoff);
    b := a + d;
    assert h[a..][d..] == h[b..];
  }

  lemma NextDeleted(table: seq<Row>, history: seq<Row>, h: string, w: Where, a: nat)
    requires a <= |w.Window(history)| && w.Window(table) == w.Window(history)[a..]
    ensures w.Window(WithoutHost(table, h)) == if h == w.hostId then [] else w.Window(history)[a..]
  {
    var now := w.Window(table);
    FilterCommutes(table, (r: Row) => r.hostId != h, (r: Row) => w.Matches(r));
    WindowMeaning(table, w);
    if h == w.hostId {
      FilterNone(now, (r: Row) => r.hostId != h);
    } else {
      FilterAll(now, (r: Row) => r.hostId != h);
    }
  }

  /** One change: the history grows at its end, what is left shrinks at its front. */
  lemma OneChange(start: seq<Row>, chs: seq<Change>, ch: Change, w: Where)
    requires LeftBehind(start, chs, w) && OldestFirst(w.Window(History(start, chs)))
    ensures LeftBehind(start, chs + [ch], w) && Lost(start, chs + [ch], w) >= Lost(start, chs, w)
    ensures w.Window(History(start, chs)) <= w.Window(History(start, chs + [ch]))
  {
    assert (chs + [ch])[..|chs|] == chs;
    var table, history, a: nat := TableAfter(start, chs), History(start, chs), Lost(start, chs, w);
    var before := w.Window(history);
    assert history + [] == history;
    match ch
    case Added(rows) =>
      NextAdded(table, history, rows, w, a);
      SuffixIsLeft(start, chs + [ch], w, a);
    case Aged(cutoff) =>
      var b := NextAged(table, history, cutoff, w, a);
      SuffixIsLeft(start, chs + [ch], w, b);
    case HostDeleted(h) =>
      NextDeleted(table, history, h, w, a);
      SuffixIsLeft(start, chs + [ch], w, if h == w.hostId then |before| else a);
  }

  lemma {:induction false} HistoryPrefix(start: seq<Row>, chs: seq<Change>, n: nat)
    requires n <= |chs|
    ensures History(start, chs[..n]) <= History(start, chs)
    decreases |chs| - n
  {
    if n == |chs| {
      assert chs[..n] == chs;
    } else {
      HistoryPrefix(start, chs, n + 1);
      assert chs[..n + 1][..n] == chs[..n];
    }
  }

  lemma PrefixOrdered(start: seq<Row>, chs: seq<Change>, n: nat, w: Where)
    requires n <= |chs| && OldestFirst(w.Window(History(start, chs)))
    ensures w.Window(History(start, chs[..n])) <= w.Window(History(start, chs))
    ensures OldestFirst(w.Window(History(start, chs[..n])))
  {
    HistoryPrefix(start, chs, n);
    var part, whole := History(start, chs[..n]), History(start, chs);
    assert whole == part + whole[|part|..];
    FilterConcat(part, whole[|part|..], (r: Row) => w.Matches(r));
  }

  /** One more of the changes. */
  lemma ChangeAt(start: seq<Row>, chs: seq<Change>, n: nat, w: Where)
    requires n < |chs| && OldestFirst(w.Window(History(start, chs))) && LeftBehind(start, chs[..n], w)
    ensures LeftBehind(start, chs[..n + 1], w) && Lost(start, chs[..n], w) <= Lost(start, chs[..n + 1], w)
  {
    assert chs[..n + 1] == chs[..n] + [chs[n]];
    PrefixOrdered(start, chs, n, w);
    OneChange(start, chs[..n], chs[n], w);
  }

  /** After any number of changes, provided the rows of the host came in order of time. */
  lemma {:induction false} AfterChanges(start: seq<Row>, chs: seq<Change>, n: nat, w: Where)
    requires n <= |chs| && OldestFirst(w.Window(History(start, chs)))
    ensures LeftBehind(start, chs[..n], w)
  {
    if n == 0 {
      SuffixIsLeft(start, chs[..0], w, 0);
    } else {
      AfterChanges(start, chs, n - 1, w);
      ChangeAt(start, chs, n - 1, w);
    }
  }

  // ---- Requests ----------------------------------------------------------------------------------

  /** A request finds the rows from `a` to `b` of the history. */
  datatype View = View(a: nat, b: nat)

  /** The page behind row `k` of the history: nothing when that row is gone. */
  ghost predicate ViewPage(page: Page, g: seq<Row>, view: View, k: nat, limit: Limit) {
    if k <= view.a then page == Page([], None)
    else view.b <= |g| && IsPage(page, g[..view.b], k, view.b, limit)
  }

  ghost predicate ServesView(fetch: Fetch, table: seq<Row>, g: seq<Row>, view: View, limit: Limit) {
    view.a <= view.b <= |g| && forall k :: 1 <= k <= view.b ==> ServesAt(fetch, table, g, view, limit, k)
  }

  ghost predicate ServesAt(fetch: Fetch, table: seq<Row>, g: seq<Row>, view: View, limit: Limit, k: int)
    requires 1 <= k <= |g|
  {
    ViewPage(fetch(table, Some(g[k - 1].id)), g, view, k, limit)
  }

  ghost predicate ServesViews(fetch: Fetch, tables: seq<seq<Row>>, g: seq<Row>, views: seq<View>, limit: Limit) {
    && |views| == |tables|
    && (tables != [] ==>
          && ServesView(fetch, tables[0], g, views[0], limit)
          && (|views| >= 2 ==> views[0].b <= views[1].b)
          && ServesViews(fetch, tables[1..], g, views[1..], limit))
  }

  lemma RowsInView(window: seq<Row>, g: seq<Row>, view: View, k: nat)
    requires DistinctIds(g) && view.a <= view.b <= |g| && window == g[view.a..view.b] && 1 <= k <= view.b
    ensures window[Behind(window, g[k - 1].id)..] == if view.a < k then g[..view.b][k..] else []
  {
    var f := g[..view.b];
    assert f[k - 1] == g[k - 1] && f[view.a..] == window;
    BehindSuffix(f, view.a, k);
  }

  lemma RestIsPage(f: seq<Row>, k: nat, limit: Limit)
    requires k <= |f|
    ensures IsPage(PageOf(Take(f[k..], limit + 1), limit), f, k, |f|, limit)
  {
    PageOfTake(f[k..], limit);
    assert |f| > k + limit ==> f[k..][..limit] == f[k..k + limit];
  }

  lemma PageInView(window: seq<Row>, g: seq<Row>, view: View, k: nat, limit: Limit)
    requires DistinctIds(g) && view.a <= view.b <= |g| && window == g[view.a..view.b] && 1 <= k <= view.b
    ensures ViewPage(RowPage(window, limit, Some(g[k - 1].id)), g, view, k, limit)
  {
    RowsInView(window, g, view, k);
    if view.a < k {
      RestIsPage(g[..view.b], k, limit);
    } else {
      PageOfTake([], limit);
    }
  }

  lemma WindowServes(fetch: Fetch, table: seq<Row>, w: Where, g: seq<Row>, view: View, limit: Limit)
    requires PagesWindow(fetch, w, limit) && Keyed(g) && view.a <= view.b <= |g| && w.Window(table) == g[view.a..view.b]
    ensures ServesView(fetch, table, g, view, limit)
  {
    forall k | 1 <= k <= view.b ensures ServesAt(fetch, table, g, view, limit, k) {
      PageInView(w.Window(table), g, view, k, limit);
    }
  }

  /** How a walk that has come to row `e` of the history and no further can have ended: at a request that found
      nothing beyond `e`, or at one that did not find row `e` any more. */
  ghost predicate EndsAt(views: seq<View>, e: nat, i: nat) {
    i < |views| && (e <= views[i].a || e == views[i].b)
  }

  /** A walk of `made` requests from row `k` on; when it is done, the last of them is where it ended. */
  ghost predicate WalkedTo(r: Walked, made: nat, g: seq<Row>, views: seq<View>, k: nat) {
    && k + |r.rows| <= |g| && r.rows == g[k..k + |r.rows|]
    && (r.done ==> made >= 1 && EndsAt(views, k + |r.rows|, made - 1))
  }

  lemma EndsNow(fetch: Fetch, tables: seq<seq<Row>>, cursor: Option<string>, g: seq<Row>, views: seq<View>,
      limit: Limit, k: nat)
    requires tables != [] && |views| == |tables| && k <= views[0].b <= |g|
    requires ViewPage(fetch(tables[0], cursor), g, views[0], k, limit)
          || IsPage(fetch(tables[0], cursor), g[..views[0].b], k, views[0].b, limit)
    requires fetch(tables[0], cursor).nextCursor.None?
    ensures WalkedTo(Walk(fetch, tables, cursor), Made(fetch, tables, cursor), g, views, k)
  {
    WalkUnfolds(fetch, tables, cursor);
    MadeUnfolds(fetch, tables, cursor);
    var page := fetch(tables[0], cursor);
    assert page.data == [] || page.data == g[..views[0].b][k..] == g[k..views[0].b];
    assert EndsAt(views, k + |page.data|, 0);
  }

  lemma GoesOn(fetch: Fetch, tables: seq<seq<Row>>, cursor: Option<string>, g: seq<Row>, views: seq<View>, k: nat,
      next: nat)
    requires tables != [] && |views| == |tables| && k <= next <= |g| && 1 <= next
    requires fetch(tables[0], cursor) == Page(g[k..next], Some(g[next - 1].id))
    requires WalkedTo(Walk(fetch, tables[1..], Some(g[next - 1].id)), Made(fetch, tables[1..], Some(g[next - 1].id)),
                      g, views[1..], next)
    ensures WalkedTo(Walk(fetch, tables, cursor), Made(fetch, tables, cursor), g, views, k)
  {
    WalkUnfolds(fetch, tables, cursor);
    MadeUnfolds(fetch, tables, cursor);
    var rest := Walk(fetch, tables[1..], Some(g[next - 1].id));
    SlicesJoin(g, k, next, next + |rest.rows|);
  }

  /** From a page at `k` on. */
  lemma {:induction false} WalkHistory(
      fetch: Fetch, tables: seq<seq<Row>>, cursor: Option<string>, g: seq<Row>, views: seq<View>, limit: Limit, k: nat)
    requires tables != [] && ServesViews(fetch, tables, g, views, limit) && k <= views[0].b
    requires ViewPage(fetch(tables[0], cursor), g, views[0], k, limit)
          || IsPage(fetch(tables[0], cursor), g[..views[0].b], k, views[0].b, limit)
    ensures WalkedTo(Walk(fetch, tables, cursor), Made(fetch, tables, cursor), g, views, k)
    decreases |tables|
  {
    var page, next := fetch(tables[0], cursor), k + limit;
    if page.nextCursor.None? {
      EndsNow(fetch, tables, cursor, g, views, limit, k);
    } else {
      assert g[..views[0].b][k..next] == g[k..next];
      if |tables| == 1 {
        assert Walk(fetch, tables[1..], page.nextCursor) == Walked([], false);
      } else {
        assert ServesAt(fetch, tables[1..][0], g, views[1..][0], limit, next);
        WalkHistory(fetch, tables[1..], page.nextCursor, g, views[1..], limit, next);
      }
      GoesOn(fetch, tables, cursor, g, views, k, next);
    }
  }

  // ---- The whole walk ------------------------------------------------------------------------------

  /** Request `i` comes after the first `marks[i]` changes. */
  ghost predicate Requests(marks: seq<nat>, chs: seq<Change>) {
    && (forall i :: 0 <= i < |marks| ==> marks[i] <= |chs|)
    && (forall i, j :: 0 <= i < j < |marks| ==> marks[i] <= marks[j])
  }

  function Tables(start: seq<Row>, chs: seq<Change>, marks: seq<nat>): seq<seq<Row>>
    requires forall i :: 0 <= i < |marks| ==> marks[i] <= |chs|
  {
    seq(|marks|, i requires 0 <= i < |marks| => TableAfter(start, chs[..marks[i]]))
  }

  function Views(start: seq<Row>, chs: seq<Change>, marks: seq<nat>, w: Where): seq<View>
    requires forall i :: 0 <= i < |marks| ==> marks[i] <= |chs| && LeftBehind(start, chs[..marks[i]], w)
  {
    seq(|marks|, i requires 0 <= i < |marks| => ViewAfter(start, chs[..marks[i]], w))
  }

  function ViewAfter(start: seq<Row>, chs: seq<Change>, w: Where): View
    requires LeftBehind(start, chs, w)
  {
    View(Lost(start, chs, w), |w.Window(History(start, chs))|)
  }

  lemma ViewIsWindow(start: seq<Row>, chs: seq<Change>, n: nat, w: Where)
    requires n <= |chs| && OldestFirst(w.Window(History(start, chs)))
    ensures LeftBehind(start, chs[..n], w)
    ensures var v, g := ViewAfter(start, chs[..n], w), w.Window(History(start, chs));
      v.a <= v.b <= |g| && w.Window(TableAfter(start, chs[..n])) == g[v.a..v.b]
  {
    AfterChanges(start, chs, n, w);
    PrefixOrdered(start, chs, n, w);
  }

  lemma {:induction false} LaterView(start: seq<Row>, chs: seq<Change>, m: nat, n: nat, w: Where)
    requires m <= n <= |chs| && OldestFirst(w.Window(History(start, chs)))
    ensures LeftBehind(start, chs[..m], w) && LeftBehind(start, chs[..n], w)
    ensures ViewAfter(start, chs[..m], w).a <= ViewAfter(start, chs[..n], w).a
    ensures ViewAfter(start, chs[..m], w).b <= ViewAfter(start, chs[..n], w).b
    decreases n - m
  {
    ViewIsWindow(start, chs, m, w);
    if m == n {
    } else {
      LaterView(start, chs, m + 1, n, w);
      ChangeAt(start, chs, m, w);
      PrefixOrdered(start, chs, m + 1, w);
      assert chs[..m + 1][..m] == chs[..m];
      PrefixOrdered(start, chs[..m + 1], m, w);
    }
  }

  ghost predicate EachServes(fetch: Fetch, tables: seq<seq<Row>>, g: seq<Row>, views: seq<View>, limit: Limit) {
    && |views| == |tables|
    && (forall i :: 0 <= i < |tables| ==> ServesView(fetch, tables[i], g, views[i], limit))
    && (forall i, j :: 0 <= i < j < |views| ==> views[i].b <= views[j].b)
  }

  lemma {:induction false} EachThenAll(fetch: Fetch, tables: seq<seq<Row>>, g: seq<Row>, views: seq<View>, limit: Limit)
    requires EachServes(fetch, tables, g, views, limit)
    ensures ServesViews(fetch, tables, g, views, limit)
  {
    if tables == [] {
    } else {
      EachThenAll(fetch, tables[1..], g, views[1..], limit);
    }
  }

  lemma AllLeft(start: seq<Row>, chs: seq<Change>, marks: seq<nat>, w: Where)
    requires Requests(marks, chs) && OldestFirst(w.Window(History(start, chs)))
    ensures forall i :: 0 <= i < |marks| ==> LeftBehind(start, chs[..marks[i]], w)
  {
    forall i | 0 <= i < |marks| ensures LeftBehind(start, chs[..marks[i]], w) {
      ViewIsWindow(start, chs, marks[i], w);
    }
  }

  lemma AllServeViews(
      fetch: Fetch, start: seq<Row>, chs: seq<Change>, marks: seq<nat>, w: Where, limit: Limit, g: seq<Row>)
    requires PagesWindow(fetch, w, limit) && g == w.Window(History(start, chs)) && Keyed(g) && OldestFirst(g)
    requires Requests(marks, chs) && forall i :: 0 <= i < |marks| ==> LeftBehind(start, chs[..marks[i]], w)
    ensures ServesViews(fetch, Tables(start, chs, marks), g, Views(start, chs, marks, w), limit)
  {
    var tables, views := Tables(start, chs, marks), Views(start, chs, marks, w);
    forall i | 0 <= i < |tables| ensures ServesView(fetch, tables[i], g, views[i], limit) {
      ViewIsWindow(start, chs, marks[i], w);
      WindowServes(fetch, tables[i], w, g, views[i], limit);
    }
    forall i, j | 0 <= i < j < |views| ensures views[i].b <= views[j].b {
      LaterView(start, chs, marks[i], marks[j], w);
    }
    EachThenAll(fetch, tables, g, views, limit);
  }

  /** The walk's last request, which finds `window`: either it still finds the last row returned, and then every row
      it finds has been returned; or it does not, and then none has. */
  ghost predicate LastRequest(rows: seq<Row>, window: seq<Row>)
    requires rows != []
  {
    if rows[|rows| - 1] in window then forall x :: x in window ==> x in rows
    else forall x :: x in window ==> x !in rows
  }

  /** Rows from `k` to `e` of a history without repeats, and a later view of it. */
  lemma LastView(g: seq<Row>, k: nat, e: nat, view: View)
    requires DistinctIds(g) && k < e <= |g| && k <= view.a <= view.b <= |g| && (e <= view.a || e == view.b)
    ensures LastRequest(g[k..e], g[view.a..view.b])
  {
    var rows, window := g[k..e], g[view.a..view.b];
    assert rows[|rows| - 1] == g[e - 1];
    if e <= view.a {
      forall i, j | k <= i < e && view.a <= j < view.b ensures g[i] != g[j] {
      }
    } else {
      assert window[e - 1 - view.a] == g[e - 1];
      forall j | view.a <= j < view.b ensures g[j] in rows {
        assert rows[j - k] == g[j];
      }
    }
  }

  /** What a walk of `made` requests over these tables is, by the history `g` of the window, of which `lost` rows were
      gone at first. */
  ghost predicate Accounted(r: Walked, made: nat, g: seq<Row>, lost: int, tables: seq<seq<Row>>, w: Where)
    requires tables != []
  {
    if w.Window(tables[0]) == [] then r == Walked([], true)
    else
      && r.rows != []
      && 0 <= lost && lost + |r.rows| <= |g| && r.rows == g[lost..lost + |r.rows|]
      && (r.done ==> 1 <= made <= |tables| && LastRequest(r.rows, w.Window(tables[made - 1])))
  }

  /** While samples arrive, retention runs and hosts are deleted between its requests, a walk over the metrics returns
      a stretch of the history, in order and without repeats, from the oldest row its first request finds. When it
      ends, the last request it made has either still found the last row returned, and then nothing it found is
      missing; or not, and then the walk ended early and everything that request found is missing. */
  lemma MetricWalkUnderChanges(q: MetricQuery, start: seq<Row>, chs: seq<Change>, marks: seq<nat>)
    requires marks != [] && Requests(marks, chs)
    requires Keyed(History(start, chs)) && OldestFirst(q.Where().Window(History(start, chs)))
    ensures Accounted(Walk((t, c) => MetricPage(t, q, c), Tables(start, chs, marks), None),
                      Made((t, c) => MetricPage(t, q, c), Tables(start, chs, marks), None),
                      q.Where().Window(History(start, chs)), Lost(start, chs[..marks[0]], q.Where()),
                      Tables(start, chs, marks), q.Where())
  {
    MetricPages(q);
    WindowKeyed(History(start, chs), q.Where());
    WalkAccounted((t, c) => MetricPage(t, q, c), start, chs, marks, q.Where(), q.limit);
  }

  lemma WalkAccounted(fetch: Fetch, start: seq<Row>, chs: seq<Change>, marks: seq<nat>, w: Where, limit: Limit)
    requires marks != [] && Requests(marks, chs) && PagesWindow(fetch, w, limit)
    requires forall table :: fetch(table, None) == RowPage(w.Window(table), limit, None)
    requires Keyed(w.Window(History(start, chs))) && OldestFirst(w.Window(History(start, chs)))
    ensures Accounted(Walk(fetch, Tables(start, chs, marks), None), Made(fetch, Tables(start, chs, marks), None),
                      w.Window(History(start, chs)), Lost(start, chs[..marks[0]], w), Tables(start, chs, marks), w)
  {
    var g, tables := w.Window(History(start, chs)), Tables(start, chs, marks);
    AllLeft(start, chs, marks, w);
    AllServeViews(fetch, start, chs, marks, w, limit, g);
    ViewsShow(start, chs, marks, w);
    ServedAccounted(fetch, tables, g, Views(start, chs, marks, w), w, limit);
  }

  /** Every view shows what its request finds, and none more of the past than the first. */
  ghost predicate Show(views: seq<View>, tables: seq<seq<Row>>, g: seq<Row>, w: Where) {
    |views| == |tables| && forall i :: 0 <= i < |tables| ==> ShowsAt(views, tables, g, w, i)
  }

  ghost predicate ShowsAt(views: seq<View>, tables: seq<seq<Row>>, g: seq<Row>, w: Where, i: nat)
    requires i < |views| && i < |tables|
  {
    && views[0].a <= views[i].a <= views[i].b <= |g|
    && w.Window(tables[i]) == g[views[i].a..views[i].b]
  }

  lemma ViewsShow(start: seq<Row>, chs: seq<Change>, marks: seq<nat>, w: Where)
    requires Requests(marks, chs) && OldestFirst(w.Window(History(start, chs)))
    requires forall i :: 0 <= i < |marks| ==> LeftBehind(start, chs[..marks[i]], w)
    ensures Show(Views(start, chs, marks, w), Tables(start, chs, marks), w.Window(History(start, chs)), w)
  {
    var views, tables, g := Views(start, chs, marks, w), Tables(start, chs, marks), w.Window(History(start, chs));
    forall i | 0 <= i < |tables| ensures ShowsAt(views, tables, g, w, i) {
      ViewIsWindow(start, chs, marks[i], w);
      LaterView(start, chs, marks[0], marks[i], w);
    }
  }

  lemma ServedAccounted(fetch: Fetch, tables: seq<seq<Row>>, g: seq<Row>, views: seq<View>, w: Where, limit: Limit)
    requires tables != [] && ServesViews(fetch, tables, g, views, limit) && Show(views, tables, g, w) && DistinctIds(g)
    requires fetch(tables[0], None) == RowPage(w.Window(tables[0]), limit, None)
    ensures Accounted(Walk(fetch, tables, None), Made(fetch, tables, None), g, views[0].a, tables, w)
  {
    assert ShowsAt(views, tables, g, w, 0);
    FirstRequest(fetch, tables, g, views, limit, w);
    FromWalked(Walk(fetch, tables, None), Made(fetch, tables, None), tables, g, views, w, views[0].a);
  }

  lemma FromWalked(r: Walked, made: nat, tables: seq<seq<Row>>, g: seq<Row>, views: seq<View>, w: Where, k: nat)
    requires tables != [] && Show(views, tables, g, w) && DistinctIds(g) && k == views[0].a
    requires WalkedTo(r, made, g, views, k)
    requires if w.Window(tables[0]) == [] then r == Walked([], true) else r.rows != []
    ensures Accounted(r, made, g, k, tables, w)
  {
    if r.rows != [] && r.done {
      EndsAccounted(tables, g, views, w, k, k + |r.rows|, made - 1);
    }
  }

  lemma EndsAccounted(tables: seq<seq<Row>>, g: seq<Row>, views: seq<View>, w: Where, k: nat, e: nat, i: nat)
    requires tables != [] && Show(views, tables, g, w) && DistinctIds(g)
    requires k == views[0].a && k < e <= |g| && EndsAt(views, e, i)
    ensures LastRequest(g[k..e], w.Window(tables[i]))
  {
    assert ShowsAt(views, tables, g, w, i);
    LastView(g, k, e, views[i]);
  }

  lemma FirstRequest(fetch: Fetch, tables: seq<seq<Row>>, g: seq<Row>, views: seq<View>, limit: Limit, w: Where)
    requires tables != [] && ServesViews(fetch, tables, g, views, limit)
    requires w.Window(tables[0]) == g[views[0].a..views[0].b]
    requires fetch(tables[0], None) == RowPage(w.Window(tables[0]), limit, None)
    ensures var r, k := Walk(fetch, tables, None), views[0].a;
      && WalkedTo(r, Made(fetch, tables, None), g, views, k)
      && (w.Window(tables[0]) == [] ==> r == Walked([], true))
      && (w.Window(tables[0]) != [] ==> r.rows != [] && r.rows[0] == g[k])
  {
    var f, k := g[..views[0].b], views[0].a;
    assert f[k..] == w.Window(tables[0]);
    RestIsPage(f, k, limit);
    WalkHistory(fetch, tables, None, g, views, limit, k);
    WalkUnfolds(fetch, tables, None);
  }
}
