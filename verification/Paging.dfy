/** Cursor paging over a host's history.
    backend/src/processes/processes.service.ts and backend/src/metrics/metrics.service.ts */
module Paging {
  import opened Prelude
  import opened RowStore
  import Buckets

  /** The controller lets process limits from 1 to 1000 through; the metrics service forces 1 to 10000. */
  type Limit = n: nat | n >= 1 witness 1

  datatype Page = Page(data: seq<Row>, nextCursor: Option<string>)

  /** A cursor query parameter that is absent or empty is no cursor. */
  function Given(cursor: Option<string>): Option<string> {
    if cursor.Some? && cursor.value == "" then None else cursor
  }

  /** One row more than asked for shows whether there is a next page. */
  function PageOf(rows: seq<Row>, limit: Limit): Page {
    if |rows| > limit then Page(rows[..limit], Some(rows[limit - 1].id)) else Page(rows, None)
  }

  datatype ProcessQuery = ProcessQuery(hostId: string, from: Option<int>, to: Option<int>, limit: Limit)
  {
    function Where(): Where { RowStore.Where(hostId, from, to) }
  }

  /** What the window holds behind the cursor; for a first page that would be empty, the host's history instead. */
  function ProcessRows(table: seq<Row>, q: ProcessQuery, cursor: Option<string>): seq<Row> {
    var rows := FindMany(table, q.Where(), q.limit + 1, cursor);
    if |rows| == 0 && q.Where().Bounded() && cursor.None?
    then FindMany(table, q.Where().Host(), q.limit + 1, None)
    else rows
  }

  function ProcessPage(table: seq<Row>, q: ProcessQuery, cursor: Option<string>): Page {
    PageOf(ProcessRows(table, q, Given(cursor)), q.limit)
  }

  /** A page: rows of `table` inside these bounds, at most `limit`; the cursor is the id of its last row, and there only
      if more follow. `whole`: without a cursor nothing of them is missing. */
  ghost predicate ShowsRows(page: Page, table: seq<Row>, hostId: string, from: Option<int>, to: Option<int>,
      limit: nat, first: bool)
  {
    && (forall r :: r in page.data ==> r in table && Inside(r, hostId, from, to))
    && |page.data| <= limit
    && (page.nextCursor.Some? ==> |page.data| == limit > 0 && page.nextCursor.value == page.data[limit - 1].id)
    && (first && page.nextCursor.None? ==> forall r :: r in table && Inside(r, hostId, from, to) ==> r in page.data)
  }

  lemma PageMeaning(table: seq<Row>, w: Where, limit: Limit, cursor: Option<string>)
    ensures ShowsRows(PageOf(FindMany(table, w, limit + 1, cursor), limit),
                      table, w.hostId, w.gte, w.lte, limit, cursor.None?)
  {
    var window := w.Window(table);
    var rows := if cursor.Some? then window[Behind(window, cursor.value)..] else window;
    var page := PageOf(Take(rows, limit + 1), limit);
    WindowMeaning(table, w);
    forall r | r in page.data ensures r in window {
      var i :| 0 <= i < |page.data| && page.data[i] == r;
      assert page.data[i] == rows[i] && rows[i] in rows;
    }
  }

  /** A page of the process list: of the window asked for, or, when that is bounded, holds nothing and no cursor is
      given, of everything the host has. */
  lemma ProcessPageMeaning(table: seq<Row>, q: ProcessQuery, cursor: Option<string>)
    ensures
      var first := cursor in {None, Some("")};
      var fallback := first && (q.from.Some? || q.to.Some?) && !AnyInside(table, q.hostId, q.from, q.to);
      ShowsRows(ProcessPage(table, q, cursor), table, q.hostId, if fallback then None else q.from,
                if fallback then None else q.to, q.limit, first)
  {
    var w := q.Where();
    assert Given(cursor).None? <==> cursor in {None, Some("")};
    WindowEmpty(table, w);
    PageMeaning(table, w, q.limit, Given(cursor));
    PageMeaning(table, w.Host(), q.limit, None);
    assert Given(cursor).None? ==> (|FindMany(table, w, q.limit + 1, Given(cursor))| == 0 <==> w.Window(table) == []);
  }

  /** The filter, built field by field. */
  method Bounds(hostId: string, from: Option<int>, to: Option<int>) returns (where: Where)
    ensures where == Where(hostId, from, to)
  {
    where := Where(hostId, None, None);
    if from.Some? { where := where.(gte := from); }
    if to.Some? { where := where.(lte := to); }
  }

  /** `table` is in the order ts DESC. */
  method FindProcesses(table: seq<Row>, hostId: string, from: Option<int>, to: Option<int>, limit: Limit,
      cursor: Option<string>)
    returns (page: Page)
    ensures page == ProcessPage(table, ProcessQuery(hostId, from, to, limit), cursor)
    ensures
      var first := cursor in {None, Some("")};
      var fallback := first && (from.Some? || to.Some?) && !AnyInside(table, hostId, from, to);
      ShowsRows(page, table, hostId, if fallback then None else from, if fallback then None else to, limit, first)
  {
    var where := Bounds(hostId, from, to);
    ghost var q := ProcessQuery(hostId, from, to, limit);
    var after: Option<string> := None;
    if cursor.Some? && cursor.value != "" {
      after := cursor;
    }
    var rows := FindMany(table, where, limit + 1, after);
    if |rows| == 0 && (from.Some? || to.Some?) && after.None? {
      rows := FindMany(table, Where(hostId, None, None), limit + 1, None);
    }
    FetchedRows(table, q, cursor);
    assert rows == ProcessRows(table, q, Given(cursor));
    var hasMore := |rows| > limit;
    var data := if hasMore then rows[..limit] else rows;
    page := Page(data, if hasMore then Some(data[|data| - 1].id) else None);
    ProcessPageMeaning(table, q, cursor);
  }

  /** The two queries, by the parameters they are made of. */
  lemma FetchedRows(table: seq<Row>, q: ProcessQuery, cursor: Option<string>)
    ensures
      var after := if cursor.Some? && cursor.value != "" then cursor else None;
      var rows := FindMany(table, Where(q.hostId, q.from, q.to), q.limit + 1, after);
      after == Given(cursor) && ProcessRows(table, q, after) ==
        if |rows| == 0 && (q.from.Some? || q.to.Some?) && after.None?
        then FindMany(table, Where(q.hostId, None, None), q.limit + 1, None) else rows
  {
  }

  datatype MetricQuery = MetricQuery(hostId: string, from: int, to: int, limit: Limit)
  {
    function Where(): Where { RowStore.Where(hostId, Some(from), Some(to)) }
  }

  function MetricPage(table: seq<Row>, q: MetricQuery, cursor: Option<string>): Page {
    PageOf(FindMany(table, q.Where(), q.limit + 1, Given(cursor)), q.limit)
  }

  const DEFAULT_LIMIT := 5000

  function Clamped(limit: int): Limit {
    if limit < 1 then 1 else if limit > 10000 then 10000 else limit
  }

  datatype Detail = Raw | Coarse(resolution: Buckets.Resolution)

  datatype MetricsReply = Rows(page: Page) | Averages(out: seq<Buckets.Aggregate>)

  /** `table` is in the order ts ASC. */
  method FindMetrics(table: seq<Row>, hostId: string, from: int, to: int, detail: Detail, asked: Option<int>,
      cursor: Option<string>)
    returns (reply: MetricsReply)
    ensures
      var asking := if asked.None? then 5000 else asked.value;
      var limit := if asking < 1 then 1 else if asking > 10000 then 10000 else asking;
      reply.Rows? == detail.Raw? &&
      if detail.Raw? then ShowsRows(reply.page, table, hostId, Some(from), Some(to), limit, cursor in {None, Some("")})
      else |reply.out| <= limit
    ensures var limit := Clamped(if asked.Some? then asked.value else DEFAULT_LIMIT);
      reply == if detail.Raw? then Rows(MetricPage(table, MetricQuery(hostId, from, to, limit), cursor))
               else Averages(Buckets.FindAggregated(table, hostId, from, to, detail.resolution, limit))
  {
    var limit := if asked.Some? then asked.value else DEFAULT_LIMIT;
    var atLeastOne := if 1 > limit then 1 else limit;
    var take := if atLeastOne < 10000 then atLeastOne else 10000;
    assert take == Clamped(limit);
    if detail.Coarse? {
      return Averages(Buckets.FindAggregated(table, hostId, from, to, detail.resolution, take));
    }
    var after: Option<string> := None;
    if cursor.Some? && cursor.value != "" {
      after := cursor;
    }
    assert after == Given(cursor);
    ghost var q := MetricQuery(hostId, from, to, take);
    var rows := FindMany(table, Where(hostId, Some(from), Some(to)), take + 1, after);
    assert rows == FindMany(table, q.Where(), q.limit + 1, Given(cursor));
    assert PageOf(rows, take) == MetricPage(table, q, cursor);
    var hasMore := |rows| > take;
    var data := if hasMore then rows[..take] else rows;
    reply := Rows(Page(data, if hasMore then Some(data[|data| - 1].id) else None));
    assert Given(cursor).None? <==> cursor in {None, Some("")};
    PageMeaning(table, q.Where(), take, Given(cursor));
  }

  // ---- Following nextCursor ------------------------------------------------------------------

  type Fetch = (seq<Row>, Option<string>) -> Page

  datatype Walked = Walked(rows: seq<Row>, done: bool)

  /** A client follows nextCursor until it is null; request number i finds `tables[i]`. */
  function Walk(fetch: Fetch, tables: seq<seq<Row>>, cursor: Option<string>): Walked {
    if tables == [] then Walked([], false)
    else
      var page := fetch(tables[0], cursor);
      if page.nextCursor.None? then Walked(page.data, true)
      else
        var rest := Walk(fetch, tables[1..], page.nextCursor);
        Walked(page.data + rest.rows, rest.done)
  }

  /** The requests the walk makes: it stops at the first page without a cursor. */
  function Made(fetch: Fetch, tables: seq<seq<Row>>, cursor: Option<string>): (n: nat)
    ensures n <= |tables| && (tables != [] ==> n >= 1)
  {
    if tables == [] then 0
    else
      var page := fetch(tables[0], cursor);
      if page.nextCursor.None? then 1 else 1 + Made(fetch, tables[1..], page.nextCursor)
  }

  /** One page of a window. */
  function RowPage(window: seq<Row>, limit: Limit, cursor: Option<string>): Page {
    PageOf(Take(if cursor.Some? then window[Behind(window, cursor.value)..] else window, limit + 1), limit)
  }

  /** Behind a cursor the endpoint pages through its window and nothing else. */
  ghost predicate PagesWindow(fetch: Fetch, w: Where, limit: Limit) {
    forall table, id :: id != "" ==> fetch(table, Some(id)) == RowPage(w.Window(table), limit, Some(id))
  }

  lemma MetricPages(q: MetricQuery)
    ensures PagesWindow((t, c) => MetricPage(t, q, c), q.Where(), q.limit)
    ensures forall table :: MetricPage(table, q, None) == RowPage(q.Where().Window(table), q.limit, None)
  {
  }

  lemma ProcessPageBehind(q: ProcessQuery, table: seq<Row>, id: string)
    requires id != ""
    ensures ProcessPage(table, q, Some(id)) == RowPage(q.Where().Window(table), q.limit, Some(id))
  {
    assert Given(Some(id)) == Some(id);
  }

  /** The first page: of the window, or of the history when a bounded window is empty. */
  lemma ProcessPageFirst(q: ProcessQuery, table: seq<Row>)
    ensures var w := q.Where();
      var shown := if w.Window(table) == [] && w.Bounded() then w.Host() else w;
      ProcessPage(table, q, None) == RowPage(shown.Window(table), q.limit, None)
  {
    assert |Take(q.Where().Window(table), q.limit + 1)| == 0 <==> q.Where().Window(table) == [];
  }

  lemma ProcessPages(q: ProcessQuery)
    ensures PagesWindow((t, c) => ProcessPage(t, q, c), q.Where(), q.limit)
  {
    forall table, id | id != ""
      ensures ProcessPage(table, q, Some(id)) == RowPage(q.Where().Window(table), q.limit, Some(id))
    {
      ProcessPageBehind(q, table, id);
    }
  }
}
