/** What a whole walk over pages returns while the tables change between its requests. */
module PagingWalks {
  import opened Prelude
  import opened RowStore
  import opened Paging

  // ---- A window that keeps its rows, loses old ones and gains new ones in front ---------------

  ghost predicate FreshFor(newer: seq<Row>, rows: seq<Row>) {
    forall i, j :: 0 <= i < |newer| && 0 <= j < |rows| ==> newer[i].id != rows[j].id
  }

  /** `now` is new rows on top of the first `m` of `first`. */
  ghost predicate FollowsWith(now: seq<Row>, first: seq<Row>, newer: seq<Row>, m: nat) {
    m <= |first| && now == newer + first[..m] && FreshFor(newer, first)
  }

  ghost predicate Follows(now: seq<Row>, first: seq<Row>) {
    exists newer: seq<Row>, m: nat :: FollowsWith(now, first, newer, m)
  }

  lemma RowsBehind(now: seq<Row>, first: seq<Row>, newer: seq<Row>, m: nat, k: nat)
    requires FollowsWith(now, first, newer, m) && DistinctIds(first) && 1 <= k <= |first|
    ensures now[Behind(now, first[k - 1].id)..] == if k <= m then first[k..m] else []
  {
    if k <= m {
      var p := |newer| + k - 1;
      assert now[p] == first[k - 1];
      BehindAt(now, p);
      assert now[p + 1..] == first[k..m];
    } else {
      BehindMissing(now, first[k - 1].id);
    }
  }

  /** The extra row asked for is never part of the page. */
  lemma PageOfTake(rows: seq<Row>, limit: Limit)
    ensures PageOf(Take(rows, limit + 1), limit) ==
      if |rows| <= limit then Page(rows, None) else Page(rows[..limit], Some(rows[limit - 1].id))
  {
    assert |rows| > limit ==> Take(rows, limit + 1)[..limit] == rows[..limit];
  }

  /** A page of what lies from `k` to `m`: a full one with a cursor, or the rest. */
  ghost predicate IsPage(page: Page, first: seq<Row>, k: nat, m: nat, limit: Limit) {
    && k <= |first|
    && if m <= k then page == Page([], None)
       else if m <= k + limit then m <= |first| && page == Page(first[k..m], None)
       else k + limit < |first| && page == Page(first[k..k + limit], Some(first[k + limit - 1].id))
  }

  /** The page behind the `k`-th row of the first window: what is left of it, never a new row. */
  lemma PageBehind(now: seq<Row>, first: seq<Row>, newer: seq<Row>, m: nat, k: nat, limit: Limit)
    requires FollowsWith(now, first, newer, m) && DistinctIds(first) && 1 <= k <= |first|
    ensures IsPage(RowPage(now, limit, Some(first[k - 1].id)), first, k, m, limit)
  {
    RowsBehind(now, first, newer, m, k);
    var rows := if k <= m then first[k..m] else [];
    PageOfTake(rows, limit);
    assert m > k + limit ==> rows[..limit] == first[k..k + limit];
  }

  lemma GoneBeyond(now: seq<Row>, first: seq<Row>, newer: seq<Row>, m: nat, j: nat)
    requires FollowsWith(now, first, newer, m) && DistinctIds(first) && m <= j < |first|
    ensures first[j] !in now
  {
    forall p | 0 <= p < |now| ensures now[p].id != first[j].id {
      assert p < |newer| ==> now[p] == newer[p];
      assert p >= |newer| ==> now[p] == first[p - |newer|];
    }
  }

  /** The row was out of the window at one of the requests. */
  ghost predicate Gone(tables: seq<seq<Row>>, w: Where, row: Row) {
    exists i :: 0 <= i < |tables| && row !in w.Window(tables[i])
  }

  /** Each row of `first` behind the first `k` that stayed has been returned, in order, once, and nothing else. */
  ghost predicate Returns(r: Walked, tables: seq<seq<Row>>, w: Where, first: seq<Row>, k: nat) {
    && k + |r.rows| <= |first|
    && r.rows == first[k..k + |r.rows|]
    && (r.done ==> RestGone(tables, w, first, k + |r.rows|))
  }

  ghost predicate RestGone(tables: seq<seq<Row>>, w: Where, first: seq<Row>, end: nat) {
    forall j :: end <= j < |first| ==> Gone(tables, w, first[j])
  }

  lemma StillGone(tables: seq<seq<Row>>, w: Where, row: Row)
    requires tables != []
    ensures Gone(tables[1..], w, row) || row !in w.Window(tables[0]) ==> Gone(tables, w, row)
  {
    if Gone(tables[1..], w, row) {
      var i :| 0 <= i < |tables[1..]| && row !in w.Window(tables[1..][i]);
      assert tables[i + 1] == tables[1..][i];
    }
  }

  /** A page, then the walk behind it. */
  lemma PageThenWalk(page: Page, rest: Walked, tables: seq<seq<Row>>, w: Where, first: seq<Row>, k: nat, next: nat)
    requires tables != [] && k <= next <= |first| && page.data == first[k..next]
    requires Returns(rest, tables[1..], w, first, next)
    ensures Returns(Walked(page.data + rest.rows, rest.done), tables, w, first, k)
  {
    forall j | 0 <= j < |first| ensures Gone(tables[1..], w, first[j]) ==> Gone(tables, w, first[j]) {
      StillGone(tables, w, first[j]);
    }
  }

  /** What one request needs: pages of `first` up to some end, and no row of it in the window beyond. */
  ghost predicate Serves(fetch: Fetch, table: seq<Row>, w: Where, limit: Limit, first: seq<Row>, m: nat) {
    && m <= |first|
    && (forall k :: 1 <= k <= |first| ==> ServesBehind(fetch, table, limit, first, m, k))
    && GoneFrom(table, w, first, m)
  }

  ghost predicate ServesBehind(fetch: Fetch, table: seq<Row>, limit: Limit, first: seq<Row>, m: nat, k: int)
    requires 1 <= k <= |first|
  {
    IsPage(fetch(table, Some(first[k - 1].id)), first, k, m, limit)
  }

  ghost predicate GoneFrom(table: seq<Row>, w: Where, first: seq<Row>, m: nat) {
    forall j :: m <= j < |first| ==> first[j] !in w.Window(table)
  }

  ghost predicate ServesSome(fetch: Fetch, table: seq<Row>, w: Where, limit: Limit, first: seq<Row>) {
    exists m: nat :: Serves(fetch, table, w, limit, first, m)
  }

  ghost predicate AllServe(fetch: Fetch, tables: seq<seq<Row>>, w: Where, limit: Limit, first: seq<Row>) {
    tables != [] ==> ServesSome(fetch, tables[0], w, limit, first) && AllServe(fetch, tables[1..], w, limit, first)
  }

  /** A last page that reaches to where the window ends now. */
  lemma LastPage(page: Page, tables: seq<seq<Row>>, w: Where, first: seq<Row>, m: nat, k: nat)
    requires tables != [] && GoneFrom(tables[0], w, first, m)
    requires m <= k + |page.data| <= |first| && page.data == first[k..k + |page.data|]
    ensures Returns(Walked(page.data, true), tables, w, first, k)
  {
    forall j | m <= j < |first| ensures Gone(tables, w, first[j]) {
      StillGone(tables, w, first[j]);
    }
  }

  lemma WalkUnfolds(fetch: Fetch, tables: seq<seq<Row>>, cursor: Option<string>)
    requires tables != []
    ensures var page := fetch(tables[0], cursor); var rest := Walk(fetch, tables[1..], page.nextCursor);
      Walk(fetch, tables, cursor) ==
        if page.nextCursor.None? then Walked(page.data, true) else Walked(page.data + rest.rows, rest.done)
  {
  }

  lemma MadeUnfolds(fetch: Fetch, tables: seq<seq<Row>>, cursor: Option<string>)
    requires tables != []
    ensures var page := fetch(tables[0], cursor);
      Made(fetch, tables, cursor) == if page.nextCursor.None? then 1 else 1 + Made(fetch, tables[1..], page.nextCursor)
  {
  }

  lemma FollowingServes(fetch: Fetch, table: seq<Row>, w: Where, limit: Limit, first: seq<Row>)
    requires PagesWindow(fetch, w, limit) && Keyed(first) && Follows(w.Window(table), first)
    ensures ServesSome(fetch, table, w, limit, first)
  {
    var now := w.Window(table);
    var newer: seq<Row>, m: nat :| FollowsWith(now, first, newer, m);
    forall k | 1 <= k <= |first| ensures ServesBehind(fetch, table, limit, first, m, k) {
      PageBehind(now, first, newer, m, k, limit);
    }
    forall j | m <= j < |first| ensures first[j] !in now {
      GoneBeyond(now, first, newer, m, j);
    }
    assert Serves(fetch, table, w, limit, first, m);
  }

  ghost predicate AllFollow(tables: seq<seq<Row>>, w: Where, first: seq<Row>) {
    forall i :: 0 <= i < |tables| ==> Follows(w.Window(tables[i]), first)
  }

  lemma {:induction false} AllFollowingServe(fetch: Fetch, tables: seq<seq<Row>>, w: Where, limit: Limit,
      first: seq<Row>)
    requires PagesWindow(fetch, w, limit) && Keyed(first) && AllFollow(tables, w, first)
    ensures AllServe(fetch, tables, w, limit, first)
  {
    if tables == [] {
    } else {
      assert Follows(w.Window(tables[0]), first);
      FollowingServes(fetch, tables[0], w, limit, first);
      AllFollowingServe(fetch, tables[1..], w, limit, first);
    }
  }

  lemma LastStep(fetch: Fetch, tables: seq<seq<Row>>, cursor: Option<string>, w: Where, limit: Limit,
                 first: seq<Row>, m: nat, k: nat)
    requires tables != [] && GoneFrom(tables[0], w, first, m)
    requires IsPage(fetch(tables[0], cursor), first, k, m, limit) && m <= k + limit
    ensures Returns(Walk(fetch, tables, cursor), tables, w, first, k)
  {
    LastPage(fetch(tables[0], cursor), tables, w, first, m, k);
    WalkUnfolds(fetch, tables, cursor);
  }

  lemma NextStep(fetch: Fetch, tables: seq<seq<Row>>, cursor: Option<string>, w: Where, limit: Limit,
                 first: seq<Row>, k: nat, next: nat)
    requires tables != [] && next == k + limit && next < |first|
    requires fetch(tables[0], cursor) == Page(first[k..next], Some(first[next - 1].id))
    requires Returns(Walk(fetch, tables[1..], Some(first[next - 1].id)), tables[1..], w, first, next)
    ensures Returns(Walk(fetch, tables, cursor), tables, w, first, k)
  {
    var rest := Walk(fetch, tables[1..], Some(first[next - 1].id));
    PageThenWalk(fetch(tables[0], cursor), rest, tables, w, first, k, next);
    WalkUnfolds(fetch, tables, cursor);
  }

  /** Behind the `k`-th row a walk returns the rows that stay. */
  lemma {:induction false} WalkBehind(fetch: Fetch, tables: seq<seq<Row>>, w: Where, limit: Limit, first: seq<Row>,
      k: nat)
    requires 1 <= k <= |first| && AllServe(fetch, tables, w, limit, first)
    ensures Returns(Walk(fetch, tables, Some(first[k - 1].id)), tables, w, first, k)
    decreases |tables|
  {
    if tables == [] {
    } else {
      var cursor := Some(first[k - 1].id);
      var m: nat :| Serves(fetch, tables[0], w, limit, first, m);
      assert ServesBehind(fetch, tables[0], limit, first, m, k);
      if m <= k + limit {
        LastStep(fetch, tables, cursor, w, limit, first, m, k);
      } else {
        WalkBehind(fetch, tables[1..], w, limit, first, k + limit);
        NextStep(fetch, tables, cursor, w, limit, first, k, k + limit);
      }
    }
  }

  /** Enough requests for `rows` rows end the walk. */
  function NeededRequests(rows: nat, limit: Limit): (n: nat)
    ensures n >= 1
  {
    if rows <= limit then 1 else 1 + NeededRequests(rows - limit, limit)
  }

  /** The ceiling of rows / limit, but at least one. */
  lemma {:induction false} RequestsMeaning(rows: nat, limit: Limit)
    ensures var n := NeededRequests(rows, limit); rows <= n * limit && (rows >= 1 ==> (n - 1) * limit < rows)
  {
    if rows > limit {
      RequestsMeaning(rows - limit, limit);
      var n := NeededRequests(rows - limit, limit);
      assert (n + 1) * limit == n * limit + limit && (n - 1) * limit + limit == n * limit;
    }
  }

  lemma {:induction false} WalkTerminates(fetch: Fetch, tables: seq<seq<Row>>, w: Where, limit: Limit,
      first: seq<Row>, k: nat)
    requires 1 <= k <= |first| && AllServe(fetch, tables, w, limit, first)
    requires |tables| >= NeededRequests(|first| - k, limit)
    ensures Walk(fetch, tables, Some(first[k - 1].id)).done
    decreases |tables|
  {
    var m: nat :| Serves(fetch, tables[0], w, limit, first, m);
    assert ServesBehind(fetch, tables[0], limit, first, m, k);
    if m > k + limit {
      WalkTerminates(fetch, tables[1..], w, limit, first, k + limit);
    }
  }

  /** From the first page on. */
  lemma WalkFromStart(fetch: Fetch, tables: seq<seq<Row>>, w: Where, limit: Limit, first: seq<Row>)
    requires tables != [] && first == w.Window(tables[0])
    requires fetch(tables[0], None) == RowPage(first, limit, None)
    requires AllServe(fetch, tables[1..], w, limit, first)
    ensures Returns(Walk(fetch, tables, None), tables, w, first, 0)
    ensures |tables| >= NeededRequests(|first|, limit) ==> Walk(fetch, tables, None).done
  {
    FirstPage(first, limit);
    if |first| <= limit {
      LastStep(fetch, tables, None, w, limit, first, |first|, 0);
    } else {
      WalkBehind(fetch, tables[1..], w, limit, first, limit);
      NextStep(fetch, tables, None, w, limit, first, 0, limit);
    }
    if |tables| >= NeededRequests(|first|, limit) {
      FirstTerminates(fetch, tables, w, limit, first);
    }
  }

  lemma FirstTerminates(fetch: Fetch, tables: seq<seq<Row>>, w: Where, limit: Limit, first: seq<Row>)
    requires tables != [] && fetch(tables[0], None) == RowPage(first, limit, None)
    requires AllServe(fetch, tables[1..], w, limit, first) && |tables| >= NeededRequests(|first|, limit)
    ensures Walk(fetch, tables, None).done
  {
    FirstPage(first, limit);
    WalkUnfolds(fetch, tables, None);
    if |first| > limit {
      WalkTerminates(fetch, tables[1..], w, limit, first, limit);
    }
  }

  lemma FirstPage(first: seq<Row>, limit: Limit)
    ensures IsPage(RowPage(first, limit, None), first, 0, |first|, limit)
  {
    PageOfTake(first, limit);
  }

  // ---- Newest first: the process table -------------------------------------------------------

  datatype Change = Added(rows: seq<Row>) | Aged(cutoff: int) | HostDeleted(hostId: string)

  /** An ingest, a retention run, or a host deleted with all its rows; `table` is in the order ts DESC. */
  function After(table: seq<Row>, ch: Change): seq<Row> {
    match ch
    case Added(rows) => rows + table
    case Aged(cutoff) => Younger(table, cutoff)
    case HostDeleted(h) => WithoutHost(table, h)
  }

  function AfterAll(table: seq<Row>, chs: seq<Change>): seq<Row>
    decreases |chs|
  {
    if chs == [] then table else AfterAll(After(table, chs[0]), chs[1..])
  }

  ghost predicate NewestFirst(table: seq<Row>) {
    forall i, j :: 0 <= i < j < |table| && table[i].hostId == table[j].hostId ==> table[i].ts >= table[j].ts
  }

  /** A host's samples arrive in the order of their time, each row with an id of its own. */
  ghost predicate Admissible(table: seq<Row>, ch: Change, start: seq<Row>) {
    ch.Added? ==> NewestFirst(After(table, ch)) && FreshFor(ch.rows, start)
  }

  ghost predicate AllAdmissible(table: seq<Row>, chs: seq<Change>, start: seq<Row>)
    decreases |chs|
  {
    chs != [] ==> Admissible(table, chs[0], start) && AllAdmissible(After(table, chs[0]), chs[1..], start)
  }

  lemma FilterNewestFirst(table: seq<Row>, keep: Row -> bool)
    requires NewestFirst(table)
    ensures NewestFirst(Filter(table, keep))
  {
    FilterKeepsOrder(table, keep, (a: Row, b: Row) => a.hostId == b.hostId ==> a.ts >= b.ts);
  }

  lemma {:induction false} AgedPrefix(rows: seq<Row>, cutoff: int) returns (p: nat)
    requires forall i, j :: 0 <= i < j < |rows| ==> rows[i].ts >= rows[j].ts
    ensures p <= |rows| && Filter(rows, (r: Row) => r.ts >= cutoff) == rows[..p]
  {
    if rows == [] {
      p := 0;
    } else if rows[|rows| - 1].ts >= cutoff {
      FilterAll(rows, (r: Row) => r.ts >= cutoff);
      p := |rows|;
    } else {
      p := AgedPrefix(rows[..|rows| - 1], cutoff);
    }
  }

  lemma PrefixFollows(now: seq<Row>, first: seq<Row>, p: nat)
    requires Follows(now, first) && p <= |now|
    ensures Follows(now[..p], first)
  {
    var newer: seq<Row>, m: nat :| FollowsWith(now, first, newer, m);
    if p <= |newer| {
      assert FollowsWith(now[..p], first, newer[..p], 0);
    } else {
      assert FollowsWith(now[..p], first, newer, p - |newer|);
    }
  }

  lemma AddedFollows(table: seq<Row>, rows: seq<Row>, w: Where, start: seq<Row>)
    requires FreshFor(rows, start) && Follows(w.Window(table), w.Window(start))
    ensures Follows(w.Window(rows + table), w.Window(start))
  {
    var first := w.Window(start);
    FilterConcat(rows, table, (r: Row) => w.Matches(r));
    WindowMeaning(rows, w);
    WindowMeaning(start, w);
    var more := w.Window(rows);
    var newer: seq<Row>, m: nat :| FollowsWith(w.Window(table), first, newer, m);
    forall i, j | 0 <= i < |more| && 0 <= j < |first| ensures more[i].id != first[j].id {
      assert more[i] in rows && first[j] in start;
    }
    assert more + (newer + first[..m]) == (more + newer) + first[..m];
    assert FollowsWith(w.Window(rows + table), first, more + newer, m);
  }

  lemma AgedFollows(table: seq<Row>, cutoff: int, w: Where, first: seq<Row>)
    requires NewestFirst(table) && Follows(w.Window(table), first)
    ensures Follows(w.Window(After(table, Aged(cutoff))), first)
  {
    var now := w.Window(table);
    FilterCommutes(table, (r: Row) => r.ts >= cutoff, (r: Row) => w.Matches(r));
    FilterNewestFirst(table, (r: Row) => w.Matches(r));
    WindowMeaning(table, w);
    forall i | 0 <= i < |now| ensures now[i].hostId == w.hostId { assert now[i] in now; }
    var p := AgedPrefix(now, cutoff);
    PrefixFollows(now, first, p);
  }

  lemma HostDeletedFollows(table: seq<Row>, h: string, w: Where, first: seq<Row>)
    requires Follows(w.Window(table), first)
    ensures Follows(w.Window(After(table, HostDeleted(h))), first)
  {
    var now := w.Window(table);
    FilterCommutes(table, (r: Row) => r.hostId != h, (r: Row) => w.Matches(r));
    WindowMeaning(table, w);
    if w.hostId == h {
      FilterNone(now, (r: Row) => r.hostId != h);
      PrefixFollows(now, first, 0);
    } else {
      FilterAll(now, (r: Row) => r.hostId != h);
    }
  }

  lemma ChangeFollows(table: seq<Row>, ch: Change, w: Where, start: seq<Row>)
    requires NewestFirst(table) && Admissible(table, ch, start) && Follows(w.Window(table), w.Window(start))
    ensures NewestFirst(After(table, ch)) && Follows(w.Window(After(table, ch)), w.Window(start))
  {
    match ch
    case Added(rows) => AddedFollows(table, rows, w, start);
    case Aged(cutoff) =>
      AgedFollows(table, cutoff, w, w.Window(start));
      FilterNewestFirst(table, (r: Row) => r.ts >= cutoff);
    case HostDeleted(h) =>
      HostDeletedFollows(table, h, w, w.Window(start));
      FilterNewestFirst(table, (r: Row) => r.hostId != h);
  }

  lemma {:induction false} ChangesFollow(table: seq<Row>, chs: seq<Change>, w: Where, start: seq<Row>)
    requires NewestFirst(table) && AllAdmissible(table, chs, start) && Follows(w.Window(table), w.Window(start))
    ensures NewestFirst(AfterAll(table, chs)) && Follows(w.Window(AfterAll(table, chs)), w.Window(start))
    decreases |chs|
  {
    if chs == [] {
    } else {
      ChangeFollows(table, chs[0], w, start);
      ChangesFollow(After(table, chs[0]), chs[1..], w, start);
    }
  }

  /** `changes[i]` happens between request i and request i + 1. */
  ghost predicate Evolves(tables: seq<seq<Row>>, changes: seq<seq<Change>>, start: seq<Row>) {
    && |tables| == |changes| + 1
    && forall i :: 0 <= i < |changes| ==>
         AllAdmissible(tables[i], changes[i], start) && tables[i + 1] == AfterAll(tables[i], changes[i])
  }

  lemma {:induction false} TablesFollow(tables: seq<seq<Row>>, changes: seq<seq<Change>>, w: Where, i: nat)
    requires |tables| > i && NewestFirst(tables[0]) && Evolves(tables, changes, tables[0])
    ensures NewestFirst(tables[i]) && Follows(w.Window(tables[i]), w.Window(tables[0]))
  {
    var first := w.Window(tables[0]);
    if i == 0 {
      assert FollowsWith(first, first, [], |first|);
    } else {
      TablesFollow(tables, changes, w, i - 1);
      ChangesFollow(tables[i - 1], changes[i - 1], w, tables[0]);
    }
  }

  function ProcessWalk(q: ProcessQuery, tables: seq<seq<Row>>): Walked {
    Walk((t, c) => ProcessPage(t, q, c), tables, None)
  }

  /** The fallback only answers a first request whose bounded window is empty. */
  ghost predicate NoFallback(table: seq<Row>, q: ProcessQuery) {
    q.Where().Window(table) != [] || !q.Where().Bounded()
  }

  /** While agents send, retention runs and hosts are deleted, a walk over the processes returns the window
      it started on, in order and without repeats, less only rows that were deleted before it ended. */
  lemma ProcessWalkStaysWhole(q: ProcessQuery, tables: seq<seq<Row>>, changes: seq<seq<Change>>)
    requires |tables| == |changes| + 1 && Keyed(tables[0]) && NewestFirst(tables[0])
    requires Evolves(tables, changes, tables[0]) && NoFallback(tables[0], q)
    ensures var first := q.Where().Window(tables[0]); var r := ProcessWalk(q, tables);
      Returns(r, tables, q.Where(), first, 0) && (|tables| >= NeededRequests(|first|, q.limit) ==> r.done)
  {
    var w := q.Where();
    ProcessPages(q);
    ProcessPageFirst(q, tables[0]);
    WindowKeyed(tables[0], w);
    forall i: nat | i < |tables| ensures Follows(w.Window(tables[i]), w.Window(tables[0])) {
      TablesFollow(tables, changes, w, i);
    }
    AllFollowingServe((t, c) => ProcessPage(t, q, c), tables, w, q.limit, w.Window(tables[0]));
    WalkFromStart((t, c) => ProcessPage(t, q, c), tables, w, q.limit, w.Window(tables[0]));
  }
}
