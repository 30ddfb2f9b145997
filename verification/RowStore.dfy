/** A time-series table (metrics_raw, proc_snapshots) as the queries see it: a sequence of rows in the
    order of the query, and a WHERE on host and time. Rows of different hosts never share an answer. */
module RowStore {
  import opened Prelude

  /** The float columns; both tables have seven or fewer. */
  type Columns = s: seq<real> | |s| == 7 witness [0.0, 0.0, 0.0, 0.0, 0.0, 0.0, 0.0]

  datatype Row = Row(id: string, hostId: string, ts: int, columns: Columns)

  datatype Where = Where(hostId: string, gte: Option<int>, lte: Option<int>)
  {
    predicate Matches(r: Row) {
      && r.hostId == hostId
      && (gte.Some? ==> r.ts >= gte.value)
      && (lte.Some? ==> r.ts <= lte.value)
    }

    predicate Bounded() { gte.Some? || lte.Some? }

    function Host(): Where { Where(hostId, None, None) }

    function Window(table: seq<Row>): seq<Row> { Filter(table, (r: Row) => Matches(r)) }
  }

  /** What a retention run leaves of a table. */
  function Younger(table: seq<Row>, cutoff: int): seq<Row> { Filter(table, (r: Row) => r.ts >= cutoff) }

  /** What deleting a host leaves. */
  function WithoutHost(table: seq<Row>, hostId: string): seq<Row> { Filter(table, (r: Row) => r.hostId != hostId) }

  ghost predicate DistinctIds(rows: seq<Row>) {
    forall i, j :: 0 <= i < j < |rows| ==> rows[i].id != rows[j].id
  }

  ghost predicate Keyed(rows: seq<Row>) {
    DistinctIds(rows) && forall i :: 0 <= i < |rows| ==> rows[i].id != ""
  }

  lemma WindowKeyed(table: seq<Row>, w: Where)
    requires Keyed(table)
    ensures Keyed(w.Window(table))
  {
    FilterKeepsOrder(table, (r: Row) => w.Matches(r), (a: Row, b: Row) => a.id != b.id);
    WindowMeaning(table, w);
    var rows := w.Window(table);
    forall i | 0 <= i < |rows| ensures rows[i].id != "" {
      assert rows[i] in rows;
    }
  }

  /** What the queries promise of a row: its host, and a time from `from` to `to`, both included, where given. */
  predicate Inside(r: Row, hostId: string, from: Option<int>, to: Option<int>) {
    r.hostId == hostId && (from.Some? ==> from.value <= r.ts) && (to.Some? ==> r.ts <= to.value)
  }

  ghost predicate AnyInside(table: seq<Row>, hostId: string, from: Option<int>, to: Option<int>) {
    exists r :: r in table && Inside(r, hostId, from, to)
  }

  /** The window holds these rows and no others. */
  lemma WindowMeaning(table: seq<Row>, w: Where)
    ensures forall r :: r in w.Window(table) <==> r in table && Inside(r, w.hostId, w.gte, w.lte)
  {
    FilterElements(table, (r: Row) => w.Matches(r));
  }

  lemma WindowEmpty(table: seq<Row>, w: Where)
    ensures w.Window(table) == [] <==> !AnyInside(table, w.hostId, w.gte, w.lte)
  {
    WindowMeaning(table, w);
    var rows := w.Window(table);
    assert rows != [] ==> rows[0] in rows;
  }

  function Take(s: seq<Row>, n: nat): seq<Row> { if |s| > n then s[..n] else s }

  /** The position behind the row with this id; the end when there is none. */
  function Behind(s: seq<Row>, id: string): (p: nat)
    ensures p <= |s|
  {
    if s == [] then 0 else if s[0].id == id then 1 else 1 + Behind(s[1..], id)
  }

  lemma {:induction false} BehindAt(s: seq<Row>, p: nat)
    requires p < |s| && forall i :: 0 <= i < p ==> s[i].id != s[p].id
    ensures Behind(s, s[p].id) == p + 1
  {
    if p == 0 {
    } else {
      BehindAt(s[1..], p - 1);
    }
  }

  lemma {:induction false} BehindMissing(s: seq<Row>, id: string)
    requires forall i :: 0 <= i < |s| ==> s[i].id != id
    ensures Behind(s, id) == |s|
  {
    if s == [] {
    } else {
      BehindMissing(s[1..], id);
    }
  }

  /** findMany with the table in the order of ORDER BY; `skip` rows are skipped from the cursor row on. */
  function FindMany(table: seq<Row>, where: Where, take: nat, cursor: Option<string>): seq<Row> {
    var rows := where.Window(table);
    Take(if cursor.Some? then rows[Behind(rows, cursor.value)..] else rows, take)
  }
}
