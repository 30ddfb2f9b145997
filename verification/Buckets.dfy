/** Averages per calendar bucket.
    backend/src/metrics/metrics.service.ts, findAggregated */
module Buckets {
  import opened Prelude
  import opened RowStore
  import Division

  const MINUTE: int := 60_000
  const DAY: int := 86_400_000

  datatype Resolution = OneMinute | FiveMinutes
  {
    function Minutes(): (k: int)
      ensures k == 1 || k == 5
    {
      if OneMinute? then 1 else 5
    }

    function Width(): (w: int)
      ensures w == if OneMinute? then 60_000 else 300_000
    {
      Minutes() * MINUTE
    }
  }

  // ---- The bucket of an instant --------------------------------------------------------------

  /** date_trunc('minute', ts), in milliseconds since a midnight. */
  function TruncMinute(ts: int): int { ts - ts % MINUTE }

  /** EXTRACT(MINUTE FROM ts): the minute of the hour on the clock. */
  function ClockMinute(ts: int): (m: int)
    ensures 0 <= m < 60
  {
    ts % DAY / MINUTE % 60
  }

  function Bucket(ts: int, res: Resolution): int {
    TruncMinute(ts) - (ClockMinute(ts) % res.Minutes()) * MINUTE
  }

  lemma MinuteOfHour(ts: int)
    ensures ClockMinute(ts) == ts / MINUTE % 60
  {
    var d, t := ts / DAY, ts % DAY;
    var m := t / MINUTE;
    assert ts == DAY * d + t && t == MINUTE * m + t % MINUTE;
    Division.Unique(ts, 1440 * d + m, t % MINUTE, MINUTE);
    var h, n := m / 60, m % 60;
    Division.Unique(1440 * d + m, 24 * d + h, n, 60);
  }

  lemma MinuteOfFive(k: int)
    ensures k % 60 % 5 == k % 5
  {
    var h, n := k / 60, k % 60;
    assert k == 60 * h + n && n == 5 * (n / 5) + n % 5;
    Division.Unique(k, 12 * h + n / 5, n % 5, 5);
  }

  /** The calendar formula in terms of whole buckets since the epoch. */
  lemma BucketForm(ts: int, res: Resolution)
    ensures Bucket(ts, res) == (ts / MINUTE / res.Minutes()) * res.Width()
  {
    var k := ts / MINUTE;
    MinuteOfHour(ts);
    MinuteOfFive(k);
    assert TruncMinute(ts) == k * MINUTE;
    assert k == 5 * (k / 5) + k % 5;
  }

  lemma Multiple(q: int, w: int)
    requires w >= 1
    ensures q * w % w == 0
  {
    Division.Unique(q * w, q, 0, w);
  }

  /** The calendar formula floors the epoch time to a multiple of the bucket width. */
  lemma BucketFloors(ts: int, res: Resolution)
    ensures var b, w := Bucket(ts, res), if res.OneMinute? then 60_000 else 300_000;
      b % w == 0 && b <= ts < b + w && b % res.Width() == 0 && b <= ts < b + res.Width()
  {
    var k := ts / MINUTE;
    BucketForm(ts, res);
    Multiple(k / res.Minutes(), res.Width());
    assert ts == MINUTE * k + ts % MINUTE;
    assert k == 5 * (k / 5) + k % 5;
  }

  /** Being aligned and around `ts` leaves one choice. */
  lemma BucketUnique(ts: int, res: Resolution, b: int)
    requires b % res.Width() == 0 && b <= ts < b + res.Width()
    ensures b == Bucket(ts, res)
  {
    BucketFloors(ts, res);
    var w := res.Width();
    var c := Bucket(ts, res);
    Division.SameRow(b / w, ts - b, c / w, ts - c, w);
  }

  /** A minute lies within one five-minute bucket. */
  lemma MinuteWithinFive(ts: int)
    ensures Bucket(Bucket(ts, OneMinute), FiveMinutes) == Bucket(ts, FiveMinutes)
  {
    BucketFloors(ts, OneMinute);
    BucketFloors(ts, FiveMinutes);
    var m, b := Bucket(ts, OneMinute), Bucket(ts, FiveMinutes);
    assert b % MINUTE == 0;
    BucketUnique(m, FiveMinutes, b);
  }

  // ---- GROUP BY bucket, ORDER BY bucket ------------------------------------------------------

  ghost predicate Increasing(s: seq<int>) { forall i, j :: 0 <= i < j < |s| ==> s[i] < s[j] }

  /** `b` put in its place. */
  function Insert(s: seq<int>, b: int): seq<int> {
    if s == [] || b < s[0] then [b] + s
    else if b == s[0] then s
    else [s[0]] + Insert(s[1..], b)
  }

  lemma {:induction false} InsertIncreases(s: seq<int>, b: int)
    requires Increasing(s)
    ensures Increasing(Insert(s, b)) && forall x :: x in Insert(s, b) <==> x == b || x in s
  {
    if s != [] && b > s[0] {
      var t := Insert(s[1..], b);
      InsertIncreases(s[1..], b);
      forall i | 0 <= i < |t| ensures s[0] < t[i] {
        assert t[i] in t;
      }
      InsertTail(s, b);
    }
  }

  lemma InsertTail(s: seq<int>, b: int)
    requires s != [] && b > s[0]
    requires forall x :: x in Insert(s[1..], b) <==> x == b || x in s[1..]
    ensures forall x :: x in Insert(s, b) <==> x == b || x in s
  {
    assert s == [s[0]] + s[1..];
  }

  /** The buckets that hold a row. */
  function Starts(rows: seq<Row>, res: Resolution): seq<int> {
    if rows == [] then [] else Insert(Starts(rows[..|rows| - 1], res), Bucket(rows[|rows| - 1].ts, res))
  }

  lemma {:induction false} StartsMeaning(rows: seq<Row>, res: Resolution)
    ensures Increasing(Starts(rows, res))
    ensures forall b :: b in Starts(rows, res) <==> exists r: Row :: r in rows && Bucket(r.ts, res) == b
  {
    if rows == [] {
    } else {
      var init, last := rows[..|rows| - 1], rows[|rows| - 1];
      StartsMeaning(init, res);
      InsertIncreases(Starts(init, res), Bucket(last.ts, res));
      assert rows == init + [last];
    }
  }

  function Group(rows: seq<Row>, b: int, res: Resolution): seq<Row> {
    Filter(rows, (r: Row) => Bucket(r.ts, res) == b)
  }

  type ColumnIndex = c: int | 0 <= c < 7 witness 0

  function Sum(rows: seq<Row>, c: ColumnIndex): real {
    if rows == [] then 0.0 else Sum(rows[..|rows| - 1], c) + rows[|rows| - 1].columns[c]
  }

  function Average(rows: seq<Row>, c: ColumnIndex): real
    requires rows != []
  {
    Sum(rows, c) / |rows| as real
  }

  datatype Aggregate = Aggregate(bucket: int, average: Columns)

  function AggregateOf(rows: seq<Row>, b: int, res: Resolution): Aggregate
    requires Group(rows, b, res) != []
  {
    var g := Group(rows, b, res);
    Aggregate(b, seq(7, c requires 0 <= c < 7 => Average(g, c)))
  }

  lemma GroupMeaning(rows: seq<Row>, b: int, res: Resolution)
    ensures forall r :: r in Group(rows, b, res) <==> r in rows && Bucket(r.ts, res) == b
  {
    FilterElements(rows, (r: Row) => Bucket(r.ts, res) == b);
  }

  lemma StartHasRows(rows: seq<Row>, res: Resolution)
    ensures forall b :: b in Starts(rows, res) ==> Group(rows, b, res) != []
  {
    StartsMeaning(rows, res);
    forall b | b in Starts(rows, res) ensures Group(rows, b, res) != [] {
      GroupMeaning(rows, b, res);
      var r: Row :| r in rows && Bucket(r.ts, res) == b;
      assert r in Group(rows, b, res);
    }
  }

  lemma StartOf(rows: seq<Row>, res: Resolution, r: Row) returns (i: nat)
    requires r in rows
    ensures i < |Starts(rows, res)| && Starts(rows, res)[i] == Bucket(r.ts, res)
  {
    StartsMeaning(rows, res);
    assert Bucket(r.ts, res) in Starts(rows, res);
    i :| i < |Starts(rows, res)| && Starts(rows, res)[i] == Bucket(r.ts, res);
  }

  function AllAggregates(rows: seq<Row>, res: Resolution): (out: seq<Aggregate>)
    ensures |out| == |Starts(rows, res)|
    ensures forall i :: 0 <= i < |out| ==> out[i].bucket == Starts(rows, res)[i]
  {
    StartHasRows(rows, res);
    var starts := Starts(rows, res);
    seq(|starts|, i requires 0 <= i < |starts| => assert starts[i] in starts; AggregateOf(rows, starts[i], res))
  }

  /** The query: the window's groups, oldest first, cut at LIMIT. */
  function FindAggregated(table: seq<Row>, hostId: string, from: int, to: int, res: Resolution,
      limit: nat): seq<Aggregate>
  {
    var out := AllAggregates(Where(hostId, Some(from), Some(to)).Window(table), res);
    if |out| > limit then out[..limit] else out
  }

  // ---- What the buckets promise --------------------------------------------------------------

  predicate Covers(b: int, res: Resolution, ts: int) { b <= ts < b + res.Width() }

  lemma CoversMeaning(b: int, res: Resolution, ts: int)
    requires b % res.Width() == 0
    ensures Covers(b, res, ts) <==> b == Bucket(ts, res)
  {
    BucketFloors(ts, res);
    if Covers(b, res, ts) { BucketUnique(ts, res, b); }
  }

  ghost predicate Rising(out: seq<Aggregate>) {
    forall i, j :: 0 <= i < j < |out| ==> out[i].bucket < out[j].bucket
  }

  lemma AggregatesAligned(rows: seq<Row>, res: Resolution)
    ensures var out := AllAggregates(rows, res);
      && Rising(out)
      && (forall i :: 0 <= i < |out| ==> out[i].bucket % res.Width() == 0)
  {
    StartsMeaning(rows, res);
    var starts := Starts(rows, res);
    forall i | 0 <= i < |starts| ensures starts[i] % res.Width() == 0 {
      assert starts[i] in starts;
      var r: Row :| r in rows && Bucket(r.ts, res) == starts[i];
      BucketFloors(r.ts, res);
    }
  }

  /** The bucket `i` of the answer holds this instant. */
  predicate HeldBy(out: seq<Aggregate>, res: Resolution, ts: int, i: nat) {
    i < |out| && Covers(out[i].bucket, res, ts)
  }

  ghost predicate Held(out: seq<Aggregate>, res: Resolution, ts: int) {
    exists i: nat :: HeldBy(out, res, ts, i)
  }

  /** Buckets are aligned and strictly increasing, so no row lies in two. */
  lemma NoRowTwice(table: seq<Row>, hostId: string, from: int, to: int, res: Resolution, limit: nat)
    ensures var out := FindAggregated(table, hostId, from, to, res, limit);
      && Rising(out)
      && (forall i :: 0 <= i < |out| ==> out[i].bucket % res.Width() == 0)
      && (forall ts: int, i: nat, j: nat :: HeldBy(out, res, ts, i) && HeldBy(out, res, ts, j) ==> i == j)
  {
    AggregatesAligned(Where(hostId, Some(from), Some(to)).Window(table), res);
    var out := FindAggregated(table, hostId, from, to, res, limit);
    forall ts: int, i: nat, j: nat | HeldBy(out, res, ts, i) && HeldBy(out, res, ts, j) ensures i == j {
      CoversMeaning(out[i].bucket, res, ts);
      CoversMeaning(out[j].bucket, res, ts);
    }
  }

  /** Every row of the window lies in a bucket of the answer exactly when LIMIT does not cut. */
  lemma EveryRowHeld(table: seq<Row>, hostId: string, from: int, to: int, res: Resolution, limit: nat)
    ensures var rows := Where(hostId, Some(from), Some(to)).Window(table);
      var out := FindAggregated(table, hostId, from, to, res, limit);
      |Starts(rows, res)| <= limit <==>
        forall r :: r in table && r.hostId == hostId && from <= r.ts <= to ==> Held(out, res, r.ts)
  {
    WindowMeaning(table, Where(hostId, Some(from), Some(to)));
    var rows := Where(hostId, Some(from), Some(to)).Window(table);
    var out := FindAggregated(table, hostId, from, to, res, limit);
    var starts := Starts(rows, res);
    AggregatesAligned(rows, res);
    StartsMeaning(rows, res);
    if |starts| <= limit {
      forall r | r in rows ensures Held(out, res, r.ts) {
        var i := StartOf(rows, res, r);
        BucketFloors(r.ts, res);
        assert HeldBy(out, res, r.ts, i);
      }
    } else {
      assert starts[limit] in starts;
      var r: Row :| r in rows && Bucket(r.ts, res) == starts[limit];
      if Held(out, res, r.ts) {
        var i: nat :| HeldBy(out, res, r.ts, i);
        CoversMeaning(out[i].bucket, res, r.ts);
        assert false;
      }
    }
  }

  /** `g` are the rows of the table with this host and a time inside both the bounds and the bucket of `a`; there is at
      least one; and each average of `a` is theirs. */
  ghost predicate Averages(a: Aggregate, g: seq<Row>, table: seq<Row>, hostId: string, from: int, to: int, width: int) {
    && g != []
    && (forall r :: r in g <==>
          r in table && r.hostId == hostId && from <= r.ts <= to && a.bucket <= r.ts < a.bucket + width)
    && forall c: ColumnIndex :: |g| as real * a.average[c] == Sum(g, c)
  }

  /** Every entry of the answer averages these rows. */
  lemma AverageMeaning(table: seq<Row>, hostId: string, from: int, to: int, res: Resolution, limit: nat, i: nat)
    requires i < |FindAggregated(table, hostId, from, to, res, limit)|
    ensures
      var a := FindAggregated(table, hostId, from, to, res, limit)[i];
      var g := Group(Where(hostId, Some(from), Some(to)).Window(table), a.bucket, res);
      Averages(a, g, table, hostId, from, to, if res.OneMinute? then 60_000 else 300_000)
  {
    var window := Where(hostId, Some(from), Some(to)).Window(table);
    AggregatesAligned(window, res);
    AggregatesHave(window, res);
    StartHasRows(window, res);
    assert Starts(window, res)[i] in Starts(window, res);
    AveragesOf(table, hostId, from, to, res, window, AllAggregates(window, res)[i]);
  }

  lemma AveragesOf(table: seq<Row>, hostId: string, from: int, to: int, res: Resolution, window: seq<Row>, a: Aggregate)
    requires window == Where(hostId, Some(from), Some(to)).Window(table) && a.bucket % res.Width() == 0
    requires IsMean(window, a, res) && Group(window, a.bucket, res) != []
    ensures Averages(a, Group(window, a.bucket, res), table, hostId, from, to,
                     if res.OneMinute? then 60_000 else 300_000)
  {
    WindowMeaning(table, Where(hostId, Some(from), Some(to)));
    GroupRows(window, a.bucket, res);
    forall c: ColumnIndex
      ensures |Group(window, a.bucket, res)| as real * a.average[c] == Sum(Group(window, a.bucket, res), c)
    {
      MeanOf(window, a, res, c);
    }
  }

  lemma GroupRows(rows: seq<Row>, b: int, res: Resolution)
    requires b % res.Width() == 0
    ensures forall r :: r in Group(rows, b, res) <==>
      r in rows && b <= r.ts < b + (if res.OneMinute? then 60_000 else 300_000)
  {
    GroupMeaning(rows, b, res);
    forall r | r in rows ensures Bucket(r.ts, res) == b <==> Covers(b, res, r.ts) {
      CoversMeaning(b, res, r.ts);
    }
  }

  lemma MeanOf(rows: seq<Row>, a: Aggregate, res: Resolution, c: ColumnIndex)
    requires IsMean(rows, a, res)
    ensures |Group(rows, a.bucket, res)| as real * a.average[c] == Sum(Group(rows, a.bucket, res), c)
  {
    assert Weight(rows, a, res, c) == Sum(Group(rows, a.bucket, res), c);
  }

  /** Count times average. */
  function Weight(rows: seq<Row>, a: Aggregate, res: Resolution, c: ColumnIndex): real {
    Times(|Group(rows, a.bucket, res)|, a.average[c])
  }

  function Times(n: nat, x: real): real { n as real * x }

  /** Count times average, added over buckets. */
  function Weighted(rows: seq<Row>, out: seq<Aggregate>, res: Resolution, c: ColumnIndex): real {
    if out == [] then 0.0 else Weighted(rows, out[..|out| - 1], res, c) + Weight(rows, out[|out| - 1], res, c)
  }

  function Total(rows: seq<Row>, out: seq<Aggregate>, res: Resolution, c: ColumnIndex): real {
    if out == [] then 0.0
    else Total(rows, out[..|out| - 1], res, c) + Sum(Group(rows, out[|out| - 1].bucket, res), c)
  }

  /** The averages are those of the rows in the bucket. */
  ghost predicate IsMean(rows: seq<Row>, a: Aggregate, res: Resolution) {
    forall c: ColumnIndex :: Weight(rows, a, res, c) == Sum(Group(rows, a.bucket, res), c)
  }

  ghost predicate AreMeans(rows: seq<Row>, out: seq<Aggregate>, res: Resolution) {
    forall i :: 0 <= i < |out| ==> IsMean(rows, out[i], res)
  }

  lemma AverageTimesCount(g: seq<Row>, c: ColumnIndex)
    requires g != []
    ensures Times(|g|, Average(g, c)) == Sum(g, c)
  {
  }

  lemma AggregateIsMean(rows: seq<Row>, b: int, res: Resolution)
    requires Group(rows, b, res) != []
    ensures IsMean(rows, AggregateOf(rows, b, res), res)
  {
    var a, g := AggregateOf(rows, b, res), Group(rows, b, res);
    forall c: ColumnIndex ensures Weight(rows, a, res, c) == Sum(g, c) {
      AverageTimesCount(g, c);
      assert a.average[c] == Average(g, c);
    }
  }

  lemma {:induction false} WeightedIsTotal(rows: seq<Row>, out: seq<Aggregate>, res: Resolution, c: ColumnIndex)
    requires AreMeans(rows, out, res)
    ensures Weighted(rows, out, res, c) == Total(rows, out, res, c)
  {
    if out == [] {
    } else {
      WeightedIsTotal(rows, out[..|out| - 1], res, c);
      assert IsMean(rows, out[|out| - 1], res);
    }
  }

  /** One of the buckets starts there. */
  ghost predicate HasBucket(out: seq<Aggregate>, b: int) {
    exists i :: 0 <= i < |out| && out[i].bucket == b
  }

  /** One more row adds its value to one bucket of a rising list, or to none. */
  lemma {:induction false} TotalAddRow(rows: seq<Row>, r: Row, out: seq<Aggregate>, res: Resolution, c: ColumnIndex)
    requires Rising(out)
    ensures Total(rows + [r], out, res, c)
         == Total(rows, out, res, c) + (if HasBucket(out, Bucket(r.ts, res)) then r.columns[c] else 0.0)
  {
    if out == [] {
    } else {
      var init, a := out[..|out| - 1], out[|out| - 1];
      TotalAddRow(rows, r, init, res, c);
      GroupAddRow(rows, r, a.bucket, res, c);
      HasBucketSnoc(out, Bucket(r.ts, res));
    }
  }

  lemma GroupAddRow(rows: seq<Row>, r: Row, b: int, res: Resolution, c: ColumnIndex)
    ensures Sum(Group(rows + [r], b, res), c)
         == Sum(Group(rows, b, res), c) + (if Bucket(r.ts, res) == b then r.columns[c] else 0.0)
  {
    FilterAppend(rows, r, (x: Row) => Bucket(x.ts, res) == b);
    SumAppend(Group(rows, b, res), r, c);
  }

  lemma HasBucketSnoc(out: seq<Aggregate>, b: int)
    requires out != [] && Rising(out)
    ensures HasBucket(out, b) <==> HasBucket(out[..|out| - 1], b) || out[|out| - 1].bucket == b
    ensures out[|out| - 1].bucket == b ==> !HasBucket(out[..|out| - 1], b)
  {
    var init := out[..|out| - 1];
    assert forall i :: 0 <= i < |init| ==> init[i] == out[i];
  }

  lemma SumAppend(g: seq<Row>, r: Row, c: ColumnIndex)
    ensures Sum(g + [r], c) == Sum(g, c) + r.columns[c]
    ensures g + [] == g
  {
    assert (g + [r])[..|g|] == g;
  }

  lemma {:induction false} TotalOfNone(out: seq<Aggregate>, res: Resolution, c: ColumnIndex)
    ensures Total([], out, res, c) == 0.0
  {
    if out == [] {
    } else {
      TotalOfNone(out[..|out| - 1], res, c);
      assert Group([], out[|out| - 1].bucket, res) == [];
    }
  }

  /** Buckets that take exactly the rows to be kept add up to those rows. */
  lemma {:induction false} TotalIsSum(rows: seq<Row>, keep: Row -> bool, out: seq<Aggregate>, res: Resolution,
      c: ColumnIndex)
    requires Rising(out)
    requires forall i :: 0 <= i < |rows| ==> (keep(rows[i]) <==> HasBucket(out, Bucket(rows[i].ts, res)))
    ensures Total(rows, out, res, c) == Sum(Filter(rows, keep), c)
  {
    if rows == [] {
      TotalOfNone(out, res, c);
    } else {
      var init, r := rows[..|rows| - 1], rows[|rows| - 1];
      TotalIsSum(init, keep, out, res, c);
      OneMoreRow(init, r, keep, out, res, c);
      assert rows == init + [r];
    }
  }

  lemma OneMoreRow(init: seq<Row>, r: Row, keep: Row -> bool, out: seq<Aggregate>, res: Resolution, c: ColumnIndex)
    requires Rising(out) && (keep(r) <==> HasBucket(out, Bucket(r.ts, res)))
    requires Total(init, out, res, c) == Sum(Filter(init, keep), c)
    ensures Total(init + [r], out, res, c) == Sum(Filter(init + [r], keep), c)
  {
    TotalAddRow(init, r, out, res, c);
    FilterAppend(init, r, keep);
    SumAppend(Filter(init, keep), r, c);
  }

  /** The buckets of the finer answer inside one five-minute bucket. */
  function Within(out: seq<Aggregate>, b: int): seq<Aggregate> {
    Filter(out, (a: Aggregate) => Covers(b, FiveMinutes, a.bucket))
  }

  lemma {:induction false} WithinRises(out: seq<Aggregate>, b: int)
    requires Rising(out)
    ensures Rising(Within(out, b))
    ensures forall s :: HasBucket(Within(out, b), s) <==> HasBucket(out, s) && Covers(b, FiveMinutes, s)
  {
    var f := (a: Aggregate) => Covers(b, FiveMinutes, a.bucket);
    FilterElements(out, f);
    var w := Within(out, b);
    forall s ensures HasBucket(w, s) <==> HasBucket(out, s) && Covers(b, FiveMinutes, s) {
      if HasBucket(w, s) {
        var i :| 0 <= i < |w| && w[i].bucket == s;
        assert w[i] in out;
      }
      if HasBucket(out, s) && Covers(b, FiveMinutes, s) {
        var i :| 0 <= i < |out| && out[i].bucket == s;
        assert out[i] in w;
      }
    }
    if out == [] {
    } else {
      var init := out[..|out| - 1];
      WithinRises(init, b);
      FilterElements(init, f);
      var v := Within(init, b);
      forall i | 0 <= i < |v| ensures v[i].bucket < out[|out| - 1].bucket {
        assert v[i] in init;
      }
    }
  }

  lemma AggregatesHave(rows: seq<Row>, res: Resolution)
    ensures var out := AllAggregates(rows, res);
      && AreMeans(rows, out, res)
      && forall r :: r in rows ==> HasBucket(out, Bucket(r.ts, res))
  {
    StartHasRows(rows, res);
    StartsMeaning(rows, res);
    var out, starts := AllAggregates(rows, res), Starts(rows, res);
    forall i | 0 <= i < |out| ensures IsMean(rows, out[i], res) {
      assert starts[i] in starts;
      AggregateIsMean(rows, starts[i], res);
    }
    forall r | r in rows ensures HasBucket(out, Bucket(r.ts, res)) {
      var i := StartOf(rows, res, r);
      assert out[i].bucket == Bucket(r.ts, res);
    }
  }

  /** All buckets together hold what the window holds. */
  lemma BucketsConserve(rows: seq<Row>, res: Resolution, c: ColumnIndex)
    ensures Weighted(rows, AllAggregates(rows, res), res, c) == Sum(rows, c)
  {
    var out := AllAggregates(rows, res);
    AggregatesAligned(rows, res);
    AggregatesHave(rows, res);
    WeightedIsTotal(rows, out, res, c);
    TotalIsSum(rows, (r: Row) => true, out, res, c);
    FilterAll(rows, (r: Row) => true);
  }

  lemma FiveCoversMinute(rows: seq<Row>, b: int, r: Row)
    requires r in rows && b % FiveMinutes.Width() == 0
    ensures var out := Within(AllAggregates(rows, OneMinute), b);
      Bucket(r.ts, FiveMinutes) == b <==> HasBucket(out, Bucket(r.ts, OneMinute))
  {
    AggregatesAligned(rows, OneMinute);
    AggregatesHave(rows, OneMinute);
    WithinRises(AllAggregates(rows, OneMinute), b);
    MinuteWithinFive(r.ts);
    CoversMeaning(b, FiveMinutes, Bucket(r.ts, OneMinute));
  }

  /** A five-minute average, times its count, is what its one-minute averages, times theirs, add up to. */
  lemma CoarseRefinesFine(table: seq<Row>, hostId: string, from: int, to: int, limit1: nat, limit5: nat, i: nat,
      c: ColumnIndex)
    requires |Starts(Where(hostId, Some(from), Some(to)).Window(table), OneMinute)| <= limit1
    requires i < |FindAggregated(table, hostId, from, to, FiveMinutes, limit5)|
    ensures var rows := Where(hostId, Some(from), Some(to)).Window(table);
      var fine := FindAggregated(table, hostId, from, to, OneMinute, limit1);
      var coarse := FindAggregated(table, hostId, from, to, FiveMinutes, limit5)[i];
      Weighted(rows, Within(fine, coarse.bucket), OneMinute, c)
        == Weight(rows, coarse, FiveMinutes, c)
  {
    var rows := Where(hostId, Some(from), Some(to)).Window(table);
    var fine := AllAggregates(rows, OneMinute);
    var coarse := AllAggregates(rows, FiveMinutes)[i];
    var b := coarse.bucket;
    AggregatesAligned(rows, FiveMinutes);
    AggregatesHave(rows, FiveMinutes);
    assert IsMean(rows, coarse, FiveMinutes);
    FineTotal(rows, b, c);
  }

  lemma FineTotal(rows: seq<Row>, b: int, c: ColumnIndex)
    requires b % FiveMinutes.Width() == 0
    ensures Weighted(rows, Within(AllAggregates(rows, OneMinute), b), OneMinute, c)
         == Sum(Group(rows, b, FiveMinutes), c)
  {
    var fine := AllAggregates(rows, OneMinute);
    var within := Within(fine, b);
    AggregatesAligned(rows, OneMinute);
    AggregatesHave(rows, OneMinute);
    WithinRises(fine, b);
    FilterElements(fine, (a: Aggregate) => Covers(b, FiveMinutes, a.bucket));
    forall j | 0 <= j < |within| ensures IsMean(rows, within[j], OneMinute) {
      assert within[j] in fine;
    }
    WeightedIsTotal(rows, within, OneMinute, c);
    var keep := (r: Row) => Bucket(r.ts, FiveMinutes) == b;
    forall j | 0 <= j < |rows| ensures keep(rows[j]) <==> HasBucket(within, Bucket(rows[j].ts, OneMinute)) {
      FiveCoversMinute(rows, b, rows[j]);
    }
    TotalIsSum(rows, keep, within, OneMinute, c);
  }
}
