/**
 The read side of the statistics: queries, the rows the database returns for them, and the
 snapshot assembled from those rows.
 */
module Statistics {
  import opened Options
  import opened AccessEvents
  import opened Projection

  datatype Interval = Hour | Day

  datatype Query = Query(from: int, to: int, interval: Interval)

  function BucketSeconds(interval: Interval): (seconds: int)
    ensures seconds > 0 && seconds % SECONDS_PER_HOUR == 0
  {
    if interval.Hour? then SECONDS_PER_HOUR else SECONDS_PER_DAY
  }

  /** Start of the bucket an hour belongs to. */
  function BucketStart(interval: Interval, hour: int): int {
    if interval.Hour? then hour else hour - hour % SECONDS_PER_DAY
  }

  predicate ValidQuery(q: Query) {
    && q.from >= 0 && q.to > q.from
    && q.from % BucketSeconds(q.interval) == 0 && q.to % BucketSeconds(q.interval) == 0
    && q.to - q.from <= (if q.interval.Hour? then 31 else 366) * SECONDS_PER_DAY
  }

  /** From an aligned start, a query over `n` buckets is valid exactly for up to 744 hours or 366 days. */
  lemma ValidLengths(q: Query, n: int)
    requires q.from >= 0 && q.from % (if q.interval.Hour? then 3600 else 86400) == 0
    requires q.to == q.from + n * (if q.interval.Hour? then 3600 else 86400)
    ensures ValidQuery(q) <==> 1 <= n <= (if q.interval.Hour? then 744 else 366)
  {
  }

  lemma ValidRanges(q: Query)
    ensures q.interval.Hour? ==>
              (ValidQuery(q) <==> 0 <= q.from < q.to <= q.from + 744 * 3600 && q.from % 3600 == 0 && q.to % 3600 == 0)
    ensures q.interval.Day? ==>
              (ValidQuery(q) <==> 0 <= q.from < q.to <= q.from + 366 * 86400 && q.from % 86400 == 0 && q.to % 86400 == 0)
  {
  }

  // ---------------------------------------------------------------------------------------
  // Counts per result.

  const RESULT_COUNT := 4

  type Counts = c: seq<nat> | |c| == RESULT_COUNT witness [0, 0, 0, 0]

  const NO_COUNTS: Counts := [0, 0, 0, 0]

  function ResultIndex(result: AccessResult): Option<nat> {
    match result
    case Success => Some(0)
    case Disabled => Some(1)
    case Expired => Some(2)
    case Error => Some(3)
    case NotFound => None
  }

  function ResultAt(i: nat): AccessResult
    requires i < RESULT_COUNT
  {
    [Success, Disabled, Expired, AccessResult.Error][i]
  }

  /** The four slots are the aggregated results, one each. */
  lemma SlotsAreResults(result: AccessResult, i: nat)
    requires i < RESULT_COUNT
    ensures ResultIndex(result) == Some(i) <==> ResultAt(i) == result
    ensures ResultIndex(result).Some? <==> IsAggregated(result)
    ensures IsAggregated(ResultAt(i))
    ensures ResultAt(0) == Success && ResultAt(1) == Disabled && ResultAt(2) == Expired && ResultAt(3) == AccessResult.Error
  {
  }

  // ---------------------------------------------------------------------------------------
  // What the database answers.

  datatype TotalsRow = TotalsRow(result: AccessResult, count: nat, lastMs: int)

  datatype TrendRow = TrendRow(bucket: int, result: AccessResult, count: nat)

  /** Rows of the totals table for one link: each once, in any order. */
  ghost predicate IsTotalsResult(rows: seq<TotalsRow>, totals: map<TotalKey, Total>, link: nat) {
    && (forall i, j | 0 <= i < j < |rows| :: rows[i].result != rows[j].result)
    && (forall row | row in rows ::
          var k := TotalKey(link, row.result);
          k in totals && row.count == totals[k].count && row.lastMs == totals[k].lastMs)
    && (forall r | TotalKey(link, r) in totals :: exists row :: row in rows && row.result == r)
  }

  /** The hourly rows one group of the trend query adds up. */
  function Group(hourly: map<HourKey, nat>, link: nat, q: Query, bucket: int, result: AccessResult): (g: set<HourKey>)
    ensures g <= hourly.Keys
  {
    set k | k in hourly && k.link == link && k.result == result && q.from <= k.hour < q.to
            && BucketStart(q.interval, k.hour) == bucket
  }

  /** `SUM(access_count)` over a set of rows. */
  ghost function SumOver(keys: set<HourKey>, hourly: map<HourKey, nat>): nat
    requires keys <= hourly.Keys
  {
    if keys == {} then 0 else var k :| k in keys; hourly[k] + SumOver(keys - {k}, hourly)
  }

  /** `GROUP BY bucket_start, result`: one row for each group that has rows. */
  ghost predicate IsTrendResult(rows: seq<TrendRow>, hourly: map<HourKey, nat>, link: nat, q: Query) {
    && (forall i, j | 0 <= i < j < |rows| :: rows[i].bucket != rows[j].bucket || rows[i].result != rows[j].result)
    && (forall row | row in rows ::
          && Group(hourly, link, q, row.bucket, row.result) != {}
          && row.count == SumOver(Group(hourly, link, q, row.bucket, row.result), hourly))
    && (forall b, r | Group(hourly, link, q, b, r) != {} :: HasRow(rows, b, r))
  }

  predicate HasRow(rows: seq<TrendRow>, bucket: int, result: AccessResult) {
    exists i :: 0 <= i < |rows| && rows[i].bucket == bucket && rows[i].result == result
  }

  // ---------------------------------------------------------------------------------------
  // The snapshot.

  datatype Summary = Summary(counts: Counts, lastAccessMs: Option<int>, lastAttemptMs: Option<int>)

  datatype TrendPoint = TrendPoint(bucket: int, counts: Counts)

  datatype Snapshot = Snapshot(code: string, summary: Summary, trend: seq<TrendPoint>)

  /** An invalid query and a result the table must not hold are exceptions; an unknown code is not. */
  datatype Reply = InvalidQuery | UnknownCode | UnexpectedResult | Found(snapshot: Snapshot)

  function CountIn(totals: map<TotalKey, Total>, k: TotalKey): nat {
    if k in totals then totals[k].count else 0
  }

  ghost predicate SummaryOf(s: Summary, totals: map<TotalKey, Total>, link: nat) {
    && (forall i: nat | i < RESULT_COUNT :: s.counts[i] == CountIn(totals, TotalKey(link, ResultAt(i))))
    && s.lastAccessMs == (var k := TotalKey(link, Success); if k in totals then Some(totals[k].lastMs) else None)
    && (s.lastAttemptMs.None? <==> forall r :: TotalKey(link, r) !in totals)
    && (s.lastAttemptMs.Some? ==>
          && (exists r :: TotalKey(link, r) in totals && totals[TotalKey(link, r)].lastMs == s.lastAttemptMs.value)
          && (forall r | TotalKey(link, r) in totals :: totals[TotalKey(link, r)].lastMs <= s.lastAttemptMs.value))
  }

  predicate AscendingBuckets(trend: seq<TrendPoint>) {
    forall i, j | 0 <= i < j < |trend| :: trend[i].bucket < trend[j].bucket
  }

  predicate HasPoint(trend: seq<TrendPoint>, bucket: int) {
    exists i :: 0 <= i < |trend| && trend[i].bucket == bucket
  }

  /** Sorted points, one for each bucket that has rows, each holding the sums of its groups. */
  ghost predicate TrendOf(trend: seq<TrendPoint>, hourly: map<HourKey, nat>, link: nat, q: Query) {
    && AscendingBuckets(trend)
    && (forall b :: HasPoint(trend, b) <==> exists r :: Group(hourly, link, q, b, r) != {})
    && (forall p | p in trend :: CountsOf(p.counts, hourly, link, q, p.bucket))
  }

  ghost predicate CountsOf(counts: Counts, hourly: map<HourKey, nat>, link: nat, q: Query, bucket: int) {
    forall i: nat | i < RESULT_COUNT :: counts[i] == SumOver(Group(hourly, link, q, bucket, ResultAt(i)), hourly)
  }

  // ---------------------------------------------------------------------------------------
  // Assembling it.

  method ReadSummary(rows: seq<TotalsRow>, ghost totals: map<TotalKey, Total>, ghost link: nat)
    returns (summary: Option<Summary>)
    requires IsTotalsResult(rows, totals, link)
    ensures summary.None? <==> TotalKey(link, NotFound) in totals
    ensures summary.Some? ==> SummaryOf(summary.value, totals, link)
  {
    hide SummarySoFar, SummaryOf, ResultAt;
    var counts, lastAccessMs, lastAttemptMs := NO_COUNTS, None, None;
    NoRowsYet();
    assert rows[..0] == [];
    for n := 0 to |rows|
      invariant forall m | 0 <= m < n :: rows[m].result != NotFound
      invariant SummarySoFar(rows[..n], Summary(counts, lastAccessMs, lastAttemptMs))
    {
      var row := rows[n];
      ghost var before := Summary(counts, lastAccessMs, lastAttemptMs);
      var index := ResultIndex(row.result);
      if index.None? {
        assert row in rows;
        return None;
      }
      counts := counts[index.value := row.count];
      if index.value == 0 {
        lastAccessMs := Some(row.lastMs);
      }
      if lastAttemptMs.None? || row.lastMs > lastAttemptMs.value {
        lastAttemptMs := Some(row.lastMs);
      }
      OneRowMore(rows[..n], row, before, Summary(counts, lastAccessMs, lastAttemptMs));
      assert rows[..n + 1] == rows[..n] + [row];
    }
    assert rows[..|rows|] == rows;
    summary := Some(Summary(counts, lastAccessMs, lastAttemptMs));
    AllRowsRead(rows, totals, link, summary.value);
  }

  /** The summary of the rows read so far. */
  ghost predicate SummarySoFar(rows: seq<TotalsRow>, s: Summary) {
    && (forall i: nat | i < RESULT_COUNT ::
          && (forall row | row in rows && row.result == ResultAt(i) :: s.counts[i] == row.count)
          && ((forall row | row in rows :: row.result != ResultAt(i)) ==> s.counts[i] == 0))
    && (forall row | row in rows && row.result.Success? :: s.lastAccessMs == Some(row.lastMs))
    && ((forall row | row in rows :: !row.result.Success?) ==> s.lastAccessMs == None)
    && (s.lastAttemptMs.None? <==> rows == [])
    && (s.lastAttemptMs.Some? ==>
          && (exists row :: row in rows && row.lastMs == s.lastAttemptMs.value)
          && (forall row | row in rows :: row.lastMs <= s.lastAttemptMs.value))
  }

  lemma NoRowsYet()
    ensures SummarySoFar([], Summary(NO_COUNTS, None, None))
  {
  }

  lemma OneRowMore(rows: seq<TotalsRow>, row: TotalsRow, s: Summary, s': Summary)
    requires SummarySoFar(rows, s) && ResultIndex(row.result).Some?
    requires forall r | r in rows :: r.result != row.result
    requires s'.counts == s.counts[ResultIndex(row.result).value := row.count]
    requires s'.lastAccessMs == if row.result.Success? then Some(row.lastMs) else s.lastAccessMs
    requires s'.lastAttemptMs == if s.lastAttemptMs.None? || row.lastMs > s.lastAttemptMs.value then Some(row.lastMs)
                                 else s.lastAttemptMs
    ensures SummarySoFar(rows + [row], s')
  {
    var rows' := rows + [row];
    assert forall r :: r in rows' <==> r in rows || r == row;
    forall i: nat | i < RESULT_COUNT
      ensures forall r | r in rows' && r.result == ResultAt(i) :: s'.counts[i] == r.count
      ensures (forall r | r in rows' :: r.result != ResultAt(i)) ==> s'.counts[i] == 0
    {
      SlotsAreResults(row.result, i);
    }
    if s.lastAttemptMs.Some? && row.lastMs <= s.lastAttemptMs.value {
      var r :| r in rows && r.lastMs == s.lastAttemptMs.value;
      assert r in rows';
    } else {
      assert row in rows';
    }
  }

  lemma AllRowsRead(rows: seq<TotalsRow>, totals: map<TotalKey, Total>, link: nat, s: Summary)
    requires IsTotalsResult(rows, totals, link) && SummarySoFar(rows, s)
    requires forall m | 0 <= m < |rows| :: rows[m].result != NotFound
    ensures SummaryOf(s, totals, link) && TotalKey(link, NotFound) !in totals
  {
    forall i: nat | i < RESULT_COUNT ensures s.counts[i] == CountIn(totals, TotalKey(link, ResultAt(i))) {
      if TotalKey(link, ResultAt(i)) in totals {
        var row :| row in rows && row.result == ResultAt(i);
      }
    }
    if TotalKey(link, Success) in totals {
      var row :| row in rows && row.result == Success;
    }
    if s.lastAttemptMs.Some? {
      var row :| row in rows && row.lastMs == s.lastAttemptMs.value;
      assert TotalKey(link, row.result) in totals;
    } else {
      forall r ensures TotalKey(link, r) !in totals {}
    }
  }

  /** The rows of the trend query, gathered by bucket. */
  method GatherTrend(rows: seq<TrendRow>) returns (trend: Option<map<int, Counts>>)
    requires forall i, j | 0 <= i < j < |rows| :: rows[i].bucket != rows[j].bucket || rows[i].result != rows[j].result
    ensures trend.None? <==> exists i :: 0 <= i < |rows| && rows[i].result.NotFound?
    ensures trend.Some? ==> Gathered(trend.value, rows)
  {
    var points: map<int, Counts> := map[];
    for n := 0 to |rows|
      invariant forall m | 0 <= m < n :: !rows[m].result.NotFound?
      invariant Gathered(points, rows[..n])
    {
      var row := rows[n];
      var index := ResultIndex(row.result);
      if index.None? {
        return None;
      }
      var counts := if row.bucket in points then points[row.bucket] else NO_COUNTS;
      GatherOne(points, rows[..n], row);
      points := points[row.bucket := counts[index.value := row.count]];
      assert rows[..n + 1] == rows[..n] + [row];
    }
    assert rows[..|rows|] == rows;
    return Some(points);
  }

  ghost predicate Gathered(points: map<int, Counts>, rows: seq<TrendRow>) {
    && (forall b :: b in points <==> exists i :: 0 <= i < |rows| && rows[i].bucket == b)
    && (forall b, i: nat | b in points && i < RESULT_COUNT :: CellOf(points[b][i], rows, b, ResultAt(i)))
  }

  /** The count of the row for a bucket and result, zero if there is none. */
  ghost predicate CellOf(count: nat, rows: seq<TrendRow>, bucket: int, result: AccessResult) {
    && (forall i | 0 <= i < |rows| && rows[i].bucket == bucket && rows[i].result == result :: count == rows[i].count)
    && (!HasRow(rows, bucket, result) ==> count == 0)
  }

  lemma GatherOne(points: map<int, Counts>, rows: seq<TrendRow>, row: TrendRow)
    requires Gathered(points, rows) && ResultIndex(row.result).Some?
    requires forall i | 0 <= i < |rows| :: rows[i].bucket != row.bucket || rows[i].result != row.result
    ensures var counts := if row.bucket in points then points[row.bucket] else NO_COUNTS;
            Gathered(points[row.bucket := counts[ResultIndex(row.result).value := row.count]], rows + [row])
  {
    hide HasRow, ResultAt;
    var counts := if row.bucket in points then points[row.bucket] else NO_COUNTS;
    var points' := points[row.bucket := counts[ResultIndex(row.result).value := row.count]];
    var rows' := rows + [row];
    forall b ensures b in points' <==> exists i :: 0 <= i < |rows'| && rows'[i].bucket == b {
      if b == row.bucket { assert rows'[|rows|].bucket == b; }
      else if b in points { var i :| 0 <= i < |rows| && rows[i].bucket == b; assert rows'[i].bucket == b; }
    }
    forall b, i: nat | b in points' && i < RESULT_COUNT ensures CellOf(points'[b][i], rows', b, ResultAt(i)) {
      SlotsAreResults(row.result, i);
      HasRowOfMore(rows, row, b, ResultAt(i));
      if b !in points { NoRowNoCell(points, rows, b, ResultAt(i)); }
      else { assert CellOf(points[b][i], rows, b, ResultAt(i)); }
    }
  }

  lemma HasRowOfMore(rows: seq<TrendRow>, row: TrendRow, b: int, r: AccessResult)
    ensures HasRow(rows + [row], b, r) <==> HasRow(rows, b, r) || (row.bucket == b && row.result == r)
  {
    var rows' := rows + [row];
    if HasRow(rows, b, r) {
      var i :| 0 <= i < |rows| && rows[i].bucket == b && rows[i].result == r;
      assert rows'[i] == rows[i];
    }
    if row.bucket == b && row.result == r { assert rows'[|rows|] == row; }
  }

  lemma NoRowNoCell(points: map<int, Counts>, rows: seq<TrendRow>, b: int, r: AccessResult)
    requires Gathered(points, rows) && b !in points
    ensures CellOf(0, rows, b, r)
  {
    assert forall i | 0 <= i < |rows| :: rows[i].bucket != b;
  }

  predicate IsLeast(k: int, keys: set<int>) {
    forall j | j in keys :: k <= j
  }

  lemma AnyOf<T>(keys: set<T>) returns (k: T)
    requires keys != {}
    ensures k in keys
  {
    k :| k in keys;
  }

  lemma {:induction false} HasSmallest(keys: set<int>) returns (k: int)
    requires keys != {}
    ensures k in keys && IsLeast(k, keys)
    decreases |keys|
  {
    k := AnyOf(keys);
    if keys != {k} {
      var m := HasSmallest(keys - {k});
      assert forall j | j in keys :: j == k || j in keys - {k};
      if m < k { k := m; }
    }
  }

  /** The points in bucket order, as iteration over the ordered map yields them. */
  method ListTrend(points: map<int, Counts>) returns (trend: seq<TrendPoint>)
    ensures AscendingBuckets(trend)
    ensures forall b :: HasPoint(trend, b) <==> b in points
    ensures forall p | p in trend :: p.bucket in points && p.counts == points[p.bucket]
  {
    trend := [];
    var remaining := points.Keys;
    while remaining != {}
      invariant remaining <= points.Keys && AscendingBuckets(trend)
      invariant forall p | p in trend :: p.bucket in points && p.counts == points[p.bucket]
      invariant forall b | b in points && b !in remaining :: HasPoint(trend, b)
      invariant AllBelow(trend, remaining)
      decreases remaining
    {
      ghost var smallest := HasSmallest(remaining);
      var b :| b in remaining && IsLeast(b, remaining);
      PointsKept(trend, TrendPoint(b, points[b]));
      NextAbove(trend, remaining, TrendPoint(b, points[b]));
      trend := trend + [TrendPoint(b, points[b])];
      remaining := remaining - {b};
    }
    forall b ensures HasPoint(trend, b) <==> b in points {
      if HasPoint(trend, b) { var i :| 0 <= i < |trend| && trend[i].bucket == b; assert trend[i] in trend; }
    }
  }

  ghost predicate AllBelow(trend: seq<TrendPoint>, keys: set<int>) {
    forall p, b | p in trend && b in keys :: p.bucket < b
  }

  lemma NextAbove(trend: seq<TrendPoint>, keys: set<int>, p: TrendPoint)
    requires AllBelow(trend, keys) && p.bucket in keys && IsLeast(p.bucket, keys) && AscendingBuckets(trend)
    ensures AllBelow(trend + [p], keys - {p.bucket}) && AscendingBuckets(trend + [p])
  {
    forall q, b | q in trend + [p] && b in keys - {p.bucket} ensures q.bucket < b {
      assert b in keys;
    }
    assert forall i | 0 <= i < |trend| :: trend[i] in trend;
  }

  lemma PointsKept(trend: seq<TrendPoint>, p: TrendPoint)
    ensures forall b :: HasPoint(trend + [p], b) <==> HasPoint(trend, b) || b == p.bucket
  {
    var trend' := trend + [p];
    assert trend'[|trend|] == p;
    forall b | HasPoint(trend, b) ensures HasPoint(trend', b) {
      var i :| 0 <= i < |trend| && trend[i].bucket == b;
      assert trend'[i].bucket == b;
    }
  }

  /** From the rows to sums of groups. */
  lemma GatheredIsTrend(points: map<int, Counts>, rows: seq<TrendRow>, trend: seq<TrendPoint>,
                        hourly: map<HourKey, nat>, link: nat, q: Query)
    requires IsTrendResult(rows, hourly, link, q) && Gathered(points, rows) && AscendingBuckets(trend)
    requires forall b :: HasPoint(trend, b) <==> b in points
    requires forall p | p in trend :: p.bucket in points && p.counts == points[p.bucket]
    ensures TrendOf(trend, hourly, link, q)
  {
    hide Group, ResultAt;
    forall b ensures HasPoint(trend, b) <==> exists r :: Group(hourly, link, q, b, r) != {} {
      if b in points {
        var i :| 0 <= i < |rows| && rows[i].bucket == b;
        assert rows[i] in rows;
        assert Group(hourly, link, q, b, rows[i].result) != {};
      }
      if r :| Group(hourly, link, q, b, r) != {} {
        assert HasRow(rows, b, r);
      }
    }
    forall p | p in trend ensures CountsOf(p.counts, hourly, link, q, p.bucket) {
      forall i: nat | i < RESULT_COUNT
        ensures p.counts[i] == SumOver(Group(hourly, link, q, p.bucket, ResultAt(i)), hourly)
      {
        var g := Group(hourly, link, q, p.bucket, ResultAt(i));
        assert CellOf(points[p.bucket][i], rows, p.bucket, ResultAt(i));
        if HasRow(rows, p.bucket, ResultAt(i)) {
          var n :| 0 <= n < |rows| && rows[n].bucket == p.bucket && rows[n].result == ResultAt(i);
          assert rows[n] in rows;
        } else {
          assert g == {};
        }
      }
    }
  }

  /** The rows the projection writes start on the hour. */
  predicate OnTheHour(hourly: map<HourKey, nat>) {
    forall k | k in hourly :: k.hour % 3600 == 0
  }

  predicate Aligned(trend: seq<TrendPoint>, from: int, to: int, w: int)
    requires w == 3600 || w == 86400
  {
    forall i | 0 <= i < |trend| :: from <= trend[i].bucket < to && trend[i].bucket % w == 0
  }

  /** Ascending aligned buckets fit into a range one after the other. */
  lemma {:induction false} AlignedFit(trend: seq<TrendPoint>, from: int, to: int, w: int)
    requires (w == 3600 || w == 86400) && AscendingBuckets(trend) && Aligned(trend, from, to, w)
    requires from % w == 0 && to % w == 0 && from <= to
    ensures |trend| * w <= to - from
    decreases |trend|
  {
    if trend != [] {
      var n := |trend| - 1;
      var last := trend[n].bucket;
      forall i | 0 <= i < n ensures from <= trend[..n][i].bucket < last && trend[..n][i].bucket % w == 0 {
        assert trend[..n][i] == trend[i];
      }
      AlignedFit(trend[..n], from, last, w);
      StepsApart(last, to, w);
      assert |trend| * w == n * w + w;
    }
  }

  lemma StepsApart(a: int, b: int, w: int)
    requires w == 3600 || w == 86400
    requires a % w == 0 && b % w == 0
    ensures a < b ==> a + w <= b
  {
  }

  /** A trend has no more points than its range has buckets. */
  lemma TrendFits(trend: seq<TrendPoint>, hourly: map<HourKey, nat>, link: nat, q: Query)
    requires ValidQuery(q) && OnTheHour(hourly) && TrendOf(trend, hourly, link, q)
    ensures var w := if q.interval.Hour? then 3600 else 86400;
            Aligned(trend, q.from, q.to, w) && |trend| * w <= q.to - q.from
  {
    var w := if q.interval.Hour? then 3600 else 86400;
    forall i | 0 <= i < |trend| ensures q.from <= trend[i].bucket < q.to && trend[i].bucket % w == 0 {
      assert HasPoint(trend, trend[i].bucket);
      var r :| Group(hourly, link, q, trend[i].bucket, r) != {};
      var k :| k in Group(hourly, link, q, trend[i].bucket, r);
      if q.interval.Day? { StartOfDay(k.hour, q.from); }
    }
    AlignedFit(trend, q.from, q.to, w);
  }

  lemma StartOfDay(hour: int, from: int)
    requires from % 86400 == 0 && from <= hour
    ensures from <= hour - hour % 86400 <= hour && (hour - hour % 86400) % 86400 == 0
  {
    assert hour - hour % 86400 == hour / 86400 * 86400 && from == from / 86400 * 86400;
  }

  /**
   The snapshot of a code. The link lookup and the two queries are separate statements outside a
   transaction, so each may see a later state of the database: `links`, `totals` and `hourly`
   are the three tables as the three statements find them.
   */
  method Get(links: LinkTable, ghost totals: map<TotalKey, Total>, ghost hourly: map<HourKey, nat>,
             code: string, q: Query, totalsRows: seq<TotalsRow>, trendRows: seq<TrendRow>)
    returns (reply: Reply)
    requires code in links ==> IsTotalsResult(totalsRows, totals, links[code]) && IsTrendResult(trendRows, hourly, links[code], q)
    ensures reply.InvalidQuery? <==> !ValidQuery(q)
    ensures q.interval.Hour? ==>
              (!reply.InvalidQuery? <==>
                 0 <= q.from < q.to <= q.from + 744 * 3600 && q.from % 3600 == 0 && q.to % 3600 == 0)
    ensures q.interval.Day? ==>
              (!reply.InvalidQuery? <==>
                 0 <= q.from < q.to <= q.from + 366 * 86400 && q.from % 86400 == 0 && q.to % 86400 == 0)
    ensures reply.Found? && OnTheHour(hourly) ==>
              |reply.snapshot.trend| * (if q.interval.Hour? then 3600 else 86400) <= q.to - q.from
    ensures reply.UnknownCode? <==> ValidQuery(q) && code !in links
    ensures reply.UnexpectedResult? <==>
              ValidQuery(q) && code in links
              && (TotalKey(links[code], NotFound) in totals || exists b :: Group(hourly, links[code], q, b, NotFound) != {})
    ensures reply.Found? ==>
              && reply.snapshot.code == code
              && SummaryOf(reply.snapshot.summary, totals, links[code])
              && TrendOf(reply.snapshot.trend, hourly, links[code], q)
  {
    hide ValidQuery, Group, SummaryOf, Aligned;
    ValidRanges(q);
    if !ValidQuery(q) {
      return InvalidQuery;
    }
    if code !in links {
      return UnknownCode;
    }
    var link := links[code];
    var summary := ReadSummary(totalsRows, totals, link);
    if summary.None? {
      return UnexpectedResult;
    }
    var points := GatherTrend(trendRows);
    if points.None? {
      ghost var i :| 0 <= i < |trendRows| && trendRows[i].result.NotFound?;
      assert trendRows[i] in trendRows;
      assert Group(hourly, link, q, trendRows[i].bucket, NotFound) != {};
      return UnexpectedResult;
    }
    forall b ensures Group(hourly, link, q, b, NotFound) == {} {
      assert !HasRow(trendRows, b, NotFound);
    }
    var trend := ListTrend(points.value);
    GatheredIsTrend(points.value, trendRows, trend, hourly, link, q);
    if OnTheHour(hourly) { TrendFits(trend, hourly, link, q); }
    return Found(Snapshot(code, summary.value, trend));
  }
}
