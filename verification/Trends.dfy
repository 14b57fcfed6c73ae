/**
 What a snapshot means in terms of the events behind the tables: direct counts, roll-up from
 hours to days, and ranges that add up.
 */
module Trends {
  import opened Options
  import opened AccessEvents
  import opened Projection
  import opened Statistics

  /** Start of the UTC bucket a timestamp lies in. */
  function BucketOf(interval: Interval, ms: int): int {
    var seconds := ms / 1000;
    seconds - seconds % BucketSeconds(interval)
  }

  /** The events of a slot inside one bucket. */
  function InBucket(h: History, links: LinkTable, link: nat, i: nat, interval: Interval, bucket: int): set<string>
    requires i < RESULT_COUNT
  {
    IdsBetween(h, links, TotalKey(link, ResultAt(i)), bucket, bucket + BucketSeconds(interval))
  }

  predicate BucketInRange(q: Query, bucket: int) {
    q.from <= bucket < q.to && bucket % BucketSeconds(q.interval) == 0
  }

  predicate Occupied(h: History, links: LinkTable, link: nat, interval: Interval, bucket: int) {
    exists i: nat :: i < RESULT_COUNT && InBucket(h, links, link, i, interval, bucket) != {}
  }

  /**
   A right trend, by direct count over the raw events: one point for each bucket of the range
   that holds an aggregated event of the link, in order, with the number of events per result.
   */
  ghost predicate IsTrend(trend: seq<TrendPoint>, h: History, links: LinkTable, link: nat, q: Query) {
    && AscendingBuckets(trend)
    && (forall b :: HasPoint(trend, b) <==> BucketInRange(q, b) && Occupied(h, links, link, q.interval, b))
    && (forall p, i: nat | p in trend && i < RESULT_COUNT ::
          p.counts[i] == |InBucket(h, links, link, i, q.interval, p.bucket)|)
  }

  // ---------------------------------------------------------------------------------------
  // Sums of hourly rows are counts of events.

  /** The events behind a set of hourly rows of one link and result. */
  function IdsOf(h: History, links: LinkTable, k: TotalKey, keys: set<HourKey>): set<string> {
    set id | id in h && Contributes(h[id], links, k.link, k.result)
             && HourKey(k.link, HourOf(h[id].occurredAtMs), k.result) in keys
  }

  lemma {:induction false} SumCounts(t: Tables, h: History, links: LinkTable, k: TotalKey, keys: set<HourKey>)
    requires Projects(t, links, h) && keys <= t.hourly.Keys
    requires forall key | key in keys :: key.link == k.link && key.result == k.result
    ensures SumOver(keys, t.hourly) == |IdsOf(h, links, k, keys)|
    decreases |keys|
  {
    if keys == {} {
      assert IdsOf(h, links, k, keys) == {};
    } else {
      var key :| key in keys && SumOver(keys, t.hourly) == t.hourly[key] + SumOver(keys - {key}, t.hourly);
      SumCounts(t, h, links, k, keys - {key});
      OneHourSplitsOff(h, links, k, keys, key);
      RowCounts(t, h, links, key);
    }
  }

  lemma OneHourSplitsOff(h: History, links: LinkTable, k: TotalKey, keys: set<HourKey>, key: HourKey)
    requires key in keys && key.link == k.link && key.result == k.result
    ensures IdsOf(h, links, k, keys) == HourIds(h, links, key) + IdsOf(h, links, k, keys - {key})
    ensures HourIds(h, links, key) !! IdsOf(h, links, k, keys - {key})
  {
    hide HourOf, Contributes;
  }

  lemma RowCounts(t: Tables, h: History, links: LinkTable, key: HourKey)
    requires Projects(t, links, h)
    ensures key in t.hourly <==> HourIds(h, links, key) != {}
    ensures key in t.hourly ==> t.hourly[key] == |HourIds(h, links, key)|
  {
    hide HourIds;
  }

  /** The hour of a timestamp lies in the same bucket as the timestamp. */
  lemma HourInBucket(interval: Interval, ms: int, bucket: int)
    ensures BucketStart(interval, HourOf(ms)) == BucketOf(interval, ms)
    ensures bucket % BucketSeconds(interval) == 0 ==>
              (BucketOf(interval, ms) == bucket <==> bucket * 1000 <= ms < (bucket + BucketSeconds(interval)) * 1000)
    ensures BucketOf(interval, ms) % BucketSeconds(interval) == 0
  {
    var s, w := ms / 1000, BucketSeconds(interval);
    WholeSeconds(ms, bucket);
    WholeSeconds(ms, bucket + w);
    if interval.Day? {
      DayOfHour(s);
      OwnDay(s, bucket);
    } else {
      OwnHour(s, bucket);
    }
  }

  lemma OwnHour(s: int, bucket: int)
    ensures (s - s % 3600) % 3600 == 0
    ensures bucket % 3600 == 0 ==> (s - s % 3600 == bucket <==> bucket <= s < bucket + 3600)
  {
    HourBound(s, bucket);
    HourBound(s, bucket + 3600);
  }

  lemma OwnDay(s: int, bucket: int)
    ensures (s - s % 86400) % 86400 == 0
    ensures bucket % 86400 == 0 ==> (s - s % 86400 == bucket <==> bucket <= s < bucket + 86400)
  {
    DayBound(s, bucket);
    DayBound(s, bucket + 86400);
  }

  lemma WholeSeconds(ms: int, s: int)
    ensures s * 1000 <= ms <==> s <= ms / 1000
  {
  }

  lemma DayOfHour(s: int)
    ensures var hour := s - s % 3600; hour - hour % 86400 == s - s % 86400
  {
    var d, r := s / 86400, s % 86400;
    var hour := s - s % 3600;
    assert s == d * 86400 + r;
    assert s % 3600 == r % 3600;
    assert hour == d * 86400 + (r - r % 3600);
    assert 0 <= r - r % 3600 < 86400;
    assert hour / 86400 == d;
  }

  /** An hour and the bucket it starts: in range together, for aligned ranges. */
  lemma HourInRange(q: Query, ms: int)
    requires ValidQuery(q)
    ensures q.from <= HourOf(ms) < q.to <==> BucketInRange(q, BucketOf(q.interval, ms))
    ensures BucketInRange(q, BucketOf(q.interval, ms)) <==> q.from * 1000 <= ms < q.to * 1000
  {
    var s, w := ms / 1000, BucketSeconds(q.interval);
    WholeSeconds(ms, q.from);
    WholeSeconds(ms, q.to);
    AlignedBound(s, q.from, q.interval);
    AlignedBound(s, q.to, q.interval);
    HourBound(s, q.from);
    HourBound(s, q.to);
  }

  lemma HourBound(s: int, a: int)
    ensures (s - s % 3600) % 3600 == 0
    ensures a % 3600 == 0 ==> (a <= s - s % 3600 <==> a <= s)
  {
    var q, k := s / 3600, a / 3600;
    assert s - s % 3600 == 3600 * q;
    assert a % 3600 == 0 ==> a == 3600 * k;
  }

  lemma DayBound(s: int, a: int)
    ensures (s - s % 86400) % 86400 == 0
    ensures a % 86400 == 0 ==> (a <= s - s % 86400 <==> a <= s)
  {
    var q, k := s / 86400, a / 86400;
    assert s - s % 86400 == 86400 * q;
    assert a % 86400 == 0 ==> a == 86400 * k;
  }

  /** Rounding down to a step does not cross an aligned bound. */
  lemma AlignedBound(s: int, a: int, interval: Interval)
    ensures var w := BucketSeconds(interval);
            (s - s % w) % w == 0 && (a % w == 0 ==> (a <= s - s % w <==> a <= s) && a % 3600 == 0)
  {
    if interval.Hour? {
      HourBound(s, a);
    } else {
      DayBound(s, a);
      if a % 86400 == 0 { WholeHours(a); }
    }
  }

  lemma WholeHours(a: int)
    requires a % 86400 == 0
    ensures a % 3600 == 0
  {
    assert a == 3600 * (24 * (a / 86400));
  }

  /** Projected rows start on the hour, so no trend is longer than its range. */
  lemma ProjectedIsOnTheHour(t: Tables, h: History, links: LinkTable)
    requires Projects(t, links, h)
    ensures OnTheHour(t.hourly)
  {
    forall k | k in t.hourly ensures k.hour % 3600 == 0 {
      assert HourIds(h, links, k) != {};
      var id :| id in HourIds(h, links, k);
    }
  }

  /** The rows the trend query groups into a bucket are those of the events in that bucket. */
  lemma GroupIsBucket(t: Tables, h: History, links: LinkTable, link: nat, q: Query, b: int, i: nat)
    requires Projects(t, links, h) && ValidQuery(q) && i < RESULT_COUNT
    ensures var g := Group(t.hourly, link, q, b, ResultAt(i));
            && (BucketInRange(q, b) ==> SumOver(g, t.hourly) == |InBucket(h, links, link, i, q.interval, b)|)
            && (g != {} <==> BucketInRange(q, b) && InBucket(h, links, link, i, q.interval, b) != {})
  {
    hide HourOf, Projects, ResultAt, BucketInRange, ValidQuery, BucketOf, BucketStart, Contributes;
    var k := TotalKey(link, ResultAt(i));
    var g := Group(t.hourly, link, q, b, ResultAt(i));
    SumCounts(t, h, links, k, g);
    forall id | id in h
      ensures id in IdsOf(h, links, k, g) <==> BucketInRange(q, b) && id in InBucket(h, links, link, i, q.interval, b)
    {
      var ms := h[id].occurredAtMs;
      var key := HourKey(link, HourOf(ms), ResultAt(i));
      RowCounts(t, h, links, key);
      if Contributes(h[id], links, k.link, k.result) {
        assert id in HourIds(h, links, key);
        HourInBucket(q.interval, ms, b);
        HourInRange(q, ms);
        BucketIsAligned(q, b);
      }
    }
    if BucketInRange(q, b) {
      assert IdsOf(h, links, k, g) == InBucket(h, links, link, i, q.interval, b);
    } else {
      assert IdsOf(h, links, k, g) == {};
    }
    if g != {} {
      var key :| key in g;
      RowCounts(t, h, links, key);
      var id :| id in HourIds(h, links, key);
      assert id in IdsOf(h, links, k, g);
    }
    if IdsOf(h, links, k, g) != {} {
      var id :| id in IdsOf(h, links, k, g);
      assert HourKey(link, HourOf(h[id].occurredAtMs), ResultAt(i)) in g;
    }
  }

  lemma BucketIsAligned(q: Query, b: int)
    ensures BucketInRange(q, b) ==> b % BucketSeconds(q.interval) == 0
  {
  }

  /** Under a projection no row carries a result that must not be there, so `Get` never fails on one. */
  lemma NoUnexpectedResult(t: Tables, h: History, links: LinkTable, link: nat, q: Query, b: int)
    requires Projects(t, links, h)
    ensures TotalKey(link, NotFound) !in t.totals
    ensures Group(t.hourly, link, q, b, NotFound) == {}
  {
    assert TotalIds(h, links, TotalKey(link, NotFound)) == {};
    forall k | k in t.hourly ensures !k.result.NotFound? {
      RowCounts(t, h, links, k);
      var id :| id in HourIds(h, links, k);
    }
  }

  /** Trend correctness: the assembled trend is the direct count over the raw events. */
  lemma TrendCountsEvents(t: Tables, h: History, links: LinkTable, link: nat, q: Query, trend: seq<TrendPoint>)
    requires Projects(t, links, h) && ValidQuery(q) && TrendOf(trend, t.hourly, link, q)
    ensures IsTrend(trend, h, links, link, q)
  {
    hide Projects, Group, InBucket, ResultAt, ValidQuery;
    forall b ensures HasPoint(trend, b) <==> BucketInRange(q, b) && Occupied(h, links, link, q.interval, b) {
      if r :| Group(t.hourly, link, q, b, r) != {} {
        NoUnexpectedResult(t, h, links, link, q, b);
        var i := SlotOf(r);
        GroupIsBucket(t, h, links, link, q, b, i);
      }
      if BucketInRange(q, b) && Occupied(h, links, link, q.interval, b) {
        var i: nat :| i < RESULT_COUNT && InBucket(h, links, link, i, q.interval, b) != {};
        GroupIsBucket(t, h, links, link, q, b, i);
      }
    }
    forall p, i: nat | p in trend && i < RESULT_COUNT
      ensures p.counts[i] == |InBucket(h, links, link, i, q.interval, p.bucket)|
    {
      assert CountsOf(p.counts, t.hourly, link, q, p.bucket);
      assert HasPoint(trend, p.bucket);
      GroupIsBucket(t, h, links, link, q, p.bucket, i);
    }
  }

  lemma SlotOf(r: AccessResult) returns (i: nat)
    requires !r.NotFound?
    ensures i < RESULT_COUNT && ResultAt(i) == r
  {
    i := ResultIndex(r).value;
  }

  /** The latest occurrence in a set of events. */
  ghost predicate IsLatest(last: Option<int>, ids: set<string>, h: History)
    requires ids <= h.Keys
  {
    && (last.None? <==> ids == {})
    && (last.Some? ==> (exists id :: id in ids && h[id].occurredAtMs == last.value)
                       && forall id | id in ids :: h[id].occurredAtMs <= last.value)
  }

  /** All aggregated events of a link. */
  function Attempts(h: History, links: LinkTable, link: nat): set<string> {
    set id | id in h && Contributes(h[id], links, link, h[id].result)
  }

  lemma TotalsRowIs(t: Tables, h: History, links: LinkTable, k: TotalKey)
    requires Projects(t, links, h)
    ensures TotalIds(h, links, k) <= h.Keys
    ensures k in t.totals <==> TotalIds(h, links, k) != {}
    ensures k in t.totals ==> TotalMatches(t.totals[k], TotalIds(h, links, k), h)
  {
  }

  lemma AttemptsByResult(h: History, links: LinkTable, link: nat, id: string)
    ensures id in Attempts(h, links, link) ==> id in h && id in TotalIds(h, links, TotalKey(link, h[id].result))
    ensures forall r | id in TotalIds(h, links, TotalKey(link, r)) :: id in Attempts(h, links, link)
  {
  }

  lemma LastAttempt(t: Tables, h: History, links: LinkTable, link: nat, last: Option<int>)
    requires Projects(t, links, h)
    requires last.None? <==> forall r :: TotalKey(link, r) !in t.totals
    requires last.Some? ==> exists r :: TotalKey(link, r) in t.totals && t.totals[TotalKey(link, r)].lastMs == last.value
    requires last.Some? ==> forall r | TotalKey(link, r) in t.totals :: t.totals[TotalKey(link, r)].lastMs <= last.value
    ensures IsLatest(last, Attempts(h, links, link), h)
  {
    hide Projects, TotalIds, Attempts;
    forall id | id in Attempts(h, links, link)
      ensures id in h && last.Some? && h[id].occurredAtMs <= last.value
    {
      AttemptsByResult(h, links, link, id);
      TotalsRowIs(t, h, links, TotalKey(link, h[id].result));
    }
    if last.Some? {
      var r :| TotalKey(link, r) in t.totals && t.totals[TotalKey(link, r)].lastMs == last.value;
      TotalsRowIs(t, h, links, TotalKey(link, r));
      var id :| id in TotalIds(h, links, TotalKey(link, r)) && h[id].occurredAtMs == last.value;
      AttemptsByResult(h, links, link, id);
    }
  }

  /** The summary: counts per result, the last successful access and the last attempt of any kind. */
  lemma SummaryCountsEvents(t: Tables, h: History, links: LinkTable, link: nat, s: Summary)
    requires Projects(t, links, h) && SummaryOf(s, t.totals, link)
    ensures forall i: nat | i < RESULT_COUNT :: s.counts[i] == |TotalIds(h, links, TotalKey(link, ResultAt(i)))|
    ensures IsLatest(s.lastAccessMs, TotalIds(h, links, TotalKey(link, Success)), h)
    ensures IsLatest(s.lastAttemptMs, Attempts(h, links, link), h)
  {
    hide Projects, ResultAt, TotalIds, Attempts;
    forall i: nat | i < RESULT_COUNT ensures s.counts[i] == |TotalIds(h, links, TotalKey(link, ResultAt(i)))| {
      TotalsRowIs(t, h, links, TotalKey(link, ResultAt(i)));
    }
    TotalsRowIs(t, h, links, TotalKey(link, Success));
    LastAttempt(t, h, links, link, s.lastAttemptMs);
  }

  // ---------------------------------------------------------------------------------------
  // Ranges and roll-up.

  /** Sum of one result over the points of a trend that lie in [from, to). */
  function SumBetween(trend: seq<TrendPoint>, i: nat, from: int, to: int): nat
    requires i < RESULT_COUNT
  {
    if trend == [] then 0
    else
      var p := trend[|trend| - 1];
      SumBetween(trend[..|trend| - 1], i, from, to) + if from <= p.bucket < to then p.counts[i] else 0
  }

  /** The events of [from, to) whose bucket has a point. */
  function Covered(trend: seq<TrendPoint>, h: History, links: LinkTable, k: TotalKey, interval: Interval, from: int, to: int): set<string> {
    set id | id in IdsBetween(h, links, k, from, to) && HasPoint(trend, BucketOf(interval, h[id].occurredAtMs))
  }

  ghost predicate PointsCount(trend: seq<TrendPoint>, h: History, links: LinkTable, link: nat, interval: Interval) {
    && AscendingBuckets(trend)
    && (forall p | p in trend :: p.bucket % BucketSeconds(interval) == 0)
    && (forall p, i: nat | p in trend && i < RESULT_COUNT :: p.counts[i] == |InBucket(h, links, link, i, interval, p.bucket)|)
  }

  lemma {:induction false} SumCountsCovered(trend: seq<TrendPoint>, h: History, links: LinkTable, link: nat, interval: Interval,
                                            i: nat, from: int, to: int)
    requires PointsCount(trend, h, links, link, interval) && i < RESULT_COUNT
    requires from % BucketSeconds(interval) == 0 && to % BucketSeconds(interval) == 0
    ensures SumBetween(trend, i, from, to) == |Covered(trend, h, links, TotalKey(link, ResultAt(i)), interval, from, to)|
  {
    hide InBucket, ResultAt, BucketSeconds, BucketOf;
    var k := TotalKey(link, ResultAt(i));
    if trend == [] {
      assert Covered(trend, h, links, k, interval, from, to) == {};
    } else {
      var n := |trend| - 1;
      var p, front := trend[n], trend[..n];
      assert p in trend && forall x | x in front :: x in trend;
      SumCountsCovered(front, h, links, link, interval, i, from, to);
      LastPointSplitsOff(trend, h, links, link, interval, i, from, to);
    }
  }

  lemma LastPointSplitsOff(trend: seq<TrendPoint>, h: History, links: LinkTable, link: nat, interval: Interval,
                           i: nat, from: int, to: int)
    requires trend != [] && AscendingBuckets(trend) && i < RESULT_COUNT
    requires trend[|trend| - 1].bucket % BucketSeconds(interval) == 0
    requires from % BucketSeconds(interval) == 0 && to % BucketSeconds(interval) == 0
    ensures var k, p, front := TotalKey(link, ResultAt(i)), trend[|trend| - 1], trend[..|trend| - 1];
            var rest := Covered(front, h, links, k, interval, from, to);
            var own := if from <= p.bucket < to then InBucket(h, links, link, i, interval, p.bucket) else {};
            Covered(trend, h, links, k, interval, from, to) == rest + own && rest !! own
  {
    hide ResultAt, BucketOf, BucketSeconds, Contributes;
    var k, p, front := TotalKey(link, ResultAt(i)), trend[|trend| - 1], trend[..|trend| - 1];
    assert trend == front + [p];
    PointsKept(front, p);
    assert !HasPoint(front, p.bucket);
    forall id | id in h
      ensures BucketOf(interval, h[id].occurredAtMs) == p.bucket ==>
                (from <= p.bucket < to <==> from * 1000 <= h[id].occurredAtMs < to * 1000)
      ensures BucketOf(interval, h[id].occurredAtMs) == p.bucket <==>
                p.bucket * 1000 <= h[id].occurredAtMs < (p.bucket + BucketSeconds(interval)) * 1000
    {
      HourInBucket(interval, h[id].occurredAtMs, p.bucket);
      InsideAligned(interval, h[id].occurredAtMs, p.bucket, from, to);
    }
  }

  lemma InsideAligned(interval: Interval, ms: int, bucket: int, from: int, to: int)
    requires bucket % BucketSeconds(interval) == 0
    requires from % BucketSeconds(interval) == 0 && to % BucketSeconds(interval) == 0
    requires bucket * 1000 <= ms < (bucket + BucketSeconds(interval)) * 1000 || BucketOf(interval, ms) != bucket
    ensures BucketOf(interval, ms) == bucket ==> (from <= bucket < to <==> from * 1000 <= ms < to * 1000)
  {
    HourInBucket(interval, ms, bucket);
    StepsApart(bucket, from, BucketSeconds(interval));
    StepsApart(bucket, to, BucketSeconds(interval));
  }

  lemma TrendCountsPoints(trend: seq<TrendPoint>, h: History, links: LinkTable, link: nat, q: Query)
    requires IsTrend(trend, h, links, link, q)
    ensures PointsCount(trend, h, links, link, q.interval)
  {
    hide InBucket, Occupied, BucketSeconds;
    forall p | p in trend ensures p.bucket % BucketSeconds(q.interval) == 0 {
      assert HasPoint(trend, p.bucket);
      BucketIsAligned(q, p.bucket);
    }
  }

  lemma EventHasPoint(trend: seq<TrendPoint>, h: History, links: LinkTable, link: nat, q: Query, i: nat, id: string)
    requires ValidQuery(q) && IsTrend(trend, h, links, link, q) && i < RESULT_COUNT
    requires id in IdsBetween(h, links, TotalKey(link, ResultAt(i)), q.from, q.to)
    ensures HasPoint(trend, BucketOf(q.interval, h[id].occurredAtMs))
  {
    hide BucketOf, BucketSeconds, ResultAt, ValidQuery, InBucket, Contributes;
    var b := BucketOf(q.interval, h[id].occurredAtMs);
    HourInRange(q, h[id].occurredAtMs);
    InItsBucket(h, links, link, i, q.interval, id);
    assert InBucket(h, links, link, i, q.interval, b) != {};
  }

  /** The points inside any aligned part of the range add up to the events inside it. */
  lemma PointsAddUp(trend: seq<TrendPoint>, h: History, links: LinkTable, link: nat, q: Query, i: nat, from: int, to: int)
    requires ValidQuery(q) && IsTrend(trend, h, links, link, q) && i < RESULT_COUNT
    requires q.from <= from && to <= q.to
    requires from % BucketSeconds(q.interval) == 0 && to % BucketSeconds(q.interval) == 0
    ensures SumBetween(trend, i, from, to) == |IdsBetween(h, links, TotalKey(link, ResultAt(i)), from, to)|
  {
    hide IsTrend, PointsCount, BucketOf, ResultAt, ValidQuery, Contributes, BucketSeconds;
    var k := TotalKey(link, ResultAt(i));
    TrendCountsPoints(trend, h, links, link, q);
    SumCountsCovered(trend, h, links, link, q.interval, i, from, to);
    forall id | id in IdsBetween(h, links, k, from, to)
      ensures HasPoint(trend, BucketOf(q.interval, h[id].occurredAtMs))
    {
      EventHasPoint(trend, h, links, link, q, i, id);
    }
    assert Covered(trend, h, links, k, q.interval, from, to) == IdsBetween(h, links, k, from, to);
  }

  lemma InItsBucket(h: History, links: LinkTable, link: nat, i: nat, interval: Interval, id: string)
    requires i < RESULT_COUNT && id in h && Contributes(h[id], links, link, ResultAt(i))
    ensures id in InBucket(h, links, link, i, interval, BucketOf(interval, h[id].occurredAtMs))
  {
    HourInBucket(interval, h[id].occurredAtMs, BucketOf(interval, h[id].occurredAtMs));
  }

  /** All points together count exactly the events in the queried range. */
  lemma TrendCountsRange(trend: seq<TrendPoint>, h: History, links: LinkTable, link: nat, q: Query, i: nat)
    requires ValidQuery(q) && IsTrend(trend, h, links, link, q) && i < RESULT_COUNT
    ensures SumBetween(trend, i, q.from, q.to) == |IdsBetween(h, links, TotalKey(link, ResultAt(i)), q.from, q.to)|
  {
    PointsAddUp(trend, h, links, link, q, i, q.from, q.to);
  }

  /** The day trend is the roll-up of the hour trend, whatever range the hour trend was asked for around the day. */
  lemma DaysRollUpHours(days: seq<TrendPoint>, hours: seq<TrendPoint>, h: History, links: LinkTable, link: nat,
                        qd: Query, qh: Query, p: TrendPoint, i: nat)
    requires ValidQuery(qd) && qd.interval.Day? && IsTrend(days, h, links, link, qd)
    requires ValidQuery(qh) && qh.interval.Hour? && IsTrend(hours, h, links, link, qh)
    requires p in days && i < RESULT_COUNT && qh.from <= p.bucket && p.bucket + SECONDS_PER_DAY <= qh.to
    ensures p.counts[i] == SumBetween(hours, i, p.bucket, p.bucket + SECONDS_PER_DAY)
  {
    hide IsTrend, PointsCount, ResultAt, IdsBetween, ValidQuery;
    TrendCountsPoints(days, h, links, link, qd);
    PointCounts(days, h, links, link, qd.interval, p, i);
    WholeHours(p.bucket);
    WholeHours(p.bucket + SECONDS_PER_DAY);
    PointsAddUp(hours, h, links, link, qh, i, p.bucket, p.bucket + SECONDS_PER_DAY);
  }

  lemma PointCounts(trend: seq<TrendPoint>, h: History, links: LinkTable, link: nat, interval: Interval, p: TrendPoint, i: nat)
    requires PointsCount(trend, h, links, link, interval) && p in trend && i < RESULT_COUNT
    ensures p.bucket % BucketSeconds(interval) == 0
    ensures p.counts[i] == |InBucket(h, links, link, i, interval, p.bucket)|
  {
  }

  /** Adjacent ranges: their trends, one after the other, are the trend of the joined range. */
  lemma AdjacentRangesJoin(first: seq<TrendPoint>, second: seq<TrendPoint>, h: History, links: LinkTable, link: nat,
                           interval: Interval, a: int, b: int, c: int)
    requires a <= b <= c
    requires IsTrend(first, h, links, link, Query(a, b, interval)) && IsTrend(second, h, links, link, Query(b, c, interval))
    ensures IsTrend(first + second, h, links, link, Query(a, c, interval))
  {
    hide InBucket, Occupied;
    var joined := first + second;
    forall p | p in first ensures p.bucket < b { assert HasPoint(first, p.bucket); }
    forall p | p in second ensures b <= p.bucket { assert HasPoint(second, p.bucket); }
    forall i, j | 0 <= i < j < |joined| ensures joined[i].bucket < joined[j].bucket {
      assert i < |first| ==> joined[i] in first;
      assert j >= |first| ==> joined[j] in second;
    }
    forall x ensures HasPoint(joined, x) <==> HasPoint(first, x) || HasPoint(second, x) {
      PointOfJoined(first, second, x);
    }
  }

  lemma PointOfJoined(first: seq<TrendPoint>, second: seq<TrendPoint>, x: int)
    ensures HasPoint(first + second, x) <==> HasPoint(first, x) || HasPoint(second, x)
  {
    var joined := first + second;
    if HasPoint(first, x) { var i :| 0 <= i < |first| && first[i].bucket == x; assert joined[i].bucket == x; }
    if HasPoint(second, x) { var i :| 0 <= i < |second| && second[i].bucket == x; assert joined[|first| + i].bucket == x; }
    if HasPoint(joined, x) {
      var i :| 0 <= i < |joined| && joined[i].bucket == x;
      if i < |first| { assert first[i].bucket == x; } else { assert second[i - |first|].bucket == x; }
    }
  }

  /** The events and the query determine the trend. */
  lemma {:induction false} TrendIsUnique(t: seq<TrendPoint>, u: seq<TrendPoint>, h: History, links: LinkTable, link: nat, q: Query)
    requires IsTrend(t, h, links, link, q) && IsTrend(u, h, links, link, q)
    ensures t == u
  {
    hide InBucket, Occupied, BucketInRange;
    SameBuckets(t, u);
    forall n | 0 <= n < |t| ensures t[n] == u[n] {
      assert t[n] in t && u[n] in u;
      forall i: nat | i < RESULT_COUNT ensures t[n].counts[i] == u[n].counts[i] {}
    }
  }

  lemma {:induction false} SameBuckets(t: seq<TrendPoint>, u: seq<TrendPoint>)
    requires AscendingBuckets(t) && AscendingBuckets(u) && forall b :: HasPoint(t, b) <==> HasPoint(u, b)
    ensures |t| == |u| && forall n | 0 <= n < |t| :: t[n].bucket == u[n].bucket
    decreases |t|
  {
    if t == [] {
      if u != [] { assert HasPoint(u, u[0].bucket); }
    } else {
      var n := |t| - 1;
      assert HasPoint(t, t[n].bucket);
      var m := |u| - 1;
      assert HasPoint(u, u[m].bucket);
      LastIsLargest(t, u[m].bucket);
      LastIsLargest(u, t[n].bucket);
      forall b ensures HasPoint(t[..n], b) <==> HasPoint(u[..m], b) {
        WithoutLast(t, b);
        WithoutLast(u, b);
      }
      SameBuckets(t[..n], u[..m]);
    }
  }

  lemma LastIsLargest(t: seq<TrendPoint>, b: int)
    requires t != [] && AscendingBuckets(t) && HasPoint(t, b)
    ensures b <= t[|t| - 1].bucket
  {
  }

  lemma WithoutLast(t: seq<TrendPoint>, b: int)
    requires t != [] && AscendingBuckets(t)
    ensures HasPoint(t[..|t| - 1], b) <==> HasPoint(t, b) && b != t[|t| - 1].bucket
  {
    assert t == t[..|t| - 1] + [t[|t| - 1]];
    PointsKept(t[..|t| - 1], t[|t| - 1]);
  }
}
