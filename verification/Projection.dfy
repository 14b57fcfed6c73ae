/**
 The statistics projection: the three tables the consumer maintains, the effect of one
 event on them, and what it means for the tables to be the projection of a set of events.
 */
module Projection {
  import opened AccessEvents

  type LinkTable = map<string, nat>

  /** Position of a message in the access-event topic. */
  datatype Source = Source(partition: nat, offset: nat)

  datatype Disposition = Received | Aggregated | NotFoundIgnored

  datatype Receipt = Receipt(source: Source, occurredAtMs: int, disposition: Disposition)

  datatype TotalKey = TotalKey(link: nat, result: AccessResult)

  datatype Total = Total(count: nat, firstMs: int, lastMs: int)

  datatype HourKey = HourKey(link: nat, hour: int, result: AccessResult)

  datatype Tables = Tables(
    receipts: map<string, Receipt>,
    totals: map<TotalKey, Total>,
    hourly: map<HourKey, nat>)

  const EMPTY_TABLES := Tables(map[], map[], map[])

  datatype Outcome = Counted | Duplicate | IgnoredNotFound | Orphan

  datatype Applied = Applied(tables: Tables, outcome: Outcome)

  function Min(a: int, b: int): int { if a < b then a else b }

  function Max(a: int, b: int): int { if a < b then b else a }

  /** `INSERT ... ON DUPLICATE KEY UPDATE` on the totals table. */
  function AddToTotals(totals: map<TotalKey, Total>, k: TotalKey, ms: int): map<TotalKey, Total> {
    totals[k := if k in totals
                then Total(totals[k].count + 1, Min(totals[k].firstMs, ms), Max(totals[k].lastMs, ms))
                else Total(1, ms, ms)]
  }

  /** `INSERT ... ON DUPLICATE KEY UPDATE` on the hourly table. */
  function AddToHourly(hourly: map<HourKey, nat>, k: HourKey): map<HourKey, nat> {
    hourly[k := if k in hourly then hourly[k] + 1 else 1]
  }

  /** One event applied atomically: the step the transaction has to amount to. */
  function ApplyEvent(t: Tables, links: LinkTable, e: AccessEvent, source: Source): Applied {
    if e.eventId in t.receipts then
      Applied(t, Duplicate)
    else if e.result.NotFound? then
      Applied(t.(receipts := t.receipts[e.eventId := Receipt(source, e.occurredAtMs, NotFoundIgnored)]),
              IgnoredNotFound)
    else if e.code !in links then
      Applied(t, Orphan)
    else
      Applied(Tables(t.receipts[e.eventId := Receipt(source, e.occurredAtMs, Aggregated)],
                     AddToTotals(t.totals, TotalKey(links[e.code], e.result), e.occurredAtMs),
                     AddToHourly(t.hourly, HourKey(links[e.code], HourOf(e.occurredAtMs), e.result))),
              Counted)
  }

  // ---------------------------------------------------------------------------------------
  // What the tables mean: a direct count over the events that hold a receipt.

  /** The event behind each receipt, by event id. */
  type History = map<string, AccessEvent>

  predicate Contributes(e: AccessEvent, links: LinkTable, link: nat, result: AccessResult) {
    IsAggregated(e.result) && e.result == result && e.code in links && links[e.code] == link
  }

  function TotalIds(h: History, links: LinkTable, k: TotalKey): set<string> {
    set id | id in h && Contributes(h[id], links, k.link, k.result)
  }

  function HourIds(h: History, links: LinkTable, k: HourKey): set<string> {
    set id | id in h && Contributes(h[id], links, k.link, k.result) && HourOf(h[id].occurredAtMs) == k.hour
  }

  /** Ids counted for a link and result whose event lies in [from, to), in epoch seconds. */
  function IdsBetween(h: History, links: LinkTable, k: TotalKey, from: int, to: int): set<string> {
    set id | id in h && Contributes(h[id], links, k.link, k.result)
             && from * 1000 <= h[id].occurredAtMs < to * 1000
  }

  ghost predicate TotalMatches(row: Total, ids: set<string>, h: History)
    requires ids <= h.Keys
  {
    && row.count == |ids|
    && (exists id :: id in ids && h[id].occurredAtMs == row.firstMs)
    && (exists id :: id in ids && h[id].occurredAtMs == row.lastMs)
    && (forall id | id in ids :: row.firstMs <= h[id].occurredAtMs <= row.lastMs)
  }

  ghost predicate ReceiptsMatch(receipts: map<string, Receipt>, links: LinkTable, h: History) {
    && receipts.Keys == h.Keys
    && forall id | id in h ::
         && h[id].eventId == id
         && receipts[id].occurredAtMs == h[id].occurredAtMs
         && receipts[id].disposition == (if h[id].result.NotFound? then NotFoundIgnored else Aggregated)
         && (!h[id].result.NotFound? ==> h[id].code in links)
  }

  ghost predicate TotalsMatch(totals: map<TotalKey, Total>, links: LinkTable, h: History) {
    && (forall k :: k in totals <==> TotalIds(h, links, k) != {})
    && (forall k | k in totals :: TotalMatches(totals[k], TotalIds(h, links, k), h))
  }

  ghost predicate HourlyMatches(hourly: map<HourKey, nat>, links: LinkTable, h: History) {
    && (forall k :: k in hourly <==> HourIds(h, links, k) != {})
    && (forall k | k in hourly :: hourly[k] == |HourIds(h, links, k)|)
  }

  /** The tables hold exactly the counts, extremes and receipts of the events in `h`. */
  ghost predicate Projects(t: Tables, links: LinkTable, h: History) {
    && ReceiptsMatch(t.receipts, links, h)
    && TotalsMatch(t.totals, links, h)
    && HourlyMatches(t.hourly, links, h)
  }

  function Record(h: History, links: LinkTable, e: AccessEvent): History {
    if e.eventId in h || (!e.result.NotFound? && e.code !in links) then h else h[e.eventId := e]
  }

  lemma EmptyProjects(links: LinkTable)
    ensures Projects(EMPTY_TABLES, links, map[])
  {
    forall k ensures TotalIds(map[], links, k) == {} {}
    forall k ensures HourIds(map[], links, k) == {} {}
  }

  /** Recording a fresh event adds it to exactly the totals key it contributes to. */
  lemma TotalIdsOfRecord(h: History, links: LinkTable, e: AccessEvent, k: TotalKey)
    requires e.eventId !in h
    ensures TotalIds(h[e.eventId := e], links, k)
         == TotalIds(h, links, k) + (if Contributes(e, links, k.link, k.result) then {e.eventId} else {})
  {
    var h' := h[e.eventId := e];
    forall id ensures id in TotalIds(h', links, k)
                  <==> id in TotalIds(h, links, k) + (if Contributes(e, links, k.link, k.result) then {e.eventId} else {})
    {
      if id != e.eventId { assert id in h' <==> id in h; }
    }
  }

  lemma HourIdsOfRecord(h: History, links: LinkTable, e: AccessEvent, k: HourKey)
    requires e.eventId !in h
    ensures HourIds(h[e.eventId := e], links, k)
         == HourIds(h, links, k) + (if Contributes(e, links, k.link, k.result) && HourOf(e.occurredAtMs) == k.hour
                                    then {e.eventId} else {})
  {
    var h' := h[e.eventId := e];
    forall id ensures id in HourIds(h', links, k)
                  <==> id in HourIds(h, links, k) + (if Contributes(e, links, k.link, k.result) && HourOf(e.occurredAtMs) == k.hour
                                                     then {e.eventId} else {})
    {
      if id != e.eventId { assert id in h' <==> id in h; }
    }
  }

  /** A matching row stays matching when the history grows by an id outside its set. */
  lemma RowKept(row: Total, ids: set<string>, h: History, e: AccessEvent)
    requires ids <= h.Keys && TotalMatches(row, ids, h) && e.eventId !in h
    ensures TotalMatches(row, ids, h[e.eventId := e])
  {
    var first :| first in ids && h[first].occurredAtMs == row.firstMs;
    var last :| last in ids && h[last].occurredAtMs == row.lastMs;
    var h' := h[e.eventId := e];
    assert h'[first].occurredAtMs == row.firstMs && h'[last].occurredAtMs == row.lastMs;
  }

  /** Counting one more id gives the row of the larger set. */
  lemma RowGrows(row: Total, ids: set<string>, h: History, e: AccessEvent)
    requires ids <= h.Keys && TotalMatches(row, ids, h) && e.eventId !in h
    ensures TotalMatches(Total(row.count + 1, Min(row.firstMs, e.occurredAtMs), Max(row.lastMs, e.occurredAtMs)),
                         ids + {e.eventId}, h[e.eventId := e])
  {
    var first :| first in ids && h[first].occurredAtMs == row.firstMs;
    var last :| last in ids && h[last].occurredAtMs == row.lastMs;
    var h', ids' := h[e.eventId := e], ids + {e.eventId};
    assert first in ids' && last in ids' && e.eventId in ids';
    assert h'[first].occurredAtMs == row.firstMs && h'[last].occurredAtMs == row.lastMs;
    assert h'[e.eventId].occurredAtMs == e.occurredAtMs;
  }

  /** A fresh id turns matching totals into the matching totals of the larger history. */
  lemma TotalsMatchAfterRecord(totals: map<TotalKey, Total>, links: LinkTable, h: History, e: AccessEvent)
    requires TotalsMatch(totals, links, h) && e.eventId !in h
    requires e.code in links && IsAggregated(e.result)
    ensures TotalsMatch(AddToTotals(totals, TotalKey(links[e.code], e.result), e.occurredAtMs),
                        links, h[e.eventId := e])
  {
    var own := TotalKey(links[e.code], e.result);
    var h' := h[e.eventId := e];
    var totals' := AddToTotals(totals, own, e.occurredAtMs);
    forall k ensures k in totals' <==> TotalIds(h', links, k) != {} {
      TotalIdsOfRecord(h, links, e, k);
      if k == own { assert e.eventId in TotalIds(h', links, k); }
    }
    forall k | k in totals' ensures TotalMatches(totals'[k], TotalIds(h', links, k), h') {
      TotalIdsOfRecord(h, links, e, k);
      if k == own {
        if k in totals {
          RowGrows(totals[k], TotalIds(h, links, k), h, e);
        } else {
          assert TotalIds(h', links, k) == {e.eventId};
          assert h'[e.eventId] == e;
        }
      } else {
        RowKept(totals[k], TotalIds(h, links, k), h, e);
      }
    }
  }

  lemma HourlyMatchesAfterRecord(hourly: map<HourKey, nat>, links: LinkTable, h: History, e: AccessEvent)
    requires HourlyMatches(hourly, links, h) && e.eventId !in h
    requires e.code in links && IsAggregated(e.result)
    ensures HourlyMatches(AddToHourly(hourly, HourKey(links[e.code], HourOf(e.occurredAtMs), e.result)),
                          links, h[e.eventId := e])
  {
    hide HourIds, HourOf;
    var own := HourKey(links[e.code], HourOf(e.occurredAtMs), e.result);
    var h', hourly' := h[e.eventId := e], AddToHourly(hourly, own);
    assert e.eventId !in HourIds(h, links, own) by { HourIdsAreKeys(h, links, own); }
    forall k
      ensures k in hourly' <==> HourIds(h', links, k) != {}
      ensures k in hourly' ==> hourly'[k] == |HourIds(h', links, k)|
    {
      HourIdsOfRecord(h, links, e, k);
      assert k == own <==> Contributes(e, links, k.link, k.result) && HourOf(e.occurredAtMs) == k.hour;
      if k == own && k !in hourly { assert HourIds(h', links, k) == {e.eventId}; }
    }
  }

  lemma HourIdsAreKeys(h: History, links: LinkTable, k: HourKey)
    ensures HourIds(h, links, k) <= h.Keys
  {
  }

  /** A not-found event takes a receipt and leaves every count alone. */
  lemma IgnoredEventKeepsCounts(t: Tables, links: LinkTable, h: History, e: AccessEvent)
    requires TotalsMatch(t.totals, links, h) && HourlyMatches(t.hourly, links, h)
    requires e.eventId !in h && e.result.NotFound?
    ensures TotalsMatch(t.totals, links, h[e.eventId := e]) && HourlyMatches(t.hourly, links, h[e.eventId := e])
  {
    hide HourIds, TotalMatches;
    forall k ensures TotalIds(h[e.eventId := e], links, k) == TotalIds(h, links, k) {
      TotalIdsOfRecord(h, links, e, k);
    }
    forall k ensures HourIds(h[e.eventId := e], links, k) == HourIds(h, links, k) {
      HourIdsOfRecord(h, links, e, k);
    }
    forall k | k in t.totals
      ensures TotalMatches(t.totals[k], TotalIds(h[e.eventId := e], links, k), h[e.eventId := e])
    {
      RowKept(t.totals[k], TotalIds(h, links, k), h, e);
    }
  }

  /** The receipt inserted for an event describes that event. */
  lemma ReceiptsMatchAfterRecord(receipts: map<string, Receipt>, links: LinkTable, h: History, e: AccessEvent,
                                 source: Source)
    requires ReceiptsMatch(receipts, links, h) && e.eventId !in h
    requires !e.result.NotFound? ==> e.code in links
    ensures ReceiptsMatch(receipts[e.eventId := Receipt(source, e.occurredAtMs,
                                                        if e.result.NotFound? then NotFoundIgnored else Aggregated)],
                          links, h[e.eventId := e])
  {
    var h' := h[e.eventId := e];
    assert forall id | id in h' && id != e.eventId :: h'[id] == h[id];
  }

  /**
   Effectively once: applying an event keeps the tables the exact projection of the events
   that hold a receipt. A repeated id, a missing link and a not-found event count nothing.
   */
  lemma ApplyKeepsProjection(t: Tables, links: LinkTable, h: History, e: AccessEvent, source: Source)
    requires Projects(t, links, h)
    ensures Projects(ApplyEvent(t, links, e, source).tables, links, Record(h, links, e))
  {
    var t' := ApplyEvent(t, links, e, source).tables;
    if e.eventId !in h && (e.result.NotFound? || e.code in links) {
      ReceiptsMatchAfterRecord(t.receipts, links, h, e, source);
      if e.result.NotFound? {
        IgnoredEventKeepsCounts(t, links, h, e);
      } else {
        TotalsMatchAfterRecord(t.totals, links, h, e);
        HourlyMatchesAfterRecord(t.hourly, links, h, e);
      }
    } else {
      assert t' == t;
    }
  }

  /** Applying the same event twice is applying it once: redelivery changes nothing. */
  lemma ApplyIsIdempotent(t: Tables, links: LinkTable, e: AccessEvent, source: Source, again: Source)
    requires e.result.NotFound? || e.code in links
    ensures ApplyEvent(ApplyEvent(t, links, e, source).tables, links, e, again)
         == Applied(ApplyEvent(t, links, e, source).tables, Duplicate)
  {
    assert e.eventId in ApplyEvent(t, links, e, source).tables.receipts;
  }

  /** A code defined later cannot touch what is already projected. */
  lemma NewLinkKeepsProjection(t: Tables, links: LinkTable, h: History, code: string, link: nat)
    requires Projects(t, links, h) && code !in links
    ensures Projects(t, links[code := link], h)
  {
    var links' := links[code := link];
    forall id, l, r | id in h ensures Contributes(h[id], links', l, r) <==> Contributes(h[id], links, l, r) {
      if IsAggregated(h[id].result) { assert h[id].code in links; }
    }
    forall k ensures TotalIds(h, links', k) == TotalIds(h, links, k) {}
    forall k ensures HourIds(h, links', k) == HourIds(h, links, k) {}
  }

  lemma TotalsAreUnique(t: map<TotalKey, Total>, u: map<TotalKey, Total>, links: LinkTable, h: History)
    requires TotalsMatch(t, links, h) && TotalsMatch(u, links, h)
    ensures t == u
  {
    forall k ensures k in t <==> k in u {
      assert k in t <==> TotalIds(h, links, k) != {};
      assert k in u <==> TotalIds(h, links, k) != {};
    }
    forall k | k in t ensures t[k] == u[k] {
      assert TotalMatches(t[k], TotalIds(h, links, k), h);
      assert TotalMatches(u[k], TotalIds(h, links, k), h);
    }
  }

  lemma HourlyIsUnique(t: map<HourKey, nat>, u: map<HourKey, nat>, links: LinkTable, h: History)
    requires HourlyMatches(t, links, h) && HourlyMatches(u, links, h)
    ensures t == u
  {
    forall k ensures k in t <==> k in u {
      assert k in t <==> HourIds(h, links, k) != {};
      assert k in u <==> HourIds(h, links, k) != {};
    }
    forall k | k in t ensures t[k] == u[k] {
      assert t[k] == |HourIds(h, links, k)| && u[k] == |HourIds(h, links, k)|;
    }
  }

  /** The events determine the counts: two projections of the same events agree. */
  lemma ProjectionIsUnique(t: Tables, u: Tables, links: LinkTable, h: History)
    requires Projects(t, links, h) && Projects(u, links, h)
    ensures t.totals == u.totals && t.hourly == u.hourly
  {
    TotalsAreUnique(t.totals, u.totals, links, h);
    HourlyIsUnique(t.hourly, u.hourly, links, h);
  }

  // ---------------------------------------------------------------------------------------
  // Sums of hourly rows.

  function HourRow(hourly: map<HourKey, nat>, k: HourKey): nat {
    if k in hourly then hourly[k] else 0
  }

  /** Sum of the hourly rows of a link and result whose hour lies in [from, to). */
  function HourlySum(hourly: map<HourKey, nat>, k: TotalKey, from: int, to: int): nat
    decreases if from < to then to - from else 0
  {
    if from >= to then 0
    else HourRow(hourly, HourKey(k.link, from, k.result)) + HourlySum(hourly, k, from + SECONDS_PER_HOUR, to)
  }

  /** The events of a range are those of its first hour and, disjointly, those of the rest. */
  lemma FirstHourSplitsOff(h: History, links: LinkTable, k: TotalKey, from: int, to: int)
    requires from % SECONDS_PER_HOUR == 0 && to % SECONDS_PER_HOUR == 0 && from < to
    ensures var first, rest := HourIds(h, links, HourKey(k.link, from, k.result)),
                               IdsBetween(h, links, k, from + SECONDS_PER_HOUR, to);
            IdsBetween(h, links, k, from, to) == first + rest && first !! rest
  {
    assert from + SECONDS_PER_HOUR <= to;
    forall id | id in h
      ensures HourOf(h[id].occurredAtMs) == from
         <==> from * 1000 <= h[id].occurredAtMs < (from + SECONDS_PER_HOUR) * 1000
    {
      HourOfIsTheAlignedHour(h[id].occurredAtMs, from);
    }
  }

  /** Over an aligned range the hourly rows add up to the number of events in that range. */
  lemma {:induction false} HourlySumCountsEvents(t: Tables, links: LinkTable, h: History, k: TotalKey, from: int, to: int)
    requires Projects(t, links, h)
    requires from % SECONDS_PER_HOUR == 0 && to % SECONDS_PER_HOUR == 0
    ensures HourlySum(t.hourly, k, from, to) == |IdsBetween(h, links, k, from, to)|
    decreases if from < to then to - from else 0
  {
    if from >= to {
      assert IdsBetween(h, links, k, from, to) == {};
    } else {
      var here := HourKey(k.link, from, k.result);
      var rest := IdsBetween(h, links, k, from + SECONDS_PER_HOUR, to);
      HourlySumCountsEvents(t, links, h, k, from + SECONDS_PER_HOUR, to);
      FirstHourSplitsOff(h, links, k, from, to);
      assert HourRow(t.hourly, here) == |HourIds(h, links, here)|;
    }
  }

  /** The hourly counts of a link and result add up to its total, over any range that covers its events. */
  lemma HourlyAddsUpToTotal(t: Tables, links: LinkTable, h: History, k: TotalKey, from: int, to: int)
    requires Projects(t, links, h) && k in t.totals
    requires from % SECONDS_PER_HOUR == 0 && to % SECONDS_PER_HOUR == 0
    requires from * 1000 <= t.totals[k].firstMs && t.totals[k].lastMs < to * 1000
    ensures HourlySum(t.hourly, k, from, to) == t.totals[k].count
  {
    HourlySumCountsEvents(t, links, h, k, from, to);
    assert TotalMatches(t.totals[k], TotalIds(h, links, k), h);
    assert IdsBetween(h, links, k, from, to) == TotalIds(h, links, k);
  }
}
