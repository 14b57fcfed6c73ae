/**
 A run in which the two halves of a snapshot disagree: the totals are read before the consumer
 aggregates its first event, the hourly rows after it.
 */
module SplitReads {
  import opened Options
  import opened AccessEvents
  import opened Projection
  import opened Transaction
  import opened Protocol
  import opened ConsumerTheorems
  import opened Statistics
  import opened Trends

  const FIRST := Source(0, 0)

  /** One log with one message for the link with id 1. */
  function Logs(e: AccessEvent): seq<seq<Protocol.Message>>
    requires ValidEvent(e)
  {
    [[Protocol.Message(e.code, "", Event(e))]]
  }

  function Links(e: AccessEvent): LinkTable {
    map[e.code := 1]
  }

  /** A state of the run: nothing committed to the topic yet, one process. */
  function With(e: AccessEvent, db: Tables, k: Consumer): State
    requires ValidEvent(e)
  {
    State(Logs(e), [0], Links(e), db, [], map[0 := k])
  }

  function Taking(e: AccessEvent, phase: Phase): State
    requires ValidEvent(e)
  {
    With(e, EMPTY_TABLES, FRESH.(positions := map[0 := 0], phase := phase))
  }

  /** The first writes of the transaction. */
  function Writes(e: AccessEvent, n: nat): seq<Write>
    requires IsAggregated(e.result) && n <= 4
  {
    Program(e, 1, FIRST)[..n]
  }

  function Writing(e: AccessEvent, stage: Stage, n: nat): State
    requires ValidEvent(e) && IsAggregated(e.result) && n <= 4
  {
    With(e, EMPTY_TABLES, Consumer(map[0 := 0], InTransaction(FIRST, stage), Some(Writes(e, n)), FRESH.producer))
  }

  function Written(e: AccessEvent): State
    requires ValidEvent(e)
  {
    With(e, ApplyEvent(EMPTY_TABLES, Links(e), e, FIRST).tables,
         Consumer(map[0 := 0], Committing(FIRST, Wrote(Counted)), None, FRESH.producer))
  }

  /** The states the run goes through and the actions that lead from each to the next. */
  function Path(e: AccessEvent): seq<State>
    requires ValidEvent(e) && IsAggregated(e.result)
  {
    [Initial(Logs(e), Links(e)), With(e, EMPTY_TABLES, FRESH), Taking(e, Idle), Taking(e, Handling(FIRST)),
     Taking(e, Persisting(FIRST)), Writing(e, Begun, 0), Writing(e, Inserted, 1), Writing(e, Linked(1), 1),
     Writing(e, Totalled(1), 2), Writing(e, Bucketed(1), 3), Writing(e, Ready(Counted), 4), Written(e)]
  }

  const AGGREGATE_ONE: seq<Action> :=
    [Join(0), Assign(0, 0), Fetch(0, 0), Classify(0), Begin(0, Ok), Statement(0, Ok), Statement(0, Ok), Statement(0, Ok),
     Statement(0, Ok), Statement(0, Ok), Statement(0, Ok)]

  lemma TakesMessage(e: AccessEvent)
    requires ValidEvent(e) && IsAggregated(e.result)
    ensures Exec(Initial(Logs(e), Links(e)), Join(0)) == With(e, EMPTY_TABLES, FRESH)
    ensures Exec(With(e, EMPTY_TABLES, FRESH), Assign(0, 0)) == Taking(e, Idle)
    ensures Exec(Taking(e, Idle), Fetch(0, 0)) == Taking(e, Handling(FIRST))
  {
  }

  lemma Persists(e: AccessEvent)
    requires ValidEvent(e) && IsAggregated(e.result)
    ensures Exec(Taking(e, Handling(FIRST)), Classify(0)) == Taking(e, Persisting(FIRST))
    ensures Exec(Taking(e, Persisting(FIRST)), Begin(0, Ok)) == Writing(e, Begun, 0)
  {
    hide Program;
  }

  lemma Inserts(e: AccessEvent)
    requires ValidEvent(e) && IsAggregated(e.result)
    ensures Exec(Writing(e, Begun, 0), Statement(0, Ok)) == Writing(e, Inserted, 1)
  {
    assert Writes(e, 1) == Writes(e, 0) + [ReceiptWrite(e, FIRST)];
  }

  lemma Selects(e: AccessEvent)
    requires ValidEvent(e) && IsAggregated(e.result)
    ensures Exec(Writing(e, Inserted, 1), Statement(0, Ok)) == Writing(e, Linked(1), 1)
  {
    hide Writes;
  }

  lemma Totals(e: AccessEvent)
    requires ValidEvent(e) && IsAggregated(e.result)
    ensures Exec(Writing(e, Linked(1), 1), Statement(0, Ok)) == Writing(e, Totalled(1), 2)
  {
    assert Writes(e, 2) == Writes(e, 1) + [UpsertTotal(TotalKey(1, e.result), e.occurredAtMs)];
  }

  lemma Buckets(e: AccessEvent)
    requires ValidEvent(e) && IsAggregated(e.result)
    ensures Exec(Writing(e, Totalled(1), 2), Statement(0, Ok)) == Writing(e, Bucketed(1), 3)
  {
    hide HourOf;
    assert Writes(e, 3) == Writes(e, 2) + [UpsertHour(HourKey(1, HourOf(e.occurredAtMs), e.result))];
  }

  lemma Marks(e: AccessEvent)
    requires ValidEvent(e) && IsAggregated(e.result)
    ensures Exec(Writing(e, Bucketed(1), 3), Statement(0, Ok)) == Writing(e, Ready(Counted), 4)
  {
    hide HourOf;
    assert Writes(e, 4) == Writes(e, 3) + [SetDisposition(e.eventId, Disposition.Aggregated)];
  }

  lemma Commits(e: AccessEvent)
    requires ValidEvent(e) && IsAggregated(e.result)
    ensures Exec(Writing(e, Ready(Counted), 4), Statement(0, Ok)) == Written(e)
  {
    hide HourOf, PerformAll, ApplyEvent;
    assert Writes(e, 4) == Program(e, 1, FIRST);
    CommitIsApply(EMPTY_TABLES, Links(e), e, 1, FIRST);
  }

  lemma PathIsARun(e: AccessEvent, n: nat)
    requires ValidEvent(e) && IsAggregated(e.result) && n < |AGGREGATE_ONE|
    ensures Exec(Path(e)[n], AGGREGATE_ONE[n]) == Path(e)[n + 1]
  {
    hide Exec, With, Taking, Writing, Written, Initial;
    TakesMessage(e);
    Persists(e);
    Inserts(e);
    Selects(e);
    Totals(e);
    Buckets(e);
    Marks(e);
    Commits(e);
  }

  lemma {:induction false} RunsAlong(e: AccessEvent, n: nat)
    requires ValidEvent(e) && IsAggregated(e.result) && n <= |AGGREGATE_ONE|
    ensures Run(Path(e)[n], AGGREGATE_ONE[n..]) == Written(e)
    decreases |AGGREGATE_ONE| - n
  {
    hide Exec, With, Taking, Writing, Written, Initial;
    if n < |AGGREGATE_ONE| {
      PathIsARun(e, n);
      RunsAlong(e, n + 1);
      assert AGGREGATE_ONE[n..][1..] == AGGREGATE_ONE[n + 1..];
    }
  }

  /** From nothing counted to the one event counted. */
  lemma AggregatesOne(e: AccessEvent)
    requires ValidEvent(e) && IsAggregated(e.result)
    ensures Reach(Logs(e), Links(e), []).db == EMPTY_TABLES
    ensures Reach(Logs(e), Links(e), AGGREGATE_ONE) == Written(e)
  {
    hide Exec, With, Taking, Writing, Written;
    RunsAlong(e, 0);
    assert AGGREGATE_ONE[0..] == AGGREGATE_ONE;
  }

  // ---------------------------------------------------------------------------------------
  // The snapshot of one row.

  lemma OneRowSum(hourly: map<HourKey, nat>, key: HourKey)
    requires key in hourly
    ensures SumOver({key}, hourly) == hourly[key]
  {
    var k :| k in {key} && SumOver({key}, hourly) == hourly[k] + SumOver({key} - {k}, hourly);
    assert {key} - {k} == {};
  }

  lemma OneRowTrend(key: HourKey, q: Query, i: nat)
    requires q == Query(key.hour, key.hour + SECONDS_PER_HOUR, Hour) && i < RESULT_COUNT && ResultAt(i) == key.result
    ensures TrendOf([TrendPoint(key.hour, NO_COUNTS[i := 1])], map[key := 1], key.link, q)
  {
    hide ResultAt;
    var hourly: map<HourKey, nat> := map[key := 1];
    var p := TrendPoint(key.hour, NO_COUNTS[i := 1]);
    OneRowSum(hourly, key);
    forall b, r ensures Group(hourly, key.link, q, b, r) == if b == key.hour && r == key.result then {key} else {} {}
    forall b ensures HasPoint([p], b) <==> b == key.hour { assert [p][0].bucket == key.hour; }
    forall j: nat | j < RESULT_COUNT
      ensures p.counts[j] == SumOver(Group(hourly, key.link, q, key.hour, ResultAt(j)), hourly)
    {
      SlotsAreResults(key.result, j);
      SlotsAreResults(key.result, i);
    }
    assert Group(hourly, key.link, q, key.hour, key.result) != {};
  }

  lemma HourIsAligned(ms: int)
    requires ms > 0
    ensures HourOf(ms) >= 0 && HourOf(ms) % SECONDS_PER_HOUR == 0
  {
  }

  lemma WrittenTables(e: AccessEvent)
    requires ValidEvent(e) && IsAggregated(e.result)
    ensures Written(e).db.hourly == map[HourKey(1, HourOf(e.occurredAtMs), e.result) := 1]
  {
    hide HourOf;
  }

  /**
   The totals are read before the run and the hourly rows after it: for every aggregated event
   there is a query for which the summary counts nothing and the trend one.
   */
  lemma ReadsCanDisagree(e: AccessEvent) returns (q: Query, snapshot: Snapshot, i: nat)
    requires ValidEvent(e) && IsAggregated(e.result)
    ensures ValidQuery(q) && i < RESULT_COUNT && ResultAt(i) == e.result
    ensures SummaryOf(snapshot.summary, Reach(Logs(e), Links(e), []).db.totals, 1)
    ensures TrendOf(snapshot.trend, Reach(Logs(e), Links(e), AGGREGATE_ONE).db.hourly, 1, q)
    ensures snapshot.summary.counts[i] == 0 && SumBetween(snapshot.trend, i, q.from, q.to) == 1
  {
    hide HourOf, Reach, TrendOf, Written, Logs, Links;
    AggregatesOne(e);
    WrittenTables(e);
    var key := HourKey(1, HourOf(e.occurredAtMs), e.result);
    HourIsAligned(e.occurredAtMs);
    i := SlotOf(e.result);
    q := Query(key.hour, key.hour + SECONDS_PER_HOUR, Hour);
    OneRowTrend(key, q, i);
    var point := TrendPoint(key.hour, NO_COUNTS[i := 1]);
    snapshot := Snapshot(e.code, Summary(NO_COUNTS, None, None), [point]);
    assert [point][..0] == [];
  }
}
