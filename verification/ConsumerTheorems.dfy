/**
 What the consumer protocol guarantees in every reachable state of every run: crashes,
 retries, rebalances, zombie consumers, lost replies and backward offset resets included.
 */
module ConsumerTheorems {
  import opened AccessEvents
  import opened Projection
  import opened Transaction
  import opened Protocol
  import opened Safety
  import opened Preservation

  /** The state a run of a new consumer group leads to. */
  function Reach(logs: seq<seq<Message>>, links: LinkTable, actions: seq<Action>): State {
    Run(Initial(logs, links), actions)
  }

  /** A dead letter that carries the message's own position, key and payload. */
  predicate CopyOf(d: DeadLetter, logs: seq<seq<Message>>, at: Source)
    requires InLog(logs, at)
  {
    d.source == at && d.key == MessageAt(logs, at).key && d.payload == MessageAt(logs, at).payload
  }

  /** No loss: below a committed offset, every message has a receipt or a dead letter of its own. */
  lemma NoLoss(logs: seq<seq<Message>>, links: LinkTable, actions: seq<Action>, at: Source)
    requires var s := Reach(logs, links, actions);
             at.partition < |s.offsets| && at.offset < s.offsets[at.partition]
    ensures var s := Reach(logs, links, actions);
            && InLog(s.logs, at)
            && ((exists d :: d in s.dlq && CopyOf(d, s.logs, at))
                || (AcceptedAt(s.logs, at) && EventAt(s.logs, at).eventId in s.db.receipts))
  {
    var s := Reach(logs, links, actions);
    ReachableInv(logs, links, actions);
    assert Settled(s, Source(at.partition, at.offset));
    if d :| d in s.dlq && d.source == at {
      assert CopyOf(d, s.logs, at);
    }
  }

  /**
   Effectively once: in every reachable state each receipt points at the message it was
   written for and says what became of it, and the tables count each receipt's event exactly once.
   */
  lemma EffectivelyOnce(logs: seq<seq<Message>>, links: LinkTable, actions: seq<Action>)
    ensures var s := Reach(logs, links, actions);
            var h := HistoryOf(s.logs, s.db.receipts);
            && h.Keys == s.db.receipts.Keys
            && (forall id | id in h :: AcceptedAt(s.logs, s.db.receipts[id].source)
                                       && h[id] == EventAt(s.logs, s.db.receipts[id].source) && h[id].eventId == id
                                       && s.db.receipts[id].occurredAtMs == h[id].occurredAtMs
                                       && s.db.receipts[id].disposition
                                          == if h[id].result.NotFound? then NotFoundIgnored else Aggregated)
            && (forall k :: k in s.db.totals <==> TotalIds(h, s.links, k) != {})
            && (forall k | k in s.db.totals :: TotalMatches(s.db.totals[k], TotalIds(h, s.links, k), h))
            && (forall k :: k in s.db.hourly <==> HourIds(h, s.links, k) != {})
            && (forall k | k in s.db.hourly :: s.db.hourly[k] == |HourIds(h, s.links, k)|)
  {
    ReachableInv(logs, links, actions);
  }

  /** In every reachable state the hourly rows of a link and result add up to its total. */
  lemma HourlyAgreesWithTotals(logs: seq<seq<Message>>, links: LinkTable, actions: seq<Action>, k: TotalKey,
                               from: int, to: int)
    requires var s := Reach(logs, links, actions);
             && k in s.db.totals
             && from * 1000 <= s.db.totals[k].firstMs && s.db.totals[k].lastMs < to * 1000
    requires from % SECONDS_PER_HOUR == 0 && to % SECONDS_PER_HOUR == 0
    ensures var s := Reach(logs, links, actions);
            HourlySum(s.db.hourly, k, from, to) == s.db.totals[k].count
  {
    var s := Reach(logs, links, actions);
    ReachableInv(logs, links, actions);
    HourlyAddsUpToTotal(s.db, s.links, HistoryOf(s.logs, s.db.receipts), k, from, to);
  }

  /** Whenever a handler is past publishing, this very message is in the dead-letter topic. */
  lemma DeadLetterDelivered(logs: seq<seq<Message>>, links: LinkTable, actions: seq<Action>, c: nat)
    requires var s := Reach(logs, links, actions);
             c in s.consumers && s.consumers[c].phase.Committing? && s.consumers[c].phase.settlement.DeadLettered?
    ensures var s := Reach(logs, links, actions);
            var at := s.consumers[c].phase.at;
            InLog(s.logs, at) && exists d :: d in s.dlq && CopyOf(d, s.logs, at)
  {
    var s := Reach(logs, links, actions);
    ReachableInv(logs, links, actions);
    ConsumerOf(s, links, c);
    var d :| d in s.dlq && d.source == s.consumers[c].phase.at;
    assert Justified(s.logs, links, d);
    assert CopyOf(d, s.logs, d.source);
  }

  /** The producer queue only ever holds copies of the one record being published. */
  lemma QueueHoldsOneRecord(logs: seq<seq<Message>>, links: LinkTable, actions: seq<Action>, c: nat)
    requires c in Reach(logs, links, actions).consumers
    ensures var s := Reach(logs, links, actions);
            var k := s.consumers[c];
            && (!k.phase.Publishing? ==> k.producer.queue == [])
            && (k.phase.Publishing? ==>
                  InLog(s.logs, k.phase.at)
                  && forall copy | copy in k.producer.queue :: copy.record == RecordFor(s.logs, k.phase.at, k.phase.reason))
  {
    ReachableInv(logs, links, actions);
    ConsumerOf(Reach(logs, links, actions), links, c);
  }

  // ---------------------------------------------------------------------------------------
  // The statement-level machine refines the atomic one.

  /** The tables `t` come from `s` by one atomic application of an accepted message. */
  ghost predicate AppliesOne(s: State, t: Tables) {
    exists at :: AcceptedAt(s.logs, at) && t == ApplyEvent(s.db, s.links, EventAt(s.logs, at), at).tables
  }

  /** Only a COMMIT that executes changes the tables, and nothing else changes with them. */
  lemma OnlyCommitsWrite(s: State, a: Action)
    ensures Exec(s, a).db != s.db ==>
              && a.Statement? && a.c in s.consumers
              && s.consumers[a.c].phase.InTransaction? && s.consumers[a.c].phase.stage.Ready?
              && s.consumers[a.c].tx.Some? && AcceptedAt(s.logs, s.consumers[a.c].phase.at)
              && Exec(s, a).db == PerformAll(s.db, s.consumers[a.c].tx.value)
              && Exec(s, a).logs == s.logs && Exec(s, a).links == s.links
  {
    hide PerformAll, AcceptedAt, Executed;
  }

  /** A change of the tables applies one accepted message to them. */
  lemma StepIsAtomic(s: State, links0: LinkTable, a: Action)
    requires Inv(s, links0)
    ensures Exec(s, a).db != s.db ==>
              Exec(s, a).logs == s.logs && Exec(s, a).links == s.links && AppliesOne(s, Exec(s, a).db)
  {
    hide Inv, Exec, ConsumerInv, PerformAll;
    OnlyCommitsWrite(s, a);
    if Exec(s, a).db != s.db {
      var k := s.consumers[a.c];
      ConsumerOf(s, links0, a.c);
      LocksOf(s, links0, a.c);
      ReadyWritesAreApply(s, links0, k);
      assert AcceptedAt(s.logs, k.phase.at);
    }
  }

  /**
   Refinement: whatever statement executes, fails or loses its reply, the committed tables
   stay as they are or take exactly one atomic application of one accepted message.
   */
  lemma EveryActionIsAtomic(logs: seq<seq<Message>>, links: LinkTable, actions: seq<Action>, a: Action)
    ensures var s := Reach(logs, links, actions);
            Exec(s, a).db == s.db || AppliesOne(s, Exec(s, a).db)
  {
    hide Inv, Exec, AppliesOne;
    ReachableInv(logs, links, actions);
    StepIsAtomic(Reach(logs, links, actions), links, a);
  }

  lemma LocksOf(s: State, links0: LinkTable, c: nat)
    requires Inv(s, links0) && c in s.consumers
    ensures Held(s.consumers[c]) !! s.db.receipts.Keys
  {
  }

  /** Actions of one consumer between taking a message to persist and giving up or finishing. */
  predicate Persists(a: Action, c: nat) {
    || (a.Begin? && a.c == c)
    || (a.Statement? && a.c == c)
    || (a.Rollback? && a.c == c)
    || (a.Crash? && a.c == c)
  }

  predicate WorksOn(s: State, c: nat, at: Source) {
    c in s.consumers && (s.consumers[c].phase.Idle? || s.consumers[c].phase.at == at)
  }

  lemma PersistFrame(s: State, c: nat, at: Source, a: Action)
    requires Persists(a, c) && WorksOn(s, c, at)
    ensures Exec(s, a).logs == s.logs && Exec(s, a).links == s.links && WorksOn(Exec(s, a), c, at)
    ensures Exec(s, a).db != s.db ==>
              && a.Statement? && s.consumers[c].phase.InTransaction? && s.consumers[c].phase.stage.Ready?
              && s.consumers[c].phase.at == at
              && s.consumers[c].tx.Some? && Exec(s, a).db == PerformAll(s.db, s.consumers[c].tx.value)
  {
  }

  lemma PersistStep(s: State, links0: LinkTable, c: nat, at: Source, a: Action, db0: Tables)
    requires Inv(s, links0) && AcceptedAt(s.logs, at) && Persists(a, c) && WorksOn(s, c, at)
    requires var db1 := ApplyEvent(db0, s.links, EventAt(s.logs, at), at).tables; s.db == db0 || s.db == db1
    ensures var t := Exec(s, a);
            var db1 := ApplyEvent(db0, s.links, EventAt(s.logs, at), at).tables;
            && t.logs == s.logs && t.links == s.links && WorksOn(t, c, at)
            && (t.db == db0 || t.db == db1)
  {
    hide Inv, ConsumerInv, Exec;
    PersistFrame(s, c, at, a);
    if Exec(s, a).db != s.db {
      ConsumerOf(s, links0, c);
      LocksOf(s, links0, c);
      ReadyWritesAreApply(s, links0, s.consumers[c]);
    }
  }

  /**
   Zero or one: for every placement of failed statements, lost replies, crashes and retries
   while one consumer persists one message, the tables end unchanged or with exactly one
   atomic application of its event; past the commit they hold it.
   */
  lemma {:induction false} ZeroOrOneApplication(s: State, links0: LinkTable, c: nat, at: Source, actions: seq<Action>, db0: Tables)
    requires Inv(s, links0) && AcceptedAt(s.logs, at) && WorksOn(s, c, at)
    requires forall a | a in actions :: Persists(a, c)
    requires var db1 := ApplyEvent(db0, s.links, EventAt(s.logs, at), at).tables; s.db == db0 || s.db == db1
    ensures var t := Run(s, actions);
            var applied := ApplyEvent(db0, s.links, EventAt(s.logs, at), at).tables;
            && (t.db == db0 || t.db == applied)
            && (c in t.consumers && t.consumers[c].phase.Committing? && t.consumers[c].phase.settlement.Wrote?
                ==> t.db == applied)
    decreases |actions|
  {
    hide Inv;
    if actions == [] {
      ConsumerOf(s, links0, c);
    } else {
      PersistStep(s, links0, c, at, actions[0], db0);
      ExecKeeps(s, links0, actions[0]);
      ZeroOrOneApplication(Exec(s, actions[0]), links0, c, at, actions[1..], db0);
    }
  }

  // ---------------------------------------------------------------------------------------
  // Rebuilding from the logs.

  /** A message whose event ends up with a receipt, given these links. */
  predicate Countable(logs: seq<seq<Message>>, links: LinkTable, at: Source) {
    AcceptedAt(logs, at) && (EventAt(logs, at).result.NotFound? || EventAt(logs, at).code in links)
  }

  ghost predicate IdsDetermineEvents(logs: seq<seq<Message>>, links: LinkTable) {
    forall a, b | Countable(logs, links, a) && Countable(logs, links, b) && EventAt(logs, a).eventId == EventAt(logs, b).eventId ::
      EventAt(logs, a) == EventAt(logs, b)
  }

  /** `h` holds the event of every countable message, and nothing else. */
  ghost predicate IsLogHistory(h: History, logs: seq<seq<Message>>, links: LinkTable) {
    && (forall at | Countable(logs, links, at) :: EventAt(logs, at).eventId in h)
    && (forall id | id in h :: exists at :: Countable(logs, links, at) && EventAt(logs, at) == h[id] && h[id].eventId == id)
  }

  predicate CaughtUp(s: State) {
    |s.offsets| == |s.logs| && forall p: nat | p < |s.logs| :: s.offsets[p] == |s.logs[p]|
  }

  /** Once caught up, the receipts are exactly those of the countable messages in the logs. */
  lemma CaughtUpHistory(s: State, links0: LinkTable)
    requires Inv(s, links0) && s.links == links0 && CaughtUp(s)
    ensures IsLogHistory(HistoryOf(s.logs, s.db.receipts), s.logs, links0)
  {
    var h := HistoryOf(s.logs, s.db.receipts);
    forall at | Countable(s.logs, links0, at) ensures EventAt(s.logs, at).eventId in h {
      assert Settled(s, Source(at.partition, at.offset));
      assert forall d | d in s.dlq && d.source == at :: Justified(s.logs, links0, d);
    }
    forall id | id in h
      ensures exists at :: Countable(s.logs, links0, at) && EventAt(s.logs, at) == h[id] && h[id].eventId == id
    {
      assert Countable(s.logs, links0, s.db.receipts[id].source);
    }
  }

  lemma LogHistoryIncluded(h: History, g: History, logs: seq<seq<Message>>, links: LinkTable, id: string)
    requires IsLogHistory(h, logs, links) && IsLogHistory(g, logs, links) && IdsDetermineEvents(logs, links)
    requires id in h
    ensures id in g && g[id] == h[id]
  {
    var a :| Countable(logs, links, a) && EventAt(logs, a) == h[id] && h[id].eventId == id;
    var b :| Countable(logs, links, b) && EventAt(logs, b) == g[id] && g[id].eventId == id;
  }

  lemma LogHistoryIsUnique(h: History, g: History, logs: seq<seq<Message>>, links: LinkTable)
    requires IsLogHistory(h, logs, links) && IsLogHistory(g, logs, links) && IdsDetermineEvents(logs, links)
    ensures h == g
  {
    hide IsLogHistory, IdsDetermineEvents;
    forall id | id in h ensures id in g && g[id] == h[id] { LogHistoryIncluded(h, g, logs, links, id); }
    forall id | id in g ensures id in h { LogHistoryIncluded(g, h, logs, links, id); }
  }

  lemma {:induction false} LinksStay(s: State, actions: seq<Action>)
    requires forall a | a in actions :: !a.DefineLink?
    ensures Run(s, actions).links == s.links
    decreases |actions|
  {
    if actions != [] {
      assert Exec(s, actions[0]).links == s.links;
      LinksStay(Exec(s, actions[0]), actions[1..]);
    }
  }

  /**
   Rebuild confluence: with the links fixed and event ids determining events, any two runs
   that have caught up with the same logs hold identical totals and hourly counts, whatever
   the interleavings, crashes and replays on the way.
   */
  lemma RebuildsAgree(logsA: seq<seq<Message>>, logsB: seq<seq<Message>>, links: LinkTable,
                      a: seq<Action>, b: seq<Action>)
    requires forall x | x in a + b :: !x.DefineLink?
    requires Reach(logsA, links, a).logs == Reach(logsB, links, b).logs
    requires CaughtUp(Reach(logsA, links, a)) && CaughtUp(Reach(logsB, links, b))
    requires IdsDetermineEvents(Reach(logsA, links, a).logs, links)
    ensures var s, t := Reach(logsA, links, a), Reach(logsB, links, b);
            && s.db.totals == t.db.totals && s.db.hourly == t.db.hourly
            && s.db.receipts.Keys == t.db.receipts.Keys
  {
    var s, t := Reach(logsA, links, a), Reach(logsB, links, b);
    assert forall x | x in a :: x in a + b;
    assert forall x | x in b :: x in a + b;
    LinksStay(Initial(logsA, links), a);
    LinksStay(Initial(logsB, links), b);
    ReachableInv(logsA, links, a);
    ReachableInv(logsB, links, b);
    CaughtUpHistory(s, links);
    CaughtUpHistory(t, links);
    var h, g := HistoryOf(s.logs, s.db.receipts), HistoryOf(t.logs, t.db.receipts);
    LogHistoryIsUnique(h, g, s.logs, links);
    ProjectionsMeet(s, t, links, h);
  }

  lemma ProjectionsMeet(s: State, t: State, links: LinkTable, h: History)
    requires DatabaseInv(s) && DatabaseInv(t) && s.links == t.links == links
    requires h == HistoryOf(s.logs, s.db.receipts) == HistoryOf(t.logs, t.db.receipts)
    ensures s.db.totals == t.db.totals && s.db.hourly == t.db.hourly && s.db.receipts.Keys == t.db.receipts.Keys
  {
    ProjectionIsUnique(s.db, t.db, links, h);
  }

  /** The times lie within those a row already spans, so that counting either leaves the same extremes. */
  predicate WithinRow(totals: map<TotalKey, Total>, k: TotalKey, a: int, b: int) {
    k in totals && totals[k].firstMs <= a <= totals[k].lastMs && totals[k].firstMs <= b <= totals[k].lastMs
  }

  /** The two events leave the same counts in these tables. */
  predicate CountAlike(t: Tables, links: LinkTable, d: AccessEvent, e: AccessEvent)
    requires (d.result.NotFound? || d.code in links) && (e.result.NotFound? || e.code in links)
  {
    || (d.result.NotFound? && e.result.NotFound?)
    || (&& d.result == e.result && !d.result.NotFound? && links[d.code] == links[e.code]
        && HourOf(d.occurredAtMs) == HourOf(e.occurredAtMs)
        && (d.occurredAtMs == e.occurredAtMs
            || WithinRow(t.totals, TotalKey(links[d.code], d.result), d.occurredAtMs, e.occurredAtMs)))
  }

  /**
   The id assumption is needed: from any tables without a receipt for it, two countable events
   sharing an id leave the same counts in either order exactly when they count alike there: both
   nothing, or the same link, result and hour, at one time or within the times the row spans.
   */
  lemma SharedIdIsOrderSensitive(t: Tables, links: LinkTable, d: AccessEvent, e: AccessEvent, at: Source, bt: Source)
    requires d.eventId == e.eventId && d.eventId !in t.receipts
    requires (d.result.NotFound? || d.code in links) && (e.result.NotFound? || e.code in links)
    ensures var first := ApplyEvent(ApplyEvent(t, links, d, at).tables, links, e, bt).tables;
            var second := ApplyEvent(ApplyEvent(t, links, e, bt).tables, links, d, at).tables;
            first.totals == second.totals && first.hourly == second.hourly <==> CountAlike(t, links, d, e)
  {
    hide HourOf;
    FirstOfTwo(t, links, d, e, at, bt);
    FirstOfTwo(t, links, e, d, bt, at);
    var x, y := ApplyEvent(t, links, d, at).tables, ApplyEvent(t, links, e, bt).tables;
    if !d.result.NotFound? {
      var k := TotalKey(links[d.code], d.result);
      assert k in x.totals && x.totals[k].count == 1 + (if k in t.totals then t.totals[k].count else 0);
      var h := HourKey(links[d.code], HourOf(d.occurredAtMs), d.result);
      assert h in x.hourly && x.hourly[h] == 1 + HourRow(t.hourly, h);
      if !e.result.NotFound? {
        assert y.totals == AddToTotals(t.totals, TotalKey(links[e.code], e.result), e.occurredAtMs);
        assert y.hourly == AddToHourly(t.hourly, HourKey(links[e.code], HourOf(e.occurredAtMs), e.result));
      }
    } else if !e.result.NotFound? {
      var k := TotalKey(links[e.code], e.result);
      assert k in y.totals && y.totals[k].count == 1 + (if k in t.totals then t.totals[k].count else 0);
    }
  }

  /** The second of two events with one id changes nothing. */
  lemma FirstOfTwo(t: Tables, links: LinkTable, d: AccessEvent, e: AccessEvent, at: Source, bt: Source)
    requires d.eventId == e.eventId && (d.result.NotFound? || d.code in links)
    ensures ApplyEvent(ApplyEvent(t, links, d, at).tables, links, e, bt).tables == ApplyEvent(t, links, d, at).tables
  {
  }
}
