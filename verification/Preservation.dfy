/**
 Every action of the protocol keeps the invariant, one lemma for each kind of action, so the
 invariant holds at the end of every run.
 */
module Preservation {
  import opened Options
  import opened AccessEvents
  import opened Projection
  import opened Transaction
  import opened Protocol
  import opened Safety

  lemma ConsumerOf(s: State, links0: LinkTable, c: nat)
    requires Inv(s, links0) && c in s.consumers
    ensures ConsumerInv(s, links0, s.consumers[c])
  {
  }

  /** An action that changes one consumer, and offsets or dead letters, but not the tables. */
  lemma SharedStep(s: State, t: State, links0: LinkTable, c: nat, k: Consumer)
    requires Inv(s, links0) && Grows(s, t) && c in s.consumers
    requires t.consumers == s.consumers[c := k] && t.db == s.db && t.links == s.links
    requires ConsumerInv(t, links0, k) && Held(k) <= Held(s.consumers[c])
    requires OffsetsInv(t) && DeadLettersInv(t, links0)
    ensures Inv(t, links0)
  {
    ConsumersAfter(s, t, links0, c, k);
    LocksAfter(s, t, c, k);
    DatabaseKept(s, t);
  }

  // ---------------------------------------------------------------------------------------
  // The environment: producers, link creation, offset resets.

  /** Changes outside the consumers that only add to the state keep every consumer. */
  lemma EnvironmentStep(s: State, t: State, links0: LinkTable)
    requires Inv(s, links0) && Grows(s, t)
    requires t.consumers == s.consumers && t.db == s.db && t.dlq == s.dlq
    ensures ConsumersInv(t, links0) && LocksInv(t) && DeadLettersInv(t, links0)
  {
    forall d | d in t.consumers ensures ConsumerInv(t, links0, t.consumers[d]) {
      ConsumerKept(s, t, links0, s.consumers[d]);
    }
    DeadLettersKept(s, t, links0);
  }

  lemma ProduceKeeps(s: State, links0: LinkTable, p: nat, m: Message)
    requires Inv(s, links0)
    ensures Inv(Exec(s, Produce(p, m)), links0)
  {
    var t := Exec(s, Produce(p, m));
    assert Grows(s, t);
    EnvironmentStep(s, t, links0);
    OffsetsKept(s, t);
    DatabaseKept(s, t);
  }

  lemma DefineLinkKeeps(s: State, links0: LinkTable, code: string, link: nat)
    requires Inv(s, links0)
    ensures Inv(Exec(s, DefineLink(code, link)), links0)
  {
    var t := Exec(s, DefineLink(code, link));
    if code !in s.links {
      assert Grows(s, t);
      EnvironmentStep(s, t, links0);
      OffsetsKept(s, t);
      HistoryKept(s, t);
      NewLinkKeepsProjection(s.db, s.links, HistoryOf(s.logs, s.db.receipts), code, link);
    }
  }

  lemma ResetOffsetKeeps(s: State, links0: LinkTable, p: nat, o: nat)
    requires Inv(s, links0)
    ensures Inv(Exec(s, ResetOffset(p, o)), links0)
  {
    var t := Exec(s, ResetOffset(p, o));
    if p < |s.offsets| && o <= s.offsets[p] {
      assert Grows(s, t);
      EnvironmentStep(s, t, links0);
      DatabaseKept(s, t);
      forall q: nat, i: nat | q < |t.logs| && i < t.offsets[q] ensures Settled(t, Source(q, i)) {
        SettledIsKept(s, t, Source(q, i));
      }
    }
  }

  // ---------------------------------------------------------------------------------------
  // Process lifecycle, fetching and classification.

  lemma FreshKeeps(s: State, links0: LinkTable, c: nat)
    requires Inv(s, links0)
    ensures Inv(With(s, c, FRESH), links0)
  {
    LocalStep(s, links0, c, FRESH);
  }

  lemma AssignKeeps(s: State, links0: LinkTable, c: nat, p: nat)
    requires Inv(s, links0)
    ensures Inv(Exec(s, Assign(c, p)), links0)
  {
    hide DatabaseInv, DeadLettersInv, LocksInv, ConsumersInv;
    if c in s.consumers && s.consumers[c].phase.Idle? && p < |s.offsets| {
      var k := s.consumers[c];
      var k' := k.(positions := k.positions[p := s.offsets[p]]);
      ConsumerOf(s, links0, c);
      LocalStep(s, links0, c, k');
    }
  }

  lemma RevokeKeeps(s: State, links0: LinkTable, c: nat, p: nat)
    requires Inv(s, links0)
    ensures Inv(Exec(s, Revoke(c, p)), links0)
  {
    hide Inv;
    if c in s.consumers && s.consumers[c].phase.Idle? {
      var k := s.consumers[c];
      ConsumerOf(s, links0, c);
      LocalStep(s, links0, c, k.(positions := k.positions - {p}));
    }
  }

  lemma FetchKeeps(s: State, links0: LinkTable, c: nat, p: nat)
    requires Inv(s, links0)
    ensures Inv(Exec(s, Fetch(c, p)), links0)
  {
    hide Inv;
    if c in s.consumers && s.consumers[c].phase.Idle? && p in s.consumers[c].positions
       && InLog(s.logs, Source(p, s.consumers[c].positions[p])) {
      var k := s.consumers[c];
      ConsumerOf(s, links0, c);
      LocalStep(s, links0, c, k.(phase := Handling(Source(p, k.positions[p]))));
    }
  }

  /** A message enters the publishing phase with its cause, an empty queue and no attempt made. */
  lemma ClassifyKeeps(s: State, links0: LinkTable, c: nat)
    requires Inv(s, links0)
    ensures Inv(Exec(s, Classify(c)), links0)
  {
    hide Inv;
    if c in s.consumers && s.consumers[c].phase.Handling? && InLog(s.logs, s.consumers[c].phase.at) {
      var k := s.consumers[c];
      var at := k.phase.at;
      ConsumerOf(s, links0, c);
      LocalStep(s, links0, c, k.(phase := Classified(MessageAt(s.logs, at), at)));
    }
  }

  // ---------------------------------------------------------------------------------------
  // The transaction.

  lemma BeginKeeps(s: State, links0: LinkTable, c: nat, reply: Reply)
    requires Inv(s, links0)
    ensures Inv(Exec(s, Begin(c, reply)), links0)
  {
    hide Inv;
    if c in s.consumers && s.consumers[c].phase.Persisting? && reply.Ok? {
      var k := s.consumers[c];
      ConsumerOf(s, links0, c);
      LocalStep(s, links0, c, k.(phase := InTransaction(k.phase.at, Begun), tx := Some([])));
    }
  }

  lemma ProgramPrefixes(e: AccessEvent, l: nat, at: Source)
    ensures Program(e, l, at)[..1] == [ReceiptWrite(e, at)]
    ensures e.result.NotFound? ==>
              Program(e, 0, at) == [ReceiptWrite(e, at)] + [SetDisposition(e.eventId, NotFoundIgnored)]
    ensures !e.result.NotFound? ==>
              && Program(e, l, at)[..2]
                 == Program(e, l, at)[..1] + [UpsertTotal(TotalKey(l, e.result), e.occurredAtMs)]
              && Program(e, l, at)[..3]
                 == Program(e, l, at)[..2] + [UpsertHour(HourKey(l, HourOf(e.occurredAtMs), e.result))]
              && Program(e, l, at)
                 == Program(e, l, at)[..3] + [SetDisposition(e.eventId, Aggregated)]
  {
  }

  /** Whatever a transaction has written so far starts with its receipt. */
  lemma HeldInTransaction(s: State, k: Consumer)
    requires TxInv(s, k) && k.phase.InTransaction?
    ensures var e := EventAt(s.logs, k.phase.at);
            && Held(k) <= {e.eventId}
            && (k.tx.value != [] ==> k.tx.value[0] == ReceiptWrite(e, k.phase.at) && Held(k) == {e.eventId})
  {
    var e := EventAt(s.logs, k.phase.at);
    ProgramPrefixes(e, 0, k.phase.at);
    if e.code in s.links { ProgramPrefixes(e, s.links[e.code], k.phase.at); }
  }

  /** A statement that fails, or whose session dies, aborts without touching the tables. */
  lemma FailedStatementKeeps(s: State, links0: LinkTable, c: nat, keep: bool)
    requires Inv(s, links0) && c in s.consumers && s.consumers[c].phase.InTransaction?
    ensures var k := s.consumers[c];
            Inv(With(s, c, k.(phase := Aborting(k.phase.at, false), tx := if keep then k.tx else None)), links0)
  {
    var k := s.consumers[c];
    assert ConsumerInv(s, links0, k);
    HeldInTransaction(s, k);
    LocalStep(s, links0, c, k.(phase := Aborting(k.phase.at, false), tx := if keep then k.tx else None));
  }

  lemma InsertedConsumer(s: State, links0: LinkTable, k: Consumer)
    requires ConsumerInv(s, links0, k) && k.phase.InTransaction? && k.phase.stage.Begun?
    ensures var e := EventAt(s.logs, k.phase.at);
            && ConsumerInv(s, links0, Executed(s, k, e))
            && Held(Executed(s, k, e)) == if e.eventId in s.db.receipts then {} else {e.eventId}
  {
  }

  /** Inserting the receipt takes the row lock, which no one else holds. */
  lemma InsertKeeps(s: State, links0: LinkTable, c: nat)
    requires Inv(s, links0) && c in s.consumers
    requires s.consumers[c].phase.InTransaction? && s.consumers[c].phase.stage.Begun?
    requires !LockedByOther(s, c, EventAt(s.logs, s.consumers[c].phase.at).eventId)
    ensures Inv(With(s, c, Executed(s, s.consumers[c], EventAt(s.logs, s.consumers[c].phase.at))), links0)
  {
    hide DatabaseInv, DeadLettersInv, OffsetsInv, LocksInv, LockedByOther;
    var k := s.consumers[c];
    var e := EventAt(s.logs, k.phase.at);
    var k' := Executed(s, k, e);
    var t := With(s, c, k');
    InsertedConsumer(s, links0, k);
    if e.eventId in s.db.receipts {
      LocalStep(s, links0, c, k');
    } else {
      assert Grows(s, t);
      ConsumerKept(s, t, links0, k');
      ConsumersAfter(s, t, links0, c, k');
      OffsetsKept(s, t);
      DatabaseKept(s, t);
      DeadLettersKept(s, t, links0);
      InsertLocks(s, t, c, k', e.eventId);
    }
  }

  lemma InsertLocks(s: State, t: State, c: nat, k: Consumer, id: string)
    requires LocksInv(s) && t == With(s, c, k) && Held(k) == {id}
    requires id !in s.db.receipts && !LockedByOther(s, c, id)
    ensures LocksInv(t)
  {
    forall a, b | a in t.consumers && b in t.consumers && a != b ensures Held(t.consumers[a]) !! Held(t.consumers[b]) {
      if a != c && b != c {
        assert Held(s.consumers[a]) !! Held(s.consumers[b]);
      }
    }
    forall a | a in t.consumers ensures Held(t.consumers[a]) !! t.db.receipts.Keys {
      if a != c { assert Held(s.consumers[a]) !! s.db.receipts.Keys; }
    }
  }

  /** Every later statement short of COMMIT moves one stage along the program. */
  lemma MiddleStatementKeeps(s: State, links0: LinkTable, c: nat)
    requires Inv(s, links0) && c in s.consumers && s.consumers[c].phase.InTransaction?
    requires !s.consumers[c].phase.stage.Begun? && !s.consumers[c].phase.stage.Ready?
    ensures Inv(With(s, c, Executed(s, s.consumers[c], EventAt(s.logs, s.consumers[c].phase.at))), links0)
  {
    hide DatabaseInv, DeadLettersInv, OffsetsInv, LocksInv;
    var k := s.consumers[c];
    assert ConsumerInv(s, links0, k);
    var e := EventAt(s.logs, k.phase.at);
    var k' := Executed(s, k, e);
    HeldInTransaction(s, k);
    ProgramPrefixes(e, 0, k.phase.at);
    if e.code in s.links { ProgramPrefixes(e, s.links[e.code], k.phase.at); }
    if k'.phase.Aborting? {
      assert e.code !in links0;
    }
    LocalStep(s, links0, c, k');
  }

  /** What a transaction that is ready to commit will have committed. */
  lemma ReadyWritesAreApply(s: State, links0: LinkTable, k: Consumer)
    requires ConsumerInv(s, links0, k) && k.phase.InTransaction? && k.phase.stage.Ready?
    requires Held(k) !! s.db.receipts.Keys
    ensures var e := EventAt(s.logs, k.phase.at);
            && PerformAll(s.db, k.tx.value) == ApplyEvent(s.db, s.links, e, k.phase.at).tables
            && ApplyEvent(s.db, s.links, e, k.phase.at).outcome == k.phase.stage.outcome
            && ApplyEvent(s.db, s.links, e, k.phase.at).tables.receipts.Keys == s.db.receipts.Keys + Held(k)
            && e.eventId in ApplyEvent(s.db, s.links, e, k.phase.at).tables.receipts
  {
    var e := EventAt(s.logs, k.phase.at);
    HeldInTransaction(s, k);
    if !k.phase.stage.outcome.Duplicate? {
      assert e.eventId in Held(k);
      CommitIsApply(s.db, s.links, e, if e.code in s.links && !e.result.NotFound? then s.links[e.code] else 0, k.phase.at);
    }
  }

  lemma HistoryWithReceipt(logs: seq<seq<Message>>, receipts: map<string, Receipt>, at: Source, r: Receipt)
    requires AcceptedAt(logs, at) && r.source == at && EventAt(logs, at).eventId !in receipts
    ensures HistoryOf(logs, receipts[EventAt(logs, at).eventId := r])
         == HistoryOf(logs, receipts)[EventAt(logs, at).eventId := EventAt(logs, at)]
  {
    var e := EventAt(logs, at);
    var h, h' := HistoryOf(logs, receipts), HistoryOf(logs, receipts[e.eventId := r]);
    forall id ensures id in h' <==> id in h[e.eventId := e] {
      if id != e.eventId { assert id in receipts[e.eventId := r] <==> id in receipts; }
    }
    forall id | id in h' ensures h'[id] == h[e.eventId := e][id] {
      if id != e.eventId { assert receipts[e.eventId := r][id] == receipts[id]; }
    }
  }

  /** Applying an accepted event to the tables keeps them the projection of the receipts' messages. */
  lemma ApplyKeepsDatabase(s: State, t: State, at: Source)
    requires DatabaseInv(s) && AcceptedAt(s.logs, at)
    requires t.logs == s.logs && t.links == s.links
    requires t.db == ApplyEvent(s.db, s.links, EventAt(s.logs, at), at).tables
    ensures DatabaseInv(t)
  {
    var e := EventAt(s.logs, at);
    var h := HistoryOf(s.logs, s.db.receipts);
    assert h.Keys == s.db.receipts.Keys;
    ApplyKeepsProjection(s.db, s.links, h, e, at);
    if t.db != s.db {
      var r := t.db.receipts[e.eventId];
      assert t.db.receipts == s.db.receipts[e.eventId := r];
      HistoryWithReceipt(s.logs, s.db.receipts, at, r);
      assert HistoryOf(t.logs, t.db.receipts) == Record(h, s.links, e);
      forall id | id in t.db.receipts
        ensures AcceptedAt(t.logs, t.db.receipts[id].source) && EventAt(t.logs, t.db.receipts[id].source).eventId == id
      {
        if id != e.eventId { assert id in s.db.receipts && t.db.receipts[id] == s.db.receipts[id]; }
      }
    }
  }

  /** After COMMIT took effect, with or without its reply, the consumer's own invariant holds. */
  lemma CommittedConsumer(s: State, t: State, links0: LinkTable, k: Consumer, k': Consumer)
    requires ConsumerInv(s, links0, k) && Grows(s, t)
    requires k.phase.InTransaction? && k.phase.stage.Ready?
    requires EventAt(s.logs, k.phase.at).eventId in t.db.receipts
    requires || k' == k.(phase := Committing(k.phase.at, Wrote(k.phase.stage.outcome)), tx := None)
             || k' == k.(phase := Aborting(k.phase.at, false), tx := None)
    ensures ConsumerInv(t, links0, k')
  {
    LogIsKept(s, t, k.phase.at);
    PositionsKept(s, t, k);
    assert PositionsInv(t, k');
    assert k.producer.queue == [];
    assert ProducerInv(t, k');
  }

  /** The tables after COMMIT: one atomic application of the event, on top of what is there. */
  lemma CommitTables(s: State, t: State, links0: LinkTable, c: nat)
    requires Inv(s, links0) && c in s.consumers
    requires s.consumers[c].phase.InTransaction? && s.consumers[c].phase.stage.Ready?
    requires t.logs == s.logs && t.links == s.links && t.dlq == s.dlq
    requires t.db == PerformAll(s.db, s.consumers[c].tx.value)
    ensures Grows(s, t) && DatabaseInv(t)
    ensures EventAt(s.logs, s.consumers[c].phase.at).eventId in t.db.receipts
    ensures t.db.receipts.Keys == s.db.receipts.Keys + Held(s.consumers[c])
  {
    var k := s.consumers[c];
    assert ConsumerInv(s, links0, k);
    ReadyWritesAreApply(s, links0, k);
    ApplyKeepsDatabase(s, t, k.phase.at);
  }

  /** COMMIT keeps the invariant, whether or not its reply arrives. */
  lemma CommitKeeps(s: State, links0: LinkTable, c: nat, k': Consumer)
    requires Inv(s, links0) && c in s.consumers
    requires s.consumers[c].phase.InTransaction? && s.consumers[c].phase.stage.Ready?
    requires var k := s.consumers[c];
             || k' == k.(phase := Committing(k.phase.at, Wrote(k.phase.stage.outcome)), tx := None)
             || k' == k.(phase := Aborting(k.phase.at, false), tx := None)
    ensures Inv(With(s, c, k').(db := PerformAll(s.db, s.consumers[c].tx.value)), links0)
  {
    hide DatabaseInv, DeadLettersInv, OffsetsInv, LocksInv, PerformAll;
    var t := With(s, c, k').(db := PerformAll(s.db, s.consumers[c].tx.value));
    CommitTables(s, t, links0, c);
    CommittedConsumer(s, t, links0, s.consumers[c], k');
    ConsumersAfter(s, t, links0, c, k');
    OffsetsKept(s, t);
    DeadLettersKept(s, t, links0);
    CommitLocks(s, t, c, k');
  }

  lemma CommitLocks(s: State, t: State, c: nat, k: Consumer)
    requires LocksInv(s) && c in s.consumers && t.consumers == s.consumers[c := k] && Held(k) == {}
    requires t.db.receipts.Keys == s.db.receipts.Keys + Held(s.consumers[c])
    ensures LocksInv(t)
  {
    forall a, b | a in t.consumers && b in t.consumers && a != b ensures Held(t.consumers[a]) !! Held(t.consumers[b]) {
      if a != c && b != c { assert Held(s.consumers[a]) !! Held(s.consumers[b]); }
    }
    forall a | a in t.consumers ensures Held(t.consumers[a]) !! t.db.receipts.Keys {
      if a != c {
        assert Held(s.consumers[a]) !! s.db.receipts.Keys && Held(s.consumers[a]) !! Held(s.consumers[c]);
      }
    }
  }

  /** A statement that executes and answers. */
  lemma AnsweredStatementKeeps(s: State, links0: LinkTable, c: nat)
    requires Inv(s, links0) && c in s.consumers && s.consumers[c].phase.InTransaction?
    requires AcceptedAt(s.logs, s.consumers[c].phase.at) && s.consumers[c].tx.Some?
    ensures Inv(DoStatement(s, c, s.consumers[c], Ok), links0)
  {
    hide Inv;
    var k := s.consumers[c];
    match k.phase.stage {
      case Ready(outcome) =>
        CommitKeeps(s, links0, c, k.(phase := Committing(k.phase.at, Wrote(outcome)), tx := None));
      case Begun =>
        if !LockedByOther(s, c, EventAt(s.logs, k.phase.at).eventId) { InsertKeeps(s, links0, c); }
      case _ =>
        MiddleStatementKeeps(s, links0, c);
    }
  }

  lemma StatementKeeps(s: State, links0: LinkTable, c: nat, reply: Reply)
    requires Inv(s, links0)
    ensures Inv(Exec(s, Statement(c, reply)), links0)
  {
    hide Inv;
    if c in s.consumers && s.consumers[c].phase.InTransaction? && s.consumers[c].tx.Some?
       && AcceptedAt(s.logs, s.consumers[c].phase.at) {
      var k := s.consumers[c];
      match reply {
        case Ok => AnsweredStatementKeeps(s, links0, c);
        case Refused => FailedStatementKeeps(s, links0, c, true);
        case Aborted => FailedStatementKeeps(s, links0, c, false);
        case ReplyLost =>
          if k.phase.stage.Ready? {
            CommitKeeps(s, links0, c, k.(phase := Aborting(k.phase.at, false), tx := None));
          } else {
            FailedStatementKeeps(s, links0, c, false);
          }
      }
    }
  }

  lemma RolledBackConsumer(s: State, links0: LinkTable, k: Consumer)
    requires ConsumerInv(s, links0, k) && k.phase.Aborting?
    ensures ConsumerInv(s, links0, k.(phase := Persisting(k.phase.at), tx := None))
    ensures k.phase.orphan ==>
              ConsumerInv(s, links0, k.(phase := Publishing(k.phase.at, OrphanShortLink, false), tx := None))
  {
    assert k.producer.queue == [];
  }

  lemma RollbackKeeps(s: State, links0: LinkTable, c: nat)
    requires Inv(s, links0)
    ensures Inv(Exec(s, Rollback(c)), links0)
  {
    hide Inv;
    if c in s.consumers && s.consumers[c].phase.Aborting? {
      var k := s.consumers[c];
      ConsumerOf(s, links0, c);
      RolledBackConsumer(s, links0, k);
      if k.phase.orphan {
        LocalStep(s, links0, c, k.(phase := Publishing(k.phase.at, OrphanShortLink, false), tx := None));
      } else {
        LocalStep(s, links0, c, k.(phase := Persisting(k.phase.at), tx := None));
      }
    }
  }

  // ---------------------------------------------------------------------------------------
  // Dead letters.

  lemma EnqueueKeeps(s: State, links0: LinkTable, c: nat, accepted: bool)
    requires Inv(s, links0)
    ensures Inv(Exec(s, Enqueue(c, accepted)), links0)
  {
    hide Inv;
    if c in s.consumers && s.consumers[c].phase.Publishing? && InLog(s.logs, s.consumers[c].phase.at) {
      var k := s.consumers[c];
      ConsumerOf(s, links0, c);
      LocalStep(s, links0, c, DoEnqueue(s, c, k, accepted).consumers[c]);
    }
  }

  /** A decided copy leaves the producer with its one record, stored if it was acknowledged. */
  lemma DeliveredProducer(s: State, t: State, k: Consumer, k': Consumer, i: nat, stored: bool, fate: Fate)
    requires PositionsInv(s, k) && ProducerInv(s, k) && i < |k.producer.queue|
    requires fate.Acked? ==> stored
    requires t.logs == s.logs
    requires t.dlq == if stored then s.dlq + [k.producer.queue[i].record] else s.dlq
    requires k' == k.(producer := k.producer.(queue := k.producer.queue[i := k.producer.queue[i].(fate := fate)]))
    ensures k.producer.queue[i].record == RecordFor(s.logs, k.phase.at, k.phase.reason)
    ensures ProducerInv(t, k')
  {
    var record := RecordFor(s.logs, k.phase.at, k.phase.reason);
    assert k.producer.queue[i] in k.producer.queue;
    forall copy | copy in k'.producer.queue ensures copy.record == record && (copy.fate.Acked? ==> record in t.dlq) {
      var j :| 0 <= j < |k'.producer.queue| && k'.producer.queue[j] == copy;
      if j != i { assert copy == k.producer.queue[j]; }
    }
  }

  /** Storing a copy of a record the queue holds adds a justified dead letter and nothing else. */
  lemma DeadLetterAdded(s: State, t: State, links0: LinkTable, k: Consumer)
    requires DeadLettersInv(s, links0) && ConsumerInv(s, links0, k) && k.phase.Publishing?
    requires t.logs == s.logs
    requires t.dlq == s.dlq || t.dlq == s.dlq + [RecordFor(s.logs, k.phase.at, k.phase.reason)]
    ensures DeadLettersInv(t, links0)
  {
  }

  /** The broker stores a queued copy, or gives up on it; what it acknowledges it has stored. */
  lemma DeliverKeeps(s: State, links0: LinkTable, c: nat, i: nat, stored: bool, fate: Fate)
    requires Inv(s, links0)
    ensures Inv(Exec(s, Deliver(c, i, stored, fate)), links0)
  {
    hide Inv;
    if c in s.consumers && Undecided(s.consumers[c].producer, i) && (fate.Acked? ==> stored) {
      DoDeliverKeeps(s, links0, c, i, stored, fate);
    }
  }

  lemma DeliverPieces(s: State, t: State, links0: LinkTable, k: Consumer, k': Consumer, i: nat, stored: bool, fate: Fate)
    requires ConsumerInv(s, links0, k) && OffsetsInv(s) && DeadLettersInv(s, links0)
    requires i < |k.producer.queue| && (fate.Acked? ==> stored)
    requires t.logs == s.logs && t.links == s.links && t.db == s.db && t.offsets == s.offsets
    requires t.dlq == if stored then s.dlq + [k.producer.queue[i].record] else s.dlq
    requires k' == k.(producer := k.producer.(queue := k.producer.queue[i := k.producer.queue[i].(fate := fate)]))
    ensures Grows(s, t) && ConsumerInv(t, links0, k') && OffsetsInv(t) && DeadLettersInv(t, links0)
  {
    DeliveredProducer(s, t, k, k', i, stored, fate);
    DeadLetterAdded(s, t, links0, k);
    DeliveredConsumer(s, t, links0, k, k');
    OffsetsKept(s, t);
  }

  lemma DoDeliverKeeps(s: State, links0: LinkTable, c: nat, i: nat, stored: bool, fate: Fate)
    requires Inv(s, links0) && c in s.consumers
    requires i < |s.consumers[c].producer.queue| && (fate.Acked? ==> stored)
    ensures Inv(DoDeliver(s, c, s.consumers[c], i, stored, fate), links0)
  {
    hide DatabaseInv, DeadLettersInv, OffsetsInv, LocksInv;
    var t := DoDeliver(s, c, s.consumers[c], i, stored, fate);
    DeliverPieces(s, t, links0, s.consumers[c], t.consumers[c], i, stored, fate);
    SharedStep(s, t, links0, c, t.consumers[c]);
  }

  lemma DeliveredConsumer(s: State, t: State, links0: LinkTable, k: Consumer, k': Consumer)
    requires ConsumerInv(s, links0, k) && Grows(s, t) && ProducerInv(t, k')
    requires k' == k.(producer := k'.producer)
    ensures ConsumerInv(t, links0, k')
  {
    PositionsKept(s, t, k);
    PhaseKept(s, t, links0, k);
    TxKept(s, t, k);
  }

  lemma ReportKeeps(s: State, links0: LinkTable, c: nat, i: nat)
    requires Inv(s, links0)
    ensures Inv(Exec(s, Report(c, i)), links0)
  {
    hide Inv;
    if c in s.consumers && s.consumers[c].phase.Publishing? && i < |s.consumers[c].producer.queue|
       && !s.consumers[c].producer.queue[i].fate.InFlight? {
      var k := s.consumers[c];
      ConsumerOf(s, links0, c);
      var q := k.producer.queue;
      assert q[i] in q;
      assert forall copy | copy in q[..i] + q[i + 1..] :: copy in q;
      LocalStep(s, links0, c, k.(producer := Producer(q[..i] + q[i + 1..], true, q[i].fate.Failed?)));
    }
  }

  /** A clean pair of flags and an empty queue: this very record is in the dead-letter topic. */
  lemma PublishedConsumer(s: State, links0: LinkTable, k: Consumer)
    requires ConsumerInv(s, links0, k) && k.phase.Publishing? && k.phase.attempted
    requires k.producer.queue == [] && k.producer.observed && !k.producer.errored
    ensures RecordFor(s.logs, k.phase.at, k.phase.reason) in s.dlq
    ensures ConsumerInv(s, links0, k.(phase := Committing(k.phase.at, DeadLettered)))
  {
    var record := RecordFor(s.logs, k.phase.at, k.phase.reason);
    assert record in s.dlq && record.source == k.phase.at;
  }

  lemma EndPublishKeeps(s: State, links0: LinkTable, c: nat)
    requires Inv(s, links0)
    ensures Inv(Exec(s, EndPublish(c)), links0)
  {
    hide Inv;
    if c in s.consumers && s.consumers[c].phase.Publishing? && s.consumers[c].phase.attempted
       && s.consumers[c].producer.queue == []
       && s.consumers[c].producer.observed && !s.consumers[c].producer.errored {
      var k := s.consumers[c];
      ConsumerOf(s, links0, c);
      PublishedConsumer(s, links0, k);
      LocalStep(s, links0, c, k.(phase := Committing(k.phase.at, DeadLettered)));
    }
  }

  // ---------------------------------------------------------------------------------------
  // Offset commits.

  /** Committing an offset moves past one settled message, whatever the offset was before. */
  lemma CommittedPositions(s: State, t: State, links0: LinkTable, k: Consumer, k': Consumer)
    requires ConsumerInv(s, links0, k) && Grows(s, t) && k.phase.Committing?
    requires || k' == k
             || k' == k.(phase := Idle, positions := k.positions[k.phase.at.partition := k.phase.at.offset + 1])
    ensures ConsumerInv(t, links0, k')
    ensures forall o: nat | o < k.phase.at.offset + 1 :: Settled(t, Source(k.phase.at.partition, o))
  {
    var at := k.phase.at;
    ConsumerKept(s, t, links0, k);
    assert k.producer.queue == [];
    forall o: nat | o < at.offset + 1 ensures Settled(t, Source(at.partition, o)) {
      if o == at.offset { assert Source(at.partition, o) == at; }
    }
  }

  lemma OffsetAdvanced(s: State, t: State, at: Source)
    requires OffsetsInv(s) && Grows(s, t) && InLog(s.logs, at)
    requires t.offsets == s.offsets[at.partition := at.offset + 1]
    requires forall o: nat | o < at.offset + 1 :: Settled(t, Source(at.partition, o))
    ensures OffsetsInv(t)
  {
    forall p: nat | p < |t.logs|
      ensures t.offsets[p] <= |t.logs[p]| && forall o: nat | o < t.offsets[p] :: Settled(t, Source(p, o))
    {
      assert s.logs[p] <= t.logs[p];
      forall o: nat | o < t.offsets[p] ensures Settled(t, Source(p, o)) {
        if p != at.partition { SettledIsKept(s, t, Source(p, o)); }
      }
    }
  }

  lemma CommitOffsetKeeps(s: State, links0: LinkTable, c: nat, applied: bool, acknowledged: bool)
    requires Inv(s, links0)
    ensures Inv(Exec(s, CommitOffset(c, applied, acknowledged)), links0)
  {
    hide Inv;
    if c in s.consumers && s.consumers[c].phase.Committing? && s.consumers[c].phase.at.partition < |s.offsets| {
      DoCommitOffsetKeeps(s, links0, c, applied, acknowledged);
    }
  }

  lemma CommitOffsetPieces(s: State, t: State, links0: LinkTable, k: Consumer, k': Consumer, applied: bool)
    requires ConsumerInv(s, links0, k) && OffsetsInv(s) && DeadLettersInv(s, links0) && k.phase.Committing?
    requires t.logs == s.logs && t.links == s.links && t.db == s.db && t.dlq == s.dlq
    requires t.offsets == if applied then s.offsets[k.phase.at.partition := k.phase.at.offset + 1] else s.offsets
    requires || k' == k
             || k' == k.(phase := Idle, positions := k.positions[k.phase.at.partition := k.phase.at.offset + 1])
    ensures Grows(s, t) && ConsumerInv(t, links0, k') && OffsetsInv(t) && DeadLettersInv(t, links0)
  {
    CommittedPositions(s, t, links0, k, k');
    if applied { OffsetAdvanced(s, t, k.phase.at); } else { OffsetsKept(s, t); }
    DeadLettersKept(s, t, links0);
  }

  lemma DoCommitOffsetKeeps(s: State, links0: LinkTable, c: nat, applied: bool, acknowledged: bool)
    requires Inv(s, links0) && c in s.consumers
    requires s.consumers[c].phase.Committing? && s.consumers[c].phase.at.partition < |s.offsets|
    ensures Inv(DoCommitOffset(s, c, s.consumers[c], applied, acknowledged), links0)
  {
    hide DatabaseInv, DeadLettersInv, OffsetsInv, LocksInv;
    var t := DoCommitOffset(s, c, s.consumers[c], applied, acknowledged);
    CommitOffsetPieces(s, t, links0, s.consumers[c], t.consumers[c], applied);
    SharedStep(s, t, links0, c, t.consumers[c]);
  }

  // ---------------------------------------------------------------------------------------
  // Every action, every run.

  lemma ExecKeeps(s: State, links0: LinkTable, a: Action)
    requires Inv(s, links0)
    ensures Inv(Exec(s, a), links0)
  {
    hide Inv;
    match a
    case Produce(p, m) => ProduceKeeps(s, links0, p, m);
    case DefineLink(code, link) => DefineLinkKeeps(s, links0, code, link);
    case ResetOffset(p, o) => ResetOffsetKeeps(s, links0, p, o);
    case Join(c) => FreshKeeps(s, links0, c);
    case Crash(c) => FreshKeeps(s, links0, c);
    case Assign(c, p) => AssignKeeps(s, links0, c, p);
    case Revoke(c, p) => RevokeKeeps(s, links0, c, p);
    case Fetch(c, p) => FetchKeeps(s, links0, c, p);
    case Classify(c) => ClassifyKeeps(s, links0, c);
    case Begin(c, reply) => BeginKeeps(s, links0, c, reply);
    case Statement(c, reply) => StatementKeeps(s, links0, c, reply);
    case Rollback(c) => RollbackKeeps(s, links0, c);
    case Unserializable(c) =>
    case Enqueue(c, accepted) => EnqueueKeeps(s, links0, c, accepted);
    case Deliver(c, i, stored, fate) => DeliverKeeps(s, links0, c, i, stored, fate);
    case Report(c, i) => ReportKeeps(s, links0, c, i);
    case EndPublish(c) => EndPublishKeeps(s, links0, c);
    case CommitOffset(c, applied, ack) => CommitOffsetKeeps(s, links0, c, applied, ack);
  }

  lemma {:induction false} RunKeeps(s: State, links0: LinkTable, actions: seq<Action>)
    requires Inv(s, links0)
    ensures Inv(Run(s, actions), links0)
    decreases |actions|
  {
    hide Inv;
    if actions != [] {
      ExecKeeps(s, links0, actions[0]);
      RunKeeps(Exec(s, actions[0]), links0, actions[1..]);
    }
  }

  lemma InitialInv(logs: seq<seq<Message>>, links: LinkTable)
    ensures Inv(Initial(logs, links), links)
  {
    var s := Initial(logs, links);
    assert HistoryOf(s.logs, s.db.receipts) == map[];
    EmptyProjects(links);
  }

  /** The invariant holds in every state of every run of a new consumer group. */
  lemma ReachableInv(logs: seq<seq<Message>>, links: LinkTable, actions: seq<Action>)
    ensures Inv(Run(Initial(logs, links), actions), links)
  {
    InitialInv(logs, links);
    RunKeeps(Initial(logs, links), links, actions);
  }
}
