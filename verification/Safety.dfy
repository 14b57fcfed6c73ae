/**
 The invariant of the consumer protocol: no event is lost, none is counted twice, and no offset
 is committed before its message is settled. And what every action keeps of it in the processes
 and parts of the state it does not touch.
 */
module Safety {
  import opened AccessEvents
  import opened Projection
  import opened Transaction
  import opened Protocol

  // ---------------------------------------------------------------------------------------
  // The invariant.

  /** The message at `at` is accounted for: a dead letter names it, or its event has a receipt. */
  ghost predicate Settled(s: State, at: Source) {
    || (exists d :: d in s.dlq && d.source == at)
    || (AcceptedAt(s.logs, at) && EventAt(s.logs, at).eventId in s.db.receipts)
  }

  /** Why a message may be dead-lettered; an orphan's code was undefined when the run began. */
  predicate Cause(m: Message, reason: Reason, links0: LinkTable) {
    match reason
    case DecodeFailure(error) => m.decoded == Malformed(error)
    case KeyCodeMismatch => m.decoded.Event? && m.key != m.decoded.event.code
    case OrphanShortLink =>
      Accepted(m) && !m.decoded.event.result.NotFound? && m.decoded.event.code !in links0
  }

  predicate Justified(logs: seq<seq<Message>>, links0: LinkTable, d: DeadLetter) {
    && InLog(logs, d.source)
    && d == RecordFor(logs, d.source, d.reason)
    && Cause(MessageAt(logs, d.source), d.reason, links0)
  }

  /** The writes a transaction has issued at each stage. */
  predicate StageMatches(s: State, at: Source, stage: Stage, ws: seq<Write>)
    requires AcceptedAt(s.logs, at)
  {
    var e := EventAt(s.logs, at);
    match stage
    case Begun => ws == []
    case Inserted => ws == [ReceiptWrite(e, at)]
    case Linked(l) => LinkIs(s, e, l) && ws == Program(e, l, at)[..1]
    case Totalled(l) => LinkIs(s, e, l) && ws == Program(e, l, at)[..2]
    case Bucketed(l) => LinkIs(s, e, l) && ws == Program(e, l, at)[..3]
    case Ready(Counted) => e.code in s.links && LinkIs(s, e, s.links[e.code]) && ws == Program(e, s.links[e.code], at)
    case Ready(Duplicate) => ws == [] && e.eventId in s.db.receipts
    case Ready(IgnoredNotFound) => e.result.NotFound? && ws == Program(e, 0, at)
    case Ready(Orphan) => false
  }

  predicate LinkIs(s: State, e: AccessEvent, link: nat) {
    !e.result.NotFound? && e.code in s.links && s.links[e.code] == link
  }

  predicate TxInv(s: State, k: Consumer) {
    match k.phase
    case InTransaction(at, stage) => AcceptedAt(s.logs, at) && k.tx.Some? && StageMatches(s, at, stage, k.tx.value)
    case Aborting(at, orphan) =>
      && AcceptedAt(s.logs, at)
      && (k.tx.Some? && k.tx.value != [] ==> k.tx.value[0] == ReceiptWrite(EventAt(s.logs, at), at))
    case _ => k.tx.None?
  }

  ghost predicate PhaseInv(s: State, links0: LinkTable, k: Consumer) {
    match k.phase
    case Idle => true
    case Handling(at) => true
    case Persisting(at) => AcceptedAt(s.logs, at)
    case InTransaction(at, _) => AcceptedAt(s.logs, at)
    case Aborting(at, orphan) =>
      AcceptedAt(s.logs, at) && (orphan ==> Cause(MessageAt(s.logs, at), OrphanShortLink, links0))
    case Publishing(at, reason, _) => InLog(s.logs, at) && Cause(MessageAt(s.logs, at), reason, links0)
    case Committing(at, settlement) =>
      && Settled(s, at)
      && (settlement.DeadLettered? ==> exists d :: d in s.dlq && d.source == at)
      && (settlement.Wrote? ==> AcceptedAt(s.logs, at) && EventAt(s.logs, at).eventId in s.db.receipts)
  }

  /**
   Only the record being published is ever queued, an acknowledged copy is in the topic, and
   a clean pair of flags means a copy of this very record was acknowledged.
   */
  ghost predicate ProducerInv(s: State, k: Consumer) {
    && (k.producer.queue != [] ==> k.phase.Publishing?)
    && (k.phase.Publishing? && InLog(s.logs, k.phase.at) ==>
          var record := RecordFor(s.logs, k.phase.at, k.phase.reason);
          && (forall copy | copy in k.producer.queue ::
                copy.record == record && (copy.fate.Acked? ==> record in s.dlq))
          && (k.phase.attempted && k.producer.observed && !k.producer.errored ==> record in s.dlq))
  }

  /** Everything below a consumer's position is settled. */
  ghost predicate PositionsInv(s: State, k: Consumer) {
    && (forall p | p in k.positions ::
          && p < |s.logs| && k.positions[p] <= |s.logs[p]|
          && forall o: nat | o < k.positions[p] :: Settled(s, Source(p, o)))
    && (!k.phase.Idle? ==>
          && InLog(s.logs, k.phase.at)
          && k.phase.at.partition in k.positions
          && k.positions[k.phase.at.partition] == k.phase.at.offset)
  }

  ghost predicate ConsumerInv(s: State, links0: LinkTable, k: Consumer) {
    PositionsInv(s, k) && PhaseInv(s, links0, k) && TxInv(s, k) && ProducerInv(s, k)
  }

  ghost predicate OffsetsInv(s: State) {
    && |s.offsets| == |s.logs|
    && forall p: nat | p < |s.logs| ::
         && s.offsets[p] <= |s.logs[p]|
         && forall o: nat | o < s.offsets[p] :: Settled(s, Source(p, o))
  }

  function HistoryOf(logs: seq<seq<Message>>, receipts: map<string, Receipt>): History {
    map id | id in receipts && AcceptedAt(logs, receipts[id].source) :: EventAt(logs, receipts[id].source)
  }

  /** Every receipt points at its message, and the tables are the projection of those messages. */
  ghost predicate DatabaseInv(s: State) {
    && (forall id | id in s.db.receipts ::
          AcceptedAt(s.logs, s.db.receipts[id].source) && EventAt(s.logs, s.db.receipts[id].source).eventId == id)
    && Projects(s.db, s.links, HistoryOf(s.logs, s.db.receipts))
  }

  ghost predicate DeadLettersInv(s: State, links0: LinkTable) {
    forall d | d in s.dlq :: Justified(s.logs, links0, d)
  }

  /** No two open transactions hold the same event id, and none holds an id already committed. */
  ghost predicate LocksInv(s: State) {
    && (forall c, d | c in s.consumers && d in s.consumers && c != d ::
          Held(s.consumers[c]) !! Held(s.consumers[d]))
    && (forall c | c in s.consumers :: Held(s.consumers[c]) !! s.db.receipts.Keys)
  }

  ghost predicate ConsumersInv(s: State, links0: LinkTable) {
    forall c | c in s.consumers :: ConsumerInv(s, links0, s.consumers[c])
  }

  ghost predicate Inv(s: State, links0: LinkTable) {
    && OffsetsInv(s)
    && DatabaseInv(s)
    && DeadLettersInv(s, links0)
    && ConsumersInv(s, links0)
    && LocksInv(s)
    && (forall code | code in links0 :: code in s.links)
  }

  // ---------------------------------------------------------------------------------------
  // What every action keeps.

  predicate LogsGrow(old_: seq<seq<Message>>, new_: seq<seq<Message>>) {
    |old_| == |new_| && forall p: nat | p < |old_| :: old_[p] <= new_[p]
  }

  /** Logs, links, receipts and dead letters are only ever added to. */
  ghost predicate Grows(s: State, t: State) {
    && LogsGrow(s.logs, t.logs)
    && (forall code | code in s.links :: code in t.links && t.links[code] == s.links[code])
    && s.db.receipts.Keys <= t.db.receipts.Keys
    && (forall d | d in s.dlq :: d in t.dlq)
  }

  lemma LogIsKept(s: State, t: State, at: Source)
    requires LogsGrow(s.logs, t.logs) && InLog(s.logs, at)
    ensures InLog(t.logs, at) && MessageAt(t.logs, at) == MessageAt(s.logs, at)
  {
    assert s.logs[at.partition] <= t.logs[at.partition];
  }

  lemma SettledIsKept(s: State, t: State, at: Source)
    requires Grows(s, t) && Settled(s, at)
    ensures Settled(t, at)
  {
    if InLog(s.logs, at) {
      LogIsKept(s, t, at);
    }
  }

  lemma PositionsKept(s: State, t: State, k: Consumer)
    requires Grows(s, t) && PositionsInv(s, k)
    ensures PositionsInv(t, k)
  {
    forall p | p in k.positions
      ensures p < |t.logs| && k.positions[p] <= |t.logs[p]|
              && forall o: nat | o < k.positions[p] :: Settled(t, Source(p, o))
    {
      assert s.logs[p] <= t.logs[p];
      forall o: nat | o < k.positions[p] ensures Settled(t, Source(p, o)) {
        SettledIsKept(s, t, Source(p, o));
      }
    }
    if !k.phase.Idle? {
      LogIsKept(s, t, k.phase.at);
    }
  }

  lemma PhaseKept(s: State, t: State, links0: LinkTable, k: Consumer)
    requires Grows(s, t) && PositionsInv(s, k) && PhaseInv(s, links0, k)
    ensures PhaseInv(t, links0, k)
  {
    if !k.phase.Idle? {
      LogIsKept(s, t, k.phase.at);
    }
    if k.phase.Committing? {
      SettledIsKept(s, t, k.phase.at);
    }
  }

  lemma TxKept(s: State, t: State, k: Consumer)
    requires Grows(s, t) && PositionsInv(s, k) && TxInv(s, k)
    ensures TxInv(t, k)
  {
    if k.phase.InTransaction? || k.phase.Aborting? {
      LogIsKept(s, t, k.phase.at);
    }
  }

  lemma ProducerKept(s: State, t: State, k: Consumer)
    requires Grows(s, t) && PositionsInv(s, k) && ProducerInv(s, k)
    ensures ProducerInv(t, k)
  {
    if k.phase.Publishing? {
      LogIsKept(s, t, k.phase.at);
    }
  }

  /** Nothing another process does can invalidate a consumer's own state. */
  lemma ConsumerKept(s: State, t: State, links0: LinkTable, k: Consumer)
    requires Grows(s, t) && ConsumerInv(s, links0, k)
    ensures ConsumerInv(t, links0, k)
  {
    PositionsKept(s, t, k);
    PhaseKept(s, t, links0, k);
    TxKept(s, t, k);
    ProducerKept(s, t, k);
  }

  lemma OffsetsKept(s: State, t: State)
    requires Grows(s, t) && OffsetsInv(s) && t.offsets == s.offsets
    ensures OffsetsInv(t)
  {
    forall p: nat | p < |t.logs|
      ensures t.offsets[p] <= |t.logs[p]| && forall o: nat | o < t.offsets[p] :: Settled(t, Source(p, o))
    {
      assert s.logs[p] <= t.logs[p];
      forall o: nat | o < t.offsets[p] ensures Settled(t, Source(p, o)) {
        SettledIsKept(s, t, Source(p, o));
      }
    }
  }

  lemma DeadLettersKept(s: State, t: State, links0: LinkTable)
    requires Grows(s, t) && DeadLettersInv(s, links0) && t.dlq == s.dlq
    ensures DeadLettersInv(t, links0)
  {
    forall d | d in t.dlq ensures Justified(t.logs, links0, d) {
      assert Justified(s.logs, links0, d);
      LogIsKept(s, t, d.source);
    }
  }

  lemma HistoryKept(s: State, t: State)
    requires Grows(s, t) && DatabaseInv(s) && t.db == s.db
    ensures HistoryOf(t.logs, t.db.receipts) == HistoryOf(s.logs, s.db.receipts)
    ensures forall id | id in t.db.receipts ::
              AcceptedAt(t.logs, t.db.receipts[id].source) && EventAt(t.logs, t.db.receipts[id].source).eventId == id
  {
    forall id | id in s.db.receipts
      ensures AcceptedAt(t.logs, s.db.receipts[id].source)
      ensures EventAt(t.logs, s.db.receipts[id].source) == EventAt(s.logs, s.db.receipts[id].source)
    {
      LogIsKept(s, t, s.db.receipts[id].source);
    }
  }

  lemma DatabaseKept(s: State, t: State)
    requires Grows(s, t) && DatabaseInv(s) && t.db == s.db && t.links == s.links
    ensures DatabaseInv(t)
  {
    HistoryKept(s, t);
  }

  /** Putting one changed consumer back: the others are kept, and its locks are checked. */
  lemma ConsumersAfter(s: State, t: State, links0: LinkTable, c: nat, k: Consumer)
    requires ConsumersInv(s, links0) && Grows(s, t)
    requires t.consumers == s.consumers[c := k]
    requires ConsumerInv(t, links0, k)
    ensures ConsumersInv(t, links0)
  {
    forall d | d in t.consumers ensures ConsumerInv(t, links0, t.consumers[d]) {
      if d != c { ConsumerKept(s, t, links0, s.consumers[d]); }
    }
  }

  lemma LocksAfter(s: State, t: State, c: nat, k: Consumer)
    requires LocksInv(s) && t.consumers == s.consumers[c := k] && t.db.receipts == s.db.receipts
    requires Held(k) <= (if c in s.consumers then Held(s.consumers[c]) else {})
    ensures LocksInv(t)
  {
    forall d | d in t.consumers && d != c ensures Held(k) !! Held(t.consumers[d]) {
      assert t.consumers[d] == s.consumers[d];
      if c in s.consumers { assert Held(s.consumers[c]) !! Held(s.consumers[d]); }
    }
    forall a, b | a in t.consumers && b in t.consumers && a != b ensures Held(t.consumers[a]) !! Held(t.consumers[b]) {
      if a != c && b != c { assert Held(s.consumers[a]) !! Held(s.consumers[b]); }
    }
    forall a | a in t.consumers ensures Held(t.consumers[a]) !! t.db.receipts.Keys {
      if a != c { assert Held(s.consumers[a]) !! s.db.receipts.Keys; }
      else if c in s.consumers { assert Held(s.consumers[c]) !! s.db.receipts.Keys; }
    }
  }

  /** An action that changes one consumer only, and takes no new lock. */
  lemma LocalStep(s: State, links0: LinkTable, c: nat, k: Consumer)
    requires Inv(s, links0) && ConsumerInv(s, links0, k)
    requires Held(k) <= (if c in s.consumers then Held(s.consumers[c]) else {})
    ensures Inv(With(s, c, k), links0)
  {
    var t := With(s, c, k);
    assert Grows(s, t);
    ConsumerKept(s, t, links0, k);
    ConsumersAfter(s, t, links0, c, k);
    LocksAfter(s, t, c, k);
    OffsetsKept(s, t);
    DatabaseKept(s, t);
    DeadLettersKept(s, t, links0);
  }
}
