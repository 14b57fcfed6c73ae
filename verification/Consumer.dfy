/** Counters and lag gauge of a consumer process. */
module Metrics {
  datatype MessageResult = Aggregated | Duplicate | Ignored | Dlq | Error

  datatype RetryOperation = Mysql | OffsetCommit | DlqPublish

  datatype DlqResult = Success | Failure

  /** A gauge per partition. */
  type Gauge = map<nat, int>

  class ConsumerMetrics {
    var messages: map<MessageResult, nat>
    var retries: map<RetryOperation, nat>
    var dlq: map<DlqResult, nat>
    var lag: Gauge

    ghost predicate Valid()
      reads this
    {
      && (forall r: MessageResult :: r in messages)
      && (forall r: RetryOperation :: r in retries)
      && (forall r: DlqResult :: r in dlq)
    }

    constructor ()
      ensures Valid() && lag == map[]
      ensures forall r: MessageResult :: messages[r] == 0
      ensures forall r: RetryOperation :: retries[r] == 0
      ensures forall r: DlqResult :: dlq[r] == 0
    {
      messages := map[MessageResult.Aggregated := 0, MessageResult.Duplicate := 0, MessageResult.Ignored := 0,
                      MessageResult.Dlq := 0, MessageResult.Error := 0];
      retries := map[Mysql := 0, OffsetCommit := 0, DlqPublish := 0];
      dlq := map[DlqResult.Success := 0, DlqResult.Failure := 0];
      lag := map[];
      new;
      forall r: MessageResult ensures r in messages && messages[r] == 0 {
        match r
        case Aggregated =>
        case Duplicate =>
        case Ignored =>
        case Dlq =>
        case Error =>
      }
      forall r: RetryOperation ensures r in retries && retries[r] == 0 {
        match r
        case Mysql =>
        case OffsetCommit =>
        case DlqPublish =>
      }
      forall r: DlqResult ensures r in dlq && dlq[r] == 0 {
        match r
        case Success =>
        case Failure =>
      }
    }

    /** Messages handled to the end: everything but the final error. */
    function Handled(): nat
      reads this
      requires Valid()
    {
      messages[MessageResult.Aggregated] + messages[MessageResult.Duplicate]
        + messages[MessageResult.Ignored] + messages[MessageResult.Dlq]
    }

    method RecordMessage(r: MessageResult)
      requires Valid()
      modifies this`messages
      ensures Valid() && messages == old(messages)[r := old(messages[r]) + 1]
    {
      messages := messages[r := messages[r] + 1];
    }

    method RecordRetry(r: RetryOperation)
      requires Valid()
      modifies this`retries
      ensures Valid() && retries == old(retries)[r := old(retries[r]) + 1]
    {
      retries := retries[r := retries[r] + 1];
    }

    method RecordDlq(r: DlqResult)
      requires Valid()
      modifies this`dlq
      ensures Valid() && dlq == old(dlq)[r := old(dlq[r]) + 1]
    {
      dlq := dlq[r := dlq[r] + 1];
    }

    method SetLag(partition: nat, value: int)
      modifies this`lag
      ensures lag == old(lag)[partition := value]
    {
      lag := lag[partition := value];
    }

    method ReplaceLag(values: Gauge)
      modifies this`lag
      ensures lag == values
    {
      lag := values;
    }
  }
}

/**
 The consumer process, written as the program is: a writer that issues the statements of one
 transaction, a dead-letter publisher, and a message handler with its retry loops. Each
 method is proved to extend a run of the protocol, whatever the environment's choices.
 */
module Consumer {
  import opened Options
  import opened AccessEvents
  import opened Projection
  import opened Transaction
  import opened Protocol
  import opened Safety
  import opened Preservation
  import opened ConsumerTheorems
  import opened World
  import opened Metrics

  datatype ProcessResult = Written(outcome: Outcome) | OrphanThrown | Threw

  /** What an attempt that nothing disturbs makes of the event: exactly its atomic application. */
  predicate Decided(s: State, t: State, at: Source, e: AccessEvent, r: ProcessResult) {
    match r
    case Written(outcome) => !outcome.Orphan? && ApplyEvent(s.db, s.links, e, at) == Applied(t.db, outcome)
    case OrphanThrown => ApplyEvent(s.db, s.links, e, at) == Applied(t.db, Orphan)
    case Threw => false
  }

  /** Every call to come is answered, nobody else moves, and no other session holds the event id. */
  predicate Undisturbed(env: Environment, id: string)
    reads env
  {
    Calm(env.schedule) && !LockedByOther(env.state, env.me, id)
  }

  /** A written outcome agrees with the event: only not-found events are ignored, no orphan is written. */
  predicate Fits(outcome: Outcome, event: AccessEvent) {
    match outcome
    case Counted => !event.result.NotFound?
    case Duplicate => true
    case IgnoredNotFound => event.result.NotFound?
    case Orphan => false
  }

  // ---------------------------------------------------------------------------------------
  // MySQL.

  /**
   Where the next statement leads when it executes and is answered. No table changes before
   COMMIT, and COMMIT is the one atomic application of the event, with that outcome.
   */
  predicate Foreseen(s: State, t: State, c: nat, at: Source, stage: Stage, e: AccessEvent)
    requires c in t.consumers
  {
    && (!stage.Ready? ==> t.db == s.db)
    && match stage
       case Begun =>
         t.consumers[c].phase == InTransaction(at, if e.eventId in s.db.receipts then Ready(Outcome.Duplicate) else Inserted)
       case Inserted =>
         t.consumers[c].phase
         == if e.result.NotFound? then InTransaction(at, Ready(IgnoredNotFound))
            else if e.code in s.links then InTransaction(at, Linked(s.links[e.code]))
            else Aborting(at, true)
       case Linked(link) => t.consumers[c].phase == InTransaction(at, Totalled(link))
       case Totalled(link) => t.consumers[c].phase == InTransaction(at, Bucketed(link))
       case Bucketed(link) => t.consumers[c].phase == InTransaction(at, Ready(Counted))
       case Ready(outcome) =>
         && t.consumers[c].phase == Committing(at, Wrote(outcome))
         && ApplyEvent(s.db, s.links, e, at) == Applied(t.db, outcome)
  }

  /** Where a statement leaves the process that issued it. */
  lemma StatementLeads(s: State, links0: LinkTable, c: nat, at: Source, stage: Stage, reply: Reply)
    requires Inv(s, links0) && c in s.consumers && ConsumerInv(s, links0, s.consumers[c])
    requires s.consumers[c].phase == InTransaction(at, stage)
    requires reply.Ok? && stage.Begun? ==> !LockedByOther(s, c, EventAt(s.logs, at).eventId)
    ensures var t := Exec(s, Statement(c, reply));
            && c in t.consumers
            && (if reply.Ok? then Foreseen(s, t, c, at, stage, EventAt(s.logs, at))
                else t.consumers[c].phase == Aborting(at, false))
  {
    hide Inv, LockedByOther;
    if stage.Ready? {
      LocksOf(s, links0, c);
      ReadyWritesAreApply(s, links0, s.consumers[c]);
    }
  }

  /** Where an offset commit leaves the process that issued it. */
  lemma CommitLeads(s: State, links0: LinkTable, c: nat, at: Source, applied: bool, acknowledged: bool)
    requires Inv(s, links0) && c in s.consumers
    requires s.consumers[c].phase.Committing? && s.consumers[c].phase.at == at
    ensures var t := Exec(s, CommitOffset(c, applied, acknowledged));
            c in t.consumers && t.db == s.db && t.consumers[c].phase == if applied && acknowledged then Idle else s.consumers[c].phase
  {
    assert ConsumerInv(s, links0, s.consumers[c]);
  }

  /** The branch a handler takes on its message: persist what is accepted, dead-letter the rest. */
  lemma ClassifyLeads(s: State, links0: LinkTable, c: nat, at: Source)
    requires c in s.consumers && ConsumerInv(s, links0, s.consumers[c]) && s.consumers[c].phase == Handling(at)
    ensures InLog(s.logs, at)
    ensures var t := Exec(s, Classify(c));
            && c in t.consumers && t.logs == s.logs && t.db == s.db && t.links == s.links
            && (if AcceptedAt(s.logs, at) then t.consumers[c].phase == Persisting(at)
                else t.consumers[c].phase.Publishing? && t.consumers[c].phase.at == at && !t.consumers[c].phase.attempted)
  {
  }

  /** One database session. A statement either executes and answers, or throws. */
  class DbConnection {
    const env: Environment

    constructor (env: Environment)
      ensures this.env == env
    {
      this.env := env;
    }

    method StartTransaction(ghost at: Source) returns (executed: bool)
      requires env.Valid() && env.Where() == Persisting(at)
      modifies env
      ensures executed == Head(old(env.schedule)).reply.Ok?
      ensures env.Advanced(0, if executed then 0 else 1) && env.schedule == Rest(old(env.schedule), 1)
      ensures env.Did() == [Begin(env.me, Head(old(env.schedule)).reply)]
      ensures env.Where() == if executed then InTransaction(at, Begun) else Persisting(at)
      ensures old(Calm(env.schedule)) ==> executed && env.state.db == old(env.state.db)
    {
      hide TallyOf, HandedOut, OwnPart, Inv, Calm, Rest, Head, Foreign, Reach, Others, Grows, LockedByOther,
           RecordFor;
      var turn := env.Await();
      label awaited:
      env.Act(Begin(env.me, turn.reply));
      GrowsTransitive(old(env.state), old@awaited(env.state), env.state);
      OwnSinceTransitive(old(env.actions), old@awaited(env.actions), env.actions, env.me);
      executed := turn.reply.Ok?;
    }

    /** The next statement; waiting too long for a row lock is a refusal. */
    method Execute(ghost at: Source, ghost stage: Stage, event: AccessEvent, sql: Sql) returns (executed: bool)
      requires env.Valid() && env.Where() == InTransaction(at, stage)
      requires AcceptedAt(env.state.logs, at) && EventAt(env.state.logs, at) == event
      requires sql == NextSql(event, at, stage)
      modifies env
      ensures env.Advanced(0, if executed then 0 else 1) && env.schedule == Rest(old(env.schedule), 1)
      ensures var turn := Head(old(env.schedule));
              var waited := stage.Begun? && LockedByOther(old(env.Next()), env.me, event.eventId);
              && executed == (turn.reply.Ok? && !waited)
              && env.Did() == [Statement(env.me, if turn.reply.Ok? && waited then Refused else turn.reply)]
      ensures if executed then Foreseen(old(env.Next()), env.state, env.me, at, stage, event)
              else env.Where() == Aborting(at, false)
      ensures Grows(old(env.state), old(env.Next()))
      ensures old(Calm(env.schedule)) ==> old(env.Next()) == old(env.state) && Head(old(env.schedule)).reply.Ok?
    {
      hide Inv, ConsumerInv, Exec, Foreseen, LockedByOther, TallyOf, HandedOut, OwnPart, Calm, Rest, Foreign, Reach,
           RecordFor, Held, Others, Grows;
      var turn := env.Await();
      label awaited:
      MessageIsKept(old(env.state), env.state, at);
      env.Invariant();
      var blocked := env.Where().stage.Begun? && LockedByOther(env.state, env.me, event.eventId);
      var reply := if turn.reply.Ok? && blocked then Refused else turn.reply;
      StatementLeads(env.state, env.links0, env.me, at, stage, reply);
      env.Act(Statement(env.me, reply));
      GrowsTransitive(old(env.state), old@awaited(env.state), env.state);
      OwnSinceTransitive(old(env.actions), old@awaited(env.actions), env.actions, env.me);
      executed := reply.Ok?;
    }

    /** A failed ROLLBACK ends the session; either way nothing stays open. */
    method Rollback(ghost at: Source, ghost orphan: bool)
      requires env.Valid() && env.Where() == Aborting(at, orphan)
      modifies env
      ensures env.Advanced(0) && env.Did() == [Action.Rollback(env.me)] && env.schedule == Rest(old(env.schedule), 1)
      ensures env.Where() == if orphan then Publishing(at, OrphanShortLink, false) else Persisting(at)
      ensures env.state.consumers[env.me].tx.None?
      ensures old(Calm(env.schedule)) ==> env.state.db == old(env.state.db)
    {
      hide TallyOf, HandedOut, OwnPart, Inv, Calm, Rest, Head, Foreign, Reach, Others, Grows, LockedByOther,
           RecordFor;
      var _ := env.Await();
      label awaited:
      env.Act(Action.Rollback(env.me));
      GrowsTransitive(old(env.state), old@awaited(env.state), env.state);
      OwnSinceTransitive(old(env.actions), old@awaited(env.actions), env.actions, env.me);
    }
  }

  lemma LinkIsKept(s: State, t: State, code: string)
    requires Grows(s, t)
    ensures code in s.links ==> code in t.links
  {
  }

  const NOTHING := Spent(0, 0, 0, 0)
  const ONE_FAILURE := Spent(0, 1, 0, 0)
  const ONE_REFUSED := Spent(0, 0, 1, 0)
  const ONE_ATTEMPT := Spent(0, 0, 0, 1)
  const ONE_COMMIT := Spent(1, 0, 0, 0)

  class AccessStatisticsWriter {
    const connection: DbConnection

    constructor (connection: DbConnection)
      ensures this.connection == connection
    {
      this.connection := connection;
    }

    /** The guarded statements of one transaction; on a throw the transaction is left to roll back. */
    method TryStatements(event: AccessEvent, source: Source) returns (r: ProcessResult)
      requires connection.env.Valid() && connection.env.Where() == InTransaction(source, Begun)
      requires AcceptedAt(connection.env.state.logs, source) && EventAt(connection.env.state.logs, source) == event
      modifies connection.env
      ensures connection.env.Advanced(0, if r.Threw? then 1 else 0)
      ensures match r
              case Written(outcome) =>
                connection.env.Where() == Committing(source, Wrote(outcome)) && Fits(outcome, event)
              case OrphanThrown => connection.env.Where() == Aborting(source, true)
              case Threw => connection.env.Where() == Aborting(source, false)
      ensures old(event.eventId in connection.env.state.db.receipts) ==> r.Threw? || r == Written(Outcome.Duplicate)
      ensures r.OrphanThrown? ==> !event.result.NotFound? && event.code !in old(connection.env.state.links)
      ensures old(Undisturbed(connection.env, event.eventId)) ==>
                Decided(old(connection.env.state), connection.env.state, source, event, r)
    {
      hide Inv, Exec, Run, TallyOf, HandedOut, OwnPart, OwnSince, LockedByOther, Advance, Calm, Head, Rest, Reach,
           Foreign, ConsumerInv, Held, RecordFor;
      var env := connection.env;
      ghost var m0 := env.Now();
      var ok := connection.Execute(source, Begun, event,
                                   Sql.Write(InsertReceipt(event.eventId, Receipt(source, event.occurredAtMs, Received))));
      if !ok { return Threw; }
      ghost var m1 := env.Now();
      MessageStays(m0, m1, env.me, NOTHING, source);
      if Calm(m0.schedule) { CalmStays(m0, m1, env.me, NOTHING, event.eventId); }
      if env.Where().stage.Ready? {
        ok := connection.Execute(source, Ready(Outcome.Duplicate), event, Commit);
        Then(m0, m1, env.Now(), env.me, NOTHING, if ok then NOTHING else ONE_FAILURE);
        return if ok then Written(Outcome.Duplicate) else Threw;
      }

      r := Mark(event, source);
      Then(m0, m1, env.Now(), env.me, NOTHING, if r.Threw? then ONE_FAILURE else NOTHING);
    }

    /** After the receipt: ignore a not-found event, look up the link of any other. */
    method Mark(event: AccessEvent, source: Source) returns (r: ProcessResult)
      requires connection.env.Valid() && connection.env.Where() == InTransaction(source, Inserted)
      requires AcceptedAt(connection.env.state.logs, source) && EventAt(connection.env.state.logs, source) == event
      modifies connection.env
      ensures connection.env.Advanced(0, if r.Threw? then 1 else 0)
      ensures match r
              case Written(outcome) =>
                && connection.env.Where() == Committing(source, Wrote(outcome)) && Fits(outcome, event)
                && !outcome.Duplicate?
              case OrphanThrown => connection.env.Where() == Aborting(source, true)
              case Threw => connection.env.Where() == Aborting(source, false)
      ensures r.OrphanThrown? ==> !event.result.NotFound? && event.code !in old(connection.env.state.links)
      ensures old(Calm(connection.env.schedule)) && event.eventId !in old(connection.env.state.db.receipts) ==>
                Decided(old(connection.env.state), connection.env.state, source, event, r)
    {
      hide Inv, Exec, Run, TallyOf, HandedOut, OwnPart, OwnSince, LockedByOther, Advance, Calm, Head, Rest, Reach,
           Foreign, Grows, ConsumerInv, Held, RecordFor;
      var env := connection.env;
      ghost var m0 := env.Now();
      var ok := connection.Execute(source, Inserted, event,
                                   if event.result.NotFound? then Sql.Write(SetDisposition(event.eventId, NotFoundIgnored))
                                   else SelectLink(event.code));
      if !ok { return Threw; }
      LinkIsKept(m0.state, old(env.Next()), event.code);
      ghost var m1 := env.Now();
      MessageStays(m0, m1, env.me, NOTHING, source);
      if Calm(m0.schedule) { CalmStays(m0, m1, env.me, NOTHING, event.eventId); }
      if event.result.NotFound? {
        ok := connection.Execute(source, Ready(IgnoredNotFound), event, Commit);
        Then(m0, m1, env.Now(), env.me, NOTHING, if ok then NOTHING else ONE_FAILURE);
        return if ok then Written(IgnoredNotFound) else Threw;
      }
      if env.Where().Aborting? { return OrphanThrown; }

      var link := env.Where().stage.link;
      r := Aggregate(event, source, link);
      Then(m0, m1, env.Now(), env.me, NOTHING, if r.Threw? then ONE_FAILURE else NOTHING);
    }

    /** The two upserts, the receipt's final disposition and COMMIT. */
    method Aggregate(event: AccessEvent, source: Source, link: nat) returns (r: ProcessResult)
      requires connection.env.Valid() && connection.env.Where() == InTransaction(source, Linked(link))
      requires AcceptedAt(connection.env.state.logs, source) && EventAt(connection.env.state.logs, source) == event
      modifies connection.env
      ensures connection.env.Advanced(0, if r.Threw? then 1 else 0)
      ensures (r == Written(Counted) && connection.env.Where() == Committing(source, Wrote(Counted)))
              || (r == Threw && connection.env.Where() == Aborting(source, false))
      ensures old(Calm(connection.env.schedule)) ==>
                Decided(old(connection.env.state), connection.env.state, source, event, r)
    {
      hide Inv, Exec, Run, TallyOf, HandedOut, OwnPart, OwnSince, LockedByOther, Advance, Calm, Head, Rest, Reach,
           Foreign, ApplyEvent;
      var env := connection.env;
      ghost var m0 := env.Now();
      var bucketStart := UtcHourBucketStart(event.occurredAtMs).value;
      var ok := connection.Execute(source, Linked(link), event,
                                   Sql.Write(UpsertTotal(TotalKey(link, event.result), event.occurredAtMs)));
      if !ok { return Threw; }
      ghost var m1 := env.Now();
      MessageStays(m0, m1, env.me, NOTHING, source);
      if Calm(m0.schedule) { CalmStays(m0, m1, env.me, NOTHING, event.eventId); }
      ok := connection.Execute(source, Totalled(link), event,
                               Sql.Write(UpsertHour(HourKey(link, bucketStart, event.result))));
      ghost var m2 := env.Now();
      Then(m0, m1, m2, env.me, NOTHING, if ok then NOTHING else ONE_FAILURE);
      if !ok { return Threw; }
      MessageStays(m0, m2, env.me, NOTHING, source);
      if Calm(m0.schedule) { CalmStays(m0, m2, env.me, NOTHING, event.eventId); }
      r := Finish(event, source, link);
      Then(m0, m2, env.Now(), env.me, NOTHING, if r.Threw? then ONE_FAILURE else NOTHING);
    }

    /** The receipt's final disposition and COMMIT. */
    method Finish(event: AccessEvent, source: Source, ghost link: nat) returns (r: ProcessResult)
      requires connection.env.Valid() && connection.env.Where() == InTransaction(source, Bucketed(link))
      requires AcceptedAt(connection.env.state.logs, source) && EventAt(connection.env.state.logs, source) == event
      modifies connection.env
      ensures connection.env.Advanced(0, if r.Threw? then 1 else 0)
      ensures (r == Written(Counted) && connection.env.Where() == Committing(source, Wrote(Counted)))
              || (r == Threw && connection.env.Where() == Aborting(source, false))
      ensures old(Calm(connection.env.schedule)) ==>
                Decided(old(connection.env.state), connection.env.state, source, event, r)
    {
      hide Inv, Exec, Run, TallyOf, HandedOut, OwnPart, OwnSince, LockedByOther, Advance, Calm, Head, Rest, Reach,
           Foreign, ApplyEvent;
      var env := connection.env;
      ghost var m0 := env.Now();
      var ok := connection.Execute(source, Bucketed(link), event,
                                   Sql.Write(SetDisposition(event.eventId, Disposition.Aggregated)));
      if !ok { return Threw; }
      ghost var m1 := env.Now();
      MessageStays(m0, m1, env.me, NOTHING, source);
      if Calm(m0.schedule) { CalmStays(m0, m1, env.me, NOTHING, event.eventId); }
      ok := connection.Execute(source, Ready(Counted), event, Commit);
      Then(m0, m1, env.Now(), env.me, NOTHING, if ok then NOTHING else ONE_FAILURE);
      return if ok then Written(Counted) else Threw;
    }

    /** One attempt to persist an event: the whole transaction, rolled back on any throw. */
    method Process(event: AccessEvent, source: Source) returns (r: ProcessResult)
      requires connection.env.Valid() && connection.env.Where() == Persisting(source)
      requires AcceptedAt(connection.env.state.logs, source) && EventAt(connection.env.state.logs, source) == event
      modifies connection.env
      ensures connection.env.Advanced(0, if r.Threw? then 1 else 0)
      ensures match r
              case Written(outcome) =>
                && connection.env.Where() == Committing(source, Wrote(outcome))
                && event.eventId in connection.env.state.db.receipts && Fits(outcome, event)
              case OrphanThrown => connection.env.Where() == Publishing(source, OrphanShortLink, false)
              case Threw => connection.env.Where() == Persisting(source)
      ensures old(event.eventId in connection.env.state.db.receipts) ==> r.Threw? || r == Written(Outcome.Duplicate)
      ensures r.OrphanThrown? ==> !event.result.NotFound? && event.code !in old(connection.env.state.links)
      ensures old(Undisturbed(connection.env, event.eventId)) ==>
                Decided(old(connection.env.state), connection.env.state, source, event, r)
    {
      hide Inv, Exec, Run, TallyOf, HandedOut, OwnPart, OwnSince, LockedByOther, Advance, Calm, Head, Rest, Reach,
           Foreign, ApplyEvent;
      var env := connection.env;
      ghost var m0 := env.Now();
      var ok := connection.StartTransaction(source);
      if !ok { return Threw; }
      ghost var m1 := env.Now();
      MessageStays(m0, m1, env.me, NOTHING, source);
      if Calm(m0.schedule) { CalmStays(m0, m1, env.me, NOTHING, event.eventId); }
      r := TryStatements(event, source);
      ghost var m2 := env.Now();
      ghost var failed := if r.Threw? then ONE_FAILURE else NOTHING;
      Then(m0, m1, m2, env.me, NOTHING, failed);
      if Calm(m0.schedule) { CalmStays(m0, m2, env.me, failed, event.eventId); }
      if !r.Written? {
        connection.Rollback(source, r.OrphanThrown?);
        Then(m0, m2, env.Now(), env.me, failed, NOTHING);
      } else {
        MessageStays(m0, m2, env.me, failed, source);
        CommittedIsReceipted(env, source);
      }
    }

    lemma CommittedIsReceipted(env: Environment, source: Source)
      requires env.Valid() && env.Where().Committing? && env.Where().settlement.Wrote? && env.Where().at == source
      ensures AcceptedAt(env.state.logs, source) && EventAt(env.state.logs, source).eventId in env.state.db.receipts
    {
      env.Invariant();
    }
  }

  // ---------------------------------------------------------------------------------------
  // The dead-letter topic.

  /** An attempt clears the flags and stays with its record. */
  lemma EnqueueLeads(s: State, c: nat, at: Source, reason: Reason, accepted: bool)
    requires c in s.consumers && s.consumers[c].phase.Publishing? && InLog(s.logs, at)
    requires s.consumers[c].phase.at == at && s.consumers[c].phase.reason == reason
    ensures var t := Exec(s, Enqueue(c, accepted));
            && c in t.consumers && t.consumers[c].phase == Publishing(at, reason, true)
            && !t.consumers[c].producer.observed && !t.consumers[c].producer.errored
  {
  }

  lemma MessageInHandIsInLog(s: State, links0: LinkTable, c: nat)
    requires c in s.consumers && ConsumerInv(s, links0, s.consumers[c]) && !s.consumers[c].phase.Idle?
    ensures InLog(s.logs, s.consumers[c].phase.at)
  {
  }

  /** A callback, late or not, leaves the process with its record. */
  lemma ReportLeads(s: State, c: nat, i: nat)
    requires c in s.consumers && s.consumers[c].phase.Publishing?
    ensures var t := Exec(s, Report(c, i));
            c in t.consumers && t.consumers[c].phase == s.consumers[c].phase
  {
  }

  lemma EndPublishLeads(s: State, c: nat, at: Source, reason: Reason)
    requires c in s.consumers && s.consumers[c].phase == Publishing(at, reason, true)
    requires s.consumers[c].producer == Producer([], true, false)
    ensures var t := Exec(s, EndPublish(c));
            && t.logs == s.logs && t.dlq == s.dlq && c in t.consumers
            && t.consumers[c].phase == Committing(at, DeadLettered) && t.consumers[c].producer == s.consumers[c].producer
  {
  }

  /** Clean flags of an attempt prove that this record was acknowledged. */
  lemma CleanFlagsMeanDelivered(s: State, links0: LinkTable, c: nat, at: Source, reason: Reason)
    requires c in s.consumers && ConsumerInv(s, links0, s.consumers[c])
    requires s.consumers[c].phase == Publishing(at, reason, true) && s.consumers[c].producer == Producer([], true, false)
    ensures InLog(s.logs, at) && RecordFor(s.logs, at, reason) in s.dlq
  {
  }

  lemma FetchLeads(s: State, c: nat, partition: nat)
    requires c in s.consumers && s.consumers[c].phase.Idle?
    ensures var t, at := Exec(s, Fetch(c, partition)), s.consumers[c].positions;
            && c in t.consumers && t.logs == s.logs
            && t.consumers[c].phase == if HandsOut(s, Fetch(c, partition), c) then Handling(Source(partition, at[partition])) else Idle
  {
  }

  lemma RebalanceLeads(s: State, c: nat, partition: nat, gained: bool)
    requires c in s.consumers && s.consumers[c].phase.Idle?
    ensures var t := Exec(s, if gained then Assign(c, partition) else Revoke(c, partition));
            && c in t.consumers && t.consumers[c].phase.Idle? && t.offsets == s.offsets
            && t.consumers[c].positions
               == if !gained then s.consumers[c].positions - {partition}
                  else if partition < |s.offsets| then s.consumers[c].positions[partition := s.offsets[partition]]
                  else s.consumers[c].positions
  {
  }

  /** The delivery callbacks of a flush, in the order they are served. */
  function Callbacks(c: nat, served: seq<nat>): seq<Action> {
    if served == [] then [] else Callbacks(c, served[..|served| - 1]) + [Report(c, served[|served| - 1])]
  }

  /** One report for each callback, in the order given. */
  lemma {:induction false} CallbacksInOrder(c: nat, served: seq<nat>, i: nat)
    requires i < |served|
    ensures |Callbacks(c, served)| == |served| && Callbacks(c, served)[i] == Report(c, served[i])
    decreases |served|
  {
    var n := |served| - 1;
    if n > 0 { CallbacksInOrder(c, served[..n], if i < n then i else 0); }
  }

  class KafkaDeadLetterPublisher {
    const env: Environment

    constructor (env: Environment)
      ensures this.env == env
    {
      this.env := env;
    }

    /**
     One attempt: clear the flags, hand a copy to the producer, flush, and trust the flags only
     when the queue is empty. `served` picks the callbacks each flush gets to run, which may
     belong to copies of earlier attempts. Success is reported exactly if the producer took the
     copy, the flush emptied the queue and the last callback brought no error. What the process
     did is fixed by how its call of the producer ended.
     */
    method Publish(at: Source, reason: Reason) returns (delivered: bool)
      requires env.Valid() && env.Where().Publishing? && env.Where().at == at && env.Where().reason == reason
      modifies env
      ensures env.Advanced(0, 0, 0, 1)
      ensures var turn := Head(old(env.schedule));
              env.Did() == match turn.reply
                           case Aborted => [Unserializable(env.me)]
                           case Ok =>
                             [Enqueue(env.me, true)] + Callbacks(env.me, turn.served)
                               + (if delivered then [EndPublish(env.me)] else [])
                           case _ => [Enqueue(env.me, false)]
      ensures delivered <==> Head(old(env.schedule)).reply.Ok? && env.state.consumers[env.me].producer == Producer([], true, false)
      ensures delivered ==> env.Where() == Committing(at, DeadLettered)
      ensures delivered ==> InLog(env.state.logs, at) && RecordFor(env.state.logs, at, reason) in env.state.dlq
      ensures !delivered ==> env.Where().Publishing? && env.Where().at == at && env.Where().reason == reason
    {
      hide Inv, ConsumerInv, Exec, Grows, Own, TallyOf, HandedOut, OwnPart, OwnSince, Others, Run, Advance, Foreign,
           Reach;
      ghost var m0 := env.Now();
      var produced, served := Produce(at, reason);
      if !produced {
        return false;
      }
      ghost var m1 := env.Now();
      var flushed := Flush(at, reason, served);
      ghost var m2 := env.Now();
      Then(m0, m1, m2, env.me, ONE_ATTEMPT, NOTHING);
      if !flushed {
        return false;
      }
      delivered := Conclude(at, reason);
      Then(m0, m2, env.Now(), env.me, ONE_ATTEMPT, NOTHING);
    }

    /** Serialize the record, clear the flags and hand a copy to the producer. */
    method Produce(at: Source, reason: Reason) returns (produced: bool, served: seq<nat>)
      requires env.Valid() && env.Where().Publishing? && env.Where().at == at && env.Where().reason == reason
      modifies env
      ensures env.Advanced(0, 0, 0, 1)
      ensures var turn := Head(old(env.schedule));
              && env.Did() == [match turn.reply
                               case Aborted => Unserializable(env.me)
                               case Ok => Enqueue(env.me, true)
                               case _ => Enqueue(env.me, false)]
              && produced == turn.reply.Ok? && served == turn.served
      ensures if produced then env.Where() == Publishing(at, reason, true)
              else env.Where().Publishing? && env.Where().at == at && env.Where().reason == reason
    {
      hide Inv, ConsumerInv, Exec, Grows, Own, TallyOf, HandedOut, OwnPart, OwnSince, Others, Run, Foreign, Reach,
           Calm, Rest, Head, Blocked, LockedByOther, RecordFor;
      ghost var s0, a0 := env.state, env.actions;
      var turn := env.Await();
      OwnActions(env.me);
      served := turn.served;
      label ready:
      if turn.reply.Aborted? {
        UnserializableStutters(env.state, env.me);
        env.Act(Unserializable(env.me));
        GrowsTransitive(s0, old@ready(env.state), env.state);
        OwnSinceTransitive(a0, old@ready(env.actions), env.actions, env.me);
        return false, served; // serializing the record threw
      }
      env.Invariant();
      MessageInHandIsInLog(env.state, env.links0, env.me);
      EnqueueLeads(env.state, env.me, at, reason, turn.reply.Ok?);
      env.Act(Enqueue(env.me, turn.reply.Ok?));
      GrowsTransitive(s0, old@ready(env.state), env.state);
      OwnSinceTransitive(a0, old@ready(env.actions), env.actions, env.me);
      produced := turn.reply.Ok?;
    }

    lemma UnserializableStutters(s: State, c: nat)
      ensures Exec(s, Unserializable(c)) == s
    {
    }

    lemma OwnActions(c: nat)
      ensures Own(Enqueue(c, true), c) && Own(Enqueue(c, false), c) && Own(EndPublish(c), c) && Own(Unserializable(c), c)
      ensures forall i :: Own(Report(c, i), c)
    {
    }

    /**
     Serve delivery callbacks, the broker working on the queue in between: each callback takes
     its copy off the queue and leaves its verdict in the flags. The flush has timed out if
     copies are left.
     */
    method Flush(at: Source, reason: Reason, served: seq<nat>) returns (flushed: bool)
      requires env.Valid() && env.Where() == Publishing(at, reason, true)
      modifies env
      ensures env.Advanced(0) && env.Where() == Publishing(at, reason, true)
      ensures env.Did() == Callbacks(env.me, served)
      ensures flushed <==> env.state.consumers[env.me].producer.queue == []
    {
      hide Inv, ConsumerInv, Exec, Grows, Own, TallyOf, HandedOut, OwnPart, OwnSince, Others, Run, Advance, Foreign,
           Reach;
      ghost var m0 := env.Now();
      Stay(m0, env.me);
      OwnSinceNone(m0.actions, env.me);
      for i := 0 to |served|
        invariant env.Advanced(0) && env.Where() == Publishing(at, reason, true)
        invariant env.Did() == Callbacks(env.me, served[..i])
      {
        ghost var m1 := env.Now();
        Callback(at, reason, served[i]);
        Then(m0, m1, env.Now(), env.me, NOTHING, NOTHING);
        assert served[..i + 1][..i] == served[..i] && served[..i + 1][i] == served[i];
      }
      assert served[..|served|] == served;
      flushed := env.state.consumers[env.me].producer.queue == [];
    }

    /** The broker works on the queue, then one delivery callback runs. */
    method Callback(at: Source, reason: Reason, index: nat)
      requires env.Valid() && env.Where() == Publishing(at, reason, true)
      modifies env
      ensures env.Advanced(0) && env.Where() == Publishing(at, reason, true) && env.Did() == [Report(env.me, index)]
    {
      hide Inv, ConsumerInv, Exec, Grows, Own, TallyOf, HandedOut, OwnPart, OwnSince, Others, Run;
      ghost var s0, a0 := env.state, env.actions;
      OwnActions(env.me);
      var _ := env.Await();
      label callback:
      ReportLeads(env.state, env.me, index);
      env.Act(Report(env.me, index));
      GrowsTransitive(s0, old@callback(env.state), env.state);
      OwnSinceTransitive(a0, old@callback(env.actions), env.actions, env.me);
    }

    /** Success exactly for a last report without error; by the invariant the record is then in the topic. */
    method Conclude(at: Source, reason: Reason) returns (delivered: bool)
      requires env.Valid() && env.Where() == Publishing(at, reason, true)
      requires env.state.consumers[env.me].producer.queue == []
      modifies env
      ensures env.Advanced(0) && env.state.consumers[env.me].producer == old(env.state.consumers[env.me].producer)
      ensures delivered <==> env.state.consumers[env.me].producer == Producer([], true, false)
      ensures env.Did() == if delivered then [EndPublish(env.me)] else []
      ensures delivered ==> env.Where() == Committing(at, DeadLettered)
      ensures delivered ==> InLog(env.state.logs, at) && RecordFor(env.state.logs, at, reason) in env.state.dlq
      ensures !delivered ==> env.Where() == Publishing(at, reason, true)
    {
      hide Inv, ConsumerInv, Exec, Grows, Own, TallyOf, HandedOut, OwnPart, OwnSince, Others, Run;
      var producer := env.state.consumers[env.me].producer;
      if !producer.observed || producer.errored {
        GrowsReflexive(env.state);
        OwnSinceNone(env.actions, env.me);
        return false;
      }
      env.Invariant();
      OwnActions(env.me);
      CleanFlagsMeanDelivered(env.state, env.links0, env.me, at, reason);
      EndPublishLeads(env.state, env.me, at, reason);
      env.Act(EndPublish(env.me));
      return true;
    }
  }

  // ---------------------------------------------------------------------------------------
  // The consumer process.

  datatype Config = Config(
    processingMaxAttempts: nat,
    retryInitialMs: nat,
    retryMaxMs: nat,
    offsetCommitMaxAttempts: nat)

  predicate ValidConfig(c: Config) {
    c.processingMaxAttempts > 0 && 0 < c.retryInitialMs <= c.retryMaxMs && c.offsetCommitMaxAttempts > 0
  }

  function NextRetryDelayMs(delayMs: int, maximumMs: int): int {
    if delayMs >= maximumMs - delayMs then maximumMs else delayMs * 2
  }

  function Pow2(n: nat): nat { if n == 0 then 1 else 2 * Pow2(n - 1) }

  /** The delay after `n` failures: the initial delay doubled each time, capped at the maximum. */
  function Backoff(c: Config, n: nat): int { Min(c.retryInitialMs * Pow2(n), c.retryMaxMs) }

  /** Doubling with a cap is the capped exponential, and a delay never exceeds the maximum. */
  lemma NextDelayIsBackoff(c: Config, n: nat)
    requires ValidConfig(c)
    ensures NextRetryDelayMs(Backoff(c, n), c.retryMaxMs) == Backoff(c, n + 1)
    ensures 0 < Backoff(c, n) <= c.retryMaxMs
  {
    Pow2Positive(n);
    var d := c.retryInitialMs * Pow2(n);
    assert d > 0 by { Product(c.retryInitialMs, Pow2(n)); }
    assert c.retryInitialMs * Pow2(n + 1) == 2 * d;
  }

  lemma Product(a: int, b: int)
    requires a > 0 && b > 0
    ensures a * b > 0
  {
  }

  lemma Pow2Positive(n: nat)
    ensures Pow2(n) > 0
  {
  }

  function OutcomeMetric(outcome: Outcome): MessageResult {
    match outcome
    case Counted => MessageResult.Aggregated
    case Duplicate => MessageResult.Duplicate
    case IgnoredNotFound => MessageResult.Ignored
    case Orphan => MessageResult.Error
  }

  /** How a message counted as `r` is accounted for. */
  ghost predicate SettledAs(s: State, at: Source, r: MessageResult) {
    match r
    case Dlq => InLog(s.logs, at) && exists d :: d in s.dlq && CopyOf(d, s.logs, at)
    case Error => false
    case Duplicate => Receipted(s, at)
    case Aggregated => Receipted(s, at) && !EventAt(s.logs, at).result.NotFound?
    case Ignored => Receipted(s, at) && EventAt(s.logs, at).result.NotFound?
  }

  predicate Receipted(s: State, at: Source) {
    AcceptedAt(s.logs, at) && EventAt(s.logs, at).eventId in s.db.receipts
  }

  lemma SettledAsIsKept(s: State, t: State, at: Source, r: MessageResult)
    requires Grows(s, t) && SettledAs(s, at, r)
    ensures SettledAs(t, at, r)
  {
    LogIsKept(s, t, at);
    if r.Dlq? {
      var d :| d in s.dlq && CopyOf(d, s.logs, at);
      assert d in t.dlq && CopyOf(d, t.logs, at);
    }
  }

  lemma WrittenIsSettled(s: State, t: State, at: Source, event: AccessEvent, outcome: Outcome)
    requires Grows(s, t) && AcceptedAt(s.logs, at) && EventAt(s.logs, at) == event
    requires event.eventId in t.db.receipts && Fits(outcome, event)
    ensures SettledAs(t, at, OutcomeMetric(outcome))
  {
    LogIsKept(s, t, at);
  }

  lemma PublishedIsSettled(s: State, at: Source, reason: Reason)
    requires InLog(s.logs, at) && RecordFor(s.logs, at, reason) in s.dlq
    ensures SettledAs(s, at, MessageResult.Dlq)
  {
    assert CopyOf(RecordFor(s.logs, at, reason), s.logs, at);
  }

  datatype Watermarks = Watermarks(low: int, high: int)

  /** An assigned partition: its committed offset, negative if there is none, and its watermarks if they could be queried. */
  datatype Assigned = Assigned(partition: nat, committed: int, watermarks: Option<Watermarks>)

  /** What Kafka answers to a lag refresh; `due` tells that the refresh interval has passed. */
  datatype Refresh = Refresh(due: bool, assignment: Option<seq<Assigned>>, committedKnown: bool)

  /**
   The lag of a partition: from the committed offset, or from the low watermark if nothing was
   committed, to the high watermark, and nothing if the start is already past it.
   */
  predicate IsLag(lag: int, a: Assigned)
    requires a.watermarks.Some?
  {
    var high := a.watermarks.value.high;
    && lag >= 0
    && (a.committed >= 0 ==> lag == high - a.committed || (lag == 0 && high < a.committed))
    && (a.committed < 0 ==> lag == high - a.watermarks.value.low || (lag == 0 && high < a.watermarks.value.low))
  }

  lemma LagIsDistance(a: Assigned, from: int)
    requires a.watermarks.Some? && from == if a.committed >= 0 then a.committed else a.watermarks.value.low
    ensures IsLag(Max(0, a.watermarks.value.high - from), a)
  {
  }

  /** The last entry for a partition that has an answer; Kafka lists each partition once. */
  predicate LastFor(assignment: seq<Assigned>, i: int, p: nat) {
    && 0 <= i < |assignment| && assignment[i].partition == p && assignment[i].watermarks.Some?
    && forall j | i < j < |assignment| && assignment[j].partition == p :: assignment[j].watermarks.None?
  }

  ghost predicate LagAsAssigned(assignment: seq<Assigned>, p: nat, lag: int) {
    exists i :: LastFor(assignment, i, p) && IsLag(lag, assignment[i])
  }

  /**
   A refresh replaces the whole gauge: every assigned partition whose watermarks are known gets
   its lag, every other partition goes. An early call, a failed query or an empty assignment
   leaves the gauge alone.
   */
  ghost predicate Refreshed(r: Refresh, before: Gauge, after: Gauge) {
    if !r.due || r.assignment.None? || r.assignment.value == [] || !r.committedKnown then after == before
    else
      && (forall p | p in after :: LagAsAssigned(r.assignment.value, p, after[p]))
      && (forall i | 0 <= i < |r.assignment.value| && r.assignment.value[i].watermarks.Some? ::
            r.assignment.value[i].partition in after)
  }

  lemma OneMorePartition(assignment: seq<Assigned>, n: nat, before: Gauge, lag: Gauge)
    requires n < |assignment|
    requires forall p | p in before :: LagAsAssigned(assignment[..n], p, before[p])
    requires if assignment[n].watermarks.Some?
             then exists l :: IsLag(l, assignment[n]) && lag == before[assignment[n].partition := l] else lag == before
    ensures forall p | p in lag :: LagAsAssigned(assignment[..n + 1], p, lag[p])
  {
    forall p | p in lag ensures LagAsAssigned(assignment[..n + 1], p, lag[p]) {
      if p == assignment[n].partition && assignment[n].watermarks.Some? {
        assert LastFor(assignment[..n + 1], n, p);
      } else {
        var i :| LastFor(assignment[..n], i, p) && IsLag(before[p], assignment[..n][i]);
        assert LastFor(assignment[..n + 1], i, p);
      }
    }
  }

  /** What one poll returns: nothing, an error or end-of-partition event, a rebalance, or a message. */
  datatype Poll =
    | Nothing(refresh: Refresh)
    | PollError
    | Rebalance(partition: nat, gained: bool)
    | Message(partition: nat)

  /** What a poll makes the process do. */
  function PollAction(poll: Poll, c: nat): seq<Action> {
    match poll
    case Nothing(_) => []
    case PollError => []
    case Rebalance(p, gained) => [if gained then Assign(c, p) else Revoke(c, p)]
    case Message(p) => [Fetch(c, p)]
  }

  function PollActions(polls: seq<Poll>, c: nat): seq<Action> {
    if polls == [] then [] else PollActions(polls[..|polls| - 1], c) + PollAction(polls[|polls| - 1], c)
  }

  lemma NoPolls(polls: seq<Poll>, c: nat)
    ensures PollActions(polls[..0], c) == []
  {
  }

  lemma PollActionsOneMore(polls: seq<Poll>, i: nat, c: nat)
    requires i < |polls|
    ensures PollActions(polls[..i + 1], c) == PollActions(polls[..i], c) + PollAction(polls[i], c)
  {
    assert polls[..i + 1][..i] == polls[..i];
  }

  predicate LagOnlyAt(before: Gauge, after: Gauge, partition: nat) {
    after - {partition} == before - {partition}
  }

  /** What a poll does to the lag gauge: a message touches its own partition only. */
  ghost predicate GaugeStep(poll: Poll, before: Gauge, after: Gauge) {
    match poll
    case Nothing(refresh) => Refreshed(refresh, before, after)
    case PollError => after == before
    case Rebalance(_, _) => after == before
    case Message(p) => after == before || (LagOnlyAt(before, after, p) && p in after)
  }

  /** Some kind of attempt was made as often as the configuration permits, and failed each time. */
  predicate Exhausted(config: Config, t: Tally, u: Tally) {
    || u.failures >= t.failures + config.processingMaxAttempts
    || u.attempts >= t.attempts + config.processingMaxAttempts
    || u.refused >= t.refused + config.offsetCommitMaxAttempts
  }

  lemma ExhaustedBy(config: Config, m: Moment, n: Moment, c: nat, spent: Spent)
    requires Advance(m, n, c, spent)
    requires || spent.failures >= config.processingMaxAttempts || spent.attempts >= config.processingMaxAttempts
             || spent.refused >= config.offsetCommitMaxAttempts
    ensures Exhausted(config, m.counts, n.counts)
  {
  }

  lemma ExhaustedLater(config: Config, l: Moment, m: Moment, n: Moment, c: nat, commits: nat)
    requires Extend(l, m, c, commits) && Exhausted(config, m.counts, n.counts)
    ensures Exhausted(config, l.counts, n.counts)
  {
  }

  /** What becomes of an event when nothing disturbs the process: its atomic application, counted by its outcome. */
  predicate Accounted(s: State, t: State, at: Source, e: AccessEvent, r: MessageResult) {
    match ApplyEvent(s.db, s.links, e, at).outcome
    case Counted => r.Aggregated? && t.db == ApplyEvent(s.db, s.links, e, at).tables
    case Duplicate => r.Duplicate? && t.db == s.db
    case IgnoredNotFound => r.Ignored? && t.db == ApplyEvent(s.db, s.links, e, at).tables
    case Orphan => r.Dlq? || r.Error?
  }

  lemma DecidedIsAccounted(s: State, t: State, u: State, at: Source, e: AccessEvent, result: ProcessResult, r: MessageResult)
    requires match result
             case Written(outcome) => t.db == u.db && r == OutcomeMetric(outcome)
             case OrphanThrown => r.Dlq? || r.Error?
             case Threw => true
    ensures Decided(s, t, at, e, result) ==> Accounted(s, u, at, e, r)
  {
  }

  lemma AccountedFrom(s: State, t: State, u: State, at: Source, e: AccessEvent, r: MessageResult)
    requires s.db == t.db && s.links == t.links
    ensures Accounted(t, u, at, e, r) == Accounted(s, u, at, e, r)
  {
  }

  class KafkaAccessEventConsumer {
    const config: Config
    const env: Environment
    const writer: AccessStatisticsWriter
    const publisher: KafkaDeadLetterPublisher
    const metrics: ConsumerMetrics

    ghost predicate Valid()
      reads env, metrics
    {
      && ValidConfig(config) && env.Valid() && metrics.Valid()
      && writer.connection.env == env && publisher.env == env
    }

    constructor (config: Config, env: Environment, metrics: ConsumerMetrics)
      requires ValidConfig(config) && env.Valid() && metrics.Valid()
      ensures Valid() && this.env == env && this.metrics == metrics && this.config == config
    {
      this.config, this.env, this.metrics := config, env, metrics;
      var connection := new DbConnection(env);
      this.writer := new AccessStatisticsWriter(connection);
      this.publisher := new KafkaDeadLetterPublisher(env);
    }

    /**
     The attempts to persist an event, reconnecting in between; the last failure is final. Every
     retry and every throw stands for one failed statement of this process.
     */
    method PersistWithRetry(event: AccessEvent, at: Source) returns (r: ProcessResult)
      requires Valid() && env.Where() == Persisting(at)
      requires AcceptedAt(env.state.logs, at) && EventAt(env.state.logs, at) == event
      modifies env, metrics`messages, metrics`retries
      ensures Valid() && old(metrics.retries[Mysql]) <= metrics.retries[Mysql]
      ensures env.Advanced(0, metrics.retries[Mysql] - old(metrics.retries[Mysql]) + (if r.Threw? then 1 else 0))
      ensures match r
              case Written(outcome) =>
                && env.Where() == Committing(at, Wrote(outcome)) && event.eventId in env.state.db.receipts
                && Fits(outcome, event)
                && metrics.messages == old(metrics.messages)
              case OrphanThrown =>
                env.Where() == Publishing(at, OrphanShortLink, false) && metrics.messages == old(metrics.messages)
              case Threw =>
                metrics.messages == old(metrics.messages)[MessageResult.Error := old(metrics.messages[MessageResult.Error]) + 1]
      ensures forall op | op != Mysql :: metrics.retries[op] == old(metrics.retries[op])
      ensures metrics.retries[Mysql] < old(metrics.retries[Mysql]) + config.processingMaxAttempts
      ensures r.Threw? ==> metrics.retries[Mysql] == old(metrics.retries[Mysql]) + config.processingMaxAttempts - 1
      ensures old(event.eventId in env.state.db.receipts) ==> r.Threw? || r == Written(Outcome.Duplicate)
      ensures r.OrphanThrown? ==> !event.result.NotFound? && event.code !in old(env.state.links)
      ensures old(Undisturbed(env, event.eventId)) ==> Decided(old(env.state), env.state, at, event, r)
    {
      hide Inv, Exec, Protocol.Run, TallyOf, HandedOut, OwnPart, OwnSince, LockedByOther, Others, Advance, Foreign,
           Reach, Head, ApplyEvent;
      ghost var m0 := env.Now();
      Stay(m0, env.me);
      var delayMs := config.retryInitialMs;
      var attempt := 1;
      NextDelayIsBackoff(config, 0);
      while attempt <= config.processingMaxAttempts
        invariant 1 <= attempt <= config.processingMaxAttempts
        invariant Valid() && env.Advanced(0, attempt - 1) && env.Where() == Persisting(at)
        invariant metrics.messages == old(metrics.messages)
        invariant metrics.retries[Mysql] == old(metrics.retries[Mysql]) + attempt - 1
        invariant forall op | op != Mysql :: metrics.retries[op] == old(metrics.retries[op])
        invariant delayMs == Backoff(config, attempt - 1)
        invariant old(Undisturbed(env, event.eventId)) ==> attempt == 1 && env.Now() == m0
        decreases config.processingMaxAttempts - attempt
      {
        ghost var m1, failed := env.Now(), Spent(0, attempt - 1, 0, 0);
        MessageStays(m0, m1, env.me, failed, at);
        r := writer.Process(event, at);
        Then(m0, m1, env.Now(), env.me, failed, if r.Threw? then ONE_FAILURE else NOTHING);
        if !r.Threw? {
          return;
        }
        if attempt == config.processingMaxAttempts {
          metrics.RecordMessage(MessageResult.Error);
          return;
        }
        metrics.RecordRetry(Mysql);
        NextDelayIsBackoff(config, attempt - 1);
        delayMs := NextRetryDelayMs(delayMs, config.retryMaxMs);
        attempt := attempt + 1;
      }
    }

    /** The attempts to dead-letter a message; returns normally only if a copy was acknowledged. */
    method PublishToDeadLetter(at: Source, reason: Reason) returns (threw: bool)
      requires Valid() && env.Where() == Publishing(at, reason, false)
      modifies env, metrics`messages, metrics`retries, metrics`dlq
      ensures Valid() && old(metrics.dlq[DlqResult.Failure]) <= metrics.dlq[DlqResult.Failure]
      ensures env.Advanced(0, 0, 0, metrics.dlq[DlqResult.Failure] - old(metrics.dlq[DlqResult.Failure]) + (if threw then 0 else 1))
      ensures !threw ==> env.Where() == Committing(at, DeadLettered)
      ensures !threw ==> InLog(env.state.logs, at) && RecordFor(env.state.logs, at, reason) in env.state.dlq
      ensures !threw ==> metrics.messages == old(metrics.messages)
      ensures threw ==> metrics.messages
                        == old(metrics.messages)[MessageResult.Error := old(metrics.messages[MessageResult.Error]) + 1]
      ensures metrics.dlq[DlqResult.Success] == old(metrics.dlq[DlqResult.Success]) + (if threw then 0 else 1)
      ensures metrics.dlq[DlqResult.Failure]
              - old(metrics.dlq[DlqResult.Failure]) <= config.processingMaxAttempts - (if threw then 0 else 1)
      ensures threw ==> metrics.dlq[DlqResult.Failure] == old(metrics.dlq[DlqResult.Failure]) + config.processingMaxAttempts
      ensures metrics.retries[DlqPublish] + old(metrics.dlq[DlqResult.Failure]) + (if threw then 1 else 0)
              == old(metrics.retries[DlqPublish]) + metrics.dlq[DlqResult.Failure]
      ensures forall op | op != DlqPublish :: metrics.retries[op] == old(metrics.retries[op])
    {
      hide Inv, Exec, Protocol.Run, TallyOf, HandedOut, OwnPart, OwnSince, LockedByOther, Others, Advance, Foreign,
           Reach, Head, Calm, Rest, Blocked, RecordFor, AcceptedAt, Grows, ConsumerInv;
      ghost var m0 := env.Now();
      Stay(m0, env.me);
      var delayMs := config.retryInitialMs;
      var attempt := 1;
      NextDelayIsBackoff(config, 0);
      while attempt <= config.processingMaxAttempts
        invariant 1 <= attempt <= config.processingMaxAttempts + 1
        invariant Valid() && env.Advanced(0, 0, 0, attempt - 1)
        invariant env.Where().Publishing? && env.Where().at == at && env.Where().reason == reason
        invariant metrics.messages == old(metrics.messages)
        invariant metrics.retries[DlqPublish]
                  == old(metrics.retries[DlqPublish]) + attempt - 1 - (if attempt > config.processingMaxAttempts then 1 else 0)
        invariant forall op | op != DlqPublish :: metrics.retries[op] == old(metrics.retries[op])
        invariant metrics.dlq[DlqResult.Success] == old(metrics.dlq[DlqResult.Success])
        invariant metrics.dlq[DlqResult.Failure] == old(metrics.dlq[DlqResult.Failure]) + attempt - 1
        invariant attempt <= config.processingMaxAttempts ==> delayMs == Backoff(config, attempt - 1)
        decreases config.processingMaxAttempts + 1 - attempt
      {
        ghost var m1 := env.Now();
        var delivered := publisher.Publish(at, reason);
        Then(m0, m1, env.Now(), env.me, Spent(0, 0, 0, attempt - 1), ONE_ATTEMPT);
        if delivered {
          metrics.RecordDlq(DlqResult.Success);
          return false;
        }
        metrics.RecordDlq(DlqResult.Failure);
        if attempt < config.processingMaxAttempts {
          metrics.RecordRetry(DlqPublish);
          NextDelayIsBackoff(config, attempt - 1);
          delayMs := NextRetryDelayMs(delayMs, config.retryMaxMs);
        }
        attempt := attempt + 1;
      }
      metrics.RecordMessage(MessageResult.Error);
      return true;
    }

    /**
     The attempts to commit the offset of a settled message; a lost reply is tried again. It
     gives up exactly if none of the permitted calls is answered, and otherwise stops at the
     first that is, and then looks at the high watermark.
     */
    method CommitWithRetry(at: Source) returns (threw: bool)
      requires Valid() && env.Where().Committing? && env.Where().at == at
      modifies env, metrics`messages, metrics`retries, metrics`lag
      ensures Valid() && old(metrics.retries[OffsetCommit]) <= metrics.retries[OffsetCommit]
      ensures var retries := metrics.retries[OffsetCommit] - old(metrics.retries[OffsetCommit]);
              && env.Advanced(if threw then 0 else 1, 0, if threw then config.offsetCommitMaxAttempts else retries)
              && retries < config.offsetCommitMaxAttempts
              && (forall k: nat | k < retries :: !Head(Rest(old(env.schedule), k)).reply.Ok?)
              && Head(Rest(old(env.schedule), retries)).reply.Ok? == !threw
              && (threw ==> retries == config.offsetCommitMaxAttempts - 1)
              && metrics.lag == if threw then old(metrics.lag) else
                                  match Head(Rest(old(env.schedule), retries + 1)).high
                                  case None => old(metrics.lag)
                                  case Some(h) => old(metrics.lag)[at.partition := if h <= at.offset then 0 else h - (at.offset + 1)]
      ensures forall op | op != OffsetCommit :: metrics.retries[op] == old(metrics.retries[op])
      ensures metrics.messages
              == if threw then old(metrics.messages)[MessageResult.Error := old(metrics.messages[MessageResult.Error]) + 1]
                 else old(metrics.messages)
      ensures Settled(old(env.state), at) && Settled(env.state, at)
      ensures !threw ==> env.Where() == Idle
      ensures old(Calm(env.schedule)) ==> !threw && env.state.db == old(env.state.db)
    {
      hide Inv, Exec, Protocol.Run, TallyOf, HandedOut, OwnPart, OwnSince, LockedByOther, Others, Advance, Foreign,
           Reach, Head, Calm, Rest, Grows, Settled, Blocked, RecordFor, AcceptedAt, ConsumerInv;
      ghost var m0 := env.Now();
      Stay(m0, env.me);
      env.Invariant();
      CommittingIsSettled(m0.state, env.links0, env.me);
      ghost var phase := env.Where();
      RestOfAll(m0.schedule);
      GrowsReflexive(m0.state);
      if Calm(m0.schedule) { CalmAnswers(m0.schedule, 0); }
      for attempt := 1 to config.offsetCommitMaxAttempts + 1
        invariant Valid() && env.Advanced(0, 0, attempt - 1) && env.Where() == phase
        invariant Grows(m0.state, env.state)
        invariant env.schedule == Rest(m0.schedule, attempt - 1)
        invariant metrics.messages == old(metrics.messages) && metrics.lag == old(metrics.lag)
        invariant metrics.retries[OffsetCommit]
                  == old(metrics.retries[OffsetCommit]) + attempt - 1 - (if attempt > config.offsetCommitMaxAttempts then 1 else 0)
        invariant forall op | op != OffsetCommit :: metrics.retries[op] == old(metrics.retries[op])
        invariant forall k: nat | k < attempt - 1 :: !Head(Rest(m0.schedule, k)).reply.Ok?
        invariant Calm(m0.schedule) ==> env.state.db == m0.state.db && Calm(env.schedule)
      {
        ghost var m1, refused := env.Now(), Spent(0, 0, attempt - 1, 0);
        var acknowledged := CommitOnce(at);
        ghost var m2 := env.Now();
        Then(m0, m1, m2, env.me, refused, if acknowledged then ONE_COMMIT else ONE_REFUSED);
        RestOfRest(m0.schedule, attempt - 1, 1);
        if acknowledged {
          ObserveMessageLag(at, true);
          Then(m0, m2, env.Now(), env.me, Spent(1, 0, attempt - 1, 0), NOTHING);
          SettledIsKept(m0.state, env.state, at);
          return false;
        }
        if attempt < config.offsetCommitMaxAttempts {
          metrics.RecordRetry(OffsetCommit);
        }
      }
      SettledIsKept(m0.state, env.state, at);
      metrics.RecordMessage(MessageResult.Error);
      return true;
    }

    lemma CommittingIsSettled(s: State, links0: LinkTable, c: nat)
      requires c in s.consumers && ConsumerInv(s, links0, s.consumers[c]) && s.consumers[c].phase.Committing?
      ensures Settled(s, s.consumers[c].phase.at)
    {
    }

    /** One offset commit: it may take effect without being acknowledged. */
    method CommitOnce(at: Source) returns (acknowledged: bool)
      requires Valid() && env.Where().Committing? && env.Where().at == at
      modifies env
      ensures acknowledged == Head(old(env.schedule)).reply.Ok? && env.schedule == Rest(old(env.schedule), 1)
      ensures Valid() && env.Advanced(if acknowledged then 1 else 0, 0, if acknowledged then 0 else 1)
      ensures env.Did() == [CommitOffset(env.me, acknowledged || Head(old(env.schedule)).reply.ReplyLost?, acknowledged)]
      ensures env.Where() == if acknowledged then Idle else old(env.Where())
      ensures old(Calm(env.schedule)) ==> env.state.db == old(env.state.db) && Calm(env.schedule)
    {
      hide Inv, ConsumerInv, Exec, Grows, TallyOf, HandedOut, OwnPart, OwnSince, Others, Protocol.Run, Calm, Rest,
           Head, Foreign, Reach, LockedByOther, RecordFor, AcceptedAt;
      ghost var s0 := env.state;
      var turn := env.Await();
      env.Invariant();
      label awaited:
      CommitLeads(env.state, env.links0, env.me, at, turn.reply.Ok? || turn.reply.ReplyLost?, turn.reply.Ok?);
      env.Act(CommitOffset(env.me, turn.reply.Ok? || turn.reply.ReplyLost?, turn.reply.Ok?));
      GrowsTransitive(s0, old@awaited(env.state), env.state);
      OwnSinceTransitive(old(env.actions), old@awaited(env.actions), env.actions, env.me);
      acknowledged := turn.reply.Ok?;
    }

    /** Before the commit the reported lag is at least one; after it, what the watermark leaves. */
    method ObserveMessageLag(at: Source, committed: bool)
      requires Valid()
      modifies env, metrics`lag
      ensures Valid() && env.Advanced(0) && env.Where() == old(env.Where())
      ensures !committed ==> at.partition in metrics.lag && metrics.lag[at.partition] >= 1
      ensures metrics.lag == match Head(old(env.schedule)).high
                             case None => if committed then old(metrics.lag) else old(metrics.lag)[at.partition := 1]
                             case Some(h) =>
                               old(metrics.lag)[at.partition := if h <= at.offset then (if committed then 0 else 1)
                                                                else if committed then h - (at.offset + 1) else h - at.offset]
      ensures env.Did() == [] && env.schedule == Rest(old(env.schedule), 1)
      ensures old(Calm(env.schedule)) ==> env.state == old(env.state)
    {
      hide TallyOf, HandedOut, OwnPart, OwnSince, Others, Protocol.Run;
      if !committed {
        metrics.SetLag(at.partition, 1);
      }
      var turn := env.Await();
      if turn.high.None? {
        return;
      }
      var nextOffset := at.offset + (if committed then 1 else 0);
      var minimumLag := if committed then 0 else 1;
      metrics.SetLag(at.partition, Max(minimumLag, turn.high.value - nextOffset));
    }

    /**
     One message: settle it in the database or the dead-letter topic, and only then commit its
     offset. Exactly one result is counted. Unless it is an error, the message is settled the
     way the result says and its offset commit was acknowledged; on an error nothing was
     acknowledged, the lag of the message stays reported, and one kind of attempt was exhausted.
     */
    method HandleMessage(at: Source) returns (r: MessageResult)
      requires Valid() && env.Where() == Handling(at)
      requires at.partition in metrics.lag && metrics.lag[at.partition] >= 1
      modifies env, metrics
      ensures Valid() && env.Extended(if r.Error? then 0 else 1)
      ensures metrics.messages == old(metrics.messages)[r := old(metrics.messages[r]) + 1]
      ensures if r.Error? then at.partition in metrics.lag && metrics.lag[at.partition] >= 1
              else env.Where() == Idle && SettledAs(env.state, at, r)
      ensures LagOnlyAt(old(metrics.lag), metrics.lag, at.partition) && at.partition in metrics.lag
      ensures r.Error? ==> Exhausted(config, old(env.Counts()), env.Counts())
      ensures !old(AcceptedAt(env.state.logs, at)) ==> r.Dlq? || r.Error?
      ensures old(AcceptedAt(env.state.logs, at)) ==>
                var event := old(EventAt(env.state.logs, at));
                && (event.eventId in old(env.state.db.receipts) ==> r.Duplicate? || r.Error?)
                && (r.Dlq? ==> !event.result.NotFound? && event.code !in old(env.state.links))
                && (old(Undisturbed(env, event.eventId)) ==> Accounted(old(env.state), env.state, at, event, r))
    {
      hide Inv, ConsumerInv, Exec, Grows, SettledAs, Settled, TallyOf, HandedOut, Others, OwnPart, OwnSince,
           LockedByOther, Accounted, Protocol.Run, Calm, Rest, Head, Foreign, Reach, RecordFor, Exhausted;
      ghost var s0 := env.state;
      env.Invariant();
      ClassifyLeads(env.state, env.links0, env.me, at);
      var message := MessageAt(env.state.logs, at);
      env.Act(Classify(env.me));
      label classified:
      if env.Where().Publishing? {
        r := DeadLetter(at, env.Where().reason);
      } else {
        LocksAreOfOthers(s0, env.state, env.me, message.decoded.event.eventId);
        r := Persist(message.decoded.event, at);
        AccountedFrom(s0, old@classified(env.state), env.state, at, message.decoded.event, r);
      }
      GrowsTransitive(s0, old@classified(env.state), env.state);
    }

    /** Persist an accepted event; an orphan goes to the dead-letter topic instead. */
    method Persist(event: AccessEvent, at: Source) returns (r: MessageResult)
      requires Valid() && env.Where() == Persisting(at)
      requires AcceptedAt(env.state.logs, at) && EventAt(env.state.logs, at) == event
      requires at.partition in metrics.lag && metrics.lag[at.partition] >= 1
      modifies env, metrics
      ensures Valid() && env.Extended(if r.Error? then 0 else 1)
      ensures metrics.messages == old(metrics.messages)[r := old(metrics.messages[r]) + 1]
      ensures if r.Error? then at.partition in metrics.lag && metrics.lag[at.partition] >= 1
              else env.Where() == Idle && SettledAs(env.state, at, r)
      ensures LagOnlyAt(old(metrics.lag), metrics.lag, at.partition) && at.partition in metrics.lag
      ensures r.Error? ==> Exhausted(config, old(env.Counts()), env.Counts())
      ensures event.eventId in old(env.state.db.receipts) ==> r.Duplicate? || r.Error?
      ensures r.Dlq? ==> !event.result.NotFound? && event.code !in old(env.state.links)
      ensures old(Undisturbed(env, event.eventId)) ==> Accounted(old(env.state), env.state, at, event, r)
    {
      hide Inv, Exec, Protocol.Run, TallyOf, HandedOut, OwnPart, OwnSince, LockedByOther, Others, Advance, Extend,
           Exhausted, Foreign, Reach, Head, Rest, Calm, Grows, Settled, SettledAs, ApplyEvent, Blocked, RecordFor,
           AcceptedAt, ConsumerInv, Accounted, Decided, Fits, EventAt;
      ghost var m0 := env.Now();
      var result := PersistWithRetry(event, at);
      ghost var m1 := env.Now();
      ghost var failed := Spent(0, metrics.retries[Mysql] - old(metrics.retries[Mysql]) + (if result.Threw? then 1 else 0), 0, 0);
      AdvanceGrows(m0, m1, env.me, failed);
      match result
      case Threw =>
        r := MessageResult.Error;
        ExhaustedBy(config, m0, m1, env.me, failed);
        DecidedIsAccounted(m0.state, m1.state, env.state, at, event, result, r);
      case OrphanThrown =>
        r := DeadLetter(at, OrphanShortLink);
        ExtendThen(m0, m1, env.Now(), env.me, 0, if r.Error? then 0 else 1);
        if r.Error? { ExhaustedLater(config, m0, m1, env.Now(), env.me, 0); }
        DecidedIsAccounted(m0.state, m1.state, env.state, at, event, result, r);
      case Written(outcome) =>
        WrittenIsSettled(m0.state, m1.state, at, event, outcome);
        if Calm(m0.schedule) { CalmStays(m0, m1, env.me, failed, event.eventId); }
        var threw := Acknowledge(at);
        ExtendThen(m0, m1, env.Now(), env.me, 0, if threw then 0 else 1);
        r := if threw then MessageResult.Error else OutcomeMetric(outcome);
        if threw {
          ExhaustedLater(config, m0, m1, env.Now(), env.me, 0);
        } else {
          SettledAsIsKept(m1.state, env.state, at, r);
          if Calm(m0.schedule) { DecidedIsAccounted(m0.state, m1.state, env.state, at, event, result, r); }
          metrics.RecordMessage(r);
        }
    }

    /** `CommitWithRetry`, as far as the handler is concerned. */
    method Acknowledge(at: Source) returns (threw: bool)
      requires Valid() && env.Where().Committing? && env.Where().at == at
      modifies env, metrics`messages, metrics`retries, metrics`lag
      ensures Valid() && env.Extended(if threw then 0 else 1) && Grows(old(env.state), env.state)
      ensures metrics.messages
              == if threw then old(metrics.messages)[MessageResult.Error := old(metrics.messages[MessageResult.Error]) + 1]
                 else old(metrics.messages)
      ensures threw ==> metrics.lag == old(metrics.lag) && Exhausted(config, old(env.Counts()), env.Counts())
      ensures !threw ==> env.Where() == Idle
      ensures LagOnlyAt(old(metrics.lag), metrics.lag, at.partition)
      ensures at.partition in old(metrics.lag) ==> at.partition in metrics.lag
      ensures old(Calm(env.schedule)) ==> !threw && env.state.db == old(env.state.db)
    {
      hide Inv, Exec, Protocol.Run, TallyOf, HandedOut, OwnPart, OwnSince, LockedByOther, Others, Advance, Extend,
           Exhausted, Foreign, Reach, Head, Rest, Calm, Grows, Settled, SettledAs;
      ghost var m0 := env.Now();
      threw := CommitWithRetry(at);
      ghost var spent := Spent(if threw then 0 else 1, 0,
                               if threw then config.offsetCommitMaxAttempts
                               else metrics.retries[OffsetCommit] - old(metrics.retries[OffsetCommit]), 0);
      AdvanceGrows(m0, env.Now(), env.me, spent);
      if threw { ExhaustedBy(config, m0, env.Now(), env.me, spent); }
    }

    /** Publish, commit, count: in this order. */
    method DeadLetter(at: Source, reason: Reason) returns (r: MessageResult)
      requires Valid() && env.Where() == Publishing(at, reason, false)
      requires at.partition in metrics.lag && metrics.lag[at.partition] >= 1
      modifies env, metrics
      ensures Valid() && env.Extended(if r.Error? then 0 else 1)
      ensures metrics.messages == old(metrics.messages)[r := old(metrics.messages[r]) + 1]
      ensures r.Error? || r.Dlq?
      ensures if r.Error? then at.partition in metrics.lag && metrics.lag[at.partition] >= 1
              else env.Where() == Idle && SettledAs(env.state, at, r)
      ensures r.Dlq? ==> InLog(env.state.logs, at) && RecordFor(env.state.logs, at, reason) in env.state.dlq
      ensures LagOnlyAt(old(metrics.lag), metrics.lag, at.partition) && at.partition in metrics.lag
      ensures r.Error? ==> Exhausted(config, old(env.Counts()), env.Counts())
    {
      hide Inv, Exec, Protocol.Run, TallyOf, HandedOut, OwnPart, OwnSince, LockedByOther, Others, Advance, Extend,
           Exhausted, Foreign, Reach, Head, Rest, Calm, Grows, Settled, SettledAs;
      ghost var m0 := env.Now();
      var threw := PublishToDeadLetter(at, reason);
      ghost var m1 := env.Now();
      ghost var tried := Spent(0, 0, 0, metrics.dlq[DlqResult.Failure] - old(metrics.dlq[DlqResult.Failure]) + (if threw then 0 else 1));
      AdvanceGrows(m0, m1, env.me, tried);
      if threw {
        ExhaustedBy(config, m0, m1, env.me, tried);
        return MessageResult.Error;
      }
      PublishedIsSettled(m1.state, at, reason);
      threw := Acknowledge(at);
      ExtendThen(m0, m1, env.Now(), env.me, 0, if threw then 0 else 1);
      if threw {
        ExhaustedLater(config, m0, m1, env.Now(), env.me, 0);
        return MessageResult.Error;
      }
      RecordStays(m1.state, env.state, at, reason);
      SettledAsIsKept(m1.state, env.state, at, MessageResult.Dlq);
      metrics.RecordMessage(MessageResult.Dlq);
      return MessageResult.Dlq;
    }

    lemma RecordStays(s: State, t: State, at: Source, reason: Reason)
      requires Grows(s, t) && InLog(s.logs, at) && RecordFor(s.logs, at, reason) in s.dlq
      ensures InLog(t.logs, at) && RecordFor(t.logs, at, reason) in t.dlq
    {
      LogIsKept(s, t, at);
    }

    /** Lag is refreshed wholesale, and only when a poll returned no message. */
    method RefreshLag(r: Refresh)
      requires Valid()
      modifies metrics`lag
      ensures Valid() && Refreshed(r, old(metrics.lag), metrics.lag)
    {
      hide LagAsAssigned, IsLag;
      if !r.due || r.assignment.None? || r.assignment.value == [] || !r.committedKnown {
        return;
      }
      var assignment := r.assignment.value;
      var lag: Gauge := map[];
      for index := 0 to |assignment|
        invariant forall p | p in lag :: LagAsAssigned(assignment[..index], p, lag[p])
        invariant forall i | 0 <= i < index && assignment[i].watermarks.Some? :: assignment[i].partition in lag
      {
        var partition := assignment[index];
        ghost var before := lag;
        if partition.watermarks.Some? {
          var marks := partition.watermarks.value;
          var committedOffset := if partition.committed >= 0 then partition.committed else marks.low;
          lag := lag[partition.partition := Max(0, marks.high - committedOffset)];
          LagIsDistance(partition, committedOffset);
        }
        OneMorePartition(assignment, index, before, lag);
      }
      assert assignment[..|assignment|] == assignment;
      metrics.ReplaceLag(lag);
    }

    /**
     One poll: the rest of the system moves, then the message at the position of the partition
     is handed out if the partition is assigned and there is one.
     */
    method TakeMessage(partition: nat) returns (taken: Option<Source>)
      requires Valid() && env.Where() == Idle
      modifies env
      ensures Valid() && env.Polled(Fetch(env.me, partition), taken.Some?)
      ensures var positions := old(env.state.consumers[env.me].positions);
              taken == if partition in positions && InLog(env.state.logs, Source(partition, positions[partition]))
                       then Some(Source(partition, positions[partition])) else None
      ensures env.Where() == (if taken.Some? then Handling(taken.value) else Idle)
    {
      hide Inv, ConsumerInv, Exec, Grows, TallyOf, HandedOut, OwnPart, OwnSince, Others, Protocol.Run;
      ghost var s0 := env.state;
      var _ := env.Await();
      label awaited:
      FetchLeads(env.state, env.me, partition);
      env.Act(Fetch(env.me, partition));
      GrowsTransitive(s0, old@awaited(env.state), env.state);
      taken := if env.Where().Handling? then Some(env.Where().at) else None;
    }

    /** A partition gained is read from its committed offset; one lost is not read any more. */
    method Rebalanced(partition: nat, gained: bool)
      requires Valid() && env.Where() == Idle
      modifies env
      ensures Valid() && env.Where() == Idle
      ensures env.Polled(if gained then Assign(env.me, partition) else Revoke(env.me, partition), false)
      ensures var before, after := old(env.state.consumers[env.me].positions), env.state.consumers[env.me].positions;
              after == if !gained then before - {partition}
                       else if partition < |env.state.offsets| then before[partition := env.state.offsets[partition]] else before
    {
      hide Inv, ConsumerInv, Exec, Grows, TallyOf, HandedOut, OwnPart, OwnSince, Others, Protocol.Run;
      ghost var s0 := env.state;
      var _ := env.Await();
      label awaited:
      RebalanceLeads(env.state, env.me, partition, gained);
      env.Act(if gained then Assign(env.me, partition) else Revoke(env.me, partition));
      GrowsTransitive(s0, old@awaited(env.state), env.state);
    }

    /**
     The poll loop of one process. It serves its polls in order, each with the action that
     belongs to it, and handles every message it is handed: the messages handed out are those
     handled, and the one it gives up on. At every message boundary the handled results equal
     the acknowledged offset commits; the error counter is at most one, and only on the way out.
     `gauges` are the lag gauges between the polls.
     */
    method Run(polls: seq<Poll>) returns (threw: bool, ghost served: nat, ghost gauges: seq<Gauge>)
      requires Valid() && env.Where() == Idle
      requires metrics.Handled() == 0 && metrics.messages[MessageResult.Error] == 0
      modifies env, metrics
      ensures Valid() && old(env.actions) <= env.actions
      ensures served <= |polls|
      ensures if threw then served > 0 && polls[served - 1].Message? else served == |polls| && env.Where() == Idle
      ensures env.Counts().polls == old(env.Counts()).polls + PollActions(polls[..served], env.me)
      ensures metrics.Handled() == env.Counts().commits - old(env.Counts()).commits
      ensures metrics.Handled() + (if threw then 1 else 0) == env.Taken() - old(env.Taken())
      ensures metrics.messages[MessageResult.Error] == if threw then 1 else 0
      ensures |gauges| == served + 1 && gauges[0] == old(metrics.lag) && gauges[served] == metrics.lag
      ensures forall i | 0 <= i < served :: GaugeStep(polls[i], gauges[i], gauges[i + 1])
    {
      hide Inv, ConsumerInv, Exec, Grows, Settled, SettledAs, TallyOf, HandedOut, Others, OwnPart, OwnSince,
           LockedByOther, Accounted, Protocol.Run, Refreshed, AcceptedAt, Exhausted, Extend, Advance,
           Foreign, Reach, Head, Rest, Calm, GaugeStep, PollActions, PollAction, RecordFor, Foreseen;
      gauges := [metrics.lag];
      served := 0;
      NoPolls(polls, env.me);
      for i := 0 to |polls|
        invariant Valid() && env.Where() == Idle && old(env.actions) <= env.actions
        invariant served == i
        invariant env.Counts().polls == old(env.Counts()).polls + PollActions(polls[..i], env.me)
        invariant metrics.Handled() == env.Counts().commits - old(env.Counts()).commits
        invariant metrics.Handled() == env.Taken() - old(env.Taken())
        invariant metrics.messages[MessageResult.Error] == 0
        invariant |gauges| == i + 1 && gauges[0] == old(metrics.lag) && gauges[i] == metrics.lag
        invariant forall j | 0 <= j < i :: GaugeStep(polls[j], gauges[j], gauges[j + 1])
      {
        threw := Serve(polls[i]);
        PollActionsOneMore(polls, i, env.me);
        served := i + 1;
        gauges := gauges + [metrics.lag];
        if threw {
          return;
        }
      }
      assert polls[..|polls|] == polls;
      return false, served, gauges;
    }

    /** What the loop does with one poll. */
    method Serve(poll: Poll) returns (threw: bool)
      requires Valid() && env.Where() == Idle
      modifies env, metrics
      ensures Valid() && env.Grown() && (threw ==> poll.Message?) && (!threw ==> env.Where() == Idle)
      ensures env.Counts().polls == old(env.Counts()).polls + PollAction(poll, env.me)
      ensures metrics.Handled() - old(metrics.Handled()) == env.Counts().commits - old(env.Counts()).commits
      ensures metrics.Handled() + (if threw then 1 else 0) - old(metrics.Handled()) == env.Taken() - old(env.Taken())
      ensures metrics.messages[MessageResult.Error] == old(metrics.messages[MessageResult.Error]) + (if threw then 1 else 0)
      ensures GaugeStep(poll, old(metrics.lag), metrics.lag)
    {
      hide Inv, ConsumerInv, Exec, Grows, Settled, SettledAs, TallyOf, HandedOut, Others, OwnPart, OwnSince,
           LockedByOther, Accounted, Protocol.Run, Refreshed, AcceptedAt, Exhausted, Grow, Advance, Foreign, Reach,
           Head, Rest, Calm;
      ghost var m0 := env.Now();
      StayGrown(m0, env.me);
      threw := false;
      match poll
      case Nothing(refresh) =>
        RefreshLag(refresh);
      case PollError =>
      case Rebalance(p, gained) =>
        Rebalanced(p, gained);
      case Message(p) =>
        var taken := TakeMessage(p);
        if taken.Some? {
          ghost var m1 := env.Now();
          threw := Take(taken.value);
          GrowThen(m0, m1, env.Now(), env.me);
        }
    }

    /** A message handed out: its lag is reported, then it is handled. */
    method Take(at: Source) returns (threw: bool)
      requires Valid() && env.Where() == Handling(at)
      modifies env, metrics
      ensures Valid() && env.Extended(if threw then 0 else 1) && (!threw ==> env.Where() == Idle)
      ensures metrics.Handled() == old(metrics.Handled()) + (if threw then 0 else 1)
      ensures metrics.messages[MessageResult.Error] == old(metrics.messages[MessageResult.Error]) + (if threw then 1 else 0)
      ensures LagOnlyAt(old(metrics.lag), metrics.lag, at.partition)
      ensures at.partition in metrics.lag
    {
      hide Inv, ConsumerInv, Exec, Grows, Settled, SettledAs, TallyOf, HandedOut, Others, OwnPart, OwnSince,
           LockedByOther, Accounted, Protocol.Run, Refreshed, AcceptedAt, Exhausted, Advance, Extend, Foreign, Reach,
           Head, Rest, Calm;
      ghost var m0 := env.Now();
      ObserveMessageLag(at, false);
      ghost var m1 := env.Now();
      AdvanceGrows(m0, m1, env.me, NOTHING);
      var r := HandleMessage(at);
      ExtendThen(m0, m1, env.Now(), env.me, 0, if r.Error? then 0 else 1);
      return r.Error?;
    }
  }
}
