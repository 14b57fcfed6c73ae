/**
 The consumer protocol as a state machine: partition logs, committed offsets, the database,
 the dead-letter topic, and any number of consumer processes, each executing its message
 handler one foreign call at a time. Every choice the environment makes (which process runs,
 how a call ends, crashes, rebalances, offset resets) is part of the action, so a run is a
 sequence of actions and `Run` computes where it leads. An action that is not enabled leaves
 the state alone.
 */
module Protocol {
  import opened Options
  import opened AccessEvents
  import opened Projection
  import opened Transaction

  /** A topic message; `decoded` is what the event decoder makes of `payload`. */
  datatype Message = Message(key: string, payload: string, decoded: Decoded)

  datatype Reason = DecodeFailure(error: ParseError) | KeyCodeMismatch | OrphanShortLink

  datatype DeadLetter = DeadLetter(source: Source, key: string, payload: string, reason: Reason)

  /** What became of a copy in the producer queue; the broker decides before the callback runs. */
  datatype Fate = InFlight | Acked | Failed

  datatype Copy = Copy(record: DeadLetter, fate: Fate)

  /** The dead-letter producer: its queue and the two flags its delivery callback shares. */
  datatype Producer = Producer(queue: seq<Copy>, observed: bool, errored: bool)

  datatype Stage =
    | Begun
    | Inserted
    | Linked(link: nat)
    | Totalled(link: nat)
    | Bucketed(link: nat)
    | Ready(outcome: Outcome)

  datatype Settlement = Wrote(outcome: Outcome) | DeadLettered

  /**
   Where a consumer is inside its message handler. `attempted` tells that the delivery flags
   were cleared for this very record, which the publisher does first thing in an attempt.
   */
  datatype Phase =
    | Idle
    | Handling(at: Source)
    | Persisting(at: Source)
    | InTransaction(at: Source, stage: Stage)
    | Aborting(at: Source, orphan: bool)
    | Publishing(at: Source, reason: Reason, attempted: bool)
    | Committing(at: Source, settlement: Settlement)

  /** `tx` is the open transaction the server holds for this consumer's session. */
  datatype Consumer = Consumer(
    positions: map<nat, nat>,
    phase: Phase,
    tx: Option<seq<Write>>,
    producer: Producer)

  const FRESH := Consumer(map[], Idle, None, Producer([], false, false))

  datatype State = State(
    logs: seq<seq<Message>>,
    offsets: seq<nat>,
    links: LinkTable,
    db: Tables,
    dlq: seq<DeadLetter>,
    consumers: map<nat, Consumer>)

  /**
   How a call ended. `Refused`: an error reply, nothing executed, the transaction stays open.
   `Aborted`: an error and the server discarded the transaction (deadlock victim, dead
   session). `ReplyLost`: executed, but the session died before the reply arrived.
   */
  datatype Reply = Ok | Refused | Aborted | ReplyLost

  datatype Action =
    | Produce(partition: nat, message: Message)
    | DefineLink(code: string, link: nat)
    | ResetOffset(partition: nat, offset: nat)
    | Join(c: nat)
    | Crash(c: nat)
    | Assign(c: nat, partition: nat)
    | Revoke(c: nat, partition: nat)
    | Fetch(c: nat, partition: nat)
    | Classify(c: nat)
    | Begin(c: nat, reply: Reply)
    | Statement(c: nat, reply: Reply)
    | Rollback(c: nat)
    | Unserializable(c: nat)
    | Enqueue(c: nat, accepted: bool)
    | Deliver(c: nat, index: nat, stored: bool, fate: Fate)
    | Report(c: nat, index: nat)
    | EndPublish(c: nat)
    | CommitOffset(c: nat, applied: bool, acknowledged: bool)

  // ---------------------------------------------------------------------------------------
  // Messages.

  predicate InLog(logs: seq<seq<Message>>, at: Source) {
    at.partition < |logs| && at.offset < |logs[at.partition]|
  }

  function MessageAt(logs: seq<seq<Message>>, at: Source): Message
    requires InLog(logs, at)
  {
    logs[at.partition][at.offset]
  }

  /** A message the handler tries to persist: it decodes, and its key is the event's code. */
  predicate Accepted(m: Message) {
    m.decoded.Event? && m.key == m.decoded.event.code
  }

  predicate AcceptedAt(logs: seq<seq<Message>>, at: Source) {
    InLog(logs, at) && Accepted(MessageAt(logs, at))
  }

  function EventAt(logs: seq<seq<Message>>, at: Source): AccessEvent
    requires AcceptedAt(logs, at)
  {
    MessageAt(logs, at).decoded.event
  }

  function RecordFor(logs: seq<seq<Message>>, at: Source, reason: Reason): DeadLetter
    requires InLog(logs, at)
  {
    DeadLetter(at, MessageAt(logs, at).key, MessageAt(logs, at).payload, reason)
  }

  // ---------------------------------------------------------------------------------------
  // The effect of each action.

  function With(s: State, c: nat, k: Consumer): State {
    s.(consumers := s.consumers[c := k])
  }

  /** The event id whose receipt row the session has inserted but not yet committed. */
  function Held(k: Consumer): set<string> {
    if k.tx.Some? && k.tx.value != [] && k.tx.value[0].InsertReceipt? then {k.tx.value[0].id} else {}
  }

  /** Another open transaction holds the row lock on this event id. */
  predicate LockedByOther(s: State, c: nat, id: string) {
    exists d :: d in s.consumers && d != c && id in Held(s.consumers[d])
  }

  function Classified(m: Message, at: Source): Phase {
    if m.decoded.Malformed? then Publishing(at, DecodeFailure(m.decoded.error), false)
    else if m.key != m.decoded.event.code then Publishing(at, KeyCodeMismatch, false)
    else Persisting(at)
  }

  datatype Sql = Write(write: Write) | SelectLink(code: string) | Commit

  /** The statement, with its parameters, that the transaction issues at each stage. */
  function NextSql(e: AccessEvent, at: Source, stage: Stage): Sql {
    match stage
    case Begun => Sql.Write(ReceiptWrite(e, at))
    case Inserted =>
      if e.result.NotFound? then Sql.Write(SetDisposition(e.eventId, NotFoundIgnored)) else SelectLink(e.code)
    case Linked(link) => Sql.Write(UpsertTotal(TotalKey(link, e.result), e.occurredAtMs))
    case Totalled(link) => Sql.Write(UpsertHour(HourKey(link, HourOf(e.occurredAtMs), e.result)))
    case Bucketed(link) => Sql.Write(SetDisposition(e.eventId, Aggregated))
    case Ready(outcome) => Commit
  }

  /** The next statement of the transaction, when it executes and its reply arrives. */
  function Executed(s: State, k: Consumer, e: AccessEvent): Consumer
    requires k.phase.InTransaction? && k.tx.Some?
  {
    var at, ws := k.phase.at, k.tx.value;
    var sql := NextSql(e, at, k.phase.stage);
    match k.phase.stage
    case Begun =>
      if e.eventId in s.db.receipts then k.(phase := InTransaction(at, Ready(Duplicate)))
      else k.(phase := InTransaction(at, Inserted), tx := Some(ws + [sql.write]))
    case Inserted =>
      if e.result.NotFound? then
        k.(phase := InTransaction(at, Ready(IgnoredNotFound)),
           tx := Some(ws + [sql.write]))
      else if sql.code in s.links then k.(phase := InTransaction(at, Linked(s.links[sql.code])))
      else k.(phase := Aborting(at, true))
    case Linked(link) =>
      k.(phase := InTransaction(at, Totalled(link)),
         tx := Some(ws + [sql.write]))
    case Totalled(link) =>
      k.(phase := InTransaction(at, Bucketed(link)),
         tx := Some(ws + [sql.write]))
    case Bucketed(link) =>
      k.(phase := InTransaction(at, Ready(Counted)),
         tx := Some(ws + [sql.write]))
    case Ready(outcome) =>
      k.(phase := Committing(at, Wrote(outcome)), tx := None)
  }

  function DoStatement(s: State, c: nat, k: Consumer, reply: Reply): State
    requires k.phase.InTransaction? && k.tx.Some? && AcceptedAt(s.logs, k.phase.at)
  {
    var at, e := k.phase.at, EventAt(s.logs, k.phase.at);
    var commit := k.phase.stage.Ready?;
    var db' := if commit && (reply.Ok? || reply.ReplyLost?) then PerformAll(s.db, k.tx.value) else s.db;
    match reply
    case Ok =>
      if k.phase.stage.Begun? && LockedByOther(s, c, e.eventId) then s
      else With(s, c, Executed(s, k, e)).(db := db')
    case Refused => With(s, c, k.(phase := Aborting(at, false)))
    case Aborted => With(s, c, k.(phase := Aborting(at, false), tx := None))
    case ReplyLost => With(s, c, k.(phase := Aborting(at, false), tx := None)).(db := db')
  }

  function DoEnqueue(s: State, c: nat, k: Consumer, accepted: bool): State
    requires k.phase.Publishing? && InLog(s.logs, k.phase.at)
  {
    var copy := Copy(RecordFor(s.logs, k.phase.at, k.phase.reason), InFlight);
    With(s, c, k.(phase := k.phase.(attempted := true),
                  producer := Producer(if accepted then k.producer.queue + [copy] else k.producer.queue, false, false)))
  }

  /** A queued copy the broker has not decided on yet. */
  predicate Undecided(producer: Producer, i: nat) {
    i < |producer.queue| && producer.queue[i].fate.InFlight?
  }

  function DoDeliver(s: State, c: nat, k: Consumer, i: nat, stored: bool, fate: Fate): State
    requires i < |k.producer.queue|
  {
    var copy := k.producer.queue[i];
    With(s, c, k.(producer := k.producer.(queue := k.producer.queue[i := copy.(fate := fate)])))
      .(dlq := if stored then s.dlq + [copy.record] else s.dlq)
  }

  function DoReport(s: State, c: nat, k: Consumer, i: nat): State
    requires i < |k.producer.queue|
  {
    var q := k.producer.queue;
    With(s, c, k.(producer := Producer(q[..i] + q[i + 1..], true, q[i].fate.Failed?)))
  }

  function DoCommitOffset(s: State, c: nat, k: Consumer, applied: bool, acknowledged: bool): State
    requires k.phase.Committing? && k.phase.at.partition < |s.offsets|
  {
    var at := k.phase.at;
    var offsets' := if applied then s.offsets[at.partition := at.offset + 1] else s.offsets;
    var k' := if applied && acknowledged
              then k.(phase := Idle, positions := k.positions[at.partition := at.offset + 1]) else k;
    With(s, c, k').(offsets := offsets')
  }

  function Exec(s: State, a: Action): State {
    match a
    case Produce(p, m) =>
      if p < |s.logs| then s.(logs := s.logs[p := s.logs[p] + [m]]) else s
    case DefineLink(code, link) =>
      if code !in s.links then s.(links := s.links[code := link]) else s
    case ResetOffset(p, o) =>
      if p < |s.offsets| && o <= s.offsets[p] then s.(offsets := s.offsets[p := o]) else s
    case Join(c) =>
      if c !in s.consumers then With(s, c, FRESH) else s
    case Crash(c) =>
      if c in s.consumers then With(s, c, FRESH) else s
    case Assign(c, p) =>
      if c in s.consumers && s.consumers[c].phase.Idle? && p < |s.offsets| then
        With(s, c, s.consumers[c].(positions := s.consumers[c].positions[p := s.offsets[p]]))
      else s
    case Revoke(c, p) =>
      if c in s.consumers && s.consumers[c].phase.Idle? then
        With(s, c, s.consumers[c].(positions := s.consumers[c].positions - {p}))
      else s
    case Fetch(c, p) =>
      if c in s.consumers && s.consumers[c].phase.Idle? && p in s.consumers[c].positions
         && InLog(s.logs, Source(p, s.consumers[c].positions[p])) then
        With(s, c, s.consumers[c].(phase := Handling(Source(p, s.consumers[c].positions[p]))))
      else s
    case Classify(c) =>
      if c in s.consumers && s.consumers[c].phase.Handling? && InLog(s.logs, s.consumers[c].phase.at) then
        var at := s.consumers[c].phase.at;
        With(s, c, s.consumers[c].(phase := Classified(MessageAt(s.logs, at), at)))
      else s
    case Begin(c, reply) =>
      if c in s.consumers && s.consumers[c].phase.Persisting? && reply.Ok? then
        With(s, c, s.consumers[c].(phase := InTransaction(s.consumers[c].phase.at, Begun), tx := Some([])))
      else s
    case Statement(c, reply) =>
      if c in s.consumers && s.consumers[c].phase.InTransaction? && s.consumers[c].tx.Some?
         && AcceptedAt(s.logs, s.consumers[c].phase.at) then
        DoStatement(s, c, s.consumers[c], reply)
      else s
    case Rollback(c) =>
      if c in s.consumers && s.consumers[c].phase.Aborting? then
        var k := s.consumers[c];
        With(s, c, k.(phase := if k.phase.orphan then Publishing(k.phase.at, OrphanShortLink, false) else Persisting(k.phase.at),
                      tx := None))
      else s
    case Unserializable(c) => s
    case Enqueue(c, accepted) =>
      if c in s.consumers && s.consumers[c].phase.Publishing? && InLog(s.logs, s.consumers[c].phase.at) then
        DoEnqueue(s, c, s.consumers[c], accepted)
      else s
    case Deliver(c, i, stored, fate) =>
      if c in s.consumers && Undecided(s.consumers[c].producer, i) && (fate.Acked? ==> stored) then
        DoDeliver(s, c, s.consumers[c], i, stored, fate)
      else s
    case Report(c, i) =>
      if c in s.consumers && s.consumers[c].phase.Publishing? && i < |s.consumers[c].producer.queue|
         && !s.consumers[c].producer.queue[i].fate.InFlight? then
        DoReport(s, c, s.consumers[c], i)
      else s
    case EndPublish(c) =>
      if c in s.consumers && s.consumers[c].phase.Publishing? && s.consumers[c].phase.attempted
         && s.consumers[c].producer.queue == []
         && s.consumers[c].producer.observed && !s.consumers[c].producer.errored then
        With(s, c, s.consumers[c].(phase := Committing(s.consumers[c].phase.at, DeadLettered)))
      else s
    case CommitOffset(c, applied, acknowledged) =>
      if c in s.consumers && s.consumers[c].phase.Committing? && s.consumers[c].phase.at.partition < |s.offsets| then
        DoCommitOffset(s, c, s.consumers[c], applied, acknowledged)
      else s
  }

  function Run(s: State, actions: seq<Action>): State
    decreases |actions|
  {
    if actions == [] then s else Run(Exec(s, actions[0]), actions[1..])
  }

  /** A new consumer group over existing logs, starting from the earliest offset. */
  function Initial(logs: seq<seq<Message>>, links: LinkTable): State {
    State(logs, seq(|logs|, _ => 0), links, EMPTY_TABLES, [], map[])
  }

  lemma {:induction false} RunConcat(s: State, a: seq<Action>, b: seq<Action>)
    ensures Run(s, a + b) == Run(Run(s, a), b)
    decreases |a|
  {
    if a == [] {
      assert a + b == b;
    } else {
      assert (a + b)[0] == a[0] && (a + b)[1..] == a[1..] + b;
      RunConcat(Exec(s, a[0]), a[1..], b);
    }
  }
}
