/**
 Whole runs of the consumer as sequences of atomic applications: whatever the interleaving of
 statements, failures and retries of all processes, the tables are those left by applying
 events one after the other, each event id once.
 */
module Linearization {
  import opened AccessEvents
  import opened Projection
  import opened Protocol
  import opened Safety
  import opened Preservation
  import opened ConsumerTheorems
  import opened World

  datatype Application = Application(source: Source, event: AccessEvent)

  /** The tables after these applications, in this order. */
  function Fold(t: Tables, links: LinkTable, done: seq<Application>): Tables
    decreases |done|
  {
    if done == [] then t
    else
      var last := done[|done| - 1];
      ApplyEvent(Fold(t, links, done[..|done| - 1]), links, last.event, last.source).tables
  }

  /** The event is the one the log holds at that position, and it is one that takes a receipt. */
  predicate FromLog(s: State, a: Application) {
    Countable(s.logs, s.links, a.source) && EventAt(s.logs, a.source) == a.event
  }

  predicate Distinct(done: seq<Application>) {
    forall i, j | 0 <= i < j < |done| :: done[i].event.eventId != done[j].event.eventId
  }

  /** The tables of `s` come from `t0` by applying these messages, whose event ids are new and all different. */
  ghost predicate Linearizes(t0: Tables, s: State, done: seq<Application>) {
    && (forall a | a in done :: FromLog(s, a) && a.event.eventId !in t0.receipts)
    && Distinct(done)
    && s.db == Fold(t0, s.links, done)
  }

  predicate Applies(done: seq<Application>, id: string) {
    exists i :: 0 <= i < |done| && done[i].event.eventId == id
  }

  lemma AppliesOneMore(done: seq<Application>, a: Application, id: string)
    ensures Applies(done + [a], id) <==> Applies(done, id) || a.event.eventId == id
  {
    var more := done + [a];
    if Applies(done, id) { var i :| 0 <= i < |done| && done[i].event.eventId == id; assert more[i] == done[i]; }
    if a.event.eventId == id { assert more[|done|] == a; }
  }

  /** A fold adds exactly the receipts of its messages. */
  lemma {:induction false} FoldReceipts(t0: Tables, s: State, done: seq<Application>, id: string)
    requires forall a | a in done :: FromLog(s, a)
    ensures id in Fold(t0, s.links, done).receipts <==> id in t0.receipts || Applies(done, id)
    decreases |done|
  {
    if done != [] {
      hide Applies;
      var n := |done| - 1;
      var front, last := done[..n], done[n];
      assert done == front + [last];
      FoldReceipts(t0, s, front, id);
      AppliesOneMore(front, last, id);
      assert FromLog(s, last);
    } else {
      assert !Applies([], id);
    }
  }

  /** Longer logs and further links do not change what was applied. */
  lemma FromLogKept(s: State, t: State, a: Application)
    requires Grows(s, t) && FromLog(s, a)
    ensures FromLog(t, a)
    ensures forall db, at :: ApplyEvent(db, t.links, a.event, at) == ApplyEvent(db, s.links, a.event, at)
  {
    LogIsKept(s, t, a.source);
  }

  lemma {:induction false} FoldKept(t0: Tables, s: State, t: State, done: seq<Application>)
    requires Grows(s, t) && forall a | a in done :: FromLog(s, a)
    ensures forall a | a in done :: FromLog(t, a)
    ensures Fold(t0, t.links, done) == Fold(t0, s.links, done)
    decreases |done|
  {
    hide Grows, FromLog, ApplyEvent;
    if done != [] {
      var n := |done| - 1;
      assert done == done[..n] + [done[n]];
      FoldKept(t0, s, t, done[..n]);
      FromLogKept(s, t, done[n]);
    }
  }

  lemma AppendApplication(t0: Tables, t: State, done: seq<Application>, a: Application)
    requires forall x | x in done + [a] :: FromLog(t, x)
    requires (forall x | x in done :: x.event.eventId !in t0.receipts) && Distinct(done)
    requires t.db == ApplyEvent(Fold(t0, t.links, done), t.links, a.event, a.source).tables
    requires a.event.eventId !in Fold(t0, t.links, done).receipts
    ensures Linearizes(t0, t, done + [a])
  {
    hide FromLog, ApplyEvent;
    var more := done + [a];
    assert more[..|done|] == done && more[|done|] == a;
    FoldReceiptsOfRun(t0, t, done, a.event.eventId);
    assert forall i | 0 <= i < |done| :: more[i] == done[i];
  }

  lemma FoldReceiptsOfRun(t0: Tables, t: State, done: seq<Application>, id: string)
    requires (forall x | x in done :: FromLog(t, x)) && id !in Fold(t0, t.links, done).receipts
    ensures id !in t0.receipts && forall i | 0 <= i < |done| :: done[i].event.eventId != id
  {
    FoldReceipts(t0, t, done, id);
  }

  /** The application a step makes, if it makes one. */
  lemma StepApplies(s: State, links0: LinkTable, act: Action) returns (a: Application)
    requires Inv(s, links0) && Exec(s, act).db != s.db
    ensures var t := Exec(s, act);
            && FromLog(t, a) && a.event.eventId !in s.db.receipts
            && t.db == ApplyEvent(s.db, t.links, a.event, a.source).tables
  {
    hide Inv, Exec;
    StepIsAtomic(s, links0, act);
    var at :| AcceptedAt(s.logs, at) && Exec(s, act).db == ApplyEvent(s.db, s.links, EventAt(s.logs, at), at).tables;
    a := Application(at, EventAt(s.logs, at));
  }

  /** One more action adds one application or none. */
  lemma StepLinearizes(t0: Tables, s: State, links0: LinkTable, act: Action, done: seq<Application>)
    returns (done': seq<Application>)
    requires Inv(s, links0) && Linearizes(t0, s, done)
    ensures Linearizes(t0, Exec(s, act), done')
  {
    hide Inv, Exec, Fold, FromLog, ApplyEvent, Grows;
    var t := Exec(s, act);
    ExecGrows(s, act);
    FoldKept(t0, s, t, done);
    if t.db == s.db {
      done' := done;
    } else {
      var a := StepApplies(s, links0, act);
      AppendApplication(t0, t, done, a);
      done' := done + [a];
    }
  }

  lemma {:induction false} RunLinearizes(s: State, links0: LinkTable, actions: seq<Action>) returns (done: seq<Application>)
    requires Inv(s, links0)
    ensures Linearizes(s.db, Run(s, actions), done)
    decreases |actions|
  {
    hide Inv, Exec, Linearizes;
    if actions == [] {
      done := [];
      NothingApplied(s);
    } else {
      var n := |actions| - 1;
      assert actions == actions[..n] + [actions[n]];
      RunConcat(s, actions[..n], [actions[n]]);
      assert [actions[n]][1..] == [];
      RunKeeps(s, links0, actions[..n]);
      var before := RunLinearizes(s, links0, actions[..n]);
      done := StepLinearizes(s.db, Run(s, actions[..n]), links0, actions[n], before);
    }
  }

  lemma NothingApplied(s: State)
    ensures Linearizes(s.db, s, [])
  {
  }

  /**
   Every run is a sequence of atomic applications: the tables of a reachable state are those
   that applying some messages of the logs one after the other leaves, with pairwise different
   event ids, one for each receipt.
   */
  lemma TablesAreAFold(logs: seq<seq<Message>>, links: LinkTable, actions: seq<Action>)
    ensures exists done :: Linearizes(EMPTY_TABLES, Reach(logs, links, actions), done)
  {
    hide Inv, Linearizes;
    InitialInv(logs, links);
    var done := RunLinearizes(Initial(logs, links), links, actions);
    assert Linearizes(EMPTY_TABLES, Reach(logs, links, actions), done);
  }

  predicate AppliesOnce(done: seq<Application>, id: string) {
    Applies(done, id) && forall i, j | 0 <= i < |done| && 0 <= j < |done| && done[i].event.eventId == id == done[j].event.eventId :: i == j
  }

  /**
   Zero or one among others: from any reachable state on, whatever all processes do, the tables
   are those of a sequence of applications in which an event that had no receipt occurs exactly
   once if it then has one, and not at all if it has none.
   */
  lemma AppliedOnceAmongOthers(logs: seq<seq<Message>>, links: LinkTable, before: seq<Action>, actions: seq<Action>, id: string)
    requires id !in Reach(logs, links, before).db.receipts
    ensures var s := Reach(logs, links, before);
            var t := Run(s, actions);
            exists done :: Linearizes(s.db, t, done) && (if id in t.db.receipts then AppliesOnce(done, id) else !Applies(done, id))
  {
    hide Inv, Fold, Run, FromLog;
    var s := Reach(logs, links, before);
    ReachableInv(logs, links, before);
    var done := RunLinearizes(s, links, actions);
    FoldReceipts(s.db, Run(s, actions), done, id);
  }

  /** A process that is about to commit the offset of a written message is behind its one application. */
  lemma WrittenWasApplied(logs: seq<seq<Message>>, links: LinkTable, actions: seq<Action>, c: nat)
    requires var t := Reach(logs, links, actions);
             c in t.consumers && t.consumers[c].phase.Committing? && t.consumers[c].phase.settlement.Wrote?
    ensures var t := Reach(logs, links, actions);
            && AcceptedAt(t.logs, t.consumers[c].phase.at)
            && exists done :: Linearizes(EMPTY_TABLES, t, done)
                              && AppliesOnce(done, EventAt(t.logs, t.consumers[c].phase.at).eventId)
  {
    hide Inv, Fold, Run, FromLog;
    var t := Reach(logs, links, actions);
    ReachableInv(logs, links, actions);
    ConsumerOf(t, links, c);
    InitialInv(logs, links);
    TablesAreAFold(logs, links, actions);
    var done :| Linearizes(EMPTY_TABLES, t, done);
    FoldReceipts(EMPTY_TABLES, t, done, EventAt(t.logs, t.consumers[c].phase.at).eventId);
    assert AppliesOnce(done, EventAt(t.logs, t.consumers[c].phase.at).eventId);
  }
}
