/**
 The consumer protocol never paints itself into a corner: from every reachable state, every
 message in hand can still be settled and its offset committed.
 */
module Progress {
  import opened Projection
  import opened Protocol
  import opened Safety
  import opened Preservation
  import opened ConsumerTheorems
  import opened Consumer

  /** Process `c` is done with the message at `at`: settled, committed, ready for the next one. */
  ghost predicate Finished(t: State, c: nat, at: Source) {
    && c in t.consumers && t.consumers[c].phase == Idle
    && at.partition < |t.offsets| && t.offsets[at.partition] == at.offset + 1
    && at.partition in t.consumers[c].positions && t.consumers[c].positions[at.partition] == at.offset + 1
    && Settled(t, at)
  }

  ghost predicate CanFinish(s: State, c: nat, at: Source) {
    exists actions :: Finished(Run(s, actions), c, at)
  }

  lemma StepThen(s: State, a: Action, c: nat, at: Source)
    requires CanFinish(Exec(s, a), c, at)
    ensures CanFinish(s, c, at)
  {
    hide Exec, Finished;
    var actions :| Finished(Run(Exec(s, a), actions), c, at);
    assert ([a] + actions)[1..] == actions;
    assert Run(s, [a] + actions) == Run(Exec(s, a), actions);
  }

  lemma FromCommitting(s: State, links0: LinkTable, c: nat, at: Source)
    requires Inv(s, links0) && c in s.consumers
    requires s.consumers[c].phase.Committing? && s.consumers[c].phase.at == at
    ensures CanFinish(s, c, at)
  {
    hide Inv;
    ConsumerOf(s, links0, c);
    var a := CommitOffset(c, true, true);
    var t := Exec(s, a);
    ExecKeeps(s, links0, a);
    PositionsFit(s, links0);
    assert Finished(t, c, at) by { SettledIsKept(s, t, at); }
    assert Run(t, []) == t;
    StepThen(s, a, c, at);
  }

  lemma PositionsFit(s: State, links0: LinkTable)
    requires Inv(s, links0)
    ensures |s.offsets| == |s.logs|
  {
  }

  /** Decide and report the oldest queued copy. */
  lemma DeliverOne(s: State, links0: LinkTable, c: nat, at: Source)
    requires Inv(s, links0) && c in s.consumers && s.consumers[c].phase.Publishing? && s.consumers[c].phase.at == at
    requires s.consumers[c].producer.queue != [] && s.consumers[c].producer.queue[0].fate.InFlight?
    ensures var t := Exec(s, Deliver(c, 0, true, Acked));
            && Inv(t, links0) && c in t.consumers && t.consumers[c].phase == s.consumers[c].phase
            && t.consumers[c].producer
               == s.consumers[c].producer.(queue := s.consumers[c].producer.queue[0 := s.consumers[c].producer.queue[0].(fate := Acked)])
  {
    hide Inv;
    ExecKeeps(s, links0, Deliver(c, 0, true, Acked));
  }

  lemma ReportOne(s: State, links0: LinkTable, c: nat, at: Source)
    requires Inv(s, links0) && c in s.consumers && s.consumers[c].phase.Publishing? && s.consumers[c].phase.at == at
    requires s.consumers[c].producer.queue != [] && !s.consumers[c].producer.queue[0].fate.InFlight?
    ensures var t := Exec(s, Report(c, 0));
            var q := s.consumers[c].producer.queue;
            && Inv(t, links0) && c in t.consumers && t.consumers[c].phase == s.consumers[c].phase
            && t.consumers[c].producer == Producer(q[1..], true, q[0].fate.Failed?)
  {
    hide Inv;
    ExecKeeps(s, links0, Report(c, 0));
    var q := s.consumers[c].producer.queue;
    assert q[..0] + q[1..] == q[1..];
  }

  lemma EnqueueOne(s: State, links0: LinkTable, c: nat, at: Source)
    requires Inv(s, links0) && c in s.consumers && s.consumers[c].phase.Publishing? && s.consumers[c].phase.at == at
    requires s.consumers[c].producer.queue == []
    ensures var t := Exec(s, Enqueue(c, true));
            && Inv(t, links0) && c in t.consumers
            && t.consumers[c].phase == Publishing(at, s.consumers[c].phase.reason, true)
            && |t.consumers[c].producer.queue| == 1 && t.consumers[c].producer.queue[0].fate.InFlight?
  {
    hide Inv;
    ConsumerOf(s, links0, c);
    ExecKeeps(s, links0, Enqueue(c, true));
  }

  /** Late copies are reported first; then one more attempt whose copy is acknowledged. */
  lemma {:induction false} FromPublishing(s: State, links0: LinkTable, c: nat, at: Source)
    requires Inv(s, links0) && c in s.consumers && s.consumers[c].phase.Publishing? && s.consumers[c].phase.at == at
    ensures CanFinish(s, c, at)
    decreases |s.consumers[c].producer.queue|
  {
    hide Inv, Exec, CanFinish;
    var queue := s.consumers[c].producer.queue;
    if queue == [] {
      var s1 := Exec(s, Enqueue(c, true));
      EnqueueOne(s, links0, c, at);
      var s2 := Exec(s1, Deliver(c, 0, true, Acked));
      DeliverOne(s1, links0, c, at);
      var s3 := Exec(s2, Report(c, 0));
      ReportOne(s2, links0, c, at);
      var s4 := Exec(s3, EndPublish(c));
      EndPublishLeads(s3, links0, c, at);
      FromCommitting(s4, links0, c, at);
      StepThen(s3, EndPublish(c), c, at);
      StepThen(s2, Report(c, 0), c, at);
      StepThen(s1, Deliver(c, 0, true, Acked), c, at);
      StepThen(s, Enqueue(c, true), c, at);
    } else if queue[0].fate.InFlight? {
      var s1 := Exec(s, Deliver(c, 0, true, Acked));
      DeliverOne(s, links0, c, at);
      var s2 := Exec(s1, Report(c, 0));
      ReportOne(s1, links0, c, at);
      FromPublishing(s2, links0, c, at);
      StepThen(s1, Report(c, 0), c, at);
      StepThen(s, Deliver(c, 0, true, Acked), c, at);
    } else {
      var s1 := Exec(s, Report(c, 0));
      ReportOne(s, links0, c, at);
      FromPublishing(s1, links0, c, at);
      StepThen(s, Report(c, 0), c, at);
    }
  }

  lemma EndPublishLeads(s: State, links0: LinkTable, c: nat, at: Source)
    requires Inv(s, links0) && c in s.consumers && s.consumers[c].phase.Publishing? && s.consumers[c].phase.at == at
    requires s.consumers[c].phase.attempted && s.consumers[c].producer == Producer([], true, false)
    ensures var t := Exec(s, EndPublish(c));
            Inv(t, links0) && c in t.consumers && t.consumers[c].phase == Committing(at, DeadLettered)
  {
    hide Inv;
    ExecKeeps(s, links0, EndPublish(c));
  }

  function Rank(stage: Stage): nat {
    match stage
    case Begun => 5
    case Inserted => 4
    case Linked(_) => 3
    case Totalled(_) => 2
    case Bucketed(_) => 1
    case Ready(_) => 0
  }

  /** The only holder of a row lock can be made to let go. */
  lemma CrashReleases(s: State, links0: LinkTable, c: nat, d: nat, id: string)
    requires Inv(s, links0) && c in s.consumers && d in s.consumers && d != c && id in Held(s.consumers[d])
    ensures var t := Exec(s, Crash(d));
            Inv(t, links0) && c in t.consumers && t.consumers[c] == s.consumers[c] && t.logs == s.logs
            && !LockedByOther(t, c, id)
  {
    hide Inv, LocksInv, Exec;
    ExecKeeps(s, links0, Crash(d));
    CrashIsLocal(s, d);
    var t := Exec(s, Crash(d));
    forall e | e in t.consumers && e != c ensures id !in Held(t.consumers[e]) {
      if e != d { OneHolder(s, links0, d, e); }
    }
  }

  lemma CrashIsLocal(s: State, d: nat)
    requires d in s.consumers
    ensures Exec(s, Crash(d)) == With(s, d, FRESH)
  {
  }

  lemma OneHolder(s: State, links0: LinkTable, d: nat, e: nat)
    requires Inv(s, links0) && d in s.consumers && e in s.consumers && d != e
    ensures Held(s.consumers[d]) !! Held(s.consumers[e])
  {
  }

  lemma {:induction false} FromTransaction(s: State, links0: LinkTable, c: nat, at: Source, stage: Stage)
    requires Inv(s, links0) && c in s.consumers && s.consumers[c].phase == InTransaction(at, stage)
    ensures CanFinish(s, c, at)
    decreases Rank(stage), if AcceptedAt(s.logs, at) && LockedByOther(s, c, EventAt(s.logs, at).eventId) then 1 else 0
  {
    hide Inv, Exec, CanFinish, ConsumerInv, LockedByOther;
    ConsumerOf(s, links0, c);
    TransactionIsAccepted(s, links0, c);
    var e := EventAt(s.logs, at);
    if LockedByOther(s, c, e.eventId) && stage.Begun? {
      var d := Holder(s, c, e.eventId);
      CrashReleases(s, links0, c, d, e.eventId);
      FromTransaction(Exec(s, Crash(d)), links0, c, at, stage);
      StepThen(s, Crash(d), c, at);
    } else {
      var a := Statement(c, Ok);
      var t := Exec(s, a);
      ExecKeeps(s, links0, a);
      StatementLeads(s, links0, c, at, stage, Ok);
      if t.consumers[c].phase.InTransaction? {
        FromTransaction(t, links0, c, at, t.consumers[c].phase.stage);
      } else if t.consumers[c].phase.Aborting? {
        FromAborting(t, links0, c, at);
      } else {
        FromCommitting(t, links0, c, at);
      }
      StepThen(s, a, c, at);
    }
  }

  lemma Holder(s: State, c: nat, id: string) returns (d: nat)
    requires LockedByOther(s, c, id)
    ensures d in s.consumers && d != c && id in Held(s.consumers[d])
  {
    d :| d in s.consumers && d != c && id in Held(s.consumers[d]);
  }

  lemma TransactionIsAccepted(s: State, links0: LinkTable, c: nat)
    requires c in s.consumers && ConsumerInv(s, links0, s.consumers[c])
    ensures s.consumers[c].phase.InTransaction? || s.consumers[c].phase.Persisting? ==> AcceptedAt(s.logs, s.consumers[c].phase.at)
  {
  }

  /** After an orphan's rollback the message is published. */
  lemma FromAborting(s: State, links0: LinkTable, c: nat, at: Source)
    requires Inv(s, links0) && c in s.consumers && s.consumers[c].phase == Aborting(at, true)
    ensures CanFinish(s, c, at)
  {
    hide Inv, CanFinish;
    ExecKeeps(s, links0, Rollback(c));
    var t := Exec(s, Rollback(c));
    FromPublishing(t, links0, c, at);
    StepThen(s, Rollback(c), c, at);
  }

  lemma FromPersisting(s: State, links0: LinkTable, c: nat, at: Source)
    requires Inv(s, links0) && c in s.consumers && s.consumers[c].phase == Persisting(at)
    ensures CanFinish(s, c, at)
  {
    hide Inv, CanFinish;
    ExecKeeps(s, links0, Begin(c, Ok));
    var t := Exec(s, Begin(c, Ok));
    FromTransaction(t, links0, c, at, Begun);
    StepThen(s, Begin(c, Ok), c, at);
  }

  lemma FromHandling(s: State, links0: LinkTable, c: nat, at: Source)
    requires Inv(s, links0) && c in s.consumers && s.consumers[c].phase == Handling(at)
    ensures CanFinish(s, c, at)
  {
    hide Inv, CanFinish, Exec, ConsumerInv;
    ConsumerOf(s, links0, c);
    ExecKeeps(s, links0, Classify(c));
    ClassifyLeads(s, links0, c, at);
    var t := Exec(s, Classify(c));
    if t.consumers[c].phase.Publishing? { FromPublishing(t, links0, c, at); }
    else { FromPersisting(t, links0, c, at); }
    StepThen(s, Classify(c), c, at);
  }

  /**
   Progress: in every reachable state, whatever a process is doing with a message, and whoever
   holds a lock it needs, the run can be continued so that the message is settled and its
   offset committed.
   */
  lemma MessageInHandCanFinish(logs: seq<seq<Message>>, links: LinkTable, actions: seq<Action>, c: nat)
    requires var s := Reach(logs, links, actions); c in s.consumers && !s.consumers[c].phase.Idle?
    ensures var s := Reach(logs, links, actions); CanFinish(s, c, s.consumers[c].phase.at)
  {
    hide Inv, CanFinish;
    var s := Reach(logs, links, actions);
    ReachableInv(logs, links, actions);
    match s.consumers[c].phase
    case Idle =>
    case Handling(at) => FromHandling(s, links, c, at);
    case Persisting(at) => FromPersisting(s, links, c, at);
    case InTransaction(at, stage) => FromTransaction(s, links, c, at, stage);
    case Aborting(at, orphan) =>
      if orphan {
        FromAborting(s, links, c, at);
      } else {
        ExecKeeps(s, links, Rollback(c));
        FromPersisting(Exec(s, Rollback(c)), links, c, at);
        StepThen(s, Rollback(c), c, at);
      }
    case Publishing(at, _, _) => FromPublishing(s, links, c, at);
    case Committing(at, _) => FromCommitting(s, links, c, at);
  }
}
