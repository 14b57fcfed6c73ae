/**
 The machine does let the environment misbehave: runs in which a reply is lost, a process dies
 between settling a message and committing its offset, and a message is handed out again. The
 theorems about all runs are about these too.
 */
module Faults {
  import opened Options
  import opened Projection
  import opened Transaction
  import opened Protocol
  import opened Safety
  import opened Preservation
  import opened ConsumerTheorems

  lemma RunTwo(s: State, a: Action, b: Action)
    ensures Run(s, [a, b]) == Exec(Exec(s, a), b)
  {
    hide Exec;
    assert [a, b][1..] == [b] && [b][1..] == [];
    assert Run(s, [a, b]) == Run(Exec(s, a), [b]);
  }

  lemma RunFour(s: State, a: Action, b: Action, d: Action, e: Action)
    ensures Run(s, [a, b, d, e]) == Exec(Exec(Exec(Exec(s, a), b), d), e)
  {
    hide Exec;
    assert [a, b, d, e] == [a, b] + [d, e];
    RunConcat(s, [a, b], [d, e]);
    RunTwo(s, a, b);
    RunTwo(Run(s, [a, b]), d, e);
  }

  /** COMMIT takes effect even if its reply is lost, and leaves the process to roll back. */
  lemma LostReplyCommits(s: State, links0: LinkTable, c: nat)
    requires Inv(s, links0) && c in s.consumers
    requires s.consumers[c].phase.InTransaction? && s.consumers[c].phase.stage == Ready(Counted)
    ensures var at := s.consumers[c].phase.at;
            var t := Exec(s, Statement(c, ReplyLost));
            && AcceptedAt(s.logs, at) && t.logs == s.logs && t.links == s.links
            && t.db == ApplyEvent(s.db, s.links, EventAt(s.logs, at), at).tables
            && EventAt(s.logs, at).eventId in t.db.receipts
            && c in t.consumers && t.consumers[c].phase == Aborting(at, false)
  {
    hide Inv;
    ConsumerOf(s, links0, c);
    LocksOf(s, links0, c);
    ReadyWritesAreApply(s, links0, s.consumers[c]);
  }

  /** A process that lost the reply to its COMMIT tries again and finds its own receipt. */
  lemma LostReplyIsDuplicate(s: State, links0: LinkTable, c: nat)
    requires Inv(s, links0) && c in s.consumers
    requires s.consumers[c].phase.InTransaction? && s.consumers[c].phase.stage == Ready(Counted)
    ensures var at := s.consumers[c].phase.at;
            var t := Run(s, [Statement(c, ReplyLost), Rollback(c), Begin(c, Ok), Statement(c, Ok)]);
            && AcceptedAt(s.logs, at) && c in t.consumers
            && t.db == ApplyEvent(s.db, s.links, EventAt(s.logs, at), at).tables
            && t.consumers[c].phase == InTransaction(at, Ready(Duplicate))
  {
    hide Inv, ConsumerInv, ApplyEvent, Exec;
    RunFour(s, Statement(c, ReplyLost), Rollback(c), Begin(c, Ok), Statement(c, Ok));
    var t1 := Exec(s, Statement(c, ReplyLost));
    LostReplyCommits(s, links0, c);
    ExecKeeps(s, links0, Statement(c, ReplyLost));
    RetryFinds(t1, links0, c, s.consumers[c].phase.at);
  }

  lemma ReceiptedIsNotLocked(s: State, links0: LinkTable, c: nat, id: string)
    requires Inv(s, links0) && id in s.db.receipts
    ensures !LockedByOther(s, c, id)
  {
  }

  lemma RetryFinds(s: State, links0: LinkTable, c: nat, at: Source)
    requires Inv(s, links0) && c in s.consumers && s.consumers[c].phase == Aborting(at, false) && AcceptedAt(s.logs, at)
    requires EventAt(s.logs, at).eventId in s.db.receipts
    ensures var t := Exec(Exec(Exec(s, Rollback(c)), Begin(c, Ok)), Statement(c, Ok));
            && t.db == s.db && c in t.consumers && t.consumers[c].phase == InTransaction(at, Ready(Duplicate))
  {
    hide Inv, LockedByOther, PerformAll;
    ExecKeeps(s, links0, Rollback(c));
    ExecKeeps(Exec(s, Rollback(c)), links0, Begin(c, Ok));
    var u := Exec(Exec(s, Rollback(c)), Begin(c, Ok));
    assert u.db == s.db && u.logs == s.logs && u.consumers[c].phase == InTransaction(at, Begun) && u.consumers[c].tx == Some([]);
    ReceiptedIsNotLocked(u, links0, c, EventAt(s.logs, at).eventId);
  }

  /** A process that dies before its offset commit takes effect is handed the message again. */
  lemma CrashRedelivers(s: State, links0: LinkTable, c: nat)
    requires Inv(s, links0) && c in s.consumers && s.consumers[c].phase.Committing?
    requires var at := s.consumers[c].phase.at; at.partition < |s.offsets| && s.offsets[at.partition] == at.offset
    ensures var at := s.consumers[c].phase.at;
            var t := Run(s, [CommitOffset(c, false, false), Crash(c), Assign(c, at.partition), Fetch(c, at.partition)]);
            && t.db == s.db && t.dlq == s.dlq && t.offsets == s.offsets
            && c in t.consumers && t.consumers[c].phase == Handling(at)
  {
    hide Inv;
    ConsumerOf(s, links0, c);
    var at := s.consumers[c].phase.at;
    RunFour(s, CommitOffset(c, false, false), Crash(c), Assign(c, at.partition), Fetch(c, at.partition));
    var u := Exec(Exec(s, CommitOffset(c, false, false)), Crash(c));
    assert u.consumers[c] == FRESH && u.logs == s.logs && u.offsets == s.offsets && u.db == s.db && u.dlq == s.dlq;
  }

  /** If only the reply was lost, the offset has moved on and the message is not handed out again. */
  lemma LostCommitReplyMovesOn(s: State, c: nat)
    requires c in s.consumers && s.consumers[c].phase.Committing? && s.consumers[c].phase.at.partition < |s.offsets|
    ensures var at := s.consumers[c].phase.at;
            var t := Run(s, [CommitOffset(c, true, false), Crash(c), Assign(c, at.partition), Fetch(c, at.partition)]);
            && |t.offsets| == |s.offsets| && t.offsets[at.partition] == at.offset + 1
            && c in t.consumers && t.consumers[c].phase != Handling(at)
  {
    var at := s.consumers[c].phase.at;
    hide Exec;
    RunFour(s, CommitOffset(c, true, false), Crash(c), Assign(c, at.partition), Fetch(c, at.partition));
    CommitThenCrash(s, c);
    AssignThenFetch(Exec(Exec(s, CommitOffset(c, true, false)), Crash(c)), c, at.partition);
  }

  lemma CommitThenCrash(s: State, c: nat)
    requires c in s.consumers && s.consumers[c].phase.Committing? && s.consumers[c].phase.at.partition < |s.offsets|
    ensures var at := s.consumers[c].phase.at;
            var u := Exec(Exec(s, CommitOffset(c, true, false)), Crash(c));
            c in u.consumers && u.consumers[c] == FRESH && u.offsets == s.offsets[at.partition := at.offset + 1]
  {
  }

  lemma AssignThenFetch(s: State, c: nat, p: nat)
    requires c in s.consumers && s.consumers[c].phase.Idle? && p < |s.offsets|
    ensures var t := Exec(Exec(s, Assign(c, p)), Fetch(c, p));
            && t.offsets == s.offsets && c in t.consumers
            && (t.consumers[c].phase.Idle? || t.consumers[c].phase == Handling(Source(p, s.offsets[p])))
  {
  }

  // ---------------------------------------------------------------------------------------
  // The environment can bring about any logs.

  lemma {:induction false} AppendAll(s: State, p: nat, messages: seq<Message>) returns (actions: seq<Action>)
    requires p < |s.logs|
    ensures Run(s, actions) == s.(logs := s.logs[p := s.logs[p] + messages])
    decreases |messages|
  {
    if messages == [] {
      actions := [];
      assert s.logs[p] + messages == s.logs[p];
      assert s.logs[p := s.logs[p]] == s.logs;
    } else {
      var n := |messages| - 1;
      var before := AppendAll(s, p, messages[..n]);
      var a := Produce(p, messages[n]);
      actions := before + [a];
      RunConcat(s, before, [a]);
      RunOne(Run(s, before), a);
      assert messages == messages[..n] + [messages[n]];
      assert s.logs[p] + messages[..n] + [messages[n]] == s.logs[p] + messages;
    }
  }

  lemma RunOne(s: State, a: Action)
    ensures Run(s, [a]) == Exec(s, a)
  {
    hide Exec;
    assert [a][1..] == [];
  }

  /** Any logs can be written, partition by partition, starting from empty ones. */
  lemma {:induction false} AnyLogsAreReached(logs: seq<seq<Message>>, links: LinkTable, n: nat) returns (actions: seq<Action>)
    requires n <= |logs|
    ensures Run(Initial(seq(|logs|, _ => []), links), actions)
         == Initial(seq(|logs|, _ => []), links).(logs := logs[..n] + seq(|logs| - n, _ => []))
    decreases n
  {
    var s0 := Initial(seq(|logs|, _ => []), links);
    if n == 0 {
      actions := [];
      assert logs[..0] + seq(|logs|, _ => []) == s0.logs;
    } else {
      var before := AnyLogsAreReached(logs, links, n - 1);
      var s := Run(s0, before);
      var more := AppendAll(s, n - 1, logs[n - 1]);
      actions := before + more;
      RunConcat(s0, before, more);
      assert s.logs[n - 1] + logs[n - 1] == logs[n - 1];
      assert s.logs[n - 1 := logs[n - 1]] == logs[..n] + seq(|logs| - n, _ => []);
    }
  }
}
