/**
 The world a consumer process talks to: the protocol state, the actions performed so far, and
 the environment's choices for the calls still to come. Each foreign call of the process is a
 method here; it first lets the rest of the system run, then performs the process's own
 action, and both are recorded, so a process can only ever extend a run of the protocol.
 */
module World {
  import opened Options
  import opened Projection
  import opened Transaction
  import opened Protocol
  import opened Safety
  import opened Preservation
  import opened ConsumerTheorems

  /**
   The environment's choices for one foreign call: what everyone else does first, how the
   call ends, which delivery callbacks a flush serves, and the high watermark if it is known.
   */
  datatype Turn = Turn(others: seq<Action>, reply: Reply, served: seq<nat>, high: Option<int>)

  const QUIET := Turn([], Ok, [], None)

  /** Actions of the handler thread of process `c`; broker deliveries happen behind its back. */
  predicate Own(a: Action, c: nat) {
    match a
    case Produce(_, _) => false
    case DefineLink(_, _) => false
    case ResetOffset(_, _) => false
    case Deliver(_, _, _, _) => false
    case _ => a.c == c
  }

  predicate Foreign(others: seq<Action>, c: nat) {
    forall a | a in others :: !Own(a, c)
  }

  /** Same process state up to what the broker decided about queued copies. */
  predicate SameConsumer(k: Consumer, l: Consumer) {
    && k.positions == l.positions && k.phase == l.phase && k.tx == l.tx
    && k.producer.observed == l.producer.observed && k.producer.errored == l.producer.errored
    && |k.producer.queue| == |l.producer.queue|
  }

  lemma SameAsItself(k: Consumer)
    ensures SameConsumer(k, k)
  {
  }

  lemma {:induction false} PerformGrows(t: Tables, ws: seq<Write>)
    ensures t.receipts.Keys <= PerformAll(t, ws).receipts.Keys
    decreases |ws|
  {
    if ws != [] {
      PerformGrows(Perform(t, ws[0]), ws[1..]);
    }
  }

  lemma ExecGrows(s: State, a: Action)
    ensures Grows(s, Exec(s, a))
  {
    if a.Statement? && a.c in s.consumers && s.consumers[a.c].tx.Some? {
      PerformGrows(s.db, s.consumers[a.c].tx.value);
    }
  }

  lemma MessageIsKept(s: State, t: State, at: Source)
    requires Grows(s, t) && InLog(s.logs, at)
    ensures InLog(t.logs, at) && MessageAt(t.logs, at) == MessageAt(s.logs, at)
  {
    LogIsKept(s, t, at);
  }

  lemma GrowsReflexive(s: State)
    ensures Grows(s, s)
  {
  }

  lemma GrowsTransitive(s: State, t: State, u: State)
    requires Grows(s, t) && Grows(t, u)
    ensures Grows(s, u)
  {
    forall p: nat | p < |s.logs| ensures s.logs[p] <= u.logs[p] {
      assert s.logs[p] <= t.logs[p] && t.logs[p] <= u.logs[p];
    }
  }

  /** Nothing the rest of the system does moves process `c`; the shared state only grows. */
  lemma {:induction false} OthersKeep(s: State, others: seq<Action>, c: nat)
    requires c in s.consumers && Foreign(others, c)
    ensures var t := Run(s, others);
            Grows(s, t) && c in t.consumers && SameConsumer(s.consumers[c], t.consumers[c])
            && |t.offsets| == |s.offsets|
    decreases |others|
  {
    if others != [] {
      var t := Exec(s, others[0]);
      ExecGrows(s, others[0]);
      OtherKeeps(s, others[0], c);
      OthersKeep(t, others[1..], c);
      GrowsTransitive(s, t, Run(t, others[1..]));
    }
  }

  lemma OtherKeeps(s: State, a: Action, c: nat)
    requires c in s.consumers && !Own(a, c)
    ensures var t := Exec(s, a);
            c in t.consumers && SameConsumer(s.consumers[c], t.consumers[c]) && |t.offsets| == |s.offsets|
  {
    hide Executed, PerformAll, Classified, LockedByOther, RecordFor, AcceptedAt, MessageAt;
  }

  /**
   What process `c` has been through so far: acknowledged offset commits, transaction statements
   that failed, offset commits that were not acknowledged, attempts to publish a dead letter,
   and what it did with its polls.
   */
  datatype Tally = Tally(commits: nat, failures: nat, refused: nat, attempts: nat, polls: seq<Action>)

  function Note(t: Tally, a: Action, c: nat): Tally {
    if !Own(a, c) then t
    else match a
      case CommitOffset(_, applied, acknowledged) =>
        if applied && acknowledged then t.(commits := t.commits + 1) else t.(refused := t.refused + 1)
      case Begin(_, reply) => if reply.Ok? then t else t.(failures := t.failures + 1)
      case Statement(_, reply) => if reply.Ok? then t else t.(failures := t.failures + 1)
      case Unserializable(_) => t.(attempts := t.attempts + 1)
      case Enqueue(_, _) => t.(attempts := t.attempts + 1)
      case Fetch(_, _) => t.(polls := t.polls + [a])
      case Assign(_, _) => t.(polls := t.polls + [a])
      case Revoke(_, _) => t.(polls := t.polls + [a])
      case _ => t
  }

  function TallyOf(actions: seq<Action>, c: nat): Tally {
    if actions == [] then Tally(0, 0, 0, 0, [])
    else Note(TallyOf(actions[..|actions| - 1], c), actions[|actions| - 1], c)
  }

  lemma {:induction false} ForeignTally(actions: seq<Action>, others: seq<Action>, c: nat)
    requires Foreign(others, c)
    ensures TallyOf(actions + others, c) == TallyOf(actions, c)
    decreases |others|
  {
    if others == [] {
      assert actions + others == actions;
    } else {
      var n := |others| - 1;
      assert (actions + others)[..|actions + others| - 1] == actions + others[..n];
      assert others[n] in others;
      ForeignTally(actions, others[..n], c);
    }
  }

  lemma TallyOfOneMore(actions: seq<Action>, a: Action, c: nat)
    ensures TallyOf(actions + [a], c) == Note(TallyOf(actions, c), a, c)
  {
    assert (actions + [a])[..|actions + [a]| - 1] == actions;
  }

  /** The action hands process `c` a message. */
  predicate HandsOut(s: State, a: Action, c: nat) {
    && a.Fetch? && a.c == c && c in s.consumers && s.consumers[c].phase.Idle?
    && a.partition in s.consumers[c].positions
    && InLog(s.logs, Source(a.partition, s.consumers[c].positions[a.partition]))
  }

  /** How many messages process `c` was handed along a run. */
  function HandedOut(s0: State, actions: seq<Action>, c: nat): nat {
    if actions == [] then 0
    else
      var before, last := actions[..|actions| - 1], actions[|actions| - 1];
      HandedOut(s0, before, c) + (if HandsOut(Run(s0, before), last, c) then 1 else 0)
  }

  lemma {:induction false} ForeignHandsOutNone(s0: State, actions: seq<Action>, others: seq<Action>, c: nat)
    requires Foreign(others, c)
    ensures HandedOut(s0, actions + others, c) == HandedOut(s0, actions, c)
    decreases |others|
  {
    if others == [] {
      assert actions + others == actions;
    } else {
      var n := |others| - 1;
      assert (actions + others)[..|actions + others| - 1] == actions + others[..n];
      assert others[n] in others;
      ForeignHandsOutNone(s0, actions, others[..n], c);
    }
  }

  lemma HandedOutOneMore(s0: State, actions: seq<Action>, a: Action, c: nat)
    ensures HandedOut(s0, actions + [a], c)
         == HandedOut(s0, actions, c) + (if HandsOut(Run(s0, actions), a, c) then 1 else 0)
  {
    assert (actions + [a])[..|actions + [a]| - 1] == actions;
  }

  // ---------------------------------------------------------------------------------------
  // The schedule: one turn for each call to come, and quiet turns ever after.

  function Rest(schedule: seq<Turn>, n: nat): seq<Turn> {
    if n < |schedule| then schedule[n..] else []
  }

  function Head(schedule: seq<Turn>): Turn {
    if schedule == [] then QUIET else schedule[0]
  }

  lemma RestOfRest(schedule: seq<Turn>, m: nat, n: nat)
    ensures Rest(Rest(schedule, m), n) == Rest(schedule, m + n)
  {
  }

  lemma CalmAnswers(schedule: seq<Turn>, n: nat)
    requires Calm(schedule)
    ensures Head(Rest(schedule, n)).reply.Ok?
  {
  }

  lemma RestOfAll(schedule: seq<Turn>)
    ensures Rest(schedule, 0) == schedule
  {
  }

  /** Every call to come is answered, and nobody else moves. */
  predicate Calm(schedule: seq<Turn>) {
    forall turn | turn in schedule :: turn.reply.Ok? && turn.others == []
  }

  /** The answer an action carries is the one the environment gave to the call. */
  predicate Answers(a: Action, s: State, answer: Option<Reply>) {
    match a
    case Begin(_, reply) => answer == Some(reply)
    case Statement(c, reply) =>
      answer.Some? && reply == if Blocked(s, c) && answer.value.Ok? then Refused else answer.value
    case Unserializable(_) => answer == Some(Aborted)
    case Enqueue(_, accepted) => answer.Some? && !answer.value.Aborted? && accepted == answer.value.Ok?
    case CommitOffset(_, applied, acknowledged) =>
      && answer.Some? && acknowledged == answer.value.Ok?
      && applied == (answer.value.Ok? || answer.value.ReplyLost?)
    case _ => true
  }

  /** The next statement of process `c` waits for a row lock of another session. */
  predicate Blocked(s: State, c: nat) {
    && c in s.consumers && s.consumers[c].phase.InTransaction? && s.consumers[c].phase.stage.Begun?
    && AcceptedAt(s.logs, s.consumers[c].phase.at)
    && LockedByOther(s, c, EventAt(s.logs, s.consumers[c].phase.at).eventId)
  }

  /** All other processes. */
  function Others(s: State, c: nat): map<nat, Consumer> { s.consumers - {c} }

  /** Nothing has changed but what process `c` writes itself. */
  predicate Still(s: State, t: State, c: nat) {
    t.logs == s.logs && t.links == s.links && Others(t, c) == Others(s, c)
  }

  lemma OwnLeavesOthers(s: State, a: Action, c: nat)
    requires Own(a, c)
    ensures Still(s, Exec(s, a), c)
  {
    hide Exec, Own;
    OwnMovesOnly(s, a, c);
    OwnKeepsLogs(s, a, c);
  }

  lemma OwnMovesOnly(s: State, a: Action, c: nat)
    requires Own(a, c)
    ensures Others(Exec(s, a), c) == Others(s, c)
  {
    hide Executed, PerformAll, Classified, LockedByOther, RecordFor, AcceptedAt, MessageAt;
  }

  lemma OwnKeepsLogs(s: State, a: Action, c: nat)
    requires Own(a, c)
    ensures Exec(s, a).logs == s.logs && Exec(s, a).links == s.links
  {
    hide Executed, PerformAll, Classified, LockedByOther, RecordFor, AcceptedAt, MessageAt;
  }

  lemma LocksAreOfOthers(s: State, t: State, c: nat, id: string)
    requires Others(s, c) == Others(t, c)
    ensures LockedByOther(s, c, id) == LockedByOther(t, c, id)
  {
    assert forall d | d != c :: d in s.consumers <==> d in Others(s, c);
    assert forall d | d != c :: d in t.consumers <==> d in Others(t, c);
    assert forall d | d != c && d in s.consumers :: s.consumers[d] == Others(s, c)[d];
    assert forall d | d != c && d in t.consumers :: t.consumers[d] == Others(t, c)[d];
  }

  /** What process `c` itself did. */
  function OwnPart(actions: seq<Action>, c: nat): seq<Action> {
    if actions == [] then []
    else
      var last := actions[|actions| - 1];
      OwnPart(actions[..|actions| - 1], c) + (if Own(last, c) then [last] else [])
  }

  lemma {:induction false} OwnPartConcat(a: seq<Action>, b: seq<Action>, c: nat)
    ensures OwnPart(a + b, c) == OwnPart(a, c) + OwnPart(b, c)
    decreases |b|
  {
    if b == [] {
      assert a + b == a;
    } else {
      var n := |b| - 1;
      assert (a + b)[..|a + b| - 1] == a + b[..n];
      OwnPartConcat(a, b[..n], c);
    }
  }

  lemma {:induction false} ForeignIsNotOwn(others: seq<Action>, c: nat)
    requires Foreign(others, c)
    ensures OwnPart(others, c) == []
    decreases |others|
  {
    if others != [] {
      var n := |others| - 1;
      assert others[n] in others;
      ForeignIsNotOwn(others[..n], c);
    }
  }

  /** What process `c` did between two recorded runs. */
  function OwnSince(before: seq<Action>, after: seq<Action>, c: nat): seq<Action>
  {
    if |before| <= |after| then OwnPart(after[|before|..], c) else []
  }

  lemma OwnSinceTransitive(a: seq<Action>, b: seq<Action>, d: seq<Action>, c: nat)
    requires a <= b <= d
    ensures OwnSince(a, d, c) == OwnSince(a, b, c) + OwnSince(b, d, c)
  {
    assert d[|a|..] == b[|a|..] + d[|b|..];
    OwnPartConcat(b[|a|..], d[|b|..], c);
  }

  lemma OwnSinceNone(actions: seq<Action>, c: nat)
    ensures OwnSince(actions, actions, c) == []
  {
    assert actions[|actions|..] == [];
  }

  lemma OwnSinceOne(before: seq<Action>, a: Action, c: nat)
    requires Own(a, c)
    ensures OwnSince(before, before + [a], c) == [a]
  {
    assert (before + [a])[|before|..] == [a];
    assert [a][..|[a]| - 1] == [];
    assert OwnPart([a], c) == OwnPart([], c) + [a];
  }

  /** All there is to know about a moment of a process's run. */
  datatype Moment = Moment(state: State, actions: seq<Action>, schedule: seq<Turn>, counts: Tally, taken: nat)

  /** What a stretch of a run cost a process. */
  datatype Spent = Spent(commits: nat, failures: nat, refused: nat, attempts: nat)

  /**
   From one moment to a later one the recorded run has only grown and nothing shared was taken
   back. With a calm schedule nothing moved but process `c`.
   */
  ghost predicate Grow(m: Moment, n: Moment, c: nat) {
    && Grows(m.state, n.state) && m.actions <= n.actions
    && (Calm(m.schedule) ==> Calm(n.schedule) && Still(m.state, n.state, c))
  }

  /** A stretch without polls in which so many offset commits were acknowledged. */
  ghost predicate Extend(m: Moment, n: Moment, c: nat, commits: nat) {
    && Grow(m, n, c) && n.taken == m.taken
    && n.counts.commits == m.counts.commits + commits && n.counts.polls == m.counts.polls
    && n.counts.failures >= m.counts.failures && n.counts.refused >= m.counts.refused && n.counts.attempts >= m.counts.attempts
  }

  ghost predicate Advance(m: Moment, n: Moment, c: nat, spent: Spent) {
    && Extend(m, n, c, spent.commits)
    && n.counts.failures == m.counts.failures + spent.failures
    && n.counts.refused == m.counts.refused + spent.refused
    && n.counts.attempts == m.counts.attempts + spent.attempts
  }

  lemma Stay(m: Moment, c: nat)
    ensures Advance(m, m, c, Spent(0, 0, 0, 0))
  {
  }

  lemma StayGrown(m: Moment, c: nat)
    ensures Grow(m, m, c)
  {
  }

  lemma GrowThen(l: Moment, m: Moment, n: Moment, c: nat)
    requires Grow(l, m, c) && Grow(m, n, c)
    ensures Grow(l, n, c)
  {
    hide Others, Calm, Grows;
    GrowsTransitive(l.state, m.state, n.state);
  }

  lemma Then(l: Moment, m: Moment, n: Moment, c: nat, a: Spent, b: Spent)
    requires Advance(l, m, c, a) && Advance(m, n, c, b)
    ensures Advance(l, n, c, Spent(a.commits + b.commits, a.failures + b.failures, a.refused + b.refused, a.attempts + b.attempts))
    ensures OwnSince(l.actions, n.actions, c) == OwnSince(l.actions, m.actions, c) + OwnSince(m.actions, n.actions, c)
    ensures Grows(l.state, n.state)
  {
    assert l.actions <= m.actions <= n.actions;
    OwnSinceTransitive(l.actions, m.actions, n.actions, c);
    hide Grow;
    GrowThen(l, m, n, c);
    assert Grow(l, n, c) ==> Grows(l.state, n.state) by { GrowGrows(l, n, c); }
  }

  lemma GrowGrows(m: Moment, n: Moment, c: nat)
    requires Grow(m, n, c)
    ensures Grows(m.state, n.state) && m.actions <= n.actions
  {
  }

  lemma AdvanceGrows(m: Moment, n: Moment, c: nat, spent: Spent)
    requires Advance(m, n, c, spent)
    ensures Extend(m, n, c, spent.commits) && Grows(m.state, n.state) && m.actions <= n.actions
  {
  }

  lemma ExtendThen(l: Moment, m: Moment, n: Moment, c: nat, a: nat, b: nat)
    requires Extend(l, m, c, a) && Extend(m, n, c, b)
    ensures Extend(l, n, c, a + b)
  {
    hide Grow;
    GrowThen(l, m, n, c);
  }

  /** The message in hand stays where it is. */
  lemma MessageStays(m: Moment, n: Moment, c: nat, spent: Spent, at: Source)
    requires Advance(m, n, c, spent) && InLog(m.state.logs, at)
    ensures InLog(n.state.logs, at) && MessageAt(n.state.logs, at) == MessageAt(m.state.logs, at)
    ensures Grows(m.state, n.state) && m.actions <= n.actions
  {
    LogIsKept(m.state, n.state, at);
  }

  /** In a calm stretch the links stay, and so do the locks of other sessions. */
  lemma CalmStays(m: Moment, n: Moment, c: nat, spent: Spent, id: string)
    requires Advance(m, n, c, spent) && Calm(m.schedule)
    ensures Calm(n.schedule) && n.state.links == m.state.links
    ensures LockedByOther(m.state, c, id) == LockedByOther(n.state, c, id)
  {
    LocksAreOfOthers(m.state, n.state, c, id);
  }

  class Environment {
    ghost const logs0: seq<seq<Message>>
    ghost const links0: LinkTable
    const me: nat
    ghost var actions: seq<Action>
    /** What the environment answers to the call in progress. */
    ghost var answer: Option<Reply>
    var state: State
    var schedule: seq<Turn>

    /** The recorded actions are a run of the protocol that leads to the present state. */
    ghost predicate Valid()
      reads this
    {
      && state == Reach(logs0, links0, actions)
      && me in state.consumers
      && forall turn | turn in schedule :: Foreign(turn.others, me)
    }

    ghost function Counts(): Tally
      reads this
    {
      TallyOf(actions, me)
    }

    /** How many messages this process was handed. */
    ghost function Taken(): nat
      reads this
    {
      HandedOut(Initial(logs0, links0), actions, me)
    }

    /** The state in which the next call will take effect. */
    ghost function Next(): State
      reads this
    {
      Run(state, Head(schedule).others)
    }

    ghost function Now(): Moment
      reads this
    {
      Moment(state, actions, schedule, Counts(), Taken())
    }

    twostate predicate Grown()
      reads this
    {
      Valid() && Grow(old(Now()), Now(), me)
    }

    /** A stretch without polls in which so many offset commits were acknowledged. */
    twostate predicate Extended(commits: nat)
      reads this
    {
      Valid() && Extend(old(Now()), Now(), me, commits)
    }

    /** Also, so many statements failed, offset commits went unacknowledged and dead letters were tried. */
    twostate predicate Advanced(commits: nat, failures: nat := 0, refused: nat := 0, attempts: nat := 0)
      reads this
    {
      Valid() && Advance(old(Now()), Now(), me, Spent(commits, failures, refused, attempts))
    }

    /** A poll that did `a` and handed out a message or not. */
    twostate predicate Polled(a: Action, handedOut: bool)
      reads this
    {
      && Grown() && Taken() == old(Taken()) + (if handedOut then 1 else 0)
      && Counts() == old(Counts()).(polls := old(Counts()).polls + [a])
    }

    /** What this process did since the earlier state. */
    twostate function Did(): seq<Action>
      reads this
    {
      OwnSince(old(actions), actions, me)
    }

    constructor (logs: seq<seq<Message>>, links: LinkTable, before: seq<Action>, me: nat, schedule: seq<Turn>)
      requires me in Reach(logs, links, before).consumers
      requires forall turn | turn in schedule :: Foreign(turn.others, me)
      ensures Valid() && actions == before && this.me == me && logs0 == logs && links0 == links
      ensures this.schedule == schedule
    {
      logs0, links0, actions, answer := logs, links, before, None;
      state, this.me, this.schedule := Reach(logs, links, before), me, schedule;
    }

    function Where(): Phase
      reads this
      requires me in state.consumers
    {
      state.consumers[me].phase
    }

    lemma Invariant()
      requires Valid()
      ensures Inv(state, links0) && ConsumerInv(state, links0, state.consumers[me])
    {
      ReachableInv(logs0, links0, actions);
    }

    /** Let everyone else act, up to the point where this process's call takes effect. */
    method Await() returns (turn: Turn)
      requires Valid()
      modifies this
      ensures turn == Head(old(schedule)) && schedule == Rest(old(schedule), 1) && answer == Some(turn.reply)
      ensures Advanced(0) && Foreign(turn.others, me) && Did() == []
      ensures actions == old(actions) + turn.others && state == old(Next())
      ensures old(Calm(schedule)) ==> state == old(state) && turn.reply.Ok?
      ensures SameConsumer(old(state.consumers[me]), state.consumers[me])
    {
      hide TallyOf, HandedOut, Exec, SameConsumer, Grows, OwnPart, Others;
      turn := QUIET;
      if schedule != [] {
        turn := schedule[0];
        assert turn in schedule;
        schedule := schedule[1..];
        OthersKeep(state, turn.others, me);
        RunConcat(Initial(logs0, links0), actions, turn.others);
        ForeignTally(actions, turn.others, me);
        ForeignHandsOutNone(Initial(logs0, links0), actions, turn.others, me);
        ForeignIsNotOwn(turn.others, me);
        state := Run(state, turn.others);
        actions := actions + turn.others;
        assert actions[|old(actions)|..] == turn.others;
      } else {
        GrowsReflexive(state);
        SameAsItself(state.consumers[me]);
        assert actions + [] == actions;
        OwnSinceNone(actions, me);
      }
      answer := Some(turn.reply);
    }

    /** One action of this process; a call has to carry the answer the environment gave. */
    method Act(a: Action)
      requires Valid() && Own(a, me) && Answers(a, state, answer)
      modifies this`state, this`actions, this`answer
      ensures state == Exec(old(state), a) && actions == old(actions) + [a] && answer == None
      ensures me in state.consumers ==> Valid()
      ensures Grows(old(state), state) && Did() == [a]
      ensures Counts() == Note(old(Counts()), a, me)
      ensures Taken() == old(Taken()) + (if HandsOut(old(state), a, me) then 1 else 0)
      ensures Still(old(state), state, me)
    {
      hide TallyOf, HandedOut, Note, HandsOut;
      OwnSinceOne(actions, a, me);
      RunConcat(Initial(logs0, links0), actions, [a]);
      assert Run(state, [a]) == Exec(state, a) by { assert [a][1..] == []; }
      ExecGrows(state, a);
      TallyOfOneMore(actions, a, me);
      HandedOutOneMore(Initial(logs0, links0), actions, a, me);
      OwnLeavesOthers(state, a, me);
      state := Exec(state, a);
      actions := actions + [a];
      answer := None;
    }
  }
}
