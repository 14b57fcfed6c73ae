/** From the access-event logs to the statistics a user sees. */
module EndToEnd {
  import opened AccessEvents
  import opened Projection
  import opened Protocol
  import opened Safety
  import opened Preservation
  import opened ConsumerTheorems
  import opened World
  import opened Statistics
  import opened Trends

  /** The events behind the committed receipts of a state. */
  function Events(s: State): History {
    HistoryOf(s.logs, s.db.receipts)
  }

  ghost predicate Contained(h: History, g: History) {
    forall id | id in h :: id in g && g[id] == h[id]
  }

  lemma ReachableProjection(logs: seq<seq<Message>>, links: LinkTable, actions: seq<Action>)
    ensures var s := Reach(logs, links, actions);
            Projects(s.db, s.links, Events(s)) && Events(s).Keys == s.db.receipts.Keys
  {
    ReachableInv(logs, links, actions);
  }

  /** No action changes or removes a receipt. */
  lemma ReceiptsStay(s: State, links0: LinkTable, a: Action)
    requires Inv(s, links0)
    ensures forall id | id in s.db.receipts ::
              id in Exec(s, a).db.receipts && Exec(s, a).db.receipts[id] == s.db.receipts[id]
  {
    hide Inv, Exec;
    StepIsAtomic(s, links0, a);
  }

  lemma EventsStay(s: State, links0: LinkTable, a: Action)
    requires Inv(s, links0)
    ensures Contained(Events(s), Events(Exec(s, a)))
  {
    hide Inv, Exec, Grows;
    var t := Exec(s, a);
    ReceiptsStay(s, links0, a);
    ExecGrows(s, a);
    forall id | id in Events(s) ensures id in Events(t) && Events(t)[id] == Events(s)[id] {
      MessageIsKept(s, t, s.db.receipts[id].source);
    }
  }

  /** Whatever happens, events once counted stay counted, and codes keep their links. */
  lemma {:induction false} RunKeepsEvents(s: State, links0: LinkTable, actions: seq<Action>)
    requires Inv(s, links0)
    ensures Contained(Events(s), Events(Run(s, actions)))
    ensures forall code | code in s.links :: code in Run(s, actions).links && Run(s, actions).links[code] == s.links[code]
    decreases |actions|
  {
    hide Inv, Exec, Events;
    if actions != [] {
      var t := Exec(s, actions[0]);
      ExecKeeps(s, links0, actions[0]);
      EventsStay(s, links0, actions[0]);
      ExecGrows(s, actions[0]);
      RunKeepsEvents(t, links0, actions[1..]);
    }
  }

  lemma LaterKeepsEvents(logs: seq<seq<Message>>, links: LinkTable, a: seq<Action>, b: seq<Action>)
    ensures var s, t := Reach(logs, links, a), Reach(logs, links, a + b);
            && Contained(Events(s), Events(t))
            && forall code | code in s.links :: code in t.links && t.links[code] == s.links[code]
  {
    hide Inv, Events;
    RunConcat(Initial(logs, links), a, b);
    ReachableInv(logs, links, a);
    RunKeepsEvents(Reach(logs, links, a), links, b);
  }

  /** The summary is the direct count over these events, the latest times included. */
  ghost predicate SummaryCounts(summary: Summary, h: History, links: LinkTable, link: nat) {
    && (forall i: nat | i < RESULT_COUNT :: summary.counts[i] == |TotalIds(h, links, TotalKey(link, ResultAt(i)))|)
    && IsLatest(summary.lastAccessMs, TotalIds(h, links, TotalKey(link, Success)), h)
    && IsLatest(summary.lastAttemptMs, Attempts(h, links, link), h)
  }

  /**
   A snapshot is taken by three statements, and the consumer may commit between them: the code
   is looked up after the actions `a`, the totals are read after `a + b` and the hourly rows
   after `a + b + c`. The summary is the direct count over the distinct events with a committed
   receipt when the totals were read, the trend the one when the hourly rows were read; the
   events of the first are among those of the second; and no row has an unexpected result.
   */
  lemma SnapshotsCountEvents(logs: seq<seq<Message>>, links: LinkTable, a: seq<Action>, b: seq<Action>, c: seq<Action>,
                             code: string, q: Query, snapshot: Snapshot)
    requires ValidQuery(q) && code in Reach(logs, links, a).links
    requires var link := Reach(logs, links, a).links[code];
             && SummaryOf(snapshot.summary, Reach(logs, links, a + b).db.totals, link)
             && TrendOf(snapshot.trend, Reach(logs, links, a + b + c).db.hourly, link, q)
    ensures var link, s, t := Reach(logs, links, a).links[code], Reach(logs, links, a + b), Reach(logs, links, a + b + c);
            && Events(s).Keys == s.db.receipts.Keys && Events(t).Keys == t.db.receipts.Keys
            && SummaryCounts(snapshot.summary, Events(s), s.links, link)
            && IsTrend(snapshot.trend, Events(t), t.links, link, q)
            && Contained(Events(s), Events(t))
            && code in s.links && code in t.links && s.links[code] == link == t.links[code]
            && TotalKey(link, NotFound) !in s.db.totals
            && forall x :: Group(t.db.hourly, link, q, x, NotFound) == {}
  {
    hide Reach, Events, Contained, Projects, TrendOf, SummaryOf, IsTrend, TotalIds, Attempts, Group, ValidQuery;
    var link, s, t := Reach(logs, links, a).links[code], Reach(logs, links, a + b), Reach(logs, links, a + b + c);
    ReachableProjection(logs, links, a + b);
    ReachableProjection(logs, links, a + b + c);
    LaterKeepsEvents(logs, links, a, b);
    LaterKeepsEvents(logs, links, a + b, c);
    TrendCountsEvents(t.db, Events(t), t.links, link, q, snapshot.trend);
    SummaryCountsEvents(s.db, Events(s), s.links, link, snapshot.summary);
    NoUnexpectedResult(s.db, Events(s), s.links, link, q, 0);
    forall x ensures Group(t.db.hourly, link, q, x, NotFound) == {} {
      NoUnexpectedResult(t.db, Events(t), t.links, link, q, x);
    }
  }

  /** What a link and result count early are the events they count later that had their receipt early. */
  lemma EarlierIds(s: State, t: State, k: TotalKey)
    requires Projects(s.db, s.links, Events(s)) && Contained(Events(s), Events(t))
    requires forall code | code in s.links :: code in t.links && t.links[code] == s.links[code]
    requires Events(s).Keys == s.db.receipts.Keys
    ensures TotalIds(Events(s), s.links, k) == set id | id in TotalIds(Events(t), t.links, k) && id in s.db.receipts
  {
    hide Events;
    forall id | id in s.db.receipts
      ensures id in TotalIds(Events(s), s.links, k) <==> id in TotalIds(Events(t), t.links, k)
    {
      assert id in Events(s) && Events(t)[id] == Events(s)[id];
    }
  }

  lemma SubsetSize<T>(a: set<T>, b: set<T>)
    requires a <= b
    ensures |a| <= |b| && (|a| == |b| <==> a == b)
  {
    assert b == a + (b - a) && a !! (b - a);
    if |a| == |b| { assert b - a == {}; }
  }

  /** The query range leaves out no event of this slot. */
  ghost predicate Covers(q: Query, t: State, k: TotalKey) {
    TotalIds(Events(t), t.links, k) == IdsBetween(Events(t), t.links, k, q.from, q.to)
  }

  lemma CoversIffInRange(q: Query, t: State, k: TotalKey)
    ensures Covers(q, t, k) <==> forall id | id in TotalIds(Events(t), t.links, k) ::
              q.from * 1000 <= Events(t)[id].occurredAtMs < q.to * 1000
  {
    forall id | Covers(q, t, k) && id in TotalIds(Events(t), t.links, k)
      ensures q.from * 1000 <= Events(t)[id].occurredAtMs < q.to * 1000
    {
      assert id in IdsBetween(Events(t), t.links, k, q.from, q.to);
    }
  }

  /**
   Whether the two halves of a snapshot agree: over a range that leaves out no event of the link
   and result, the summary never counts more than the points of the trend together, and the two
   are equal if and only if no event of that link and result got its receipt between the two reads.
   */
  lemma SummaryAndTrendAgreeIff(logs: seq<seq<Message>>, links: LinkTable, a: seq<Action>, b: seq<Action>, c: seq<Action>,
                                code: string, q: Query, snapshot: Snapshot, i: nat)
    requires ValidQuery(q) && code in Reach(logs, links, a).links && i < RESULT_COUNT
    requires var link := Reach(logs, links, a).links[code];
             && SummaryOf(snapshot.summary, Reach(logs, links, a + b).db.totals, link)
             && TrendOf(snapshot.trend, Reach(logs, links, a + b + c).db.hourly, link, q)
             && Covers(q, Reach(logs, links, a + b + c), TotalKey(link, ResultAt(i)))
    ensures var s, t := Reach(logs, links, a + b), Reach(logs, links, a + b + c);
            var k := TotalKey(Reach(logs, links, a).links[code], ResultAt(i));
            var counted := SumBetween(snapshot.trend, i, q.from, q.to);
            && snapshot.summary.counts[i] <= counted
            && (snapshot.summary.counts[i] == counted
                <==> forall id | id in TotalIds(Events(t), t.links, k) :: id in s.db.receipts)
  {
    hide Reach, Events, Contained, Projects, TrendOf, SummaryOf, IsTrend, TotalIds, IdsBetween, Attempts, Group,
         ValidQuery, SumBetween, ResultAt;
    var s, t := Reach(logs, links, a + b), Reach(logs, links, a + b + c);
    var link := Reach(logs, links, a).links[code];
    var k := TotalKey(link, ResultAt(i));
    SnapshotsCountEvents(logs, links, a, b, c, code, q, snapshot);
    ReachableProjection(logs, links, a + b);
    LaterKeepsEvents(logs, links, a + b, c);
    EarlierIds(s, t, k);
    TrendCountsRange(snapshot.trend, Events(t), t.links, link, q, i);
    SubsetSize(TotalIds(Events(s), s.links, k), TotalIds(Events(t), t.links, k));
  }

  /**
   Once the consumer has caught up with the logs, the statistics are those of the logs: the
   events counted are exactly the countable ones, by event id. Each of the two reads counts the
   logs as they then are.
   */
  lemma CaughtUpSnapshotsCountLogs(logs: seq<seq<Message>>, links: LinkTable, a: seq<Action>, b: seq<Action>, c: seq<Action>,
                                   code: string, q: Query, snapshot: Snapshot)
    requires ValidQuery(q) && code in links && forall x | x in a + b + c :: !x.DefineLink?
    requires CaughtUp(Reach(logs, links, a + b)) && CaughtUp(Reach(logs, links, a + b + c))
    requires && SummaryOf(snapshot.summary, Reach(logs, links, a + b).db.totals, links[code])
             && TrendOf(snapshot.trend, Reach(logs, links, a + b + c).db.hourly, links[code], q)
    ensures var s, t := Reach(logs, links, a + b), Reach(logs, links, a + b + c);
            && IsLogHistory(Events(s), s.logs, links) && SummaryCounts(snapshot.summary, Events(s), links, links[code])
            && IsLogHistory(Events(t), t.logs, links) && IsTrend(snapshot.trend, Events(t), links, links[code], q)
  {
    hide Inv, Events, Contained, Projects, TrendOf, SummaryOf, IsTrend, SummaryCounts, IsLogHistory, Group,
         ValidQuery, CaughtUp;
    assert forall x | x in a :: x in a + b + c;
    assert forall x | x in a + b :: x in a + b + c;
    LinksStay(Initial(logs, links), a);
    LinksStay(Initial(logs, links), a + b);
    LinksStay(Initial(logs, links), a + b + c);
    CaughtUpEvents(logs, links, a + b);
    CaughtUpEvents(logs, links, a + b + c);
    SnapshotsCountEvents(logs, links, a, b, c, code, q, snapshot);
  }

  lemma CaughtUpEvents(logs: seq<seq<Message>>, links: LinkTable, actions: seq<Action>)
    requires CaughtUp(Reach(logs, links, actions)) && Reach(logs, links, actions).links == links
    ensures IsLogHistory(Events(Reach(logs, links, actions)), Reach(logs, links, actions).logs, links)
  {
    hide Inv, CaughtUp, IsLogHistory;
    ReachableInv(logs, links, actions);
    CaughtUpHistory(Reach(logs, links, actions), links);
  }
}
