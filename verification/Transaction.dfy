/**
 The statements of one projection transaction, their effect when the server commits them,
 and the proof that the committed sequence is one atomic application of the event.
 */
module Transaction {
  import opened AccessEvents
  import opened Projection

  datatype Write =
    | InsertReceipt(id: string, receipt: Receipt)
    | SetDisposition(id: string, disposition: Disposition)
    | UpsertTotal(totalKey: TotalKey, ms: int)
    | UpsertHour(hourKey: HourKey)

  /**
   The effect of one write at commit. Row locks make each write act on the latest committed
   row, so a transaction is the list of its writes rather than a copy of the tables.
   */
  function Perform(t: Tables, w: Write): Tables {
    match w
    case InsertReceipt(id, receipt) => t.(receipts := t.receipts[id := receipt])
    case SetDisposition(id, d) =>
      if id in t.receipts then t.(receipts := t.receipts[id := t.receipts[id].(disposition := d)]) else t
    case UpsertTotal(k, ms) => t.(totals := AddToTotals(t.totals, k, ms))
    case UpsertHour(k) => t.(hourly := AddToHourly(t.hourly, k))
  }

  function PerformAll(t: Tables, ws: seq<Write>): Tables
    decreases |ws|
  {
    if ws == [] then t else PerformAll(Perform(t, ws[0]), ws[1..])
  }

  function ReceiptWrite(e: AccessEvent, source: Source): Write {
    InsertReceipt(e.eventId, Receipt(source, e.occurredAtMs, Received))
  }

  /** The writes of a complete transaction, in the order the writer issues them. */
  function Program(e: AccessEvent, link: nat, source: Source): seq<Write> {
    if e.result.NotFound? then
      [ReceiptWrite(e, source), SetDisposition(e.eventId, NotFoundIgnored)]
    else
      [ReceiptWrite(e, source),
       UpsertTotal(TotalKey(link, e.result), e.occurredAtMs),
       UpsertHour(HourKey(link, HourOf(e.occurredAtMs), e.result)),
       SetDisposition(e.eventId, Aggregated)]
  }

  lemma PerformOne(t: Tables, w: Write)
    ensures PerformAll(t, [w]) == Perform(t, w)
  {
    assert [w][1..] == [];
  }

  lemma {:induction false} PerformConcat(t: Tables, a: seq<Write>, b: seq<Write>)
    ensures PerformAll(t, a + b) == PerformAll(PerformAll(t, a), b)
    decreases |a|
  {
    if a == [] {
      assert a + b == b;
    } else {
      PerformConcat(Perform(t, a[0]), a[1..], b);
      assert (a + b)[0] == a[0] && (a + b)[1..] == a[1..] + b;
    }
  }

  /** Committing the complete program is the atomic application of the event. */
  lemma CommitIsApply(t: Tables, links: LinkTable, e: AccessEvent, link: nat, source: Source)
    requires e.eventId !in t.receipts
    requires e.result.NotFound? || (e.code in links && links[e.code] == link)
    ensures PerformAll(t, Program(e, link, source)) == ApplyEvent(t, links, e, source).tables
  {
    var p := Program(e, link, source);
    var t1 := Perform(t, p[0]);
    if e.result.NotFound? {
      assert p == [p[0]] + [p[1]];
      PerformConcat(t, [p[0]], [p[1]]);
      PerformOne(t, p[0]);
      PerformOne(t1, p[1]);
    } else {
      assert p == [p[0]] + ([p[1]] + ([p[2]] + [p[3]]));
      PerformConcat(t, [p[0]], [p[1]] + ([p[2]] + [p[3]]));
      PerformOne(t, p[0]);
      PerformConcat(t1, [p[1]], [p[2]] + [p[3]]);
      PerformOne(t1, p[1]);
      var t2 := Perform(t1, p[1]);
      PerformConcat(t2, [p[2]], [p[3]]);
      PerformOne(t2, p[2]);
      PerformOne(Perform(t2, p[2]), p[3]);
    }
  }

  // ---------------------------------------------------------------------------------------
  // Why a failed ROLLBACK must end the session.

  /** Until its last write an unfinished transaction leaves the receipt in state `received`. */
  lemma PrefixLeavesReceived(t: Tables, e: AccessEvent, link: nat, source: Source, n: nat)
    requires 0 < n < |Program(e, link, source)|
    ensures var t' := PerformAll(t, Program(e, link, source)[..n]);
            e.eventId in t'.receipts && t'.receipts[e.eventId].disposition == Received
  {
    var p := Program(e, link, source);
    var t1 := Perform(t, p[0]);
    PerformOne(t, p[0]);
    if n == 1 {
      assert p[..1] == [p[0]];
    } else if n == 2 {
      assert p[..2] == [p[0]] + [p[1]];
      PerformConcat(t, [p[0]], [p[1]]);
      PerformOne(t1, p[1]);
    } else {
      assert p[..3] == [p[0]] + ([p[1]] + [p[2]]);
      PerformConcat(t, [p[0]], [p[1]] + [p[2]]);
      PerformConcat(t1, [p[1]], [p[2]]);
      PerformOne(t1, p[1]);
      PerformOne(Perform(t1, p[1]), p[2]);
    }
  }

  ghost predicate IsProjection(t: Tables, links: LinkTable) {
    exists h :: Projects(t, links, h)
  }

  /**
   A ROLLBACK failure is swallowed and the next attempt starts with START TRANSACTION, which
   commits whatever the session still holds. If the session survived with the first `n`
   writes of an event, the tables stay a projection of some set of events exactly when the
   leftover is empty or complete; in between they hold a receipt without its counts.
   */
  lemma SurvivingSessionIsSafeIffLeftoverIsWhole(
      t: Tables, links: LinkTable, h: History, e: AccessEvent, link: nat, source: Source, n: nat)
    requires Projects(t, links, h) && e.eventId !in t.receipts
    requires e.result.NotFound? || (e.code in links && links[e.code] == link)
    requires n <= |Program(e, link, source)|
    ensures IsProjection(PerformAll(t, Program(e, link, source)[..n]), links)
       <==> n == 0 || n == |Program(e, link, source)|
  {
    var p := Program(e, link, source);
    var t' := PerformAll(t, p[..n]);
    if n == 0 {
      assert p[..0] == [];
      assert Projects(t', links, h);
    } else if n == |p| {
      assert p[..n] == p;
      CommitIsApply(t, links, e, link, source);
      ApplyKeepsProjection(t, links, h, e, source);
      assert Projects(t', links, Record(h, links, e));
    } else {
      PrefixLeavesReceived(t, e, link, source, n);
      forall h' ensures !Projects(t', links, h') {
        assert Projects(t', links, h') ==> e.eventId in h';
      }
    }
  }
}
