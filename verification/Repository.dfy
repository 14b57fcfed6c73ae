/**
 The in-memory link repository: what creating and updating do to it, and what holds in every
 run of it.
 */
module Repository {
  import opened Options
  import opened Decimal
  import opened Links
  import opened Base62

  datatype LifecycleUpdate = LifecycleUpdate(
    status: Option<LinkStatus>,
    expiresAtProvided: bool,
    expiresAt: Option<int>,
    ownerId: Option<nat>)

  datatype Store = Store(links: map<string, LinkRecord>, nextId: nat)

  const NEW_STORE := Store(map[], 1)

  /** Calls that change the repository; the clock reading is part of the call. */
  datatype Request =
    | Create(originalUrl: string, expiresAt: Option<int>, ownerId: nat, customCode: Option<string>, now: int)
    | Update(code: string, update: LifecycleUpdate, now: int)

  /** What a call returns. A conflict is the exception of a taken code. */
  datatype Answer = Record(record: LinkRecord) | Absent | Conflict

  datatype Stepped = Stepped(store: Store, answer: Answer)

  function RequestedCode(q: Request, id: nat): string
    requires q.Create?
  {
    if q.customCode.Some? then q.customCode.value else Code(id)
  }

  function Revised(r: LinkRecord, update: LifecycleUpdate, now: int): LinkRecord {
    r.(status := if update.status.Some? then update.status.value else r.status,
       expiresAt := if update.expiresAtProvided then update.expiresAt else r.expiresAt,
       updatedAt := now)
  }

  /** One call. The id is consumed even when the code is taken. */
  function Step(s: Store, q: Request): Stepped {
    match q
    case Create(url, expiresAt, ownerId, _, now) =>
      var s' := s.(nextId := (s.nextId + 1) % TWO_TO_64);
      var code := RequestedCode(q, s.nextId);
      if code in s.links then Stepped(s', Conflict)
      else
        var r := LinkRecord(s.nextId, ownerId, code, url, Active, expiresAt, now, now);
        Stepped(s'.(links := s.links[code := r]), Record(r))
    case Update(code, update, now) =>
      if code !in s.links || (update.ownerId.Some? && s.links[code].ownerId != update.ownerId.value)
      then Stepped(s, Absent)
      else
        var r := Revised(s.links[code], update, now);
        Stepped(s.(links := s.links[code := r]), Record(r))
  }

  function Run(s: Store, qs: seq<Request>): Store
    decreases |qs|
  {
    if qs == [] then s else Run(Step(s, qs[0]).store, qs[1..])
  }

  function Creates(qs: seq<Request>): nat {
    if qs == [] then 0 else (if qs[0].Create? then 1 else 0) + Creates(qs[1..])
  }

  // ---------------------------------------------------------------------------------------
  // The invariant.

  /** Every record sits under its own code; ids are positive, unique and already handed out. */
  ghost predicate Inv(s: Store) {
    && 1 <= s.nextId <= MAX_UINT64
    && (forall code | code in s.links :: s.links[code].code == code && 1 <= s.links[code].id < s.nextId)
    && (forall c, d | c in s.links && d in s.links && s.links[c].id == s.links[d].id :: c == d)
  }

  /** The invariant is kept by every call, except that the last 64-bit id wraps the counter. */
  lemma StepKeepsInv(s: Store, q: Request)
    requires Inv(s)
    ensures Inv(Step(s, q).store) <==> (q.Create? ==> s.nextId < MAX_UINT64)
  {
    hide Code;
    var t := Step(s, q).store;
    if q.Create? && s.nextId == MAX_UINT64 {
      assert t.nextId == 0;
    }
  }

  /** In every run that hands out fewer than 2^64 - 1 ids, the invariant holds throughout. */
  lemma {:induction false} RunKeepsInv(s: Store, qs: seq<Request>)
    requires Inv(s) && s.nextId + Creates(qs) <= MAX_UINT64
    ensures Inv(Run(s, qs)) && Run(s, qs).nextId == s.nextId + Creates(qs)
    decreases |qs|
  {
    hide Inv;
    if qs != [] {
      NextId(s, qs[0]);
      StepKeepsInv(s, qs[0]);
      RunKeepsInv(Step(s, qs[0]).store, qs[1..]);
    }
  }

  lemma NextId(s: Store, q: Request)
    ensures Step(s, q).store.nextId == if q.Create? then (s.nextId + 1) % TWO_TO_64 else s.nextId
    ensures Inv(s) ==> 1 <= s.nextId <= MAX_UINT64
  {
  }

  /** What later calls cannot change: a code keeps its id, owner and target; newer codes have newer ids. */
  ghost predicate Later(s: Store, t: Store) {
    && s.nextId <= t.nextId
    && (forall c | c in s.links ::
          && c in t.links && t.links[c].id == s.links[c].id && t.links[c].ownerId == s.links[c].ownerId
          && t.links[c].originalUrl == s.links[c].originalUrl && t.links[c].createdAt == s.links[c].createdAt)
    && (forall c | c in t.links && c !in s.links :: s.nextId <= t.links[c].id)
  }

  /** A code, once defined, means the same link for ever. */
  lemma {:induction false} LinksAreForever(s: Store, qs: seq<Request>)
    requires Inv(s) && s.nextId + Creates(qs) <= MAX_UINT64
    ensures Later(s, Run(s, qs))
    decreases |qs|
  {
    if qs != [] {
      var t := Step(s, qs[0]).store;
      StepIsLater(s, qs[0]);
      StepKeepsInv(s, qs[0]);
      LinksAreForever(t, qs[1..]);
    }
  }

  lemma StepIsLater(s: Store, q: Request)
    requires Inv(s) && (q.Create? ==> s.nextId < MAX_UINT64)
    ensures Later(s, Step(s, q).store)
  {
    hide Code;
  }

  // ---------------------------------------------------------------------------------------
  // Conflicts.

  ghost predicate AskedFor(qs: seq<Request>, code: string) {
    exists i :: 0 <= i < |qs| && qs[i].Create? && qs[i].customCode == Some(code)
  }

  /** Each code is the one generated from its record's id, or a caller asked for it by name. */
  ghost predicate Explained(s: Store, qs: seq<Request>) {
    forall c | c in s.links :: c == Code(s.links[c].id) || AskedFor(qs, c)
  }

  lemma {:induction false} CodesAreExplained(s: Store, past: seq<Request>, qs: seq<Request>)
    requires Explained(s, past)
    ensures Explained(Run(s, qs), past + qs)
    decreases |qs|
  {
    hide Code;
    if qs == [] {
      assert past + qs == past;
    } else {
      var t, now := Step(s, qs[0]).store, past + [qs[0]];
      forall c | c in t.links ensures c == Code(t.links[c].id) || AskedFor(now, c) {
        if c in s.links && AskedFor(past, c) {
          var i :| 0 <= i < |past| && past[i].Create? && past[i].customCode == Some(c);
          assert now[i] == past[i];
        } else if c !in s.links {
          assert now[|past|] == qs[0];
        }
      }
      CodesAreExplained(t, now, qs[1..]);
      assert now + qs[1..] == past + qs;
    }
  }

  lemma {:induction false} CodesStay(s: Store, qs: seq<Request>, c: string)
    requires c in s.links
    ensures c in Run(s, qs).links
    decreases |qs|
  {
    hide Code;
    if qs != [] { CodesStay(Step(s, qs[0]).store, qs[1..], c); }
  }

  /** A code asked for by name is taken from then on, whether or not that call succeeded. */
  lemma {:induction false} AskedForIsTaken(s: Store, qs: seq<Request>, c: string)
    requires AskedFor(qs, c)
    ensures c in Run(s, qs).links
    decreases |qs|
  {
    hide Code;
    var i :| 0 <= i < |qs| && qs[i].Create? && qs[i].customCode == Some(c);
    var t := Step(s, qs[0]).store;
    if i == 0 {
      CodesStay(t, qs[1..], c);
    } else {
      assert qs[1..][i - 1] == qs[i];
      AskedForIsTaken(t, qs[1..], c);
    }
  }

  /**
   A create without a custom code fails exactly when some earlier call asked, by name, for
   the code that the next id generates.
   */
  lemma GeneratedConflict(qs: seq<Request>, q: Request)
    requires Creates(qs) < MAX_UINT64 && q.Create? && q.customCode.None?
    ensures Step(Run(NEW_STORE, qs), q).answer.Conflict? <==> AskedFor(qs, Code(1 + Creates(qs)))
  {
    hide Code, Run, Inv, Explained, Step;
    var s := Run(NEW_STORE, qs);
    NewStoreInv();
    RunKeepsInv(NEW_STORE, qs);
    CodesAreExplained(NEW_STORE, [], qs);
    assert [] + qs == qs;
    ConflictIsTaken(s, q);
    if Code(s.nextId) in s.links {
      TakenWasAskedFor(s, qs);
    } else if AskedFor(qs, Code(s.nextId)) {
      AskedForIsTaken(NEW_STORE, qs, Code(s.nextId));
    }
  }

  lemma NewStoreInv()
    ensures Inv(NEW_STORE) && Explained(NEW_STORE, [])
  {
  }

  lemma ConflictIsTaken(s: Store, q: Request)
    requires q.Create? && q.customCode.None?
    ensures Step(s, q).answer.Conflict? <==> Code(s.nextId) in s.links
  {
    hide Code;
  }

  /** The next id's code cannot have been generated before, so a taken one was asked for. */
  lemma TakenWasAskedFor(s: Store, qs: seq<Request>)
    requires Inv(s) && Explained(s, qs) && Code(s.nextId) in s.links
    ensures AskedFor(qs, Code(s.nextId))
  {
    hide Code, AskedFor;
    var c := Code(s.nextId);
    if c == Code(s.links[c].id) { CodeIsInjective(s.nextId, s.links[c].id); }
  }

  /** Without custom codes in play no create ever conflicts. */
  lemma NoCustomCodesNoConflict(qs: seq<Request>, q: Request)
    requires Creates(qs) < MAX_UINT64 && q.Create? && q.customCode.None?
    requires forall i | 0 <= i < |qs| :: qs[i].Create? ==> qs[i].customCode.None?
    ensures Step(Run(NEW_STORE, qs), q).answer.Record?
    ensures Step(Run(NEW_STORE, qs), q).answer.record.id == 1 + Creates(qs)
  {
    hide Code;
    GeneratedConflict(qs, q);
    RunKeepsInv(NEW_STORE, qs);
  }

  /** A caller who asks for the code of an id still to come makes that create fail. */
  lemma SquattedCode(url: string, owner: nat, now: int)
    ensures var squat := Create(url, None, owner, Some("000002"), now);
            Step(Run(NEW_STORE, [squat]), Create(url, None, owner, None, now)).answer.Conflict?
  {
    var squat := Create(url, None, owner, Some("000002"), now);
    var s := Step(NEW_STORE, squat).store;
    assert Run(NEW_STORE, [squat]) == s by { assert [squat][1..] == []; }
    CodeOfTwo();
    assert "000002" in s.links && s.nextId == 2;
  }

  lemma CodeOfTwo()
    ensures Code(2) == "000002"
  {
    hide Symbol;
    SymbolIs(2);
    Zero();
    assert Significant(2) == 1;
    assert Digits(2, 6) == Digits(0, 5) + ['2'];
    assert Digits(0, 5) == Digits(0, 3) + ['0'] + ['0'];
    assert Digits(0, 3) == Digits(0, 1) + ['0'] + ['0'];
    assert Digits(0, 1) == ['0'];
  }

  // ---------------------------------------------------------------------------------------
  // Listing.

  datatype ListQuery = ListQuery(cursor: nat, limit: nat, ownerId: Option<nat>, status: Option<LinkStatus>)

  predicate Matches(r: LinkRecord, q: ListQuery) {
    && r.id > q.cursor
    && (q.ownerId.Some? ==> r.ownerId == q.ownerId.value)
    && (q.status.Some? ==> r.status == q.status.value)
  }

  predicate Listable(links: map<string, LinkRecord>, q: ListQuery, code: string) {
    code in links && Matches(links[code], q)
  }

  predicate Ascending(records: seq<LinkRecord>) {
    forall i, j | 0 <= i < j < |records| :: records[i].id < records[j].id
  }

  /** The first `limit` matching records in ascending id order: nothing else, and nothing skipped. */
  ghost predicate IsPage(page: seq<LinkRecord>, links: map<string, LinkRecord>, q: ListQuery) {
    && Ascending(page) && |page| <= q.limit
    && (forall r | r in page :: Listable(links, q, r.code) && links[r.code] == r)
    && (forall c | Listable(links, q, c) && links[c] !in page ::
          |page| == q.limit && forall r | r in page :: r.id < links[c].id)
  }

  predicate DistinctIds(records: seq<LinkRecord>) {
    forall i, j | 0 <= i < j < |records| :: records[i].id != records[j].id
  }

  function Insert(sorted: seq<LinkRecord>, r: LinkRecord): seq<LinkRecord> {
    if sorted == [] || sorted[|sorted| - 1].id < r.id then sorted + [r]
    else Insert(sorted[..|sorted| - 1], r) + [sorted[|sorted| - 1]]
  }

  /** The order `std::sort` by id produces. */
  function SortById(records: seq<LinkRecord>): seq<LinkRecord> {
    if records == [] then [] else Insert(SortById(records[..|records| - 1]), records[|records| - 1])
  }

  lemma {:induction false} InsertSorts(sorted: seq<LinkRecord>, r: LinkRecord)
    requires Ascending(sorted) && (forall x | x in sorted :: x.id != r.id)
    ensures Ascending(Insert(sorted, r))
    ensures forall x :: x in Insert(sorted, r) <==> x == r || x in sorted
  {
    if sorted == [] || sorted[|sorted| - 1].id < r.id {
      AppendAscends(sorted, r);
    } else {
      var n := |sorted| - 1;
      var front, last := sorted[..n], sorted[n];
      assert sorted == front + [last];
      InsertSorts(front, r);
      assert last in sorted;
      AppendAscends(Insert(front, r), last);
    }
  }

  lemma AppendAscends(records: seq<LinkRecord>, r: LinkRecord)
    requires Ascending(records) && (forall x | x in records :: x.id < r.id)
    ensures Ascending(records + [r])
    ensures forall x :: x in records + [r] <==> x == r || x in records
  {
  }

  lemma {:induction false} SortSorts(records: seq<LinkRecord>)
    requires DistinctIds(records)
    ensures Ascending(SortById(records))
    ensures forall x :: x in SortById(records) <==> x in records
  {
    if records != [] {
      var n := |records| - 1;
      SortSorts(records[..n]);
      InsertSorts(SortById(records[..n]), records[n]);
      assert records == records[..n] + [records[n]];
    }
  }

  // ---------------------------------------------------------------------------------------
  // The repository object.

  class MemoryShortLinkRepository {
    var links: map<string, LinkRecord>
    var nextId: nat

    function Value(): Store
      reads this
    {
      Store(links, nextId)
    }

    constructor ()
      ensures Value() == NEW_STORE && Inv(Value())
    {
      links, nextId := map[], 1;
    }

    method CreateLink(url: string, expiresAt: Option<int>, ownerId: nat, customCode: Option<string>, now: int)
      returns (answer: Answer)
      modifies this
      ensures Stepped(Value(), answer) == Step(old(Value()), Create(url, expiresAt, ownerId, customCode, now))
      ensures nextId == if old(nextId) == 18446744073709551615 then 0 else (old(nextId) + 1) % 18446744073709551616
      ensures var code := if customCode.Some? then customCode.value else Code(old(nextId));
              if code in old(links) then answer.Conflict? && links == old(links)
              else && answer == Record(LinkRecord(old(nextId), ownerId, code, url, Active, expiresAt, now, now))
                   && links == old(links)[code := answer.record]
    {
      hide Code;
      var id := nextId;
      nextId := (nextId + 1) % TWO_TO_64;
      var code: string;
      if customCode.Some? {
        code := customCode.value;
      } else {
        code := EncodeBase62(id);
      }
      if code in links {
        return Conflict;
      }
      var record := LinkRecord(id, ownerId, code, url, Active, expiresAt, now, now);
      links := links[code := record];
      return Record(record);
    }

    method UpdateLifecycle(code: string, update: LifecycleUpdate, now: int) returns (answer: Answer)
      modifies this
      ensures Stepped(Value(), answer) == Step(old(Value()), Update(code, update, now))
      ensures nextId == old(nextId) && !answer.Conflict?
      ensures answer.Record? <==> code in old(links) && (update.ownerId.Some? ==> update.ownerId.value == old(links)[code].ownerId)
      ensures answer.Absent? ==> links == old(links)
      ensures answer.Record? ==>
                var before := old(links)[code];
                && links == old(links)[code := answer.record]
                && answer.record.status == (if update.status.Some? then update.status.value else before.status)
                && answer.record.expiresAt == (if update.expiresAtProvided then update.expiresAt else before.expiresAt)
                && answer.record.updatedAt == now
                && answer.record == before.(status := answer.record.status, expiresAt := answer.record.expiresAt, updatedAt := now)
    {
      if code !in links || (update.ownerId.Some? && links[code].ownerId != update.ownerId.value) {
        return Absent;
      }
      var record := links[code];
      if update.status.Some? {
        record := record.(status := update.status.value);
      }
      if update.expiresAtProvided {
        record := record.(expiresAt := update.expiresAt);
      }
      record := record.(updatedAt := now);
      links := links[code := record];
      return Record(record);
    }

    method List(q: ListQuery) returns (records: seq<LinkRecord>)
      requires Inv(Value())
      ensures IsPage(records, links, q)
      ensures forall r | r in records ::
                && r.code in links && links[r.code] == r && r.id > q.cursor
                && (q.ownerId.Some? ==> r.ownerId == q.ownerId.value) && (q.status.Some? ==> r.status == q.status.value)
      ensures forall c | c in links && links[c].id > q.cursor
                         && (q.ownerId.Some? ==> links[c].ownerId == q.ownerId.value)
                         && (q.status.Some? ==> links[c].status == q.status.value) ::
                links[c] in records || (|records| == q.limit && forall r | r in records :: r.id < links[c].id)
    {
      records := [];
      var remaining := links.Keys;
      while remaining != {}
        invariant remaining <= links.Keys
        invariant DistinctIds(records)
        invariant forall r | r in records :: Listable(links, q, r.code) && links[r.code] == r && r.code !in remaining
        invariant forall c | Listable(links, q, c) && c !in remaining :: links[c] in records
        decreases remaining
      {
        var c :| c in remaining;
        remaining := remaining - {c};
        if Matches(links[c], q) {
          records := records + [links[c]];
        }
      }
      SortSorts(records);
      records := SortById(records);
      if |records| > q.limit {
        CutIsPage(records, links, q);
        records := records[..q.limit];
      }
    }
  }

  /** Keeping the first `limit` of all matching records leaves a page. */
  lemma CutIsPage(all: seq<LinkRecord>, links: map<string, LinkRecord>, q: ListQuery)
    requires Ascending(all) && |all| > q.limit
    requires forall r | r in all :: Listable(links, q, r.code) && links[r.code] == r
    requires forall c | Listable(links, q, c) :: links[c] in all
    ensures IsPage(all[..q.limit], links, q)
  {
    var page := all[..q.limit];
    forall c | Listable(links, q, c)
      ensures links[c] in page || forall r | r in page :: r.id < links[c].id
    {
      var k :| 0 <= k < |all| && all[k] == links[c];
      if k < q.limit { assert page[k] == links[c]; }
    }
  }
}
