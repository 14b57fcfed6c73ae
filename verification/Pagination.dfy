/**
 The list endpoint: reading its parameters, one look-ahead record to find out whether more
 follows, and what a client sees that walks through the pages by following the cursor.
 */
module Pagination {
  import opened Options
  import opened Text
  import opened Decimal
  import opened Links
  import opened Repository

  // ---------------------------------------------------------------------------------------
  // Unsigned numbers with overflow check.

  function Unsigned(value: string): Option<nat> {
    if value != "" && AllDigits(value) && Value(value) <= MAX_UINT64 then Some(Value(value)) else None
  }

  lemma {:induction false} PrefixIsSmaller(value: string, n: nat)
    requires AllDigits(value) && n <= |value|
    ensures Value(value[..n]) <= Value(value)
    decreases |value| - n
  {
    if n == |value| {
      assert value[..n] == value;
    } else {
      PrefixIsSmaller(value, n + 1);
      assert value[..n + 1][..n] == value[..n];
    }
  }

  /** The digit loop; the test before each step is exact, so it neither wraps nor rejects too much. */
  method ParseUnsigned(value: string) returns (r: Option<nat>)
    ensures r == Unsigned(value)
    ensures r.Some? <==> value != "" && AllDigits(value) && Value(value) <= 18446744073709551615
    ensures r.Some? ==> r.value == Value(value)
  {
    if value == "" {
      return None;
    }
    var result: nat := 0;
    for i := 0 to |value|
      invariant AllDigits(value[..i]) && result == Value(value[..i]) && result <= MAX_UINT64
    {
      assert value[..i + 1][..i] == value[..i] && value[..i + 1][i] == value[i];
      if !IsDigit(value[i]) {
        return None;
      }
      var digit := DigitValue(value[i]);
      assert Value(value[..i + 1]) == 10 * result + digit;
      if result > (MAX_UINT64 - digit) / 10 {
        if AllDigits(value) { PrefixIsSmaller(value, i + 1); }
        return None;
      }
      result := result * 10 + digit;
    }
    assert value[..|value|] == value;
    return Some(result);
  }

  /** What the server prints as a cursor it reads back. */
  lemma CursorReadsBack(id: nat)
    requires id <= MAX_UINT64
    ensures Unsigned(Print(id)) == Some(id)
  {
    PrintIsDigits(id);
  }

  // ---------------------------------------------------------------------------------------
  // The endpoint.

  const DEFAULT_LIMIT := 50
  const MAX_LIMIT := 100

  datatype Response =
    | InvalidCursor
    | InvalidLimit
    | InvalidStatus
    | Listed(items: seq<LinkRecord>, nextCursor: Option<nat>)

  function Parameter(params: map<string, string>, name: string): string {
    if name in params then params[name] else ""
  }

  /** The query the parameters ask for, with the limit as requested; or what is wrong with them. */
  datatype Reading = Query(q: ListQuery) | Rejected(response: Response)

  function Read(params: map<string, string>, ownerId: nat): Reading {
    var cursor, limit, status := Parameter(params, "cursor"), Parameter(params, "limit"), Parameter(params, "status");
    if cursor != "" && Unsigned(cursor).None? then Rejected(InvalidCursor)
    else if limit != "" && (Unsigned(limit).None? || !(1 <= Unsigned(limit).value <= MAX_LIMIT)) then Rejected(InvalidLimit)
    else if status != "" && ParseStatus(status).None? then Rejected(InvalidStatus)
    else Query(ListQuery(if cursor == "" then 0 else Unsigned(cursor).value,
                         if limit == "" then DEFAULT_LIMIT else Unsigned(limit).value,
                         Some(ownerId),
                         if status == "" then None else ParseStatus(status)))
  }

  /** A right answer: the page, and a cursor exactly when some matching record is not on it. */
  ghost predicate Answers(response: Response, links: map<string, LinkRecord>, reading: Reading) {
    match reading
    case Rejected(expected) => response == expected
    case Query(q) =>
      && response.Listed?
      && IsPage(response.items, links, q)
      && (response.nextCursor.Some? <==> exists c :: Listable(links, q, c) && links[c] !in response.items)
      && (response.nextCursor.Some? ==>
            response.items != [] && response.nextCursor.value == response.items[|response.items| - 1].id)
  }

  method HandleList(params: map<string, string>, repository: MemoryShortLinkRepository, ownerId: nat)
    returns (response: Response)
    requires Inv(repository.Value())
    ensures Answers(response, repository.links, Read(params, ownerId))
    ensures var cursor, limit, status := Parameter(params, "cursor"), Parameter(params, "limit"), Parameter(params, "status");
            && (response.InvalidCursor? <==> cursor != "" && Unsigned(cursor).None?)
            && (response.InvalidLimit? <==>
                  && !response.InvalidCursor? && limit != ""
                  && (Unsigned(limit).None? || Unsigned(limit).value < 1 || Unsigned(limit).value > 100))
            && (response.InvalidStatus? <==>
                  && !response.InvalidCursor? && !response.InvalidLimit?
                  && status != "" && status != "active" && status != "disabled")
            && (response.Listed? ==>
                  && |response.items| <= (if limit == "" then 50 else Unsigned(limit).value)
                  && forall r | r in response.items ::
                       && r.code in repository.links && repository.links[r.code] == r
                       && r.ownerId == ownerId && (cursor != "" ==> r.id > Unsigned(cursor).value)
                       && (status == "active" ==> r.status.Active?) && (status == "disabled" ==> r.status.Disabled?))
  {
    var query := ListQuery(0, DEFAULT_LIMIT, Some(ownerId), None);
    var cursorValue := Parameter(params, "cursor");
    if cursorValue != "" {
      var cursor := ParseUnsigned(cursorValue);
      if cursor.None? {
        return InvalidCursor;
      }
      query := query.(cursor := cursor.value);
    }
    var limitValue := Parameter(params, "limit");
    if limitValue != "" {
      var limit := ParseUnsigned(limitValue);
      if limit.None? || limit.value < 1 || limit.value > MAX_LIMIT {
        return InvalidLimit;
      }
      query := query.(limit := limit.value);
    }
    var statusValue := Parameter(params, "status");
    if statusValue != "" {
      query := query.(status := ParseStatus(statusValue));
      if query.status.None? {
        return InvalidStatus;
      }
    }
    response := ListWithLookAhead(repository, query);
  }

  /** Ask for one record more than requested; if it comes back, drop it and hand out a cursor. */
  method ListWithLookAhead(repository: MemoryShortLinkRepository, query: ListQuery) returns (response: Response)
    requires Inv(repository.Value()) && query.limit >= 1
    ensures Answers(response, repository.links, Query(query))
  {
    var records := repository.List(query.(limit := query.limit + 1));
    var hasMore := |records| > query.limit;
    if hasMore {
      DropLookAhead(records, repository.links, query);
      records := records[..query.limit];
      return Listed(records, Some(records[|records| - 1].id));
    }
    SamePage(records, repository.links, query);
    return Listed(records, None);
  }

  lemma DropLookAhead(records: seq<LinkRecord>, links: map<string, LinkRecord>, q: ListQuery)
    requires IsPage(records, links, q.(limit := q.limit + 1)) && |records| == q.limit + 1
    ensures IsPage(records[..q.limit], links, q)
    ensures exists c :: Listable(links, q, c) && links[c] !in records[..q.limit]
  {
    var page, last := records[..q.limit], records[q.limit];
    assert records == page + [last];
    assert forall r | r in page :: r in records && r.id < last.id;
    assert last in records;
    assert Listable(links, q.(limit := q.limit + 1), last.code);
    assert Listable(links, q, last.code) && links[last.code] !in page;
    forall c | Listable(links, q, c) && links[c] !in page
      ensures forall r | r in page :: r.id < links[c].id
    {
      assert Listable(links, q.(limit := q.limit + 1), c);
      assert links[c] == last || links[c] !in records;
    }
  }

  lemma SamePage(records: seq<LinkRecord>, links: map<string, LinkRecord>, q: ListQuery)
    requires IsPage(records, links, q.(limit := q.limit + 1)) && |records| <= q.limit
    ensures IsPage(records, links, q)
    ensures forall c | Listable(links, q, c) :: links[c] in records
  {
    forall c | Listable(links, q, c) ensures links[c] in records {
      assert Listable(links, q.(limit := q.limit + 1), c);
    }
    forall r | r in records ensures Listable(links, q, r.code) && links[r.code] == r {
      assert Listable(links, q.(limit := q.limit + 1), r.code);
    }
  }
}
