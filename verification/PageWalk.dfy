/**
 A client walks through a listing: it asks for the first page, then sends back each cursor it
 is given, while other callers go on creating and updating links between its requests.
 */
module PageWalk {
  import opened Decimal
  import opened Links
  import opened Repository
  import opened Pagination

  /** The store each request saw, and the response it got. */
  datatype Walk = Walk(params: map<string, string>, ownerId: nat, stores: seq<Store>, responses: seq<Response>)

  /** Any calls that do not run out of ids may come between two requests. */
  ghost predicate Evolves(s: Store, t: Store) {
    exists qs :: s.nextId + Creates(qs) <= MAX_UINT64 && t == Run(s, qs)
  }

  predicate HandsOn(response: Response) {
    response.Listed? && response.nextCursor.Some?
  }

  /** The parameters of request `i`: the first ones, with the cursor last handed out. */
  function Params(w: Walk, i: nat): map<string, string>
    requires i <= |w.responses|
  {
    if i > 0 && HandsOn(w.responses[i - 1]) then w.params["cursor" := Print(w.responses[i - 1].nextCursor.value)]
    else w.params
  }

  /** There is a next request only if this response handed out a cursor. */
  ghost predicate GoesOn(w: Walk, i: nat)
    requires i + 1 < |w.stores| == |w.responses|
  {
    HandsOn(w.responses[i]) && Evolves(w.stores[i], w.stores[i + 1])
  }

  ghost predicate Answered(w: Walk, i: nat)
    requires i < |w.stores| == |w.responses|
  {
    Answers(w.responses[i], w.stores[i].links, Read(Params(w, i), w.ownerId))
  }

  ghost predicate IsWalk(w: Walk) {
    && |w.stores| == |w.responses| > 0
    && Read(w.params, w.ownerId).Query? && Parameter(w.params, "cursor") == ""
    && Inv(w.stores[0])
    && (forall i | 0 <= i < |w.stores| - 1 :: GoesOn(w, i))
    && (forall i | 0 <= i < |w.stores| :: Answered(w, i))
  }

  function Wanted(w: Walk): ListQuery
    requires Read(w.params, w.ownerId).Query?
  {
    Read(w.params, w.ownerId).q
  }

  /** The walk has come to its end when the last response hands out no cursor. */
  predicate Complete(w: Walk) {
    w.responses != [] && !HandsOn(w.responses[|w.responses| - 1])
  }

  function CursorAt(w: Walk, i: nat): nat
    requires i <= |w.responses|
  {
    if i > 0 && HandsOn(w.responses[i - 1]) then w.responses[i - 1].nextCursor.value else 0
  }

  function Items(response: Response): seq<LinkRecord> {
    if response.Listed? then response.items else []
  }

  /** Everything the first `k` responses listed. */
  function Listing(w: Walk, k: nat): seq<LinkRecord>
    requires k <= |w.responses|
  {
    if k == 0 then [] else Listing(w, k - 1) + Items(w.responses[k - 1])
  }

  // ---------------------------------------------------------------------------------------

  lemma {:induction false} StoresAreSound(w: Walk, i: nat)
    requires IsWalk(w) && i < |w.stores|
    ensures Inv(w.stores[i])
  {
    hide Inv, Answers, Run;
    if i > 0 {
      StoresAreSound(w, i - 1);
      assert GoesOn(w, i - 1);
      var qs :| w.stores[i - 1].nextId + Creates(qs) <= MAX_UINT64 && w.stores[i] == Run(w.stores[i - 1], qs);
      RunKeepsInv(w.stores[i - 1], qs);
    }
  }

  lemma NextIsLater(w: Walk, i: nat)
    requires IsWalk(w) && i + 1 < |w.stores|
    ensures Later(w.stores[i], w.stores[i + 1])
  {
    hide Inv, Answers, Run, Later;
    StoresAreSound(w, i);
    assert GoesOn(w, i);
    var qs :| w.stores[i].nextId + Creates(qs) <= MAX_UINT64 && w.stores[i + 1] == Run(w.stores[i], qs);
    LinksAreForever(w.stores[i], qs);
  }

  lemma ReadWithCursor(params: map<string, string>, ownerId: nat, id: nat)
    requires Read(params, ownerId).Query? && id <= MAX_UINT64
    ensures Read(params["cursor" := Print(id)], ownerId) == Query(Read(params, ownerId).q.(cursor := id))
    ensures Parameter(params, "cursor") == "" ==> Read(params, ownerId).q.cursor == 0
    ensures Read(params, ownerId).q.limit >= 1
  {
    hide Print, Unsigned, ParseStatus;
    PrintIsDigits(id);
    CursorReadsBack(id);
    var params' := params["cursor" := Print(id)];
    assert Parameter(params', "limit") == Parameter(params, "limit");
    assert Parameter(params', "status") == Parameter(params, "status");
  }

  lemma RejectionIsAnError(params: map<string, string>, ownerId: nat)
    ensures Read(params, ownerId).Rejected? ==> !Read(params, ownerId).response.Listed?
  {
  }

  lemma LastItem(w: Walk, i: nat)
    requires IsWalk(w) && i < |w.responses| && HandsOn(w.responses[i])
    ensures var r := w.responses[i]; r.items != [] && r.nextCursor.value == r.items[|r.items| - 1].id
  {
    assert Answered(w, i);
  }

  /** A cursor is the id of a record, so it fits the integer it is read back into. */
  lemma CursorFits(w: Walk, i: nat)
    requires IsWalk(w) && i < |w.responses| && HandsOn(w.responses[i])
    ensures w.responses[i].nextCursor.value < w.stores[i].nextId <= MAX_UINT64
  {
    hide Read, Run, Unsigned;
    StoresAreSound(w, i);
    LastItem(w, i);
    var r := w.responses[i];
    assert Answered(w, i);
    RejectionIsAnError(Params(w, i), w.ownerId);
    var q := Read(Params(w, i), w.ownerId).q;
    assert IsPage(r.items, w.stores[i].links, q);
    var last := r.items[|r.items| - 1];
    assert last in r.items;
    assert Listable(w.stores[i].links, q, last.code) && w.stores[i].links[last.code] == last;
  }

  /** Each response is the right page for the first query, continued behind the cursor. */
  lemma PageOf(w: Walk, i: nat)
    requires IsWalk(w) && i < |w.responses|
    ensures Answers(w.responses[i], w.stores[i].links, Query(Wanted(w).(cursor := CursorAt(w, i))))
    ensures Wanted(w).limit >= 1
  {
    hide Read, Run, Inv, IsPage, Evolves;
    assert Answered(w, i);
    if i == 0 {
      ReadWithCursor(w.params, w.ownerId, 0);
      assert Wanted(w).(cursor := 0) == Wanted(w);
    } else {
      assert GoesOn(w, i - 1);
      CursorFits(w, i - 1);
      ReadWithCursor(w.params, w.ownerId, w.responses[i - 1].nextCursor.value);
    }
    assert Answered(w, i);
  }

  /** A page starts behind its cursor, ends at the next one, and is full if it hands one out. */
  lemma PageBounds(w: Walk, i: nat)
    requires IsWalk(w) && i < |w.responses|
    ensures Ascending(Items(w.responses[i]))
    ensures forall r | r in Items(w.responses[i]) ::
              && CursorAt(w, i) < r.id
              && (HandsOn(w.responses[i]) ==> r.id <= w.responses[i].nextCursor.value)
    ensures HandsOn(w.responses[i]) ==>
              |Items(w.responses[i])| == Wanted(w).limit && w.responses[i].nextCursor.value >= CursorAt(w, i) + Wanted(w).limit
  {
    hide Read, Run, Inv, Evolves;
    PageOf(w, i);
    var r := w.responses[i];
    var q := Wanted(w).(cursor := CursorAt(w, i));
    assert IsPage(r.items, w.stores[i].links, q);
    if HandsOn(r) {
      AscendingSpread(r.items, CursorAt(w, i));
    }
  }

  lemma {:induction false} AscendingSpread(records: seq<LinkRecord>, low: nat)
    requires Ascending(records) && records != [] && forall r | r in records :: r.id > low
    ensures records[|records| - 1].id >= low + |records|
    ensures forall r | r in records :: r.id <= records[|records| - 1].id
  {
    var n := |records| - 1;
    if n > 0 {
      assert records[..n][n - 1] == records[n - 1];
      AscendingSpread(records[..n], low);
    }
  }

  lemma {:induction false} ListingAscends(w: Walk, k: nat)
    requires IsWalk(w) && k <= |w.responses|
    ensures Ascending(Listing(w, k))
    ensures k < |w.responses| ==> forall r | r in Listing(w, k) :: r.id <= CursorAt(w, k)
  {
    hide IsWalk;
    if k > 0 {
      WalkHandsOn(w, k - 1);
      ListingAscends(w, k - 1);
      PageBounds(w, k - 1);
      JoinAscends(Listing(w, k - 1), Items(w.responses[k - 1]), CursorAt(w, k - 1));
    }
  }

  lemma WalkHandsOn(w: Walk, i: nat)
    requires IsWalk(w) && i < |w.responses|
    ensures i > 0 ==> HandsOn(w.responses[i - 1])
    ensures i + 1 < |w.responses| ==> HandsOn(w.responses[i])
    ensures w.responses[i].Listed?
  {
    hide Read, Run, Inv, Evolves, IsPage;
    PageOf(w, i);
    assert i + 1 < |w.responses| ==> GoesOn(w, i);
    assert i > 0 ==> GoesOn(w, i - 1);
  }

  lemma JoinAscends(a: seq<LinkRecord>, b: seq<LinkRecord>, middle: nat)
    requires Ascending(a) && Ascending(b)
    requires (forall r | r in a :: r.id <= middle) && (forall r | r in b :: middle < r.id)
    ensures Ascending(a + b)
  {
  }

  lemma {:induction false} ListedWhere(w: Walk, k: nat, r: LinkRecord)
    requires IsWalk(w) && k <= |w.responses| && r in Listing(w, k)
    ensures exists i :: 0 <= i < k && r in Items(w.responses[i])
  {
    hide IsWalk;
    if r in Items(w.responses[k - 1]) {
    } else {
      ListedWhere(w, k - 1, r);
    }
  }

  lemma {:induction false} ItemsAreListed(w: Walk, k: nat, i: nat)
    requires i < k <= |w.responses|
    ensures forall r | r in Items(w.responses[i]) :: r in Listing(w, k)
  {
    if i < k - 1 { ItemsAreListed(w, k - 1, i); }
  }

  // ---------------------------------------------------------------------------------------

  /** From request `j` on, the record was there and matched; it was there from the start or is newer than request `j - 1`. */
  ghost predicate MatchesFrom(w: Walk, c: string, j: nat)
    requires IsWalk(w)
  {
    && j < |w.stores|
    && (j > 0 ==> c !in w.stores[j - 1].links)
    && forall i | j <= i < |w.stores| :: Listable(w.stores[i].links, Wanted(w), c)
  }

  /** A matching record behind the cursor is on this page or behind the next cursor. */
  lemma ListedOrAhead(w: Walk, i: nat, c: string)
    requires IsWalk(w) && i < |w.stores|
    requires Listable(w.stores[i].links, Wanted(w), c) && w.stores[i].links[c].id > CursorAt(w, i)
    ensures if w.stores[i].links[c] in Items(w.responses[i]) then true
            else HandsOn(w.responses[i]) && w.stores[i].links[c].id > w.responses[i].nextCursor.value
  {
    hide Read, Run, Inv, Evolves;
    PageOf(w, i);
    var q := Wanted(w).(cursor := CursorAt(w, i));
    assert Listable(w.stores[i].links, q, c);
    if w.stores[i].links[c] !in Items(w.responses[i]) {
      var r := w.responses[i];
      assert r.items[|r.items| - 1] in r.items;
    }
  }

  lemma {:induction false} IsListedLater(w: Walk, i: nat, j: nat, c: string)
    requires IsWalk(w) && Complete(w) && MatchesFrom(w, c, j) && j <= i < |w.stores|
    requires w.stores[i].links[c].id > CursorAt(w, i)
    ensures exists r :: r in Listing(w, |w.responses|) && r.code == c
    decreases |w.stores| - i
  {
    hide IsWalk, Inv, Listing, Later;
    WalkShape(w);
    WalkHandsOn(w, i);
    StoresAreSound(w, i);
    ListedOrAhead(w, i, c);
    OwnCode(w.stores[i], c);
    var r := w.stores[i].links[c];
    if r in Items(w.responses[i]) {
      ItemsAreListed(w, |w.responses|, i);
    } else {
      assert i + 1 < |w.stores|;
      NextIsLater(w, i);
      SameId(w.stores[i], w.stores[i + 1], c);
      IsListedLater(w, i + 1, j, c);
    }
  }

  lemma WalkShape(w: Walk)
    requires IsWalk(w)
    ensures |w.stores| == |w.responses| && Read(w.params, w.ownerId).Query?
  {
  }

  lemma OwnCode(s: Store, c: string)
    requires Inv(s) && c in s.links
    ensures s.links[c].code == c && s.links[c].id > 0
  {
  }

  lemma SameId(s: Store, t: Store, c: string)
    requires Later(s, t) && c in s.links
    ensures c in t.links && t.links[c].id == s.links[c].id
  {
  }

  /** A record newer than the previous request is behind every cursor handed out so far. */
  lemma NewIsAhead(w: Walk, j: nat, c: string)
    requires IsWalk(w) && MatchesFrom(w, c, j)
    ensures w.stores[j].links[c].id > CursorAt(w, j)
  {
    hide Read, Run, Inv, Evolves, IsPage;
    StoresAreSound(w, j);
    assert Listable(w.stores[j].links, Wanted(w), c);
    OwnCode(w.stores[j], c);
    if j > 0 {
      assert GoesOn(w, j - 1);
      CursorFits(w, j - 1);
      NextIsLater(w, j - 1);
    }
  }

  /**
   Pagination: whatever other callers create and update in between, the records listed have
   strictly ascending ids, so none comes twice; each was in the store and matched when its
   page was read; and a walk that ends has listed every record that matched throughout, from
   the start or from when it was created.
   */
  lemma WalkListsEachOnce(w: Walk)
    requires IsWalk(w)
    ensures Ascending(Listing(w, |w.responses|))
    ensures forall r | r in Listing(w, |w.responses|) ::
              exists i :: 0 <= i < |w.stores| && Listable(w.stores[i].links, Wanted(w), r.code)
                          && w.stores[i].links[r.code] == r
    ensures Complete(w) ==> forall c, j: nat | MatchesFrom(w, c, j) ::
              exists r :: r in Listing(w, |w.responses|) && r.code == c
  {
    hide IsWalk, MatchesFrom, Listing, Complete;
    WalkShape(w);
    ListingAscends(w, |w.responses|);
    forall r | r in Listing(w, |w.responses|)
      ensures exists i :: 0 <= i < |w.stores| && Listable(w.stores[i].links, Wanted(w), r.code)
                          && w.stores[i].links[r.code] == r
    {
      ListedWhere(w, |w.responses|, r);
      var i :| 0 <= i < |w.responses| && r in Items(w.responses[i]);
      ListedMatched(w, i, r);
    }
    if Complete(w) {
      forall c, j: nat | MatchesFrom(w, c, j)
        ensures exists r :: r in Listing(w, |w.responses|) && r.code == c
      {
        NewIsAhead(w, j, c);
        MatchesInRange(w, c, j);
        IsListedLater(w, j, j, c);
      }
    }
  }

  lemma MatchesInRange(w: Walk, c: string, j: nat)
    requires IsWalk(w) && MatchesFrom(w, c, j)
    ensures j < |w.stores|
  {
  }

  lemma ListedMatched(w: Walk, i: nat, r: LinkRecord)
    requires IsWalk(w) && i < |w.responses| && r in Items(w.responses[i])
    ensures i < |w.stores| && Listable(w.stores[i].links, Wanted(w), r.code) && w.stores[i].links[r.code] == r
  {
    hide Run, Inv, Evolves;
    PageOf(w, i);
    WantsFromStart(w);
    assert IsPage(w.responses[i].items, w.stores[i].links, Wanted(w).(cursor := CursorAt(w, i)));
  }

  lemma WantsFromStart(w: Walk)
    requires IsWalk(w)
    ensures Wanted(w).cursor == 0
  {
    ReadWithCursor(w.params, w.ownerId, 0);
  }

  /** On a store nobody changes, a finished walk has listed exactly the matching records. */
  lemma UndisturbedWalkIsExact(w: Walk)
    requires IsWalk(w) && Complete(w) && forall i | 0 <= i < |w.stores| :: w.stores[i] == w.stores[0]
    ensures forall c | c in w.stores[0].links ::
              Matches(w.stores[0].links[c], Wanted(w)) <==> w.stores[0].links[c] in Listing(w, |w.responses|)
  {
    hide Read, Run, Inv, Evolves, IsPage, Listing, Complete;
    WalkListsEachOnce(w);
    var links := w.stores[0].links;
    StoresAreSound(w, 0);
    forall c | c in links ensures Matches(links[c], Wanted(w)) <==> links[c] in Listing(w, |w.responses|) {
      OwnCode(w.stores[0], c);
      if Matches(links[c], Wanted(w)) {
        assert Listable(links, Wanted(w), c);
        assert MatchesFrom(w, c, 0);
        var r :| r in Listing(w, |w.responses|) && r.code == c;
        assert r == links[c];
      }
    }
  }

  lemma {:induction false} CursorGrows(w: Walk, i: nat)
    requires IsWalk(w) && i < |w.responses|
    ensures i > 0 ==> HandsOn(w.responses[i - 1])
    ensures CursorAt(w, i) >= i * Wanted(w).limit
  {
    hide IsWalk, Read, Items, Ascending;
    WalkShape(w);
    WalkHandsOn(w, i);
    if i > 0 {
      CursorGrows(w, i - 1);
      PageBounds(w, i - 1);
      OneMoreStep(i, Wanted(w).limit);
    }
  }

  lemma OneMoreStep(i: nat, step: nat)
    requires i > 0
    ensures i * step == (i - 1) * step + step
  {
  }

  /** Walks end: the pages before the last one together use up ids, of which there are `nextId - 1`. */
  lemma WalkIsBounded(w: Walk)
    requires IsWalk(w)
    ensures (|w.responses| - 1) * Wanted(w).limit < w.stores[|w.stores| - 1].nextId
    ensures Wanted(w).limit >= 1
  {
    hide Read, Run, Inv, Evolves, Answers, Later;
    var n := |w.responses| - 1;
    PageOf(w, n);
    CursorGrows(w, n);
    StoresAreSound(w, n);
    if n > 0 {
      assert GoesOn(w, n - 1);
      CursorFits(w, n - 1);
      NextIsLater(w, n - 1);
      LaterIds(w.stores[n - 1], w.stores[n]);
    } else {
      StoreHasIds(w.stores[0]);
    }
  }

  lemma LaterIds(s: Store, t: Store)
    requires Later(s, t)
    ensures s.nextId <= t.nextId
  {
  }

  lemma StoreHasIds(s: Store)
    requires Inv(s)
    ensures s.nextId >= 1
  {
  }
}
