/** Short link records, and the text under which the Redis cache keeps them. */
module Links {
  import opened Options

  datatype LinkStatus = Active | Disabled

  datatype LinkRecord = LinkRecord(
    id: nat,
    ownerId: nat,
    code: string,
    originalUrl: string,
    status: LinkStatus,
    expiresAt: Option<int>,
    createdAt: int,
    updatedAt: int)

  function StatusText(status: LinkStatus): string {
    if status.Active? then "active" else "disabled"
  }

  function ParseStatus(value: string): Option<LinkStatus> {
    if value == "active" then Some(Active)
    else if value == "disabled" then Some(Disabled)
    else None
  }
}

module CacheCodec {
  import opened Options
  import opened Text
  import opened Decimal
  import opened Links

  function ExpiryText(expiresAt: Option<int>): string {
    if expiresAt.Some? then PrintInt(expiresAt.value) else "-"
  }

  /** The seven fields before the URL; the URL comes last and may itself contain separators. */
  function Fields(r: LinkRecord): seq<string> {
    ["v2", PrintInt(r.id), PrintInt(r.ownerId), StatusText(r.status), ExpiryText(r.expiresAt),
     PrintInt(r.createdAt), PrintInt(r.updatedAt)]
  }

  function Join(fields: seq<string>, last: string): string
  {
    if fields == [] then last else fields[0] + "|" + Join(fields[1..], last)
  }

  function Serialize(r: LinkRecord): string {
    Join(Fields(r), r.originalUrl)
  }

  function After(fields: seq<string>, rest: Option<seq<string>>): Option<seq<string>> {
    if rest.None? then None else Some(fields + rest.value)
  }

  /** The first `n` fields and what follows them; `None` if a separator is missing. */
  function Split(value: string, n: nat): Option<seq<string>>
  {
    if n == 0 then Some([value])
    else
      var end := IndexOf(value, '|');
      if end == |value| then None
      else After([value[..end]], Split(value[end + 1..], n - 1))
  }

  lemma AfterNothing(rest: Option<seq<string>>)
    ensures After([], rest) == rest
  {
    if rest.Some? { assert [] + rest.value == rest.value; }
  }

  lemma AfterOneMore(fields: seq<string>, value: string, n: nat)
    requires n > 0
    ensures var end := IndexOf(value, '|');
            After(fields, Split(value, n))
            == if end == |value| then None else After(fields + [value[..end]], Split(value[end + 1..], n - 1))
  {
    hide IndexOf;
    var end := IndexOf(value, '|');
    if end < |value| { AfterShift(fields, value[..end], Split(value[end + 1..], n - 1)); }
  }

  lemma AfterShift(fields: seq<string>, f: string, rest: Option<seq<string>>)
    ensures After(fields, After([f], rest)) == After(fields + [f], rest)
  {
    if rest.Some? { assert fields + ([f] + rest.value) == fields + [f] + rest.value; }
  }

  lemma WholeIsLast(value: string)
    ensures Split(value, 0) == Some([value])
  {
  }

  lemma SplitLength(value: string, n: nat)
    requires Split(value, n).Some?
    ensures |Split(value, n).value| == n + 1
  {
  }

  /** What eight fields mean as a record stored under `code`. */
  function Assemble(code: string, fields: seq<string>): Option<LinkRecord>
    requires |fields| == 8
  {
    if fields[0] != "v2" || fields[7] == "" then None
    else
      var expiry := if fields[4] == "-" then Some(None) else match Stoll(fields[4]) case None => None case Some(n) => Some(Some(n));
      match (ParseStatus(fields[3]), Stoull(fields[1]), Stoull(fields[2]), expiry, Stoll(fields[5]), Stoll(fields[6]))
      case (Some(status), Some(id), Some(owner), Some(expiresAt), Some(createdAt), Some(updatedAt)) =>
        Some(LinkRecord(id, owner, code, fields[7], status, expiresAt, createdAt, updatedAt))
      case _ => None
  }

  function Deserialize(code: string, value: string): Option<LinkRecord> {
    if |value| < 3 || value[..3] != "v2|" then None
    else
      match Split(value, 7)
      case None => None
      case Some(fields) => SplitLength(value, 7); Assemble(code, fields)
  }

  /** The decoder: a loop that cuts at seven separators, then the conversions, any of which may fail. */
  method Decode(code: string, value: string) returns (r: Option<LinkRecord>)
    ensures r == Deserialize(code, value)
  {
    hide Split, Stoull, Stoll;
    if |value| < 3 || value[..3] != "v2|" {
      return None;
    }
    var fields: seq<string> := [];
    var begin := 0;
    assert value[0..] == value;
    AfterNothing(Split(value, 7));
    for separator := 0 to 7
      invariant begin <= |value| && |fields| == separator
      invariant Split(value, 7) == After(fields, Split(value[begin..], 7 - separator))
    {
      AfterOneMore(fields, value[begin..], 7 - separator);
      var end := begin + IndexOf(value[begin..], '|');
      if end == |value| {
        return None;
      }
      assert value[begin..][end - begin + 1..] == value[end + 1..];
      assert value[begin..][..end - begin] == value[begin..end];
      fields := fields + [value[begin..end]];
      begin := end + 1;
    }
    WholeIsLast(value[begin..]);
    fields := fields + [value[begin..]];
    if fields[0] != "v2" || fields[7] == "" {
      return None;
    }
    var status := ParseStatus(fields[3]);
    if status.None? {
      return None;
    }
    var id, ownerId := Stoull(fields[1]), Stoull(fields[2]);
    if id.None? || ownerId.None? {
      return None;
    }
    var expiresAt := None;
    if fields[4] != "-" {
      expiresAt := Stoll(fields[4]);
      if expiresAt.None? {
        return None;
      }
    }
    var createdAt, updatedAt := Stoll(fields[5]), Stoll(fields[6]);
    if createdAt.None? || updatedAt.None? {
      return None;
    }
    return Some(LinkRecord(id.value, ownerId.value, code, fields[7], status.value, expiresAt, createdAt.value, updatedAt.value));
  }

  // ---------------------------------------------------------------------------------------

  predicate Int64(n: int) { MIN_INT64 <= n <= MAX_INT64 }

  /** The values the C++ record type can hold. */
  predicate InRange(r: LinkRecord) {
    && r.id <= MAX_UINT64 && r.ownerId <= MAX_UINT64
    && (r.expiresAt.Some? ==> Int64(r.expiresAt.value))
    && Int64(r.createdAt) && Int64(r.updatedAt)
  }

  lemma {:induction false} SplitsJoined(fields: seq<string>, last: string)
    requires forall f | f in fields :: '|' !in f
    ensures Split(Join(fields, last), |fields|) == Some(fields + [last])
  {
    if fields == [] {
      assert fields + [last] == [last];
    } else {
      var value, rest := Join(fields, last), Join(fields[1..], last);
      assert value == fields[0] + "|" + rest;
      assert forall j | 0 <= j < |fields[0]| :: value[j] == fields[0][j] && fields[0][j] in fields[0];
      IndexOfIs(value, '|', |fields[0]|);
      assert value[|fields[0]| + 1..] == rest && value[..|fields[0]|] == fields[0];
      SplitsJoined(fields[1..], last);
      assert [fields[0]] + (fields[1..] + [last]) == fields + [last];
    }
  }

  lemma NumbersHaveNoSeparator(n: int)
    ensures '|' !in PrintInt(n) && PrintInt(n) != "-"
  {
    PrintedCharacters(n, '|');
  }

  lemma FieldsHaveNoSeparator(r: LinkRecord)
    ensures forall f | f in Fields(r) :: '|' !in f
  {
    hide PrintInt;
    NumbersHaveNoSeparator(r.id);
    NumbersHaveNoSeparator(r.ownerId);
    NumbersHaveNoSeparator(r.createdAt);
    NumbersHaveNoSeparator(r.updatedAt);
    if r.expiresAt.Some? { NumbersHaveNoSeparator(r.expiresAt.value); }
  }

  lemma Assembled(r: LinkRecord, code: string, url: string)
    requires InRange(r)
    ensures Assemble(code, Fields(r) + [url]) == if url == "" then None else Some(r.(code := code, originalUrl := url))
  {
    hide PrintInt, Stoll, Stoull, Stoi;
    PrintThenRead(r.id);
    PrintThenRead(r.ownerId);
    PrintThenRead(r.createdAt);
    PrintThenRead(r.updatedAt);
    if r.expiresAt.Some? {
      PrintThenRead(r.expiresAt.value);
      NumbersHaveNoSeparator(r.expiresAt.value);
    }
  }

  /**
   Round trip, exactly: a cached record reads back as itself under the code it is looked up
   by, whatever separators its URL holds, unless its URL is empty, and then it never does.
   */
  lemma SerializedReadsBack(r: LinkRecord, code: string)
    requires InRange(r)
    ensures Deserialize(code, Serialize(r)) == if r.originalUrl == "" then None else Some(r.(code := code))
  {
    hide PrintInt, Split, Assemble;
    FieldsHaveNoSeparator(r);
    SplitsJoined(Fields(r), r.originalUrl);
    Assembled(r, code, r.originalUrl);
    assert Serialize(r) == "v2" + "|" + Join(Fields(r)[1..], r.originalUrl);
    assert Serialize(r)[..3] == "v2|";
  }

  /** Two records kept under one code have the same text only if they are the same record. */
  lemma SerializeIsInjective(r: LinkRecord, s: LinkRecord)
    requires InRange(r) && InRange(s) && r.code == s.code && r.originalUrl != "" && s.originalUrl != ""
    requires Serialize(r) == Serialize(s)
    ensures r == s
  {
    SerializedReadsBack(r, r.code);
    SerializedReadsBack(s, r.code);
  }

  /** A value from the earlier format, the bare URL, is never taken for a record. */
  lemma LegacyValueIsRejected(code: string, url: string)
    requires "http://" <= url || "https://" <= url
    ensures Deserialize(code, url).None?
  {
    assert url[0] == 'h';
  }

  lemma JoinOneMore(f: string, fields: seq<string>, last: string)
    ensures Join([f] + fields, last) == f + "|" + Join(fields, last)
  {
    assert ([f] + fields)[1..] == fields;
  }

  /** The text of a record, spelled out. */
  lemma SerializedText(r: LinkRecord)
    ensures Serialize(r)
         == "v2" + "|" + (PrintInt(r.id) + "|" + (PrintInt(r.ownerId) + "|"
            + ((if r.status.Active? then "active" else "disabled") + "|"
            + ((if r.expiresAt.Some? then PrintInt(r.expiresAt.value) else "-") + "|"
            + (PrintInt(r.createdAt) + "|" + (PrintInt(r.updatedAt) + "|" + r.originalUrl))))))
  {
    hide PrintInt, Join;
    var f, url := Fields(r), r.originalUrl;
    assert f == [f[0]] + ([f[1]] + ([f[2]] + ([f[3]] + ([f[4]] + ([f[5]] + ([f[6]] + []))))));
    JoinOneMore(f[0], [f[1]] + ([f[2]] + ([f[3]] + ([f[4]] + ([f[5]] + ([f[6]] + []))))), url);
    JoinOneMore(f[1], [f[2]] + ([f[3]] + ([f[4]] + ([f[5]] + ([f[6]] + [])))), url);
    JoinOneMore(f[2], [f[3]] + ([f[4]] + ([f[5]] + ([f[6]] + []))), url);
    JoinOneMore(f[3], [f[4]] + ([f[5]] + ([f[6]] + [])), url);
    JoinOneMore(f[4], [f[5]] + ([f[6]] + []), url);
    JoinOneMore(f[5], [f[6]] + [], url);
    JoinOneMore(f[6], [], url);
    assert Join([], url) == url by { JoinNothing(url); }
  }

  lemma JoinNothing(last: string)
    ensures Join([], last) == last
  {
  }

  /** What the fields of a cached value have to say for it to be read as `r`. */
  predicate Says(fields: seq<string>, r: LinkRecord)
    requires |fields| == 8
  {
    && fields[0] == "v2"
    && Stoull(fields[1]) == Some(r.id) && Stoull(fields[2]) == Some(r.ownerId)
    && fields[3] == (if r.status.Active? then "active" else "disabled")
    && (if fields[4] == "-" then r.expiresAt.None? else r.expiresAt.Some? && Stoll(fields[4]) == r.expiresAt)
    && Stoll(fields[5]) == Some(r.createdAt) && Stoll(fields[6]) == Some(r.updatedAt)
    && fields[7] == r.originalUrl != ""
  }

  /** `n` fields without separators, then the rest, make up the value. */
  predicate CutInto(value: string, fields: seq<string>, n: nat) {
    && |fields| == n + 1 && value == Join(fields[..n], fields[n])
    && forall i | 0 <= i < n :: '|' !in fields[i]
  }

  lemma {:induction false} SplitIsFielded(value: string, n: nat)
    requires Split(value, n).Some?
    ensures CutInto(value, Split(value, n).value, n)
    decreases n
  {
    if n > 0 {
      var end := IndexOf(value, '|');
      SplitIsFielded(value[end + 1..], n - 1);
      CutOneMore(value, Split(value[end + 1..], n - 1).value, n);
    }
  }

  lemma CutOneMore(value: string, g: seq<string>, n: nat)
    requires n > 0 && IndexOf(value, '|') < |value| && CutInto(value[IndexOf(value, '|') + 1..], g, n - 1)
    ensures CutInto(value, [value[..IndexOf(value, '|')]] + g, n)
  {
    hide Join, IndexOf;
    var end := IndexOf(value, '|');
    var first, rest := value[..end], value[end + 1..];
    JoinedOneMore(first, rest, g, n);
    assert value == first + "|" + rest;
    assert '|' !in first;
  }

  lemma JoinedOneMore(first: string, rest: string, g: seq<string>, n: nat)
    requires n > 0 && |g| == n && rest == Join(g[..n - 1], g[n - 1])
    ensures var f := [first] + g; Join(f[..n], f[n]) == first + "|" + rest
  {
    var f := [first] + g;
    assert f[..n] == [first] + g[..n - 1] && f[n] == g[n - 1];
    JoinOneMore(first, g[..n - 1], g[n - 1]);
  }

  lemma AssembleSays(code: string, fields: seq<string>, r: LinkRecord)
    requires |fields| == 8
    ensures Assemble(code, fields) == Some(r) <==> Says(fields, r) && r.code == code
  {
    hide Stoull, Stoll;
  }

  /** A cached value is read as `r` if and only if it consists of eight fields that say so. */
  lemma DecodesIff(code: string, value: string, r: LinkRecord)
    ensures Deserialize(code, value) == Some(r) <==> exists fields :: CutInto(value, fields, 7) && Says(fields, r) && r.code == code
  {
    hide Split, Assemble, Says;
    if Deserialize(code, value) == Some(r) {
      SplitIsFielded(value, 7);
      var fields := Split(value, 7).value;
      AssembleSays(code, fields, r);
      assert CutInto(value, fields, 7);
    }
    forall fields | CutInto(value, fields, 7) && Says(fields, r) && r.code == code ensures Deserialize(code, value) == Some(r) {
      var first := fields[..7];
      SplitsJoined(first, fields[7]);
      assert first + [fields[7]] == fields;
      AssembleSays(code, fields, r);
      assert value[..3] == "v2|" by { StartsWithFirst(fields, value, r); }
    }
  }

  lemma StartsWithFirst(fields: seq<string>, value: string, r: LinkRecord)
    requires CutInto(value, fields, 7) && Says(fields, r)
    ensures |value| >= 3 && value[..3] == "v2|"
  {
    assert value == "v2" + "|" + Join(fields[..7][1..], fields[7]);
  }
}
