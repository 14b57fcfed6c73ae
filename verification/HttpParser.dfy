/**
 The incremental HTTP request parser as functions: what one pass of the parsing loop does,
 what a call on a buffer does, and what a sequence of reads from a connection does.
 */
module HttpParser {
  import opened Options
  import opened Text
  import opened Decimal

  datatype Method = Invalid | Get | Post | Head | Put | Delete | Options

  /** Everything the parser sets on a request, the receive time excepted. */
  datatype Request = Request(
    verb: Method,
    version: string,
    path: string,
    query: map<string, string>,
    headers: map<string, string>,
    contentLength: nat,
    body: string)

  const NEW_REQUEST := Request(Invalid, "Unknown", "", map[], map[], 0, "")

  datatype ParseState = ExpectRequestLine | ExpectHeaders | ExpectBody | GotAll

  datatype Context = Context(state: ParseState, request: Request)

  const NEW_CONTEXT := Context(ExpectRequestLine, NEW_REQUEST)

  /** `NeedMore`: wait for data. `Done`: request complete. `Bad`: rejected. `Threw`: the length did not convert. */
  datatype Status = NeedMore | Done | Bad | Threw

  // ---------------------------------------------------------------------------------------
  // Lines.

  function FindCRLF(s: string): (r: Option<nat>)
    ensures r.Some? ==> r.value + 2 <= |s| && s[r.value] == '\r' && s[r.value + 1] == '\n'
  {
    if |s| < 2 then None
    else if s[0] == '\r' && s[1] == '\n' then Some(0)
    else match FindCRLF(s[1..]) case None => None case Some(i) => Some(i + 1)
  }

  predicate CRLFAt(s: string, i: nat) {
    i + 1 < |s| && s[i] == '\r' && s[i + 1] == '\n'
  }

  /** The line end found is the first one, and one is found if there is any. */
  lemma {:induction false} FindCRLFIsFirst(s: string, i: nat)
    requires CRLFAt(s, i)
    ensures FindCRLF(s).Some? && FindCRLF(s).value <= i
    decreases i
  {
    if i > 0 {
      FindCRLFIsFirst(s[1..], i - 1);
    }
  }

  function MethodOf(m: string): Method {
    if m == "GET" then Get
    else if m == "POST" then Post
    else if m == "PUT" then Put
    else if m == "DELETE" then Delete
    else if m == "OPTIONS" then Method.Options
    else Invalid
  }

  /** One `key=value` pair; a pair without `=` is dropped. */
  function AddPair(query: map<string, string>, pair: string): map<string, string> {
    var e := IndexOf(pair, '=');
    if e < |pair| then query[pair[..e] := pair[e + 1..]] else query
  }

  function AddQuery(query: map<string, string>, s: string): map<string, string>
    decreases |s|
  {
    var a := IndexOf(s, '&');
    if a < |s| then AddQuery(AddPair(query, s[..a]), s[a + 1..]) else AddPair(query, s)
  }

  function TrimLeft(s: string): string {
    if s != "" && IsSpace(s[0]) then TrimLeft(s[1..]) else s
  }

  function TrimRight(s: string): string {
    if s != "" && IsSpace(s[|s| - 1]) then TrimRight(s[..|s| - 1]) else s
  }

  function AddHeader(headers: map<string, string>, key: string, raw: string): map<string, string> {
    headers[key := TrimRight(TrimLeft(raw))]
  }

  predicate FirstMatch(headers: map<string, string>, field: string, k: string) {
    && k in headers && EqualsIgnoreCase(k, field)
    && forall j | j in headers && EqualsIgnoreCase(j, field) :: LexLeq(k, j)
  }

  /** Exact name first; otherwise the first name, in byte order, that matches ignoring case. */
  ghost function GetHeader(headers: map<string, string>, field: string): string {
    if field in headers then headers[field]
    else if exists k :: FirstMatch(headers, field, k) then
      var k :| FirstMatch(headers, field, k); headers[k]
    else ""
  }

  /** A header is found whatever the case of its name, if no two names differ in case only. */
  lemma HeaderIgnoresCase(headers: map<string, string>, field: string, k: string)
    requires k in headers && EqualsIgnoreCase(k, field)
    requires forall j | j in headers && EqualsIgnoreCase(j, field) :: j == k
    ensures GetHeader(headers, field) == headers[k]
  {
    assert EqualsIgnoreCase(field, field);
    assert FirstMatch(headers, field, k);
  }

  /** Without such a name the answer is empty. */
  lemma MissingHeader(headers: map<string, string>, field: string)
    requires forall j | j in headers :: !EqualsIgnoreCase(j, field)
    ensures GetHeader(headers, field) == ""
  {
    assert EqualsIgnoreCase(field, field);
  }

  /** Method, target and version; what was recognised before a defect stays recorded. */
  function RequestLine(r: Request, line: string): (Request, bool) {
    var s := IndexOf(line, ' ');
    if s == |line| then (r, false)
    else
      var r1 := r.(verb := MethodOf(line[..s]));
      if r1.verb.Invalid? then (r1, false)
      else
        var rest := line[s + 1..];
        var t := IndexOf(rest, ' ');
        if t == |rest| then (r1, false) else VersionPart(Target(r1, rest[..t]), rest[t + 1..])
  }

  function Target(r: Request, target: string): Request {
    var q := IndexOf(target, '?');
    if q < |target| then r.(path := target[..q], query := AddQuery(r.query, target[q + 1..])) else r.(path := target)
  }

  function VersionPart(r: Request, v: string): (Request, bool) {
    if |v| == 8 && v[..7] == "HTTP/1." && (v[7] == '1' || v[7] == '0')
    then (r.(version := v), true)
    else (r, false)
  }

  /** `int` to `uint64_t`: a negative length becomes an enormous one. */
  function ToUint64(n: int): nat
    requires MIN_INT32 <= n <= MAX_INT32
  {
    if n < 0 then n + TWO_TO_64 else n
  }

  // ---------------------------------------------------------------------------------------
  // One pass of the loop, and one call.

  datatype Pass = Continue(context: Context, rest: string) | Stop(context: Context, rest: string, status: Status)

  /** The empty line after the headers decides whether a body follows. */
  ghost function EndOfHeaders(r: Request, buffer: string): Pass
    requires |buffer| >= 2
  {
    if !r.verb.Post? && !r.verb.Put? then Stop(Context(GotAll, r), buffer[2..], Done)
    else
      var length := GetHeader(r.headers, "Content-Length");
      if length == "" then Stop(Context(ExpectHeaders, r), buffer[2..], Bad)
      else
        match Stoi(length)
        case None => Stop(Context(ExpectHeaders, r), buffer, Threw)
        case Some(n) =>
          var r' := r.(contentLength := ToUint64(n));
          if r'.contentLength > 0 then Continue(Context(ExpectBody, r'), buffer[2..])
          else Stop(Context(GotAll, r'), buffer[2..], Done)
  }

  ghost function OnePass(c: Context, buffer: string): Pass
    requires !c.state.GotAll?
  {
    match c.state
    case ExpectRequestLine =>
      (match FindCRLF(buffer)
       case None => Stop(c, buffer, NeedMore)
       case Some(i) =>
         var (r, ok) := RequestLine(c.request, buffer[..i]);
         if ok then Continue(Context(ExpectHeaders, r), buffer[i + 2..])
         else Stop(Context(ExpectRequestLine, r), buffer, Bad))
    case ExpectHeaders =>
      (match FindCRLF(buffer)
       case None => Stop(c, buffer, NeedMore)
       case Some(i) =>
         var line := buffer[..i];
         var colon := IndexOf(line, ':');
         if colon < |line| then
           Continue(c.(request := c.request.(headers := AddHeader(c.request.headers, line[..colon], line[colon + 1..]))),
                    buffer[i + 2..])
         else if i == 0 then EndOfHeaders(c.request, buffer)
         else Stop(c, buffer[i + 2..], Bad))
    case ExpectBody =>
      var n := c.request.contentLength;
      if |buffer| < n then Stop(c, buffer, NeedMore)
      else Stop(Context(GotAll, c.request.(body := buffer[..n])), buffer[n..], Done)
  }

  /** Every pass that goes on has consumed a line, so a call terminates. */
  lemma PassConsumes(c: Context, buffer: string)
    requires !c.state.GotAll?
    ensures var p := OnePass(c, buffer);
            p.Continue? ==> |p.rest| + 2 <= |buffer| && !p.context.state.GotAll?
  {
  }

  datatype Outcome = Outcome(context: Context, rest: string, status: Status)

  /** One call of the parser on everything the buffer holds. */
  ghost function Parse(c: Context, buffer: string): Outcome
    requires !c.state.GotAll?
    decreases |buffer|
  {
    PassConsumes(c, buffer);
    match OnePass(c, buffer)
    case Stop(c', rest, status) => Outcome(c', rest, status)
    case Continue(c', rest) => Parse(c', rest)
  }

  /** A call that waits for data can be repeated; a complete request is the only way to `GotAll`. */
  lemma {:induction false} StatusTellsState(c: Context, buffer: string)
    requires !c.state.GotAll?
    ensures Parse(c, buffer).status.Done? <==> Parse(c, buffer).context.state.GotAll?
    decreases |buffer|
  {
    PassConsumes(c, buffer);
    var p := OnePass(c, buffer);
    if p.Continue? { StatusTellsState(p.context, p.rest); }
  }

  /** A negative length is not an error: it turns into a length beyond any buffer, and the call waits. */
  lemma NegativeLengthWaits(r: Request, buffer: string, n: int)
    requires r.verb.Post? || r.verb.Put?
    requires GetHeader(r.headers, "Content-Length") != "" && Stoi(GetHeader(r.headers, "Content-Length")) == Some(n) && n < 0
    requires FindCRLF(buffer) == Some(0) && |buffer| <= MAX_INT64
    ensures Parse(Context(ExpectHeaders, r), buffer)
         == Outcome(Context(ExpectBody, r.(contentLength := n + TWO_TO_64)), buffer[2..], NeedMore)
  {
    hide Stoi, GetHeader;
    assert MIN_INT32 <= n by { LengthFits(GetHeader(r.headers, "Content-Length")); }
    assert buffer[..0] == "";
    var c := Context(ExpectBody, r.(contentLength := n + TWO_TO_64));
    assert OnePass(Context(ExpectHeaders, r), buffer) == Continue(c, buffer[2..]);
    assert OnePass(c, buffer[2..]) == Stop(c, buffer[2..], NeedMore);
  }

  /** The request with this head stays incomplete whatever body arrives, up to the largest buffer. */
  ghost predicate NeverCompletes(r: Request) {
    forall buffer | FindCRLF(buffer) == Some(0) && |buffer| <= MAX_INT64 ::
      Parse(Context(ExpectHeaders, r), buffer).status.NeedMore?
  }

  /** That happens if and only if the length is negative: any other length is met by a body of that length. */
  lemma NeverCompletesIffNegative(r: Request, n: int)
    requires r.verb.Post? || r.verb.Put?
    requires GetHeader(r.headers, "Content-Length") != "" && Stoi(GetHeader(r.headers, "Content-Length")) == Some(n)
    ensures NeverCompletes(r) <==> n < 0
  {
    hide Stoi, GetHeader, Parse, FindCRLF;
    if n < 0 {
      forall buffer | FindCRLF(buffer) == Some(0) && |buffer| <= MAX_INT64
        ensures Parse(Context(ExpectHeaders, r), buffer).status.NeedMore?
      {
        NegativeLengthWaits(r, buffer, n);
      }
    } else {
      var buffer := LengthIsMet(r, n);
    }
  }

  lemma LengthIsMet(r: Request, n: nat) returns (buffer: string)
    requires r.verb.Post? || r.verb.Put?
    requires GetHeader(r.headers, "Content-Length") != "" && Stoi(GetHeader(r.headers, "Content-Length")) == Some(n)
    ensures FindCRLF(buffer) == Some(0) && |buffer| <= MAX_INT64
    ensures Parse(Context(ExpectHeaders, r), buffer).status.Done?
  {
    hide Stoi, GetHeader;
    LengthFits(GetHeader(r.headers, "Content-Length"));
    var body := Filler(n);
    buffer := "\r\n" + body;
    assert buffer[0] == '\r' && buffer[1] == '\n';
    assert buffer[..0] == "" && buffer[2..] == body;
    if n > 0 {
      var c := Context(ExpectBody, r.(contentLength := n));
      assert OnePass(Context(ExpectHeaders, r), buffer) == Continue(c, body);
    }
  }

  function Filler(n: nat): (s: string)
    ensures |s| == n
  {
    if n == 0 then "" else Filler(n - 1) + "x"
  }

  lemma LengthFits(s: string)
    requires Stoi(s).Some?
    ensures MIN_INT32 <= Stoi(s).value <= MAX_INT32
  {
  }

  // ---------------------------------------------------------------------------------------
  // Chunk independence.

  lemma {:induction false} FindCRLFExtends(a: string, b: string)
    requires FindCRLF(a).Some?
    ensures FindCRLF(a + b) == FindCRLF(a)
  {
    if !(a[0] == '\r' && a[1] == '\n') {
      assert (a + b)[1..] == a[1..] + b;
      FindCRLFExtends(a[1..], b);
    }
  }

  /** A pass that did something does the same when more data follows. */
  lemma PassExtends(c: Context, a: string, b: string)
    requires !c.state.GotAll?
    ensures var p, q := OnePass(c, a), OnePass(c, a + b);
            match p
            case Continue(c', rest) => q == Continue(c', rest + b)
            case Stop(c', rest, NeedMore) => c' == c && rest == a
            case Stop(c', rest, status) => q == Stop(c', rest + b, status)
  {
    hide RequestLine, EndOfHeaders, AddHeader;
    if c.state.ExpectBody? {
      var n := c.request.contentLength;
      if |a| >= n {
        assert (a + b)[..n] == a[..n] && (a + b)[n..] == a[n..] + b;
      }
    } else if FindCRLF(a).Some? {
      var i := FindCRLF(a).value;
      FindCRLFExtends(a, b);
      assert (a + b)[..i] == a[..i] && (a + b)[i + 2..] == a[i + 2..] + b;
      EndOfHeadersExtends(c.request, a, b);
    }
  }

  lemma EndOfHeadersExtends(r: Request, a: string, b: string)
    requires |a| >= 2
    ensures match EndOfHeaders(r, a)
            case Continue(c', rest) => EndOfHeaders(r, a + b) == Continue(c', rest + b)
            case Stop(c', rest, status) => EndOfHeaders(r, a + b) == Stop(c', rest + b, status) && !status.NeedMore?
  {
    hide GetHeader, Stoi;
    assert (a + b)[2..] == a[2..] + b;
  }

  /** Data that arrives later continues an unfinished call and follows a finished one. */
  lemma {:induction false} ParseExtends(c: Context, a: string, b: string)
    requires !c.state.GotAll?
    ensures var o := Parse(c, a);
            if o.status.NeedMore? then !o.context.state.GotAll? && Parse(c, a + b) == Parse(o.context, o.rest + b)
            else Parse(c, a + b) == Outcome(o.context, o.rest + b, o.status)
    decreases |a|
  {
    PassExtends(c, a, b);
    PassConsumes(c, a);
    var p := OnePass(c, a);
    if p.Continue? {
      ParseExtends(p.context, p.rest, b);
    }
  }

  function Flatten(chunks: seq<string>): string {
    if chunks == [] then "" else chunks[0] + Flatten(chunks[1..])
  }

  /**
   Reading from a connection: each chunk is appended to the buffer and parsed, until a
   request is complete or an error ends it. What is left is the buffer and the chunks to come.
   */
  ghost function Feed(c: Context, buffer: string, chunks: seq<string>): Outcome
    requires !c.state.GotAll?
    decreases |chunks|
  {
    if chunks == [] then Outcome(c, buffer, NeedMore)
    else
      StatusTellsState(c, buffer + chunks[0]);
      var o := Parse(c, buffer + chunks[0]);
      if o.status.NeedMore? then Feed(o.context, o.rest, chunks[1..])
      else Outcome(o.context, o.rest + Flatten(chunks[1..]), o.status)
  }

  predicate Quiescent(c: Context, buffer: string) {
    || (c.state.ExpectRequestLine? && FindCRLF(buffer).None?)
    || (c.state.ExpectHeaders? && FindCRLF(buffer).None?)
    || (c.state.ExpectBody? && |buffer| < c.request.contentLength)
  }

  lemma {:induction false} WaitingIsQuiescent(c: Context, buffer: string)
    requires !c.state.GotAll? && Parse(c, buffer).status.NeedMore?
    ensures Quiescent(Parse(c, buffer).context, Parse(c, buffer).rest)
    decreases |buffer|
  {
    PassConsumes(c, buffer);
    var p := OnePass(c, buffer);
    if p.Continue? { WaitingIsQuiescent(p.context, p.rest); }
  }

  lemma {:induction false} FeedIsParse(c: Context, buffer: string, chunks: seq<string>)
    requires Quiescent(c, buffer)
    ensures Feed(c, buffer, chunks) == Parse(c, buffer + Flatten(chunks))
    decreases |chunks|
  {
    if chunks == [] {
      assert buffer + "" == buffer;
    } else {
      var first := buffer + chunks[0];
      assert buffer + Flatten(chunks) == first + Flatten(chunks[1..]);
      StatusTellsState(c, first);
      ParseExtends(c, first, Flatten(chunks[1..]));
      if Parse(c, first).status.NeedMore? {
        WaitingIsQuiescent(c, first);
        FeedIsParse(Parse(c, first).context, Parse(c, first).rest, chunks[1..]);
      }
    }
  }

  /**
   Chunk independence: however a byte stream is cut into reads, the outcome, the parsed
   request and the unread rest are those of one call on the whole stream.
   */
  lemma ChunkIndependence(chunks: seq<string>)
    ensures Feed(NEW_CONTEXT, "", chunks) == Parse(NEW_CONTEXT, Flatten(chunks))
  {
    FeedIsParse(NEW_CONTEXT, "", chunks);
    assert "" + Flatten(chunks) == Flatten(chunks);
  }
}
