/**
 The parser as it runs: a request object filled in by setters, and the loop over a connection
 buffer that consumes lines as they complete. Each method is tied to the functional parser.
 */
module HttpContext {
  import opened Text
  import opened Decimal
  import opened HttpParser

  class Buffer {
    var content: string

    constructor ()
      ensures content == ""
    {
      content := "";
    }

    method Append(data: string)
      modifies this
      ensures content == old(content) + data
    {
      content := content + data;
    }

    method Retrieve(n: nat)
      requires n <= |content|
      modifies this
      ensures content == old(content)[n..]
    {
      content := content[n..];
    }
  }

  class HttpRequest {
    var verb: Method
    var version: string
    var path: string
    var query: map<string, string>
    var headers: map<string, string>
    var contentLength: nat
    var body: string

    function Value(): Request
      reads this
    {
      Request(verb, version, path, query, headers, contentLength, body)
    }

    constructor ()
      ensures Value() == NEW_REQUEST
    {
      verb, version, path, query, headers, contentLength, body := Invalid, "Unknown", "", map[], map[], 0, "";
    }

    method SetMethod(m: string) returns (known: bool)
      requires verb.Invalid?
      modifies this`verb
      ensures verb == MethodOf(m) && known == !verb.Invalid?
    {
      if m == "GET" { verb := Get; }
      else if m == "POST" { verb := Post; }
      else if m == "PUT" { verb := Put; }
      else if m == "DELETE" { verb := Delete; }
      else if m == "OPTIONS" { verb := Method.Options; }
      else { verb := Invalid; }
      return verb != Invalid;
    }

    method SetPath(p: string)
      modifies this`path
      ensures path == p
    {
      path := p;
    }

    /** Split on `&`, then each piece on its first `=`. */
    method SetQueryParameters(s: string)
      modifies this`query
      ensures query == AddQuery(old(query), s)
    {
      var prev := 0;
      var pos := IndexOf(s, '&');
      assert s[0..] == s;
      while prev + pos < |s|
        invariant prev <= |s| && pos == IndexOf(s[prev..], '&')
        invariant AddQuery(query, s[prev..]) == AddQuery(old(query), s)
        decreases |s| - prev
      {
        var rest := s[prev..];
        var pair := rest[..pos];
        AddOnePair(pair);
        assert rest[pos + 1..] == s[prev + pos + 1..];
        prev := prev + pos + 1;
        pos := IndexOf(s[prev..], '&');
      }
      AddOnePair(s[prev..]);
    }

    method AddOnePair(pair: string)
      modifies this`query
      ensures query == AddPair(old(query), pair)
    {
      var equal := IndexOf(pair, '=');
      if equal < |pair| {
        query := query[pair[..equal] := pair[equal + 1..]];
      }
    }

    /** Skip leading space by moving forward, drop trailing space by shrinking. */
    method AddHeader(key: string, raw: string)
      modifies this`headers
      ensures headers == HttpParser.AddHeader(old(headers), key, raw)
    {
      var start := 0;
      assert raw[0..] == raw;
      while start < |raw| && IsSpace(raw[start])
        invariant start <= |raw| && TrimLeft(raw[start..]) == TrimLeft(raw)
      {
        assert raw[start..][1..] == raw[start + 1..];
        start := start + 1;
      }
      var value := raw[start..];
      while value != "" && IsSpace(value[|value| - 1])
        invariant TrimRight(value) == TrimRight(TrimLeft(raw))
        decreases |value|
      {
        value := value[..|value| - 1];
      }
      headers := headers[key := value];
    }

    /** Exact lookup first, then the names in increasing byte order, comparing without case. */
    method GetHeader(field: string) returns (r: string)
      ensures r == HttpParser.GetHeader(headers, field)
    {
      if field in headers {
        return headers[field];
      }
      var remaining := headers.Keys;
      while remaining != {}
        invariant remaining <= headers.Keys
        invariant forall k | k in headers && k !in remaining :: !EqualsIgnoreCase(k, field)
        invariant forall k, j | k in headers && k !in remaining && j in remaining :: LexLeq(k, j)
        decreases remaining
      {
        ghost var least := HasLeast(remaining);
        var k :| k in remaining && forall j | j in remaining :: LexLeq(k, j);
        if EqualsIgnoreCase(k, field) {
          MatchIsFirst(headers, field, k);
          return headers[k];
        }
        remaining := remaining - {k};
      }
      return "";
    }

    method SetContentLength(n: nat)
      modifies this`contentLength
      ensures contentLength == n
    {
      contentLength := n;
    }

    method SetBody(b: string)
      modifies this`body
      ensures body == b
    {
      body := b;
    }
  }

  lemma MatchIsFirst(headers: map<string, string>, field: string, k: string)
    requires field !in headers && FirstMatch(headers, field, k)
    ensures HttpParser.GetHeader(headers, field) == headers[k]
  {
    forall j | FirstMatch(headers, field, j) ensures j == k {
      if j != k { LexAsymmetric(j, k); }
    }
  }

  /** How a call ends: a verdict, or an exception from the length conversion. */
  datatype Reply = Returned(ok: bool) | Exception

  function StatusOf(reply: Reply, state: ParseState): Status {
    match reply
    case Exception => Threw
    case Returned(ok) => if !ok then Bad else if state.GotAll? then Done else NeedMore
  }

  /** What a pass of the loop left behind is what `OnePass` says. */
  ghost predicate Performed(p: Pass, c: Context, rest: string, hasMore: bool, reply: Reply) {
    match p
    case Continue(c', rest') => hasMore && reply == Returned(true) && c == c' && rest == rest'
    case Stop(c', rest', status) => !hasMore && c == c' && rest == rest' && StatusOf(reply, c.state) == status
  }

  /** A request line may only be read into a request whose method is still unset. */
  predicate Ready(c: Context) {
    !c.state.GotAll? && (c.state.ExpectRequestLine? ==> c.request.verb.Invalid?)
  }

  class HttpContext {
    var state: ParseState
    const request: HttpRequest

    constructor ()
      ensures Value() == NEW_CONTEXT && fresh(request)
    {
      state := ExpectRequestLine;
      request := new HttpRequest();
    }

    function Value(): Context
      reads this, request
    {
      Context(state, request.Value())
    }

    method ProcessRequestLine(line: string) returns (ok: bool)
      requires request.verb.Invalid?
      modifies request
      ensures (request.Value(), ok) == RequestLine(old(request.Value()), line)
    {
      hide MethodOf, AddQuery, VersionPart;
      var space := IndexOf(line, ' ');
      if space == |line| {
        return false;
      }
      var known := request.SetMethod(line[..space]);
      if !known {
        return false;
      }
      var rest := line[space + 1..];
      var second := IndexOf(rest, ' ');
      if second == |rest| {
        return false;
      }
      ReadTarget(rest[..second]);
      ok := ReadVersion(rest[second + 1..]);
    }

    method ReadTarget(target: string)
      modifies request
      ensures request.Value() == Target(old(request.Value()), target)
    {
      hide AddQuery;
      var argument := IndexOf(target, '?');
      if argument < |target| {
        request.SetPath(target[..argument]);
        request.SetQueryParameters(target[argument + 1..]);
      } else {
        request.SetPath(target);
      }
    }

    method ReadVersion(v: string) returns (ok: bool)
      modifies request
      ensures (request.Value(), ok) == VersionPart(old(request.Value()), v)
    {
      ok := |v| == 8 && v[..7] == "HTTP/1.";
      if ok {
        if v[7] == '1' {
          assert v == "HTTP/1.1";
          request.version := "HTTP/1.1";
        } else if v[7] == '0' {
          assert v == "HTTP/1.0";
          request.version := "HTTP/1.0";
        } else {
          ok := false;
        }
      }
    }

    method RequestLinePass(buffer: Buffer) returns (hasMore: bool, reply: Reply)
      requires state.ExpectRequestLine? && request.verb.Invalid?
      modifies this, request, buffer
      ensures Performed(OnePass(old(Value()), old(buffer.content)), Value(), buffer.content, hasMore, reply)
    {
      hide RequestLine, EndOfHeaders;
      var crlf := FindCRLF(buffer.content);
      if crlf.None? {
        return false, Returned(true);
      }
      var ok := ProcessRequestLine(buffer.content[..crlf.value]);
      if ok {
        buffer.Retrieve(crlf.value + 2);
        state := ExpectHeaders;
      }
      return ok, Returned(ok);
    }

    /** The empty line after the headers; it is consumed unless the length conversion threw. */
    method EndHeaders(buffer: Buffer) returns (hasMore: bool, reply: Reply)
      requires state.ExpectHeaders? && |buffer.content| >= 2
      modifies this, request, buffer
      ensures Performed(EndOfHeaders(old(request.Value()), old(buffer.content)), Value(), buffer.content, hasMore, reply)
    {
      hide HttpParser.GetHeader, Stoi;
      hasMore, reply := false, Returned(true);
      if request.verb.Post? || request.verb.Put? {
        var contentLength := request.GetHeader("Content-Length");
        if contentLength != "" {
          var length := Stoi(contentLength);
          if length.None? {
            return false, Exception;
          }
          LengthFits(contentLength);
          request.SetContentLength(ToUint64(length.value));
          if request.contentLength > 0 {
            state := ExpectBody;
            hasMore := true;
          } else {
            state := GotAll;
          }
        } else {
          reply := Returned(false);
        }
      } else {
        state := GotAll;
      }
      buffer.Retrieve(2);
    }

    method HeaderPass(buffer: Buffer) returns (hasMore: bool, reply: Reply)
      requires state.ExpectHeaders?
      modifies this, request, buffer
      ensures Performed(OnePass(old(Value()), old(buffer.content)), Value(), buffer.content, hasMore, reply)
    {
      hide RequestLine, EndOfHeaders, HttpParser.AddHeader;
      var crlf := FindCRLF(buffer.content);
      if crlf.None? {
        return false, Returned(true);
      }
      var line := buffer.content[..crlf.value];
      var colon := IndexOf(line, ':');
      if colon < |line| {
        request.AddHeader(line[..colon], line[colon + 1..]);
        hasMore, reply := true, Returned(true);
      } else if crlf.value == 0 {
        hasMore, reply := EndHeaders(buffer);
        return;
      } else {
        hasMore, reply := false, Returned(false);
      }
      buffer.Retrieve(crlf.value + 2);
    }

    method BodyPass(buffer: Buffer) returns (hasMore: bool, reply: Reply)
      requires state.ExpectBody?
      modifies this, request, buffer
      ensures Performed(OnePass(old(Value()), old(buffer.content)), Value(), buffer.content, hasMore, reply)
    {
      if |buffer.content| < request.contentLength {
        return false, Returned(true);
      }
      request.SetBody(buffer.content[..request.contentLength]);
      buffer.Retrieve(request.contentLength);
      state := GotAll;
      return false, Returned(true);
    }

    /**
     The parsing loop. It has no branch for a context that already got everything, so callers
     reset the context first; a fresh request line expects a fresh request.
     */
    method ParseRequest(buffer: Buffer) returns (reply: Reply)
      requires Ready(Value())
      modifies this, request, buffer
      ensures Outcome(Value(), buffer.content, StatusOf(reply, state)) == Parse(old(Value()), old(buffer.content))
    {
      hide OnePass, RequestLine, EndOfHeaders;
      var hasMore := true;
      reply := Returned(true);
      while hasMore
        invariant hasMore ==> Ready(Value()) && reply == Returned(true)
        invariant if hasMore then Parse(Value(), buffer.content) == Parse(old(Value()), old(buffer.content))
                  else Outcome(Value(), buffer.content, StatusOf(reply, state)) == Parse(old(Value()), old(buffer.content))
        decreases if hasMore then |buffer.content| + 1 else 0
      {
        PassConsumes(Value(), buffer.content);
        PassLeavesReady(Value(), buffer.content);
        match state
        case ExpectRequestLine =>
          hasMore, reply := RequestLinePass(buffer);
        case ExpectHeaders =>
          hasMore, reply := HeaderPass(buffer);
        case ExpectBody =>
          hasMore, reply := BodyPass(buffer);
      }
    }
  }

  /** A pass that goes on never returns to the request line. */
  lemma PassLeavesReady(c: Context, buffer: string)
    requires Ready(c)
    ensures OnePass(c, buffer).Continue? ==> Ready(OnePass(c, buffer).context)
  {
  }

  /**
   A connection: reads arrive one chunk at a time and are parsed as they come. Whatever the
   chunks, the request and the unread rest are those of the whole stream parsed at once.
   */
  method ReadRequest(chunks: seq<string>) returns (context: HttpContext, buffer: Buffer, status: Status, used: nat)
    ensures used <= |chunks|
    ensures Outcome(context.Value(), buffer.content + Flatten(chunks[used..]), status)
         == Parse(NEW_CONTEXT, Flatten(chunks))
  {
    hide Parse, OnePass, RequestLine, EndOfHeaders;
    context := new HttpContext();
    buffer := new Buffer();
    used := 0;
    status := NeedMore;
    ChunkIndependence(chunks);
    assert chunks[0..] == chunks;
    while used < |chunks| && status.NeedMore?
      invariant used <= |chunks| && fresh(context) && fresh(context.request) && fresh(buffer)
      invariant if status.NeedMore? then
                  && Ready(context.Value())
                  && Feed(context.Value(), buffer.content, chunks[used..]) == Parse(NEW_CONTEXT, Flatten(chunks))
                else
                  Outcome(context.Value(), buffer.content + Flatten(chunks[used..]), status)
                  == Parse(NEW_CONTEXT, Flatten(chunks))
      decreases |chunks| - used
    {
      ghost var before, pending := context.Value(), buffer.content + chunks[used];
      assert chunks[used..][1..] == chunks[used + 1..];
      buffer.Append(chunks[used]);
      StatusTellsState(before, pending);
      StaysReady(before, pending);
      var reply := context.ParseRequest(buffer);
      status := StatusOf(reply, context.state);
      used := used + 1;
    }
    assert used == |chunks| ==> chunks[used..] == [] && buffer.content + "" == buffer.content;
  }

  /** A call that waits for more data can be repeated. */
  lemma {:induction false} StaysReady(c: Context, buffer: string)
    requires Ready(c)
    ensures Parse(c, buffer).status.NeedMore? ==> Ready(Parse(c, buffer).context)
    decreases |buffer|
  {
    PassConsumes(c, buffer);
    PassLeavesReady(c, buffer);
    var p := OnePass(c, buffer);
    if p.Continue? { StaysReady(p.context, p.rest); }
  }
}
