/**
 The grammar of the requests the parser accepts, written out on the wire, and the proof that
 the parser accepts exactly that grammar: what was written is given back, what follows is left
 untouched, and a stream it finds complete was written that way.
 */
module HttpRoundTrip {
  import opened Options
  import opened Text
  import opened Decimal
  import opened HttpParser

  /** A piece of the query between two `&`: a pair, or text without `=`, which means nothing. */
  datatype Piece = Pair(key: string, value: string) | Bare(text: string)

  /** A header line with the space around its value. */
  datatype Line = Line(key: string, left: string, value: string, right: string)

  datatype Wire = Wire(
    verb: Method,
    path: string,
    query: Option<seq<Piece>>,
    minor: char,
    headers: seq<Line>,
    body: string)

  predicate Known(m: Method) { m.Get? || m.Post? || m.Put? || m.Delete? || m.Options? }

  function MethodText(m: Method): string
    requires Known(m)
  {
    match m
    case Get => "GET"
    case Post => "POST"
    case Put => "PUT"
    case Delete => "DELETE"
    case Options => "OPTIONS"
  }

  function PieceText(p: Piece): string {
    match p
    case Pair(key, value) => key + "=" + value
    case Bare(text) => text
  }

  function QueryText(query: seq<Piece>): string {
    if |query| == 0 then ""
    else if |query| == 1 then PieceText(query[0])
    else PieceText(query[0]) + "&" + QueryText(query[1..])
  }

  function TargetText(path: string, query: Option<seq<Piece>>): string {
    match query
    case None => path
    case Some(pieces) => path + "?" + QueryText(pieces)
  }

  function LineText(w: Wire): string
    requires Known(w.verb)
  {
    MethodText(w.verb) + " " + TargetText(w.path, w.query) + " " + "HTTP/1." + [w.minor]
  }

  function HeaderText(l: Line): string { l.key + ":" + (l.left + l.value + l.right) }

  function HeadersText(headers: seq<Line>): string {
    if headers == [] then "" else HeaderText(headers[0]) + "\r\n" + HeadersText(headers[1..])
  }

  function Render(w: Wire): string
    requires Known(w.verb)
  {
    LineText(w) + "\r\n" + HeadersText(w.headers) + "\r\n" + w.body
  }

  // What the written request means.

  function QueryMap(m: map<string, string>, query: seq<Piece>): map<string, string>
    decreases |query|
  {
    if query == [] then m
    else match query[0]
      case Pair(key, value) => QueryMap(m[key := value], query[1..])
      case Bare(_) => QueryMap(m, query[1..])
  }

  function HeaderMap(m: map<string, string>, headers: seq<Line>): map<string, string>
    decreases |headers|
  {
    if headers == [] then m else HeaderMap(m[headers[0].key := headers[0].value], headers[1..])
  }

  predicate HasBody(verb: Method) { verb.Post? || verb.Put? }

  predicate Lacks(s: string, c: char) {
    forall i | 0 <= i < |s| :: s[i] != c
  }

  predicate NoCRLF(s: string) {
    forall i: nat | i < |s| :: !CRLFAt(s, i)
  }

  predicate AllSpace(s: string) {
    forall i | 0 <= i < |s| :: s[i] == ' ' || 9 <= s[i] as int <= 13
  }

  predicate Trimmed(s: string) {
    s != "" ==> !AllSpace([s[0]]) && !AllSpace([s[|s| - 1]])
  }

  predicate PieceOk(p: Piece) {
    match p
    case Pair(key, value) => Lacks(key, ' ') && Lacks(key, '&') && Lacks(key, '=') && Lacks(value, ' ') && Lacks(value, '&')
    case Bare(text) => Lacks(text, ' ') && Lacks(text, '&') && Lacks(text, '=')
  }

  predicate PiecesOk(query: seq<Piece>) {
    query != [] && forall p | p in query :: PieceOk(p)
  }

  predicate LineOk(l: Line) {
    && Lacks(l.key, ':') && NoCRLF(HeaderText(l))
    && AllSpace(l.left) && AllSpace(l.right) && Trimmed(l.value)
  }

  predicate TargetOk(path: string, query: Option<seq<Piece>>) {
    Lacks(path, ' ') && Lacks(path, '?') && (query.Some? ==> PiecesOk(query.value))
  }

  /** The body is as long as the length header says, and absent where the method has none. */
  ghost predicate BodyOk(verb: Method, headers: map<string, string>, body: string) {
    if HasBody(verb) then
      var length := GetHeader(headers, "Content-Length");
      && length != "" && Stoi(length).Some?
      && |body| == ToUint64(Stoi(length).value)
    else body == ""
  }

  ghost predicate WellFormed(w: Wire) {
    && Known(w.verb)
    && TargetOk(w.path, w.query)
    && (w.minor == '0' || w.minor == '1')
    && NoCRLF(LineText(w))
    && (forall l | l in w.headers :: LineOk(l))
    && BodyOk(w.verb, HeaderMap(map[], w.headers), w.body)
  }

  function Meaning(w: Wire): Request {
    Request(w.verb, "HTTP/1." + [w.minor], w.path,
            if w.query.Some? then QueryMap(map[], w.query.value) else map[],
            HeaderMap(map[], w.headers),
            if HasBody(w.verb) then |w.body| else 0, w.body)
  }

  // ---------------------------------------------------------------------------------------
  // What is written is read.

  lemma MethodTextRead(m: Method)
    requires Known(m)
    ensures MethodOf(MethodText(m)) == m && Lacks(MethodText(m), ' ')
  {
  }

  /** No other text is a method. */
  lemma MethodIsText(t: string)
    ensures var m := MethodOf(t);
            if m.Invalid? then forall k | Known(k) :: MethodText(k) != t else Known(m) && MethodText(m) == t
  {
  }

  lemma FindsLineEnd(line: string, rest: string)
    requires NoCRLF(line)
    ensures FindCRLF(line + "\r\n" + rest) == Some(|line|)
  {
    var s := line + "\r\n" + rest;
    assert CRLFAt(s, |line|);
    FindCRLFIsFirst(s, |line|);
    var i := FindCRLF(s).value;
    assert i < |line| ==> CRLFAt(line, i);
  }

  /** Splitting at the first separator undoes joining with it. */
  lemma SplitsAt(a: string, c: char, b: string)
    requires Lacks(a, c)
    ensures IndexOf(a + [c] + b, c) == |a|
    ensures (a + [c] + b)[..|a|] == a && (a + [c] + b)[|a| + 1..] == b
  {
    IndexOfIs(a + [c] + b, c, |a|);
  }

  lemma NotFound(a: string, c: char)
    requires Lacks(a, c)
    ensures IndexOf(a, c) == |a|
  {
    IndexOfIs(a, c, |a|);
  }

  lemma PieceRead(m: map<string, string>, p: Piece)
    requires PieceOk(p)
    ensures AddPair(m, PieceText(p)) == QueryMap(m, [p]) && Lacks(PieceText(p), '&') && Lacks(PieceText(p), ' ')
  {
    match p
    case Pair(key, value) =>
      SplitsAt(key, '=', value);
      assert PieceText(p) == key + ['='] + value;
    case Bare(text) =>
      NotFound(text, '=');
  }

  /** Pieces joined by `&` are read in order, later keys winning, pieces without `=` ignored. */
  lemma {:induction false} QueryRead(m: map<string, string>, query: seq<Piece>)
    requires PiecesOk(query)
    ensures AddQuery(m, QueryText(query)) == QueryMap(m, query) && Lacks(QueryText(query), ' ')
    decreases |query|
  {
    var p := query[0];
    var text := PieceText(p);
    PieceRead(m, p);
    if |query| == 1 {
      NotFound(text, '&');
      assert query == [p];
    } else {
      SplitsAt(text, '&', QueryText(query[1..]));
      assert QueryText(query) == text + ['&'] + QueryText(query[1..]);
      assert [p][1..] == [];
      QueryRead(QueryMap(m, [p]), query[1..]);
    }
  }

  lemma TargetRead(r: Request, path: string, query: Option<seq<Piece>>)
    requires TargetOk(path, query)
    ensures Target(r, TargetText(path, query))
         == r.(path := path, query := if query.Some? then QueryMap(r.query, query.value) else r.query)
    ensures Lacks(TargetText(path, query), ' ')
  {
    match query
    case None =>
      NotFound(path, '?');
      assert path[..|path|] == path;
    case Some(pieces) =>
      SplitsAt(path, '?', QueryText(pieces));
      assert TargetText(path, query) == path + ['?'] + QueryText(pieces);
      QueryRead(r.query, pieces);
  }

  lemma VersionRead(r: Request, minor: char)
    requires minor == '0' || minor == '1'
    ensures VersionPart(r, "HTTP/1." + [minor]) == (r.(version := "HTTP/1." + [minor]), true)
  {
    var v := "HTTP/1." + [minor];
    assert v[..7] == "HTTP/1." && v[7] == minor;
  }

  lemma LineRead(w: Wire)
    requires Known(w.verb) && TargetOk(w.path, w.query) && (w.minor == '0' || w.minor == '1')
    ensures RequestLine(NEW_REQUEST, LineText(w))
         == (Meaning(w).(headers := map[], contentLength := 0, body := ""), true)
  {
    hide MethodOf, VersionPart, Target, TargetText, QueryMap, GetHeader, HeaderMap, MethodText, TargetOk, IndexOf,
         QueryText, AddQuery;
    var v, target := "HTTP/1." + [w.minor], TargetText(w.path, w.query);
    var rest := target + [' '] + v;
    var r1 := NEW_REQUEST.(verb := w.verb);
    MethodTextRead(w.verb);
    TargetRead(r1, w.path, w.query);
    VersionRead(Target(r1, target), w.minor);
    assert LineText(w) == MethodText(w.verb) + [' '] + rest;
    SplitsAt(MethodText(w.verb), ' ', rest);
    SplitsAt(target, ' ', v);
  }

  lemma SpaceIs(c: char)
    ensures IsSpace(c) <==> c == ' ' || 9 <= c as int <= 13
    ensures IsSpace(c) <==> AllSpace([c])
  {
    assert [c][0] == c;
  }

  lemma {:induction false} LeftRead(left: string, s: string)
    requires AllSpace(left) && (s != "" ==> !AllSpace([s[0]]))
    ensures TrimLeft(left + s) == s
    decreases |left|
  {
    if left == "" {
      assert left + s == s;
      if s != "" { SpaceIs(s[0]); }
    } else {
      SpaceIs(left[0]);
      assert (left + s)[1..] == left[1..] + s;
      LeftRead(left[1..], s);
    }
  }

  lemma {:induction false} RightRead(s: string, right: string)
    requires AllSpace(right) && (s != "" ==> !AllSpace([s[|s| - 1]]))
    ensures TrimRight(s + right) == s
    decreases |right|
  {
    if right == "" {
      assert s + right == s;
      if s != "" { SpaceIs(s[|s| - 1]); }
    } else {
      var n := |right| - 1;
      SpaceIs(right[n]);
      assert (s + right)[..|s + right| - 1] == s + right[..n];
      RightRead(s, right[..n]);
    }
  }

  lemma TrimRead(left: string, value: string, right: string)
    requires AllSpace(left) && AllSpace(right) && Trimmed(value)
    ensures TrimRight(TrimLeft(left + value + right)) == value
  {
    if value == "" {
      assert left + value + right == (left + right) + "";
      LeftRead(left + right, "");
    } else {
      assert left + value + right == left + (value + right);
      assert (value + right)[0] == value[0];
      LeftRead(left, value + right);
      RightRead(value, right);
    }
  }

  /** One header line is one pass. */
  lemma HeaderLineRead(r: Request, l: Line, more: string)
    requires LineOk(l)
    ensures OnePass(Context(ExpectHeaders, r), HeaderText(l) + "\r\n" + more)
         == Continue(Context(ExpectHeaders, r.(headers := r.headers[l.key := l.value])), more)
  {
    hide EndOfHeaders, RequestLine, TrimLeft, TrimRight, FindCRLF, AllSpace, Trimmed;
    var line, raw := HeaderText(l), l.left + l.value + l.right;
    var buffer := line + "\r\n" + more;
    FindsLineEnd(line, more);
    assert buffer[..|line|] == line && buffer[|line| + 2..] == more;
    SplitsAt(l.key, ':', raw);
    assert line == l.key + [':'] + raw;
    TrimRead(l.left, l.value, l.right);
  }

  /** The header lines are read in order, and parsing goes on behind them. */
  lemma {:induction false} HeadersRead(r: Request, headers: seq<Line>, rest: string)
    requires forall l | l in headers :: LineOk(l)
    ensures Parse(Context(ExpectHeaders, r), HeadersText(headers) + rest)
         == Parse(Context(ExpectHeaders, r.(headers := HeaderMap(r.headers, headers))), rest)
    decreases |headers|
  {
    hide OnePass, HeaderText, Lacks, Trimmed, LineOk;
    if headers == [] {
      assert HeadersText(headers) + rest == rest;
    } else {
      var l, more := headers[0], HeadersText(headers[1..]) + rest;
      assert HeadersText(headers) + rest == HeaderText(l) + "\r\n" + more;
      HeaderLineRead(r, l, more);
      HeadersRead(r.(headers := r.headers[l.key := l.value]), headers[1..], rest);
    }
  }

  lemma EndRead(r: Request, body: string, suffix: string)
    requires BodyOk(r.verb, r.headers, body) && r.contentLength == 0 && r.body == ""
    ensures Parse(Context(ExpectHeaders, r), "\r\n" + body + suffix)
         == Outcome(Context(GotAll, r.(contentLength := if HasBody(r.verb) then |body| else 0, body := body)), suffix, Done)
  {
    hide Stoi, GetHeader, FindCRLF;
    var buffer := "\r\n" + body + suffix;
    FindsLineEnd("", body + suffix);
    assert buffer == "" + "\r\n" + (body + suffix);
    assert buffer[..0] == "" && buffer[2..] == body + suffix;
    if HasBody(r.verb) && |body| > 0 {
      var r' := r.(contentLength := |body|);
      assert OnePass(Context(ExpectHeaders, r), buffer) == Continue(Context(ExpectBody, r'), body + suffix);
      assert (body + suffix)[..|body|] == body && (body + suffix)[|body|..] == suffix;
    }
  }

  /** The request line is the first pass. */
  lemma RequestLineRead(w: Wire, more: string)
    requires WellFormed(w)
    ensures OnePass(NEW_CONTEXT, LineText(w) + "\r\n" + more)
         == Continue(Context(ExpectHeaders, Meaning(w).(headers := map[], contentLength := 0, body := "")), more)
  {
    hide RequestLine, EndOfHeaders, LineText, MethodOf, QueryMap, HeaderMap, BodyOk, TargetOk;
    var line := LineText(w);
    var buffer := line + "\r\n" + more;
    LineRead(w);
    FindsLineEnd(line, more);
    assert buffer[..|line|] == line && buffer[|line| + 2..] == more;
  }

  /**
   Round trip: a well-formed request, followed by anything, parses to exactly its method,
   target, version, headers and body, and what follows it is left unread.
   */
  lemma RenderedParses(w: Wire, suffix: string)
    requires WellFormed(w)
    ensures Parse(NEW_CONTEXT, Render(w) + suffix) == Outcome(Context(GotAll, Meaning(w)), suffix, Done)
  {
    hide OnePass, LineText, HeadersText, MethodOf, QueryMap, BodyOk, LineOk, TargetOk;
    var tail := "\r\n" + w.body + suffix;
    var more := HeadersText(w.headers) + tail;
    assert Render(w) + suffix == LineText(w) + "\r\n" + more;
    RequestLineRead(w, more);
    var r := Meaning(w).(headers := map[], contentLength := 0, body := "");
    HeadersRead(r, w.headers, tail);
    EndRead(r.(headers := HeaderMap(map[], w.headers)), w.body, suffix);
  }

  /** Round trip over any split: the reads may cut the request and its successor anywhere. */
  lemma RenderedParsesInChunks(w: Wire, suffix: string, chunks: seq<string>)
    requires WellFormed(w) && Flatten(chunks) == Render(w) + suffix
    ensures Feed(NEW_CONTEXT, "", chunks) == Outcome(Context(GotAll, Meaning(w)), suffix, Done)
  {
    ChunkIndependence(chunks);
    RenderedParses(w, suffix);
  }

  // ---------------------------------------------------------------------------------------
  // What is read was written.

  function PieceOf(t: string): Piece {
    var e := IndexOf(t, '=');
    if e < |t| then Pair(t[..e], t[e + 1..]) else Bare(t)
  }

  function Pieces(s: string): seq<Piece>
    decreases |s|
  {
    var a := IndexOf(s, '&');
    if a < |s| then [PieceOf(s[..a])] + Pieces(s[a + 1..]) else [PieceOf(s)]
  }

  lemma PieceOfText(t: string)
    requires Lacks(t, ' ') && Lacks(t, '&')
    ensures PieceOk(PieceOf(t)) && PieceText(PieceOf(t)) == t
  {
    var e := IndexOf(t, '=');
    if e < |t| { assert t == t[..e] + "=" + t[e + 1..]; }
  }

  lemma {:induction false} PiecesOfText(s: string)
    requires Lacks(s, ' ')
    ensures PiecesOk(Pieces(s)) && QueryText(Pieces(s)) == s
    decreases |s|
  {
    hide IndexOf, PieceOf, PieceText, PieceOk;
    var a := IndexOf(s, '&');
    if a < |s| {
      PieceOfText(s[..a]);
      PiecesOfText(s[a + 1..]);
      QueryTextOneMore(PieceOf(s[..a]), Pieces(s[a + 1..]));
      assert s == s[..a] + "&" + s[a + 1..];
    } else {
      PieceOfText(s);
    }
  }

  lemma QueryTextOneMore(p: Piece, rest: seq<Piece>)
    requires PieceOk(p) && PiecesOk(rest)
    ensures QueryText([p] + rest) == PieceText(p) + "&" + QueryText(rest) && PiecesOk([p] + rest)
  {
    hide PieceOk, PieceText;
    assert ([p] + rest)[1..] == rest;
  }

  lemma TargetWritten(target: string) returns (path: string, query: Option<seq<Piece>>)
    requires Lacks(target, ' ')
    ensures TargetOk(path, query) && TargetText(path, query) == target
  {
    var q := IndexOf(target, '?');
    path := target[..q];
    if q < |target| {
      PiecesOfText(target[q + 1..]);
      query := Some(Pieces(target[q + 1..]));
      assert target == path + "?" + target[q + 1..];
    } else {
      query := None;
      assert path == target;
    }
  }

  lemma VersionWritten(r: Request, v: string)
    requires VersionPart(r, v).1
    ensures |v| == 8 && v == "HTTP/1." + [v[7]] && (v[7] == '0' || v[7] == '1')
  {
    assert v == v[..7] + [v[7]];
  }

  /** A request line that is accepted has the form of one. */
  lemma LineWritten(line: string) returns (w: Wire)
    requires RequestLine(NEW_REQUEST, line).1
    ensures Known(w.verb) && TargetOk(w.path, w.query) && (w.minor == '0' || w.minor == '1') && LineText(w) == line
    ensures w.headers == [] && w.body == ""
  {
    hide MethodOf, MethodText, Target, TargetText, TargetOk, IndexOf, AddQuery, QueryText, VersionPart;
    var s := IndexOf(line, ' ');
    var verb, rest := line[..s], line[s + 1..];
    MethodIsText(verb);
    var t := IndexOf(rest, ' ');
    var target, v := rest[..t], rest[t + 1..];
    var path, query := TargetWritten(target);
    VersionWritten(Target(NEW_REQUEST.(verb := MethodOf(verb)), target), v);
    w := Wire(MethodOf(verb), path, query, v[7], [], "");
    assert line == verb + " " + target + " " + v;
  }

  lemma {:induction false} LeftWritten(s: string) returns (left: string)
    ensures AllSpace(left) && s == left + TrimLeft(s) && (TrimLeft(s) != "" ==> !AllSpace([TrimLeft(s)[0]]))
    decreases |s|
  {
    left := "";
    if s != "" {
      SpaceIs(s[0]);
      if IsSpace(s[0]) {
        var l := LeftWritten(s[1..]);
        left := [s[0]] + l;
        assert s == [s[0]] + s[1..];
      }
    }
  }

  lemma {:induction false} RightWritten(s: string) returns (right: string)
    ensures AllSpace(right) && s == TrimRight(s) + right
    ensures TrimRight(s) <= s && (TrimRight(s) != "" ==> !AllSpace([TrimRight(s)[|TrimRight(s)| - 1]]))
    decreases |s|
  {
    right := "";
    if s != "" {
      var n := |s| - 1;
      SpaceIs(s[n]);
      if IsSpace(s[n]) {
        var r := RightWritten(s[..n]);
        right := r + [s[n]];
        assert s == s[..n] + [s[n]];
      }
    }
  }

  /** A line with a colon is a header line. */
  lemma HeaderWritten(line: string) returns (l: Line)
    requires NoCRLF(line) && IndexOf(line, ':') < |line|
    ensures LineOk(l) && HeaderText(l) == line
    ensures l.key == line[..IndexOf(line, ':')] && l.value == TrimRight(TrimLeft(line[IndexOf(line, ':') + 1..]))
  {
    hide TrimLeft, TrimRight, IsSpace, AllSpace, NoCRLF, IndexOf;
    var colon := IndexOf(line, ':');
    var raw := line[colon + 1..];
    var left := LeftWritten(raw);
    var right := RightWritten(TrimLeft(raw));
    l := Line(line[..colon], left, TrimRight(TrimLeft(raw)), right);
    assert raw == left + l.value + right;
    assert line == l.key + ":" + raw;
  }

  lemma LineHasNoCRLF(buffer: string)
    requires FindCRLF(buffer).Some?
    ensures NoCRLF(buffer[..FindCRLF(buffer).value])
    ensures buffer == buffer[..FindCRLF(buffer).value] + "\r\n" + buffer[FindCRLF(buffer).value + 2..]
  {
    var line := buffer[..FindCRLF(buffer).value];
    forall i: nat ensures !CRLFAt(line, i) {
      if CRLFAt(line, i) { FindCRLFIsFirst(buffer, i); }
    }
  }

  lemma BodyWritten(r: Request, buffer: string) returns (body: string, suffix: string)
    requires |buffer| >= 2 && r.body == ""
    requires var p := EndOfHeaders(r, buffer);
             (p.Stop? && p.status.Done?) || (p.Continue? && Parse(p.context, p.rest).status.Done?)
    ensures BodyOk(r.verb, r.headers, body) && buffer[2..] == body + suffix
  {
    hide Stoi, GetHeader;
    body, suffix := "", buffer[2..];
    if HasBody(r.verb) {
      var length := GetHeader(r.headers, "Content-Length");
      assert length != "" && Stoi(length).Some?;
      LengthFits(length);
      var n := ToUint64(Stoi(length).value);
      if n > 0 {
        assert EndOfHeaders(r, buffer) == Continue(Context(ExpectBody, r.(contentLength := n)), buffer[2..]);
        body, suffix := buffer[2..][..n], buffer[2..][n..];
      }
    }
  }

  /** A pass over the headers that goes on to the next one has read a header line. */
  lemma HeaderPassWritten(r: Request, buffer: string, line: string) returns (l: Line)
    requires FindCRLF(buffer).Some? && line == buffer[..FindCRLF(buffer).value] && IndexOf(line, ':') < |line|
    ensures LineOk(l) && HeaderText(l) == line
    ensures OnePass(Context(ExpectHeaders, r), buffer)
         == Continue(Context(ExpectHeaders, r.(headers := r.headers[l.key := l.value])), buffer[|line| + 2..])
  {
    hide EndOfHeaders, GetHeader, TrimLeft, TrimRight, LineOk, HeaderText, FindCRLF, NoCRLF;
    LineHasNoCRLF(buffer);
    l := HeaderWritten(line);
  }

  /** A pass over the headers that leads to a complete request has met the empty line. */
  lemma EndPassWritten(r: Request, buffer: string) returns (body: string, suffix: string)
    requires FindCRLF(buffer).Some? && r.body == ""
    requires var line := buffer[..FindCRLF(buffer).value]; IndexOf(line, ':') == |line|
    requires Parse(Context(ExpectHeaders, r), buffer).status.Done?
    ensures BodyOk(r.verb, r.headers, body) && FindCRLF(buffer).value == 0 && buffer[2..] == body + suffix
  {
    hide EndOfHeaders, BodyOk, FindCRLF;
    assert FindCRLF(buffer).value == 0;
    assert OnePass(Context(ExpectHeaders, r), buffer) == EndOfHeaders(r, buffer);
    body, suffix := BodyWritten(r, buffer);
  }

  lemma {:induction false} HeadersWritten(r: Request, buffer: string) returns (headers: seq<Line>, body: string, suffix: string)
    requires Parse(Context(ExpectHeaders, r), buffer).status.Done? && r.body == ""
    ensures forall l | l in headers :: LineOk(l)
    ensures BodyOk(r.verb, HeaderMap(r.headers, headers), body)
    ensures buffer == HeadersText(headers) + "\r\n" + body + suffix
    decreases |buffer|
  {
    hide OnePass, LineOk, HeaderText, BodyOk, FindCRLF;
    assert FindCRLF(buffer).Some? by { DoneHasLine(Context(ExpectHeaders, r), buffer); }
    LineHasNoCRLF(buffer);
    var line := buffer[..FindCRLF(buffer).value];
    if IndexOf(line, ':') < |line| {
      var l := HeaderPassWritten(r, buffer, line);
      var r', rest := r.(headers := r.headers[l.key := l.value]), buffer[|line| + 2..];
      var more;
      more, body, suffix := HeadersWritten(r', rest);
      headers := [l] + more;
      assert headers[1..] == more;
      assert buffer == HeaderText(l) + "\r\n" + (HeadersText(more) + "\r\n" + body + suffix);
    } else {
      body, suffix := EndPassWritten(r, buffer);
      headers := [];
      assert buffer == "" + "\r\n" + body + suffix;
    }
  }

  lemma DoneHasLine(c: Context, buffer: string)
    requires (c.state.ExpectHeaders? || c.state.ExpectRequestLine?) && Parse(c, buffer).status.Done?
    ensures FindCRLF(buffer).Some?
  {
    hide FindCRLF, EndOfHeaders, RequestLine;
  }

  /** A first pass that leads to a complete request has read a request line. */
  lemma FirstPassWritten(buffer: string) returns (w: Wire, rest: string)
    requires Parse(NEW_CONTEXT, buffer).status.Done?
    ensures Known(w.verb) && TargetOk(w.path, w.query) && (w.minor == '0' || w.minor == '1') && w.headers == [] && w.body == ""
    ensures NoCRLF(LineText(w)) && buffer == LineText(w) + "\r\n" + rest
    ensures Parse(Context(ExpectHeaders, Meaning(w).(headers := map[], contentLength := 0, body := "")), rest).status.Done?
  {
    hide RequestLine, LineText, TargetOk, FindCRLF, QueryMap, EndOfHeaders, NoCRLF;
    DoneHasLine(NEW_CONTEXT, buffer);
    LineHasNoCRLF(buffer);
    var i := FindCRLF(buffer).value;
    var line := buffer[..i];
    rest := buffer[i + 2..];
    assert RequestLine(NEW_REQUEST, line).1;
    w := LineWritten(line);
    LineRead(w);
    assert OnePass(NEW_CONTEXT, buffer)
        == Continue(Context(ExpectHeaders, Meaning(w).(headers := map[], contentLength := 0, body := "")), rest);
  }

  /** A stream the parser finds complete begins with a well-formed request. */
  lemma ParsedIsWritten(buffer: string) returns (w: Wire, suffix: string)
    requires Parse(NEW_CONTEXT, buffer).status.Done?
    ensures WellFormed(w) && buffer == Render(w) + suffix
  {
    hide Parse, LineText, HeadersText, TargetOk, BodyOk, LineOk, QueryMap, NoCRLF;
    var head, rest := FirstPassWritten(buffer);
    var headers, body;
    headers, body, suffix := HeadersWritten(Meaning(head).(headers := map[], contentLength := 0, body := ""), rest);
    w := head.(headers := headers, body := body);
    SameLine(head, headers, body);
    assert buffer == Render(w) + suffix;
  }

  lemma SameLine(w: Wire, headers: seq<Line>, body: string)
    requires Known(w.verb)
    ensures LineText(w.(headers := headers, body := body)) == LineText(w)
  {
  }

  ghost predicate Written(buffer: string, w: Wire, suffix: string) {
    WellFormed(w) && buffer == Render(w) + suffix
  }

  /** The parser accepts exactly the well-formed requests, and reads them as what they mean. */
  lemma AcceptsExactly(buffer: string)
    ensures Parse(NEW_CONTEXT, buffer).status.Done? <==> exists w, suffix :: Written(buffer, w, suffix)
    ensures forall w, suffix | Written(buffer, w, suffix) ::
              Parse(NEW_CONTEXT, buffer) == Outcome(Context(GotAll, Meaning(w)), suffix, Done)
  {
    hide Parse, Render, Meaning;
    forall w, suffix | Written(buffer, w, suffix)
      ensures Parse(NEW_CONTEXT, buffer) == Outcome(Context(GotAll, Meaning(w)), suffix, Done)
    {
      RenderedParses(w, suffix);
    }
    if Parse(NEW_CONTEXT, buffer).status.Done? {
      var w, suffix := ParsedIsWritten(buffer);
      assert Written(buffer, w, suffix);
    }
  }

  /** What is rejected stays rejected: nothing that follows makes it a request. */
  lemma RejectedForGood(buffer: string, more: string)
    requires Parse(NEW_CONTEXT, buffer).status.Bad? || Parse(NEW_CONTEXT, buffer).status.Threw?
    ensures !exists w, suffix :: Written(buffer + more, w, suffix)
  {
    hide Parse, Written;
    ParseExtends(NEW_CONTEXT, buffer, more);
    AcceptsExactly(buffer + more);
  }

  /** Any other method is refused as soon as its line is complete, and recorded as invalid. */
  lemma UnknownMethodIsBad(m: string, rest: string, more: string)
    requires Lacks(m, ' ') && NoCRLF(m + " " + rest)
    requires m !in {"GET", "POST", "PUT", "DELETE", "OPTIONS"}
    ensures var buffer := m + " " + rest + "\r\n" + more;
            var o := Parse(NEW_CONTEXT, buffer);
            o.status.Bad? && o.context == Context(ExpectRequestLine, NEW_REQUEST) && o.rest == buffer
  {
    hide FindCRLF;
    var line := m + " " + rest;
    var buffer := line + "\r\n" + more;
    FindsLineEnd(line, more);
    assert buffer[..|line|] == line;
    assert line == m + [' '] + rest;
    SplitsAt(m, ' ', rest);
    MethodIsText(m);
  }
}
