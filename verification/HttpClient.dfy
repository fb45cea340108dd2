/** The client's request printer, and the round trip through the server's parser. */
module HttpClient {
  import opened Base
  import opened CStrings
  import opened RequestParser
  import opened ParserInvariants
  import opened ParserChunking
  import opened ParserLines
  import opened ParserReads
  import opened RequestGrammar
  import opened HeaderFields

  function RequestLineText(url: string): string {
    "GET " + url + " HTTP/1.1"
  }

  /** A Host line: the name in any case, blanks or none, and the host. */
  datatype HostLine = HostLine(name: string, gap: string, value: string) {
    function Line(): string {
      name + gap + value
    }

    /** Where the host starts. */
    function ValueAt(): nat {
      |name| + |gap|
    }
  }

  /** The lines of a request, without their ends. */
  function Lines(url: string, host: HostLine, fields: seq<string>): seq<string> {
    [RequestLineText(url), host.Line()] + fields + [""]
  }

  function Wire(lines: seq<string>): seq<string> {
    seq(|lines|, i requires 0 <= i < |lines| => lines[i] + CRLF)
  }

  /** A request in the client's format. */
  function Print(url: string, host: HostLine, fields: seq<string>): string {
    Concat(Wire(Lines(url, host, fields)))
  }

  const CLIENT_URL: string := "/index.html"
  const CLIENT_HOST: HostLine := HostLine("Host:", " ", "192.168.1.103:8888")
  const CLIENT_AGENT: string := "User-Agent: MyHttpClient"
  const CLIENT_PROXY: string := "Proxy-Connection: keep-alive"

  /** The client's request, built line by line. */
  method BuildRequest() returns (request: string)
    ensures request == Print(CLIENT_URL, CLIENT_HOST, [CLIENT_AGENT, CLIENT_PROXY])
  {
    Literals();
    request := "";
    request := request + "GET /index.html HTTP/1.1\r\n";
    request := request + "Host: 192.168.1.103:8888\r\n";
    request := request + "User-Agent: MyHttpClient\r\n";
    request := request + "Proxy-Connection: keep-alive\r\n";
    request := request + "\r\n";
    FourLines(RequestLineText(CLIENT_URL), CLIENT_HOST.Line(), CLIENT_AGENT, CLIENT_PROXY);
  }

  lemma Literals()
    ensures "GET /index.html HTTP/1.1\r\n" == RequestLineText(CLIENT_URL) + CRLF
    ensures "Host: 192.168.1.103:8888\r\n" == CLIENT_HOST.Line() + CRLF
    ensures "User-Agent: MyHttpClient\r\n" == CLIENT_AGENT + CRLF
    ensures "Proxy-Connection: keep-alive\r\n" == CLIENT_PROXY + CRLF
  {
    assert "GET /index.html HTTP/1.1" == RequestLineText(CLIENT_URL);
    assert "Host: 192.168.1.103:8888" == CLIENT_HOST.Line();
  }

  lemma FourLines(a: string, b: string, c: string, d: string)
    ensures "" + (a + CRLF) + (b + CRLF) + (c + CRLF) + (d + CRLF) + CRLF == Concat(Wire([a, b] + [c, d] + [""]))
  {
    WireCons("", []);
    WireCons(d, [""]);
    WireCons(c, [d, ""]);
    WireCons(b, [c, d, ""]);
    WireCons(a, [b, c, d, ""]);
    assert [a, b] + [c, d] + [""] == [a] + [b, c, d, ""];
    assert [b, c, d, ""] == [b] + [c, d, ""] && [c, d, ""] == [c] + [d, ""] && [d, ""] == [d] + [""] && [""] == [""] + [];
  }

  predicate UrlOk(url: string) {
    url != "" && url[0] == '/' && LineChars(url) && Free(url, Blank)
  }

  predicate HostOk(host: HostLine) {
    FieldParts(host.Line(), host.name, host.gap, host.value) && EqFold(host.name, "Host:") && LineChars(host.value)
  }

  /** What the header fields set. */
  datatype Options = Options(length: int, linger: bool)

  const DEFAULTS: Options := Options(0, true)

  function Effect(o: Options, line: string): Options {
    match EffectOf(line)
    case NoKeepAlive => o.(linger := false)
    case SetLength(n) => o.(length := n)
    case _ => o
  }

  function Effects(o: Options, fields: seq<string>): Options
    decreases |fields|
  {
    if fields == [] then o else Effects(Effect(o, fields[0]), fields[1..])
  }

  /** A header line other than the empty one and Host. */
  predicate Field(line: string) {
    LineChars(line) && !EffectOf(line).EndOfHeaders? && !EffectOf(line).SetHost?
  }

  /** A header line the parser has no use for. */
  predicate Ignored(line: string) {
    LineChars(line) && EffectOf(line) == Nothing
  }

  /** Where the url and the host stand in a printed request. */
  const URL_AT: nat := |"GET "|

  function HostLineAt(url: string): nat {
    |RequestLineText(url)| + |CRLF|
  }

  function HostAt(url: string, host: HostLine): nat {
    HostLineAt(url) + host.ValueAt()
  }

  /** What the lines up to here have set. */
  predicate Parsed(p: Parser, url: string, host: Option<HostLine>, o: Options) {
    && AtLineStart(p) && p.state.Header? && p.length == o.length && p.linger == o.linger
    && p.url == Some(URL_AT) && Text(p, p.url) == Some(url)
    && (if host.None? then |p.data| == HostLineAt(url)
        else p.host == Some(HostAt(url, host.value)) && Text(p, p.host) == Some(host.value.value))
  }

  function Derived(url: string): Derivation {
    Derivation("GET", " ", "", "", url, " ", "HTTP/1.1")
  }

  lemma PlainDerivation(d: Derivation)
    requires UrlOk(d.path) && d.scheme == "" && d.authority == "" && EqFold(d.verb, "GET") && EqFold(d.version, "HTTP/1.1")
    requires Gap(d.gap1) && Gap(d.gap2)
    ensures Valid(d) && d.Line() == d.verb + d.gap1 + d.path + (d.gap2 + d.version)
  {
    assert d.Target() == d.path;
  }

  lemma UrlDerived(url: string)
    requires UrlOk(url)
    ensures Valid(Derived(url)) && Derived(url).Line() == RequestLineText(url)
  {
    PlainDerivation(Derived(url));
    assert "GET" + " " == "GET " && " " + "HTTP/1.1" == " HTTP/1.1";
  }

  lemma RequestLineChars(url: string)
    requires UrlOk(url)
    ensures LineChars(RequestLineText(url))
  {
    LineCharsJoin("GET ", url);
    LineCharsJoin("GET " + url, " HTTP/1.1");
  }

  /** The pointer and the text that parse_request_line gets from a derived line. */
  lemma UrlPointer(p: Parser, at: nat, shape: LineShape, d: Derivation, k: nat)
    requires at <= |p.data| && Fits(shape, |p.data| - at) && PointsAtParts(p, at, shape, d)
    requires shape.Complete? && shape.url == Some(k)
    ensures var (r, ok) := ApplyLine(p, at, shape);
            ok && r.url == Some(at + k) && at + k <= |r.data| && Str(r.data, at + k) == d.path
  {
  }

  lemma UrlOfLine(p: Parser, at: nat, d: Derivation, shape: LineShape, k: nat)
    requires Valid(d) && at <= |p.data| && at + |Str(p.data, at)| < |p.data| && Str(p.data, at) == d.Line()
    requires k == d.TargetStart() + |d.scheme| + |d.authority|
    requires shape == Complete(|d.verb|, d.TargetEnd(), d.VersionStart(), Some(k), true)
    ensures Fits(shape, |p.data| - at)
    ensures var (r, ok) := ApplyLine(p, at, shape);
            ok && r.url == Some(at + k) && at + k <= |r.data| && Str(r.data, at + k) == d.path
  {
    DerivedLine(p, at, d, shape);
    UrlPointer(p, at, shape, d, k);
  }

  /** What parse_request_line makes of a printed request line. */
  function UrlShape(url: string): LineShape {
    Complete(|"GET"|, URL_AT + |url|, URL_AT + |url| + 1, Some(URL_AT), true)
  }

  lemma ShapeOfUrl(url: string)
    requires UrlOk(url)
    ensures ShapeOf(RequestLineText(url)) == UrlShape(url)
  {
    UrlDerived(url);
    ShapeOfDerivation(Derived(url));
  }

  lemma ApplyUrl(p: Parser, url: string)
    requires UrlOk(url) && |RequestLineText(url)| < |p.data| && Str(p.data, 0) == RequestLineText(url)
    ensures Fits(UrlShape(url), |p.data|)
    ensures var (r, ok) := ApplyLine(p, 0, UrlShape(url));
            ok && r.url == Some(URL_AT) && URL_AT <= |r.data| && Str(r.data, URL_AT) == url
  {
    UrlDerived(url);
    UrlOfLine(p, 0, Derived(url), UrlShape(url), URL_AT);
  }

  lemma FirstText(url: string) returns (r: Parser)
    requires UrlOk(url)
    ensures RunText(AfterLine(Init, RequestLineText(url)), RequestLineText(url)) == (r, true)
    ensures LineChars(RequestLineText(url))
    ensures r.state.Header? && r.url == Some(URL_AT) && Text(r, r.url) == Some(url)
    ensures |r.data| == HostLineAt(url) && r.length == 0 && r.linger
  {
    var line := RequestLineText(url);
    RequestLineChars(url);
    var q := AfterLine(Init, line);
    CutOf([], line);
    assert [] + line == line;
    ApplyUrl(q.(start := q.checked), url);
    ShapeOfUrl(url);
    r := RunText(q, line).0;
  }

  lemma FirstLine(url: string, rest: seq<char>) returns (r: Parser)
    requires UrlOk(url)
    ensures Parsed(r, url, None, DEFAULTS) && Run(Feed(Init, RequestLineText(url) + CRLF + rest)) == Run(Feed(r, rest))
  {
    r := FirstText(url);
    InitSettled();
    PassLine(Init, RequestLineText(url), r, rest);
  }

  /** What is a name up to case has no more line breaks and NULs than the name. */
  lemma FoldChars(name: string, known: string)
    requires EqFold(name, known) && LineChars(known)
    ensures LineChars(name)
  {
    forall i | 0 <= i < |name|
      ensures name[i] != NUL && !Is(name[i], Break)
    {
      assert ToLower(name[i]) == ToLower(known[i]);
    }
  }

  lemma HostChars(host: HostLine)
    requires HostOk(host)
    ensures LineChars(host.Line())
  {
    FoldChars(host.name, "Host:");
    LineCharsJoin(host.name, host.gap);
    LineCharsJoin(host.name + host.gap, host.value);
  }

  lemma HostEffect(host: HostLine)
    requires HostOk(host)
    ensures EffectOf(host.Line()) == SetHost(host.ValueAt()) && LineChars(host.Line())
    ensures host.Line()[host.ValueAt()..] == host.value
  {
    HostChars(host);
    HeaderFields.HostField(host.Line(), host.name, host.gap, host.value);
  }

  lemma HostText(p: Parser, host: HostLine) returns (r: Parser)
    requires AtLineStart(p) && p.state.Header? && HostOk(host)
    ensures r == AfterLine(p, host.Line()).(start := |p.data| + |host.Line()| + 2, host := Some(|p.data| + host.ValueAt()))
    ensures RunText(AfterLine(p, host.Line()), host.Line()) == (r, false)
  {
    HostEffect(host);
    r := RunText(AfterLine(p, host.Line()), host.Line()).0;
  }

  lemma HostThere(p: Parser, line: string, k: nat, host: string)
    requires |line| == k + |host| && line[k..] == host && NoNul(host)
    ensures Str(AfterLine(p, line).data, |p.data| + k) == host
  {
    var d, at := AfterLine(p, line).data, |p.data| + k;
    assert forall i :: 0 <= i < |host| ==> d[at + i] == line[k + i] == line[k..][i];
    assert d[at..at + |host|] == host;
    StrIs(d, at, host);
  }

  lemma HostParsed(p: Parser, r: Parser, url: string, host: HostLine)
    requires Parsed(p, url, None, DEFAULTS) && AtLineStart(r)
    requires r == AfterLine(p, host.Line()).(start := |p.data| + |host.Line()| + 2, host := Some(|p.data| + host.ValueAt()))
    requires Str(AfterLine(p, host.Line()).data, |p.data| + host.ValueAt()) == host.value
    ensures Parsed(r, url, Some(host), DEFAULTS)
  {
    EarlierText(p, host.Line(), p.url);
  }

  lemma HostTaken(p: Parser, host: HostLine) returns (r: Parser)
    requires AtLineStart(p) && p.state.Header? && HostOk(host)
    ensures r == AfterLine(p, host.Line()).(start := |p.data| + |host.Line()| + 2, host := Some(|p.data| + host.ValueAt()))
    ensures RunText(AfterLine(p, host.Line()), host.Line()) == (r, false) && LineChars(host.Line()) && r.state.Header?
    ensures Str(AfterLine(p, host.Line()).data, |p.data| + host.ValueAt()) == host.value
  {
    HostEffect(host);
    r := HostText(p, host);
    HostThere(p, host.Line(), host.ValueAt(), host.value);
  }

  lemma PassHost(p: Parser, url: string, host: HostLine, rest: seq<char>) returns (r: Parser)
    requires Parsed(p, url, None, DEFAULTS) && HostOk(host)
    ensures Parsed(r, url, Some(host), DEFAULTS) && Run(Feed(p, host.Line() + CRLF + rest)) == Run(Feed(r, rest))
    ensures |r.data| == HostLineAt(url) + |host.Line()| + 2
  {
    r := HostTaken(p, host);
    PassLine(p, host.Line(), r, rest);
    HostParsed(p, r, url, host);
  }

  lemma FieldText(p: Parser, line: string, o: Options) returns (r: Parser)
    requires p.state.Header? && p.start == p.checked == |p.data| && p.length == o.length && p.linger == o.linger
    requires Field(line)
    ensures RunText(AfterLine(p, line), line) == (r, false)
    ensures r == AfterLine(p, line).(start := r.checked, length := Effect(o, line).length, linger := Effect(o, line).linger)
  {
    r := RunText(AfterLine(p, line), line).0;
  }

  lemma FieldLine(p: Parser, url: string, host: HostLine, o: Options, line: string, rest: seq<char>) returns (r: Parser)
    requires Parsed(p, url, Some(host), o) && Field(line)
    ensures Parsed(r, url, Some(host), Effect(o, line)) && Run(Feed(p, line + CRLF + rest)) == Run(Feed(r, rest))
    ensures |r.data| == |p.data| + |line| + 2
  {
    r := FieldText(p, line, o);
    EarlierText(p, line, p.url);
    EarlierText(p, line, p.host);
    PassLine(p, line, r, rest);
  }

  /** do_request is called with this url and host. */
  predicate Served(run: (Parser, Outcome), url: string, host: string, linger: bool) {
    && run.1.Ready? && run.0.linger == linger
    && Text(run.0, run.0.url) == Some(url) && Text(run.0, run.0.host) == Some(host)
  }

  /** The decision on a request that declares `length`, when `body` bytes have arrived behind a head of `head` bytes. */
  function DecisionOn(length: int, head: nat, body: nat): Outcome {
    if length != 0 && !(0 <= head + length < 0x8000_0000) then Stray
    else if length <= body then Ready
    else Internal
  }

  /** What becomes of a request with these options, when `body` has arrived behind its head of `head` bytes. */
  predicate Answered(run: (Parser, Outcome), url: string, host: HostLine, o: Options, head: nat, body: seq<char>) {
    && run.1 == DecisionOn(o.length, head, |body|) && run.0.checked == head
    && run.0.length == o.length && run.0.linger == o.linger && (run.0.state.Content? <==> o.length != 0)
    && (run.1.Ready? && 0 <= o.length ==> Served(run, url, host.value, o.linger))
    && (run.1.Ready? && 0 < o.length ==> BodyEnds(run.0, head, o.length, body))
    && (run.1.Ready? && o.length < 0 ==> Overwritten(run.0, url, host, head + o.length))
  }

  /** Behind the head there is the body; it ends, with a NUL, where it is declared to, unless no more bytes have come. */
  predicate BodyEnds(r: Parser, head: nat, length: nat, body: seq<char>) {
    && |r.data| == head + |body| && length <= |body|
    && r.data[head..] == if length < |body| then body[..length] + [NUL] + body[length + 1..] else body
  }

  /** The strings of url and host after a NUL has been written at `hole`: each is as printed, unless it is cut there. */
  predicate Overwritten(r: Parser, url: string, host: HostLine, hole: int) {
    Text(r, r.url) == Some(CutAt(url, URL_AT, hole)) && Text(r, r.host) == Some(CutAt(host.value, HostAt(url, host), hole))
  }

  /** Url and host stand where they were printed. */
  predicate AsPrinted(q: Parser, url: string, host: HostLine) {
    && q.url == Some(URL_AT) && Text(q, q.url) == Some(url)
    && q.host == Some(HostAt(url, host)) && Text(q, q.host) == Some(host.value)
  }

  lemma NoBody(
      p: Parser, q: Parser, url: string, host: HostLine, o: Options, head: nat, body: seq<char>, run: (Parser, Outcome))
    requires Wf(p) && run == Run(Feed(p, body)) && Turn(p) == (q, Some(Ready)) && Inv(q) && q.state.Header?
    requires q.linger == o.linger && q.length == o.length == 0 && q.checked == head
    requires Text(q, q.url) == Some(url) && Text(q, q.host) == Some(host.value)
    ensures Answered(run, url, host, o, head, body)
  {
    RunExtends(p, body);
    LaterText(q, run.0, q.url);
    LaterText(q, run.0, q.host);
  }

  lemma RunOfBody(p: Parser, q: Parser, body: seq<char>)
    requires Wf(p) && Wf(q) && Turn(p) == (q, None) && q.state.Content?
    ensures Run(Feed(p, body)) == ContentStep(Feed(q, body))
  {
    TurnExtends(p, body);
  }

  lemma BodyCut(head: seq<char>, body: seq<char>, length: nat, r: Parser)
    requires length <= |body|
    requires r.data == if length < |body| then (head + body)[|head| + length := NUL] else head + body
    ensures BodyEnds(r, |head|, length, body)
  {
  }

  lemma BodyAnswered(
      q: Parser, url: string, host: HostLine, o: Options, body: seq<char>, run: (Parser, Outcome))
    requires Inv(q) && q.state.Content? && q.checked == |q.data| && run == ContentStep(Feed(q, body))
    requires q.linger == o.linger && q.length == o.length != 0
    requires AsPrinted(q, url, host)
    ensures Answered(run, url, host, o, |q.data|, body)
  {
    if 0 <= o.length <= |body| {
      BodyBehind(q, run.0, q.url);
      BodyBehind(q, run.0, q.host);
      if o.length > 0 && run.1.Ready? {
        BodyCut(q.data, body, o.length, run.0);
      }
    } else if o.length < 0 && 0 <= |q.data| + o.length < 0x8000_0000 {
      BodyWritesBack(q, run.0, url, host, o, body);
    }
  }

  lemma WithBody(
      p: Parser, q: Parser, url: string, host: HostLine, o: Options, body: seq<char>, run: (Parser, Outcome))
    requires Wf(p) && run == Run(Feed(p, body)) && Turn(p) == (q, None)
    requires Inv(q) && q.state.Content? && q.checked == |q.data|
    requires q.linger == o.linger && q.length == o.length != 0
    requires AsPrinted(q, url, host)
    ensures Answered(run, url, host, o, |q.data|, body)
  {
    RunOfBody(p, q, body);
    BodyAnswered(q, url, host, o, body, run);
  }

  lemma BodyBehind(q: Parser, r: Parser, at: Option<nat>)
    requires Wf(q) && Anchored(q, at) && |q.data| <= |r.data| && r.data[..|q.data|] == q.data
    ensures Text(q, at) == Text(r, at)
  {
    if at.Some? {
      StrStable(q.data, r.data, at.value, |q.data|);
    }
  }

  lemma BodyWritesBack(q: Parser, r: Parser, url: string, host: HostLine, o: Options, body: seq<char>)
    requires Inv(q) && q.state.Content? && q.checked == |q.data| && q.length == o.length < 0
    requires 0 <= |q.data| + o.length < 0x8000_0000
    requires AsPrinted(q, url, host)
    requires r == ContentStep(Feed(q, body)).0
    ensures Overwritten(r, url, host, |q.data| + o.length)
  {
    assert SameBut(q.data, r.data, |q.data|, |q.data| + o.length);
    HitOrKept(q, r, URL_AT, |q.data| + o.length);
    HitOrKept(q, r, HostAt(url, host), |q.data| + o.length);
  }

  lemma HitOrKept(q: Parser, r: Parser, at: nat, hole: int)
    requires Wf(q) && q.checked == q.start == |q.data| && Ends(q.data, at, q.start)
    requires SameBut(q.data, r.data, |q.data|, hole)
    ensures at <= |r.data| && Str(r.data, at) == CutAt(Str(q.data, at), at, hole)
  {
    StrStable(q.data, q.data, at, |q.data|);
    StringBut(q.data, r.data, at, |q.data|, hole);
  }

  /** The bytes of fields and the empty line behind them. */
  function Tail(fields: seq<string>): string {
    Concat(Wire(fields + [""]))
  }

  lemma TailIs(fields: seq<string>, body: seq<char>)
    ensures fields == [] ==> Tail(fields) == "" + CRLF
    ensures fields != [] ==> |Tail(fields)| == |fields[0]| + 2 + |Tail(fields[1..])|
                             && Tail(fields) + body == fields[0] + CRLF + (Tail(fields[1..]) + body)
  {
    if fields == [] {
      WireCons("", []);
      assert fields + [""] == [""] + [];
      assert "" + CRLF + Concat(Wire([])) == "" + CRLF;
    } else {
      WireCons(fields[0], fields[1..] + [""]);
      assert fields + [""] == [fields[0]] + (fields[1..] + [""]);
    }
  }

  /** One field on: the rest of the run is that from the next line start. */
  lemma PassField(p: Parser, url: string, host: HostLine, o: Options, fields: seq<string>, body: seq<char>) returns (r: Parser)
    requires Parsed(p, url, Some(host), o) && fields != [] && Field(fields[0])
    ensures Parsed(r, url, Some(host), Effect(o, fields[0]))
    ensures Run(Feed(p, Tail(fields) + body)) == Run(Feed(r, Tail(fields[1..]) + body))
    ensures |r.data| + |Tail(fields[1..])| == |p.data| + |Tail(fields)|
  {
    TailIs(fields, body);
    r := FieldLine(p, url, host, o, fields[0], Tail(fields[1..]) + body);
  }

  lemma EmptyLine(p: Parser, url: string, host: HostLine, o: Options) returns (q: Parser)
    requires Parsed(p, url, Some(host), o)
    ensures Turn(Feed(p, "" + CRLF)) == (q, if o.length == 0 then Some(Ready) else None) && Inv(q)
    ensures (if o.length == 0 then q.state.Header? else q.state.Content?) && q.linger == o.linger && q.length == o.length
    ensures AsPrinted(q, url, host)
    ensures q.checked == |q.data| == |p.data| + 2
  {
    EarlierText(p, "", p.url);
    EarlierText(p, "", p.host);
    assert EffectOf("") == EndOfHeaders;
    var line := RunText(AfterLine(p, ""), "");
    q := line.0;
    TurnOfLine(p, "", q, line.1);
  }

  lemma LastLine(p: Parser, url: string, host: HostLine, o: Options, body: seq<char>, run: (Parser, Outcome))
    requires Parsed(p, url, Some(host), o) && run == Run(Feed(p, Tail([]) + body))
    ensures Answered(run, url, host, o, |p.data| + 2, body)
  {
    var q := EmptyLine(p, url, host, o);
    TailIs([], body);
    FeedFeed(p, "" + CRLF, body);
    if o.length == 0 {
      NoBody(Feed(p, "" + CRLF), q, url, host, o, |p.data| + 2, body, run);
    } else {
      WithBody(Feed(p, "" + CRLF), q, url, host, o, body, run);
    }
  }

  /** All fields on. */
  lemma {:induction false} PassFields(p: Parser, url: string, host: HostLine, o: Options, fields: seq<string>, body: seq<char>)
    returns (r: Parser)
    requires Parsed(p, url, Some(host), o) && forall i :: 0 <= i < |fields| ==> Field(fields[i])
    ensures Parsed(r, url, Some(host), Effects(o, fields))
    ensures Run(Feed(p, Tail(fields) + body)) == Run(Feed(r, Tail([]) + body))
    ensures |r.data| + |Tail([])| == |p.data| + |Tail(fields)|
    decreases |fields|
  {
    r := p;
    if fields != [] {
      r := PassField(p, url, host, o, fields, body);
      r := PassFields(r, url, host, Effect(o, fields[0]), fields[1..], body);
    }
  }

  lemma WireCons(line: string, lines: seq<string>)
    ensures Concat(Wire([line] + lines)) == line + CRLF + Concat(Wire(lines))
  {
    assert Wire([line] + lines)[1..] == Wire(lines);
  }

  lemma FirstLines(url: string, host: HostLine, rest: seq<char>) returns (r: Parser)
    requires UrlOk(url) && HostOk(host)
    ensures Parsed(r, url, Some(host), DEFAULTS) && |r.data| == HostLineAt(url) + |host.Line()| + 2
    ensures Run(Feed(Init, RequestLineText(url) + CRLF + (host.Line() + CRLF + rest))) == Run(Feed(r, rest))
  {
    var p := FirstLine(url, host.Line() + CRLF + rest);
    r := PassHost(p, url, host, rest);
  }

  lemma PrintedText(url: string, host: HostLine, fields: seq<string>, body: seq<char>)
    ensures Print(url, host, fields) + body
            == RequestLineText(url) + CRLF + (host.Line() + CRLF + (Tail(fields) + body))
  {
    var tail := fields + [""];
    assert Lines(url, host, fields) == [RequestLineText(url)] + ([host.Line()] + tail);
    WireCons(RequestLineText(url), [host.Line()] + tail);
    WireCons(host.Line(), tail);
    Regroup(RequestLineText(url) + CRLF, host.Line() + CRLF, Concat(Wire(tail)), body);
  }

  lemma Regroup(a: seq<char>, b: seq<char>, c: seq<char>, d: seq<char>)
    ensures a + (b + c) + d == a + (b + (c + d))
  {
  }

  lemma PrintedLength(url: string, host: HostLine, fields: seq<string>)
    ensures |Print(url, host, fields)| == HostLineAt(url) + |host.Line()| + 2 + |Tail(fields)|
  {
    PrintedText(url, host, fields, []);
  }

  lemma PrintedPasses(url: string, host: HostLine, fields: seq<string>, body: seq<char>)
    returns (r: Parser, run: (Parser, Outcome))
    requires UrlOk(url) && HostOk(host) && forall i :: 0 <= i < |fields| ==> Field(fields[i])
    ensures Parsed(r, url, Some(host), Effects(DEFAULTS, fields))
    ensures Run(Feed(Init, Print(url, host, fields) + body)) == run == Run(Feed(r, Tail([]) + body))
    ensures |r.data| + 2 == |Print(url, host, fields)|
  {
    PrintedText(url, host, fields, body);
    PrintedLength(url, host, fields);
    r := FirstLines(url, host, Tail(fields) + body);
    r := PassFields(r, url, host, DEFAULTS, fields, body);
    run := Run(Feed(r, Tail([]) + body));
    TailIs([], []);
  }

  /**
   A printed request with any header fields, and `body` behind it, in one call. If the declared end of the body is
   before the buffer, or no int, all is undefined. Else, if the declared length exceeds the body, INTERNAL_ERROR
   results; otherwise do_request is reached. It is given url, host and linger as printed, except that a negative
   length puts a NUL that many bytes before the end of the head.
   */
  lemma PrintedIsAnswered(url: string, host: HostLine, fields: seq<string>, body: seq<char>)
    requires UrlOk(url) && HostOk(host) && forall i :: 0 <= i < |fields| ==> Field(fields[i])
    ensures var head := Print(url, host, fields);
            Answered(Run(Feed(Init, head + body)), url, host, Effects(DEFAULTS, fields), |head|, body)
  {
    var r, run := PrintedPasses(url, host, fields, body);
    LastLine(r, url, host, Effects(DEFAULTS, fields), body, run);
  }

  /** Whether a connection gets to do_request with this url and host, or is closed. */
  predicate ServedOrClosed(r: Option<(Parser, Outcome)>, fits: bool, url: string, host: string, linger: bool) {
    if fits then r.Some? && Served(r.value, url, host, linger) else r.None?
  }

  lemma ServedInChunks(s: string, chunks: seq<seq<char>>, url: string, host: string, linger: bool, run: (Parser, Outcome))
    requires Concat(chunks) == s && Arrivals(chunks) && run == Run(Feed(Init, s))
    requires Served(run, url, host, linger) && !run.0.state.Content? && run.0.checked == |s|
    ensures ServedOrClosed(Receive(Init, chunks), |s| <= READ_BUFFER_SIZE, url, host, linger)
  {
    InitSettled();
    if |s| <= READ_BUFFER_SIZE {
      ReceiveFits(Init, chunks);
      DriveAgrees(Init, chunks);
    } else {
      ReceivedExactly(Init, chunks);
    }
  }

  lemma {:induction false} IgnoredFields(o: Options, fields: seq<string>)
    requires forall i :: 0 <= i < |fields| ==> Ignored(fields[i])
    ensures Effects(o, fields) == o
    decreases |fields|
  {
    if fields != [] {
      IgnoredFields(o, fields[1..]);
    }
  }

  /**
   Print and parse: whatever url, host and fields that declare no body are printed, and however the bytes are cut into
   reads, do_request is reached with exactly that url and host, and linger as the fields say, if and only if they fit
   the buffer; if they do not, the connection is closed.
   */
  lemma PrintedInChunks(url: string, host: HostLine, fields: seq<string>, chunks: seq<seq<char>>)
    requires UrlOk(url) && HostOk(host) && forall i :: 0 <= i < |fields| ==> Field(fields[i])
    requires Concat(chunks) == Print(url, host, fields) && Arrivals(chunks) && Effects(DEFAULTS, fields).length == 0
    ensures ServedOrClosed(Receive(Init, chunks), |Print(url, host, fields)| <= READ_BUFFER_SIZE,
                           url, host.value, Effects(DEFAULTS, fields).linger)
  {
    var s := Print(url, host, fields);
    PrintedIsAnswered(url, host, fields, []);
    assert s + [] == s;
    ServedInChunks(s, chunks, url, host.value, Effects(DEFAULTS, fields).linger, Run(Feed(Init, s)));
  }

  /** With fields the parser ignores, linger is set. */
  lemma RoundTrip(url: string, host: HostLine, fields: seq<string>, chunks: seq<seq<char>>)
    requires UrlOk(url) && HostOk(host) && forall i :: 0 <= i < |fields| ==> Ignored(fields[i])
    requires Concat(chunks) == Print(url, host, fields) && Arrivals(chunks)
    ensures ServedOrClosed(Receive(Init, chunks), |Print(url, host, fields)| <= READ_BUFFER_SIZE, url, host.value, true)
  {
    IgnoredFields(DEFAULTS, fields);
    PrintedInChunks(url, host, fields, chunks);
  }

  /** A field whose name starts with none of P, C and H is ignored. */
  lemma UnknownField(line: string)
    requires LineChars(line) && line != "" && ToLower(line[0]) != 'p' && ToLower(line[0]) != 'c' && ToLower(line[0]) != 'h'
    ensures Ignored(line)
  {
    NotPrefix(line, "Proxy-Connection:");
    NotPrefix(line, "Content-Length:");
    NotPrefix(line, "Host:");
  }

  lemma AgentIgnored()
    ensures Ignored(CLIENT_AGENT)
  {
    UnknownField(CLIENT_AGENT);
  }

  lemma ProxyIgnored()
    ensures Ignored(CLIENT_PROXY)
  {
    var name := "Proxy-Connection:";
    assert CLIENT_PROXY[..17] == name;
    FirstNotInIs(CLIENT_PROXY, 17, Blank, 18);
    assert CLIENT_PROXY[18..] == "keep-alive";
  }

  lemma ClientParts()
    ensures UrlOk(CLIENT_URL) && HostOk(CLIENT_HOST)
  {
  }

  lemma TwoFields(url: string, host: HostLine, a: string, b: string, chunks: seq<seq<char>>)
    requires UrlOk(url) && HostOk(host) && Ignored(a) && Ignored(b)
    requires Concat(chunks) == Print(url, host, [a, b]) && Arrivals(chunks)
    ensures ServedOrClosed(Receive(Init, chunks), |Print(url, host, [a, b])| <= READ_BUFFER_SIZE, url, host.value, true)
  {
    RoundTrip(url, host, [a, b], chunks);
  }

  lemma TwoFieldsLength(url: string, host: HostLine, a: string, b: string)
    ensures |Print(url, host, [a, b])| == HostLineAt(url) + |host.Line()| + |a| + |b| + 8
  {
    PrintedLength(url, host, [a, b]);
    TailIs([a, b], []);
    TailIs([b], []);
    TailIs([], []);
    assert [a, b][1..] == [b] && [b][1..] == [];
  }

  /** The request the client does send is served with its page, however TCP cuts it. */
  lemma ClientIsServed(chunks: seq<seq<char>>)
    requires Concat(chunks) == Print(CLIENT_URL, CLIENT_HOST, [CLIENT_AGENT, CLIENT_PROXY]) && Arrivals(chunks)
    ensures var r := Receive(Init, chunks); r.Some? && Served(r.value, CLIENT_URL, CLIENT_HOST.value, true)
  {
    ClientParts();
    AgentIgnored();
    ProxyIgnored();
    TwoFields(CLIENT_URL, CLIENT_HOST, CLIENT_AGENT, CLIENT_PROXY, chunks);
    TwoFieldsLength(CLIENT_URL, CLIENT_HOST, CLIENT_AGENT, CLIENT_PROXY);
  }
}
