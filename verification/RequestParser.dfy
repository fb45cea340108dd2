/**
 The request parser of http_conn as a machine on values: `data` is the part of the read
 buffer that has been filled, so `|data|` is `m_read_idx`. RequestReader.dfy proves that the
 code, which works in place on the buffer, computes exactly this machine.
 */
module RequestParser {
  import opened Base
  import opened CStrings

  const READ_BUFFER_SIZE: nat := 2048

  datatype CheckState = RequestLine | Header | Content
  datatype LineStatus = LineOk | LineBad | LineOpen

  /** What process_read decides before do_request looks at the file system. */
  datatype Outcome =
    | Pending   // NO_REQUEST
    | Bad       // BAD_REQUEST
    | Ready     // GET_REQUEST: do_request is called
    | Internal  // INTERNAL_ERROR
    | Stray     // undefined: the sum in parse_content overflows, or its NUL is to go before the buffer

  datatype Parser = Parser(
    data: seq<char>, checked: nat, start: nat, state: CheckState,
    url: Option<nat>, version: Option<nat>, host: Option<nat>, length: int, linger: bool)

  const Init: Parser := Parser([], 0, 0, RequestLine, None, None, None, 0, true)

  predicate Wf(p: Parser) {
    p.start <= p.checked <= |p.data| && (p.state.Content? ==> p.start == p.checked)
  }

  /** recv appends to the filled part of the buffer. */
  function Feed(p: Parser, bytes: seq<char>): Parser {
    p.(data := p.data + bytes)
  }

  /** parse_line: go on to the first CR or LF; overwrite a CR LF with two NULs. */
  function ScanLine(p: Parser): (r: (Parser, LineStatus))
    requires p.checked <= |p.data|
    ensures r.0 == p.(data := r.0.data, checked := r.0.checked)
    ensures |r.0.data| == |p.data| && p.checked <= r.0.checked <= |p.data|
    ensures r.1.LineOk? ==> p.checked < r.0.checked && r.0.data[r.0.checked - 1] == NUL
    ensures !r.1.LineOk? ==> r.0.data == p.data
  {
    StopAt(p, FirstIn(p.data, p.checked, Break))
  }

  /** parse_line's decision at the first CR or LF. */
  function StopAt(p: Parser, i: nat): (r: (Parser, LineStatus))
    requires i <= |p.data| && (i < |p.data| ==> Is(p.data[i], Break))
    ensures r.0 == p.(data := r.0.data, checked := r.0.checked)
    ensures |r.0.data| == |p.data| && i <= r.0.checked <= |p.data|
    ensures if r.1.LineOk? then i < r.0.checked && r.0.data[r.0.checked - 1] == NUL else r.0 == p.(checked := i)
  {
    var b := p.data;
    if i == |b| || (b[i] == CR && i + 1 == |b|) then (p.(checked := i), LineOpen)
    else if b[i] == CR && b[i + 1] == LF then (p.(data := b[i := NUL][i + 1 := NUL], checked := i + 2), LineOk)
    else if b[i] == LF && i > 1 && b[i - 1] == CR then (p.(data := b[i - 1 := NUL][i := NUL], checked := i + 1), LineOk)
    else (p.(checked := i), LineBad)
  }

  /** What is done at a break does not depend on where the scan began. */
  lemma StopIgnoresChecked(p: Parser, c: nat, i: nat)
    requires i <= |p.data| && (i < |p.data| ==> Is(p.data[i], Break))
    ensures StopAt(p.(checked := c), i) == StopAt(p, i)
  {
  }

  /** What parse_request_line makes of a line: the offsets it overwrites and the pointers it sets. */
  datatype LineShape =
    | NoBlank
    | WrongMethod(methodEnd: nat)
    | NoVersion(methodEnd: nat, target: nat)
    | Complete(methodEnd: nat, targetEnd: nat, version: nat, url: Option<nat>, ok: bool)

  /** The offsets lie within a line of `n` bytes. */
  predicate Fits(shape: LineShape, n: nat) {
    match shape
    case NoBlank => true
    case WrongMethod(i) => i < n
    case NoVersion(i, u) => i < n && u <= n
    case Complete(i, j, v, url, ok) => i < j < n && v <= n && (url.Some? ==> url.value <= n) && (ok ==> url.Some?)
  }

  function ShapeOf(s: string): (shape: LineShape)
    ensures Fits(shape, |s|)
  {
    var i := FirstIn(s, 0, Blank);
    if i == |s| then NoBlank
    else if !EqFold(s[..i], "GET") then WrongMethod(i)
    else
      var u := FirstNotIn(s, i + 1, Blank);
      var j := FirstIn(s, u, Blank);
      if j == |s| then NoVersion(i, u) else Judge(s, i, u, j, FirstNotIn(s, j + 1, Blank))
  }

  /** The checks of parse_request_line once both cuts are made. */
  function Judge(s: string, i: nat, u: nat, j: nat, v: nat): (shape: LineShape)
    requires i < u < j < |s| && v <= |s|
    ensures Fits(shape, |s|) && shape.Complete? && shape.methodEnd == i && shape.targetEnd == j && shape.version == v
  {
    if !EqFold(s[v..], "HTTP/1.1") then Complete(i, j, v, Some(u), false)
    else
      match Slash(s[u..j])
      case None => Complete(i, j, v, None, false)
      case Some(k) => Complete(i, j, v, Some(u + k), u + k < j && s[u + k] == '/')
  }

  /** The path pointer within a target: strchr after http://, else its first byte. */
  function Slash(target: string): (k: Option<nat>)
    ensures k.Some? ==> k.value <= |target|
  {
    if HasPrefixFold(target, "http://") then
      var k := FirstIn(target, 7, Slashes);
      if k == |target| then None else Some(k)
    else Some(0)
  }

  /** The effect of parse_request_line on a line at `at`; false is BAD_REQUEST. */
  function ApplyLine(p: Parser, at: nat, shape: LineShape): (r: (Parser, bool))
    requires at <= |p.data| && Fits(shape, |p.data| - at)
    ensures |r.0.data| == |p.data| && r.0.checked == p.checked && r.0.start == p.start
    ensures r.0 == p.(data := r.0.data, state := r.0.state, url := r.0.url, version := r.0.version)
    ensures r.0.state == if r.1 then Header else p.state
  {
    match shape
    case NoBlank => (p.(url := None), false)
    case WrongMethod(i) => (p.(data := p.data[at + i := NUL], url := Some(at + i + 1)), false)
    case NoVersion(i, u) => (p.(data := p.data[at + i := NUL], url := Some(at + u), version := None), false)
    case Complete(i, j, v, url, ok) =>
      (p.(data := p.data[at + i := NUL][at + j := NUL], version := Some(at + v),
          url := if url.Some? then Some(at + url.value) else None,
          state := if ok then Header else p.state), ok)
  }

  /** What parse_headers makes of a line. */
  datatype HeaderEffect =
    | EndOfHeaders
    | NoKeepAlive
    | SetLength(value: int)
    | SetHost(offset: nat)
    | Nothing

  function EffectOf(s: string): (effect: HeaderEffect)
    ensures effect.SetHost? ==> effect.offset <= |s|
  {
    if s == "" then EndOfHeaders
    else if HasPrefixFold(s, "Proxy-Connection:") then
      if EqFold(s[FirstNotIn(s, 17, Blank)..], "keep-alive") then Nothing else NoKeepAlive
    else if HasPrefixFold(s, "Content-Length:") then SetLength(AtoI(s[FirstNotIn(s, 15, Blank)..]))
    else if HasPrefixFold(s, "Host:") then SetHost(FirstNotIn(s, 5, Blank))
    else Nothing
  }

  /** The effect of parse_headers on a line at `at`; true is GET_REQUEST. */
  function ApplyHeader(p: Parser, at: nat, effect: HeaderEffect): (r: (Parser, bool))
    ensures r.0 == p.(state := r.0.state, host := r.0.host, length := r.0.length, linger := r.0.linger)
    ensures r.0.state == p.state || r.0.state.Content?
    ensures r.1 ==> r.0 == p
  {
    match effect
    case EndOfHeaders => if p.length != 0 then (p.(state := Content), false) else (p, true)
    case NoKeepAlive => (p.(linger := false), false)
    case SetLength(n) => (p.(length := n), false)
    case SetHost(k) => (p.(host := Some(at + k)), false)
    case Nothing => (p, false)
  }

  /** The guard of parse_content. */
  predicate BodyComplete(p: Parser) {
    |p.data| >= p.length + p.checked
  }

  /** The declared end of the body is an int, and not before the buffer. */
  predicate EndInRange(p: Parser) {
    0 <= p.checked + p.length < 0x8000_0000
  }

  /**
   Content state: parse_content, then do_request or INTERNAL_ERROR; the state of a stray write is the one before it.
   Behind what is filled a NUL changes nothing: the rest of the buffer, and m_write_buf behind it, are still zero.
   */
  function ContentStep(p: Parser): (r: (Parser, Outcome))
    requires Wf(p)
    ensures Wf(r.0) && r.0 == p.(start := p.checked, data := r.0.data) && |r.0.data| == |p.data|
  {
    var q := p.(start := p.checked);
    if !EndInRange(p) then (q, Stray)
    else if !BodyComplete(p) then (q, Internal)
    else
      var w := p.checked + p.length;
      (if w < |p.data| then q.(data := q.data[w := NUL]) else q, Ready)
  }

  /** The text of a line that ends below `n` lies below `n`, whatever bytes follow. */
  lemma LineText(b: seq<char>, e: seq<char>, i: nat, n: nat)
    requires i < n <= |b| && b[n - 1] == NUL
    ensures var text := Str(b, i); i + |text| < n && b[i + |text|] == NUL && Str(b + e, i) == text
  {
    assert (b + e)[..n] == b[..n];
    StrStable(b, b + e, i, n);
  }

  /** One turn of process_read's loop; an outcome ends the loop. */
  function Turn(p: Parser): (r: (Parser, Option<Outcome>))
    requires Wf(p)
    ensures Wf(r.0) && |r.0.data| == |p.data| && p.checked <= r.0.checked
    ensures r.1.None? ==> p.checked < r.0.checked
  {
    if p.state.Content? then
      var (q, outcome) := ContentStep(p);
      (q, Some(outcome))
    else
      var (q, status) := ScanLine(p);
      if status != LineOk then (q, Some(Pending))
      else
        var (r, flag) := RunText(q, Str(q.data, q.start));
        (r, if q.state.RequestLine? && !flag then Some(Bad)
            else if q.state.Header? && flag then Some(Ready)
            else None)
  }

  /** process_read up to the call of do_request. */
  function Run(p: Parser): (r: (Parser, Outcome))
    requires Wf(p)
    ensures Wf(r.0) && |r.0.data| == |p.data| && p.checked <= r.0.checked
    decreases |p.data| - p.checked
  {
    var (q, outcome) := Turn(p);
    if outcome.Some? then (q, outcome.value) else Run(q)
  }

  /** The switch of process_read on the text of a line that parse_line has just completed. */
  function RunText(q: Parser, text: string): (r: (Parser, bool))
    requires q.start <= q.checked <= |q.data| && !q.state.Content? && |text| <= |q.data| - q.start
    ensures Wf(r.0) && |r.0.data| == |q.data| && r.0.checked == q.checked == r.0.start
    ensures q.state.Header? && r.1 ==> r.0.state.Header?
  {
    var q' := q.(start := q.checked);
    if q.state.RequestLine? then ApplyLine(q', q.start, ShapeOf(text)) else ApplyHeader(q', q.start, EffectOf(text))
  }

  /** Serve one chunk after another, with process_read after each, until something is decided. */
  function Drive(p: Parser, chunks: seq<seq<char>>): (r: (Parser, Outcome))
    requires Wf(p)
    ensures Wf(r.0)
    decreases chunks
  {
    if chunks == [] then (p, Pending)
    else
      var (q, outcome) := Run(Feed(p, chunks[0]));
      if outcome == Pending then Drive(q, chunks[1..]) else (q, outcome)
  }

  function Concat(chunks: seq<seq<char>>): seq<char> {
    if chunks == [] then [] else chunks[0] + Concat(chunks[1..])
  }

  /** The string a pointer designates; None for a null pointer. */
  function Text(p: Parser, at: Option<nat>): Option<string> {
    if at.Some? && at.value <= |p.data| then Some(Str(p.data, at.value)) else None
  }
}
