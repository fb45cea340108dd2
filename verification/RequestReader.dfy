/** The reading half of class http_conn: the buffer, its three cursors and the parser methods. */
module RequestReader {
  import opened Base
  import opened CStrings
  import opened HttpCodes
  import opened RequestParser
  import opened ParserInvariants

  /** What recv answers. */
  datatype RecvResult = Bytes(bytes: seq<char>) | WouldBlock | Failed | EndOfStream

  /** All bytes of the leading answers, and the answer that ends the loop. */
  function Received(answers: seq<RecvResult>): seq<char> {
    if answers == [] || !answers[0].Bytes? then [] else answers[0].bytes + Received(answers[1..])
  }

  function Ending(answers: seq<RecvResult>): RecvResult {
    if answers == [] then WouldBlock
    else if answers[0].Bytes? then Ending(answers[1..])
    else answers[0]
  }

  /** The first `i` answers have yielded `done`. */
  predicate Got(answers: seq<RecvResult>, i: nat, done: seq<char>) {
    i <= |answers| && Received(answers) == done + Received(answers[i..]) && Ending(answers) == Ending(answers[i..])
  }

  lemma GetMore(answers: seq<RecvResult>, i: nat, done: seq<char>)
    requires i < |answers| && answers[i].Bytes? && Got(answers, i, done)
    ensures Got(answers, i + 1, done + answers[i].bytes) && |Received(answers)| >= |done| + |answers[i].bytes|
  {
    assert answers[i..][1..] == answers[i + 1..];
    assert done + (answers[i].bytes + Received(answers[i + 1..])) == done + answers[i].bytes + Received(answers[i + 1..]);
  }

  lemma AllGot(answers: seq<RecvResult>, i: nat, done: seq<char>)
    requires Got(answers, i, done) && (i < |answers| ==> !answers[i].Bytes?)
    ensures Received(answers) == done && Ending(answers) == if i < |answers| then answers[i] else WouldBlock
  {
  }

  /** read() gets along: there was room at first, there is for all that comes, and then there is nothing more. */
  predicate ReadOk(filled: nat, answers: seq<RecvResult>) {
    filled < READ_BUFFER_SIZE && filled + |Received(answers)| <= READ_BUFFER_SIZE && Ending(answers).WouldBlock?
  }

  /** The first `n` answers are bytes, and no more than these. */
  predicate BytesUpTo(answers: seq<RecvResult>, n: nat) {
    n <= |answers| && (forall i :: 0 <= i < n ==> answers[i].Bytes?) && (n < |answers| ==> !answers[n].Bytes?)
  }

  function Gathered(answers: seq<RecvResult>, n: nat): seq<char>
    requires n <= |answers| && forall i :: 0 <= i < n ==> answers[i].Bytes?
  {
    if n == 0 then [] else Gathered(answers, n - 1) + answers[n - 1].bytes
  }

  /** What is to come of the answers of recv: no more fit than 2048 bytes, and only EAGAIN ends them well. */
  ghost predicate ReadBy(filled: nat, answers: seq<RecvResult>, ok: bool, bytes: seq<char>) {
    forall n: nat | BytesUpTo(answers, n) ::
      && bytes == Gathered(answers, n)
      && (ok <==> filled < 2048 && filled + |Gathered(answers, n)| <= 2048 && (n == |answers| || answers[n] == WouldBlock))
  }

  lemma {:induction false} ReceivedFrom(answers: seq<RecvResult>, i: nat, n: nat)
    requires i <= n && BytesUpTo(answers, n)
    ensures Received(answers) == Gathered(answers, i) + Received(answers[i..]) && Ending(answers) == Ending(answers[i..])
    decreases i
  {
    if i == 0 {
      assert answers[0..] == answers;
    } else {
      ReceivedFrom(answers, i - 1, n);
      assert answers[i - 1..][1..] == answers[i..];
      Regroup(Gathered(answers, i - 1), answers[i - 1].bytes, Received(answers[i..]));
    }
  }

  lemma Regroup(a: seq<char>, b: seq<char>, c: seq<char>)
    ensures a + (b + c) == a + b + c
  {
  }

  lemma ReadExactly(filled: nat, answers: seq<RecvResult>)
    ensures ReadBy(filled, answers, ReadOk(filled, answers), Received(answers))
  {
    forall n: nat | BytesUpTo(answers, n)
      ensures Received(answers) == Gathered(answers, n)
      ensures Ending(answers) == if n < |answers| then answers[n] else WouldBlock
    {
      ReceivedFrom(answers, n, n);
    }
  }

  lemma FeedMore(p: Parser, done: seq<char>, bytes: seq<char>)
    ensures Feed(Feed(p, done), bytes) == Feed(p, done + bytes)
  {
    assert p.data + done + bytes == p.data + (done + bytes);
  }

  /** What stat finds. */
  datatype FileStat = Missing | Found(othersMayRead: bool, isDirectory: bool, size: nat)

  const DOC_ROOT: string := "/home/ouyangyiqi/Learning/Linux/html"
  const FILENAME_LEN: nat := 200

  /** The name of the file a url stands for: the url under the document root, cut to 199 characters in all. */
  predicate Names(name: string, url: string) {
    && "/home/ouyangyiqi/Learning/Linux/html" <= name
    && |name| == (if 36 + |url| <= 199 then 36 + |url| else 199)
    && name[36..] <= url
  }

  /** There is just one such name. */
  lemma OneName(a: string, b: string, url: string)
    requires Names(a, url) && Names(b, url)
    ensures a == b
  {
    assert a == a[..36] + a[36..] && b == b[..36] + b[36..];
    assert a[36..] == url[..|a| - 36] && b[36..] == url[..|a| - 36];
  }

  /** The path do_request builds: strncpy cuts a long url. */
  function RealFile(url: string): (name: string)
    ensures Names(name, url)
  {
    var room := FILENAME_LEN - |DOC_ROOT| - 1;
    DOC_ROOT + if |url| <= room then url else url[..room]
  }

  function Resource(file: FileStat): HttpCode {
    if file.Missing? then NO_RESOURCE
    else if !file.othersMayRead then FORBIDDEN_REQUEST
    else if file.isDirectory then BAD_REQUEST
    else FILE_REQUEST
  }

  /** For example, the page that the client asks for. */
  lemma IndexName()
    ensures RealFile("/index.html") == "/home/ouyangyiqi/Learning/Linux/html/index.html"
  {
    assert "/home/ouyangyiqi/Learning/Linux/html/index.html"[36..] == "/index.html";
    OneName(RealFile("/index.html"), "/home/ouyangyiqi/Learning/Linux/html/index.html", "/index.html");
  }

  /** What do_request answers for what stat finds. */
  predicate Judged(file: FileStat, code: HttpCode) {
    && (file == Missing ==> code == NO_RESOURCE)
    && (file.Found? && !file.othersMayRead ==> code == FORBIDDEN_REQUEST)
    && (file.Found? && file.othersMayRead && file.isDirectory ==> code == BAD_REQUEST)
    && (file.Found? && file.othersMayRead && !file.isDirectory ==> code == FILE_REQUEST)
  }

  /** What process_read answers: by the decision and, if do_request is reached, by what stat finds under the name for the url. */
  ghost predicate Answers(r: (Parser, Outcome), stat: string -> FileStat, code: HttpCode) {
    && (r.1.Pending? ==> code == NO_REQUEST)
    && (r.1.Bad? ==> code == BAD_REQUEST)
    && (r.1.Internal? ==> code == INTERNAL_ERROR)
    && (r.1.Ready? ==> forall name | Names(name, Text(r.0, r.0.url).GetOr("")) :: Judged(stat(name), code))
  }

  lemma CodeAnswers(r: (Parser, Outcome), stat: string -> FileStat)
    ensures !r.1.Stray? ==> Answers(r, stat, CodeOf(r, stat))
  {
    if r.1.Ready? {
      var url := Text(r.0, r.0.url).GetOr("");
      forall name | Names(name, url)
        ensures name == RealFile(url)
      {
        OneName(name, RealFile(url), url);
      }
    }
  }

  /** The answer of process_read for what the machine decided. */
  function CodeOf(r: (Parser, Outcome), stat: string -> FileStat): HttpCode
    requires !r.1.Stray?
  {
    match r.1
    case Pending => NO_REQUEST
    case Bad => BAD_REQUEST
    case Internal => INTERNAL_ERROR
    case Ready => Resource(stat(RealFile(Text(r.0, r.0.url).GetOr(""))))
  }

  lemma NoRequest(r: (Parser, Outcome), stat: string -> FileStat)
    requires !r.1.Stray?
    ensures CodeOf(r, stat) == NO_REQUEST <==> r.1.Pending?
  {
  }

  class RequestReader {
    const m_read_buf: array<char>
    var m_read_idx: nat
    var m_checked_idx: nat
    var m_start_line: nat
    var m_check_state: CheckState
    var m_url: Option<nat>
    var m_version: Option<nat>
    var m_host: Option<nat>
    var m_conten_length: int
    var m_linger: bool
    var m_real_file: string

    ghost predicate Valid()
      reads this, m_read_buf
    {
      Framed() && Inv(Abs())
    }

    /** The cursors lie in the buffer and what is not filled is still zero. */
    ghost predicate Framed()
      reads this, m_read_buf
    {
      && m_read_buf.Length == READ_BUFFER_SIZE
      && m_read_idx <= READ_BUFFER_SIZE
      && (forall k :: m_read_idx <= k < READ_BUFFER_SIZE ==> m_read_buf[k] == NUL)
      && Wf(Abs())
    }

    /** The machine state this object stands for. */
    ghost function Abs(): Parser
      reads this, m_read_buf
      requires m_read_idx <= m_read_buf.Length
    {
      Parser(m_read_buf[..m_read_idx], m_checked_idx, m_start_line, m_check_state,
             m_url, m_version, m_host, m_conten_length, m_linger)
    }

    constructor ()
      ensures Valid() && fresh(m_read_buf) && Abs() == Init
    {
      m_read_buf := new char[READ_BUFFER_SIZE](_ => NUL);
      m_read_idx, m_checked_idx, m_start_line := 0, 0, 0;
      m_check_state, m_url, m_version, m_host := RequestLine, None, None, None;
      m_conten_length, m_linger := 0, true;
      m_real_file := "";
    }

    /** init(), the part that concerns reading. */
    method Reset()
      requires Valid()
      modifies this, m_read_buf
      ensures Valid() && Abs() == Init
    {
      m_check_state, m_linger := RequestLine, true;
      m_url, m_version, m_conten_length, m_host := None, None, 0, None;
      m_start_line, m_checked_idx, m_read_idx := 0, 0, 0;
      m_real_file := "";
      forall k | 0 <= k < m_read_buf.Length {
        m_read_buf[k] := NUL;
      }
    }

    /**
     read(): recv until there is nothing more. Once the buffer is full, recv asks for zero bytes: it gets none
     while bytes are waiting, which reads as a closed connection, and else the next of the answers.
     */
    method Read(answers: seq<RecvResult>) returns (ok: bool)
      requires Valid() && forall a :: a in answers && a.Bytes? ==> a.bytes != []
      modifies this`m_read_idx, m_read_buf
      ensures Valid()
      ensures ok <==> ReadOk(old(m_read_idx), answers)
      ensures ReadBy(old(m_read_idx), answers, ok, Received(answers))
      ensures ok ==> Abs() == Feed(old(Abs()), Received(answers))
    {
      ReadExactly(m_read_idx, answers);
      if m_read_idx >= READ_BUFFER_SIZE {
        return false;
      }
      var i := 0;
      ghost var p, done: seq<char> := Abs(), [];
      assert Feed(p, []) == p;
      while true
        invariant 0 <= i <= |answers| && Valid() && Abs() == Feed(p, done) && m_read_idx == |p.data| + |done|
        invariant Got(answers, i, done)
        decreases |answers| - i
      {
        if i == |answers| || !answers[i].Bytes? {
          AllGot(answers, i, done);
          return i == |answers| || answers[i].WouldBlock?;
        }
        GetMore(answers, i, done);
        var fits := Fetch(answers[i].bytes);
        if !fits {
          return false;
        }
        FeedMore(p, done, answers[i].bytes);
        done := done + answers[i].bytes;
        i := i + 1;
      }
    }

    /** One recv while these bytes are waiting, and the next one if there is no room for them all. */
    method Fetch(bytes: seq<char>) returns (fits: bool)
      requires Valid()
      modifies this`m_read_idx, m_read_buf
      ensures Valid() && (fits <==> old(m_read_idx) + |bytes| <= READ_BUFFER_SIZE)
      ensures fits ==> Abs() == Feed(old(Abs()), bytes)
    {
      var space := READ_BUFFER_SIZE - m_read_idx;
      var n := if |bytes| < space then |bytes| else space;
      Receive(bytes[..n]);
      assert n == |bytes| ==> bytes[..n] == bytes;
      return n == |bytes|;
    }

    /** The bytes recv has put behind the filled part. */
    method Receive(bytes: seq<char>)
      requires Valid() && m_read_idx + |bytes| <= READ_BUFFER_SIZE
      modifies this`m_read_idx, m_read_buf
      ensures Valid() && Abs() == Feed(old(Abs()), bytes)
    {
      forall k | 0 <= k < |bytes| {
        m_read_buf[m_read_idx + k] := bytes[k];
      }
      m_read_idx := m_read_idx + |bytes|;
      assert Abs() == Feed(old(Abs()), bytes);
      FeedKeeps(old(Abs()), bytes);
    }
  
    /** The two bytes of a line end become NULs. */
    method CutBreak(at: nat)
      requires at + 1 < m_read_idx <= m_read_buf.Length
      modifies m_read_buf
      ensures m_read_buf[..m_read_idx] == old(m_read_buf[..m_read_idx])[at := NUL][at + 1 := NUL]
      ensures forall k :: m_read_idx <= k < m_read_buf.Length ==> m_read_buf[k] == old(m_read_buf[k])
    {
      m_read_buf[at] := NUL;
      m_read_buf[at + 1] := NUL;
    }

    /** parse_line(): the part of the loop for a CR or LF. */
    method AtBreak() returns (status: LineStatus)
      requires m_read_idx <= m_read_buf.Length && m_checked_idx < m_read_idx && Is(m_read_buf[m_checked_idx], Break)
      modifies this`m_checked_idx, m_read_buf
      ensures m_read_idx == old(m_read_idx) && (Abs(), status) == StopAt(old(Abs()), old(m_checked_idx))
      ensures forall k :: m_read_idx <= k < m_read_buf.Length ==> m_read_buf[k] == old(m_read_buf[k])
    {
      var temp := m_read_buf[m_checked_idx];
      if temp == CR {
        if m_checked_idx + 1 == m_read_idx {
          return LineOpen;
        } else if m_read_buf[m_checked_idx + 1] == LF {
          CutBreak(m_checked_idx);
          m_checked_idx := m_checked_idx + 2;
          return LineOk;
        }
        return LineBad;
      } else {
        if m_checked_idx > 1 && m_read_buf[m_checked_idx - 1] == CR {
          CutBreak(m_checked_idx - 1);
          m_checked_idx := m_checked_idx + 1;
          return LineOk;
        }
        return LineBad;
      }
    }

    /** parse_line(). */
    method ParseLine() returns (status: LineStatus)
      requires Framed()
      modifies this`m_checked_idx, m_read_buf
      ensures m_read_idx == old(m_read_idx) && (Abs(), status) == ScanLine(old(Abs()))
      ensures forall k :: m_read_idx <= k < m_read_buf.Length ==> m_read_buf[k] == NUL
    {
      ghost var p := Abs();
      while m_checked_idx < m_read_idx
        invariant p.checked <= m_checked_idx <= m_read_idx && Abs() == p.(checked := m_checked_idx)
        invariant m_read_buf[..] == old(m_read_buf[..])
        invariant forall k :: p.checked <= k < m_checked_idx ==> !Is(p.data[k], Break)
      {
        var temp := m_read_buf[m_checked_idx];
        if temp == CR || temp == LF {
          FirstInIs(p.data, p.checked, Break, m_checked_idx);
          StopIgnoresChecked(p, m_checked_idx, m_checked_idx);
          status := AtBreak();
          return;
        }
        m_checked_idx := m_checked_idx + 1;
      }
      FirstInIs(p.data, p.checked, Break, m_checked_idx);
      return LineOpen;
    }

    /** parse_request_line(); false is BAD_REQUEST. Its parts are the methods below. */
    method ParseRequestLine(text: nat, ghost p: Parser, ghost s: string) returns (ok: bool)
      requires Framed() && p == Abs() && text <= m_read_idx && s == Str(p.data, text) && text + |s| < m_read_idx
      modifies this`m_url, this`m_version, this`m_check_state, m_read_buf
      ensures forall k :: m_read_idx <= k < m_read_buf.Length ==> m_read_buf[k] == NUL
      ensures (Abs(), ok) == ApplyLine(p, text, ShapeOf(s))
    {
      ghost var c := m_read_buf[..];
      ghost var i;
      WholeLine(c, m_read_idx, text);
      ok, i := CutVerb(text, s);
      if i < |s| {
        CutLine(c, m_read_idx, text, s, 0, i);
        assert forall k :: m_read_idx <= k < m_read_buf.Length ==> m_read_buf[k] == m_read_buf[..][k] == c[k];
      }
      if !ok {
        VerbLine(p, text, s, i, Abs());
        return;
      }
      ok := ParseAfterVerb(text, p, s, i);
    }

    /** parse_request_line() after the comparison with GET. */
    method ParseAfterVerb(text: nat, ghost p: Parser, ghost s: string, ghost i: nat) returns (ok: bool)
      requires |p.data| == m_read_idx <= m_read_buf.Length && text + |s| < m_read_idx
      requires i == FirstIn(s, 0, Blank) && i < |s| && EqFold(s[..i], "GET")
      requires LineAt(m_read_buf[..], text, s, i + 1, |s|)
               && Abs() == p.(data := p.data[text + i := NUL], url := Some(text + i + 1))
      modifies this`m_url, this`m_version, this`m_check_state, m_read_buf
      ensures forall k :: m_read_idx <= k < m_read_buf.Length ==> m_read_buf[k] == old(m_read_buf[k])
      ensures (Abs(), ok) == ApplyLine(p, text, ShapeOf(s))
    {
      ghost var c := m_read_buf[..];
      ghost var u, j;
      ok, u, j := CutTarget(text, s, i);
      if !ok {
        NoVersionLine(p, text, s, i, u, Abs());
        return;
      }
      CutLine(c, m_read_idx, text, s, u, j);
      ok := ParseBehindCuts(text, p, s, i, u, j);
      ShapeIs(s, i, u, j);
    }

    /** parse_request_line() after both cuts. */
    method ParseBehindCuts(text: nat, ghost p: Parser, ghost s: string, ghost i: nat, ghost u: nat,
          ghost j: nat) returns (ok: bool)
      requires |p.data| == m_read_idx <= m_read_buf.Length && text + |s| < m_read_idx && i < u < j < |s|
      requires Abs() == p.(data := p.data[text + i := NUL][text + j := NUL], url := Some(text + u),
               version := Some(text + j + 1))
      requires LineAt(m_read_buf[..], text, s, u, j) && LineAt(m_read_buf[..], text, s, j + 1, |s|)
      modifies this`m_url, this`m_version, this`m_check_state
      ensures (Abs(), ok) == ApplyLine(p, text, Judge(s, i, u, j, FirstNotIn(s, j + 1, Blank)))
    {
      ghost var v, shape;
      ok, v, shape := ParseTarget(text, s, i, u, j);
      FinishLine(p, text, shape, Abs(), ok);
    }

    /** The last part of parse_request_line(), from the pointer behind the second cut. */
    method ParseTarget(text: nat, ghost s: string, ghost i: nat, ghost u: nat, ghost j: nat)
      returns (ok: bool, ghost v: nat, ghost shape: LineShape)
      requires i < u < j < |s| && m_url == Some(text + u) && m_version == Some(text + j + 1)
      requires LineAt(m_read_buf[..], text, s, u, j) && LineAt(m_read_buf[..], text, s, j + 1, |s|)
      modifies this`m_url, this`m_version, this`m_check_state
      ensures v == FirstNotIn(s, j + 1, Blank) && shape == Judge(s, i, u, j, v)
      ensures ok == shape.ok && m_url == (if shape.url.Some? then Some(text + shape.url.value) else None)
      ensures m_version == Some(text + v) && m_check_state == if ok then Header else old(m_check_state)
    {
      v := FirstNotIn(s, j + 1, Blank);
      shape := Judge(s, i, u, j, v);
      ok := CheckVersion(text, s, j + 1, v);
      if ok {
        ok := CheckUrl(text, s, u, j);
      }
      if ok {
        m_check_state := Header;
      }
    }

    /** `*p = '\0'` for a pointer into the buffer. */
    method Cut(at: nat)
      requires at < m_read_buf.Length
      modifies m_read_buf
      ensures m_read_buf[..] == old(m_read_buf[..])[at := NUL]
    {
      m_read_buf[at] := NUL;
    }

    method CutVerb(text: nat, ghost s: string) returns (ok: bool, ghost i: nat)
      requires LineAt(m_read_buf[..], text, s, 0, |s|)
      modifies this`m_url, m_read_buf
      ensures i == FirstIn(s, 0, Blank)
      ensures i == |s| ==> !ok && m_url == None && m_read_buf[..] == old(m_read_buf[..])
      ensures i < |s| ==> (ok <==> EqFold(s[..i], "GET")) && m_url == Some(text + i + 1)
                          && m_read_buf[..] == old(m_read_buf[..])[text + i := NUL]
    {
      FindFrom(m_read_buf[..], text, s, 0, Blank);
      i := FirstIn(s, 0, Blank);
      m_url := StrPBrk(m_read_buf[..], text, Blank);
      if m_url == None {
        return false, i;
      }
      Cut(m_url.value);
      var b := m_read_buf[..];
      LineStr(b, text, s, 0, i);
      m_url := Some(m_url.value + 1);
      return EqFold(Str(b, text), "GET"), i;
    }

    method CutTarget(text: nat, ghost s: string, ghost i: nat) returns (ok: bool, ghost u: nat, ghost j: nat)
      requires i < |s| && m_url == Some(text + i + 1) && LineAt(m_read_buf[..], text, s, i + 1, |s|)
      modifies this`m_url, this`m_version, m_read_buf
      ensures u == FirstNotIn(s, i + 1, Blank) && j == FirstIn(s, u, Blank) && m_url == Some(text + u)
      ensures j == |s| ==> !ok && m_version == None && m_read_buf[..] == old(m_read_buf[..])
      ensures j < |s| ==>
                ok && u < j && m_version == Some(text + j + 1) && m_read_buf[..] == old(m_read_buf[..])[text + j := NUL]
    {
      FindFrom(m_read_buf[..], text, s, i + 1, Blank);
      u := FirstNotIn(s, i + 1, Blank);
      FindFrom(m_read_buf[..], text, s, u, Blank);
      j := FirstIn(s, u, Blank);
      m_url := Some(m_url.value + StrSpn(m_read_buf[..], m_url.value, Blank));
      m_version := StrPBrk(m_read_buf[..], m_url.value, Blank);
      if m_version == None {
        return false, u, j;
      }
      Cut(m_version.value);
      m_version := Some(m_version.value + 1);
      return true, u, j;
    }

    method CheckVersion(text: nat, ghost s: string, ghost m: nat, ghost v: nat) returns (ok: bool)
      requires m_version == Some(text + m) && LineAt(m_read_buf[..], text, s, m, |s|) && v == FirstNotIn(s, m, Blank)
      modifies this`m_version
      ensures m_version == Some(text + v) && (ok <==> EqFold(s[v..], "HTTP/1.1"))
    {
      FindFrom(m_read_buf[..], text, s, m, Blank);
      m_version := Some(m_version.value + StrSpn(m_read_buf[..], m_version.value, Blank));
      LineStr(m_read_buf[..], text, s, v, |s|);
      assert s[v..|s|] == s[v..];
      return EqFold(Str(m_read_buf[..], m_version.value), "HTTP/1.1");
    }

    method CheckUrl(text: nat, ghost s: string, ghost u: nat, ghost j: nat) returns (ok: bool)
      requires u < j && m_url == Some(text + u) && LineAt(m_read_buf[..], text, s, u, j)
      modifies this`m_url
      ensures var k := Slash(s[u..j]);
              && m_url == (if k.Some? then Some(text + u + k.value) else None)
              && (ok <==> k.Some? && u + k.value < j && s[u + k.value] == '/')
    {
      FindSlash(m_read_buf[..], text, s, u, j);
      if HasPrefixFold(Str(m_read_buf[..], m_url.value), "http://") {
        m_url := Some(m_url.value + 7);
        m_url := StrPBrk(m_read_buf[..], m_url.value, Slashes);
      }
      return m_url != None && m_read_buf[m_url.value] == '/';
    }

    /** parse_headers(); true is GET_REQUEST. */
    method ParseHeaders(text: nat, ghost s: string) returns (done: bool)
      requires LineAt(m_read_buf[..], text, s, 0, |s|) && m_read_idx <= m_read_buf.Length
      modifies this`m_check_state, this`m_linger, this`m_conten_length, this`m_host
      ensures (Abs(), done) == ApplyHeader(old(Abs()), text, EffectOf(s))
    {
      LineStr(m_read_buf[..], text, s, 0, |s|);
      var line := Str(m_read_buf[..], text);
      assert line == s;
      if m_read_buf[text] == NUL {
        done := EndHeaders(text);
      } else {
        ParseField(m_read_buf[..], text, s, line, EffectOf(s));
        done := false;
      }
    }

    /** parse_headers() on an empty line. */
    method EndHeaders(ghost text: nat) returns (done: bool)
      requires m_read_idx <= m_read_buf.Length
      modifies this`m_check_state
      ensures (Abs(), done) == ApplyHeader(old(Abs()), text, EndOfHeaders)
    {
      if m_conten_length != 0 {
        m_check_state := Content;
        return false;
      }
      return true;
    }

    /** parse_headers() on a header field. */
    method ParseField(b: seq<char>, text: nat, ghost s: string, line: string, ghost effect: HeaderEffect)
      requires LineAt(b, text, s, 0, |s|) && line == s != "" && effect == EffectOf(s) && m_read_idx <= m_read_buf.Length
      modifies this`m_linger, this`m_conten_length, this`m_host
      ensures (Abs(), false) == ApplyHeader(old(Abs()), text, effect)
    {
      if HasPrefixFold(line, "Proxy-Connection:") {
        var p, value := HeaderValue(b, text, s, 17);
        if !EqFold(value, "keep-alive") {
          m_linger := false;
        }
      } else if HasPrefixFold(line, "Content-Length:") {
        var p, value := HeaderValue(b, text, s, 15);
        m_conten_length := AtoI(value);
      } else if HasPrefixFold(line, "Host:") {
        var p, value := HeaderValue(b, text, s, 5);
        m_host := Some(p);
      }
    }

    /** The pointer behind a header name and the blanks after it, with the string there. */
    static method HeaderValue(b: seq<char>, text: nat, ghost s: string, name: nat) returns (p: nat, value: string)
      requires name <= |s| && LineAt(b, text, s, 0, |s|)
      ensures p == text + FirstNotIn(s, name, Blank) && value == s[FirstNotIn(s, name, Blank)..]
    {
      FindFrom(b, text, s, name, Blank);
      p := text + name + StrSpn(b, text + name, Blank);
      LineStr(b, text, s, FirstNotIn(s, name, Blank), |s|);
      value := Str(b, p);
    }

    /** parse_content(); Internal is the incomplete body. Where C leaves the outcome open, so does the model. */
    method ParseContent(text: nat) returns (outcome: Outcome)
      requires m_read_idx <= m_read_buf.Length && forall k :: m_read_idx <= k < m_read_buf.Length ==> m_read_buf[k] == NUL
      requires text == m_checked_idx
      modifies m_read_buf
      ensures outcome == if !EndInRange(old(Abs())) then Stray else if BodyComplete(old(Abs())) then Outcome.Ready else Internal
      ensures forall k :: m_read_idx <= k < m_read_buf.Length ==> m_read_buf[k] == NUL
      ensures var w := text + m_conten_length;
              m_read_buf[..m_read_idx]
              == if outcome.Ready? && w < m_read_idx then old(m_read_buf[..m_read_idx])[w := NUL]
                 else old(m_read_buf[..m_read_idx])
    {
      var end := m_conten_length + m_checked_idx;
      if end >= 0x8000_0000 {
        return Stray; // an overflow of int
      }
      if m_read_idx >= end {
        var w := text + m_conten_length;
        if w < 0 {
          return Stray; // a write before the buffer
        }
        if w < m_read_buf.Length {
          m_read_buf[w] := NUL;
        }
        return Outcome.Ready;
      }
      return Internal;
    }

    /** do_request() up to mmap; `stat` is the file system. */
    method DoRequest(stat: string -> FileStat) returns (code: HttpCode)
      requires Valid() && m_url.Some?
      modifies this`m_real_file
      ensures Names(m_real_file, Str(Abs().data, m_url.value)) && Judged(stat(m_real_file), code)
      ensures code == Resource(stat(RealFile(Str(Abs().data, m_url.value))))
    {
      var url := Str(m_read_buf[..], m_url.value);
      assert url == Str(Abs().data, m_url.value) by {
        StrStable(Abs().data, m_read_buf[..], m_url.value, m_start_line);
      }
      var room := FILENAME_LEN - |DOC_ROOT| - 1;
      m_real_file := DOC_ROOT + if |url| <= room then url else url[..room];
      var file := stat(m_real_file);
      if file.Missing? {
        return NO_RESOURCE;
      }
      if !file.othersMayRead {
        return FORBIDDEN_REQUEST;
      }
      if file.isDirectory {
        return BAD_REQUEST;
      }
      return FILE_REQUEST;
    }

    /** One turn of the loop of process_read(): fetch a line unless a body is due, then the switch. */
    method ProcessTurn() returns (outcome: Option<Outcome>)
      requires Valid()
      modifies this, m_read_buf
      ensures m_read_idx == old(m_read_idx) && Valid() && (Abs(), outcome) == Turn(old(Abs()))
      ensures outcome == Some(Outcome.Ready) ==> m_url.Some?
    {
      TurnInv(Abs());
      if m_check_state == Content {
        var result := ProcessContent();
        outcome := Some(result);
      } else {
        outcome := NextLine();
      }
    }

    /** A turn outside the content state. */
    method NextLine() returns (outcome: Option<Outcome>)
      requires Framed() && m_check_state != Content
      modifies this, m_read_buf
      ensures m_read_idx == old(m_read_idx) && Framed() && (Abs(), outcome) == Turn(old(Abs()))
    {
      var line_status := ParseLine();
      if line_status != LineOk {
        return Some(Pending);
      }
      ghost var q := Abs();
      LineText(q.data, [], q.start, q.checked);
      var inRequestLine := m_check_state == RequestLine;
      var flag := ProcessLine(q, Str(q.data, q.start));
      outcome := if inRequestLine && !flag then Some(Bad) else if !inRequestLine && flag then Some(Outcome.Ready) else None;
    }

    /** The content case of the switch of process_read(). */
    method ProcessContent() returns (outcome: Outcome)
      requires Framed() && m_check_state == Content
      modifies this`m_start_line, m_read_buf
      ensures Framed() && (Abs(), outcome) == ContentStep(old(Abs()))
    {
      var text := m_start_line;
      m_start_line := m_checked_idx;
      outcome := ParseContent(text);
    }

    /** The switch of process_read() for a request line or a header line. */
    method ProcessLine(ghost q: Parser, ghost s: string) returns (flag: bool)
      requires Framed() && Abs() == q && !q.state.Content? && s == Str(q.data, q.start) && q.start + |s| < q.checked
      modifies this, m_read_buf
      ensures m_read_idx == old(m_read_idx) && Framed() && (Abs(), flag) == RunText(q, s)
    {
      var text := m_start_line;
      WholeLine(m_read_buf[..], m_read_idx, text);
      m_start_line := m_checked_idx;
      if m_check_state == RequestLine {
        flag := ParseRequestLine(text, Abs(), s);
      } else {
        flag := ParseHeaders(text, s);
      }
    }

    /** The returns in the switch of process_read(). */
    method Conclude(outcome: Outcome, stat: string -> FileStat) returns (defined: bool, code: HttpCode)
      requires Valid() && (outcome == Outcome.Ready ==> m_url.Some?)
      modifies this`m_real_file
      ensures Valid() && Abs() == old(Abs()) && (defined <==> outcome != Stray)
      ensures defined ==> code == CodeOf((Abs(), outcome), stat)
    {
      match outcome
      case Pending => return true, NO_REQUEST;
      case Bad => return true, BAD_REQUEST;
      case Internal => return true, INTERNAL_ERROR;
      case Stray => return false, NO_REQUEST;
      case Ready =>
        code := DoRequest(stat);
        return true, code;
    }

    /** process_read(), if what it does is defined. */
    method ProcessRead(stat: string -> FileStat) returns (defined: bool, code: HttpCode)
      requires Valid()
      modifies this, m_read_buf
      ensures Valid() && Abs() == Run(old(Abs())).0 && (defined <==> !Run(old(Abs())).1.Stray?)
      ensures defined ==> code == CodeOf(Run(old(Abs())), stat) && Answers(Run(old(Abs())), stat, code)
    {
      ghost var run := Run(Abs());
      while true
        invariant Valid() && m_read_idx == old(m_read_idx) && Run(Abs()) == run
        decreases m_read_idx - m_checked_idx
      {
        var outcome := ProcessTurn();
        if outcome != None {
          assert (Abs(), outcome.value) == run;
          CodeAnswers(run, stat);
          defined, code := Conclude(outcome.value, stat);
          return;
        }
      }
    }
  }

  lemma FinishLine(p: Parser, at: nat, shape: LineShape, r: Parser, ok: bool)
    requires shape.Complete? && at <= |p.data| && Fits(shape, |p.data| - at) && ok == shape.ok
    requires r == p.(data := p.data[at + shape.methodEnd := NUL][at + shape.targetEnd := NUL],
                     url := r.url, version := Some(at + shape.version), state := if ok then Header else p.state)
    requires r.url == if shape.url.Some? then Some(at + shape.url.value) else None
    ensures (r, ok) == ApplyLine(p, at, shape)
  {
  }

  lemma VerbLine(p: Parser, at: nat, s: string, i: nat, r: Parser)
    requires i == FirstIn(s, 0, Blank) && (i < |s| ==> !EqFold(s[..i], "GET")) && at + |s| < |p.data|
    requires r == if i == |s| then p.(url := None) else p.(data := p.data[at + i := NUL], url := Some(at + i + 1))
    ensures (r, false) == ApplyLine(p, at, ShapeOf(s))
  {
  }

  lemma NoVersionLine(p: Parser, at: nat, s: string, i: nat, u: nat, r: Parser)
    requires i == FirstIn(s, 0, Blank) && i < |s| && EqFold(s[..i], "GET") && u == FirstNotIn(s, i + 1, Blank)
             && FirstIn(s, u, Blank) == |s|
    requires at + |s| < |p.data| && r == p.(data := p.data[at + i := NUL], url := Some(at + u), version := None)
    ensures (r, false) == ApplyLine(p, at, ShapeOf(s))
  {
    assert ShapeOf(s) == NoVersion(i, u);
  }

  lemma ShapeIs(s: string, i: nat, u: nat, j: nat)
    requires i == FirstIn(s, 0, Blank) && i < |s| && EqFold(s[..i], "GET")
    requires u == FirstNotIn(s, i + 1, Blank) && j == FirstIn(s, u, Blank) && u < j < |s|
    ensures ShapeOf(s) == Judge(s, i, u, j, FirstNotIn(s, j + 1, Blank))
  {
  }

  lemma WholeLine(c: seq<char>, n: nat, at: nat)
    requires at <= n <= |c| && at + |Str(c[..n], at)| < n
    ensures LineAt(c, at, Str(c[..n], at), 0, |Str(c[..n], at)|)
  {
  }

  /** Cutting a line at `i` leaves the part before and the part behind, and only touches what is filled. */
  lemma CutLine(c: seq<char>, n: nat, at: nat, s: string, m: nat, i: nat)
    requires m <= i < |s| && LineAt(c, at, s, m, |s|) && at + |s| < n <= |c|
    ensures var d := c[at + i := NUL];
            && LineAt(d, at, s, m, i) && LineAt(d, at, s, i + 1, |s|) && d[..n] == c[..n][at + i := NUL]
            && forall k :: n <= k < |c| ==> d[k] == c[k]
  {
  }

  /** The search for the path from a pointer to the target. */
  lemma FindSlash(b: seq<char>, at: nat, s: string, u: nat, j: nat)
    requires u < j && LineAt(b, at, s, u, j)
    ensures var target := s[u..j];
            Str(b, at + u) == target
            && (HasPrefixFold(target, "http://") ==>
                  at + u + 7 <= |b|
                  && StrPBrk(b, at + u + 7, Slashes)
                     == if Slash(target).Some? then Some(at + u + Slash(target).value) else None)
  {
    var target := s[u..j];
    LineStr(b, at, s, u, j);
    if HasPrefixFold(target, "http://") {
      FindFrom(b, at + u, target, 7, Slashes);
    }
  }
}
