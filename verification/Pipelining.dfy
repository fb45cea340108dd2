/**
 Two requests in one stream: init(), after the response to the first, empties the read buffer, and with it all that has
 been read of the second.
 */
module Pipelining {
  import opened Base
  import opened CStrings
  import opened RequestParser
  import opened RequestGrammar
  import opened ParserChunking
  import opened ParserLines
  import opened ParserReads
  import opened ParserAnswers
  import opened HttpClient

  // ----- what is left of a request when its start is lost

  /** Neither the line nor a part at its end is an acceptable request line. */
  ghost predicate Harmless(line: string) {
    forall k :: 0 <= k <= |line| ==> !Derivable(line[k..])
  }

  /** For example, since it does not end like one. */
  lemma HarmlessEnd(line: string)
    requires line != "" ==> line[|line| - 1] != '1'
    ensures Harmless(line)
  {
    forall k | 0 <= k <= |line|
      ensures !Derivable(line[k..])
    {
      if Derivable(line[k..]) {
        DerivableEnds(line[k..]);
      }
    }
  }

  /** Where a derivable line has blanks. */
  lemma BlanksOf(d: Derivation)
    requires Valid(d)
    ensures var s, j := d.Line(), d.TargetEnd();
            && 3 < j < |s| && Is(s[3], Blank) && Is(s[j], Blank) && forall k :: 0 <= k < 3 ==> !Is(s[k], Blank)
  {
    Slices(d);
    EqFoldNotBlank(d.verb, "GET");
    var s := d.Line();
    assert s[3] == d.gap1[0] && s[d.TargetEnd()] == d.gap2[0];
    assert forall k :: 0 <= k < 3 ==> s[k] == d.verb[k];
  }

  /** A printed request line has two blanks. */
  lemma BlanksPrinted(url: string)
    requires UrlOk(url)
    ensures var s := RequestLineText(url);
            |s| == 13 + |url| && forall k :: 0 <= k < |s| ==> (Is(s[k], Blank) <==> k == 3 || k == 4 + |url|)
  {
    var s := RequestLineText(url);
    assert forall k :: 4 <= k < 4 + |url| ==> s[k] == url[k - 4];
    assert forall k :: 4 + |url| <= k < |s| ==> s[k] == " HTTP/1.1"[k - 4 - |url|];
    assert forall k :: 0 <= k < 4 ==> s[k] == "GET "[k];
  }

  /** With its start cut off, its two blanks are not where those of a derivable line are. */
  lemma BlanksMoved(url: string, k: nat, j: nat)
    requires UrlOk(url) && 0 < k <= |RequestLineText(url)| && 3 < j < |RequestLineText(url)[k..]|
    ensures var t := RequestLineText(url)[k..]; !(Is(t[3], Blank) && Is(t[j], Blank))
  {
    BlanksPrinted(url);
    var s := RequestLineText(url);
    assert s[k..][3] == s[k + 3] && s[k..][j] == s[k + j];
  }

  lemma UrlLineCut(url: string, k: nat)
    requires UrlOk(url) && 0 < k <= |RequestLineText(url)|
    ensures !Derivable(RequestLineText(url)[k..])
  {
    var t := RequestLineText(url)[k..];
    if Derivable(t) {
      var d :| Valid(d) && d.Line() == t;
      BlanksOf(d);
      BlanksMoved(url, k, d.TargetEnd());
    }
  }

  lemma NoEmptyWire(lines: seq<string>, x: seq<char>, more: seq<char>, j: nat)
    requires j <= |Concat(Wire(lines))| && Concat(Wire(lines))[j..] == x + CRLF + more
    ensures lines != []
  {
  }

  lemma NotLf(x: seq<char>, more: seq<char>)
    requires Free(x, Break)
    ensures (x + CRLF + more)[0] != LF
  {
    assert x != [] ==> (x + CRLF + more)[0] == x[0];
  }

  /** The first line behind any place in a printed request is a part at the end of one of its lines. */
  lemma {:induction false} FirstLineBehind(lines: seq<string>, j: nat, x: seq<char>, more: seq<char>) returns (i: nat, k: nat)
    requires (forall n :: 0 <= n < |lines| ==> LineChars(lines[n])) && j <= |Concat(Wire(lines))|
    requires Concat(Wire(lines))[j..] == x + CRLF + more && Free(x, Break)
    ensures i < |lines| && k <= |lines[i]| && x == lines[i][k..] && (j > 0 ==> i > 0 || k > 0)
    decreases |lines|
  {
    var w := Concat(Wire(lines));
    NoEmptyWire(lines, x, more, j);
    var line, rest := lines[0], Concat(Wire(lines[1..]));
    assert lines == [line] + lines[1..];
    WireCons(line, lines[1..]);
    NotLf(x, more);
    assert w[|line| + 1] == LF && (j < |w| ==> w[j..][0] == w[j]);
    if j <= |line| {
      i, k := 0, j;
      assert w[j..] == line[j..] + CRLF + rest;
      SameLine(line[j..], rest, x, more);
    } else if j == |line| + 1 {
      assert false;
    } else {
      assert w[j..] == rest[j - |line| - 2..];
      var n;
      n, k := FirstLineBehind(lines[1..], j - |line| - 2, x, more);
      i := n + 1;
    }
  }

  lemma SameLine(a: seq<char>, b: seq<char>, x: seq<char>, y: seq<char>)
    requires Free(a, Break) && Free(x, Break) && a + CRLF + b == x + CRLF + y
    ensures a == x
  {
    var s := a + CRLF + b;
    assert forall k :: 0 <= k < |a| ==> s[k] == a[k];
    assert forall k :: 0 <= k < |x| ==> s[k] == (x + CRLF + y)[k] == x[k];
    assert s[|a|] == CR && (x + CRLF + y)[|x|] == CR;
    assert |a| == |x|;
  }

  // ----- the second request

  /** The lines of the request, from Host on, hold nothing that could start another one. */
  ghost predicate Plain(host: HostLine, fields: seq<string>) {
    Harmless(host.Line()) && forall i :: 0 <= i < |fields| ==> Harmless(fields[i])
  }

  lemma LinesHarmless(url: string, host: HostLine, fields: seq<string>, i: nat, k: nat)
    requires UrlOk(url) && Plain(host, fields) && i < |Lines(url, host, fields)| && k <= |Lines(url, host, fields)[i]|
    requires i > 0 || k > 0
    ensures !Derivable(Lines(url, host, fields)[i][k..])
  {
    var lines := Lines(url, host, fields);
    if i == 0 {
      UrlLineCut(url, k);
    } else if i == |lines| - 1 {
      assert lines[i] == "";
      HarmlessEnd("");
    } else {
      assert i >= 2 ==> lines[i] == fields[i - 2];
    }
  }

  lemma LinesChars(url: string, host: HostLine, fields: seq<string>)
    requires UrlOk(url) && HostOk(host) && forall i :: 0 <= i < |fields| ==> Field(fields[i])
    ensures forall n :: 0 <= n < |Lines(url, host, fields)| ==> LineChars(Lines(url, host, fields)[n])
  {
    RequestLineChars(url);
    HostChars(host);
  }

  lemma FreshLine()
    ensures InLine(Init) && !AtCr(Init) && Init.state.RequestLine?
    ensures forall x | NoNul(x) :: LineWith(Init, x) == x
  {
    InitSettled();
    forall x | NoNul(x)
      ensures LineWith(Init, x) == x
    {
      LineShown(Init, x);
    }
  }

  /** The first line of what is left, if it has come with its end, is no request line. */
  lemma RestStarts(url: string, host: HostLine, fields: seq<string>, j: nat, x: seq<char>, more: seq<char>)
    requires UrlOk(url) && HostOk(host) && (forall i :: 0 <= i < |fields| ==> Field(fields[i])) && Plain(host, fields)
    requires 0 < j <= |Print(url, host, fields)| && Print(url, host, fields)[j..] == x + CRLF + more && Free(x, Break)
    ensures NoNul(x) && !Derivable(x)
  {
    LinesChars(url, host, fields);
    var i, k := FirstLineBehind(Lines(url, host, fields), j, x, more);
    LinesHarmless(url, host, fields, i, k);
  }

  /** A reply takes a request line to start with. */
  lemma ReplyStarts(e: seq<char>, run: (Parser, Outcome)) returns (x: seq<char>, rest: seq<char>)
    requires run == Run(Feed(Init, e)) && !NoReply(run.1)
    ensures e == x + CRLF + rest && Free(x, Break) && (NoNul(x) ==> Derivable(x))
  {
    FreshLine();
    x, rest := DecisionTakes(Init, e);
  }

  lemma ReplyStartsWith(chunks: seq<seq<char>>, run: (Parser, Outcome)) returns (x: seq<char>, more: seq<char>)
    requires Arrivals(chunks) && Receive(Init, chunks) == Some(run) && !NoReply(run.1)
    ensures Concat(chunks) == x + CRLF + more && Free(x, Break) && (NoNul(x) ==> Derivable(x))
  {
    InitSettled();
    var e := InSomeBytes(Init, chunks);
    var rest;
    x, rest := ReplyStarts(e, run);
    more := Prefixed(e, Concat(chunks), x + CRLF, rest);
  }

  lemma Prefixed(e: seq<char>, t: seq<char>, a: seq<char>, rest: seq<char>) returns (more: seq<char>)
    requires e <= t && e == a + rest
    ensures t == a + more
  {
    more := t[|a|..];
  }

  /** Without its start, a printed request gets no reply. */
  lemma RestIsNotReplied(url: string, host: HostLine, fields: seq<string>, j: nat, chunks: seq<seq<char>>)
    requires UrlOk(url) && HostOk(host) && (forall i :: 0 <= i < |fields| ==> Field(fields[i])) && Plain(host, fields)
    requires 0 < j <= |Print(url, host, fields)| && Concat(chunks) == Print(url, host, fields)[j..] && Arrivals(chunks)
    ensures Receive(Init, chunks).None? || NoReply(Receive(Init, chunks).value.1)
  {
    if Receive(Init, chunks).Some? && !NoReply(Receive(Init, chunks).value.1) {
      var x, more := ReplyStartsWith(chunks, Receive(Init, chunks).value);
      RestStarts(url, host, fields, j, x, more);
    }
  }

  lemma Behind(chunks: seq<seq<char>>, i: nat)
    requires i <= |chunks| && Arrivals(chunks)
    ensures Upto(chunks, i) <= |Concat(chunks)| && Concat(chunks[i..]) == Concat(chunks)[Upto(chunks, i)..]
    ensures Arrivals(chunks[i..])
    decreases i
  {
    UptoGrows(chunks, i, i);
    if i > 0 {
      UptoNext(chunks, i);
      Behind(chunks[1..], i - 1);
      assert chunks[i..] == chunks[1..][i - 1..];
    } else {
      assert chunks[0..] == chunks;
    }
  }

  /** Some read ends just here. */
  ghost predicate ReadEndsAt(chunks: seq<seq<char>>, n: int) {
    exists i :: 0 <= i <= |chunks| && Upto(chunks, i) == n
  }

  /** What becomes of the second of two requests: `r` is what is made of the reads behind the one that answered the first. */
  predicate SecondServed(r: Option<(Parser, Outcome)>, cleanCut: bool, fits: bool, url: string, host: string, linger: bool) {
    if cleanCut then ServedOrClosed(r, fits, url, host, linger) else r.None? || NoReply(r.value.1)
  }

  /**
   Two printed requests without bodies, one behind the other, of which the first keeps the connection alive. If it is
   decided on, by the `i`th read, then it is served; and of the reads behind that one, which are all the second is made
   of, the second is served if one read has ended just between the two, and it fits the buffer; else it gets no reply.
   */
  lemma PipelinedExactly(
      url: string, host: HostLine, fields: seq<string>, url': string, host': HostLine, fields': seq<string>, chunks: seq<seq<char>>)
    returns (i: nat)
    requires UrlOk(url) && HostOk(host) && forall i :: 0 <= i < |fields| ==> Field(fields[i])
    requires UrlOk(url') && HostOk(host') && (forall i :: 0 <= i < |fields'| ==> Field(fields'[i])) && Plain(host', fields')
    requires Effects(DEFAULTS, fields) == DEFAULTS && Effects(DEFAULTS, fields').length == 0
    requires Concat(chunks) == Print(url, host, fields) + Print(url', host', fields') && Arrivals(chunks)
    requires Receive(Init, chunks).Some?
    ensures FirstToDecide(Init, chunks, i, Receive(Init, chunks).value)
    ensures Served(Receive(Init, chunks).value, url, host.value, true)
    ensures SecondServed(Receive(Init, chunks[i..]), ReadEndsAt(chunks, |Print(url, host, fields)|),
                         |Print(url', host', fields')| <= READ_BUFFER_SIZE, url', host'.value, Effects(DEFAULTS, fields').linger)
  {
    i := FirstAnswered(url, host, fields, Print(url', host', fields'), chunks);
    CleanCut(chunks, i, |Print(url, host, fields)|);
    var j := CutFrom(Print(url, host, fields), Print(url', host', fields'), chunks, i);
    SecondAnswered(url', host', fields', j, chunks[i..]);
  }

  lemma CutFrom(first: seq<char>, second: seq<char>, chunks: seq<seq<char>>, i: nat) returns (j: nat)
    requires Concat(chunks) == first + second && Arrivals(chunks) && i <= |chunks| && |first| <= Upto(chunks, i)
    ensures Arrivals(chunks[i..]) && j <= |second| && Concat(chunks[i..]) == second[j..]
    ensures j == 0 <==> Upto(chunks, i) == |first|
  {
    Behind(chunks, i);
    j := Upto(chunks, i) - |first|;
  }

  lemma SecondAnswered(url: string, host: HostLine, fields: seq<string>, j: nat, chunks: seq<seq<char>>)
    requires UrlOk(url) && HostOk(host) && (forall i :: 0 <= i < |fields| ==> Field(fields[i])) && Plain(host, fields)
    requires Effects(DEFAULTS, fields).length == 0
    requires j <= |Print(url, host, fields)| && Concat(chunks) == Print(url, host, fields)[j..] && Arrivals(chunks)
    ensures SecondServed(Receive(Init, chunks), j == 0, |Print(url, host, fields)| <= READ_BUFFER_SIZE,
                         url, host.value, Effects(DEFAULTS, fields).linger)
  {
    if j == 0 {
      assert Print(url, host, fields)[0..] == Print(url, host, fields);
      PrintedInChunks(url, host, fields, chunks);
    } else {
      RestIsNotReplied(url, host, fields, j, chunks);
    }
  }

  lemma CleanCut(chunks: seq<seq<char>>, i: nat, n: nat)
    requires i <= |chunks| && n <= Upto(chunks, i) && forall j :: 0 <= j < i ==> Upto(chunks, j) < n
    ensures ReadEndsAt(chunks, n) <==> Upto(chunks, i) == n
  {
    forall j | i <= j <= |chunks|
      ensures Upto(chunks, i) <= Upto(chunks, j)
    {
      UptoGrows(chunks, i, j);
    }
  }

  /** A printed request without a body is served whatever is behind it. */
  lemma ServedBefore(url: string, host: HostLine, fields: seq<string>, behind: seq<char>, run: (Parser, Outcome))
    requires UrlOk(url) && HostOk(host) && forall i :: 0 <= i < |fields| ==> Field(fields[i])
    requires Effects(DEFAULTS, fields).length == 0 && run == Run(Feed(Init, Print(url, host, fields) + behind))
    ensures Served(run, url, host.value, Effects(DEFAULTS, fields).linger) && run.0.checked == |Print(url, host, fields)|
  {
    PrintedIsAnswered(url, host, fields, behind);
  }

  lemma FirstAnswered(url: string, host: HostLine, fields: seq<string>, second: seq<char>, chunks: seq<seq<char>>)
    returns (i: nat)
    requires UrlOk(url) && HostOk(host) && forall i :: 0 <= i < |fields| ==> Field(fields[i])
    requires Effects(DEFAULTS, fields).length == 0
    requires Concat(chunks) == Print(url, host, fields) + second && Arrivals(chunks) && Receive(Init, chunks).Some?
    ensures FirstToDecide(Init, chunks, i, Receive(Init, chunks).value)
    ensures Served(Receive(Init, chunks).value, url, host.value, Effects(DEFAULTS, fields).linger)
    ensures |Print(url, host, fields)| <= Upto(chunks, i)
    ensures forall j :: 0 <= j < i ==> Upto(chunks, j) < |Print(url, host, fields)|
  {
    var head, whole := Print(url, host, fields), Run(Feed(Init, Print(url, host, fields) + second));
    ServedBefore(url, host, fields, second, whole);
    InitSettled();
    var k;
    i, k := HeadCut(Init, head, second, chunks, whole, Receive(Init, chunks).value);
    ServedBefore(url, host, fields, second[..k], Receive(Init, chunks).value);
  }

  lemma ClientPlain()
    ensures Plain(CLIENT_HOST, [CLIENT_AGENT, CLIENT_PROXY])
  {
    HarmlessEnd(CLIENT_HOST.Line());
    HarmlessEnd(CLIENT_AGENT);
    HarmlessEnd(CLIENT_PROXY);
  }

  /** The client's request, sent twice, is served twice if and only if some read ends between the two. */
  lemma ClientTwice(chunks: seq<seq<char>>) returns (i: nat)
    requires var s := Print(CLIENT_URL, CLIENT_HOST, [CLIENT_AGENT, CLIENT_PROXY]);
             Concat(chunks) == s + s && Arrivals(chunks)
    ensures var s := Print(CLIENT_URL, CLIENT_HOST, [CLIENT_AGENT, CLIENT_PROXY]);
            var r := Receive(Init, chunks);
            && r.Some? && FirstToDecide(Init, chunks, i, r.value) && Served(r.value, CLIENT_URL, CLIENT_HOST.value, true)
            && SecondServed(Receive(Init, chunks[i..]), ReadEndsAt(chunks, |s|), true, CLIENT_URL, CLIENT_HOST.value, true)
  {
    var fields := [CLIENT_AGENT, CLIENT_PROXY];
    ClientParts();
    ClientPlain();
    AgentIgnored();
    ProxyIgnored();
    IgnoredFields(DEFAULTS, fields);
    TwoFieldsLength(CLIENT_URL, CLIENT_HOST, CLIENT_AGENT, CLIENT_PROXY);
    InitSettled();
    ReceiveFits(Init, chunks);
    i := PipelinedExactly(CLIENT_URL, CLIENT_HOST, fields, CLIENT_URL, CLIENT_HOST, fields, chunks);
  }
}
