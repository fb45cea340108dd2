/** One line at a time: what a parser that has consumed everything makes of a whole line. */
module ParserLines {
  import opened Base
  import opened CStrings
  import opened RequestParser
  import opened ParserInvariants
  import opened ParserChunking

  predicate LineChars(s: string) {
    Free(s, Break) && NoNul(s)
  }

  lemma LineCharsJoin(a: string, b: string)
    requires LineChars(a) && LineChars(b)
    ensures LineChars(a + b)
  {
  }

  /** Waiting at the start of a line. */
  predicate AtLineStart(p: Parser) {
    Inv(p) && p.start == p.checked == |p.data|
  }

  /** The search for a break in `line` CR LF stops at the CR. */
  lemma BreakOf(b: seq<char>, line: string)
    requires LineChars(line)
    ensures var d, i := b + (line + CRLF), |b| + |line|; FirstIn(d, |b|, Break) == i && d[i] == CR && d[i + 1] == LF
  {
    var d, i := b + (line + CRLF), |b| + |line|;
    assert forall k :: |b| <= k < i ==> d[k] == line[k - |b|];
    FirstInIs(d, |b|, Break, i);
  }

  /** With its break cut, the line is the string at its start. */
  lemma CutOf(b: seq<char>, line: string)
    requires LineChars(line)
    ensures var c, i := b + line + [NUL, NUL], |b| + |line|;
            (b + (line + CRLF))[i := NUL][i + 1 := NUL] == c && Str(c, |b|) == line
  {
    var c := b + line + [NUL, NUL];
    assert c[|b|..|b| + |line|] == line;
    StrIs(c, |b|, line);
  }

  /** One whole line is scanned, cut and handed to the switch. */
  lemma FeedLine(p: Parser, line: string)
    requires p.start == p.checked == |p.data| && !p.state.Content? && LineChars(line)
    ensures ScanLine(Feed(p, line + CRLF)) == (AfterLine(p, line), LineOk) && Str(AfterLine(p, line).data, p.start) == line
  {
    BreakOf(p.data, line);
    CutOf(p.data, line);
  }

  /** A state that has consumed everything waits for the next line. */
  lemma LineStartSettled(p: Parser)
    requires AtLineStart(p) && !p.state.Content?
    ensures Settled(p)
  {
  }

  /** The state after a line that the switch has not looked at yet. */
  function AfterLine(p: Parser, line: string): Parser {
    p.(data := p.data + line + [NUL, NUL], checked := |p.data| + |line| + 2)
  }

  /** What process_read makes of the answer for a line. */
  function Decision(p: Parser, flag: bool): Option<Outcome> {
    if p.state.RequestLine? && !flag then Some(Bad) else if p.state.Header? && flag then Some(Ready) else None
  }

  /** A turn that has scanned `text`. */
  lemma TurnIs(p: Parser, q: Parser, text: string, r: Parser, flag: bool)
    requires Wf(p) && !p.state.Content? && ScanLine(p) == (q, LineOk) && Str(q.data, q.start) == text
    requires q.start <= q.checked <= |q.data| && RunText(q, text) == (r, flag)
    ensures Turn(p) == (r, Decision(p, flag))
  {
  }

  lemma FedTurn(p: Parser, line: string, r: Parser, flag: bool)
    requires p.start == p.checked == |p.data| && !p.state.Content? && LineChars(line)
             && RunText(AfterLine(p, line), line) == (r, flag)
    ensures Turn(Feed(p, line + CRLF)) == (r, Decision(p, flag))
    ensures r.start == r.checked == |r.data|
  {
    FeedLine(p, line);
    TurnIs(Feed(p, line + CRLF), AfterLine(p, line), line, r, flag);
  }

  lemma TurnOfLine(p: Parser, line: string, r: Parser, flag: bool)
    requires AtLineStart(p) && !p.state.Content? && LineChars(line) && RunText(AfterLine(p, line), line) == (r, flag)
    ensures Turn(Feed(p, line + CRLF)) == (r, Decision(p, flag))
    ensures Inv(r) && r.start == r.checked == |r.data|
  {
    FedTurn(p, line, r, flag);
    FedTurnInv(p, line + CRLF);
  }

  lemma FedTurnInv(p: Parser, e: seq<char>)
    requires Inv(p)
    ensures Inv(Turn(Feed(p, e)).0)
  {
    FeedKeeps(p, e);
    TurnInv(Feed(p, e));
  }

  /** A line that decides nothing leads from one line start to the next. */
  lemma RunLine(p: Parser, line: string, r: Parser)
    requires AtLineStart(p) && !p.state.Content? && LineChars(line)
    requires RunText(AfterLine(p, line), line) == (r, p.state.RequestLine?) && !r.state.Content?
    ensures AtLineStart(r) && Run(Feed(p, line + CRLF)) == (r, Pending)
  {
    TurnOfLine(p, line, r, p.state.RequestLine?);
    LineStartSettled(r);
  }

  /** The same, whatever bytes follow the line. */
  lemma PassLine(p: Parser, line: string, r: Parser, rest: seq<char>)
    requires AtLineStart(p) && !p.state.Content? && LineChars(line)
    requires RunText(AfterLine(p, line), line) == (r, p.state.RequestLine?) && !r.state.Content?
    ensures AtLineStart(r) && Run(Feed(p, line + CRLF + rest)) == Run(Feed(r, rest))
  {
    RunLine(p, line, r);
    RunExtends(Feed(p, line + CRLF), rest);
    FeedFeed(p, line + CRLF, rest);
  }

  /** Strings of earlier lines are still there. */
  lemma EarlierText(p: Parser, line: string, at: Option<nat>)
    requires AtLineStart(p) && at.Some? && Anchored(p, at)
    ensures Text(AfterLine(p, line), at) == Text(p, at)
  {
    StrStable(p.data, AfterLine(p, line).data, at.value, p.start);
  }
}
