/** Which waiting connections can still get an answer: what of the line they wait in, and how much room, that takes. */
module ParserAnswers {
  import opened Base
  import opened CStrings
  import opened RequestParser
  import opened RequestGrammar
  import opened ParserInvariants
  import opened ParserChunking
  import opened ParserLines
  import opened ParserReads

  /** A settled parser waits within a line, and has scanned what there is of it. */
  lemma SettledScan(p: Parser)
    requires Wf(p) && Settled(p)
    ensures !p.state.Content? && ScanLine(p).0 == p && !ScanLine(p).1.LineOk?
  {
    assert Turn(p).1.None? ==> Run(p) == Run(Turn(p).0);
  }

  /** The parser waits for the rest of a line. */
  predicate InLine(p: Parser) {
    Inv(p) && !p.state.Content? && ScanLine(p) == (p, LineOpen)
  }

  /** All of the line but its end has come, and a CR. */
  predicate AtCr(p: Parser) {
    p.checked < |p.data|
  }

  /** What completes the line. */
  function LineEnd(p: Parser): seq<char> {
    if AtCr(p) then [LF] else CRLF
  }

  /** What can stand between what has come of the line and its end. */
  predicate FitsIn(p: Parser, x: seq<char>) {
    Free(x, Break) && (AtCr(p) ==> x == [])
  }

  /** The line as the parser reads it, up to its first NUL, if `x` is the rest. */
  function LineWith(p: Parser, x: seq<char>): string
    requires p.start <= p.checked <= |p.data|
  {
    Str(p.data[p.start..p.checked] + x, 0)
  }

  // ----- the end of the line

  lemma BreakAhead(p: Parser)
    requires InLine(p)
    ensures if AtCr(p) then p.data[p.checked] == CR && p.checked + 1 == |p.data| else p.checked == |p.data|
  {
    assert FirstIn(p.data, p.checked, Break) == p.checked;
  }

  lemma NoBreaksFed(p: Parser, e: seq<char>)
    requires NoBreaks(p.data, p.checked)
    ensures NoBreaks(p.data + e, p.checked)
  {
    assert forall k :: 0 <= k < p.checked ==> (p.data + e)[k] == p.data[k];
  }

  /** Where the end of a completed line is found. */
  lemma EndFound(p: Parser, e: seq<char>) returns (i: nat)
    requires InLine(p) && ScanLine(Feed(p, e)).1.LineOk?
    ensures p.checked <= i && i + 1 < |p.data + e| && Free((p.data + e)[p.checked..i], Break)
    ensures (p.data + e)[i] == CR && (p.data + e)[i + 1] == LF && (AtCr(p) ==> i == p.checked)
  {
    BreakAhead(p);
    var b := p.data + e;
    i := FirstIn(b, p.checked, Break);
    NoBreaksFed(p, e);
    ScanInvariant(Feed(p, e));
  }

  /** A line is complete once its end has come, and not before. */
  lemma EndedBy(p: Parser, e: seq<char>) returns (x: seq<char>, rest: seq<char>)
    requires InLine(p) && ScanLine(Feed(p, e)).1.LineOk?
    ensures FitsIn(p, x) && e == x + LineEnd(p) + rest
  {
    BreakAhead(p);
    var i := EndFound(p, e);
    var b := p.data + e;
    if AtCr(p) {
      x, rest := [], e[1..];
      assert e[0] == b[i + 1];
    } else {
      var n := i - |p.data|;
      x, rest := e[..n], e[n + 2..];
      assert b[|p.data|..i] == x;
      assert e[n] == b[i] && e[n + 1] == b[i + 1];
    }
  }

  /** A string up to a NUL in the buffer, by its slice. */
  lemma StrOfSlice(b: seq<char>, at: nat, n: nat)
    requires at <= n < |b| && b[n] == NUL
    ensures Str(b, at) == Str(b[at..n], 0)
  {
    var t := Str(b[at..n], 0);
    assert forall k :: 0 <= k < |t| ==> t[k] == b[at..n][k] == b[at + k];
    assert b[at..at + |t|] == t;
    assert |t| < n - at ==> b[at..n][|t|] == b[at + |t|];
    StrIs(b, at, t);
  }

  /** The cursor at a CR LF: the line up to it is cut off. */
  lemma CutHere(p: Parser, i: nat)
    requires p.start <= p.checked <= i && i + 1 < |p.data| && Free(p.data[p.checked..i], Break)
    requires p.data[i] == CR && p.data[i + 1] == LF
    ensures var q := p.(data := p.data[i := NUL][i + 1 := NUL], checked := i + 2);
            ScanLine(p) == (q, LineOk) && Str(q.data, q.start) == Str(p.data[p.start..i], 0)
  {
    assert forall k :: p.checked <= k < i ==> p.data[k] == p.data[p.checked..i][k - p.checked];
    FirstInIs(p.data, p.checked, Break, i);
    var d := p.data[i := NUL][i + 1 := NUL];
    assert d[p.start..i] == p.data[p.start..i];
    StrOfSlice(d, p.start, i);
  }

  /** What stands where, once the end of the line has come. */
  lemma EndPlaced(p: Parser, x: seq<char>) returns (b: seq<char>, i: nat)
    requires InLine(p) && FitsIn(p, x)
    ensures b == p.data + (x + LineEnd(p)) && i == p.checked + |x| && i + 2 == |b|
    ensures b[p.checked..i] == x && b[i] == CR && b[i + 1] == LF && b[p.start..i] == p.data[p.start..p.checked] + x
  {
    BreakAhead(p);
    b, i := p.data + (x + LineEnd(p)), p.checked + |x|;
    assert AtCr(p) ==> b[i] == p.data[p.checked];
  }

  lemma EndScanned(p: Parser, x: seq<char>) returns (q: Parser)
    requires InLine(p) && FitsIn(p, x)
    ensures ScanLine(Feed(p, x + LineEnd(p))) == (q, LineOk) && Str(q.data, q.start) == LineWith(p, x)
    ensures q == p.(data := q.data, checked := |q.data|) && |q.data| == |p.data| + |x| + |LineEnd(p)|
  {
    var b, i := EndPlaced(p, x);
    CutHere(Feed(p, x + LineEnd(p)), i);
    q := p.(data := b[i := NUL][i + 1 := NUL], checked := i + 2);
  }

  /** What the switch decides about a line. */
  lemma RequestLineDecides(q: Parser, text: string, r: Parser, flag: bool)
    requires q.start <= q.checked <= |q.data| && q.state.RequestLine? && |text| <= |q.data| - q.start
    requires RunText(q, text) == (r, flag)
    ensures (flag <==> Derivable(text)) && (flag ==> r.state.Header?)
  {
    AcceptedExactly(text);
  }

  lemma HeaderLineDecides(q: Parser, text: string, r: Parser, flag: bool)
    requires q.start <= q.checked <= |q.data| && q.state.Header? && |text| <= |q.data| - q.start
    requires RunText(q, text) == (r, flag)
    ensures (r.state.Header? || r.state.Content?) && (flag || r.state.Content? <==> text == "") && !(flag && r.state.Content?)
  {
  }

  lemma LineTurn(p: Parser, e: seq<char>, q: Parser, text: string) returns (r: Parser, flag: bool)
    requires Inv(p) && !p.state.Content? && ScanLine(Feed(p, e)) == (q, LineOk) && q.state == p.state
    requires q.start <= q.checked == |q.data| && |text| <= |q.data| - q.start && Str(q.data, q.start) == text
    ensures Turn(Feed(p, e)) == (r, Decision(p, flag)) && RunText(q, text) == (r, flag)
    ensures Inv(r) && r.start == r.checked == |r.data| == |q.data|
  {
    FedTurnInv(p, e);
    r, flag := RunText(q, text).0, RunText(q, text).1;
    TurnIs(Feed(p, e), q, text, r, flag);
  }

  /** The state `r` after the completed line, and the decision on it. */
  lemma LineEnded(p: Parser, x: seq<char>) returns (r: Parser, flag: bool)
    requires InLine(p) && FitsIn(p, x)
    ensures Turn(Feed(p, x + LineEnd(p))) == (r, Decision(p, flag))
    ensures Inv(r) && r.start == r.checked == |r.data| == |p.data| + |x| + |LineEnd(p)|
    ensures p.state.RequestLine? ==> (flag <==> Derivable(LineWith(p, x))) && (flag ==> r.state.Header?)
    ensures p.state.Header? ==> (r.state.Header? || r.state.Content?)
                                && (flag || r.state.Content? <==> LineWith(p, x) == "") && !(flag && r.state.Content?)
  {
    var q := EndScanned(p, x);
    var text := LineWith(p, x);
    r, flag := LineTurn(p, x + LineEnd(p), q, text);
    if p.state.RequestLine? {
      RequestLineDecides(q, text, r, flag);
    } else {
      HeaderLineDecides(q, text, r, flag);
    }
  }

  // ----- the decision on any bytes that may follow

  /**
   Neither do_request nor the page for INTERNAL_ERROR: process_write sends nothing for BAD_REQUEST. What is undefined
   may be a reply.
   */
  predicate NoReply(outcome: Outcome) {
    outcome.Pending? || outcome.Bad?
  }

  lemma RunOfTurn(p: Parser, r: Parser, decision: Option<Outcome>)
    requires Wf(p) && Turn(p) == (r, decision)
    ensures Run(p) == if decision.Some? then (r, decision.value) else Run(r)
  {
  }

  /** While the line is not ended nothing is decided. */
  lemma NotEnded(p: Parser, e: seq<char>)
    requires Wf(p) && !p.state.Content? && !ScanLine(Feed(p, e)).1.LineOk?
    ensures Run(Feed(p, e)).1.Pending?
  {
  }

  /** An empty line has been handled: the decision with more bytes there is a reply, too. */
  lemma ReplyStays(n: nat, first: (Parser, Outcome), e: seq<char>, later: (Parser, Outcome))
    requires Continues(n, first, e, later) && !first.1.Pending?
    ensures NoReply(first.1) <==> NoReply(later.1)
    ensures first.1.Bad? <==> later.1.Bad?
  {
  }

  lemma ContentReplies(r: Parser)
    requires Wf(r) && r.state.Content?
    ensures !NoReply(Run(r).1)
  {
  }

  /** With this rest the line is accepted, or a header line that is not empty. */
  ghost predicate Passes(p: Parser, x: seq<char>)
    requires p.start <= p.checked <= |p.data|
  {
    if p.state.RequestLine? then Derivable(LineWith(p, x)) else LineWith(p, x) != ""
  }

  /** The end of the line has come, with anything behind it: a bad request line and an empty line are decided on. */
  lemma EndedRun(p: Parser, x: seq<char>, rest: seq<char>, e: seq<char>, run: (Parser, Outcome)) returns (r: Parser)
    requires InLine(p) && FitsIn(p, x) && e == x + LineEnd(p) + rest && run == Run(Feed(p, e))
    ensures !Passes(p, x) ==> if p.state.RequestLine? then run.1.Bad? else !NoReply(run.1)
    ensures Passes(p, x) ==> AtLineStart(r) && r.state.Header? && run == Run(Feed(r, rest))
  {
    var fed, flag := Feed(p, x + LineEnd(p)), false;
    r, flag := LineEnded(p, x);
    RunOfTurn(fed, r, Decision(p, flag));
    FeedFeed(p, x + LineEnd(p), rest);
    CallExtends(fed, rest, Run(fed), run);
    if Decision(p, flag).Some? {
      ReplyStays(|fed.data|, Run(fed), rest, run);
    } else if r.state.Content? {
      ContentReplies(r);
      ReplyStays(|fed.data|, Run(fed), rest, run);
    } else {
      LineStartSettled(r);
      RunExtends(fed, rest);
    }
  }

  lemma StartsLine(r: Parser)
    requires AtLineStart(r) && !r.state.Content?
    ensures InLine(r) && LineWith(r, []) == "" && LineEnd(r) == CRLF
  {
    assert r.data[r.start..r.checked] + [] == [];
  }

  /** Behind a header line it takes an empty line, of two bytes, to come to a decision. */
  lemma EmptyLineNext(r: Parser, rest: seq<char>)
    requires AtLineStart(r) && r.state.Header?
    ensures |rest| < 2 ==> Run(Feed(r, rest)).1.Pending?
    ensures rest == CRLF ==> !NoReply(Run(Feed(r, rest)).1)
  {
    StartsLine(r);
    if |rest| < 2 {
      if ScanLine(Feed(r, rest)).1.LineOk? {
        var x, more := EndedBy(r, rest);
      }
      NotEnded(r, rest);
    }
    if rest == CRLF {
      assert CRLF == [] + CRLF + [];
      var r' := EndedRun(r, [], [], CRLF, Run(Feed(r, CRLF)));
    }
  }

  // ----- how many bytes a decision takes

  /** A NUL in the line hides what follows it. */
  lemma LineHidden(p: Parser, x: seq<char>)
    requires p.start <= p.checked <= |p.data|
    ensures !NoNul(p.data[p.start..p.checked]) ==> LineWith(p, x) == LineWith(p, [])
    ensures LineWith(p, []) != "" ==> LineWith(p, x) != ""
  {
    var open := p.data[p.start..p.checked];
    if !NoNul(open) {
      StrStable(open + x, open + [], 0, |open|);
    }
    assert open != [] ==> (open + x)[0] == open[0] == (open + [])[0];
  }

  lemma LineShown(p: Parser, x: seq<char>)
    requires p.start <= p.checked <= |p.data| && NoNul(p.data[p.start..p.checked]) && NoNul(x)
    ensures LineWith(p, x) == p.data[p.start..p.checked] + x
  {
    var t := p.data[p.start..p.checked] + x;
    assert StrLen(t, 0) == |t|;
  }

  /** A derivable line ends with the last digit of its version. */
  lemma DerivableEnds(s: string)
    requires Derivable(s)
    ensures s != "" && ToLower(s[0]) == 'g' && s[|s| - 1] == '1'
  {
    var d :| Valid(d) && d.Line() == s;
    assert ToLower(d.verb[0]) == ToLower("GET"[0]) && s[0] == d.verb[0];
    assert ToLower(d.version[7]) == ToLower("HTTP/1.1"[7]) && s[|s| - 1] == d.version[7];
  }

  /** A request line to which a byte can be added that is not hidden. */
  predicate Spoilable(p: Parser)
    requires p.start <= p.checked <= |p.data|
  {
    p.state.RequestLine? && !AtCr(p) && NoNul(p.data[p.start..p.checked])
  }

  /**
   The least number of bytes that bring process_read to a decision. In a request line that would be refused as it
   stands, that is the end of the line; one that would be accepted is either spoilt by another byte or, if that is not
   possible, followed by an empty line. A header line has to be ended, and, unless it is empty, be followed by one.
   */
  function Needed(p: Parser): nat
    requires p.start <= p.checked <= |p.data|
  {
    var end := |LineEnd(p)|;
    if p.state.RequestLine? then
      if !(ShapeOf(LineWith(p, [])).Complete? && ShapeOf(LineWith(p, [])).ok) then end
      else if Spoilable(p) then 1 + end
      else end + 2
    else if LineWith(p, []) == "" then end
    else end + 2
  }

  lemma NeededIs(p: Parser)
    requires p.start <= p.checked <= |p.data|
    ensures Needed(p) == |LineEnd(p)| + if !Passes(p, []) then 0 else if Spoilable(p) then 1 else 2
  {
    AcceptedExactly(LineWith(p, []));
  }

  lemma SpoiltLine(p: Parser)
    requires p.start <= p.checked <= |p.data| && NoNul(p.data[p.start..p.checked])
    ensures !Derivable(LineWith(p, "x"))
  {
    LineShown(p, "x");
    if Derivable(LineWith(p, "x")) {
      DerivableEnds(LineWith(p, "x"));
    }
  }

  lemma EmptyLineDecides(p: Parser, x: seq<char>) returns (e: seq<char>)
    requires InLine(p) && FitsIn(p, x) && Passes(p, x)
    ensures |e| == |x| + |LineEnd(p)| + 2 && !NoReply(Run(Feed(p, e)).1)
  {
    e := x + LineEnd(p) + CRLF;
    var r := EndedRun(p, x, CRLF, e, Run(Feed(p, e)));
    EmptyLineNext(r, CRLF);
  }

  lemma EndDecides(p: Parser, x: seq<char>) returns (e: seq<char>)
    requires InLine(p) && FitsIn(p, x) && !Passes(p, x)
    ensures |e| == |x| + |LineEnd(p)| && !Run(Feed(p, e)).1.Pending? && (p.state.Header? ==> !NoReply(Run(Feed(p, e)).1))
  {
    e := x + LineEnd(p) + [];
    var r := EndedRun(p, x, [], e, Run(Feed(p, e)));
  }

  lemma SpoiltDecides(p: Parser) returns (e: seq<char>)
    requires InLine(p) && Spoilable(p)
    ensures |e| == 1 + |LineEnd(p)| && !Run(Feed(p, e)).1.Pending?
  {
    SpoiltLine(p);
    e := EndDecides(p, "x");
  }

  /** With so many bytes a decision can be had, and in a header a reply. */
  lemma NeededEnough(p: Parser) returns (e: seq<char>)
    requires InLine(p)
    ensures |e| == Needed(p) && !Run(Feed(p, e)).1.Pending? && (p.state.Header? ==> !NoReply(Run(Feed(p, e)).1))
  {
    NeededIs(p);
    if !Passes(p, []) {
      e := EndDecides(p, []);
    } else if Spoilable(p) {
      e := SpoiltDecides(p);
    } else {
      e := EmptyLineDecides(p, []);
    }
  }

  /** A decision means that the line was ended, and what it then takes. */
  lemma DecisionTakes(p: Parser, e: seq<char>) returns (x: seq<char>, rest: seq<char>)
    requires InLine(p) && !Run(Feed(p, e)).1.Pending?
    ensures FitsIn(p, x) && e == x + LineEnd(p) + rest
    ensures Passes(p, x) ==> |rest| >= 2
    ensures p.state.RequestLine? && !NoReply(Run(Feed(p, e)).1) ==> Derivable(LineWith(p, x))
  {
    if !ScanLine(Feed(p, e)).1.LineOk? {
      NotEnded(p, e);
    }
    x, rest := EndedBy(p, e);
    var r := EndedRun(p, x, rest, e, Run(Feed(p, e)));
    if AtLineStart(r) && r.state.Header? {
      EmptyLineNext(r, rest);
    }
  }

  /** And with fewer none can. */
  lemma NeededLeast(p: Parser, e: seq<char>)
    requires InLine(p) && !Run(Feed(p, e)).1.Pending?
    ensures |e| >= Needed(p)
  {
    var x, rest := DecisionTakes(p, e);
    LineHidden(p, x);
    NeededIs(p);
    assert x == [] ==> LineWith(p, x) == LineWith(p, []);
  }

  // ----- the main results

  /** No reads lead to a decision. */
  ghost predicate NeverDecided(p: Parser)
    requires Wf(p)
  {
    forall chunks | Arrivals(chunks) :: Receive(p, chunks).None? || Receive(p, chunks).value.1.Pending?
  }

  /** No reads lead to a reply. */
  ghost predicate NeverReplied(p: Parser)
    requires Wf(p)
  {
    forall chunks | Arrivals(chunks) :: Receive(p, chunks).None? || NoReply(Receive(p, chunks).value.1)
  }

  /** parse_line has stopped before the end of what has arrived, and not at a CR whose LF may still come. */
  predicate StoppedEarly(p: Parser) {
    p.checked < |p.data| && !(p.data[p.checked] == CR && p.checked + 1 == |p.data|)
  }

  lemma BadWhereStopped(p: Parser)
    requires p.checked <= |p.data| && ScanLine(p).0 == p && !ScanLine(p).1.LineOk?
    ensures ScanLine(p).1.LineBad? <==> StoppedEarly(p)
  {
    assert FirstIn(p.data, p.checked, Break) == p.checked;
  }

  /** What a waiting connection waits in. */
  lemma WaitsIn(p: Parser)
    requires Inv(p) && Settled(p)
    ensures if StoppedEarly(p) then !p.state.Content? && ScanLine(p) == (p, LineBad) else InLine(p)
  {
    SettledScan(p);
    BadWhereStopped(p);
  }

  lemma BadLineWaits(p: Parser, chunks: seq<seq<char>>)
    requires Inv(p) && Settled(p) && Room(p) >= 0 && StoppedEarly(p) && Arrivals(chunks)
    ensures Receive(p, chunks).None? || Receive(p, chunks).value.1.Pending?
  {
    WaitsIn(p);
    if Receive(p, chunks).Some? && !Receive(p, chunks).value.1.Pending? {
      var e := InSomeBytes(p, chunks);
      ScanExtends(p, e);
    }
  }

  /**
   A waiting connection can never come to a decision if and only if parse_line has stopped at a bad line, or there
   are fewer bytes left in the buffer than a decision takes.
   */
  lemma NeverDecidedExactly(p: Parser)
    requires Inv(p) && Settled(p) && Room(p) >= 0
    ensures NeverDecided(p) <==> StoppedEarly(p) || Room(p) < Needed(p)
  {
    WaitsIn(p);
    if StoppedEarly(p) {
      forall chunks | Arrivals(chunks)
        ensures Receive(p, chunks).None? || Receive(p, chunks).value.1.Pending?
      {
        BadLineWaits(p, chunks);
      }
    } else if Needed(p) <= Room(p) {
      var e := NeededEnough(p);
      InOneRead(p, e);
    } else {
      forall chunks | Arrivals(chunks)
        ensures Receive(p, chunks).None? || Receive(p, chunks).value.1.Pending?
      {
        if Receive(p, chunks).Some? && !Receive(p, chunks).value.1.Pending? {
          var e := InSomeBytes(p, chunks);
          NeededLeast(p, e);
        }
      }
    }
  }

  /** What is left of the buffer takes the rest of an acceptable request line, its end, and an empty line. */
  ghost predicate CanBeRequest(p: Parser, room: int)
    requires p.start <= p.checked <= |p.data|
  {
    exists x :: FitsIn(p, x) && |x| + |LineEnd(p)| + 2 <= room && Derivable(LineWith(p, x))
  }

  /** What a reply takes. */
  ghost predicate CanBeReplied(p: Parser)
    requires p.start <= p.checked <= |p.data|
  {
    if p.state.RequestLine? then CanBeRequest(p, Room(p)) else Needed(p) <= Room(p)
  }

  lemma ReplyTakes(p: Parser, e: seq<char>)
    requires InLine(p) && |e| <= Room(p) && !NoReply(Run(Feed(p, e)).1)
    ensures CanBeReplied(p)
  {
    NeededLeast(p, e);
    if p.state.RequestLine? {
      var x, rest := DecisionTakes(p, e);
    }
  }

  lemma ReplyPossible(p: Parser) returns (e: seq<char>)
    requires InLine(p) && CanBeReplied(p)
    ensures |e| <= Room(p) && !NoReply(Run(Feed(p, e)).1)
  {
    if p.state.RequestLine? {
      var x :| FitsIn(p, x) && |x| + |LineEnd(p)| + 2 <= Room(p) && Derivable(LineWith(p, x));
      e := EmptyLineDecides(p, x);
    } else {
      e := NeededEnough(p);
    }
  }

  /**
   It can never come to a reply if and only if its line is bad; or it waits in a request line that no longer extends
   to an acceptable one for which, with the empty line, there is room; or in a header that there is no room to end.
   */
  lemma NeverRepliedExactly(p: Parser)
    requires Inv(p) && Settled(p) && Room(p) >= 0
    ensures NeverReplied(p) <==> StoppedEarly(p) || !CanBeReplied(p)
  {
    WaitsIn(p);
    if StoppedEarly(p) {
      forall chunks | Arrivals(chunks)
        ensures Receive(p, chunks).None? || NoReply(Receive(p, chunks).value.1)
      {
        BadLineWaits(p, chunks);
      }
    } else if CanBeReplied(p) {
      var e := ReplyPossible(p);
      InOneRead(p, e);
    } else {
      forall chunks | Arrivals(chunks)
        ensures Receive(p, chunks).None? || NoReply(Receive(p, chunks).value.1)
      {
        if Receive(p, chunks).Some? && !NoReply(Receive(p, chunks).value.1) {
          var e := InSomeBytes(p, chunks);
          ReplyTakes(p, e);
        }
      }
    }
  }

  // ----- such connections, from the start

  /** The first bytes of a request line. */
  lemma FirstBytes(s: string) returns (p: Parser)
    requires s != "" && LineChars(s) && |s| <= READ_BUFFER_SIZE
    ensures Receive(Init, [s]) == Some((p, Pending)) && Inv(p) && Settled(p) && !StoppedEarly(p)
    ensures p == Init.(data := s, checked := |s|)
  {
    p := Init.(data := s, checked := |s|);
    FirstInIs(s, 0, Break, |s|);
    assert Feed(Init, s).data == s;
    assert Run(Feed(Init, s)) == (p, Pending);
    ReceiveNext(Init, [s], (p, Pending));
    FirstInIs(s, |s|, Break, |s|);
    FeedKeeps(Init, s);
    RunKeeps(Feed(Init, s));
  }

  /** A line feed on its own is a bad line. */
  lemma LoneLineFeed() returns (p: Parser)
    ensures Receive(Init, ["\n"]) == Some((p, Pending)) && Inv(p) && Settled(p) && StoppedEarly(p) && NeverDecided(p)
  {
    p := Feed(Init, "\n");
    assert p.data == "\n" && FirstIn(p.data, 0, Break) == 0;
    assert ScanLine(p) == (p, LineBad);
    assert Run(p) == (p, Pending);
    ReceiveNext(Init, ["\n"], (p, Pending));
    InitSettled();
    FeedKeeps(Init, "\n");
    RunKeeps(p);
    NeverDecidedExactly(p);
  }

  /** An overlong line, of which all but one byte of the buffer is full, waits for ever for its end. */
  lemma OverlongLine(s: string) returns (p: Parser)
    requires |s| == 2047 && (forall k :: 0 <= k < |s| ==> s[k] == 'a')
    ensures Receive(Init, [s]) == Some((p, Pending)) && Inv(p) && Settled(p) && !StoppedEarly(p) && NeverDecided(p)
  {
    p := FirstBytes(s);
    LineShown(p, []);
    AcceptedExactly(s);
    assert s[0..|s|] + [] == s;
    if Derivable(s) {
      DerivableEnds(s);
    }
    NeverDecidedExactly(p);
  }

  lemma NoDerivation(p: Parser, x: seq<char>)
    requires p.start <= p.checked <= |p.data| && LineWith(p, []) != "" && ToLower(LineWith(p, [])[0]) != 'g'
    ensures !Derivable(LineWith(p, x))
  {
    LineHidden(p, x);
    var open := p.data[p.start..p.checked];
    assert open != [] ==> (open + x)[0] == open[0] == (open + [])[0];
    assert open == [] ==> open + [] == [];
    if Derivable(LineWith(p, x)) {
      DerivableEnds(LineWith(p, x));
    }
  }

  lemma PostLine(p: Parser)
    requires p.data == "POST" && p.start == 0 && p.checked == 4
    ensures forall x :: !Derivable(LineWith(p, x))
  {
    LineShown(p, []);
    assert "POST"[0..4] + [] == "POST";
    forall x
      ensures !Derivable(LineWith(p, x))
    {
      NoDerivation(p, x);
    }
  }

  /** A POST can be decided on, but it is refused, and there is no reply. */
  lemma PostIsIgnored() returns (p: Parser)
    ensures Receive(Init, ["POST"]) == Some((p, Pending)) && Inv(p) && Settled(p) && !StoppedEarly(p)
    ensures NeverReplied(p) && !NeverDecided(p)
  {
    p := FirstBytes("POST");
    PostLine(p);
    NeededIs(p);
    NeverDecidedExactly(p);
    NeverRepliedExactly(p);
  }
}
