/**
 The parser does not see how the stream was cut into chunks, with one exception, found
 exactly: a body that has fully arrived by the time it is looked at. This is about process_read
 alone; ParserReads.dfy puts read() in front of it, with its buffer of a fixed size.
 */
module ParserChunking {
  import opened Base
  import opened CStrings
  import opened RequestParser
  import opened ParserInvariants

  /** `later` is `p` with more bytes behind the ones `p` has. */
  predicate Extends(p: Parser, later: Parser) {
    later.(data := p.data) == p && p.data <= later.data
  }

  /** process_read would stop right here, waiting for bytes. */
  predicate Settled(p: Parser) {
    Wf(p) && Run(p) == (p, Pending)
  }

  /** do_request was reached with a declared, non-empty body in the buffer. */
  predicate BodyArrived(r: (Parser, Outcome)) {
    r.1.Ready? && r.0.state.Content? && r.0.length > 0
  }

  /** Same decision, same parsed fields; while nothing is decided, same state altogether. */
  predicate Agree(a: (Parser, Outcome), b: (Parser, Outcome)) {
    && a.1 == b.1
    && (a.1.Pending? ==> a.0 == b.0)
    && a.0.linger == b.0.linger
    && Text(a.0, a.0.url) == Text(b.0, b.0.url)
    && Text(a.0, a.0.host) == Text(b.0, b.0.host)
  }

  // ----- one line

  /** The scan stops where it did, or goes on into the new bytes. */
  lemma SearchExtends(b: seq<char>, e: seq<char>, i: nat, chars: Class)
    requires i <= |b|
    ensures var n := FirstIn(b, i, chars);
            FirstIn(b + e, i, chars) == if n < |b| then n else FirstIn(b + e, |b|, chars)
  {
    var n := FirstIn(b, i, chars);
    var m := if n < |b| then n else FirstIn(b + e, |b|, chars);
    assert forall k :: 0 <= k < |b| ==> (b + e)[k] == b[k];
    FirstInIs(b + e, i, chars, m);
  }

  lemma StopExtends(p: Parser, i: nat, e: seq<char>)
    requires i < |p.data| && Is(p.data[i], Break) && (p.data + e)[i] == p.data[i] && !StopAt(p, i).1.LineOpen?
    ensures var (q, status) := StopAt(p, i);
            StopAt(Feed(p, e), i) == (Feed(q, e), status) && (status.LineBad? ==> StopAt(q, i) == (q, LineBad))
  {
    var b := p.data;
    assert (i + 1 < |b| ==> (b + e)[i + 1] == b[i + 1]) && (i > 0 ==> (b + e)[i - 1] == b[i - 1]);
    if b[i] == CR {
      assert (b + e)[i := NUL][i + 1 := NUL] == b[i := NUL][i + 1 := NUL] + e;
    } else if i > 0 {
      assert (b + e)[i - 1 := NUL][i := NUL] == b[i - 1 := NUL][i := NUL] + e;
    }
  }

  /** An incomplete line is scanned again together with the new bytes. */
  lemma OpenExtends(p: Parser, e: seq<char>)
    requires p.checked <= |p.data| && ScanLine(p).1.LineOpen?
    ensures var q := ScanLine(p).0;
            var (q', status') := ScanLine(Feed(p, e));
            (q', status') == ScanLine(Feed(q, e)) && ScanLine(q) == (q, LineOpen) && (status'.LineOk? ==> q'.checked > |p.data|)
  {
    var b, i := p.data, FirstIn(p.data, p.checked, Break);
    SearchExtends(b, e, p.checked, Break);
    SearchExtends(b, e, i, Break);
    FirstInIs(b, i, Break, i);
    if i < |b| {
      assert (b + e)[i] == b[i];
    }
    StopIgnoresChecked(Feed(p, e), i, FirstIn(b + e, i, Break));
  }

  lemma ScanExtends(p: Parser, e: seq<char>)
    requires p.checked <= |p.data| && !ScanLine(p).1.LineOpen?
    ensures var (q, status) := ScanLine(p);
            ScanLine(Feed(p, e)) == (Feed(q, e), status) && (status.LineBad? ==> ScanLine(q) == (q, LineBad))
  {
    var i := FirstIn(p.data, p.checked, Break);
    SearchExtends(p.data, e, p.checked, Break);
    FirstInIs(p.data, i, Break, i);
    assert (p.data + e)[i] == p.data[i];
    StopExtends(p, i, e);
  }

  lemma UpdateExtends(b: seq<char>, e: seq<char>, i: nat)
    requires i < |b|
    ensures (b + e)[i := NUL] == b[i := NUL] + e
  {
  }

  lemma ApplyLineExtends(p: Parser, at: nat, shape: LineShape, e: seq<char>)
    requires at <= |p.data| && Fits(shape, |p.data| - at)
    ensures var (r, ok) := ApplyLine(p, at, shape); ApplyLine(Feed(p, e), at, shape) == (Feed(r, e), ok)
  {
    match shape
    case NoBlank =>
    case WrongMethod(i) => UpdateExtends(p.data, e, at + i);
    case NoVersion(i, u) => UpdateExtends(p.data, e, at + i);
    case Complete(i, j, v, url, ok) =>
      UpdateExtends(p.data, e, at + i);
      UpdateExtends(p.data[at + i := NUL], e, at + j);
  }

  lemma TextExtends(q: Parser, text: string, e: seq<char>)
    requires q.start <= q.checked <= |q.data| && !q.state.Content? && |text| <= |q.data| - q.start
    ensures var (r, flag) := RunText(q, text); RunText(Feed(q, e), text) == (Feed(r, e), flag)
  {
    var q' := q.(start := q.checked);
    assert Feed(q, e).(start := q.checked) == Feed(q', e);
    if q.state.RequestLine? {
      ApplyLineExtends(q', q.start, ShapeOf(text), e);
    }
  }

  lemma LineExtends(p: Parser, e: seq<char>)
    requires p.start <= p.checked <= |p.data| && !p.state.Content? && ScanLine(p).1.LineOk?
    ensures var q := ScanLine(p).0;
            var text := Str(q.data, q.start);
            var (r, flag) := RunText(q, text);
            ScanLine(Feed(p, e)) == (Feed(q, e), LineOk) && Str(q.data + e, q.start) == text
              && RunText(Feed(q, e), text) == (Feed(r, e), flag)
  {
    ScanExtends(p, e);
    var q := ScanLine(p).0;
    LineText(q.data, e, q.start, q.checked);
    TextExtends(q, Str(q.data, q.start), e);
  }

  // ----- a whole call

  /** What more bytes behind the filled part change about one turn, or one call, that ended with `first`. */
  predicate Continues(n: nat, first: (Parser, Outcome), e: seq<char>, later: (Parser, Outcome)) {
    var (q, outcome) := first;
    match outcome
    case Pending => !q.state.Content? && (later.1.Pending? || later.0.checked > n)
    case Bad => later == (Feed(q, e), Bad)
    case Ready => later.1.Ready? && Extends(q, later.0) && (q.state.Content? ==> BodyComplete(q))
    case Stray => later.1.Stray? && Extends(q, later.0)
    case Internal => q.state.Content? && !BodyComplete(q) && q.length > 0 && Extends(q, later.0)
                     && later.1 == if BodyComplete(Feed(q, e)) then Ready else Internal
  }

  lemma ContentExtends(p: Parser, e: seq<char>)
    requires Wf(p) && p.state.Content?
    ensures Continues(|p.data|, ContentStep(p), e, ContentStep(Feed(p, e)))
    ensures !ContentStep(p).1.Pending?
  {
    var w := p.checked + p.length;
    if 0 <= w < |p.data| {
      UpdateExtends(p.data, e, w);
    }
  }

  /** What more bytes change about one turn. */
  predicate TurnContinues(p: Parser, turn: (Parser, Option<Outcome>), e: seq<char>, later: (Parser, Option<Outcome>)) {
    match turn.1
    case None => later == (Feed(turn.0, e), None)
    case Some(o) =>
      (o.Pending? ==> (later.1 == Some(Pending) || later.0.checked > |p.data|) && !turn.0.state.Content?)
      && (!o.Pending? ==> later.1.Some? && Continues(|p.data|, (turn.0, o), e, (later.0, later.1.value)))
  }

  lemma OkTurnExtends(p: Parser, e: seq<char>)
    requires Wf(p) && !p.state.Content? && ScanLine(p).1.LineOk?
    ensures TurnContinues(p, Turn(p), e, Turn(Feed(p, e))) && Turn(p).1 != Some(Pending)
  {
    LineExtends(p, e);
  }

  /** A turn that waits at `q` is repeated from there when the bytes have come. */
  predicate Resumes(p: Parser, q: Parser, e: seq<char>) {
    Wf(p) && Wf(q) && Turn(p) == Turn(q) == (q, Some(Pending)) && Turn(Feed(p, e)) == Turn(Feed(q, e))
  }

  lemma BadTurnExtends(p: Parser, e: seq<char>)
    requires Wf(p) && !p.state.Content? && ScanLine(p).1.LineBad?
    ensures TurnContinues(p, Turn(p), e, Turn(Feed(p, e))) && Resumes(p, Turn(p).0, e)
  {
    ScanExtends(p, e);
    ScanExtends(ScanLine(p).0, e);
  }

  lemma OpenTurnExtends(p: Parser, e: seq<char>)
    requires Wf(p) && !p.state.Content? && ScanLine(p).1.LineOpen?
    ensures TurnContinues(p, Turn(p), e, Turn(Feed(p, e))) && Resumes(p, Turn(p).0, e)
  {
    OpenExtends(p, e);
  }

  lemma TurnExtends(p: Parser, e: seq<char>)
    requires Wf(p)
    ensures TurnContinues(p, Turn(p), e, Turn(Feed(p, e)))
    ensures Turn(p).1 == Some(Pending) ==> Resumes(p, Turn(p).0, e)
  {
    if p.state.Content? {
      ContentExtends(p, e);
    } else {
      match ScanLine(p).1
      case LineOk => OkTurnExtends(p, e);
      case LineBad => BadTurnExtends(p, e);
      case LineOpen => OpenTurnExtends(p, e);
    }
  }

  /** What process_read decided on `p`, and what it decides when `e` had been there as well. */
  lemma {:induction false} RunExtends(p: Parser, e: seq<char>)
    requires Wf(p)
    ensures var (q, outcome) := Run(p);
            Continues(|p.data|, (q, outcome), e, Run(Feed(p, e)))
            && (outcome.Pending? ==> Run(Feed(p, e)) == Run(Feed(q, e)) && Settled(q))
    decreases |p.data| - p.checked
  {
    TurnExtends(p, e);
    var (q, outcome) := Turn(p);
    if outcome.None? {
      RunExtends(q, e);
    }
  }

  // ----- any number of calls

  lemma LaterText(q: Parser, later: Parser, at: Option<nat>)
    requires Extends(q, later) && Wf(q) && Anchored(q, at)
    ensures Text(q, at) == Text(later, at)
  {
    if at.Some? {
      StrStable(q.data, later.data, at.value, q.start);
    }
  }

  lemma LaterAgrees(n: nat, first: (Parser, Outcome), e: seq<char>, later: (Parser, Outcome))
    requires Inv(first.0) && Continues(n, first, e, later) && !first.1.Pending? && first.1 == later.1
    ensures Agree(first, later)
  {
    LaterText(first.0, later.0, first.0.url);
    LaterText(first.0, later.0, first.0.host);
  }

  /** However the stream is cut, the decision is that of a single call, unless a body had arrived in that call. */
  lemma {:induction false} DriveAgrees(p: Parser, chunks: seq<seq<char>>)
    requires Inv(p) && Settled(p) && !BodyArrived(Run(Feed(p, Concat(chunks))))
    ensures Agree(Drive(p, chunks), Run(Feed(p, Concat(chunks))))
    decreases chunks
  {
    if chunks == [] {
      assert Feed(p, []) == p;
    } else {
      var rest := Concat(chunks[1..]);
      var fed := Feed(p, chunks[0]);
      FeedFeed(p, chunks[0], rest);
      RunExtends(fed, rest);
      FeedKeeps(p, chunks[0]);
      RunKeeps(fed);
      var (q, outcome) := Run(fed);
      if outcome.Pending? {
        DriveAgrees(q, chunks[1..]);
      } else {
        LaterAgrees(|fed.data|, (q, outcome), rest, Run(Feed(fed, rest)));
      }
    }
  }

  lemma FeedFeed(p: Parser, e: seq<char>, f: seq<char>)
    ensures Feed(Feed(p, e), f) == Feed(p, e + f)
  {
    assert p.data + e + f == p.data + (e + f);
  }

  /** Each read gets something. */
  predicate Arrivals(chunks: seq<seq<char>>) {
    forall k :: 0 <= k < |chunks| ==> chunks[k] != []
  }

  /** No split of the stream makes a difference. */
  ghost predicate ChunkingIrrelevant(p: Parser, s: seq<char>)
    requires Wf(p)
  {
    forall chunks | Concat(chunks) == s :: Agree(Drive(p, chunks), Run(Feed(p, s)))
  }

  lemma ConcatTwo(a: seq<char>, b: seq<char>) returns (chunks: seq<seq<char>>)
    ensures chunks != [] && chunks[0] == a && Concat(chunks) == a + b && (a != [] && b != [] ==> Arrivals(chunks))
  {
    chunks := [a, b];
    assert [a, b][1..] == [b];
    assert Concat([b]) == b + Concat([]);
  }

  lemma BodyMissing(n: nat, first: (Parser, Outcome), e: seq<char>, later: (Parser, Outcome))
    requires Continues(n, first, e, later) && BodyArrived(later) && later.0.checked == n == |first.0.data|
    ensures first.1.Internal?
  {
    assert first.1.Ready? ==>
        first.0.checked == later.0.checked && first.0.length == later.0.length && first.0.state == later.0.state;
  }

  /** What RunExtends says, for results that are named. */
  lemma CallExtends(p: Parser, e: seq<char>, first: (Parser, Outcome), later: (Parser, Outcome))
    requires Wf(p) && first == Run(p) && later == Run(Feed(p, e))
    ensures Continues(|p.data|, first, e, later) && |first.0.data| == |p.data|
  {
    RunExtends(p, e);
  }

  /** The stream up to the start of the body, on its own. */
  lemma HeadAlone(
      p: Parser, s: seq<char>, head: seq<char>, body: seq<char>, first: (Parser, Outcome), later: (Parser, Outcome))
    requires Wf(p) && s == head + body && first == Run(Feed(p, head)) && later == Run(Feed(p, s))
    requires BodyArrived(later) && later.0.checked == |p.data| + |head|
    ensures first.1.Internal?
  {
    FeedFeed(p, head, body);
    CallExtends(Feed(p, head), body, first, later);
    BodyMissing(|p.data| + |head|, first, body, later);
  }

  lemma WholeSplits(p: Parser, s: seq<char>)
    ensures s[..|s|] == s && Feed(p, s[..0]) == p
  {
    assert s[..0] == [] && p.data + [] == p.data;
  }

  /** The body starts behind what a settled parser has. */
  lemma BodyStart(p: Parser, s: seq<char>, later: (Parser, Outcome)) returns (k: nat)
    requires Inv(p) && Settled(p) && later == Run(Feed(p, s)) && BodyArrived(later)
    ensures 0 < k < |s| && Run(Feed(p, s[..k])).1.Internal?
  {
    RunExtends(p, s);
    WholeSplits(p, s);
    k := later.0.checked - |p.data|;
    assert s == s[..k] + s[k..];
    HeadAlone(p, s, s[..k], s[k..], Run(Feed(p, s[..k])), later);
  }

  lemma DriveStops(p: Parser, chunks: seq<seq<char>>, first: (Parser, Outcome))
    requires Wf(p) && chunks != [] && first == Run(Feed(p, chunks[0])) && !first.1.Pending?
    ensures Drive(p, chunks) == first
  {
  }

  /** Two chunks, of which the first is decided on. */
  lemma TwoChunks(p: Parser, s: seq<char>, k: nat, first: (Parser, Outcome)) returns (chunks: seq<seq<char>>)
    requires Wf(p) && 0 < k < |s| && first == Run(Feed(p, s[..k])) && !first.1.Pending?
    ensures Concat(chunks) == s && Arrivals(chunks) && Drive(p, chunks) == first
  {
    chunks := ConcatTwo(s[..k], s[k..]);
    DriveStops(p, chunks, first);
  }

  /** Cutting off after the blank line of a request with a body is answered with INTERNAL_ERROR. */
  lemma CutBeforeBody(p: Parser, s: seq<char>) returns (chunks: seq<seq<char>>)
    requires Inv(p) && Settled(p) && BodyArrived(Run(Feed(p, s)))
    ensures Concat(chunks) == s && Arrivals(chunks) && Drive(p, chunks).1.Internal?
  {
    var k := BodyStart(p, s, Run(Feed(p, s)));
    chunks := TwoChunks(p, s, k, Run(Feed(p, s[..k])));
  }

  lemma BodyBreaksChunking(p: Parser, s: seq<char>)
    requires Inv(p) && Settled(p) && BodyArrived(Run(Feed(p, s)))
    ensures !ChunkingIrrelevant(p, s)
  {
    var chunks := CutBeforeBody(p, s);
    assert !Agree(Drive(p, chunks), Run(Feed(p, s)));
  }

  /**
   In every state the parser can wait in, for every stream that follows: all splits give the
   decision, url, host and linger of a single call (and while undecided the same state) if and
   only if that call does not find the whole of a non-empty body.
   */
  lemma ChunkingTheorem(p: Parser, s: seq<char>)
    requires Inv(p) && Settled(p)
    ensures ChunkingIrrelevant(p, s) <==> !BodyArrived(Run(Feed(p, s)))
  {
    if BodyArrived(Run(Feed(p, s))) {
      BodyBreaksChunking(p, s);
    } else {
      forall chunks | Concat(chunks) == s
        ensures Agree(Drive(p, chunks), Run(Feed(p, s)))
      {
        DriveAgrees(p, chunks);
      }
    }
  }

  /** A fresh connection is such a state, and so is every state an undecided run ends in. */
  lemma InitSettled()
    ensures Settled(Init) && Inv(Init)
  {
  }

  lemma {:induction false} PendingSettled(p: Parser, chunks: seq<seq<char>>)
    requires Inv(p) && Settled(p) && Drive(p, chunks).1.Pending?
    ensures Settled(Drive(p, chunks).0) && Inv(Drive(p, chunks).0)
    decreases chunks
  {
    DriveKeeps(p, chunks);
    if chunks != [] {
      FeedKeeps(p, chunks[0]);
      RunKeeps(Feed(p, chunks[0]));
      RunExtends(Feed(p, chunks[0]), []);
      PendingSettled(Run(Feed(p, chunks[0])).0, chunks[1..]);
    }
  }

  /**
   Once parse_line has said LINE_BAD, process_read answers NO_REQUEST to every later chunk
   and the scan stays at the same byte: such a connection never gets a response.
   */
  lemma {:induction false} BadLineIsForever(p: Parser, chunks: seq<seq<char>>)
    requires Wf(p) && !p.state.Content? && ScanLine(p) == (p, LineBad)
    ensures Drive(p, chunks) == (Feed(p, Concat(chunks)), Pending)
    decreases chunks
  {
    if chunks == [] {
      assert p.data + [] == p.data;
    } else {
      var fed := Feed(p, chunks[0]);
      ScanExtends(p, chunks[0]);
      assert Turn(fed) == (fed, Some(Pending));
      BadLineIsForever(fed, chunks[1..]);
      FeedFeed(p, chunks[0], Concat(chunks[1..]));
    }
  }
}
