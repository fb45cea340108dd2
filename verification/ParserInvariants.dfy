/** What every call of process_read keeps, whatever bytes arrive. */
module ParserInvariants {
  import opened Base
  import opened CStrings
  import opened RequestParser

  /** There is a NUL in b[i..n]: the string at `i` ends below `n`. */
  predicate Ends(b: seq<char>, i: nat, n: nat) {
    i < n <= |b| && exists k :: i <= k < n && b[k] == NUL
  }

  predicate Anchored(p: Parser, at: Option<nat>) {
    at.Some? ==> Ends(p.data, at.value, p.start)
  }

  predicate NoBreaks(b: seq<char>, n: nat) {
    n <= |b| && forall k :: 0 <= k < n ==> b[k] != CR && b[k] != LF
  }

  predicate Inv(p: Parser) {
    && Wf(p)
    && NoBreaks(p.data, p.checked)
    && Anchored(p, p.url) && Anchored(p, p.version) && Anchored(p, p.host)
    && (!p.state.RequestLine? ==> p.url.Some?)
  }

  /** The only writes are NULs. */
  predicate OnlyCuts(b: seq<char>, c: seq<char>) {
    |b| == |c| && forall k :: 0 <= k < |b| ==> c[k] == b[k] || c[k] == NUL
  }

  lemma EndsKept(b: seq<char>, c: seq<char>, i: nat, m: nat, n: nat)
    requires Ends(b, i, m) && m <= n <= |c| && |b| <= |c| && OnlyCuts(b, c[..|b|])
    ensures Ends(c, i, n)
  {
    var k :| i <= k < m && b[k] == NUL;
    assert c[..|b|][k] == NUL;
  }

  predicate SameBelow(b: seq<char>, c: seq<char>, n: nat) {
    n <= |b| && n <= |c| && b[..n] == c[..n]
  }

  // ----- the scanner

  /** parse_line without its branch for an LF that follows a CR. */
  function ScanCrLf(p: Parser): (Parser, LineStatus)
    requires p.checked <= |p.data|
  {
    var b, i := p.data, FirstIn(p.data, p.checked, Break);
    if i == |b| || (b[i] == CR && i + 1 == |b|) then (p.(checked := i), LineOpen)
    else if b[i] == CR && b[i + 1] == LF then (p.(data := b[i := NUL][i + 1 := NUL], checked := i + 2), LineOk)
    else (p.(checked := i), LineBad)
  }

  /** With no break left below `checked`, that branch is dead; the scan keeps this and writes only from `checked` on. */
  lemma ScanInvariant(p: Parser)
    requires NoBreaks(p.data, p.checked)
    ensures ScanLine(p) == ScanCrLf(p)
    ensures var q := ScanLine(p).0;
            NoBreaks(q.data, q.checked) && OnlyCuts(p.data, q.data) && SameBelow(p.data, q.data, p.checked)
  {
    var i := FirstIn(p.data, p.checked, Break);
    assert i < |p.data| && i > 0 ==> p.data[i - 1] != CR;
  }

  // ----- one line, one turn, one call

  predicate Within(before: Option<nat>, after: Option<nat>, at: nat, n: nat) {
    after == before || after.None? || at <= after.value <= at + n
  }

  /** NULs written within the `n` bytes at `at`, and pointers kept or set within them. */
  predicate Local(p: Parser, r: Parser, at: nat, n: nat) {
    && OnlyCuts(p.data, r.data)
    && (forall k :: 0 <= k < |p.data| && !(at <= k < at + n) ==> r.data[k] == p.data[k])
    && Within(p.url, r.url, at, n) && Within(p.version, r.version, at, n) && Within(p.host, r.host, at, n)
  }

  lemma LineLocal(p: Parser, at: nat, n: nat, shape: LineShape)
    requires at + n <= |p.data| && Fits(shape, n)
    ensures Local(p, ApplyLine(p, at, shape).0, at, n)
  {
  }

  lemma HeaderLocal(p: Parser, at: nat, n: nat, effect: HeaderEffect)
    requires at + n <= |p.data| && (effect.SetHost? ==> effect.offset <= n)
    ensures Local(p, ApplyHeader(p, at, effect).0, at, n)
  {
  }

  /** What the switch does to a line of `n` bytes. */
  predicate Switched(q: Parser, r: Parser, n: nat) {
    && Local(q, r, q.start, n) && Wf(r) && r.checked == r.start == q.checked
    && (r.host == q.host || r.host.Some?)
    && (q.state.Header? ==> !r.state.RequestLine? && r.url == q.url && r.version == q.version)
    && (q.state.RequestLine? && !r.state.RequestLine? ==> r.url.Some?)
  }

  lemma TextLocal(q: Parser, text: string)
    requires q.start <= q.checked <= |q.data| && !q.state.Content? && q.start + |text| <= |q.data|
    ensures Switched(q, RunText(q, text).0, |text|)
  {
    var q' := q.(start := q.checked);
    if q.state.RequestLine? {
      LineLocal(q', q.start, |text|, ShapeOf(text));
    } else {
      HeaderLocal(q', q.start, |text|, EffectOf(text));
    }
  }

  /** A pointer set before the line, or within it, ends before the next line. */
  lemma AnchorKept(p: Parser, r: Parser, before: Option<nat>, after: Option<nat>, n: nat)
    requires Anchored(p, before) && OnlyCuts(p.data, r.data) && p.start + n < r.start <= |r.data| && r.data[p.start + n] == NUL
    requires Within(before, after, p.start, n)
    ensures Anchored(r, after)
  {
    if after.Some? && after == before {
      assert r.data[..|p.data|] == r.data;
      EndsKept(p.data, r.data, after.value, p.start, r.start);
    }
  }

  /** What one turn does to the buffer and the pointers; `p.start` is where its line begins. */
  predicate Careful(p: Parser, r: Parser) {
    && SameBelow(p.data, r.data, p.start) && p.start <= r.start
    && (!p.state.RequestLine? ==> !r.state.RequestLine? && r.url == p.url && r.version == p.version)
    && (r.host == p.host || (r.host.Some? && p.start <= r.host.value))
  }

  /** A scanned line `q`, processed within its `n` bytes into `r`. */
  lemma LineKeeps(p: Parser, q: Parser, r: Parser, n: nat)
    requires Inv(p) && q == p.(data := q.data, checked := q.checked) && Wf(r) && r.checked == r.start == q.checked
    requires NoBreaks(q.data, q.checked) && OnlyCuts(p.data, q.data) && SameBelow(p.data, q.data, p.checked)
    requires p.start + n < q.checked && q.data[p.start + n] == NUL && Local(q, r, p.start, n)
    requires !r.state.RequestLine? ==> r.url.Some?
    ensures Inv(r) && SameBelow(p.data, r.data, p.start)
  {
    AnchorKept(p, r, p.url, r.url, n);
    AnchorKept(p, r, p.version, r.version, n);
    AnchorKept(p, r, p.host, r.host, n);
    assert q.data[..p.start] == q.data[..p.checked][..p.start] == p.data[..p.checked][..p.start];
    assert r.data[..p.start] == q.data[..p.start];
  }

  /** `r` is what the switch makes of the line `q`, scanned from `p`. */
  lemma SwitchKeeps(p: Parser, q: Parser, r: Parser, n: nat)
    requires Inv(p) && !p.state.Content? && q == p.(data := q.data, checked := q.checked) && p.checked <= q.checked
    requires NoBreaks(q.data, q.checked) && OnlyCuts(p.data, q.data) && SameBelow(p.data, q.data, p.checked)
    requires p.start + n < q.checked && q.data[p.start + n] == NUL && Switched(q, r, n)
    ensures Inv(r) && Careful(p, r)
  {
    LineKeeps(p, q, r, n);
  }

  lemma TextKeeps(p: Parser, q: Parser, text: string)
    requires Inv(p) && !p.state.Content? && q == p.(data := q.data, checked := q.checked) && p.checked <= q.checked
    requires NoBreaks(q.data, q.checked) && OnlyCuts(p.data, q.data) && SameBelow(p.data, q.data, p.checked)
    requires p.start + |text| < q.checked && q.data[p.start + |text|] == NUL
    ensures var r := RunText(q, text).0; Inv(r) && Careful(p, r)
  {
    TextLocal(q, text);
    SwitchKeeps(p, q, RunText(q, text).0, |text|);
  }

  lemma LineTurnKeeps(p: Parser)
    requires Inv(p) && !p.state.Content? && ScanLine(p).1.LineOk?
    ensures var r := RunText(ScanLine(p).0, Str(ScanLine(p).0.data, p.start)).0; Inv(r) && Careful(p, r)
  {
    ScanInvariant(p);
    var q := ScanLine(p).0;
    LineText(q.data, [], q.start, q.checked);
    TextKeeps(p, q, Str(q.data, q.start));
  }

  /** A declared length below zero makes parse_content write before the body. */
  predicate WritesBack(r: Parser, outcome: Outcome) {
    outcome.Ready? && r.state.Content? && r.length < 0
  }

  /** As SameBelow, apart from a NUL at `hole`. */
  predicate SameBut(b: seq<char>, c: seq<char>, n: nat, hole: int) {
    && n <= |b| && n <= |c|
    && (forall k :: 0 <= k < n && k != hole ==> c[k] == b[k])
    && (0 <= hole < n ==> c[hole] == NUL)
  }

  /** From `p` to a later state `r`: pointers already set stay, and so do the bytes before the current line. */
  predicate Keeps(p: Parser, r: Parser, outcome: Outcome) {
    && Inv(r) && p.start <= r.start
    && (if WritesBack(r, outcome) then SameBut(p.data, r.data, p.start, r.start + r.length)
        else SameBut(p.data, r.data, p.start, -1))
    && (!p.state.RequestLine? ==> !r.state.RequestLine? && r.url == p.url && r.version == p.version)
    && (r.host == p.host || (r.host.Some? && p.start <= r.host.value))
  }

  lemma ContentKeeps(p: Parser)
    requires Inv(p) && p.state.Content?
    ensures var (r, outcome) := ContentStep(p); Keeps(p, r, outcome)
  {
    var (r, outcome) := ContentStep(p);
    assert OnlyCuts(p.data, r.data) && r.data[..|p.data|] == r.data;
    forall at | at in {p.url, p.version, p.host} && at.Some?
      ensures Anchored(r, at)
    {
      EndsKept(p.data, r.data, at.value, p.start, r.start);
    }
  }

  lemma TurnKeeps(p: Parser)
    requires Inv(p)
    ensures var (r, outcome) := Turn(p); Keeps(p, r, if outcome.Some? then outcome.value else Pending)
  {
    if p.state.Content? {
      ContentKeeps(p);
    } else if ScanLine(p).1.LineOk? {
      LineTurnKeeps(p);
      var r := RunText(ScanLine(p).0, Str(ScanLine(p).0.data, p.start)).0;
      assert forall k :: 0 <= k < p.start ==> r.data[k] == r.data[..p.start][k] == p.data[..p.start][k];
    } else {
      ScanInvariant(p);
    }
  }

  lemma TurnInv(p: Parser)
    requires Inv(p)
    ensures Inv(Turn(p).0) && (Turn(p).1 == Some(Outcome.Ready) ==> Turn(p).0.url.Some?)
  {
    TurnKeeps(p);
  }

  lemma KeepsTransitive(p: Parser, q: Parser, r: Parser, outcome: Outcome)
    requires Keeps(p, q, Pending) && Keeps(q, r, outcome)
    ensures Keeps(p, r, outcome)
  {
  }

  lemma {:induction false} RunKeeps(p: Parser)
    requires Inv(p)
    ensures var (r, outcome) := Run(p); Keeps(p, r, outcome)
    decreases |p.data| - p.checked
  {
    TurnKeeps(p);
    var (q, outcome) := Turn(p);
    if outcome.None? {
      RunKeeps(q);
      KeepsTransitive(p, q, Run(q).0, Run(q).1);
    }
  }

  lemma FeedKeeps(p: Parser, e: seq<char>)
    requires Inv(p)
    ensures Keeps(p, Feed(p, e), Pending)
  {
    var r := Feed(p, e);
    assert r.data[..|p.data|] == p.data;
    forall at | at in {p.url, p.version, p.host} && at.Some?
      ensures Anchored(r, at)
    {
      EndsKept(p.data, r.data, at.value, p.start, r.start);
    }
  }

  /** Every run, over any chunks, keeps the invariant and everything parsed so far. */
  lemma {:induction false} DriveKeeps(p: Parser, chunks: seq<seq<char>>)
    requires Inv(p)
    ensures var (r, outcome) := Drive(p, chunks); Keeps(p, r, outcome)
    decreases chunks
  {
    if chunks != [] {
      var fed := Feed(p, chunks[0]);
      FeedKeeps(p, chunks[0]);
      RunKeeps(fed);
      var (q, outcome) := Run(fed);
      KeepsTransitive(p, fed, q, outcome);
      if outcome.Pending? {
        DriveKeeps(q, chunks[1..]);
        KeepsTransitive(p, q, Drive(q, chunks[1..]).0, Drive(q, chunks[1..]).1);
      }
    }
  }

  // ----- consequences

  /**
   In every state that chunks can lead to from a fresh connection, whatever arrives next, the cursors are in
   order, no CR or LF is left behind them, and parse_line works as if it had no branch for an LF after a CR.
   */
  lemma ScannerOverRuns(chunks: seq<seq<char>>, e: seq<char>)
    ensures var p := Drive(Init, chunks).0;
            && p.start <= p.checked <= |p.data|
            && NoBreaks(p.data, p.checked)
            && ScanLine(Feed(p, e)) == ScanCrLf(Feed(p, e))
  {
    DriveKeeps(Init, chunks);
    FeedKeeps(Drive(Init, chunks).0, e);
    ScanInvariant(Feed(Drive(Init, chunks).0, e));
  }

  /**
   A string set by an earlier line keeps its text under all later writes, except exactly when
   the body terminator of a negative Content-Length lands inside it.
   */
  lemma StringStable(p: Parser, chunks: seq<seq<char>>, at: nat)
    requires Inv(p) && Ends(p.data, at, p.start)
    ensures var (r, outcome) := Drive(p, chunks);
            at <= |r.data|
            && (Str(r.data, at) == Str(p.data, at)
                <==> !(WritesBack(r, outcome) && at <= r.start + r.length < at + |Str(p.data, at)|))
  {
    DriveKeeps(p, chunks);
    var (r, outcome) := Drive(p, chunks);
    StrStable(p.data, p.data, at, p.start);
    var hole := if WritesBack(r, outcome) then r.start + r.length else -1;
    assert SameBut(p.data, r.data, p.start, hole);
    StringBut(p.data, r.data, at, p.start, hole);
  }

  /** So the url stays as parsed, and the host until a later Host line, unless a negative length writes back. */
  lemma ParsedStable(p: Parser, chunks: seq<seq<char>>)
    requires Inv(p) && !p.state.RequestLine? && !WritesBack(Drive(p, chunks).0, Drive(p, chunks).1)
    ensures var r := Drive(p, chunks).0;
            Text(r, r.url) == Text(p, p.url) && (r.host == p.host ==> Text(r, r.host) == Text(p, p.host))
  {
    DriveKeeps(p, chunks);
    StringStable(p, chunks, p.url.value);
    if p.host.Some? {
      StringStable(p, chunks, p.host.value);
    }
  }

  /** The string `s` at `at` when a NUL is written at `hole`. */
  function CutAt(s: string, at: nat, hole: int): string {
    if at <= hole < at + |s| then s[..hole - at] else s
  }

  lemma StringBut(b: seq<char>, c: seq<char>, u: nat, n: nat, hole: int)
    requires SameBut(b, c, n, hole) && u <= |b| && u + StrLen(b, u) < n
    ensures Str(b, u) == Str(c, u) <==> !(u <= hole < u + StrLen(b, u))
    ensures Str(c, u) == CutAt(Str(b, u), u, hole)
  {
    var len := StrLen(b, u);
    var m := if u <= hole < u + len then hole else u + len;
    assert c[u..m] == b[u..m] && NoNul(b[u..m]) && c[m] == NUL;
    StrIs(c, u, b[u..m]);
    assert |Str(c, u)| == m - u;
  }
}
