/**
 parse_request_line accepts exactly a grammar: the request-line of section 3.1.1 of RFC 7230
 for GET and HTTP/1.1, with letter case ignored and any run of blanks between the parts.
 */
module RequestGrammar {
  import opened Base
  import opened CStrings
  import opened RequestParser

  /** method gap target gap version, where the target is scheme authority path. */
  datatype Derivation = Derivation(
    verb: string, gap1: string, scheme: string, authority: string, path: string, gap2: string, version: string)
  {
    function Target(): string { scheme + authority + path }
    function Line(): string { verb + gap1 + Target() + gap2 + version }
    function TargetStart(): nat { |verb| + |gap1| }
    function TargetEnd(): nat { TargetStart() + |Target()| }
    function VersionStart(): nat { TargetEnd() + |gap2| }
  }

  predicate Gap(s: string) {
    s != "" && Only(s, Blank)
  }

  /** The requirements on the parts; none of them mentions how the code searches. */
  predicate Valid(d: Derivation) {
    && EqFold(d.verb, "GET") && Gap(d.gap1) && Gap(d.gap2) && EqFold(d.version, "HTTP/1.1")
    && Free(d.Target(), Blank)
    && d.path != "" && d.path[0] == '/'
    && ((d.scheme == "" && d.authority == "") || (EqFold(d.scheme, "http://") && Free(d.authority, Slashes)))
  }

  ghost predicate Derivable(s: string) {
    exists d: Derivation :: Valid(d) && d.Line() == s
  }

  lemma SlashOfTarget(d: Derivation)
    requires Valid(d)
    ensures Slash(d.Target()) == Some(|d.scheme| + |d.authority|)
  {
    var t := d.Target();
    if d.scheme == "" {
      assert t == d.path && t[0] == '/';
    } else {
      assert t[..7] == d.scheme;
      var n := 7 + |d.authority|;
      assert t[n] == d.path[0];
      assert forall k :: 7 <= k < n ==> t[k] == d.authority[k - 7];
    }
  }

  /** The parts as slices of the line. */
  lemma Slices(d: Derivation)
    requires Valid(d)
    ensures var s, i, u, j, v := d.Line(), |d.verb|, d.TargetStart(), d.TargetEnd(), d.VersionStart();
            && i < u < j < v <= |s| && s[..i] == d.verb && s[i..u] == d.gap1 && s[u..j] == d.Target()
            && s[j..v] == d.gap2 && s[v..] == d.version
  {
  }

  lemma DerivationFits(d: Derivation)
    requires Valid(d)
    ensures |d.verb| < d.TargetStart() < d.TargetEnd() < d.VersionStart() <= |d.Line()|
  {
  }

  lemma Searches(d: Derivation)
    requires Valid(d)
    ensures var s, i, u, j, v := d.Line(), |d.verb|, d.TargetStart(), d.TargetEnd(), d.VersionStart();
            && i < u < j < v <= |s| && EqFold(s[..i], "GET")
            && FirstIn(s, 0, Blank) == i && FirstNotIn(s, i + 1, Blank) == u
            && FirstIn(s, u, Blank) == j && FirstNotIn(s, j + 1, Blank) == v
  {
    Slices(d);
    EqFoldNotBlank(d.verb, "GET");
    assert ToLower(d.version[0]) == ToLower("HTTP/1.1"[0]);
    SearchSlices(d.Line(), |d.verb|, d.TargetStart(), d.TargetEnd(), d.VersionStart());
  }

  lemma SearchSlices(s: string, i: nat, u: nat, j: nat, v: nat)
    requires i < u < j < v < |s| && Gap(s[i..u]) && Gap(s[j..v]) && !Is(s[v], Blank)
    requires Free(s[..i], Blank) && Free(s[u..j], Blank)
    ensures FirstIn(s, 0, Blank) == i && FirstNotIn(s, i + 1, Blank) == u
    ensures FirstIn(s, u, Blank) == j && FirstNotIn(s, j + 1, Blank) == v
  {
    assert forall k :: 0 <= k < i ==> s[k] == s[..i][k] && !Is(s[k], Blank);
    assert forall k :: i <= k < u ==> s[k] == s[i..u][k - i] && Is(s[k], Blank);
    assert forall k :: u <= k < j ==> s[k] == s[u..j][k - u] && !Is(s[k], Blank);
    assert forall k :: j <= k < v ==> s[k] == s[j..v][k - j] && Is(s[k], Blank);
    FirstInIs(s, 0, Blank, i);
    FirstNotInIs(s, i + 1, Blank, u);
    FirstInIs(s, u, Blank, j);
    FirstNotInIs(s, j + 1, Blank, v);
  }

  lemma JudgeDerivation(d: Derivation)
    requires Valid(d)
    ensures Judge(d.Line(), |d.verb|, d.TargetStart(), d.TargetEnd(), d.VersionStart())
            == Complete(|d.verb|, d.TargetEnd(), d.VersionStart(), Some(d.TargetStart() + |d.scheme| + |d.authority|), true)
  {
    Slices(d);
    SlashOfTarget(d);
    var k := |d.scheme| + |d.authority|;
    assert d.Line()[d.TargetStart()..d.TargetEnd()][k] == d.Target()[k] == d.path[0];
  }

  /** The parser finds the parts of every derivation. */
  lemma ShapeOfDerivation(d: Derivation)
    requires Valid(d)
    ensures ShapeOf(d.Line()) == Complete(|d.verb|, d.TargetEnd(), d.VersionStart(),
            Some(d.TargetStart() + |d.scheme| + |d.authority|), true)
  {
    Searches(d);
    DerivationFits(d);
    JudgeDerivation(d);
  }

  lemma SplitTarget(t: string) returns (scheme: string, authority: string, path: string)
    requires Slash(t).Some? && Slash(t).value < |t| && t[Slash(t).value] == '/'
    ensures t == scheme + authority + path && path != "" && path[0] == '/'
    ensures (scheme == "" && authority == "") || (EqFold(scheme, "http://") && Free(authority, Slashes))
  {
    var k := Slash(t).value;
    scheme := if HasPrefixFold(t, "http://") then t[..7] else "";
    authority, path := t[|scheme|..k], t[k..];
    if HasPrefixFold(t, "http://") {
      assert forall n :: 0 <= n < |authority| ==> authority[n] == t[7 + n];
    }
  }

  lemma JudgeAccepts(s: string, i: nat, u: nat, j: nat, v: nat)
    requires i < u < j < v <= |s| && Judge(s, i, u, j, v).ok && EqFold(s[..i], "GET") && Gap(s[i..u]) && Gap(s[j..v])
    requires Free(s[u..j], Blank)
    ensures Derivable(s)
  {
    var target := s[u..j];
    JudgedTarget(s, i, u, j, v);
    var scheme, authority, path := SplitTarget(target);
    Assemble(s, i, u, j, v, Derivation(s[..i], s[i..u], scheme, authority, path, s[j..v], s[v..]));
  }

  lemma JudgedTarget(s: string, i: nat, u: nat, j: nat, v: nat)
    requires i < u < j < v <= |s| && Judge(s, i, u, j, v).ok
    ensures var t := s[u..j]; Slash(t).Some? && Slash(t).value < |t| && t[Slash(t).value] == '/' && EqFold(s[v..], "HTTP/1.1")
  {
  }

  lemma Assemble(s: string, i: nat, u: nat, j: nat, v: nat, d: Derivation)
    requires i < u < j < v <= |s| && Valid(d)
    requires d.verb == s[..i] && d.gap1 == s[i..u] && d.Target() == s[u..j] && d.gap2 == s[j..v] && d.version == s[v..]
    ensures Derivable(s)
  {
    assert s[..i] + s[i..u] == s[..u];
    assert s[..u] + s[u..j] == s[..j];
    assert s[..j] + s[j..v] == s[..v];
    assert s[..v] + s[v..] == s;
    assert d.Line() == s;
  }

  /** The slices between the positions the searches find. */
  lemma Searched(s: string, i: nat, u: nat, j: nat, v: nat)
    requires i < |s| && i == FirstIn(s, 0, Blank) && u == FirstNotIn(s, i + 1, Blank)
    requires j < |s| && j == FirstIn(s, u, Blank) && v == FirstNotIn(s, j + 1, Blank)
    ensures u < j && Gap(s[i..u]) && Gap(s[j..v]) && Free(s[u..j], Blank)
  {
  }

  lemma Accepted(s: string) returns (i: nat, u: nat, j: nat, v: nat)
    requires ShapeOf(s).Complete? && ShapeOf(s).ok
    ensures i < |s| && i == FirstIn(s, 0, Blank) && u == FirstNotIn(s, i + 1, Blank)
    ensures u < j < |s| && j == FirstIn(s, u, Blank) && v == FirstNotIn(s, j + 1, Blank)
    ensures EqFold(s[..i], "GET") && Judge(s, i, u, j, v) == ShapeOf(s)
  {
    i := FirstIn(s, 0, Blank);
    u := FirstNotIn(s, i + 1, Blank);
    j := FirstIn(s, u, Blank);
    v := FirstNotIn(s, j + 1, Blank);
    assert u < |s| ==> j > u;
  }

  /** What the parser accepts has a derivation. */
  lemma DerivationOfShape(s: string)
    requires ShapeOf(s).Complete? && ShapeOf(s).ok
    ensures Derivable(s)
  {
    var i, u, j, v := Accepted(s);
    Searched(s, i, u, j, v);
    JudgeAccepts(s, i, u, j, v);
  }

  /** The accepted lines are those of the grammar. */
  lemma AcceptedExactly(s: string)
    ensures ShapeOf(s).Complete? && ShapeOf(s).ok <==> Derivable(s)
  {
    if ShapeOf(s).Complete? && ShapeOf(s).ok {
      DerivationOfShape(s);
    }
    if Derivable(s) {
      var d :| Valid(d) && d.Line() == s;
      ShapeOfDerivation(d);
    }
  }

  lemma CutAround(b: seq<char>, x: nat, y: nat, m: nat, n: nat)
    requires m <= n <= |b| && x < |b| && y < |b| && !(m <= x < n) && !(m <= y < n)
    ensures b[x := NUL][y := NUL][m..n] == b[m..n]
  {
  }

  /** A part that avoids both cuts of a complete line. */
  lemma LinePart(p: Parser, at: nat, i: nat, j: nat, b: seq<char>, m: nat, n: nat)
    requires at <= |p.data| && at + |Str(p.data, at)| < |p.data| && i < j <= |Str(p.data, at)|
    requires b == p.data[at + i := NUL][at + j := NUL]
    requires m <= n <= |Str(p.data, at)| && !(m <= i < n) && !(m <= j < n) && (n == i || n == j || n == |Str(p.data, at)|)
    ensures Str(b, at + m) == Str(p.data, at)[m..n]
  {
    CutAround(p.data, at + i, at + j, at + m, at + n);
    PartStr(p.data, b, at, m, n);
  }

  /**
   A line is accepted if and only if the grammar derives it. The url then points at the path
   of the derivation, the version pointer at its version, and the line start at its method.
   */
  lemma RequestLineTheorem(p: Parser, at: nat)
    requires at <= |p.data| && at + StrLen(p.data, at) < |p.data|
    ensures var s := Str(p.data, at);
            var (r, ok) := ApplyLine(p, at, ShapeOf(s));
            && (ok <==> Derivable(s))
            && forall d | Valid(d) && d.Line() == s ::
                 Text(r, r.url) == Some(d.path) && Text(r, r.version) == Some(d.version) && Text(r, Some(at)) == Some(d.verb)
  {
    var s := Str(p.data, at);
    if ShapeOf(s).Complete? && ShapeOf(s).ok {
      DerivationOfShape(s);
    }
    forall d | Valid(d) && d.Line() == s
      ensures PointsAtParts(p, at, ShapeOf(s), d)
    {
      ShapeOfDerivation(d);
      DerivedLine(p, at, d, ShapeOf(s));
    }
  }

  predicate PointsAtParts(p: Parser, at: nat, shape: LineShape, d: Derivation)
    requires at <= |p.data| && Fits(shape, |p.data| - at)
  {
    var (r, ok) := ApplyLine(p, at, shape);
    ok && r.url.Some? && r.version.Some? && r.url.value <= |r.data| && r.version.value <= |r.data|
    && Str(r.data, r.url.value) == d.path && Str(r.data, r.version.value) == d.version && Str(r.data, at) == d.verb
  }

  lemma PartsPointedAt(p: Parser, at: nat, i: nat, k: nat, j: nat, v: nat, b: seq<char>)
    requires at <= |p.data| && at + |Str(p.data, at)| < |p.data| && i < k <= j < v <= |Str(p.data, at)|
    requires b == p.data[at + i := NUL][at + j := NUL]
    ensures var s := Str(p.data, at); Str(b, at) == s[..i] && Str(b, at + k) == s[k..j] && Str(b, at + v) == s[v..]
  {
    LinePart(p, at, i, j, b, 0, i);
    LinePart(p, at, i, j, b, k, j);
    LinePart(p, at, i, j, b, v, |Str(p.data, at)|);
  }

  lemma PointsThere(p: Parser, at: nat, n: nat, i: nat, k: nat, j: nat, v: nat, d: Derivation)
    requires at + n < |p.data| && i < k <= j < v <= n
    requires var b := p.data[at + i := NUL][at + j := NUL];
             Str(b, at) == d.verb && Str(b, at + k) == d.path && Str(b, at + v) == d.version
    ensures PointsAtParts(p, at, Complete(i, j, v, Some(k), true), d)
  {
    var r := ApplyLine(p, at, Complete(i, j, v, Some(k), true)).0;
    assert r.data == p.data[at + i := NUL][at + j := NUL];
    assert r.url == Some(at + k) && r.version == Some(at + v);
  }

  lemma DerivedLine(p: Parser, at: nat, d: Derivation, shape: LineShape)
    requires Valid(d) && at <= |p.data| && at + |Str(p.data, at)| < |p.data| && Str(p.data, at) == d.Line()
    requires shape == Complete(|d.verb|, d.TargetEnd(), d.VersionStart(),
             Some(d.TargetStart() + |d.scheme| + |d.authority|), true)
    ensures Fits(shape, |p.data| - at) && PointsAtParts(p, at, shape, d)
  {
    PathSlice(d);
    var i, k, j, v := |d.verb|, shape.url.value, d.TargetEnd(), d.VersionStart();
    PartsPointedAt(p, at, i, k, j, v, p.data[at + i := NUL][at + j := NUL]);
    PointsThere(p, at, |d.Line()|, i, k, j, v, d);
  }

  lemma PathSlice(d: Derivation)
    requires Valid(d)
    ensures var s, i, k, j, v := d.Line(), |d.verb|, d.TargetStart() + |d.scheme| + |d.authority|, d.TargetEnd(),
            d.VersionStart();
            i < k < j < v <= |s| && s[..i] == d.verb && s[k..j] == d.path && s[v..] == d.version
  {
  }

  /** For example: letter case is ignored, blanks and tabs come in runs, and the path is what is behind the host. */
  lemma MixedLine(line: string)
    requires line == "gEt\t HTTP://h/x \thttp/1.1"
    ensures ShapeOf(line) == Complete(3, 15, 17, Some(13), true) && line[13..15] == "/x"
  {
    MixedShape(line, Derivation("gEt", "\t ", "HTTP://", "h", "/x", " \t", "http/1.1"));
  }

  lemma MixedShape(line: string, d: Derivation)
    requires d == Derivation("gEt", "\t ", "HTTP://", "h", "/x", " \t", "http/1.1") && line == "gEt\t HTTP://h/x \thttp/1.1"
    ensures ShapeOf(line) == Complete(3, 15, 17, Some(13), true)
  {
    MixedParts(line, d);
    ShapeOfDerivation(d);
  }

  lemma MixedParts(line: string, d: Derivation)
    requires d == Derivation("gEt", "\t ", "HTTP://", "h", "/x", " \t", "http/1.1") && line == "gEt\t HTTP://h/x \thttp/1.1"
    ensures Valid(d) && d.Line() == line && d.TargetStart() == 5 && d.TargetEnd() == 15 && d.VersionStart() == 17
  {
    MixedValid(d);
    assert "gEt" + "\t " + "HTTP://h/x" + " \t" + "http/1.1" == line;
  }

  lemma MixedValid(d: Derivation)
    requires d == Derivation("gEt", "\t ", "HTTP://", "h", "/x", " \t", "http/1.1")
    ensures Valid(d) && d.Target() == "HTTP://h/x"
  {
    assert d.Target() == "HTTP://h/x";
  }
}
