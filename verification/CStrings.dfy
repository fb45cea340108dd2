/**
 The C library string functions the parser calls, over a buffer of bytes.
 A byte is a `char`; a pointer is an index into the buffer.
 */
module CStrings {
  import opened Base

  const NUL: char := '\0'
  const CR: char := '\r'
  const LF: char := '\n'
  const CRLF: string := [CR, LF]

  /** The sets of characters the parser searches for. */
  datatype Class = Blank | Break | Slashes | Space

  predicate Is(c: char, k: Class) {
    match k
    case Blank => c == ' ' || c == '\t'
    case Break => c == CR || c == LF
    case Slashes => c == '/'
    case Space => c == ' ' || '\t' <= c <= '\r'
  }

  predicate NoNul(s: string) {
    forall k :: 0 <= k < |s| ==> s[k] != NUL
  }

  /** Only, or no, characters of the class. */
  predicate Only(s: string, chars: Class) {
    forall k :: 0 <= k < |s| ==> Is(s[k], chars)
  }

  predicate Free(s: string, chars: Class) {
    forall k :: 0 <= k < |s| ==> !Is(s[k], chars)
  }

  /** The number of bytes before the first NUL at or after `i`. */
  function StrLen(b: seq<char>, i: nat): (n: nat)
    requires i <= |b|
    ensures i + n <= |b|
    ensures forall k :: i <= k < i + n ==> b[k] != NUL
    ensures i + n < |b| ==> b[i + n] == NUL
    decreases |b| - i
  {
    if i == |b| || b[i] == NUL then 0 else 1 + StrLen(b, i + 1)
  }

  /** The NUL-terminated string at index `i`. */
  function Str(b: seq<char>, i: nat): (s: string)
    requires i <= |b|
    ensures NoNul(s) && i + |s| <= |b| && |s| == StrLen(b, i)
    ensures i + |s| < |b| ==> b[i + |s|] == NUL
  {
    b[i..i + StrLen(b, i)]
  }

  /** The first position from `i` on holding a character of the class, or the length (strpbrk, strchr). */
  function FirstIn(s: string, i: nat, chars: Class): (n: nat)
    requires i <= |s|
    ensures i <= n <= |s|
    ensures forall k :: i <= k < n ==> !Is(s[k], chars)
    ensures n < |s| ==> Is(s[n], chars)
    decreases |s| - i
  {
    if i == |s| || Is(s[i], chars) then i else FirstIn(s, i + 1, chars)
  }

  /** The first position from `i` on not holding a character of the class, or the length (strspn). */
  function FirstNotIn(s: string, i: nat, chars: Class): (n: nat)
    requires i <= |s|
    ensures i <= n <= |s|
    ensures forall k :: i <= k < n ==> Is(s[k], chars)
    ensures n < |s| ==> !Is(s[n], chars)
    decreases |s| - i
  {
    if i == |s| || !Is(s[i], chars) then i else FirstNotIn(s, i + 1, chars)
  }

  /** strpbrk and strchr: the first such character before the NUL; None is the null pointer. */
  function StrPBrk(b: seq<char>, i: nat, chars: Class): (r: Option<nat>)
    requires i <= |b|
    ensures r.Some? ==> i <= r.value < |b|
    decreases |b| - i
  {
    if i == |b| || b[i] == NUL then None
    else if Is(b[i], chars) then Some(i)
    else StrPBrk(b, i + 1, chars)
  }

  /** strspn: how many such characters come first. */
  function StrSpn(b: seq<char>, i: nat, chars: Class): (n: nat)
    requires i <= |b|
    ensures i + n <= |b|
    decreases |b| - i
  {
    if i == |b| || b[i] == NUL || !Is(b[i], chars) then 0 else 1 + StrSpn(b, i + 1, chars)
  }

  function ToLower(c: char): char {
    if 'A' <= c <= 'Z' then c - 'A' + 'a' else c
  }

  /** strcasecmp(s, t) == 0. */
  predicate EqFold(s: string, t: string) {
    |s| == |t| && forall i :: 0 <= i < |s| ==> ToLower(s[i]) == ToLower(t[i])
  }

  /** strncasecmp(s, prefix, strlen(prefix)) == 0. */
  predicate HasPrefixFold(s: string, prefix: string) {
    |prefix| <= |s| && EqFold(s[..|prefix|], prefix)
  }

  /** The same character, or the same letter in the other case; the cases of ASCII are 32 apart. */
  predicate SameLetter(c: char, d: char) {
    c == d || ('A' <= c <= 'Z' && d as int == c as int + 32) || ('A' <= d <= 'Z' && c as int == d as int + 32)
  }

  /** strcasecmp finds two strings equal just if they are of one length and have the same letters. */
  lemma EqFoldExactly(s: string, t: string)
    ensures EqFold(s, t) <==> |s| == |t| && forall i :: 0 <= i < |s| ==> SameLetter(s[i], t[i])
  {
    if |s| == |t| {
      forall i | 0 <= i < |s|
        ensures ToLower(s[i]) == ToLower(t[i]) <==> SameLetter(s[i], t[i])
      {
        FoldsTo(s[i], t[i]);
      }
    }
  }

  lemma FoldsTo(c: char, d: char)
    ensures ToLower(c) == ToLower(d) <==> SameLetter(c, d)
  {
  }

  /** The characters that the strings in the calls of strpbrk, strspn and strchr list, and those that isspace knows. */
  lemma ClassesAre(c: char)
    ensures Is(c, Blank) <==> c in " \t"
    ensures Is(c, Slashes) <==> c in "/"
    ensures Is(c, Break) <==> c in "\r\n"
    ensures Is(c, Space) <==> c in " \t\n\r\U{0B}\U{0C}"
  {
  }

  function DigitsValue(s: string, acc: nat): nat {
    if s != [] && '0' <= s[0] <= '9'
    then DigitsValue(s[1..], 10 * acc + (s[0] - '0') as nat)
    else acc
  }

  function Clamp(x: int, lo: int, hi: int): int {
    if x < lo then lo else if x > hi then hi else x
  }

  /** A 64-bit long stored into a 32-bit int. */
  function ToInt32(x: int): int {
    (x + 0x8000_0000) % 0x1_0000_0000 - 0x8000_0000
  }

  /** atol, saturating at the range of a 64-bit long, narrowed to int. */
  function AtoI(s: string): int {
    var t := s[FirstNotIn(s, 0, Space)..];
    var magnitude := if t != [] && (t[0] == '-' || t[0] == '+') then DigitsValue(t[1..], 0) else DigitsValue(t, 0);
    var value := if t != [] && t[0] == '-' then -magnitude else magnitude;
    ToInt32(Clamp(value, -0x8000_0000_0000_0000, 0x7fff_ffff_ffff_ffff))
  }

  /** A string that ends in the buffer is unaffected by what follows its terminator. */
  lemma {:induction false} StrStable(b: seq<char>, c: seq<char>, i: nat, n: nat)
    requires i < n <= |b| && n <= |c| && b[..n] == c[..n]
    requires exists k :: i <= k < n && b[k] == NUL
    ensures StrLen(b, i) == StrLen(c, i) && Str(b, i) == Str(c, i)
    ensures i + StrLen(b, i) < n
    decreases n - i
  {
    assert forall k :: 0 <= k < n ==> b[k] == b[..n][k] == c[..n][k] == c[k];
    if b[i] != NUL {
      StrStable(b, c, i + 1, n);
    }
    assert Str(b, i) == b[..n][i..i + StrLen(b, i)];
    assert Str(c, i) == c[..n][i..i + StrLen(c, i)];
  }

  /** The string at `i` is the one whose bytes are listed, when a NUL follows them. */
  lemma {:induction false} StrIs(b: seq<char>, i: nat, s: string)
    requires i + |s| < |b| && b[i..i + |s|] == s && NoNul(s) && b[i + |s|] == NUL
    ensures Str(b, i) == s
  {
    assert forall k :: i <= k < i + |s| ==> b[k] == b[i..i + |s|][k - i] == s[k - i];
    assert StrLen(b, i) == |s|;
  }

  /** A search ends where a caller can see it must. */
  lemma FirstInIs(s: string, i: nat, chars: Class, n: nat)
    requires i <= n <= |s| && (forall k :: i <= k < n ==> !Is(s[k], chars)) && (n < |s| ==> Is(s[n], chars))
    ensures FirstIn(s, i, chars) == n
  {
  }

  lemma FirstNotInIs(s: string, i: nat, chars: Class, n: nat)
    requires i <= n <= |s| && (forall k :: i <= k < n ==> Is(s[k], chars)) && (n < |s| ==> !Is(s[n], chars))
    ensures FirstNotIn(s, i, chars) == n
  {
  }

  /** Positions [m..n) of the string `s` stand at `at` in the buffer, and a NUL behind them. */
  predicate LineAt(b: seq<char>, at: nat, s: string, m: nat, n: nat) {
    && m <= n <= |s| && at + n < |b| && NoNul(s)
    && (forall k :: m <= k < n ==> b[at + k] == s[k]) && b[at + n] == NUL
  }

  /** Searching from a pointer is searching from an index of the string. */
  lemma {:induction false} FindFrom(b: seq<char>, at: nat, s: string, m: nat, chars: Class)
    requires LineAt(b, at, s, m, |s|)
    ensures StrPBrk(b, at + m, chars) == var n := FirstIn(s, m, chars); if n == |s| then None else Some(at + n)
    ensures m + StrSpn(b, at + m, chars) == FirstNotIn(s, m, chars)
    decreases |s| - m
  {
    if m < |s| {
      FindFrom(b, at, s, m + 1, chars);
    }
  }

  lemma LineStr(b: seq<char>, at: nat, s: string, m: nat, n: nat)
    requires LineAt(b, at, s, m, n)
    ensures Str(b, at + m) == s[m..n]
  {
    StrIs(b, at + m, s[m..n]);
  }

  /** A part [m..n) of the string at `at` is still there in `c` if a NUL stands behind it. */
  lemma PartStr(b: seq<char>, c: seq<char>, at: nat, m: nat, n: nat)
    requires at <= |b| && m <= n <= |Str(b, at)| && at + n < |c|
    requires c[at + m..at + n] == b[at + m..at + n] && c[at + n] == NUL
    ensures Str(c, at + m) == Str(b, at)[m..n]
  {
    var s := Str(b, at);
    assert forall k :: 0 <= k < n - m ==> s[m..n][k] == s[m + k] == b[at + m + k];
    assert s[m..n] == b[at + m..at + n];
    StrIs(c, at + m, s[m..n]);
  }

  /** A string equal to one without blanks, up to case, has none either. */
  lemma EqFoldNotBlank(s: string, t: string)
    requires EqFold(s, t) && Free(t, Blank)
    ensures Free(s, Blank)
  {
  }

  lemma NotPrefix(s: string, prefix: string)
    requires s != "" && prefix != "" && ToLower(s[0]) != ToLower(prefix[0])
    ensures !HasPrefixFold(s, prefix)
  {
    if |prefix| <= |s| {
      assert s[..|prefix|][0] == s[0];
    }
  }
}
