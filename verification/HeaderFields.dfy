/** What the header fields that the parser knows mean to it. */
module HeaderFields {
  import opened CStrings
  import opened RequestParser
  import opened ResponseFraming

  predicate AllDigits(s: string) {
    forall k :: 0 <= k < |s| ==> '0' <= s[k] <= '9'
  }

  lemma {:induction false} ValueAppended(s: string, c: char, acc: nat)
    requires AllDigits(s) && '0' <= c <= '9'
    ensures DigitsValue(s + [c], acc) == 10 * DigitsValue(s, acc) + (c - '0') as nat
    decreases |s|
  {
    if s == [] {
      assert (s + [c])[1..] == [];
    } else {
      assert (s + [c])[1..] == s[1..] + [c];
      ValueAppended(s[1..], c, 10 * acc + (s[0] - '0') as nat);
    }
  }

  /** Reading the digits of a number gives the number. */
  lemma {:induction false} ValueOfDigits(n: nat)
    ensures DigitsValue(Digits(n), 0) == n && AllDigits(Digits(n)) && Digits(n) != ""
  {
    if n >= 10 {
      ValueOfDigits(n / 10);
      ValueAppended(Digits(n / 10), Digit(n % 10), 0);
    } else {
      assert [Digit(n)][1..] == [];
    }
  }

  // ----- atol

  lemma {:induction false} DigitsUpTo(digits: string, rest: string, acc: nat)
    requires AllDigits(digits) && (rest != "" ==> !('0' <= rest[0] <= '9'))
    ensures DigitsValue(digits + rest, acc) == DigitsValue(digits, acc)
    decreases |digits|
  {
    if digits == "" {
      assert digits + rest == rest;
    } else {
      assert (digits + rest)[1..] == digits[1..] + rest;
      DigitsUpTo(digits[1..], rest, 10 * acc + (digits[0] - '0') as nat);
    }
  }

  /** The narrowing keeps what fits an int, and else what is equal modulo 2^32. */
  lemma Narrowing(n: int)
    ensures -0x8000_0000 <= ToInt32(n) < 0x8000_0000 && (ToInt32(n) - n) % 0x1_0000_0000 == 0
  {
    var m := (n + 0x8000_0000) % 0x1_0000_0000;
    assert n + 0x8000_0000 == (n + 0x8000_0000) / 0x1_0000_0000 * 0x1_0000_0000 + m;
  }

  function Signed(sign: string, n: nat): int {
    if sign == "-" then 0 - n else n
  }

  lemma SpaceSkipped(space: string, t: string)
    requires Only(space, Space) && (t != "" ==> !Is(t[0], Space))
    ensures var text := space + t; FirstNotIn(text, 0, Space) == |space| && text[|space|..] == t
  {
    var text := space + t;
    assert forall k :: 0 <= k < |space| ==> text[k] == space[k];
    assert t != "" ==> text[|space|] == t[0];
    FirstNotInIs(text, 0, Space, |space|);
  }

  lemma NumberRead(sign: string, digits: string, n: nat, rest: string)
    requires sign == "" || sign == "+" || sign == "-"
    requires AllDigits(digits) && digits != "" && DigitsValue(digits, 0) == n && (rest != "" ==> !('0' <= rest[0] <= '9'))
    ensures var t := sign + (digits + rest);
            !Is(t[0], Space) && (if t[0] == '-' || t[0] == '+' then DigitsValue(t[1..], 0) else DigitsValue(t, 0)) == n
            && (t[0] == '-' <==> sign == "-")
  {
    var t := sign + (digits + rest);
    DigitsUpTo(digits, rest, 0);
    if sign == "" {
      assert t == digits + rest && t[0] == digits[0];
    } else {
      assert t[1..] == digits + rest;
    }
  }

  lemma AtoIOf(text: string, t: string, sign: string, n: nat)
    requires text[FirstNotIn(text, 0, Space)..] == t != ""
    requires (if t[0] == '-' || t[0] == '+' then DigitsValue(t[1..], 0) else DigitsValue(t, 0)) == n
    requires t[0] == '-' <==> sign == "-"
    ensures AtoI(text) == ToInt32(Clamp(Signed(sign, n), -0x8000_0000_0000_0000, 0x7fff_ffff_ffff_ffff))
  {
  }

  lemma AtoIDigits(space: string, sign: string, digits: string, n: nat, rest: string)
    requires Only(space, Space) && (sign == "" || sign == "+" || sign == "-")
    requires AllDigits(digits) && digits != "" && DigitsValue(digits, 0) == n && (rest != "" ==> !('0' <= rest[0] <= '9'))
    ensures AtoI(space + (sign + (digits + rest)))
            == ToInt32(Clamp(Signed(sign, n), -0x8000_0000_0000_0000, 0x7fff_ffff_ffff_ffff))
  {
    var t := sign + (digits + rest);
    NumberRead(sign, digits, n, rest);
    SpaceSkipped(space, t);
    AtoIOf(space + t, t, sign, n);
  }

  lemma AtoIText(space: string, sign: string, n: nat, rest: string)
    requires Only(space, Space) && (sign == "" || sign == "+" || sign == "-")
    requires rest != "" ==> !('0' <= rest[0] <= '9')
    ensures AtoI(space + sign + Digits(n) + rest)
            == ToInt32(Clamp(Signed(sign, n), -0x8000_0000_0000_0000, 0x7fff_ffff_ffff_ffff))
  {
    var digits := Digits(n);
    ValueOfDigits(n);
    AtoIDigits(space, sign, digits, n, rest);
    Grouped(space, sign, digits, rest);
  }

  lemma Grouped(a: string, b: string, c: string, d: string)
    ensures a + b + c + d == a + (b + (c + d))
  {
  }

  /**
   What atol makes of any text with a number in front, that is, space, a sign, digits, and anything behind them: the
   int equal to the number modulo 2^32, or, for one beyond the range of a long, what is left of the end of that range.
   */
  lemma AtoIReads(space: string, sign: string, n: nat, rest: string)
    requires Only(space, Space) && (sign == "" || sign == "+" || sign == "-")
    requires rest != "" ==> !('0' <= rest[0] <= '9')
    ensures var r := AtoI(space + sign + Digits(n) + rest);
            && -0x8000_0000 <= r < 0x8000_0000
            && (n < 0x8000_0000_0000_0000 ==> (r - Signed(sign, n)) % 0x1_0000_0000 == 0)
            && (n >= 0x8000_0000_0000_0000 ==> r == if sign == "-" then 0 else -1)
  {
    AtoIText(space, sign, n, rest);
    Narrowing(Signed(sign, n));
  }

  /** Text without a number is zero. */
  lemma AtoIOfNoNumber(s: string)
    requires s != "" ==> !('0' <= s[0] <= '9') && s[0] != '+' && s[0] != '-' && !Is(s[0], Space)
    ensures AtoI(s) == 0
  {
    FirstNotInIs(s, 0, Space, 0);
    assert s[0..] == s;
  }

  /** atol undoes printf for every int. */
  lemma AtoIOfDec(n: int)
    requires -0x8000_0000 <= n < 0x8000_0000
    ensures AtoI(Dec(n)) == n
  {
    var sign := if n < 0 then "-" else "";
    var digits := Digits(if n < 0 then -n else n);
    assert "" + sign + digits + "" == Dec(n);
    AtoIText("", sign, if n < 0 then -n else n, "");
  }

  /** A header field: its name with the colon, any blanks, and a value that does not start with one. */
  predicate FieldParts(line: string, name: string, gap: string, value: string) {
    && line == name + gap + value && Only(gap, Blank) && (value != "" ==> !Is(value[0], Blank))
  }

  lemma PartsOf(line: string, name: string, gap: string, value: string)
    requires FieldParts(line, name, gap, value)
    ensures line[..|name|] == name && line[|name| + |gap|..] == value && FirstNotIn(line, |name|, Blank) == |name| + |gap|
  {
    assert line[..|name|] == name;
    assert line[|name| + |gap|..] == value;
    assert forall k :: |name| <= k < |name| + |gap| ==> line[k] == gap[k - |name|];
    assert value != "" ==> line[|name| + |gap|] == value[0];
    FirstNotInIs(line, |name|, Blank, |name| + |gap|);
  }

  /** A line starts with a name, up to case, if its own name is the same up to case. */
  lemma NameRead(line: string, name: string, known: string)
    requires |name| <= |line| && line[..|name|] == name && EqFold(name, known)
    ensures HasPrefixFold(line, known)
  {
  }

  lemma OtherName(line: string, name: string, known: string, other: string)
    requires name != "" && |name| <= |line| && line[..|name|] == name && EqFold(name, known)
    requires other != "" && ToLower(other[0]) != ToLower(known[0])
    ensures !HasPrefixFold(line, other)
  {
    assert line[0] == name[0];
    NotPrefix(line, other);
  }

  /** A Content-Length field sets the length to what atol makes of its value. */
  lemma LengthField(line: string, name: string, gap: string, value: string)
    requires FieldParts(line, name, gap, value) && EqFold(name, "Content-Length:")
    ensures EffectOf(line) == SetLength(AtoI(value))
  {
    PartsOf(line, name, gap, value);
    NameRead(line, name, "Content-Length:");
    OtherName(line, name, "Content-Length:", "Proxy-Connection:");
  }

  /** A Host field has the host at its value. */
  lemma HostField(line: string, name: string, gap: string, value: string)
    requires FieldParts(line, name, gap, value) && EqFold(name, "Host:")
    ensures EffectOf(line) == SetHost(|name| + |gap|) && line[|name| + |gap|..] == value
  {
    PartsOf(line, name, gap, value);
    NameRead(line, name, "Host:");
    OtherName(line, name, "Host:", "Proxy-Connection:");
    OtherName(line, name, "Host:", "Content-Length:");
  }

  /** Proxy-Connection clears linger for every value but keep-alive. */
  lemma ConnectionField(line: string, name: string, gap: string, value: string)
    requires FieldParts(line, name, gap, value) && EqFold(name, "Proxy-Connection:")
    ensures EffectOf(line) == if EqFold(value, "keep-alive") then Nothing else NoKeepAlive
  {
    PartsOf(line, name, gap, value);
    NameRead(line, name, "Proxy-Connection:");
  }

  predicate NoColon(s: string) {
    forall k :: 0 <= k < |s| ==> s[k] != ':'
  }

  lemma ColonAt(line: string, known: string)
    requires HasPrefixFold(line, known + ":") && NoColon(known)
    ensures line[|known|] == ':' && forall k :: 0 <= k < |known| ==> line[k] != ':' && ToLower(line[k]) == ToLower(known[k])
  {
    var start := line[..|known| + 1];
    forall k | 0 <= k <= |known|
      ensures ToLower(line[k]) == ToLower((known + ":")[k])
    {
      assert start[k] == line[k];
    }
    assert forall k :: 0 <= k < |known| ==> (known + ":")[k] == known[k];
  }

  /** strncasecmp with a name and its colon compares the whole name. */
  lemma WholeName(line: string, name: string, rest: string, known: string)
    requires NoColon(name) && NoColon(known) && line == name + ":" + rest
    ensures HasPrefixFold(line, known + ":") <==> EqFold(name, known)
  {
    assert line[|name|] == ':' && forall k :: 0 <= k < |name| ==> line[k] == name[k];
    if HasPrefixFold(line, known + ":") {
      ColonAt(line, known);
      assert |name| == |known|;
    }
  }

  lemma NoName(line: string, known: string)
    requires NoColon(line) && NoColon(known)
    ensures !HasPrefixFold(line, known + ":")
  {
    if HasPrefixFold(line, known + ":") {
      ColonAt(line, known);
    }
  }

  /** A field has an effect by its whole name, up to case, and only then; a line without a colon has none. */
  lemma EffectByName(line: string, name: string, rest: string)
    requires NoColon(name) && (line == name + ":" + rest || (line == name != "" && rest == ""))
    ensures var named := line != name;
            && (EffectOf(line).SetHost? <==> named && EqFold(name, "Host"))
            && (EffectOf(line).SetLength? <==> named && EqFold(name, "Content-Length"))
            && (EffectOf(line).NoKeepAlive? ==> named && EqFold(name, "Proxy-Connection"))
            && !EffectOf(line).EndOfHeaders?
  {
    assert "Host" + ":" == "Host:" && "Content-Length" + ":" == "Content-Length:"
           && "Proxy-Connection" + ":" == "Proxy-Connection:";
    if line == name {
      NoName(line, "Host");
      NoName(line, "Content-Length");
      NoName(line, "Proxy-Connection");
    } else {
      WholeName(line, name, rest, "Host");
      WholeName(line, name, rest, "Content-Length");
      WholeName(line, name, rest, "Proxy-Connection");
      if EqFold(name, "Host") {
        assert ToLower(name[0]) == 'h';
      } else if EqFold(name, "Content-Length") {
        assert ToLower(name[0]) == 'c';
      } else if EqFold(name, "Proxy-Connection") {
        assert ToLower(name[0]) == 'p';
      }
    }
  }

  lemma DecStarts(n: int)
    ensures Dec(n) != "" && !Is(Dec(n)[0], Blank)
  {
    ValueOfDigits(if n < 0 then -n else n);
  }

  /** A Content-Length that fits an int is taken at its value. */
  lemma ContentLengthRead(name: string, gap: string, n: int)
    requires EqFold(name, "Content-Length:") && Only(gap, Blank) && -0x8000_0000 <= n < 0x8000_0000
    ensures EffectOf(name + gap + Dec(n)) == SetLength(n)
  {
    DecStarts(n);
    AtoIOfDec(n);
    LengthField(name + gap + Dec(n), name, gap, Dec(n));
  }
}
