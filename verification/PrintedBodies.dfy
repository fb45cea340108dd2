/** Printed requests that declare a body: what a split of the stream, and a negative length, do to them. */
module PrintedBodies {
  import opened Base
  import opened CStrings
  import opened RequestParser
  import opened ParserChunking
  import opened ParserLines
  import opened ParserReads
  import opened ResponseFraming
  import opened HttpClient
  import opened HeaderFields

  /**
   For a printed request with a body behind it, TCP's cuts make no difference if and only if the head alone is too
   long for the buffer, or all fits and the fields do not declare a body of which all has arrived.
   */
  lemma ChunkingOfPrinted(url: string, host: HostLine, fields: seq<string>, body: seq<char>)
    requires UrlOk(url) && HostOk(host) && forall i :: 0 <= i < |fields| ==> Field(fields[i])
    ensures var head := Print(url, host, fields);
            CutsIrrelevant(Init, head + body)
            <==> |head| > READ_BUFFER_SIZE
                 || (|head + body| <= READ_BUFFER_SIZE && !(0 < Effects(DEFAULTS, fields).length <= |body|))
  {
    var head := Print(url, host, fields);
    InitSettled();
    ReadsTheorem(Init, head + body);
    PrintedIsAnswered(url, host, fields, body);
  }

  /** A Content-Length line: the name in any case, blanks or none, and the number. */
  function LengthLine(name: string, gap: string, n: int): string {
    name + gap + Dec(n)
  }

  predicate LengthOk(name: string, gap: string) {
    EqFold(name, "Content-Length:") && Only(gap, Blank)
  }

  lemma DecChars(n: int)
    ensures LineChars(Dec(n))
  {
    ValueOfDigits(if n < 0 then -n else n);
    if n < 0 {
      LineCharsJoin("-", Digits(-n));
    }
  }

  lemma OneField(line: string, n: int)
    requires LineChars(line) && EffectOf(line) == SetLength(n)
    ensures Field(line) && Effects(DEFAULTS, [line]) == Options(n, true)
  {
    assert [line][1..] == [];
  }

  lemma LengthLineChars(name: string, gap: string, n: int)
    requires LengthOk(name, gap)
    ensures LineChars(LengthLine(name, gap, n))
  {
    FoldChars(name, "Content-Length:");
    DecChars(n);
    LineCharsJoin(name, gap);
    LineCharsJoin(name + gap, Dec(n));
  }

  lemma LengthLineIs(name: string, gap: string, n: int)
    requires LengthOk(name, gap) && -0x8000_0000 <= n < 0x8000_0000
    ensures Field(LengthLine(name, gap, n)) && Effects(DEFAULTS, [LengthLine(name, gap, n)]) == Options(n, true)
  {
    ContentLengthRead(name, gap, n);
    LengthLineChars(name, gap, n);
    OneField(LengthLine(name, gap, n), n);
  }

  /** Some read ends within this part of the stream. */
  ghost predicate ReadEndsIn(chunks: seq<seq<char>>, from: int, to: int) {
    exists i :: 0 <= i <= |chunks| && from <= Upto(chunks, i) < to
  }

  lemma NoEarlierEnd(chunks: seq<seq<char>>, i: nat, from: int)
    requires i <= |chunks| && (forall j :: 0 <= j < i ==> Upto(chunks, j) < from) && from <= Upto(chunks, i) <= |Concat(chunks)|
    ensures ReadEndsIn(chunks, from, |Concat(chunks)|) <==> Upto(chunks, i) < |Concat(chunks)|
  {
    forall j | i <= j <= |chunks|
      ensures Upto(chunks, i) <= Upto(chunks, j)
    {
      UptoGrows(chunks, i, j);
    }
  }

  /** The read that decides on a head. */
  lemma HeadRead(head: seq<char>, body: seq<char>, chunks: seq<seq<char>>, whole: (Parser, Outcome)) returns (i: nat, k: nat)
    requires Arrivals(chunks) && Concat(chunks) == head + body
    requires whole == Run(Feed(Init, head + body)) && !whole.1.Pending? && whole.0.checked == |head|
    ensures Receive(Init, chunks).Some? <==> SomeReadDecides(chunks, |head|, READ_BUFFER_SIZE)
    ensures Receive(Init, chunks).Some? ==>
              && i <= |chunks| && k <= |body| && Upto(chunks, i) == |head| + k
              && (forall j :: 0 <= j < i ==> Upto(chunks, j) < |head|)
              && Receive(Init, chunks).value == Run(Feed(Init, head + body[..k]))
  {
    InitSettled();
    HeadReached(head, body, chunks, whole);
    i, k := 0, 0;
    if Receive(Init, chunks).Some? {
      i, k := HeadCut(Init, head, body, chunks, whole, Receive(Init, chunks).value);
    }
  }

  lemma HeadReached(head: seq<char>, body: seq<char>, chunks: seq<seq<char>>, whole: (Parser, Outcome))
    requires Arrivals(chunks) && Concat(chunks) == head + body
    requires whole == Run(Feed(Init, head + body)) && !whole.1.Pending? && whole.0.checked == |head|
    ensures Receive(Init, chunks).Some? <==> SomeReadDecides(chunks, |head|, READ_BUFFER_SIZE)
  {
    InitSettled();
    ReceivedExactly(Init, chunks);
  }

  /**
   A printed request and a body behind it, cut into reads in any way, are answered if and only if some read ends
   behind the head and within the buffer; and then as if just `k` bytes of the body had come: all of it, unless some
   read ends between the head and the end of the body.
   */
  lemma PrintedReceived(url: string, host: HostLine, fields: seq<string>, body: seq<char>, chunks: seq<seq<char>>)
    returns (k: nat)
    requires UrlOk(url) && HostOk(host) && forall i :: 0 <= i < |fields| ==> Field(fields[i])
    requires Concat(chunks) == Print(url, host, fields) + body && Arrivals(chunks)
    ensures var head, r := Print(url, host, fields), Receive(Init, chunks);
            && (r.Some? <==> SomeReadDecides(chunks, |head|, READ_BUFFER_SIZE))
            && (r.Some? ==>
                  k <= |body| && (k < |body| <==> ReadEndsIn(chunks, |head|, |head + body|))
                  && Answered(r.value, url, host, Effects(DEFAULTS, fields), |head|, body[..k]))
  {
    var head := Print(url, host, fields);
    PrintedIsAnswered(url, host, fields, body);
    var i;
    i, k := HeadRead(head, body, chunks, Run(Feed(Init, head + body)));
    if Receive(Init, chunks).Some? {
      NoEarlierEnd(chunks, i, |head|);
      PrintedIsAnswered(url, host, fields, body[..k]);
    }
  }

  /**
   So a request with a body and its length, if it is answered, is served if no read ends between the head and the end
   of the body; if one does, INTERNAL_ERROR results.
   */
  lemma BodySent(url: string, host: HostLine, name: string, gap: string, body: seq<char>, chunks: seq<seq<char>>)
    requires UrlOk(url) && HostOk(host) && LengthOk(name, gap) && body != [] && Arrivals(chunks) && |Concat(chunks)| < 0x8000_0000
    requires Concat(chunks) == Print(url, host, [LengthLine(name, gap, |body|)]) + body
    ensures var head, r := |Concat(chunks)| - |body|, Receive(Init, chunks);
            && (r.Some? <==> SomeReadDecides(chunks, head, READ_BUFFER_SIZE))
            && (r.Some? ==> if ReadEndsIn(chunks, head, |Concat(chunks)|) then r.value.1.Internal?
                            else Served(r.value, url, host.value, true))
  {
    LengthLineIs(name, gap, |body|);
    var k := PrintedReceived(url, host, [LengthLine(name, gap, |body|)], body, chunks);
  }

  /** Where the NUL goes that a printed length puts at the end of the body, or before the end of the head. */
  function Hole(url: string, host: HostLine, fields: seq<string>): int {
    |Print(url, host, fields)| + Effects(DEFAULTS, fields).length
  }

  /**
   A printed negative length, however the request is cut into reads: if it is answered and the NUL is to go before the
   buffer, nothing is defined. Otherwise do_request is reached, and the url it is given is the printed one if and only
   if the NUL is not within it; so for the host.
   */
  lemma NegativeLength(url: string, host: HostLine, fields: seq<string>, body: seq<char>, chunks: seq<seq<char>>)
    requires UrlOk(url) && HostOk(host) && forall i :: 0 <= i < |fields| ==> Field(fields[i])
    requires Concat(chunks) == Print(url, host, fields) + body && Arrivals(chunks)
    requires Effects(DEFAULTS, fields).length < 0 && Receive(Init, chunks).Some?
    ensures var hole, r := Hole(url, host, fields), Receive(Init, chunks).value;
            && r.1 == (if hole < 0 then Stray else Ready)
            && (0 <= hole ==>
                  (Text(r.0, r.0.url) == Some(url) <==> !(URL_AT <= hole < URL_AT + |url|))
                  && (Text(r.0, r.0.host) == Some(host.value) <==> !(HostAt(url, host) <= hole < HostAt(url, host) + |host.value|)))
  {
    var k := PrintedReceived(url, host, fields, body, chunks);
  }

  /** A length that is not negative is undefined only where the end of the body is no int. */
  lemma PositiveLength(url: string, host: HostLine, fields: seq<string>, body: seq<char>, chunks: seq<seq<char>>)
    requires UrlOk(url) && HostOk(host) && forall i :: 0 <= i < |fields| ==> Field(fields[i])
    requires Concat(chunks) == Print(url, host, fields) + body && Arrivals(chunks)
    requires Effects(DEFAULTS, fields).length >= 0 && Receive(Init, chunks).Some?
    ensures Receive(Init, chunks).value.1.Stray? <==> Hole(url, host, fields) >= 0x8000_0000
  {
    var k := PrintedReceived(url, host, fields, body, chunks);
  }

  lemma ShortDec()
    ensures Dec(-42) == "-42" && Dec(-3500) == "-3500"
  {
    assert Digits(42) == Digits(4) + [Digit(2)];
    assert Digits(35) == Digits(3) + [Digit(5)];
    assert Digits(350) == Digits(35) + [Digit(0)];
    assert Digits(3500) == Digits(350) + [Digit(0)];
  }

  /** The lines of a short request. */
  const NO_HOST: HostLine := HostLine("Host:", "", "")

  function LengthIs(n: int): string {
    LengthLine("Content-Length:", "", n)
  }

  lemma ShortRequest(n: int)
    ensures UrlOk("/ab") && HostOk(NO_HOST) && |Print("/ab", NO_HOST, [LengthIs(n)])| == 44 + |Dec(n)|
  {
    PrintedLength("/ab", NO_HOST, [LengthIs(n)]);
    TailIs([LengthIs(n)], []);
    TailIs([], []);
    assert [LengthIs(n)][1..] == [];
  }

  lemma ShortReceived(n: int, chunks: seq<seq<char>>) returns (hole: int)
    requires n == -42 || n == -3500
    requires Concat(chunks) == Print("/ab", NO_HOST, [LengthIs(n)]) && Arrivals(chunks)
    ensures hole == 44 + |Dec(n)| + n == Hole("/ab", NO_HOST, [LengthIs(n)])
    ensures Receive(Init, chunks).Some?
            && Answered(Receive(Init, chunks).value, "/ab", NO_HOST, Options(n, true), 44 + |Dec(n)|, [])
  {
    ShortDec();
    ShortRequest(n);
    LengthLineIs("Content-Length:", "", n);
    var s := Print("/ab", NO_HOST, [LengthIs(n)]);
    assert s + [] == s;
    ReceiveFits(Init, chunks);
    var k := PrintedReceived("/ab", NO_HOST, [LengthIs(n)], [], chunks);
    hole := Hole("/ab", NO_HOST, [LengthIs(n)]);
  }

  /** With this request the NUL falls into the url: do_request sees "/" instead of "/ab". */
  lemma UrlCutShort(chunks: seq<seq<char>>)
    requires Concat(chunks) == Print("/ab", NO_HOST, [LengthIs(-42)]) && Arrivals(chunks)
    ensures var r := Receive(Init, chunks); r.Some? && r.value.1.Ready? && Text(r.value.0, r.value.0.url) == Some("/")
  {
    ShortDec();
    var hole := ShortReceived(-42, chunks);
    assert "/ab"[..1] == "/";
  }

  /** And with this one it falls before the buffer, where other connections may be. */
  lemma WriteAstray(chunks: seq<seq<char>>)
    requires Concat(chunks) == Print("/ab", NO_HOST, [LengthIs(-3500)]) && Arrivals(chunks)
    ensures var r := Receive(Init, chunks); r.Some? && r.value.1.Stray?
  {
    ShortDec();
    var hole := ShortReceived(-3500, chunks);
  }
}
