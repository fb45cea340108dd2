/** What a recipient reads in the head of a response, besides its length: section 3.1.2 and section 6.1 of RFC 7230. */
module ResponseReading {
  import opened Base
  import opened CStrings
  import opened HttpCodes
  import opened ResponseFraming

  /** The status of a status line, version SP status SP reason, of version HTTP/1.1. */
  function StatusOf(line: string): Option<nat> {
    if "HTTP/1.1 " <= line then ReadDec(line[9..FirstIn(line, 9, Blank)]) else None
  }

  function ReasonOf(line: string): string {
    if "HTTP/1.1 " <= line && FirstIn(line, 9, Blank) < |line| then line[FirstIn(line, 9, Blank) + 1..] else ""
  }

  /** The value of the first field with this name, colon and blank. */
  function ValueOf(fields: seq<string>, name: string): Option<string> {
    if fields == [] then None
    else if name <= fields[0] then Some(fields[0][|name|..])
    else ValueOf(fields[1..], name)
  }

  /** The connection is to stay open after the response; or to be closed. */
  predicate KeepsOpen(head: seq<string>) {
    head != [] && ValueOf(head[1..], "Connection: ") == Some("keep-alive")
  }

  predicate Closes(head: seq<string>) {
    head != [] && ValueOf(head[1..], "Connection: ") == Some("close")
  }

  lemma NotNamed(line: string, name: string)
    requires |line| > 3 && |name| > 3 && line[3] != name[3]
    ensures !(name <= line)
  {
  }

  lemma StatusRead(status: nat, title: string)
    ensures StatusOf(StatusLine(status, title)) == Some(status) && ReasonOf(StatusLine(status, title)) == title
  {
    var line, digits := StatusLine(status, title), Digits(status);
    ReadDigits(status);
    DigitsNoBlank(status);
    assert line[..9] == "HTTP/1.1 " && line[9..9 + |digits|] == digits && line[9 + |digits|] == ' ';
    assert forall k :: 9 <= k < 9 + |digits| ==> line[k] == digits[k - 9];
    FirstInIs(line, 9, Blank, 9 + |digits|);
    assert line[9 + |digits| + 1..] == title;
  }

  lemma {:induction false} DigitsNoBlank(n: nat)
    ensures Free(Digits(n), Blank)
  {
    if n >= 10 {
      DigitsNoBlank(n / 10);
    }
  }

  lemma LastField(a: string, b: string, name: string, value: string)
    requires !(name <= a) && b == name + value
    ensures ValueOf([a, b], name) == Some(value)
  {
    assert [a, b][1..] == [b] && b[..|name|] == name && b[|name|..] == value;
    assert ValueOf([b], name) == Some(value);
  }

  lemma ConnectionRead(status: nat, title: string, length: int, linger: bool)
    ensures var head := Head(status, title, length, linger); (KeepsOpen(head) <==> linger) && (Closes(head) <==> !linger)
  {
    var head := Head(status, title, length, linger);
    assert head[1..] == [head[1], head[2]];
    assert head[1][3] == 't' && "Connection: "[3] == 'n';
    NotNamed(head[1], "Connection: ");
    LastField(head[1], head[2], "Connection: ", if linger then "keep-alive" else "close");
    assert "keep-alive"[0] != "close"[0];
  }

  /** The status for a code; a missing file is answered with 400 first. */
  function StatusFor(code: HttpCode): nat {
    match code
    case INTERNAL_ERROR => 500
    case NO_RESOURCE => 400
    case FORBIDDEN_REQUEST => 403
    case _ => 200
  }

  /** What the head of a response tells the recipient: the version, the status, and whether the connection stays open. */
  predicate Tells(b: seq<char>, status: nat, linger: bool) {
    var first := TakeMessage(b);
    && first.Some? && first.value.0.head != [] && StatusOf(first.value.0.head[0]) == Some(status)
    && (KeepsOpen(first.value.0.head) <==> linger) && (Closes(first.value.0.head) <==> !linger)
  }

  lemma HeadTells(status: nat, title: string, length: nat, linger: bool, rest: seq<char>)
    requires Free(title, Break) && length <= |rest|
    ensures Tells(HeadText(Head(status, title, length, linger)) + rest, status, linger)
  {
    FrameOne(status, title, length, linger, rest);
    StatusRead(status, title);
    ConnectionRead(status, title, length, linger);
  }

  lemma ReplySplit(status: nat, title: string, form: string, linger: bool, rest: seq<char>)
    ensures Reply(status, title, form, linger) + rest == HeadText(Head(status, title, |form|, linger)) + (form + rest)
  {
  }

  lemma ReplyTells(status: nat, title: string, form: string, linger: bool, rest: seq<char>)
    requires Free(title, Break)
    ensures Tells(Reply(status, title, form, linger) + rest, status, linger)
  {
    ReplySplit(status, title, form, linger, rest);
    HeadTells(status, title, |form|, linger, form + rest);
  }

  lemma SingleTells(status: nat, title: string, form: string, linger: bool)
    requires Free(title, Break)
    ensures Tells(Reply(status, title, form, linger), status, linger)
  {
    ReplyTells(status, title, form, linger, []);
    assert Reply(status, title, form, linger) + [] == Reply(status, title, form, linger);
  }

  lemma FitsUnchanged(size: nat)
    requires FitsInt(size)
    ensures ToInt32(size) == size
  {
  }

  lemma FilePayload(linger: bool, file: seq<char>)
    requires FitsInt(|file|)
    ensures Payload(FILE_REQUEST, linger, file)
            == if file == [] then Reply(200, OK_TITLE, EMPTY_PAGE, linger)
               else HeadText(Head(200, OK_TITLE, |file|, linger)) + file
  {
    FitsUnchanged(|file|);
  }

  lemma FileTells(linger: bool, file: seq<char>, payload: seq<char>)
    requires FitsInt(|file|) && payload == Payload(FILE_REQUEST, linger, file)
    ensures Tells(payload, 200, linger)
  {
    TitlesFree();
    FilePayload(linger, file);
    if file == [] {
      SingleTells(200, OK_TITLE, EMPTY_PAGE, linger);
    } else {
      HeadTells(200, OK_TITLE, |file|, linger, file);
    }
  }

  lemma MissingTells(linger: bool, file: seq<char>)
    ensures Tells(Payload(NO_RESOURCE, linger, file), 400, linger)
  {
    TitlesFree();
    var title, form := TITLE_400, FORM_400;
    ReplyTells(400, title, form, linger, Reply(403, TITLE_403, FORM_403, linger));
  }

  lemma ErrorsTell(linger: bool, file: seq<char>)
    ensures Tells(Payload(INTERNAL_ERROR, linger, file), 500, linger)
    ensures Tells(Payload(FORBIDDEN_REQUEST, linger, file), 403, linger)
  {
    TitlesFree();
    SingleTells(500, TITLE_500, FORM_500, linger);
    SingleTells(403, TITLE_403, FORM_403, linger);
  }

  /**
   A response, of a file whose size fits an int, tells its status, and that the connection stays open if and only if
   m_linger is set.
   */
  lemma ResponsesTell(code: HttpCode, linger: bool, file: seq<char>)
    requires FitsInt(|file|)
    requires code == INTERNAL_ERROR || code == NO_RESOURCE || code == FORBIDDEN_REQUEST || code == FILE_REQUEST
    ensures Tells(Payload(code, linger, file), StatusFor(code), linger)
  {
    match code
    case NO_RESOURCE => MissingTells(linger, file);
    case FILE_REQUEST => FileTells(linger, file, Payload(code, linger, file));
    case _ => ErrorsTell(linger, file);
  }

  // ----- the responses, letter by letter

  lemma ShortDecs()
    ensures Dec(400) == "400" && Dec(403) == "403" && Dec(500) == "500" && Dec(200) == "200"
    ensures Dec(10) == "10" && Dec(20) == "20" && Dec(21) == "21" && Dec(26) == "26" && Dec(5) == "5"
  {
    assert Digits(40) == Digits(4) + [Digit(0)] && Digits(50) == Digits(5) + [Digit(0)] && Digits(20) == Digits(2) + [Digit(0)];
    assert Digits(400) == Digits(40) + [Digit(0)] && Digits(403) == Digits(40) + [Digit(3)];
    assert Digits(500) == Digits(50) + [Digit(0)] && Digits(200) == Digits(20) + [Digit(0)];
    assert Digits(10) == Digits(1) + [Digit(0)] && Digits(21) == Digits(2) + [Digit(1)] && Digits(26) == Digits(2) + [Digit(6)];
  }

  /** The lines of a head, as they are printed. */
  lemma HeadSpelled(status: nat, title: string, length: int, linger: bool, a: string, b: string, c: string)
    requires a == "HTTP/1.1 " + Dec(status) + " " + title && b == "Content-Length: " + Dec(length)
    requires c == "Connection: " + if linger then "keep-alive" else "close"
    ensures HeadText(Head(status, title, length, linger)) == a + "\r\n" + (b + "\r\n") + (c + "\r\n") + "\r\n"
  {
    HeadTextIs(status, title, length, linger);
    assert CRLF == "\r\n";
  }

  lemma ForbiddenSpelled()
    ensures Payload(FORBIDDEN_REQUEST, true, [])
            == "HTTP/1.1 403 Forbidden" + "\r\n" + ("Content-Length: 20" + "\r\n") + ("Connection: keep-alive" + "\r\n") + "\r\n"
               + "Permission Forbidden"
  {
    ShortDecs();
    assert "HTTP/1.1 403 Forbidden" == "HTTP/1.1 " + "403" + " " + "Forbidden";
    HeadSpelled(403, TITLE_403, 20, true, "HTTP/1.1 403 Forbidden", "Content-Length: 20", "Connection: keep-alive");
  }

  lemma InternalSpelled()
    ensures Payload(INTERNAL_ERROR, false, [])
            == "HTTP/1.1 500 Internal Error" + "\r\n" + ("Content-Length: 21" + "\r\n") + ("Connection: close" + "\r\n") + "\r\n"
               + "Server Internal Error"
  {
    ShortDecs();
    assert "HTTP/1.1 500 Internal Error" == "HTTP/1.1 " + "500" + " " + "Internal Error";
    HeadSpelled(500, TITLE_500, 21, false, "HTTP/1.1 500 Internal Error", "Content-Length: 21", "Connection: close");
  }

  lemma MissingSpelled()
    ensures Payload(NO_RESOURCE, true, [])
            == "HTTP/1.1 400 Bad Request" + "\r\n" + ("Content-Length: 10" + "\r\n") + ("Connection: keep-alive" + "\r\n") + "\r\n"
               + "Bad syntax" + Payload(FORBIDDEN_REQUEST, true, [])
  {
    ShortDecs();
    assert "HTTP/1.1 400 Bad Request" == "HTTP/1.1 " + "400" + " " + "Bad Request";
    HeadSpelled(400, TITLE_400, 10, true, "HTTP/1.1 400 Bad Request", "Content-Length: 10", "Connection: keep-alive");
  }

  lemma FileSpelled(file: seq<char>)
    requires file != [] && FitsInt(|file|)
    ensures Payload(FILE_REQUEST, true, file)
            == "HTTP/1.1 200 OK" + "\r\n" + ("Content-Length: " + Dec(|file|) + "\r\n") + ("Connection: keep-alive" + "\r\n") + "\r\n"
               + file
  {
    ShortDecs();
    assert "HTTP/1.1 200 OK" == "HTTP/1.1 " + "200" + " " + "OK";
    HeadSpelled(200, OK_TITLE, |file|, true, "HTTP/1.1 200 OK", "Content-Length: " + Dec(|file|), "Connection: keep-alive");
  }

  lemma EmptyFileSpelled()
    ensures Payload(FILE_REQUEST, true, "")
            == "HTTP/1.1 200 OK" + "\r\n" + ("Content-Length: 26" + "\r\n") + ("Connection: keep-alive" + "\r\n") + "\r\n"
               + "<html><body></body></html>"
  {
    ShortDecs();
    assert "HTTP/1.1 200 OK" == "HTTP/1.1 " + "200" + " " + "OK";
    HeadSpelled(200, OK_TITLE, 26, true, "HTTP/1.1 200 OK", "Content-Length: 26", "Connection: keep-alive");
  }
}
