/** What the responses of process_write are, and how a recipient frames them (section 3.3.3 of RFC 7230). */
module ResponseFraming {
  import opened Base
  import opened CStrings
  import opened HttpCodes

  // ----- decimal numbers

  function Digit(d: nat): char
    requires d < 10
  {
    '0' + d as char
  }

  /** The digits printf("%d") writes for a number that is not negative. */
  function Digits(n: nat): string {
    if n < 10 then [Digit(n)] else Digits(n / 10) + [Digit(n % 10)]
  }

  /** printf("%d"). */
  function Dec(n: int): string {
    if n < 0 then "-" + Digits(-n) else Digits(n)
  }

  /** A recipient's reading of a non-empty string of digits. */
  function ReadDec(s: string): Option<nat>
    decreases |s|
  {
    if s == "" || !('0' <= s[|s| - 1] <= '9') then None
    else
      var d := (s[|s| - 1] - '0') as nat;
      if |s| == 1 then Some(d)
      else
        match ReadDec(s[..|s| - 1])
        case None => None
        case Some(n) => Some(10 * n + d)
  }

  lemma {:induction false} ReadDigits(n: nat)
    ensures ReadDec(Digits(n)) == Some(n) && Free(Digits(n), Break)
    ensures Digits(n) != "" && '0' <= Digits(n)[0] <= '9'
  {
    if n >= 10 {
      ReadDigits(n / 10);
      var s := Digits(n);
      assert s[..|s| - 1] == Digits(n / 10);
      assert s[|s| - 1] == Digit(n % 10);
    }
  }

  lemma {:induction false} ReadNoSign(s: string)
    requires s != "" && s[0] == '-'
    ensures ReadDec(s) == None
    decreases |s|
  {
    if |s| > 1 {
      assert s[..|s| - 1][0] == '-';
      ReadNoSign(s[..|s| - 1]);
    }
  }

  // ----- a recipient

  /** A line up to its CR LF, and what follows. */
  function TakeLine(b: seq<char>): Option<(string, seq<char>)> {
    var i := FirstIn(b, 0, Break);
    if i + 1 < |b| && b[i] == CR && b[i + 1] == LF then Some((b[..i], b[i + 2..])) else None
  }

  /** Lines up to the empty one, and what follows. */
  function TakeHead(b: seq<char>): Option<(seq<string>, seq<char>)>
    decreases |b|
  {
    match TakeLine(b)
    case None => None
    case Some((line, rest)) =>
      if line == "" then Some(([], rest))
      else
        assert |rest| < |b|;
        match TakeHead(rest)
        case None => None
        case Some((lines, body)) => Some(([line] + lines, body))
  }

  const LENGTH_FIELD: string := "Content-Length: "

  /** The value of the first Content-Length field. */
  function LengthOf(fields: seq<string>): Option<nat> {
    if fields == [] then None
    else if LENGTH_FIELD <= fields[0] then ReadDec(fields[0][|LENGTH_FIELD|..])
    else LengthOf(fields[1..])
  }

  datatype Message = Message(head: seq<string>, body: seq<char>)

  /** One message with a Content-Length, and what follows it. */
  function TakeMessage(b: seq<char>): Option<(Message, seq<char>)> {
    match TakeHead(b)
    case None => None
    case Some((lines, rest)) =>
      match LengthOf(lines)
      case None => None
      case Some(n) => if n <= |rest| then Some((Message(lines, rest[..n]), rest[n..])) else None
  }

  /** The whole payload as a list of messages. */
  ghost predicate Frames(b: seq<char>, messages: seq<Message>)
    decreases |messages|
  {
    if messages == [] then b == []
    else
      var first := TakeMessage(b);
      first.Some? && first.value.0 == messages[0] && Frames(first.value.1, messages[1..])
  }

  // ----- what the server writes

  function StatusLine(status: nat, title: string): string {
    "HTTP/1.1 " + Dec(status) + " " + title
  }

  function ConnectionLine(linger: bool): string {
    "Connection: " + if linger then "keep-alive" else "close"
  }

  /** add_status_line followed by add_headers. */
  function Head(status: nat, title: string, length: int, linger: bool): seq<string> {
    [StatusLine(status, title), LENGTH_FIELD + Dec(length), ConnectionLine(linger)]
  }

  function HeadText(head: seq<string>): string {
    if head == [] then CRLF else head[0] + CRLF + HeadText(head[1..])
  }

  lemma HeadTextIs(status: nat, title: string, length: int, linger: bool)
    ensures HeadText(Head(status, title, length, linger))
            == StatusLine(status, title) + CRLF + (LENGTH_FIELD + Dec(length) + CRLF) + (ConnectionLine(linger) + CRLF) + CRLF
  {
    HeadTextOf(StatusLine(status, title), LENGTH_FIELD + Dec(length), ConnectionLine(linger));
  }

  lemma HeadTextOf(a: string, b: string, c: string)
    ensures HeadText([a, b, c]) == a + CRLF + (b + CRLF) + (c + CRLF) + CRLF
  {
    assert [a, b, c][1..] == [b, c] && [b, c][1..] == [c];
    assert HeadText([c]) == c + CRLF + CRLF;
    assert HeadText([b, c]) == b + CRLF + HeadText([c]);
    assert HeadText([a, b, c]) == a + CRLF + HeadText([b, c]);
  }

  const OK_TITLE: string := "OK"
  const TITLE_400: string := "Bad Request"
  const FORM_400: string := "Bad syntax"
  const TITLE_403: string := "Forbidden"
  const FORM_403: string := "Permission Forbidden"
  const TITLE_500: string := "Internal Error"
  const FORM_500: string := "Server Internal Error"
  const EMPTY_PAGE: string := "<html><body></body></html>"

  function Reply(status: nat, title: string, form: string, linger: bool): string {
    HeadText(Head(status, title, |form|, linger)) + form
  }

  /** The bytes the iovec designates after process_write, if it succeeds on an empty write buffer. */
  function Payload(code: HttpCode, linger: bool, file: seq<char>): seq<char> {
    match code
    case INTERNAL_ERROR => Reply(500, TITLE_500, FORM_500, linger)
    case NO_RESOURCE => Reply(400, TITLE_400, FORM_400, linger) + Reply(403, TITLE_403, FORM_403, linger)
    case FORBIDDEN_REQUEST => Reply(403, TITLE_403, FORM_403, linger)
    case FILE_REQUEST =>
      if file == [] then Reply(200, OK_TITLE, EMPTY_PAGE, linger)
      else HeadText(Head(200, OK_TITLE, ToInt32(|file|), linger)) + file
    case _ => []
  }

  // ----- framing

  predicate HeadLine(line: string) {
    line != "" && Free(line, Break)
  }

  lemma TakeOneLine(line: string, rest: seq<char>)
    requires Free(line, Break)
    ensures TakeLine(line + CRLF + rest) == Some((line, rest))
  {
    var b := line + CRLF + rest;
    assert b[|line|] == CR && b[|line| + 1] == LF;
    assert forall k :: 0 <= k < |line| ==> b[k] == line[k];
    FirstInIs(b, 0, Break, |line|);
    assert b[..|line|] == line && b[|line| + 2..] == rest;
  }

  lemma TakeOneMore(line: string, rest: seq<char>, lines: seq<string>, body: seq<char>)
    requires HeadLine(line) && TakeHead(rest) == Some((lines, body))
    ensures TakeHead(line + CRLF + rest) == Some(([line] + lines, body))
  {
    TakeOneLine(line, rest);
  }

  lemma HeadTextParts(head: seq<string>, body: seq<char>)
    requires head != []
    ensures HeadText(head) + body == head[0] + CRLF + (HeadText(head[1..]) + body)
    ensures head == [head[0]] + head[1..]
  {
  }

  lemma {:induction false} TakeWholeHead(head: seq<string>, body: seq<char>)
    requires forall i :: 0 <= i < |head| ==> HeadLine(head[i])
    ensures TakeHead(HeadText(head) + body) == Some((head, body))
    decreases |head|
  {
    if head == [] {
      TakeOneLine("", body);
      assert CRLF + body == "" + CRLF + body;
    } else {
      HeadTextParts(head, body);
      TakeWholeHead(head[1..], body);
      TakeOneMore(head[0], HeadText(head[1..]) + body, head[1..], body);
    }
  }

  lemma FreeJoin(a: string, b: string)
    requires Free(a, Break) && Free(b, Break)
    ensures Free(a + b, Break)
  {
  }

  lemma DecFree(n: int)
    ensures Free(Dec(n), Break)
  {
    ReadDigits(if n < 0 then -n else n);
    if n < 0 {
      FreeJoin("-", Digits(-n));
    }
  }

  lemma HeadLines(status: nat, title: string, length: int, linger: bool)
    requires Free(title, Break)
    ensures forall i :: 0 <= i < 3 ==> HeadLine(Head(status, title, length, linger)[i])
  {
    DecFree(status);
    DecFree(length);
    FreeJoin("HTTP/1.1 ", Dec(status));
    FreeJoin("HTTP/1.1 " + Dec(status), " ");
    FreeJoin("HTTP/1.1 " + Dec(status) + " ", title);
    FreeJoin(LENGTH_FIELD, Dec(length));
    FreeJoin("Connection: ", if linger then "keep-alive" else "close");
  }

  /** The length a recipient reads is the one that was printed, if it is not negative. */
  lemma LengthPrinted(status: nat, title: string, length: int, linger: bool)
    ensures LengthOf(Head(status, title, length, linger)) == if length < 0 then None else Some(length)
  {
    var head := Head(status, title, length, linger);
    assert head[0][0] == 'H' && LENGTH_FIELD[0] == 'C';
    assert head[1..] == [head[1], head[2]];
    assert head[1][|LENGTH_FIELD|..] == Dec(length);
    if length < 0 {
      ReadNoSign(Dec(length));
    } else {
      ReadDigits(length);
    }
  }

  /** A message whose printed length does not exceed its body is framed there. */
  lemma FrameOne(status: nat, title: string, length: int, linger: bool, rest: seq<char>)
    requires Free(title, Break) && length <= |rest|
    ensures var head := Head(status, title, length, linger);
            TakeMessage(HeadText(head) + rest)
            == if length < 0 then None else Some((Message(head, rest[..length]), rest[length..]))
  {
    HeadLines(status, title, length, linger);
    TakeWholeHead(Head(status, title, length, linger), rest);
    LengthPrinted(status, title, length, linger);
  }

  function ReplyMessage(status: nat, title: string, form: string, linger: bool): Message {
    Message(Head(status, title, |form|, linger), form)
  }

  lemma FrameReply(status: nat, title: string, form: string, linger: bool, rest: seq<char>)
    requires Free(title, Break)
    ensures TakeMessage(Reply(status, title, form, linger) + rest) == Some((ReplyMessage(status, title, form, linger), rest))
  {
    FrameOne(status, title, |form|, linger, form + rest);
    assert Reply(status, title, form, linger) + rest == HeadText(Head(status, title, |form|, linger)) + (form + rest);
    assert (form + rest)[..|form|] == form && (form + rest)[|form|..] == rest;
  }

  lemma FrameSingle(status: nat, title: string, form: string, linger: bool)
    requires Free(title, Break)
    ensures Frames(Reply(status, title, form, linger), [ReplyMessage(status, title, form, linger)])
  {
    FrameReply(status, title, form, linger, []);
    assert Reply(status, title, form, linger) + [] == Reply(status, title, form, linger);
  }

  lemma TitlesFree()
    ensures Free(OK_TITLE, Break) && Free(TITLE_400, Break) && Free(TITLE_403, Break) && Free(TITLE_500, Break)
  {
  }

  /** Errors are framed as one message each. */
  lemma ErrorFraming(linger: bool, file: seq<char>)
    ensures Frames(Payload(INTERNAL_ERROR, linger, file), [ReplyMessage(500, TITLE_500, FORM_500, linger)])
    ensures Frames(Payload(FORBIDDEN_REQUEST, linger, file), [ReplyMessage(403, TITLE_403, FORM_403, linger)])
  {
    TitlesFree();
    FrameSingle(500, TITLE_500, FORM_500, linger);
    FrameSingle(403, TITLE_403, FORM_403, linger);
  }

  /** A missing file is answered with two messages, since its case falls through. */
  lemma MissingFraming(linger: bool, file: seq<char>)
    ensures Frames(Payload(NO_RESOURCE, linger, file),
                   [ReplyMessage(400, TITLE_400, FORM_400, linger), ReplyMessage(403, TITLE_403, FORM_403, linger)])
  {
    TitlesFree();
    FrameTwo(400, TITLE_400, FORM_400, 403, TITLE_403, FORM_403, linger);
  }

  lemma FrameTwo(status: nat, title: string, form: string, status': nat, title': string, form': string, linger: bool)
    requires Free(title, Break) && Free(title', Break)
    ensures Frames(Reply(status, title, form, linger) + Reply(status', title', form', linger),
                   [ReplyMessage(status, title, form, linger), ReplyMessage(status', title', form', linger)])
  {
    var second := Reply(status', title', form', linger);
    FrameReply(status, title, form, linger, second);
    FrameSingle(status', title', form', linger);
    FramesCons(Reply(status, title, form, linger) + second, ReplyMessage(status, title, form, linger), second,
      ReplyMessage(status', title', form', linger));
  }

  lemma FramesCons(b: seq<char>, m: Message, rest: seq<char>, n: Message)
    requires TakeMessage(b) == Some((m, rest)) && Frames(rest, [n])
    ensures Frames(b, [m, n])
  {
    assert [m, n][1..] == [n];
  }

  /** A file of this size survives the narrowing of st_size to int. */
  predicate FitsInt(size: nat) {
    size < 0x8000_0000
  }

  /** A head that announces all that follows it. */
  lemma FrameAll(title: string, length: int, linger: bool, file: seq<char>)
    requires Free(title, Break) && length == |file|
    ensures Frames(HeadText(Head(200, title, length, linger)) + file, [Message(Head(200, title, length, linger), file)])
  {
    FrameOne(200, title, length, linger, file);
    assert file[..length] == file && file[length..] == [];
    FramesOne(HeadText(Head(200, title, length, linger)) + file, Message(Head(200, title, length, linger), file));
  }

  lemma FileFits(linger: bool, file: seq<char>)
    requires file != [] && FitsInt(|file|)
    ensures Frames(Payload(FILE_REQUEST, linger, file), [Message(Head(200, OK_TITLE, |file|, linger), file)])
  {
    TitlesFree();
    FrameAll(OK_TITLE, ToInt32(|file|), linger, file);
  }

  lemma FramesOne(b: seq<char>, m: Message)
    requires TakeMessage(b) == Some((m, []))
    ensures Frames(b, [m])
  {
    assert [m][1..] == [];
  }

  lemma FileTooBig(linger: bool, file: seq<char>, m: Message)
    requires file != [] && !FitsInt(|file|)
    ensures !Frames(Payload(FILE_REQUEST, linger, file), [m])
  {
    TitlesFree();
    var n := ToInt32(|file|);
    FrameOne(200, OK_TITLE, n, linger, file);
    if n >= 0 {
      assert |file[n..]| > 0;
      assert [m][1..] == [];
    }
  }

  /** A file response is framed as one message with the file as its body if and only if its size fits an int. */
  lemma FileFraming(linger: bool, file: seq<char>)
    requires file != []
    ensures (exists m :: Frames(Payload(FILE_REQUEST, linger, file), [m])) <==> FitsInt(|file|)
    ensures FitsInt(|file|) ==>
              Frames(Payload(FILE_REQUEST, linger, file), [Message(Head(200, OK_TITLE, |file|, linger), file)])
  {
    if FitsInt(|file|) {
      FileFits(linger, file);
    } else {
      forall m
        ensures !Frames(Payload(FILE_REQUEST, linger, file), [m])
      {
        FileTooBig(linger, file, m);
      }
    }
  }

  /** An empty file is answered with a page of its own. */
  lemma EmptyFileFraming(linger: bool)
    ensures Frames(Payload(FILE_REQUEST, linger, []), [ReplyMessage(200, OK_TITLE, EMPTY_PAGE, linger)])
  {
    TitlesFree();
    FrameSingle(200, OK_TITLE, EMPTY_PAGE, linger);
  }

  /** The messages a response consists of. */
  function Messages(code: HttpCode, linger: bool, file: seq<char>): seq<Message> {
    match code
    case INTERNAL_ERROR => [ReplyMessage(500, TITLE_500, FORM_500, linger)]
    case NO_RESOURCE => [ReplyMessage(400, TITLE_400, FORM_400, linger), ReplyMessage(403, TITLE_403, FORM_403, linger)]
    case FORBIDDEN_REQUEST => [ReplyMessage(403, TITLE_403, FORM_403, linger)]
    case FILE_REQUEST =>
      if file == [] then [ReplyMessage(200, OK_TITLE, EMPTY_PAGE, linger)]
      else [Message(Head(200, OK_TITLE, |file|, linger), file)]
    case _ => []
  }

  /** Every response, with a file whose size fits an int, is framed as these. */
  lemma ResponsesFramed(code: HttpCode, linger: bool, file: seq<char>)
    requires FitsInt(|file|)
    ensures Frames(Payload(code, linger, file), Messages(code, linger, file))
  {
    match code
    case INTERNAL_ERROR => ErrorFraming(linger, file);
    case FORBIDDEN_REQUEST => ErrorFraming(linger, file);
    case NO_RESOURCE => MissingFraming(linger, file);
    case FILE_REQUEST =>
      if file == [] {
        EmptyFileFraming(linger);
      } else {
        FileFraming(linger, file);
      }
    case _ =>
  }
}
