/** The responses of process_write under the loop of write(). */
module SentResponses {
  import opened Base
  import opened CStrings
  import opened HttpCodes
  import opened ResponseFraming
  import opened Sending

  /** The codes for which there is a response. */
  predicate Replied(code: HttpCode) {
    code == INTERNAL_ERROR || code == NO_RESOURCE || code == FORBIDDEN_REQUEST || code == FILE_REQUEST
  }

  /** m_write_idx: all but the mapped file. */
  function HeadLength(code: HttpCode, linger: bool, file: seq<char>): nat {
    if code == FILE_REQUEST && file != [] then |HeadText(Head(200, OK_TITLE, ToInt32(|file|), linger))|
    else |Payload(code, linger, file)|
  }

  /** Every response starts with the H of HTTP, which is the only one in a head. */
  predicate NoH(s: seq<char>) {
    forall k :: 0 <= k < |s| ==> s[k] != 'H'
  }

  predicate StartsWithH(s: seq<char>) {
    s != [] && s[0] == 'H' && NoH(s[1..])
  }

  lemma NoHJoin(a: seq<char>, b: seq<char>)
    requires NoH(b)
    ensures NoH(a) ==> NoH(a + b)
    ensures StartsWithH(a) ==> StartsWithH(a + b)
  {
    if StartsWithH(a) {
      assert (a + b)[1..] == a[1..] + b;
    }
  }

  lemma {:induction false} DigitsNoH(n: nat)
    ensures NoH(Digits(n))
  {
    if n >= 10 {
      DigitsNoH(n / 10);
    }
  }

  lemma DecNoH(n: int)
    ensures NoH(Dec(n))
  {
    DigitsNoH(if n < 0 then -n else n);
  }

  lemma StatusStarts(status: nat, title: string)
    requires NoH(title)
    ensures StartsWithH(StatusLine(status, title))
  {
    assert StartsWithH("HTTP/1.1 ") by {
      assert "HTTP/1.1 "[1..] == "TTP/1.1 ";
    }
    DecNoH(status);
    NoHJoin("HTTP/1.1 ", Dec(status));
    NoHJoin("HTTP/1.1 " + Dec(status), " ");
    NoHJoin("HTTP/1.1 " + Dec(status) + " ", title);
  }

  lemma {:induction false} HeadTextNoH(head: seq<string>)
    requires forall i :: 0 <= i < |head| ==> NoH(head[i])
    ensures NoH(HeadText(head))
    decreases |head|
  {
    if head != [] {
      HeadTextNoH(head[1..]);
      NoHJoin(head[0], CRLF);
      NoHJoin(head[0] + CRLF, HeadText(head[1..]));
    }
  }

  lemma HeadStarts(status: nat, title: string, length: int, linger: bool)
    requires NoH(title)
    ensures StartsWithH(HeadText(Head(status, title, length, linger)))
  {
    var head := Head(status, title, length, linger);
    StatusStarts(status, title);
    DecNoH(length);
    NoHJoin(LENGTH_FIELD, Dec(length));
    HeadTextNoH(head[1..]);
    NoHJoin(head[0], CRLF);
    NoHJoin(head[0] + CRLF, HeadText(head[1..]));
  }

  lemma ReplyStarts(status: nat, title: string, form: string, linger: bool)
    requires NoH(title) && NoH(form)
    ensures StartsWithH(Reply(status, title, form, linger))
  {
    HeadStarts(status, title, |form|, linger);
    NoHJoin(HeadText(Head(status, title, |form|, linger)), form);
  }

  lemma OneHead(head: seq<char>, body: seq<char>, n: nat)
    requires StartsWithH(head) && n <= |head|
    ensures Aperiodic(head + body, n)
  {
    var response := head + body;
    forall k | 0 < k && 2 * k < n && k < |response|
      ensures response[k..] != response[..|response| - k]
    {
      assert response[k..][0] == head[k] == head[1..][k - 1];
    }
  }

  /** The second of two heads does not start like the first. */
  lemma TwoHeads(first: seq<char>, second: seq<char>, n: nat)
    requires StartsWithH(first) && StartsWithH(second) && 11 < |first| && 11 < |second| && first[11] != second[11]
    ensures Aperiodic(first + second, n)
  {
    var response := first + second;
    forall k | 0 < k && 2 * k < n && k < |response|
      ensures response[k..] != response[..|response| - k]
    {
      if k < |first| {
        assert response[k..][0] == first[1..][k - 1];
      } else if k == |first| {
        assert response[k..][11] == second[11] && (|response| - k > 11 ==> response[..|response| - k][11] == first[11]);
      } else {
        assert response[k..][0] == second[1..][k - |first| - 1];
      }
    }
  }

  /** The last digit of a status of three digits. */
  lemma StatusDigit(status: nat, title: string, form: string, linger: bool)
    requires 100 <= status < 1000
    ensures var r := Reply(status, title, form, linger); |r| > 11 && r[11] == Digit(status % 10)
  {
    var d := Digits(status / 100);
    assert d == [Digit(status / 100)];
    assert Digits(status / 10) == d + [Digit(status / 10 % 10)];
    assert Digits(status) == Digits(status / 10) + [Digit(status % 10)];
    var line := StatusLine(status, title);
    assert line[11] == Dec(status)[2];
    var head := Head(status, title, |form|, linger);
    assert HeadText(head) == line + CRLF + HeadText(head[1..]);
  }

  lemma TextsNoH()
    ensures NoH(OK_TITLE) && NoH(TITLE_400) && NoH(TITLE_403) && NoH(TITLE_500)
    ensures NoH(FORM_400) && NoH(FORM_403) && NoH(FORM_500) && NoH(EMPTY_PAGE)
  {
  }

  lemma ReplyAperiodic(status: nat, title: string, form: string, linger: bool)
    requires NoH(title) && NoH(form)
    ensures var r := Reply(status, title, form, linger); r != [] && Aperiodic(r, |r|)
  {
    var r := Reply(status, title, form, linger);
    ReplyStarts(status, title, form, linger);
    OneHead(r, [], |r|);
    assert r + [] == r;
  }

  lemma MissingAperiodic(linger: bool)
    ensures var r := Payload(NO_RESOURCE, linger, []); r != [] && Aperiodic(r, |r|)
  {
    TextsNoH();
    ReplyStarts(400, TITLE_400, FORM_400, linger);
    ReplyStarts(403, TITLE_403, FORM_403, linger);
    StatusDigit(400, TITLE_400, FORM_400, linger);
    StatusDigit(403, TITLE_403, FORM_403, linger);
    TwoHeads(Reply(400, TITLE_400, FORM_400, linger), Reply(403, TITLE_403, FORM_403, linger),
      |Payload(NO_RESOURCE, linger, [])|);
  }

  lemma FileAperiodic(linger: bool, file: seq<char>)
    requires file != []
    ensures Aperiodic(Payload(FILE_REQUEST, linger, file), HeadLength(FILE_REQUEST, linger, file))
    ensures 0 < HeadLength(FILE_REQUEST, linger, file) <= |Payload(FILE_REQUEST, linger, file)|
  {
    TextsNoH();
    var head := HeadText(Head(200, OK_TITLE, ToInt32(|file|), linger));
    HeadStarts(200, OK_TITLE, ToInt32(|file|), linger);
    OneHead(head, file, |head|);
  }

  lemma PayloadAperiodic(code: HttpCode, linger: bool, file: seq<char>)
    requires Replied(code)
    ensures Aperiodic(Payload(code, linger, file), HeadLength(code, linger, file))
    ensures 0 < HeadLength(code, linger, file) <= |Payload(code, linger, file)|
  {
    TextsNoH();
    match code
    case INTERNAL_ERROR => ReplyAperiodic(500, TITLE_500, FORM_500, linger);
    case FORBIDDEN_REQUEST => ReplyAperiodic(403, TITLE_403, FORM_403, linger);
    case NO_RESOURCE => MissingAperiodic(linger);
    case FILE_REQUEST =>
      if file == [] {
        ReplyAperiodic(200, OK_TITLE, EMPTY_PAGE, linger);
      } else {
        FileAperiodic(linger, file);
      }
  }

  /** A response reaches the peer, the whole of it and nothing else, if and only if one call of writev accepts it all. */
  lemma ResponseSentExactly(code: HttpCode, linger: bool, file: seq<char>, answers: seq<WritevResult>)
    requires Replied(code) && Possible(answers, |Payload(code, linger, file)|)
    ensures var counts := Calls(0, HeadLength(code, linger, file), answers);
            && Within(counts, |Payload(code, linger, file)|)
            && (Received(Payload(code, linger, file), counts) == Payload(code, linger, file)
                <==> answers != [] && answers[0] == Wrote(|Payload(code, linger, file)|))
  {
    PayloadAperiodic(code, linger, file);
    SentWholeExactly(Payload(code, linger, file), HeadLength(code, linger, file), linger, answers);
  }

  /** If writev takes just the head of a file response, write() is done: the peer has a head that announces a body. */
  lemma FileCutOff(linger: bool, file: seq<char>)
    requires file != [] && FitsInt(|file|)
    ensures var payload, n := Payload(FILE_REQUEST, linger, file), HeadLength(FILE_REQUEST, linger, file);
            && Done(SentOf(n, linger, [Wrote(n)])) && Calls(0, n, [Wrote(n)]) == [n] && n <= |payload|
            && Received(payload, [n]) == HeadText(Head(200, OK_TITLE, |file|, linger))
            && TakeMessage(Received(payload, [n])) == None
  {
    var payload, n := Payload(FILE_REQUEST, linger, file), HeadLength(FILE_REQUEST, linger, file);
    var head := Head(200, OK_TITLE, |file|, linger);
    PayloadAperiodic(FILE_REQUEST, linger, file);
    HalfIsDone(payload, n, linger, n);
    assert payload[..n] == HeadText(head) == HeadText(head) + [];
    TitlesFree();
    HeadLines(200, OK_TITLE, |file|, linger);
    TakeWholeHead(head, []);
    LengthPrinted(200, OK_TITLE, |file|, linger);
  }
}
