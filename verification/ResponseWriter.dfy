/** The writing half of class http_conn: the write buffer, its fill index and the iovec. */
module ResponseWriter {
  import opened CStrings
  import opened HttpCodes
  import opened ResponseFraming

  const WRITE_BUFFER_SIZE: nat := 1024

  class ResponseWriter {
    const m_write_buf: array<char>
    var m_write_idx: nat
    var m_linger: bool
    var m_file: seq<char>    // the mapped file; |m_file| is st_size
    var m_iv_len0: nat       // m_iv[0] starts at m_write_buf
    var m_iv_len1: nat       // m_iv[1] starts at the mapped file
    var m_iv_count: nat

    ghost predicate Valid()
      reads this
    {
      m_write_buf.Length == WRITE_BUFFER_SIZE && m_write_idx < WRITE_BUFFER_SIZE
    }

    /** What has been added. */
    ghost function Written(): seq<char>
      reads this, m_write_buf
      requires Valid()
    {
      m_write_buf[..m_write_idx]
    }

    /** The vectors lie within the write buffer and the mapped file. */
    ghost predicate Vectored()
      reads this
    {
      m_iv_len0 <= m_write_buf.Length && (m_iv_count == 1 || (m_iv_count == 2 && m_iv_len1 <= |m_file|))
    }

    /** The bytes writev is given. */
    ghost function Sent(): seq<char>
      reads this, m_write_buf
      requires Vectored()
    {
      m_write_buf[..m_iv_len0] + if m_iv_count == 2 then m_file[..m_iv_len1] else []
    }

    constructor (linger: bool, file: seq<char>)
      ensures Valid() && fresh(m_write_buf) && Written() == [] && m_linger == linger && m_file == file
    {
      m_write_buf := new char[WRITE_BUFFER_SIZE](_ => NUL);
      m_write_idx, m_linger, m_file := 0, linger, file;
      m_iv_len0, m_iv_len1, m_iv_count := 0, 0, 0;
    }

    /** add_response: vsnprintf of the formatted text, which keeps the last byte for its NUL. */
    method AddResponse(text: string) returns (ok: bool)
      requires Valid()
      modifies this`m_write_idx, m_write_buf
      ensures Valid() && (ok <==> old(m_write_idx) + |text| < 1023)
      ensures Written() == old(Written()) + if ok then text else []
    {
      if m_write_idx >= WRITE_BUFFER_SIZE {
        return false;
      }
      var size := WRITE_BUFFER_SIZE - 1 - m_write_idx;
      var n := if |text| < size then |text| else if size > 0 then size - 1 else 0;
      forall k | 0 <= k < n {
        m_write_buf[m_write_idx + k] := text[k];
      }
      if size > 0 {
        m_write_buf[m_write_idx + n] := NUL;
      }
      if |text| >= size {
        return false;
      }
      m_write_idx := m_write_idx + |text|;
      return true;
    }

    /** add_status_line and add_headers. */
    method AddHead(status: nat, title: string, length: int)
      requires Valid() && m_write_idx + |HeadText(Head(status, title, length, m_linger))| < WRITE_BUFFER_SIZE - 1
      modifies this`m_write_idx, m_write_buf
      ensures Valid() && Written() == old(Written()) + HeadText(Head(status, title, length, m_linger))
      ensures old(m_write_idx) == 0 ==> Written() == HeadText(Head(status, title, length, m_linger))
    {
      ghost var before := Written();
      var l0, l1, l2 := StatusLine(status, title) + CRLF, LENGTH_FIELD + Dec(length) + CRLF, ConnectionLine(m_linger) + CRLF;
      HeadTextIs(status, title, length, m_linger);
      var ok := AddResponse(l0);
      ok := AddResponse(l1);
      ok := AddResponse(l2);
      ok := AddResponse(CRLF);
      Join(before, l0, l1, l2, CRLF);
    }

    /** One of the error cases of process_write: head and form. */
    method AddReply(status: nat, title: string, form: string) returns (ok: bool)
      requires Valid() && m_write_idx <= 200 && status < 1000 && |title| < 20 && |form| < 40
      modifies this`m_write_idx, m_write_buf
      ensures Valid() && ok && m_write_idx <= old(m_write_idx) + 160
      ensures Written() == old(Written()) + Reply(status, title, form, m_linger)
      ensures old(m_write_idx) == 0 ==> Written() == Reply(status, title, form, m_linger)
    {
      ghost var before := Written();
      HeadSize(status, title, |form|, m_linger);
      AddHead(status, title, |form|);
      ok := AddResponse(form);
      assert Written() == before + HeadText(Head(status, title, |form|, m_linger)) + form;
    }

    /** The end of process_write(): the vectors for writev, with the mapped file or without. */
    method SetVectors(withFile: bool)
      requires Valid()
      modifies this`m_iv_len0, this`m_iv_len1, this`m_iv_count
      ensures Valid() && Vectored() && Sent() == if withFile then Written() + m_file else Written()
    {
      m_iv_len0 := m_write_idx;
      if withFile {
        m_iv_len1, m_iv_count := |m_file|, 2;
        assert m_file[..m_iv_len1] == m_file;
      } else {
        m_iv_count := 1;
      }
    }

    /** process_write() on an empty buffer. */
    method ProcessWrite(code: HttpCode) returns (ok: bool)
      requires Valid() && m_write_idx == 0
      modifies this`m_write_idx, this`m_iv_len0, this`m_iv_len1, this`m_iv_count, m_write_buf
      ensures Valid() && ok == (code != BAD_REQUEST)
      ensures ok ==> Vectored() && Sent() == Payload(code, m_linger, m_file)
      ensures ok ==> m_write_idx == |Sent()| - if code == FILE_REQUEST then |m_file| else 0
    {
      if code == FILE_REQUEST && |m_file| != 0 {
        AddFileHead();
        SetVectors(true);
        return true;
      }
      ok := AddText(code);
      if ok {
        SetVectors(false);
      }
    }

    /** The head of a file response. */
    method AddFileHead()
      requires Valid() && m_write_idx == 0 && m_file != []
      modifies this`m_write_idx, m_write_buf
      ensures Valid() && Written() + m_file == Payload(FILE_REQUEST, m_linger, m_file)
    {
      HeadSize(200, OK_TITLE, ToInt32(|m_file|), m_linger);
      AddHead(200, OK_TITLE, ToInt32(|m_file|));
    }

    /** The cases of the switch that put the whole response into the write buffer. */
    method AddText(code: HttpCode) returns (ok: bool)
      requires Valid() && m_write_idx == 0 && (code == FILE_REQUEST ==> m_file == [])
      modifies this`m_write_idx, m_write_buf
      ensures Valid() && ok == (code != BAD_REQUEST)
      ensures ok ==> Written() == Payload(code, m_linger, m_file)
    {
      match code
      case INTERNAL_ERROR =>
        ok := AddReply(500, TITLE_500, FORM_500);
      case BAD_REQUEST =>
        ok := AddReply(400, TITLE_400, FORM_400);
        ok := false;
      case NO_RESOURCE =>
        ok := AddReply(400, TITLE_400, FORM_400);
        ok := AddReply(403, TITLE_403, FORM_403);
      case FORBIDDEN_REQUEST =>
        ok := AddReply(403, TITLE_403, FORM_403);
      case FILE_REQUEST =>
        ok := AddReply(200, OK_TITLE, EMPTY_PAGE);
      case _ =>
        ok := true;
    }
  }

  lemma Join(a: seq<char>, b: seq<char>, c: seq<char>, d: seq<char>, e: seq<char>)
    ensures a + b + c + d + e == a + (b + c + d + e)
  {
  }

  lemma {:induction false} DigitsShort(n: nat, k: nat, bound: nat)
    requires k > 0 && n < bound && bound == Pow10(k)
    ensures |Digits(n)| <= k
    decreases k
  {
    if n >= 10 {
      DigitsShort(n / 10, k - 1, Pow10(k - 1));
    }
  }

  function Pow10(k: nat): nat {
    if k == 0 then 1 else 10 * Pow10(k - 1)
  }

  /** Every head leaves room in the buffer. */
  lemma HeadSize(status: nat, title: string, length: int, linger: bool)
    requires status < 1000 && |title| < 20 && -0x8000_0000 <= length < 0x8000_0000
    ensures |HeadText(Head(status, title, length, linger))| < 120
  {
    HeadTextIs(status, title, length, linger);
    assert Pow10(3) == 1000;
    DigitsShort(status, 3, 1000);
    assert Pow10(5) == 100000 && Pow10(10) == 10000000000;
    DigitsShort(if length < 0 then -length else length, 10, 10000000000);
  }
}
