/** A whole exchange on one connection: reads and process_read until something is decided, then process_write. */
module Connection {
  import opened Base
  import opened HttpCodes
  import opened RequestParser
  import opened ParserChunking
  import opened ParserReads
  import Reader = RequestReader
  import Client = HttpClient
  import Framing = ResponseFraming
  import Writer = ResponseWriter

  /** What is known of a connection: it waits, it is closed since read() failed, it has an answer, or nothing. */
  datatype Reply = Waiting | Closed | Answer(code: HttpCode) | Undefined

  function ReplyOf(r: Option<(Parser, Outcome)>, stat: string -> Reader.FileStat): Reply {
    if r.None? then Closed
    else if r.value.1.Pending? then Waiting
    else if r.value.1.Stray? then Undefined
    else Answer(Reader.CodeOf(r.value, stat))
  }

  lemma OneAnswer(chunk: seq<char>)
    ensures var answers := [Reader.Bytes(chunk), Reader.WouldBlock];
            Reader.Received(answers) == chunk && Reader.Ending(answers).WouldBlock?
  {
    var answers := [Reader.Bytes(chunk), Reader.WouldBlock];
    assert answers[1..] == [Reader.WouldBlock];
  }

  lemma ReceiveFrom(p: Parser, chunks: seq<seq<char>>, i: nat)
    requires Wf(p) && i < |chunks| && chunks[i] != []
    ensures Receive(p, chunks[i..])
            == if |chunks[i]| > Room(p) then None
               else
                 var r := Run(Feed(p, chunks[i]));
                 if r.1.Pending? then Receive(r.0, chunks[i + 1..]) else Some(r)
  {
    assert chunks[i..][1..] == chunks[i + 1..];
  }

  /** read() for one chunk, and process_read(); `run` is what the machine does if read() succeeds. */
  method Serve(conn: Reader.RequestReader, chunk: seq<char>, stat: string -> Reader.FileStat)
    returns (reply: Reply, ghost run: (Parser, Outcome))
    requires conn.Valid() && chunk != []
    modifies conn, conn.m_read_buf
    ensures conn.Valid() && run == Run(Feed(old(conn.Abs()), chunk))
    ensures reply == ReplyOf(if |chunk| <= Room(old(conn.Abs())) then Some(run) else None, stat)
    ensures !reply.Closed? ==> conn.Abs() == run.0
  {
    OneAnswer(chunk);
    ghost var fed := Feed(conn.Abs(), chunk);
    run := Run(fed);
    var ok := conn.Read([Reader.Bytes(chunk), Reader.WouldBlock]);
    if !ok {
      return Closed, run;
    }
    var defined, code := conn.ProcessRead(stat);
    if !defined {
      return Undefined, run;
    }
    Reader.NoRequest(run, stat);
    reply := if code == NO_REQUEST then Waiting else Answer(code);
  }

  /** read() and process_read() for one chunk after another, until something is decided or a read fails. */
  method Converse(conn: Reader.RequestReader, chunks: seq<seq<char>>, stat: string -> Reader.FileStat) returns (reply: Reply)
    requires conn.Valid() && Arrivals(chunks)
    modifies conn, conn.m_read_buf
    ensures conn.Valid() && reply == ReplyOf(Receive(old(conn.Abs()), chunks), stat)
    ensures !reply.Closed? ==> Some(conn.Abs()) == ParserAfter(Receive(old(conn.Abs()), chunks))
  {
    ghost var p := conn.Abs();
    var i := 0;
    assert chunks[0..] == chunks;
    while i < |chunks|
      invariant 0 <= i <= |chunks| && conn.Valid()
      invariant Wf(p) && Receive(conn.Abs(), chunks[i..]) == Receive(p, chunks)
    {
      ghost var run;
      ReceiveFrom(conn.Abs(), chunks, i);
      reply, run := Serve(conn, chunks[i], stat);
      if reply != Waiting {
        return;
      }
      i := i + 1;
    }
    reply := Waiting;
  }

  ghost function ParserAfter(r: Option<(Parser, Outcome)>): Option<Parser> {
    if r.None? then None else Some(r.value.0)
  }

  lemma ServedReply(r: Option<(Parser, Outcome)>, fits: bool, url: string, host: string, linger: bool, stat: string -> Reader.FileStat)
    requires Client.ServedOrClosed(r, fits, url, host, linger)
    ensures if fits
            then ReplyOf(r, stat) == Answer(Reader.Resource(stat(Reader.RealFile(url)))) && r.Some? && r.value.0.linger == linger
            else ReplyOf(r, stat) == Closed
  {
  }

  /** What a printed request without a body is answered. */
  lemma Answered(url: string, host: Client.HostLine, fields: seq<string>, chunks: seq<seq<char>>, stat: string -> Reader.FileStat)
    requires Client.UrlOk(url) && Client.HostOk(host) && forall i :: 0 <= i < |fields| ==> Client.Field(fields[i])
    requires Concat(chunks) == Client.Print(url, host, fields) && Client.Effects(Client.DEFAULTS, fields).length == 0
    requires Arrivals(chunks)
    ensures var r := Receive(Init, chunks);
            if |Client.Print(url, host, fields)| <= READ_BUFFER_SIZE
            then ReplyOf(r, stat) == Answer(Reader.Resource(stat(Reader.RealFile(url))))
                 && r.Some? && r.value.0.linger == Client.Effects(Client.DEFAULTS, fields).linger
            else ReplyOf(r, stat) == Closed
  {
    Client.PrintedInChunks(url, host, fields, chunks);
    ServedReply(Receive(Init, chunks), |Client.Print(url, host, fields)| <= READ_BUFFER_SIZE, url, host.value,
                Client.Effects(Client.DEFAULTS, fields).linger, stat);
  }

  /** process_write() for an answer. */
  method Respond(code: HttpCode, linger: bool, file: seq<char>) returns (ok: bool, reply: Writer.ResponseWriter)
    requires Framing.FitsInt(|file|)
    ensures ok <==> code != BAD_REQUEST
    ensures ok ==> reply.Vectored() && Framing.Frames(reply.Sent(), Framing.Messages(code, linger, file))
  {
    reply := new Writer.ResponseWriter(linger, file);
    ok := reply.ProcessWrite(code);
    Framing.ResponsesFramed(code, linger, file);
  }

  /**
   The server's side of a printed request that declares no body: if it fits the read buffer and does not name a
   directory, it is answered, and the answer is framed as the messages for what stat finds at the url; `file` is what
   mmap maps, of the size stat reports.
   */
  method Exchange(url: string, host: Client.HostLine, fields: seq<string>, chunks: seq<seq<char>>,
        stat: string -> Reader.FileStat, file: seq<char>)
    returns (ok: bool, reply: Writer.ResponseWriter?)
    requires Client.UrlOk(url) && Client.HostOk(host) && forall i :: 0 <= i < |fields| ==> Client.Field(fields[i])
    requires Concat(chunks) == Client.Print(url, host, fields) && Client.Effects(Client.DEFAULTS, fields).length == 0
    requires Arrivals(chunks)
    requires Framing.FitsInt(|file|) && (stat(Reader.RealFile(url)).Found? ==> stat(Reader.RealFile(url)).size == |file|)
    ensures ok <==> |Client.Print(url, host, fields)| <= READ_BUFFER_SIZE
                    && Reader.Resource(stat(Reader.RealFile(url))) != BAD_REQUEST
    ensures ok ==> reply != null && reply.Vectored()
                   && Framing.Frames(reply.Sent(), Framing.Messages(Reader.Resource(stat(Reader.RealFile(url))),
                                                                    Client.Effects(Client.DEFAULTS, fields).linger, file))
  {
    Answered(url, host, fields, chunks, stat);
    var conn := new Reader.RequestReader();
    var answer := Converse(conn, chunks, stat);
    if answer.Closed? {
      return false, null;
    }
    ok, reply := Respond(answer.code, conn.m_linger, file);
  }
}
