/** What each step of the service makes of the connection it is about, and a run in which the client gets its page. */
module ServiceReplies {
  import opened Base
  import opened HttpCodes
  import opened RequestParser
  import opened ResponseFraming
  import opened Service
  import Reader = RequestReader
  import Sending
  import S = Server

  predicate ArmedFor(s: S.State, c: S.Conn, interest: S.Interest) {
    c in s.armed && s.armed[c] == interest
  }

  predicate Unarmed(s: S.State, c: S.Conn) {
    c !in s.armed
  }

  /** The request is bad, or names a directory that others may read: process_write has no response for it. */
  predicate NoReply(outcome: Outcome, file: Reader.FileStat) {
    outcome.Bad? || (outcome.Ready? && file.Found? && file.othersMayRead && file.isDirectory)
  }

  /** The response for any other decision, and for what stat finds; of a file, the head alone is in the write buffer. */
  predicate RightReply(r: Response, outcome: Outcome, linger: bool, file: Reader.FileStat, content: seq<char>) {
    && (outcome.Internal? ==> r.payload == Payload(INTERNAL_ERROR, linger, []) && r.head == |r.payload|)
    && (outcome.Ready? && file.Missing? ==> r.payload == Payload(NO_RESOURCE, linger, []) && r.head == |r.payload|)
    && (outcome.Ready? && file.Found? && !file.othersMayRead ==>
          r.payload == Payload(FORBIDDEN_REQUEST, linger, []) && r.head == |r.payload|)
    && (outcome.Ready? && file.Found? && file.othersMayRead && !file.isDirectory ==>
          r.payload == Payload(FILE_REQUEST, linger, content) && r.head == |r.payload| - |content|)
  }

  /** A run up to where thread `i` is in process() for connection `c`. */
  ghost predicate AtProcess(u: State, i: nat, c: S.Conn, k: Slot, run: (Parser, Outcome)) {
    && u.lost.None? && i < |u.server.pool.pcs| == |u.server.pool.arg| && u.server.pool.pcs[i].Running?
    && c == u.server.pool.arg[i] && k == SlotOf(u, c) && run == Drive(Init, k.chunks) && !run.1.Stray?
  }

  /** What process() leaves behind. */
  ghost predicate Concluded(t: State, c: S.Conn, k: Slot, run: (Parser, Outcome), file: Reader.FileStat, content: seq<char>) {
    && (c in t.server.open <==> !NoReply(run.1, file))
    && (NoReply(run.1, file) ==> Unarmed(t.server, c))
    && (run.1.Pending? ==> ArmedFor(t.server, c, S.In) && SlotOf(t, c) == k.(parser := run.0))
    && (!run.1.Pending? && !NoReply(run.1, file) ==>
          ArmedFor(t.server, c, S.Out) && SlotOf(t, c) == Slot(run.0, k.chunks, SlotOf(t, c).response)
          && RightReply(SlotOf(t, c).response, run.1, run.0.linger, file, content))
  }

  lemma ReplyIsRight(run: (Parser, Outcome), disk: Disk, name: string)
    requires !run.1.Stray? && Reader.Names(name, Text(run.0, run.0.url).GetOr(""))
    ensures AnswerOf(run, disk).Incomplete? <==> run.1.Pending?
    ensures AnswerOf(run, disk).NoResponse? <==> NoReply(run.1, disk.stat(name))
    ensures !run.1.Pending? && !NoReply(run.1, disk.stat(name)) ==>
              RightReply(ResponseTo(run, disk), run.1, run.0.linger, disk.stat(name), disk.content(name))
  {
    Reader.OneName(name, Reader.RealFile(Text(run.0, run.0.url).GetOr("")), Text(run.0, run.0.url).GetOr(""));
  }

  /** What Finish does to the place of its connection. */
  lemma FinishPlaces(s: S.State, i: nat, answer: S.Answer, c: S.Conn)
    requires S.Inv(s) && i < |s.pool.pcs| && s.pool.pcs[i].Running? && c == s.pool.arg[i]
    ensures var t := S.Finish(s, i, answer);
            && (c in t.open <==> !answer.NoResponse?)
            && (answer.NoResponse? ==> Unarmed(t, c))
            && (answer.Incomplete? ==> ArmedFor(t, c, S.In))
            && (answer.Response? ==> ArmedFor(t, c, S.Out))
  {
    ProcessPlaces(s, i, answer, c);
    assert S.Owners(s, c) <= 1;
  }

  /**
   In every interleaving, a worker's process() does this, by the decision on the chunks of its connection and by what
   stat finds under the name for its url: while nothing is decided, it arms the connection for reading; if the request
   is bad or names a directory, it closes it; and in all other cases the connection stays open, is armed for writing,
   and has the response that fits.
   */
  lemma ProcessExactly(s: State, actions: seq<Action>, disk: Disk, i: nat, c: S.Conn, k: Slot, run: (Parser, Outcome),
                       name: string)
    requires Initial(s) && AtProcess(Exec(s, actions, disk), i, c, k, run)
    requires Reader.Names(name, Text(run.0, run.0.url).GetOr(""))
    ensures Concluded(Step(Exec(s, actions, disk), Process(i), disk), c, k, run, disk.stat(name), disk.content(name))
  {
    InitialInv(s, disk);
    Safety(s, actions, disk);
    DecisionIsItsOwn(s, actions, disk, i);
    var u := Exec(s, actions, disk);
    ProcessIs(u, i, disk, c);
    ReplyIsRight(run, disk, name);
    FinishPlaces(u.server, i, AnswerOf(run, disk), c);
  }

  // ----- reports

  /** The event thread is about to look at a report about an open client connection. */
  ghost predicate AtReport(u: State, r: S.Report, k: Slot) {
    u.lost.None? && Service.Head(u.server) == Some(r) && r.conn in u.server.open && k == SlotOf(u, r.conn)
  }

  /** A connection that is to be read: closed if recv fails or the buffer is full; else it is handed to append, with the bytes. */
  ghost predicate ReadFrom(t: State, c: S.Conn, k: Slot, ok: bool, bytes: seq<char>) {
    && (c in t.server.open <==> ok) && Unarmed(t.server, c)
    && (ok ==> Calling(t.server, c) && SlotOf(t, c) == k.(parser := Feed(k.parser, bytes), chunks := k.chunks + [bytes]))
  }

  predicate Calling(s: S.State, c: S.Conn) {
    && S.MAIN < |s.pool.pcs| == |s.pool.arg|
    && s.pool.pcs[S.MAIN].Locking? && s.pool.arg[S.MAIN] == c && s.taken != [] && s.taken[|s.taken| - 1] == c
  }

  /** One that is to be written: by how write() ends. */
  ghost predicate WrittenTo(t: State, c: S.Conn, k: Slot, sent: Sending.Sent) {
    && (c in t.server.open <==> !sent.Failed? && !sent.DoneClose?)
    && (sent.Failed? ==> Unarmed(t.server, c)) && (sent.DoneClose? ==> ArmedFor(t.server, c, S.In))
    && (sent.Again? ==> ArmedFor(t.server, c, S.Out) && SlotOf(t, c) == k)
    && (sent.DoneLinger? || sent.NothingToSend? ==>
          ArmedFor(t.server, c, S.In) && SlotOf(t, c) == Slot(Init, [], Response([], 0)))
  }

  lemma ReportStep(u: State, disk: Disk, r: S.Report, k: Slot, received: seq<Reader.RecvResult>, answers: seq<Sending.WritevResult>)
    requires Inv(u, disk) && AtReport(u, r, k)
    ensures var t := Step(u, Dispatch(received, answers), disk);
            && t.server == S.Handle(u.server.(batch := u.server.batch[1..]), r, ReadOk(k.parser, received), SentFor(k, answers))
            && SlotOf(t, r.conn) == Served(k, r.kind, true, received, answers)
  {
    DispatchIs(u, received, answers, disk, r);
  }

  lemma HandlePlaces(s: S.State, r: S.Report, readOk: bool, sent: Sending.Sent)
    requires S.Inv(s) && Service.Head(s) == Some(r) && r.conn in s.open
    ensures var t, c := S.Handle(s.(batch := s.batch[1..]), r, readOk, sent), r.conn;
            && (r.kind.Hangup? ==> c !in t.open && Unarmed(t, c))
            && (r.kind.Readable? ==> (c in t.open <==> readOk) && Unarmed(t, c) && (readOk ==> Calling(t, c)))
            && (r.kind.Writable? ==>
                  && (c in t.open <==> !sent.Failed? && !sent.DoneClose?)
                  && (sent.Failed? ==> Unarmed(t, c)) && (sent.DoneClose? ==> ArmedFor(t, c, S.In))
                  && (sent.Again? ==> ArmedFor(t, c, S.Out))
                  && (sent.DoneLinger? || sent.NothingToSend? ==> ArmedFor(t, c, S.In)))
  {
    Alone(s, r);
  }

  /**
   In every interleaving, what main makes of a report about an open connection: a hangup closes it. One about reading
   closes it or hands it to append with all bytes that recv gives, as read() says. One about writing arms it again for
   writing, with the same response; closes it; or arms it for reading, as new; as the answers of writev say.
   */
  lemma ReportExactly(s: State, actions: seq<Action>, disk: Disk, r: S.Report, k: Slot,
                      received: seq<Reader.RecvResult>, answers: seq<Sending.WritevResult>)
    returns (ok: bool, bytes: seq<char>, sent: Sending.Sent)
    requires Initial(s) && AtReport(Exec(s, actions, disk), r, k)
    ensures Reader.ReadBy(|k.parser.data|, received, ok, bytes)
    ensures Sending.EndsBy(k.response.head, k.parser.linger, answers, sent)
    ensures var t := Step(Exec(s, actions, disk), Dispatch(received, answers), disk);
            && !r.kind.Neither?
            && (r.kind.Hangup? ==> r.conn !in t.server.open && Unarmed(t.server, r.conn))
            && (r.kind.Readable? ==> ReadFrom(t, r.conn, k, ok, bytes))
            && (r.kind.Writable? ==> WrittenTo(t, r.conn, k, sent))
  {
    InitialInv(s, disk);
    Safety(s, actions, disk);
    ok, bytes, sent := ReadOk(k.parser, received), Reader.Received(received), SentFor(k, answers);
    Reader.ReadExactly(|k.parser.data|, received);
    Sending.EndsBySent(k.response.head, k.parser.linger, answers);
    var u := Exec(s, actions, disk);
    ReportStep(u, disk, r, k, received, answers);
    HandlePlaces(u.server, r, ok, sent);
    Alone(u.server, r);
  }
}
