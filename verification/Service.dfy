/**
 The server with the parsers and the responses of its connections: what threads and epoll do to the connections in any
 order, the parser of each sees its own chunks, one after another, as if it were alone, and the response is to these.
 */
module Service {
  import opened Base
  import opened RequestParser
  import opened ParserChunking
  import opened HttpCodes
  import opened ResponseFraming
  import opened SentResponses
  import Reader = RequestReader
  import Sending
  import S = Server
  import P = ThreadPool

  /** What writev is given: the bytes, and m_write_idx. */
  datatype Response = Response(payload: seq<char>, head: nat)

  /** The file system: what stat finds, and what mmap maps. */
  datatype Disk = Disk(stat: string -> Reader.FileStat, content: string -> seq<char>)

  /** What belongs to a connection: its parser, the chunks read for it since its last init(), and its response. */
  datatype Slot = Slot(parser: Parser, chunks: seq<seq<char>>, response: Response)

  /** As init() leaves it. */
  const FRESH: Slot := Slot(Init, [], Response([], 0))

  /**
   The machine of Server, with the slots. `lost` is a worker that is about to write outside the read buffer of its
   connection, or to overflow: the run ends there, as nothing can be said about what comes after.
   */
  datatype State = State(server: S.State, slots: map<S.Conn, Slot>, lost: Option<nat>)

  /**
   As for Server; but read() gets answers from recv, write() gets answers from writev for the response there is, and
   process() follows from the parser.
   */
  datatype Action =
    | EpollWait(reports: seq<S.Report>)
    | Connect(accepted: Option<S.Conn>)
    | Dispatch(received: seq<Reader.RecvResult>, answers: seq<Sending.WritevResult>)
    | PoolStep(thread: nat)
    | Process(thread: nat)

  function SlotOf(s: State, c: S.Conn): (k: Slot)
    ensures Wf(k.parser)
  {
    if c in s.slots && Wf(s.slots[c].parser) then s.slots[c] else FRESH
  }

  function Set(s: State, c: S.Conn, k: Slot): State {
    s.(slots := s.slots[c := k])
  }

  /** read() succeeds. */
  predicate ReadOk(p: Parser, received: seq<Reader.RecvResult>) {
    Reader.ReadOk(|p.data|, received)
  }

  /** What process() does after process_read. */
  function AnswerTo(code: HttpCode): S.Answer {
    match code
    case NO_REQUEST => S.Incomplete
    case BAD_REQUEST => S.NoResponse
    case _ => S.Response
  }

  function AnswerOf(run: (Parser, Outcome), disk: Disk): S.Answer {
    if run.1.Stray? then S.Incomplete else AnswerTo(Reader.CodeOf(run, disk.stat))
  }

  /** The file of a request for which do_request has found one. */
  function FileOf(run: (Parser, Outcome), disk: Disk): seq<char> {
    disk.content(Reader.RealFile(Text(run.0, run.0.url).GetOr("")))
  }

  /** What process_write makes of a decision. */
  function ResponseTo(run: (Parser, Outcome), disk: Disk): Response {
    if run.1.Stray? then Response([], 0)
    else
      var code, file := Reader.CodeOf(run, disk.stat), FileOf(run, disk);
      Response(Payload(code, run.0.linger, file), HeadLength(code, run.0.linger, file))
  }

  /** The report that main looks at next, if it is about a client. */
  function Head(s: S.State): Option<S.Report> {
    if S.MainIdle(s) && s.batch != [] && s.batch[0].conn != S.LISTENER then Some(s.batch[0]) else None
  }

  /** How write() ends for a connection. */
  function SentFor(k: Slot, answers: seq<Sending.WritevResult>): Sending.Sent {
    Sending.SentOf(k.response.head, k.parser.linger, answers)
  }

  /** The step this is for the machine of Server. */
  function ServerAction(s: State, a: Action, disk: Disk): S.Action {
    match a
    case EpollWait(reports) => S.EpollWait(reports)
    case Connect(accepted) => S.Connect(accepted)
    case Dispatch(received, answers) =>
      var k := if Head(s.server).Some? then SlotOf(s, Head(s.server).value.conn) else FRESH;
      S.Dispatch(ReadOk(k.parser, received), SentFor(k, answers))
    case PoolStep(i) => S.PoolStep(i)
    case Process(i) =>
      if i < |s.server.pool.arg| then S.Process(i, AnswerOf(Run(SlotOf(s, s.server.pool.arg[i]).parser), disk))
      else S.PoolStep(i)
  }

  /** What a report does to its connection: bytes are added, or a response that is sent is followed by init(). */
  function Served(k: Slot, kind: S.Kind, open: bool, received: seq<Reader.RecvResult>, answers: seq<Sending.WritevResult>): Slot {
    if kind.Readable? && open && ReadOk(k.parser, received)
    then k.(parser := Feed(k.parser, Reader.Received(received)), chunks := k.chunks + [Reader.Received(received)])
    else if kind.Writable? && (SentFor(k, answers).NothingToSend? || SentFor(k, answers).DoneLinger?) then FRESH
    else k
  }

  /** What process() does to its connection. */
  function Processed(k: Slot, run: (Parser, Outcome), disk: Disk): Slot {
    k.(parser := run.0, response := if run.1.Pending? then k.response else ResponseTo(run, disk))
  }

  /** The slots after a step. */
  function Slots(s: State, a: Action, disk: Disk): State {
    match a
    case Connect(accepted) =>
      if accepted.Some? && accepted.value !in s.server.known then Set(s, accepted.value, FRESH) else s
    case Dispatch(received, answers) =>
      if Head(s.server).None? then s
      else
        var r := Head(s.server).value;
        Set(s, r.conn, Served(SlotOf(s, r.conn), r.kind, r.conn in s.server.open, received, answers))
    case Process(i) =>
      if i < |s.server.pool.pcs| == |s.server.pool.arg| && s.server.pool.pcs[i].Running?
      then
        var c := s.server.pool.arg[i];
        Set(s, c, Processed(SlotOf(s, c), Run(SlotOf(s, c).parser), disk))
      else s
    case _ => s
  }

  /** The step is a worker's process() with a write that does not go into the read buffer of its connection. */
  predicate GoesAstray(s: State, a: Action) {
    && a.Process? && a.thread < |s.server.pool.pcs| == |s.server.pool.arg| && s.server.pool.pcs[a.thread].Running?
    && Run(SlotOf(s, s.server.pool.arg[a.thread]).parser).1.Stray?
  }

  /** A step that does not go astray. */
  ghost function Proper(s: State, a: Action, disk: Disk): (t: State)
    requires |s.server.pool.pcs| == |s.server.pool.arg|
    ensures |t.server.pool.pcs| == |t.server.pool.arg|
  {
    Slots(s, a, disk).(server := S.Step(s.server, ServerAction(s, a, disk)))
  }

  ghost function Step(s: State, a: Action, disk: Disk): (t: State)
    requires |s.server.pool.pcs| == |s.server.pool.arg|
    ensures |t.server.pool.pcs| == |t.server.pool.arg|
  {
    if s.lost.Some? then s
    else if GoesAstray(s, a) then s.(lost := Some(a.thread))
    else Proper(s, a, disk)
  }

  ghost function Exec(s: State, actions: seq<Action>, disk: Disk): (t: State)
    requires |s.server.pool.pcs| == |s.server.pool.arg|
    ensures |t.server.pool.pcs| == |t.server.pool.arg|
    decreases actions
  {
    if actions == [] then s else Exec(Step(s, actions[0], disk), actions[1..], disk)
  }

  /** A run of the service is a run of the server, so all that holds of those holds here. */
  lemma {:induction false} ServerRun(s: State, actions: seq<Action>, disk: Disk) returns (run: seq<S.Action>)
    requires |s.server.pool.pcs| == |s.server.pool.arg|
    ensures Exec(s, actions, disk).server == S.Exec(s.server, run)
    decreases actions
  {
    run := [];
    if actions != [] {
      var rest := ServerRun(Step(s, actions[0], disk), actions[1..], disk);
      if s.lost.Some? || GoesAstray(s, actions[0]) {
        run := rest;
      } else {
        run := [ServerAction(s, actions[0], disk)] + rest;
        assert run[1..] == rest;
      }
    }
  }

  // ----- one connection

  /** Its parser has run over all its chunks, without or with a decision. */
  predicate Idle(k: Slot, pending: bool) {
    k.parser == Drive(Init, k.chunks).0 && (Drive(Init, k.chunks).1.Pending? <==> pending)
  }

  /** It has run over all but the last, and that one has been added. */
  predicate Fed(k: Slot) {
    k.chunks != []
    && var before := Drive(Init, k.chunks[..|k.chunks| - 1]);
       before.1.Pending? && k.parser == Feed(before.0, k.chunks[|k.chunks| - 1])
  }

  /** There is a response to its chunks. */
  predicate Ready(k: Slot, disk: Disk) {
    var run := Drive(Init, k.chunks);
    Idle(k, false) && AnswerOf(run, disk).Response? && k.response == ResponseTo(run, disk)
  }

  predicate Reported(batch: seq<S.Report>, c: S.Conn, kind: S.Kind) {
    S.Report(c, kind) in batch
  }

  /** It is, or has been, asked about by EPOLLIN. */
  predicate WaitsIn(s: S.State, c: S.Conn) {
    (c in s.armed && s.armed[c].In?) || Reported(s.batch, c, S.Readable)
  }

  predicate WaitsOut(s: S.State, c: S.Conn) {
    (c in s.armed && s.armed[c].Out?) || Reported(s.batch, c, S.Writable)
  }

  /** Where a connection is tells what its parser has done. */
  predicate Placed(k: Slot, disk: Disk, held: bool, waitsIn: bool, waitsOut: bool) {
    (held ==> Fed(k)) && (waitsIn ==> Idle(k, true)) && (waitsOut ==> Ready(k, disk))
  }

  predicate InStep(s: State, disk: Disk, c: S.Conn) {
    Placed(SlotOf(s, c), disk, S.Held(s.server.pool, c) > 0, WaitsIn(s.server, c), WaitsOut(s.server, c))
  }

  /** The worker that goes astray is in process(). */
  predicate LostInv(s: State) {
    s.lost.Some? ==> GoesAstray(s, Process(s.lost.value))
  }

  ghost predicate Inv(s: State, disk: Disk) {
    S.Inv(s.server) && LostInv(s) && forall c :: c in s.server.open ==> InStep(s, disk, c)
  }

  lemma {:induction false} DriveSnoc(p: Parser, chunks: seq<seq<char>>, e: seq<char>)
    requires Wf(p)
    ensures Drive(p, chunks + [e])
            == if Drive(p, chunks).1.Pending? then Run(Feed(Drive(p, chunks).0, e)) else Drive(p, chunks)
    decreases |chunks|
  {
    if chunks == [] {
      assert chunks + [e] == [e];
      assert [e][1..] == [];
      assert Drive(Run(Feed(p, e)).0, []) == (Run(Feed(p, e)).0, Pending);
    } else {
      assert (chunks + [e])[1..] == chunks[1..] + [e];
      var (q, outcome) := Run(Feed(p, chunks[0]));
      if outcome.Pending? {
        DriveSnoc(q, chunks[1..], e);
      }
    }
  }

  /** A step that leaves `c` alone and gives it to nobody who did not have it. */
  lemma Unaffected(s: State, t: State, disk: Disk, c: S.Conn)
    requires InStep(s, disk, c) && SlotOf(t, c) == SlotOf(s, c)
    requires S.Held(t.server.pool, c) > 0 ==> S.Held(s.server.pool, c) > 0
    requires c in t.server.armed ==> c in s.server.armed && t.server.armed[c] == s.server.armed[c]
    requires forall kind :: Reported(t.server.batch, c, kind) ==> Reported(s.server.batch, c, kind)
    ensures InStep(t, disk, c)
  {
  }

  /** Nobody but the reports has a connection that is not armed and not held. */
  lemma NotReported(batch: seq<S.Report>, c: S.Conn)
    requires S.InBatch(batch, c) == 0
    ensures forall kind :: S.Report(c, kind) !in batch
  {
    forall kind | S.Report(c, kind) in batch
      ensures false
    {
      S.ReportedKind(batch, S.Report(c, kind));
    }
  }

  lemma WaitKeeps(s: State, reports: seq<S.Report>, disk: Disk, c: S.Conn)
    requires Inv(s, disk) && c in s.server.open
    ensures InStep(Proper(s, EpollWait(reports), disk), disk, c)
  {
    var t := Proper(s, EpollWait(reports), disk);
    if t != s {
      forall kind | Reported(t.server.batch, c, kind)
        ensures c in s.server.armed && S.Asked(kind, s.server.armed[c])
      {
        S.ReportedKind(reports, S.Report(c, kind));
      }
    }
  }

  lemma PoolStepKeeps(s: State, i: nat, disk: Disk, c: S.Conn)
    requires Inv(s, disk) && c in s.server.open
    ensures InStep(Proper(s, PoolStep(i), disk), disk, c)
  {
    if i < |s.server.pool.pcs| {
      S.HeldStep(s.server.pool, i, c);
    }
    Unaffected(s, Proper(s, PoolStep(i), disk), disk, c);
  }

  lemma Fresh()
    ensures Idle(FRESH, true)
  {
  }

  lemma ConnectPlaces(s: S.State, accepted: Option<S.Conn>, c: S.Conn)
    requires S.Inv(s) && c in S.Step(s, S.Connect(accepted)).open && c !in s.open
    ensures var t := S.Step(s, S.Connect(accepted));
            accepted == Some(c) && c !in s.known && S.Held(t.pool, c) == 0 && !WaitsOut(t, c)
  {
    assert accepted == Some(c) && c !in s.known && c != S.LISTENER;
    assert S.Owners(s, c) == 0;
    NotReported(s.batch, c);
  }

  lemma ConnectOther(s: S.State, accepted: Option<S.Conn>, c: S.Conn)
    requires S.Inv(s) && c in s.open
    ensures var t := S.Step(s, S.Connect(accepted));
            t.pool == s.pool && (c in t.armed ==> c in s.armed && t.armed[c] == s.armed[c])
            && (forall kind :: Reported(t.batch, c, kind) ==> Reported(s.batch, c, kind))
            && (accepted.Some? && accepted.value !in s.known ==> accepted.value != c)
  {
  }

  lemma SetGives(s: State, c: S.Conn, k: Slot, d: S.Conn)
    requires Wf(k.parser)
    ensures SlotOf(Set(s, c, k), d) == if d == c then k else SlotOf(s, d)
  {
  }

  lemma ConnectKeeps(s: State, accepted: Option<S.Conn>, disk: Disk, c: S.Conn)
    requires Inv(s, disk) && c in Proper(s, Connect(accepted), disk).server.open
    ensures InStep(Proper(s, Connect(accepted), disk), disk, c)
  {
    var t := Proper(s, Connect(accepted), disk);
    ConnectIs(s, accepted, disk, c);
    if c in s.server.open {
      ConnectOther(s.server, accepted, c);
      Unaffected(s, t, disk, c);
    } else {
      ConnectPlaces(s.server, accepted, c);
      Fresh();
    }
  }

  lemma ConnectIs(s: State, accepted: Option<S.Conn>, disk: Disk, d: S.Conn)
    requires |s.server.pool.pcs| == |s.server.pool.arg|
    ensures var t := Proper(s, Connect(accepted), disk);
            && t.server == S.Step(s.server, S.Connect(accepted))
            && SlotOf(t, d) == if accepted == Some(d) && d !in s.server.known then FRESH else SlotOf(s, d)
  {
  }

  lemma HandleOther(u: S.State, r: S.Report, readOk: bool, sent: Sending.Sent, c: S.Conn)
    requires P.Inv(u.pool) && S.Roles(u.pool) && S.MainIdle(u) && c != r.conn && c != S.LISTENER
    ensures var t := S.Handle(u, r, readOk, sent);
            t.batch == u.batch && S.Held(t.pool, c) == S.Held(u.pool, c)
            && (c in t.armed ==> c in u.armed && t.armed[c] == u.armed[c])
  {
    if r.kind.Readable? {
      S.CallHeld(u.pool, r.conn, c);
    }
  }

  /** Another connection than the one of the report. */
  lemma DispatchOther(s: State, r: S.Report, readOk: bool, sent: Sending.Sent, t: State, disk: Disk, c: S.Conn)
    requires Inv(s, disk) && Head(s.server) == Some(r) && c != r.conn && c in s.server.open
    requires t.server == S.Handle(s.server.(batch := s.server.batch[1..]), r, readOk, sent)
    requires SlotOf(t, c) == SlotOf(s, c)
    ensures InStep(t, disk, c)
  {
    HandleOther(s.server.(batch := s.server.batch[1..]), r, readOk, sent, c);
    Unaffected(s, t, disk, c);
  }

  /** A connection whose report has been taken off the batch belongs to nobody else. */
  lemma Alone(s: S.State, r: S.Report)
    requires S.Inv(s) && Head(s) == Some(r)
    ensures var u := s.(batch := s.batch[1..]);
            S.Held(u.pool, r.conn) == 0 && r.conn !in u.armed && (forall kind :: !Reported(u.batch, r.conn, kind))
    ensures Reported(s.batch, r.conn, r.kind) && !r.kind.Neither?
  {
    assert S.Owners(s, r.conn) <= 1;
    NotReported(s.batch[1..], r.conn);
  }

  /** Bytes come behind a parser that waits for them. */
  lemma Extended(k: Slot, e: seq<char>)
    requires Idle(k, true)
    ensures Fed(k.(parser := Feed(k.parser, e), chunks := k.chunks + [e]))
  {
    assert (k.chunks + [e])[..|k.chunks|] == k.chunks;
  }

  /** process_read on a parser that has been fed is the next step of its run over its chunks. */
  lemma Decided(k: Slot)
    requires Wf(k.parser) && Fed(k)
    ensures Run(k.parser) == Drive(Init, k.chunks)
  {
    var n := |k.chunks| - 1;
    assert k.chunks == k.chunks[..n] + [k.chunks[n]];
    DriveSnoc(Init, k.chunks[..n], k.chunks[n]);
  }

  lemma ReadPlaces(s: S.State, r: S.Report, sent: Sending.Sent)
    requires S.Inv(s) && Head(s) == Some(r) && r.kind.Readable? && r.conn in s.open
    ensures var t := S.Handle(s.(batch := s.batch[1..]), r, true, sent);
            S.Held(t.pool, r.conn) > 0 && !WaitsIn(t, r.conn) && !WaitsOut(t, r.conn)
  {
    Alone(s, r);
    S.CallHeld(s.pool, r.conn, r.conn);
  }

  lemma WritePlaces(s: S.State, r: S.Report, sent: Sending.Sent)
    requires S.Inv(s) && Head(s) == Some(r) && r.kind.Writable? && r.conn in s.open
    ensures var t := S.Handle(s.(batch := s.batch[1..]), r, true, sent);
            r.conn in t.open ==>
              S.Held(t.pool, r.conn) == 0 && (WaitsOut(t, r.conn) <==> sent.Again?)
              && (WaitsIn(t, r.conn) <==> sent.NothingToSend? || sent.DoneLinger?)
  {
    Alone(s, r);
  }

  /** What a step about a client's report is. */
  lemma DispatchIs(s: State, received: seq<Reader.RecvResult>, answers: seq<Sending.WritevResult>, disk: Disk, r: S.Report)
    requires Inv(s, disk) && Head(s.server) == Some(r)
    ensures var k := SlotOf(s, r.conn);
            var t := Proper(s, Dispatch(received, answers), disk);
            && t.server == S.Handle(s.server.(batch := s.server.batch[1..]), r, ReadOk(k.parser, received), SentFor(k, answers))
            && (forall d :: SlotOf(t, d) == if d == r.conn then Served(k, r.kind, d in s.server.open, received, answers)
                                            else SlotOf(s, d))
  {
    var k := SlotOf(s, r.conn);
    var k' := Served(k, r.kind, r.conn in s.server.open, received, answers);
    assert Wf(k'.parser);
    forall d
      ensures SlotOf(Set(s, r.conn, k'), d) == if d == r.conn then k' else SlotOf(s, d)
    {
      SetGives(s, r.conn, k', d);
    }
  }

  lemma HandleOpens(u: S.State, r: S.Report, readOk: bool, sent: Sending.Sent)
    requires |u.pool.pcs| == |u.pool.arg|
    ensures S.Handle(u, r, readOk, sent).open <= u.open
    ensures r.kind.Hangup? || (r.kind.Readable? && !readOk) ==> r.conn !in S.Handle(u, r, readOk, sent).open
  {
  }

  lemma ServedItself(
      s: State, r: S.Report, received: seq<Reader.RecvResult>, answers: seq<Sending.WritevResult>, t: State, disk: Disk)
    requires Inv(s, disk) && Head(s.server) == Some(r) && r.conn in s.server.open && r.conn in t.server.open
    requires var k := SlotOf(s, r.conn);
             t.server == S.Handle(s.server.(batch := s.server.batch[1..]), r, ReadOk(k.parser, received), SentFor(k, answers))
             && SlotOf(t, r.conn) == Served(k, r.kind, true, received, answers)
    ensures InStep(t, disk, r.conn)
  {
    var c, k := r.conn, SlotOf(s, r.conn);
    var sent := SentFor(k, answers);
    HandleOpens(s.server.(batch := s.server.batch[1..]), r, ReadOk(k.parser, received), sent);
    Alone(s.server, r);
    assert InStep(s, disk, c);
    if r.kind.Readable? {
      ReadPlaces(s.server, r, sent);
      Extended(k, Reader.Received(received));
    } else {
      WritePlaces(s.server, r, sent);
      Fresh();
    }
  }

  lemma DispatchKeeps(s: State, received: seq<Reader.RecvResult>, answers: seq<Sending.WritevResult>, disk: Disk, c: S.Conn)
    requires Inv(s, disk) && c in s.server.open && c in Proper(s, Dispatch(received, answers), disk).server.open
    ensures InStep(Proper(s, Dispatch(received, answers), disk), disk, c)
  {
    var t := Proper(s, Dispatch(received, answers), disk);
    match Head(s.server)
    case None => Unaffected(s, t, disk, c);
    case Some(r) =>
      DispatchIs(s, received, answers, disk, r);
      if c == r.conn {
        ServedItself(s, r, received, answers, t, disk);
      } else {
        DispatchOther(s, r, ReadOk(SlotOf(s, r.conn).parser, received), SentFor(SlotOf(s, r.conn), answers), t, disk, c);
      }
  }

  lemma ProcessPlaces(s: S.State, i: nat, answer: S.Answer, c: S.Conn)
    requires S.Inv(s) && i < |s.pool.pcs| && s.pool.pcs[i].Running? && c == s.pool.arg[i]
    ensures c != S.LISTENER
    ensures var t := S.Finish(s, i, answer);
            S.Held(s.pool, c) > 0 && c in s.open && S.Held(t.pool, c) == 0
            && (c in t.open ==>
                  !answer.NoResponse? && (WaitsIn(t, c) <==> answer.Incomplete?) && (WaitsOut(t, c) <==> answer.Response?))
  {
    S.ArgSet(s.pool.arg, i, c, c);
    S.HeldStep(s.pool, i, c);
    assert S.Owners(s, c) <= 1;
    NotReported(s.batch, c);
  }

  lemma ProcessOther(s: State, i: nat, answer: S.Answer, t: State, disk: Disk, c: S.Conn)
    requires Inv(s, disk) && i < |s.server.pool.pcs| && s.server.pool.pcs[i].Running?
    requires c != s.server.pool.arg[i] && c in s.server.open
    requires t.server == S.Finish(s.server, i, answer) && SlotOf(t, c) == SlotOf(s, c)
    ensures InStep(t, disk, c)
  {
    S.HeldStep(s.server.pool, i, c);
    Unaffected(s, t, disk, c);
  }

  /** A worker's decision on a slot is the one on its chunks. */
  lemma ProcessedSlot(k: Slot, run: (Parser, Outcome), disk: Disk)
    requires Wf(k.parser) && Fed(k) && run == Run(k.parser) && !run.1.Stray?
    ensures run == Drive(Init, k.chunks)
    ensures var k', answer := Processed(k, run, disk), AnswerOf(run, disk);
            (answer.Incomplete? ==> Idle(k', true)) && (answer.Response? ==> Ready(k', disk))
  {
    Decided(k);
    Reader.NoRequest(run, disk.stat);
  }

  lemma ProcessItself(s: State, i: nat, disk: Disk, t: State, c: S.Conn, run: (Parser, Outcome))
    requires Inv(s, disk) && i < |s.server.pool.pcs| && s.server.pool.pcs[i].Running? && c == s.server.pool.arg[i]
    requires run == Run(SlotOf(s, c).parser) && !run.1.Stray? && t.server == S.Finish(s.server, i, AnswerOf(run, disk))
    requires c in t.server.open && SlotOf(t, c) == Processed(SlotOf(s, c), run, disk)
    ensures InStep(t, disk, c)
  {
    ProcessPlaces(s.server, i, AnswerOf(run, disk), c);
    assert InStep(s, disk, c);
    ProcessedSlot(SlotOf(s, c), run, disk);
  }

  /** What a worker's process() is. */
  lemma ProcessIs(s: State, i: nat, disk: Disk, d: S.Conn)
    requires i < |s.server.pool.pcs| == |s.server.pool.arg| && s.server.pool.pcs[i].Running?
    ensures var x := s.server.pool.arg[i];
            var run := Run(SlotOf(s, x).parser);
            var t := Proper(s, Process(i), disk);
            && t.server == S.Finish(s.server, i, AnswerOf(run, disk))
            && SlotOf(t, d) == if d == x then Processed(SlotOf(s, x), run, disk) else SlotOf(s, d)
  {
    var x := s.server.pool.arg[i];
    SetGives(s, x, Processed(SlotOf(s, x), Run(SlotOf(s, x).parser), disk), d);
  }

  lemma ProcessKeeps(s: State, i: nat, disk: Disk, c: S.Conn)
    requires Inv(s, disk) && c in Proper(s, Process(i), disk).server.open && c in s.server.open
    requires !GoesAstray(s, Process(i))
    ensures InStep(Proper(s, Process(i), disk), disk, c)
  {
    var t := Proper(s, Process(i), disk);
    if i < |s.server.pool.pcs| && s.server.pool.pcs[i].Running? {
      var run := Run(SlotOf(s, s.server.pool.arg[i]).parser);
      ProcessIs(s, i, disk, c);
      if c == s.server.pool.arg[i] {
        ProcessItself(s, i, disk, t, c, run);
      } else {
        ProcessOther(s, i, AnswerOf(run, disk), t, disk, c);
      }
    } else {
      Unaffected(s, t, disk, c);
    }
  }

  /** Only Connect opens. */
  lemma Opens(s: S.State, a: S.Action, c: S.Conn)
    requires S.Inv(s) && !a.Connect? && c in S.Step(s, a).open
    ensures c in s.open
  {
    if c in s.known {
      S.StepFate(s, a, c);
    } else {
      S.KnownByConnect(s, a);
      S.StepKeeps(s, a);
    }
  }

  lemma ProperKeeps(s: State, a: Action, disk: Disk, c: S.Conn)
    requires Inv(s, disk) && !GoesAstray(s, a) && c in Proper(s, a, disk).server.open
    ensures InStep(Proper(s, a, disk), disk, c)
  {
    if !a.Connect? {
      Opens(s.server, ServerAction(s, a, disk), c);
    }
    match a
    case EpollWait(reports) => WaitKeeps(s, reports, disk, c);
    case Connect(accepted) => ConnectKeeps(s, accepted, disk, c);
    case Dispatch(received, answers) => DispatchKeeps(s, received, answers, disk, c);
    case PoolStep(i) => PoolStepKeeps(s, i, disk, c);
    case Process(i) => ProcessKeeps(s, i, disk, c);
  }

  lemma StepKeeps(s: State, a: Action, disk: Disk)
    requires Inv(s, disk)
    ensures Inv(Step(s, a, disk), disk)
  {
    if s.lost.None? && !GoesAstray(s, a) {
      S.StepKeeps(s.server, ServerAction(s, a, disk));
      forall c | c in Proper(s, a, disk).server.open
        ensures InStep(Proper(s, a, disk), disk, c)
      {
        ProperKeeps(s, a, disk, c);
      }
    } else {
      SameButLost(s, Step(s, a, disk), disk);
    }
  }

  lemma SameButLost(s: State, t: State, disk: Disk)
    requires Inv(s, disk) && t == s.(lost := t.lost) && LostInv(t)
    ensures Inv(t, disk)
  {
    forall c | c in t.server.open
      ensures InStep(t, disk, c)
    {
      Unaffected(s, t, disk, c);
    }
  }

  lemma {:induction false} Safety(s: State, actions: seq<Action>, disk: Disk)
    requires Inv(s, disk)
    ensures Inv(Exec(s, actions, disk), disk)
    decreases actions
  {
    if actions != [] {
      StepKeeps(s, actions[0], disk);
      Safety(Step(s, actions[0], disk), actions[1..], disk);
    }
  }

  // ----- the main results

  ghost predicate Initial(s: State) {
    S.Initial(s.server) && s.lost.None?
  }

  lemma InitialInv(s: State, disk: Disk)
    requires Initial(s)
    ensures Inv(s, disk)
  {
    S.InitialInv(s.server);
  }

  /**
   In every interleaving, up to the first write that goes astray, the parser of an open connection has run over all
   chunks read since its last init(), one by one, as a parser that is alone would have; but for the last chunk, while
   the connection is queued or in hand. It is armed for reading only while nothing is decided, and for writing only
   when something is.
   */
  lemma ParserAsIfAlone(s: State, actions: seq<Action>, disk: Disk, c: S.Conn)
    requires Initial(s) && c in Exec(s, actions, disk).server.open
    ensures var t := Exec(s, actions, disk);
            var k := SlotOf(t, c);
            && (S.Held(t.server.pool, c) > 0 ==> Fed(k))
            && (WaitsIn(t.server, c) || WaitsOut(t.server, c) ==> k.parser == Drive(Init, k.chunks).0)
            && (WaitsIn(t.server, c) ==> Drive(Init, k.chunks).1.Pending?)
            && (WaitsOut(t.server, c) ==> !Drive(Init, k.chunks).1.Pending?)
  {
    InitialInv(s, disk);
    Safety(s, actions, disk);
    assert InStep(Exec(s, actions, disk), disk, c);
  }

  /** The decision a worker comes to is that on the chunks of its connection. */
  lemma DecisionIsItsOwn(s: State, actions: seq<Action>, disk: Disk, i: nat)
    requires Initial(s)
    requires var p := Exec(s, actions, disk).server.pool; i < |p.pcs| == |p.arg| && p.pcs[i].Running?
    ensures var t := Exec(s, actions, disk);
            var c := t.server.pool.arg[i];
            c in t.server.open && Run(SlotOf(t, c).parser) == Drive(Init, SlotOf(t, c).chunks)
  {
    InitialInv(s, disk);
    Safety(s, actions, disk);
    var t := Exec(s, actions, disk);
    var c := t.server.pool.arg[i];
    ProcessPlaces(t.server, i, S.Incomplete, c);
    assert InStep(t, disk, c);
    Decided(SlotOf(t, c));
  }

  /** So it depends on nothing but the bytes of that connection: not on the threads, nor on how the bytes were cut. */
  lemma DecisionOnBytes(s: State, actions: seq<Action>, disk: Disk, i: nat, k: Slot)
    requires Initial(s)
    requires var t := Exec(s, actions, disk);
             var p := t.server.pool;
             i < |p.pcs| == |p.arg| && p.pcs[i].Running? && k == SlotOf(t, p.arg[i])
    requires !BodyArrived(Run(Feed(Init, Concat(k.chunks))))
    ensures Agree(Run(k.parser), Run(Feed(Init, Concat(k.chunks))))
  {
    DecisionIsItsOwn(s, actions, disk, i);
    InitSettled();
    DriveAgrees(Init, k.chunks);
  }

  /** If a run goes astray, then with a connection whose own bytes, as a parser that is alone would read them, do that. */
  lemma LostByItsBytes(s: State, actions: seq<Action>, disk: Disk) returns (c: S.Conn)
    requires Initial(s) && Exec(s, actions, disk).lost.Some?
    ensures var t := Exec(s, actions, disk); c in t.server.open && Drive(Init, SlotOf(t, c).chunks).1.Stray?
  {
    InitialInv(s, disk);
    Safety(s, actions, disk);
    var t := Exec(s, actions, disk);
    c := t.server.pool.arg[t.lost.value];
    DecisionIsItsOwn(s, actions, disk, t.lost.value);
  }

  /** Only responses are sent, and only for decisions that have one. */
  lemma RepliedTo(run: (Parser, Outcome), disk: Disk)
    requires AnswerOf(run, disk).Response?
    ensures !run.1.Stray? && Replied(Reader.CodeOf(run, disk.stat))
  {
  }

  /**
   What a connection that waits for EPOLLOUT has for writev is, in every interleaving, the response to its own chunks;
   it is framed as the messages for the decision on them, if the file's size fits an int. It reaches the peer whole if
   and only if one call of writev takes all of it.
   */
  lemma ResponseIsItsOwn(s: State, actions: seq<Action>, disk: Disk, c: S.Conn, k: Slot, run: (Parser, Outcome))
    requires Initial(s) && c in Exec(s, actions, disk).server.open && WaitsOut(Exec(s, actions, disk).server, c)
    requires k == SlotOf(Exec(s, actions, disk), c) && run == Drive(Init, k.chunks)
    ensures AnswerOf(run, disk).Response? && k.response == ResponseTo(run, disk)
    ensures FitsInt(|FileOf(run, disk)|) ==>
              Frames(k.response.payload, Messages(Reader.CodeOf(run, disk.stat), run.0.linger, FileOf(run, disk)))
    ensures forall answers | Sending.Possible(answers, |k.response.payload|) ::
              WholeSent(k.response, answers) <==> answers != [] && answers[0] == Sending.Wrote(|k.response.payload|)
  {
    InitialInv(s, disk);
    Safety(s, actions, disk);
    assert InStep(Exec(s, actions, disk), disk, c);
    RepliedTo(run, disk);
    var code, file := Reader.CodeOf(run, disk.stat), FileOf(run, disk);
    if FitsInt(|file|) {
      ResponsesFramed(code, run.0.linger, file);
    }
    forall answers | Sending.Possible(answers, |k.response.payload|)
      ensures WholeSent(k.response, answers) <==> answers != [] && answers[0] == Sending.Wrote(|k.response.payload|)
    {
      ResponseSentExactly(code, run.0.linger, file, answers);
    }
  }

  /** The calls of writev in one write() bring the peer the response and nothing else. */
  predicate WholeSent(response: Response, answers: seq<Sending.WritevResult>) {
    var counts := Sending.Calls(0, response.head, answers);
    Sending.Within(counts, |response.payload|) && Sending.Received(response.payload, counts) == response.payload
  }
}
