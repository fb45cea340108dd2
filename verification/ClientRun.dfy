/** From the start of the server on, a run in which a request comes, is read, queued, answered and sent. */
module ClientRun {
  import opened Base
  import opened RequestParser
  import opened ParserChunking
  import opened ParserReads
  import opened HttpCodes
  import opened ResponseFraming
  import opened Service
  import opened ServiceReplies
  import Client = HttpClient
  import Reader = RequestReader
  import Sending
  import S = Server
  import P = ThreadPool
  import ServerRuns
  import ResponseReading

  const CONN: S.Conn := 1

  lemma {:induction false} ExecConcat(s: State, a: seq<Action>, b: seq<Action>, disk: Disk)
    requires |s.server.pool.pcs| == |s.server.pool.arg|
    ensures Exec(s, a + b, disk) == Exec(Exec(s, a, disk), b, disk)
    decreases a
  {
    if a == [] {
      assert a + b == b;
    } else {
      assert (a + b)[1..] == a[1..] + b;
      ExecConcat(Step(s, a[0], disk), a[1..], b, disk);
    }
  }

  lemma ExecOne(s: State, a: Action, disk: Disk)
    requires |s.server.pool.pcs| == |s.server.pool.arg|
    ensures Exec(s, [a], disk) == Step(s, a, disk)
  {
    assert [a][1..] == [];
  }

  /** One step on. */
  lemma ExecSnoc(s: State, actions: seq<Action>, a: Action, disk: Disk)
    requires |s.server.pool.pcs| == |s.server.pool.arg|
    ensures Exec(s, actions + [a], disk) == Step(Exec(s, actions, disk), a, disk)
  {
    ExecConcat(s, actions, [a], disk);
    ExecOne(Exec(s, actions, disk), a, disk);
  }

  // ----- steps of one thread

  function PoolSteps(i: nat, n: nat): seq<Action> {
    if n == 0 then [] else [PoolStep(i)] + PoolSteps(i, n - 1)
  }

  /** Slots, and all of the server but the pool and its log of refusals, are as they were. */
  predicate OnlyPool(s: State, t: State) {
    t == s.(server := s.server.(pool := t.server.pool, refused := t.server.refused))
  }

  lemma {:induction false} PoolStepsRepeat(s: State, i: nat, n: nat, disk: Disk)
    requires i < |s.server.pool.pcs| == |s.server.pool.arg| && s.lost.None?
    requires forall m: nat :: m < n ==> !P.Repeat(s.server.pool, i, m).pcs[i].Running?
    ensures var t := Exec(s, PoolSteps(i, n), disk); t.server.pool == P.Repeat(s.server.pool, i, n) && OnlyPool(s, t)
    decreases n
  {
    if n > 0 {
      assert PoolSteps(i, n)[0] == PoolStep(i) && PoolSteps(i, n)[1..] == PoolSteps(i, n - 1);
      assert P.Repeat(s.server.pool, i, 0) == s.server.pool;
      var t := Step(s, PoolStep(i), disk);
      forall m: nat | m < n - 1
        ensures !P.Repeat(t.server.pool, i, m).pcs[i].Running?
      {
        assert P.Repeat(s.server.pool, i, m + 1) == P.Repeat(t.server.pool, i, m);
      }
      PoolStepsRepeat(t, i, n - 1, disk);
    }
  }

  lemma {:induction false} MainNotRunning(p: P.Pool, m: nat)
    requires P.Inv(p) && S.Roles(p)
    ensures !P.Repeat(p, S.MAIN, m).pcs[S.MAIN].Running?
    decreases m
  {
    if m > 0 {
      P.AdvanceKeeps(p, S.MAIN);
      S.RolesKept(p, S.MAIN);
      MainNotRunning(P.Advance(p, S.MAIN), m - 1);
    }
  }

  /** A worker whose token is there, on its way to process(). */
  lemma WorkerOnItsWay(p: P.Pool, w: nat, m: nat)
    requires w < |p.pcs| == |p.arg| && p.pcs[w].Waiting? && p.mutex.None? && p.sem > 0 && p.queue != [] && m < 5
    ensures !P.Repeat(p, w, m).pcs[w].Running?
  {
    var p1 := P.Advance(p, w);
    var p2 := P.Advance(p1, w);
    var p3 := P.Advance(p2, w);
    var p4 := P.Advance(p3, w);
    assert p1.pcs[w].Woken? && p2.pcs[w].Inside? && p3.pcs[w].Found? && p4.pcs[w].Popped?;
    assert m > 0 ==> P.Repeat(p, w, m) == P.Repeat(p1, w, m - 1);
    assert m > 1 ==> P.Repeat(p1, w, m - 1) == P.Repeat(p2, w, m - 2);
    assert m > 2 ==> P.Repeat(p2, w, m - 2) == P.Repeat(p3, w, m - 3);
    assert m > 3 ==> P.Repeat(p3, w, m - 3) == p4;
  }

  // ----- a request arrives

  /** The first connection is accepted. */
  function Acceptance(): seq<Action> {
    [EpollWait([S.Report(S.LISTENER, S.Readable)]), Connect(Some(CONN))]
  }

  lemma Accepted(s: State, disk: Disk)
    requires Initial(s)
    ensures var t := Exec(s, Acceptance(), disk);
            && t.server.pool == s.server.pool && t.server.batch == [] && t.lost.None?
            && CONN in t.server.open && ArmedFor(t.server, CONN, S.In) && SlotOf(t, CONN) == FRESH
  {
    var a, b := EpollWait([S.Report(S.LISTENER, S.Readable)]), Connect(Some(CONN));
    assert Acceptance() == [a] + [b];
    ExecSnoc(s, [a], b, disk);
    ExecOne(s, a, disk);
    assert S.Delivers(s.server, [S.Report(S.LISTENER, S.Readable)]);
  }

  lemma OneChunk(bytes: seq<char>)
    ensures var received := [Reader.Bytes(bytes), Reader.WouldBlock];
            Reader.Received(received) == bytes && (|bytes| <= READ_BUFFER_SIZE ==> Reader.ReadOk(0, received))
  {
    var received := [Reader.Bytes(bytes), Reader.WouldBlock];
    assert received[1..] == [Reader.WouldBlock];
  }

  /** A slot that has just got its first bytes. */
  function FirstBytes(bytes: seq<char>): Slot {
    Slot(Feed(Init, bytes), [bytes], Response([], 0))
  }

  /** The bytes are read, and append is called. */
  lemma Taken(u: State, disk: Disk, bytes: seq<char>)
    requires |u.server.pool.pcs| == |u.server.pool.arg| && S.MainIdle(u.server) && u.server.batch == [] && u.lost.None?
    requires CONN in u.server.open && ArmedFor(u.server, CONN, S.In) && SlotOf(u, CONN) == FRESH && |bytes| <= READ_BUFFER_SIZE
    ensures var report := EpollWait([S.Report(CONN, S.Readable)]);
            var t := Step(Step(u, report, disk), Dispatch([Reader.Bytes(bytes), Reader.WouldBlock], []), disk);
            && t.server.pool == P.Next(u.server.pool, P.Call(S.MAIN, CONN)) && t.server.batch == [] && t.lost.None?
            && SlotOf(t, CONN) == FirstBytes(bytes)
  {
    var r := S.Report(CONN, S.Readable);
    ServerRuns.OneDelivered(u.server, r);
    OneChunk(bytes);
    var v := Step(u, EpollWait([r]), disk);
    assert v.server.batch == [r] && v.server.batch[1..] == [] && SlotOf(v, CONN) == FRESH;
    assert [] + [bytes] == [bytes];
    var k := Served(FRESH, S.Readable, true, [Reader.Bytes(bytes), Reader.WouldBlock], []);
    assert k == FirstBytes(bytes);
    SetGives(v, CONN, k, CONN);
  }

  function Reading(bytes: seq<char>): seq<Action> {
    [EpollWait([S.Report(CONN, S.Readable)]), Dispatch([Reader.Bytes(bytes), Reader.WouldBlock], [])]
  }

  lemma TwoSteps(u: State, a: Action, b: Action, disk: Disk)
    requires |u.server.pool.pcs| == |u.server.pool.arg|
    ensures Exec(u, [a, b], disk) == Step(Step(u, a, disk), b, disk)
  {
    assert [a, b] == [a] + [b];
    ExecSnoc(u, [a], b, disk);
    ExecOne(u, a, disk);
  }

  /** The request has been queued by the event thread. */
  lemma Queued(u: State, p: P.Pool, disk: Disk)
    requires P.Inv(p) && S.Roles(p) && p.pcs[S.MAIN].Out? && p.mutex.None? && |p.queue| <= p.max && u.lost.None?
    requires u.server.pool == P.Next(p, P.Call(S.MAIN, CONN))
    ensures var t := Exec(u, PoolSteps(S.MAIN, 5), disk);
            && t.server.pool == p.(queue := p.queue + [CONN], accepted := p.accepted + [CONN], sem := p.sem + 1)
            && OnlyPool(u, t)
  {
    ServerRuns.AppendMain(p, CONN);
    P.CallKeeps(p, S.MAIN, CONN);
    forall m: nat | m < 5
      ensures !P.Repeat(u.server.pool, S.MAIN, m).pcs[S.MAIN].Running?
    {
      MainNotRunning(u.server.pool, m);
    }
    PoolStepsRepeat(u, S.MAIN, 5, disk);
  }

  /** A worker fetches it. */
  lemma Fetched(u: State, w: nat, disk: Disk)
    requires |u.server.pool.pcs| == |u.server.pool.arg| && w < |u.server.pool.pcs| && u.server.pool.pcs[w].Waiting?
    requires u.server.pool.arg[w] == P.NULL && u.server.pool.mutex.None? && u.server.pool.sem > 0
    requires u.server.pool.queue != [] && u.server.pool.queue[0] == CONN && u.lost.None?
    ensures var t := Exec(u, PoolSteps(w, 5), disk);
            && OnlyPool(u, t) && t.server.pool.pcs == u.server.pool.pcs[w := P.Running]
            && t.server.pool.arg == u.server.pool.arg[w := CONN]
  {
    var p := u.server.pool;
    P.RunAlone(p, w);
    P.StepsRepeat(p, w, 5);
    forall m: nat | m < 5
      ensures !P.Repeat(p, w, m).pcs[w].Running?
    {
      WorkerOnItsWay(p, w, m);
    }
    PoolStepsRepeat(u, w, 5, disk);
  }

  /** A worker is in process() for the connection that has sent these bytes, and main waits. */
  ghost predicate InProcess(u: State, w: nat, bytes: seq<char>) {
    && u.lost.None? && S.MainIdle(u.server) && u.server.batch == []
    && 0 < w < |u.server.pool.pcs| == |u.server.pool.arg| && u.server.pool.pcs[w].Running? && u.server.pool.arg[w] == CONN
    && SlotOf(u, CONN) == FirstBytes(bytes)
  }

  /** All of it, up to where a worker is in process(). */
  function Coming(w: nat, bytes: seq<char>): seq<Action> {
    Acceptance() + Reading(bytes) + PoolSteps(S.MAIN, 5) + PoolSteps(w, 5)
  }

  lemma AllSteps(s: State, w: nat, bytes: seq<char>, disk: Disk)
    requires |s.server.pool.pcs| == |s.server.pool.arg|
    ensures Exec(s, Coming(w, bytes), disk)
            == Exec(Exec(Exec(Exec(s, Acceptance(), disk), Reading(bytes), disk), PoolSteps(S.MAIN, 5), disk), PoolSteps(w, 5), disk)
  {
    ExecConcat(s, Acceptance() + Reading(bytes) + PoolSteps(S.MAIN, 5), PoolSteps(w, 5), disk);
    ExecConcat(s, Acceptance() + Reading(bytes), PoolSteps(S.MAIN, 5), disk);
    ExecConcat(s, Acceptance(), Reading(bytes), disk);
  }

  lemma Comes(s: State, w: nat, bytes: seq<char>, disk: Disk)
    requires Initial(s) && 0 < w < |s.server.pool.pcs| && |bytes| <= READ_BUFFER_SIZE
    ensures InProcess(Exec(s, Coming(w, bytes), disk), w, bytes)
  {
    S.InitialInv(s.server);
    AllSteps(s, w, bytes, disk);
    Accepted(s, disk);
    var t1 := Exec(s, Acceptance(), disk);
    Taken(t1, disk, bytes);
    TwoSteps(t1, Reading(bytes)[0], Reading(bytes)[1], disk);
    var t2 := Exec(t1, Reading(bytes), disk);
    Queued(t2, s.server.pool, disk);
    Fetched(Exec(t2, PoolSteps(S.MAIN, 5), disk), w, disk);
  }

  // ----- the answer

  lemma OneCall(bytes: seq<char>)
    ensures Drive(Init, [bytes]) == Run(Feed(Init, bytes))
  {
    assert [bytes][1..] == [];
  }

  lemma FinishQuiet(s: S.State, w: nat, answer: S.Answer)
    requires S.MainIdle(s) && s.batch == [] && 0 < w < |s.pool.pcs| && s.pool.pcs[w].Running?
    ensures var t := S.Finish(s, w, answer); S.MainIdle(t) && t.batch == []
  {
  }

  lemma StaysQuiet(u: State, w: nat, run: (Parser, Outcome), disk: Disk)
    requires u.lost.None? && S.MainIdle(u.server) && u.server.batch == []
    requires 0 < w < |u.server.pool.pcs| == |u.server.pool.arg| && u.server.pool.pcs[w].Running?
    requires run == Run(SlotOf(u, u.server.pool.arg[w]).parser) && !run.1.Stray?
    ensures var t := Step(u, Process(w), disk); t.lost.None? && S.MainIdle(t.server) && t.server.batch == []
  {
    ProcessIs(u, w, disk, CONN);
    FinishQuiet(u.server, w, AnswerOf(run, disk));
  }

  /** Whatever the bytes of a first request, process() concludes as they, and what stat finds, demand. */
  lemma FirstRequest(s: State, w: nat, bytes: seq<char>, disk: Disk, run: (Parser, Outcome), name: string)
    requires Initial(s) && 0 < w < |s.server.pool.pcs| && |bytes| <= READ_BUFFER_SIZE
    requires run == Run(Feed(Init, bytes)) && !run.1.Stray? && Reader.Names(name, Text(run.0, run.0.url).GetOr(""))
    ensures var t := Exec(s, Coming(w, bytes) + [Process(w)], disk);
            && Concluded(t, CONN, FirstBytes(bytes), run, disk.stat(name), disk.content(name))
            && t.lost.None? && S.MainIdle(t.server) && t.server.batch == []
  {
    Comes(s, w, bytes, disk);
    StaysQuiet(Exec(s, Coming(w, bytes), disk), w, run, disk);
    OneCall(bytes);
    assert AtProcess(Exec(s, Coming(w, bytes), disk), w, CONN, FirstBytes(bytes), run);
    ExecSnoc(s, Coming(w, bytes), Process(w), disk);
    ProcessExactly(s, Coming(w, bytes), disk, w, CONN, FirstBytes(bytes), run, name);
  }

  /** The request of the client, in one chunk. */
  function ClientBytes(): seq<char> {
    Client.Print(Client.CLIENT_URL, Client.CLIENT_HOST, [Client.CLIENT_AGENT, Client.CLIENT_PROXY])
  }

  lemma ClientDecided() returns (run: (Parser, Outcome))
    ensures |ClientBytes()| <= READ_BUFFER_SIZE && run == Run(Feed(Init, ClientBytes()))
    ensures run.1.Ready? && Text(run.0, run.0.url) == Some("/index.html") && run.0.linger
  {
    var bytes := ClientBytes();
    Client.TwoFieldsLength(Client.CLIENT_URL, Client.CLIENT_HOST, Client.CLIENT_AGENT, Client.CLIENT_PROXY);
    assert [bytes][1..] == [];
    assert bytes + [] == bytes;
    Client.ClientIsServed([bytes]);
    run := Run(Feed(Init, bytes));
    InitSettled();
    ReceiveNext(Init, [bytes], run);
  }

  const PAGE: string := "/home/ouyangyiqi/Learning/Linux/html/index.html"

  lemma PageNamed()
    ensures Reader.Names(PAGE, "/index.html")
  {
    Reader.IndexName();
  }

  /**
   From the start on, whichever worker fetches it: the request that the client sends ends up armed for writing, and
   what writev is given is the head of a 200 response and the page, if others may read it.
   */
  lemma ClientAnswered(s: State, w: nat, disk: Disk)
    requires Initial(s) && 0 < w < |s.server.pool.pcs|
    requires disk.stat(PAGE).Found? && disk.stat(PAGE).othersMayRead && !disk.stat(PAGE).isDirectory
    ensures var t := Exec(s, Coming(w, ClientBytes()) + [Process(w)], disk);
            && CONN in t.server.open && ArmedFor(t.server, CONN, S.Out)
            && SlotOf(t, CONN).response.payload == Payload(FILE_REQUEST, true, disk.content(PAGE))
            && SlotOf(t, CONN).response.head == |SlotOf(t, CONN).response.payload| - |disk.content(PAGE)|
            && SlotOf(t, CONN).parser.linger && t.lost.None? && S.MainIdle(t.server) && t.server.batch == []
  {
    var run := ClientDecided();
    PageNamed();
    FirstRequest(s, w, ClientBytes(), disk, run, PAGE);
  }

  /** The response is sent by one call of writev. */
  function Sends(size: nat): seq<Action> {
    [EpollWait([S.Report(CONN, S.Writable)]), Dispatch([], [Sending.Wrote(size)])]
  }

  lemma WholeByOne(response: Response)
    ensures WholeSent(response, [Sending.Wrote(|response.payload|)])
  {
    var answers := [Sending.Wrote(|response.payload|)];
    assert answers[1..] == [];
    assert Sending.Calls(0, response.head, answers) == [|response.payload|];
  }

  lemma OneCallEnds(total: nat, size: nat, sent: Sending.Sent)
    requires Sending.EndsBy(total, true, [Sending.Wrote(size)], sent) && total <= size
    ensures sent.DoneLinger? || sent.NothingToSend?
  {
    assert Sending.AllWrote([Sending.Wrote(size)], 1);
  }

  /** It is reported as writable, and nothing else changes. */
  lemma Writable(u: State, disk: Disk)
    requires |u.server.pool.pcs| == |u.server.pool.arg| && u.lost.None? && S.MainIdle(u.server) && u.server.batch == []
    requires CONN in u.server.open && ArmedFor(u.server, CONN, S.Out)
    ensures AtReport(Step(u, EpollWait([S.Report(CONN, S.Writable)]), disk), S.Report(CONN, S.Writable), SlotOf(u, CONN))
  {
    ServerRuns.OneDelivered(u.server, S.Report(CONN, S.Writable));
  }

  /** Sent whole by one call, on a connection that stays alive, the connection waits for the next request, as new. */
  lemma SentAndNew(s: State, actions: seq<Action>, disk: Disk, k: Slot)
    requires Initial(s)
    requires var u := Exec(s, actions, disk);
             && u.lost.None? && S.MainIdle(u.server) && u.server.batch == [] && CONN in u.server.open
             && ArmedFor(u.server, CONN, S.Out) && k == SlotOf(u, CONN)
    requires k.response.head <= |k.response.payload| && k.parser.linger
    ensures WholeSent(k.response, [Sending.Wrote(|k.response.payload|)])
    ensures var t := Exec(s, actions + Sends(|k.response.payload|), disk);
            CONN in t.server.open && ArmedFor(t.server, CONN, S.In) && SlotOf(t, CONN) == Slot(Init, [], Response([], 0))
  {
    var a, b := Sends(|k.response.payload|)[0], Sends(|k.response.payload|)[1];
    assert actions + Sends(|k.response.payload|) == actions + [a] + [b];
    ExecSnoc(s, actions + [a], b, disk);
    ExecSnoc(s, actions, a, disk);
    WholeByOne(k.response);
    Writable(Exec(s, actions, disk), disk);
    var ok, bytes, sent := ReportExactly(s, actions + [a], disk, S.Report(CONN, S.Writable), k, [], b.answers);
    OneCallEnds(k.response.head, |k.response.payload|, sent);
  }

  /**
   So, from the start on, the client can be served its page and then ask again: the bytes for writev are these, letter
   by letter, they reach it whole, and then the connection waits for the next request, as new.
   */
  lemma ClientServed(s: State, w: nat, disk: Disk, page: seq<char>) returns (actions: seq<Action>, k: Slot)
    requires Initial(s) && 0 < w < |s.server.pool.pcs| && page != [] && FitsInt(|page|) && page == disk.content(PAGE)
    requires disk.stat(PAGE).Found? && disk.stat(PAGE).othersMayRead && !disk.stat(PAGE).isDirectory
    ensures k == SlotOf(Exec(s, actions, disk), CONN) && ArmedFor(Exec(s, actions, disk).server, CONN, S.Out)
    ensures k.response.payload
            == "HTTP/1.1 200 OK" + "\r\n" + ("Content-Length: " + Dec(|page|) + "\r\n") + ("Connection: keep-alive" + "\r\n")
               + "\r\n" + page
    ensures WholeSent(k.response, [Sending.Wrote(|k.response.payload|)])
    ensures var t := Exec(s, actions + Sends(|k.response.payload|), disk);
            CONN in t.server.open && ArmedFor(t.server, CONN, S.In) && SlotOf(t, CONN) == Slot(Init, [], Response([], 0))
  {
    actions := Coming(w, ClientBytes()) + [Process(w)];
    ClientAnswered(s, w, disk);
    k := SlotOf(Exec(s, actions, disk), CONN);
    ResponseReading.FileSpelled(page);
    SentAndNew(s, actions, disk, k);
  }
}
