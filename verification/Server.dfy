/**
 The half-sync/half-reactor server: the event thread of main, the workers of the pool, and
 the connections that pass between them. A connection is named by its pointer users + fd.
 */
module Server {
  import opened Base
  import opened Sending
  import opened Threads
  import P = ThreadPool

  type Conn = P.Ref
  const LISTENER: Conn := P.NULL   // the listening socket, in reports
  const MAX_FD: nat := 65536
  const MAIN: nat := 0             // the event thread among the threads of the pool

  /** What a descriptor is registered for, besides EPOLLRDHUP, which always is: EPOLLIN or EPOLLOUT. */
  datatype Interest = In | Out

  /** Which of the events main looks for first a report has. */
  datatype Kind = Hangup | Readable | Writable | Neither
  datatype Report = Report(conn: Conn, kind: Kind)

  /** How process() ends: NO_REQUEST, a response, or no response. */
  datatype Answer = Incomplete | Response | NoResponse

  /**
   `armed`: will be reported by epoll; `batch`: reported and not yet looked at; `open`: m_sockfd
   is not -1; `known`: accepted at some time (no client descriptor is ever closed); `count`: m_user_count.
   Two logs: the connections read and handed to append, in order, and which of these calls it has refused.
   */
  datatype State = State(
    pool: P.Pool, armed: map<Conn, Interest>, batch: seq<Report>, open: set<Conn>, known: set<Conn>, count: int,
    taken: seq<Conn>, refused: set<nat>)

  datatype Action =
    | EpollWait(reports: seq<Report>)
    | Connect(accepted: Option<Conn>)
    | Dispatch(readOk: bool, sent: Sent)
    | PoolStep(thread: nat)
    | Process(thread: nat, answer: Answer)

  // ----- the pieces of http_conn

  /** close_conn. */
  function Close(s: State, c: Conn): State {
    if c in s.open then s.(open := s.open - {c}, count := s.count - 1) else s
  }

  /** modfd(m_epollfd, m_sockfd, ...): no effect once m_sockfd is -1. */
  function Arm(s: State, c: Conn, interest: Interest): State {
    if c in s.open then s.(armed := s.armed[c := interest]) else s
  }

  /** init_conn. */
  function Open(s: State, c: Conn): State {
    s.(armed := s.armed[c := In], open := s.open + {c}, known := s.known + {c}, count := s.count + 1)
  }

  /** write(), and what main makes of its answer. */
  function Write(s: State, c: Conn, sent: Sent): State {
    match sent
    case Failed => Close(s, c)
    case Again => Arm(s, c, Out)
    case DoneClose => Close(Arm(s, c, In), c)
    case _ => Arm(s, c, In)
  }

  // ----- the steps

  function InBatch(batch: seq<Report>, c: Conn): nat {
    if batch == [] then 0 else One(batch[0].conn == c) + InBatch(batch[1..], c)
  }

  /** epoll reports hangups, and what was asked for; nothing else. */
  predicate Asked(kind: Kind, interest: Interest) {
    match kind
    case Hangup => true
    case Readable => interest.In?
    case Writable => interest.Out?
    case Neither => false
  }

  /** EPOLLONESHOT: an armed descriptor is reported at most once, and then is no longer armed. */
  ghost predicate Delivers(s: State, reports: seq<Report>) {
    && (forall c :: c != LISTENER ==> InBatch(reports, c) <= One(c in s.armed))
    && (forall r :: r in reports && r.conn != LISTENER && r.conn in s.armed ==> Asked(r.kind, s.armed[r.conn]))
  }

  predicate MainIdle(s: State) {
    MAIN < |s.pool.pcs| == |s.pool.arg| && s.pool.pcs[MAIN].Out?
  }

  /** The report at the head of the batch, which is not about the listening socket. */
  function Handle(s: State, r: Report, readOk: bool, sent: Sent): State
    requires |s.pool.pcs| == |s.pool.arg|
  {
    match r.kind
    case Hangup => Close(s, r.conn)
    case Readable =>
      if r.conn in s.open && readOk then s.(pool := P.Next(s.pool, P.Call(MAIN, r.conn)), taken := s.taken + [r.conn])
      else Close(s, r.conn)
    case Writable => Write(s, r.conn, sent)
    case Neither => s
  }

  /** process() by a worker, and its return to the loop of run. */
  function Finish(s: State, i: nat, answer: Answer): State
    requires i < |s.pool.pcs| == |s.pool.arg|
  {
    var c := s.pool.arg[i];
    var t := match answer
      case Incomplete => Arm(s, c, In)
      case Response => Arm(s, c, Out)
      case NoResponse => Arm(Close(s, c), c, Out);
    t.(pool := P.Advance(s.pool, i))
  }

  /** One atomic step; an action that is not possible leaves the state as it is. */
  ghost function Step(s: State, a: Action): (t: State)
    requires |s.pool.pcs| == |s.pool.arg|
    ensures |t.pool.pcs| == |t.pool.arg|
  {
    match a
    case EpollWait(reports) =>
      if MainIdle(s) && s.batch == [] && Delivers(s, reports)
      then s.(batch := reports, armed := map c | c in s.armed && InBatch(reports, c) == 0 :: s.armed[c])
      else s
    case Connect(accepted) =>
      if !MainIdle(s) || s.batch == [] || s.batch[0].conn != LISTENER then s
      else if accepted.Some? && (accepted.value in s.known || accepted.value == LISTENER) then s
      else
        var t := s.(batch := s.batch[1..]);
        if accepted.None? || s.count >= MAX_FD then t else Open(t, accepted.value)
    case Dispatch(readOk, sent) =>
      if !MainIdle(s) || s.batch == [] || s.batch[0].conn == LISTENER then s
      else Handle(s.(batch := s.batch[1..]), s.batch[0], readOk, sent)
    case PoolStep(i) =>
      if i < |s.pool.pcs| && !s.pool.pcs[i].Running? then
        s.(pool := P.Advance(s.pool, i),
           refused := if s.pool.pcs[i].Refusing? && s.taken != [] then s.refused + {|s.taken| - 1} else s.refused)
      else s
    case Process(i, answer) =>
      if i < |s.pool.pcs| && s.pool.pcs[i].Running? then Finish(s, i, answer) else s
  }

  ghost function Exec(s: State, actions: seq<Action>): (t: State)
    requires |s.pool.pcs| == |s.pool.arg|
    ensures |t.pool.pcs| == |t.pool.arg|
    decreases actions
  {
    if actions == [] then s else Exec(Step(s, actions[0]), actions[1..])
  }

  // ----- ownership

  /** How often a connection is in the queue or in the hands of a thread. */
  function Held(p: P.Pool, c: Conn): nat {
    multiset(p.queue)[c] + multiset(p.arg)[c]
  }

  /** How many own it: epoll, the unread reports, the queue, the event thread and the workers. */
  function Owners(s: State, c: Conn): nat {
    One(c in s.armed) + InBatch(s.batch, c) + Held(s.pool, c)
  }

  ghost predicate Owned(s: State) {
    forall c :: c != LISTENER ==> Owners(s, c) <= One(c in s.known)
  }

  /** Connections in the queue or in hand are open, and the queue has no null pointer. */
  ghost predicate Serving(s: State) {
    NoNull(s.pool) && forall c :: c != LISTENER && Held(s.pool, c) > 0 ==> c in s.open
  }

  predicate Roles(p: P.Pool) {
    MAIN < |p.pcs| && forall i :: 0 <= i < |p.pcs| ==> (P.Worker(p.pcs[i]) <==> i != MAIN)
  }

  predicate Counted(s: State) {
    s.open <= s.known && LISTENER !in s.known && s.count == |s.open| <= MAX_FD
  }

  /** The calls that were not refused. */
  function Kept(taken: seq<Conn>, refused: set<nat>): seq<Conn> {
    if taken == [] then []
    else
      var n := |taken| - 1;
      Kept(taken[..n], refused) + if n in refused then [] else [taken[n]]
  }

  /** What append has accepted is what was taken and not refused; but for the call that is on, for `hand`. */
  predicate LogOf(inHand: bool, hand: Conn, accepted: seq<Conn>, taken: seq<Conn>, refused: set<nat>) {
    && (forall k :: k in refused ==> k < |taken|)
    && if inHand
       then taken != [] && |taken| - 1 !in refused && taken[|taken| - 1] == hand
            && Kept(taken[..|taken| - 1], refused) == accepted
       else Kept(taken, refused) == accepted
  }

  predicate Logged(s: State) {
    && MAIN < |s.pool.pcs| == |s.pool.arg|
    && LogOf(P.Holds(s.pool.pcs[MAIN]), s.pool.arg[MAIN], s.pool.accepted, s.taken, s.refused)
  }

  /** No report is without an event that main looks for: its last branch is dead. */
  predicate Reportable(s: State) {
    forall r :: r in s.batch && r.conn != LISTENER ==> !r.kind.Neither?
  }

  ghost predicate Inv(s: State) {
    P.Inv(s.pool) && Roles(s.pool) && Owned(s) && Serving(s) && Counted(s) && Logged(s) && Reportable(s)
  }

  ghost predicate Initial(s: State) {
    P.Initial(s.pool) && Roles(s.pool) && s == State(s.pool, map[], [], {}, {}, 0, [], {})
  }

  lemma InitialInv(s: State)
    requires Initial(s)
    ensures Inv(s)
  {
    P.InitialInv(s.pool);
    assert forall c :: c in s.pool.arg ==> c == P.NULL;
  }

  lemma ArgSet(arg: seq<P.Ref>, i: nat, r: P.Ref, c: Conn)
    requires i < |arg|
    ensures multiset(arg[i := r])[c] == multiset(arg)[c] - One(arg[i] == c) + One(r == c)
    ensures arg[i] == c ==> multiset(arg)[c] > 0
  {
  }

  lemma Popped(queue: seq<P.Ref>, c: Conn)
    requires queue != []
    ensures multiset(queue[1..])[c] == multiset(queue)[c] - One(queue[0] == c)
  {
    assert queue == [queue[0]] + queue[1..];
  }

  lemma Pushed(queue: seq<P.Ref>, r: P.Ref, c: Conn)
    ensures multiset(queue + [r])[c] == multiset(queue)[c] + One(r == c)
  {
  }

  lemma FoundHeld(p: P.Pool, i: nat, c: Conn)
    requires P.Inv(p) && i < |p.pcs| && p.pcs[i].Found? && c != P.NULL
    ensures Held(P.Advance(p, i), c) == Held(p, c)
  {
    Moved(p.pcs, P.Between, i, P.Popped);
    ArgSet(p.arg, i, p.queue[0], c);
    Popped(p.queue, c);
  }

  lemma AdmittedHeld(p: P.Pool, i: nat, c: Conn)
    requires P.Inv(p) && i < |p.pcs| && p.pcs[i].Admitted? && c != P.NULL
    ensures Held(P.Advance(p, i), c) == Held(p, c)
  {
    ArgSet(p.arg, i, P.NULL, c);
    Pushed(p.queue, p.arg[i], c);
  }

  /** A step of the pool moves a request from hand to queue or back, or drops it on a refusal or at the end of process(). */
  lemma HeldStep(p: P.Pool, i: nat, c: Conn)
    requires P.Inv(p) && i < |p.pcs| && c != P.NULL
    ensures Held(P.Advance(p, i), c) == Held(p, c) - One((p.pcs[i].Refusing? || p.pcs[i].Running?) && p.arg[i] == c)
  {
    match p.pcs[i]
    case Found => FoundHeld(p, i, c);
    case Admitted => AdmittedHeld(p, i, c);
    case Refusing => ArgSet(p.arg, i, P.NULL, c);
    case Running => ArgSet(p.arg, i, P.NULL, c);
    case _ =>
  }

  lemma CallHeld(p: P.Pool, r: Conn, c: Conn)
    requires P.Inv(p) && Roles(p) && p.pcs[MAIN].Out? && c != P.NULL
    ensures Held(P.Next(p, P.Call(MAIN, r)), c) == Held(p, c) + One(r == c)
  {
    ArgSet(p.arg, MAIN, r, c);
  }

  lemma RolesKept(p: P.Pool, i: nat)
    requires P.Inv(p) && Roles(p) && i < |p.pcs|
    ensures Roles(P.Advance(p, i))
  {
  }

  predicate NoNull(p: P.Pool) {
    P.NULL !in p.queue && MAIN < |p.pcs| == |p.arg| && (P.Holds(p.pcs[MAIN]) ==> p.arg[MAIN] != P.NULL)
  }

  lemma NoNullKept(p: P.Pool, i: nat)
    requires P.Inv(p) && Roles(p) && NoNull(p) && i < |p.pcs|
    ensures NoNull(P.Advance(p, i))
  {
  }

  // ----- what a step does to the owners of one connection

  /** The event thread is refused by append. */
  predicate Refusal(s: State, a: Action, c: Conn) {
    a.PoolStep? && a.thread < |s.pool.pcs| == |s.pool.arg| && s.pool.pcs[a.thread].Refusing? && s.pool.arg[a.thread] == c
  }

  /**
   The fate of connection `c` in a step from `s` to `t`: it becomes known with one owner; or it keeps the number
   it had; or the only owner is lost, which takes a close or a refusal. A refused connection stays open.
   */
  ghost predicate Fate(s: State, a: Action, t: State, c: Conn) {
    && s.known <= t.known
    && (if c !in s.known then Owners(t, c) == One(c in t.known) == One(c in t.open)
        else (c in t.open ==> c in s.open) && (Owners(s, c) == 0 ==> c in s.open ==> c in t.open)
             && (Owners(t, c) == Owners(s, c)
                 || (Owners(s, c) == 1 && Owners(t, c) == 0 && (c !in t.open || Refusal(s, a, c)))))
    && (Refusal(s, a, c) ==> Owners(t, c) == 0 && c in t.open)
  }

  lemma PoolStepFate(s: State, i: nat, c: Conn)
    requires Inv(s) && c != LISTENER
    ensures Fate(s, PoolStep(i), Step(s, PoolStep(i)), c)
  {
    if i < |s.pool.pcs| {
      HeldStep(s.pool, i, c);
      ArgSet(s.pool.arg, i, s.pool.arg[i], c);
    }
  }

  lemma ProcessFate(s: State, i: nat, answer: Answer, c: Conn)
    requires Inv(s) && c != LISTENER
    ensures Fate(s, Process(i, answer), Step(s, Process(i, answer)), c)
  {
    if i < |s.pool.pcs| && s.pool.pcs[i].Running? {
      HeldStep(s.pool, i, c);
      ArgSet(s.pool.arg, i, s.pool.arg[i], c);
    }
  }

  lemma WaitFate(s: State, reports: seq<Report>, c: Conn)
    requires Inv(s) && c != LISTENER
    ensures Fate(s, EpollWait(reports), Step(s, EpollWait(reports)), c)
  {
  }

  lemma ConnectFate(s: State, accepted: Option<Conn>, c: Conn)
    requires Inv(s) && c != LISTENER
    ensures Fate(s, Connect(accepted), Step(s, Connect(accepted)), c)
  {
  }

  lemma WriteOwners(u: State, x: Conn, sent: Sent, c: Conn)
    requires Owners(u, x) == 0
    ensures var t := Write(u, x, sent);
            && Owners(t, c) == Owners(u, c) + One(c == x && x in u.open && !sent.Failed?)
            && (c in t.open <==> c in u.open && !(c == x && (sent.Failed? || sent.DoneClose?)))
  {
  }

  /** What the report of `x` may do to `c`: its own connection ends up with an owner or closed, another stays as it is. */
  predicate Handled(u: State, x: Conn, t: State, c: Conn) {
    && (c in t.open ==> c in u.open)
    && (c != x ==> Owners(t, c) == Owners(u, c) && (c in u.open ==> c in t.open))
    && (c == x ==> Owners(t, c) <= 1 && (Owners(t, c) == 1 || c !in t.open))
  }

  lemma CloseOwners(u: State, x: Conn, c: Conn)
    requires Owners(u, x) == 0
    ensures Handled(u, x, Close(u, x), c)
  {
  }

  lemma WriteHandled(u: State, x: Conn, sent: Sent, c: Conn)
    requires Owners(u, x) == 0
    ensures Handled(u, x, Write(u, x, sent), c)
  {
    WriteOwners(u, x, sent, c);
  }

  lemma ReadHandled(u: State, x: Conn, c: Conn)
    requires P.Inv(u.pool) && Roles(u.pool) && MainIdle(u) && Owners(u, x) == 0 && c != LISTENER
    ensures Handled(u, x, u.(pool := P.Next(u.pool, P.Call(MAIN, x)), taken := u.taken + [x]), c)
  {
    CallHeld(u.pool, x, c);
  }

  lemma HandleOwners(u: State, r: Report, readOk: bool, sent: Sent, c: Conn)
    requires P.Inv(u.pool) && Roles(u.pool) && MainIdle(u) && Owners(u, r.conn) == 0 && c != LISTENER && r.conn != LISTENER
    requires !r.kind.Neither?
    ensures Handled(u, r.conn, Handle(u, r, readOk, sent), c)
  {
    if r.kind.Writable? {
      WriteHandled(u, r.conn, sent, c);
    } else if r.kind.Readable? && r.conn in u.open && readOk {
      ReadHandled(u, r.conn, c);
    } else {
      CloseOwners(u, r.conn, c);
    }
  }

  lemma DispatchFate(s: State, readOk: bool, sent: Sent, c: Conn)
    requires Inv(s) && c != LISTENER
    ensures Fate(s, Dispatch(readOk, sent), Step(s, Dispatch(readOk, sent)), c)
  {
    if MainIdle(s) && s.batch != [] && s.batch[0].conn != LISTENER {
      var u, x := s.(batch := s.batch[1..]), s.batch[0].conn;
      assert Owners(s, x) == 1 + Owners(u, x) && Owners(s, x) <= One(x in s.known);
      assert Owners(u, c) == Owners(s, c) - One(c == x);
      HandleOwners(u, s.batch[0], readOk, sent, c);
      KnownStays(u, s.batch[0], readOk, sent);
    }
  }

  lemma KnownStays(u: State, r: Report, readOk: bool, sent: Sent)
    requires |u.pool.pcs| == |u.pool.arg|
    ensures Handle(u, r, readOk, sent).known == u.known
  {
  }

  lemma KnownByConnect(s: State, a: Action)
    requires |s.pool.pcs| == |s.pool.arg| && !a.Connect?
    ensures Step(s, a).known == s.known
  {
  }

  /** Only a connection that a report is about is read. */
  lemma TakenReported(s: State, a: Action, c: Conn)
    requires |s.pool.pcs| == |s.pool.arg| && InBatch(s.batch, c) == 0
    ensures multiset(Step(s, a).taken)[c] == multiset(s.taken)[c]
  {
    if a.Dispatch? && s.batch != [] {
      Pushed(s.taken, s.batch[0].conn, c);
    }
  }

  // ----- every step keeps the invariant

  lemma StepFate(s: State, a: Action, c: Conn)
    requires Inv(s) && c != LISTENER
    ensures Fate(s, a, Step(s, a), c)
  {
    match a
    case EpollWait(reports) => WaitFate(s, reports, c);
    case Connect(accepted) => ConnectFate(s, accepted, c);
    case Dispatch(readOk, sent) => DispatchFate(s, readOk, sent, c);
    case PoolStep(i) => PoolStepFate(s, i, c);
    case Process(i, answer) => ProcessFate(s, i, answer, c);
  }

  /** What a step of the server is for the pool. */
  ghost function PoolEvent(s: State, a: Action): Option<P.Event>
    requires |s.pool.pcs| == |s.pool.arg|
  {
    match a
    case Dispatch(readOk, sent) =>
      if MainIdle(s) && s.batch != [] && s.batch[0].conn != LISTENER && s.batch[0].kind.Readable?
        && s.batch[0].conn in s.open && readOk
      then Some(P.Call(MAIN, s.batch[0].conn)) else None
    case PoolStep(i) => if i < |s.pool.pcs| && !s.pool.pcs[i].Running? then Some(P.Step(i)) else None
    case Process(i, answer) => if i < |s.pool.pcs| && s.pool.pcs[i].Running? then Some(P.Step(i)) else None
    case _ => None
  }

  lemma PoolMoves(s: State, a: Action)
    requires |s.pool.pcs| == |s.pool.arg|
    ensures Step(s, a).pool == match PoolEvent(s, a) case None => s.pool case Some(e) => P.Next(s.pool, e)
  {
  }

  lemma PoolKept(s: State, a: Action)
    requires P.Inv(s.pool) && Roles(s.pool) && NoNull(s.pool)
    ensures var p := Step(s, a).pool; P.Inv(p) && Roles(p) && NoNull(p)
  {
    PoolMoves(s, a);
    match PoolEvent(s, a)
    case None =>
    case Some(e) =>
      P.NextKeeps(s.pool, e);
      if e.Step? {
        RolesKept(s.pool, e.thread);
        NoNullKept(s.pool, e.thread);
      }
  }

  /** A connection in the queue or in hand is open. */
  predicate HeldOpen(s: State, c: Conn) {
    Held(s.pool, c) > 0 ==> c in s.open
  }

  lemma CloseHeld(u: State, x: Conn, c: Conn)
    requires Owners(u, x) == 0 && HeldOpen(u, c)
    ensures HeldOpen(Close(u, x), c)
  {
  }

  lemma WriteHeld(u: State, x: Conn, sent: Sent, c: Conn)
    requires Owners(u, x) == 0 && HeldOpen(u, c)
    ensures HeldOpen(Write(u, x, sent), c)
  {
  }

  lemma ReadHeld(u: State, x: Conn, c: Conn)
    requires P.Inv(u.pool) && Roles(u.pool) && MainIdle(u) && c != LISTENER && HeldOpen(u, c) && x in u.open
    ensures HeldOpen(u.(pool := P.Next(u.pool, P.Call(MAIN, x)), taken := u.taken + [x]), c)
  {
    CallHeld(u.pool, x, c);
  }

  lemma HandleHeld(u: State, r: Report, readOk: bool, sent: Sent, c: Conn)
    requires P.Inv(u.pool) && Roles(u.pool) && MainIdle(u) && Owners(u, r.conn) == 0 && c != LISTENER && HeldOpen(u, c)
    ensures HeldOpen(Handle(u, r, readOk, sent), c)
  {
    if r.kind.Writable? {
      WriteHeld(u, r.conn, sent, c);
    } else if r.kind.Readable? && r.conn in u.open && readOk {
      ReadHeld(u, r.conn, c);
    } else {
      CloseHeld(u, r.conn, c);
    }
  }

  lemma DispatchHeld(s: State, readOk: bool, sent: Sent, c: Conn)
    requires Inv(s) && c != LISTENER && Held(Step(s, Dispatch(readOk, sent)).pool, c) > 0
    ensures c in Step(s, Dispatch(readOk, sent)).open
  {
    if MainIdle(s) && s.batch != [] && s.batch[0].conn != LISTENER {
      assert Owners(s, s.batch[0].conn) <= 1;
      HandleHeld(s.(batch := s.batch[1..]), s.batch[0], readOk, sent, c);
    }
  }

  lemma ProcessHeld(s: State, i: nat, answer: Answer, c: Conn)
    requires Inv(s) && c != LISTENER && Held(Step(s, Process(i, answer)).pool, c) > 0
    ensures c in Step(s, Process(i, answer)).open
  {
    if i < |s.pool.pcs| && s.pool.pcs[i].Running? {
      HeldStep(s.pool, i, c);
      ArgSet(s.pool.arg, i, P.NULL, c);
    }
  }

  lemma HeldIsOpen(s: State, a: Action, c: Conn)
    requires Inv(s) && c != LISTENER && Held(Step(s, a).pool, c) > 0
    ensures c in Step(s, a).open
  {
    match a
    case Dispatch(readOk, sent) => DispatchHeld(s, readOk, sent, c);
    case PoolStep(i) =>
      if i < |s.pool.pcs| {
        HeldStep(s.pool, i, c);
      }
    case Process(i, answer) => ProcessHeld(s, i, answer, c);
    case _ =>
  }

  lemma PiecesCounted(s: State, c: Conn)
    requires Counted(s)
    ensures Counted(Close(s, c))
    ensures forall i :: Counted(Arm(s, c, i)) && Counted(Close(Arm(s, c, i), c)) && Counted(Arm(Close(s, c), c, i))
  {
  }

  lemma HandleCounted(u: State, r: Report, readOk: bool, sent: Sent)
    requires Counted(u) && |u.pool.pcs| == |u.pool.arg|
    ensures Counted(Handle(u, r, readOk, sent))
  {
    PiecesCounted(u, r.conn);
  }

  lemma ConnectCounted(s: State, accepted: Option<Conn>)
    requires Counted(s) && |s.pool.pcs| == |s.pool.arg|
    ensures Counted(Step(s, Connect(accepted)))
  {
    if s.batch != [] && accepted.Some? && accepted.value != LISTENER && accepted.value !in s.known && s.count < MAX_FD {
      OpenCounted(s.(batch := s.batch[1..]), accepted.value);
    }
  }

  lemma FinishCounted(s: State, i: nat, answer: Answer)
    requires Counted(s) && i < |s.pool.pcs| == |s.pool.arg|
    ensures Counted(Finish(s, i, answer))
  {
    PiecesCounted(s, s.pool.arg[i]);
  }

  lemma CountedKept(s: State, a: Action)
    requires Counted(s) && |s.pool.pcs| == |s.pool.arg|
    ensures Counted(Step(s, a))
  {
    match a
    case Dispatch(readOk, sent) =>
      if s.batch != [] {
        HandleCounted(s.(batch := s.batch[1..]), s.batch[0], readOk, sent);
      }
    case Connect(accepted) => ConnectCounted(s, accepted);
    case Process(i, answer) =>
      if i < |s.pool.pcs| {
        FinishCounted(s, i, answer);
      }
    case _ =>
  }

  lemma OpenCounted(s: State, c: Conn)
    requires Counted(s) && c != LISTENER && c !in s.known && s.count < MAX_FD
    ensures Counted(Open(s, c))
  {
  }

  lemma {:induction false} KeptMore(taken: seq<Conn>, refused: set<nat>, k: nat)
    requires k >= |taken|
    ensures Kept(taken, refused + {k}) == Kept(taken, refused)
    decreases |taken|
  {
    if taken != [] {
      KeptMore(taken[..|taken| - 1], refused, k);
    }
  }

  lemma KeptLast(taken: seq<Conn>, refused: set<nat>, c: Conn)
    ensures Kept(taken + [c], refused) == Kept(taken, refused) + if |taken| in refused then [] else [c]
  {
    assert (taken + [c])[..|taken|] == taken;
  }

  lemma LogTaken(hand: Conn, accepted: seq<Conn>, taken: seq<Conn>, refused: set<nat>, c: Conn)
    requires LogOf(false, hand, accepted, taken, refused)
    ensures LogOf(true, c, accepted, taken + [c], refused)
  {
    assert (taken + [c])[..|taken|] == taken;
  }

  lemma LogAccepted(hand: Conn, accepted: seq<Conn>, taken: seq<Conn>, refused: set<nat>, c: Conn)
    requires LogOf(true, hand, accepted, taken, refused)
    ensures LogOf(false, c, accepted + [hand], taken, refused)
    ensures LogOf(false, c, accepted, taken, refused + {|taken| - 1})
  {
    var n := |taken| - 1;
    assert taken == taken[..n] + [hand];
    KeptLast(taken[..n], refused, hand);
    KeptMore(taken[..n], refused, n);
    KeptLast(taken[..n], refused + {n}, hand);
  }

  lemma PoolStepLogged(s: State, i: nat)
    requires Logged(s) && Roles(s.pool) && i < |s.pool.pcs|
    ensures Logged(Step(s, PoolStep(i)))
  {
    var p := s.pool;
    if i == MAIN && P.Holds(p.pcs[MAIN]) {
      LogAccepted(p.arg[MAIN], p.accepted, s.taken, s.refused, P.NULL);
    }
  }

  lemma HandleLogged(u: State, r: Report, readOk: bool, sent: Sent)
    requires Logged(u) && MainIdle(u)
    ensures Logged(Handle(u, r, readOk, sent))
  {
    LogTaken(u.pool.arg[MAIN], u.pool.accepted, u.taken, u.refused, r.conn);
  }

  lemma DispatchLogged(s: State, readOk: bool, sent: Sent)
    requires Logged(s)
    ensures Logged(Step(s, Dispatch(readOk, sent)))
  {
    if MainIdle(s) && s.batch != [] {
      HandleLogged(s.(batch := s.batch[1..]), s.batch[0], readOk, sent);
    }
  }

  lemma ProcessLogged(s: State, i: nat, answer: Answer)
    requires Logged(s) && Roles(s.pool)
    ensures Logged(Step(s, Process(i, answer)))
  {
  }

  lemma LoggedKept(s: State, a: Action)
    requires Inv(s)
    ensures Logged(Step(s, a))
  {
    match a
    case PoolStep(i) =>
      if i < |s.pool.pcs| {
        PoolStepLogged(s, i);
      }
    case Dispatch(readOk, sent) => DispatchLogged(s, readOk, sent);
    case Process(i, answer) => ProcessLogged(s, i, answer);
    case _ =>
  }

  lemma ReportedKind(reports: seq<Report>, r: Report)
    requires r in reports
    ensures InBatch(reports, r.conn) > 0
    decreases |reports|
  {
    if reports[0] != r {
      ReportedKind(reports[1..], r);
    }
  }

  lemma ReportableKept(s: State, a: Action)
    requires Inv(s)
    ensures Reportable(Step(s, a))
  {
    if a.EpollWait? {
      forall r | r in a.reports && r.conn != LISTENER && Delivers(s, a.reports)
        ensures !r.kind.Neither?
      {
        ReportedKind(a.reports, r);
      }
    }
  }

  lemma StepKeeps(s: State, a: Action)
    requires Inv(s)
    ensures Inv(Step(s, a))
  {
    PoolKept(s, a);
    CountedKept(s, a);
    LoggedKept(s, a);
    ReportableKept(s, a);
    forall c | c != LISTENER
      ensures Owners(Step(s, a), c) <= One(c in Step(s, a).known)
      ensures Held(Step(s, a).pool, c) > 0 ==> c in Step(s, a).open
    {
      StepFate(s, a, c);
      if Held(Step(s, a).pool, c) > 0 {
        HeldIsOpen(s, a, c);
      }
    }
  }

  lemma {:induction false} Safety(s: State, actions: seq<Action>)
    requires Inv(s)
    ensures Inv(Exec(s, actions))
    decreases actions
  {
    if actions != [] {
      StepKeeps(s, actions[0]);
      Safety(Step(s, actions[0]), actions[1..]);
    }
  }

  // ----- the code of the event thread

  class WebServer {
    var users: map<Conn, int>     // m_sockfd of each slot
    var m_user_count: int
    var epoll: map<Conn, Interest>
    var events: seq<Report>
    var pool: P.Pool
    ghost var known: set<Conn>
    ghost var taken: seq<Conn>
    ghost var refused: set<nat>

    ghost function Abs(): State
      reads this
    {
      State(pool, epoll, events, OpenSlots(), known, m_user_count, taken, refused)
    }

    ghost function OpenSlots(): set<Conn>
      reads this
    {
      set c | c in users && users[c] != -1
    }

    constructor (threads: P.Pool)
      requires P.Initial(threads) && Roles(threads)
      ensures Initial(Abs()) && pool == threads
    {
      users, m_user_count, epoll, events, pool := map[], 0, map[], [], threads;
      known, taken, refused := {}, [], {};
    }

    method CloseConn(c: Conn)
      modifies this`users, this`m_user_count
      ensures Abs() == Close(old(Abs()), c)
    {
      if c in users && users[c] != -1 {
        users := users[c := -1];
        m_user_count := m_user_count - 1;
      }
    }

    method ModFd(c: Conn, ev: Interest)
      modifies this`epoll
      ensures Abs() == Arm(old(Abs()), c, ev)
    {
      if c in users && users[c] != -1 {
        epoll := epoll[c := ev];
      }
    }

    method InitConn(c: Conn)
      requires c != LISTENER
      modifies this`users, this`m_user_count, this`epoll, this`known
      ensures Abs() == Open(old(Abs()), c)
    {
      users := users[c := c - 1];
      epoll := epoll[c := In];
      known := known + {c};
      m_user_count := m_user_count + 1;
    }

    /**
     write(): the loop over writev, and what it registers the descriptor for. Half of the head written leaves the
     connection to m_linger; EAGAIN before has it wait until it can be written to; another error is a failure.
     */
    method WriteConn(c: Conn, m_write_idx: nat, m_linger: bool, answers: seq<WritevResult>) returns (ok: bool)
      modifies this`epoll
      ensures ok == (SentOf(m_write_idx, m_linger, answers) != Failed && SentOf(m_write_idx, m_linger, answers) != DoneClose)
      ensures Abs() == var sent := SentOf(m_write_idx, m_linger, answers);
                       if sent.Failed? then old(Abs()) else Arm(old(Abs()), c, if sent.Again? then Out else In)
      ensures m_write_idx == 0 ==> ok && Armed(c, old(epoll), In)
      ensures forall n: nat | m_write_idx > 0 && AllWrote(answers, n) ::
                && (2 * Total(answers, n) >= m_write_idx ==> ok == m_linger && Armed(c, old(epoll), In))
                && (2 * Total(answers, n) < m_write_idx ==>
                      && (n == |answers| || answers[n] == WouldBlock ==> ok && Armed(c, old(epoll), Out))
                      && (n < |answers| && answers[n] == Error ==> !ok && epoll == old(epoll)))
    {
      var sent;
      ghost var counts;
      sent, counts := Send(m_write_idx, m_linger, answers);
      match sent
      case Failed => return false;
      case Again =>
        ModFd(c, Out);
        return true;
      case _ =>
        ModFd(c, In);
        return sent != DoneClose;
    }

    /** The descriptor of an open connection is registered for this, and nothing else has changed since `before`. */
    ghost predicate Armed(c: Conn, before: map<Conn, Interest>, interest: Interest)
      reads this
    {
      epoll == if c in users && users[c] != -1 then before[c := interest] else before
    }

    /** One turn of the for loop of main; a readable connection that goes to the pool starts the call of append. */
    method HandleEvent(accepted: Option<Conn>, readOk: bool, m_write_idx: nat, m_linger: bool, answers: seq<WritevResult>)
      requires events != [] && MainIdle(Abs())
      requires accepted.Some? ==> accepted.value != LISTENER && accepted.value !in known
      modifies this
      ensures Abs() == Step(old(Abs()), if old(events)[0].conn == LISTENER then Connect(accepted)
                                        else Dispatch(readOk, SentOf(m_write_idx, m_linger, answers)))
    {
      var report := events[0];
      events := events[1..];
      var c := report.conn;
      if c == LISTENER {
        if accepted == None {
          return;
        }
        if m_user_count >= MAX_FD {
          return;
        }
        InitConn(accepted.value);
      } else if report.kind == Hangup {
        CloseConn(c);
      } else if report.kind == Readable {
        if c in users && users[c] != -1 && readOk {
          pool, taken := P.Next(pool, P.Call(MAIN, c)), taken + [c];
        } else {
          CloseConn(c);
        }
      } else if report.kind == Writable {
        var ok := WriteConn(c, m_write_idx, m_linger, answers);
        if !ok {
          CloseConn(c);
        }
      }
    }

    /** process() by worker `i`. */
    method ProcessConn(i: nat, answer: Answer)
      requires i < |pool.pcs| == |pool.arg| && pool.pcs[i].Running?
      modifies this
      ensures Abs() == Step(old(Abs()), Process(i, answer))
    {
      var c := pool.arg[i];
      if answer == Incomplete {
        ModFd(c, In);
      } else {
        if answer == NoResponse {
          CloseConn(c);
        }
        ModFd(c, Out);
      }
      pool := P.Advance(pool, i);
    }
  }
}
