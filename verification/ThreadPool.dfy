/**
 The thread pool: any number of threads that call append and any number of workers in run,
 interleaved arbitrarily. A step of a thread is one access to what they share.
 */
module ThreadPool {
  import opened Base
  import opened Threads

  /** A request pointer; 0 is the null pointer. */
  type Ref = nat
  const NULL: Ref := 0

  /** Where a thread stands. */
  datatype Pc =
    | Out                          // not in append
    | Locking | Entered            // before and after m_queuelocker.lock()
    | Refusing | Admitted | Pushed // the queue is too long; it is not; pushed
    | Posting                      // unlocked, before m_queuestat.post()
    | Waiting | Woken | Inside     // before and after m_queuestat.wait(); locked
    | Missed | Found | Popped      // the queue is empty; it is not; popped
    | Running                      // unlocked, in process()

  /** The pool, the position and the request of each thread, and two logs: all requests pushed and popped. */
  datatype Pool = Pool(
    max: nat, pcs: seq<Pc>, arg: seq<Ref>, mutex: Option<nat>, queue: seq<Ref>, sem: nat,
    accepted: seq<Ref>, popped: seq<Ref>)

  datatype Event = Call(thread: nat, request: Ref) | Step(thread: nat)

  predicate InSection(pc: Pc) {
    pc.Entered? || pc.Refusing? || pc.Admitted? || pc.Pushed? || pc.Inside? || pc.Missed? || pc.Found? || pc.Popped?
  }

  /** The thread has a request that is not, or no longer, in the queue. */
  predicate Holds(pc: Pc) {
    pc.Locking? || pc.Entered? || pc.Refusing? || pc.Admitted? || pc.Popped? || pc.Running?
  }

  predicate Worker(pc: Pc) {
    pc.Waiting? || pc.Woken? || pc.Inside? || pc.Missed? || pc.Found? || pc.Popped? || pc.Running?
  }

  /** One step of thread `i`; a thread that is blocked stays where it is. */
  function Advance(p: Pool, i: nat): Pool
    requires i < |p.pcs| == |p.arg|
  {
    match p.pcs[i]
    case Out => p
    case Locking => if p.mutex.None? then p.(pcs := p.pcs[i := Entered], mutex := Some(i)) else p
    case Entered => p.(pcs := p.pcs[i := if |p.queue| > p.max then Refusing else Admitted])
    case Refusing => p.(pcs := p.pcs[i := Out], arg := p.arg[i := NULL], mutex := None)
    case Admitted =>
      p.(pcs := p.pcs[i := Pushed], arg := p.arg[i := NULL], queue := p.queue + [p.arg[i]], accepted := p.accepted + [p.arg[i]])
    case Pushed => p.(pcs := p.pcs[i := Posting], mutex := None)
    case Posting => p.(pcs := p.pcs[i := Out], sem := p.sem + 1)
    case Waiting => if p.sem > 0 then p.(pcs := p.pcs[i := Woken], sem := p.sem - 1) else p
    case Woken => if p.mutex.None? then p.(pcs := p.pcs[i := Inside], mutex := Some(i)) else p
    case Inside => p.(pcs := p.pcs[i := if p.queue == [] then Missed else Found])
    case Missed => p.(pcs := p.pcs[i := Waiting], mutex := None)
    case Found =>
      if p.queue == [] then p
      else p.(pcs := p.pcs[i := Popped], arg := p.arg[i := p.queue[0]], queue := p.queue[1..],
        popped := p.popped + [p.queue[0]])
    case Popped => p.(pcs := p.pcs[i := if p.arg[i] == NULL then Waiting else Running], mutex := None)
    case Running => p.(pcs := p.pcs[i := Waiting], arg := p.arg[i := NULL])
  }

  function Next(p: Pool, e: Event): Pool
    requires |p.pcs| == |p.arg|
  {
    if e.thread >= |p.pcs| then p
    else if e.Step? then Advance(p, e.thread)
    else if p.pcs[e.thread].Out? then p.(pcs := p.pcs[e.thread := Locking], arg := p.arg[e.thread := e.request])
    else p
  }

  function Exec(p: Pool, schedule: seq<Event>): (q: Pool)
    requires |p.pcs| == |p.arg|
    ensures |q.pcs| == |q.arg| == |p.pcs| && q.max == p.max
    decreases schedule
  {
    if schedule == [] then p else Exec(Next(p, schedule[0]), schedule[1..])
  }

  /** An appender that has pushed and not yet posted, or a worker that has waited and not yet popped. */
  predicate Between(pc: Pc) {
    pc.Pushed? || pc.Posting? || pc.Woken? || pc.Inside? || pc.Found?
  }

  /** How many such threads there are. */
  function InBetween(pcs: seq<Pc>): nat {
    Count(pcs, Between)
  }

  predicate TokenInv(p: Pool) {
    |p.queue| == p.sem + InBetween(p.pcs) && Missed !in p.pcs
  }

  predicate LogInv(p: Pool) {
    p.accepted == p.popped + p.queue
  }

  predicate BoundInv(p: Pool) {
    |p.queue| <= p.max + 1 && (Admitted in p.pcs ==> |p.queue| <= p.max) && (Refusing in p.pcs ==> |p.queue| > p.max)
  }

  predicate ArgInv(p: Pool) {
    && |p.pcs| == |p.arg|
    && forall i :: 0 <= i < |p.pcs| ==> (p.arg[i] != NULL ==> Holds(p.pcs[i])) && (p.pcs[i].Running? ==> p.arg[i] != NULL)
  }

  predicate Inv(p: Pool) {
    |p.pcs| == |p.arg| && Exclusive(p.pcs, InSection, p.mutex) && TokenInv(p) && LogInv(p) && BoundInv(p) && ArgInv(p)
  }

  /** Nothing has happened yet. */
  predicate Initial(p: Pool) {
    && |p.pcs| == |p.arg| && p.mutex.None? && p.queue == [] && p.sem == 0 && p.accepted == [] && p.popped == []
    && (forall i :: 0 <= i < |p.pcs| ==> (p.pcs[i].Out? || p.pcs[i].Waiting?) && p.arg[i] == NULL)
  }

  lemma InitialInv(p: Pool)
    requires Initial(p)
    ensures Inv(p)
  {
    CountZero(p.pcs, Between);
  }

  lemma TokenKept(p: Pool, i: nat)
    requires Inv(p) && i < |p.pcs|
    ensures TokenInv(Advance(p, i))
  {
    Moved(p.pcs, Between, i, Advance(p, i).pcs[i]);
  }

  lemma MutexKept(p: Pool, i: nat)
    requires Inv(p) && i < |p.pcs|
    ensures var q := Advance(p, i); Exclusive(q.pcs, InSection, q.mutex)
  {
    var q := Advance(p, i);
    SectionMoved(p.pcs, InSection, p.mutex, i, q.pcs[i], q.mutex);
  }

  lemma RestKept(p: Pool, i: nat)
    requires Inv(p) && i < |p.pcs|
    ensures var q := Advance(p, i); LogInv(q) && BoundInv(q) && ArgInv(q)
  {
  }

  lemma AdvanceKeeps(p: Pool, i: nat)
    requires Inv(p) && i < |p.pcs|
    ensures Inv(Advance(p, i))
  {
    TokenKept(p, i);
    MutexKept(p, i);
    RestKept(p, i);
  }

  lemma CallKeeps(p: Pool, i: nat, r: Ref)
    requires Inv(p) && i < |p.pcs| && p.pcs[i].Out?
    ensures Inv(Next(p, Call(i, r)))
  {
    Moved(p.pcs, Between, i, Locking);
    SectionMoved(p.pcs, InSection, p.mutex, i, Locking, p.mutex);
  }

  lemma NextKeeps(p: Pool, e: Event)
    requires Inv(p)
    ensures Inv(Next(p, e))
  {
    if e.thread < |p.pcs| {
      if e.Step? {
        AdvanceKeeps(p, e.thread);
      } else if p.pcs[e.thread].Out? {
        CallKeeps(p, e.thread, e.request);
      }
    }
  }

  /** Every run keeps the invariant. */
  lemma {:induction false} Safety(p: Pool, schedule: seq<Event>)
    requires Inv(p)
    ensures Inv(Exec(p, schedule))
    decreases schedule
  {
    if schedule != [] {
      NextKeeps(p, schedule[0]);
      Safety(Next(p, schedule[0]), schedule[1..]);
    }
  }

  // ----- the main results

  /** The queue holds one request for each token and each thread on its way; so a worker never finds it empty. */
  lemma TokenEquation(p: Pool, schedule: seq<Event>)
    requires Initial(p)
    ensures var q := Exec(p, schedule);
            && |q.queue| == q.sem + InBetween(q.pcs)
            && (forall i :: 0 <= i < |q.pcs| && q.pcs[i].Inside? ==> q.queue != [] && Advance(q, i).pcs[i].Found?)
            && Missed !in q.pcs
  {
    InitialInv(p);
    Safety(p, schedule);
    CountZero(Exec(p, schedule).pcs, Between);
  }

  /** First in, first out, each request once: nothing is lost, doubled or overtaken. */
  lemma FifoOnce(p: Pool, schedule: seq<Event>)
    requires Initial(p)
    ensures var q := Exec(p, schedule); q.accepted == q.popped + q.queue && |q.queue| <= q.max + 1
  {
    InitialInv(p);
    Safety(p, schedule);
  }

  /** A waiting request is never stranded: with nobody in between, every blocked worker can take a token. */
  lemma NoLostWakeup(p: Pool, schedule: seq<Event>, w: nat)
    requires Initial(p)
    requires var q := Exec(p, schedule); w < |q.pcs| && q.pcs[w].Waiting? && q.queue != [] && InBetween(q.pcs) == 0
    ensures var q := Exec(p, schedule); Advance(q, w).pcs[w].Woken? && q.sem == |q.queue|
  {
    InitialInv(p);
    Safety(p, schedule);
  }

  /** While there is a worker and the queue is not empty, some thread inside append or run can move. */
  lemma NoDeadlock(p: Pool, w: nat) returns (i: nat)
    requires Inv(p) && w < |p.pcs| && Worker(p.pcs[w]) && p.queue != []
    ensures i < |p.pcs| && !p.pcs[i].Out? && Advance(p, i).pcs[i] != p.pcs[i]
  {
    CountZero(p.pcs, Between);
    if p.mutex.Some? {
      i := p.mutex.value;
    } else if j :| 0 <= j < |p.pcs| && Between(p.pcs[j]) {
      i := j;
    } else {
      i := w;
    }
  }

  // ----- one call of append, one turn of run

  predicate Others(schedule: seq<Event>, i: nat) {
    forall k :: 0 <= k < |schedule| ==> schedule[k].thread != i
  }

  /** Whatever the other threads do, the owner of the mutex finds the queue and the logs as they were. */
  lemma {:induction false} WhileLocked(p: Pool, i: nat, others: seq<Event>)
    requires Inv(p) && p.mutex == Some(i) && Others(others, i)
    ensures var q := Exec(p, others);
            && Inv(q) && q.mutex == Some(i) && q.pcs[i] == p.pcs[i] && q.arg[i] == p.arg[i]
            && q.queue == p.queue && q.accepted == p.accepted && q.popped == p.popped
    decreases others
  {
    if others != [] {
      NextKeeps(p, others[0]);
      LockedStep(p, i, others[0]);
      WhileLocked(Next(p, others[0]), i, others[1..]);
    }
  }

  lemma LockedStep(p: Pool, i: nat, e: Event)
    requires Inv(p) && p.mutex == Some(i) && e.thread != i
    ensures var q := Next(p, e);
            && q.mutex == Some(i) && q.pcs[i] == p.pcs[i] && q.arg[i] == p.arg[i]
            && q.queue == p.queue && q.accepted == p.accepted && q.popped == p.popped
  {
  }

  /**
   append, from the test on, among any steps of other threads: it returns false and changes no
   more than the mutex if the queue is longer than m_max_requsts, and pushes its request otherwise.
   */
  lemma AppendOutcome(p: Pool, i: nat, others: seq<Event>)
    requires Inv(p) && i < |p.pcs| && p.pcs[i].Entered? && Others(others, i)
    ensures var q := Exec(Advance(p, i), others);
            var r := Advance(q, i);
            && (|p.queue| > p.max ==>
                  r.pcs[i].Out? && r.mutex.None? && r.queue == p.queue && r.accepted == p.accepted
                  && r.popped == p.popped && r.sem == q.sem)
            && (|p.queue| <= p.max ==>
                  r.pcs[i].Pushed? && r.queue == p.queue + [p.arg[i]] && r.accepted == p.accepted + [p.arg[i]]
                  && r.popped == p.popped)
  {
    AdvanceKeeps(p, i);
    WhileLocked(Advance(p, i), i, others);
  }

  function Steps(i: nat, n: nat): seq<Event> {
    if n == 0 then [] else [Step(i)] + Steps(i, n - 1)
  }

  function Repeat(p: Pool, i: nat, n: nat): (q: Pool)
    requires i < |p.pcs| == |p.arg|
    ensures |q.pcs| == |q.arg| == |p.pcs|
    decreases n
  {
    if n == 0 then p else Repeat(Advance(p, i), i, n - 1)
  }

  lemma {:induction false} StepsRepeat(p: Pool, i: nat, n: nat)
    requires i < |p.pcs| == |p.arg|
    ensures Exec(p, Steps(i, n)) == Repeat(p, i, n)
    decreases n
  {
    if n > 0 {
      assert Steps(i, n)[0] == Step(i) && Steps(i, n)[1..] == Steps(i, n - 1);
      StepsRepeat(Advance(p, i), i, n - 1);
    }
  }

  /** A call of append that runs without interruption. */
  function AppendRun(p: Pool, i: nat, r: Ref): seq<Event> {
    [Call(i, r)] + Steps(i, if |p.queue| > p.max then 3 else 5)
  }

  /** Thread `i` stands at `pc` with request `r`. */
  function Stand(p: Pool, i: nat, pc: Pc, r: Ref): Pool
    requires i < |p.pcs| == |p.arg|
  {
    p.(pcs := p.pcs[i := pc], arg := p.arg[i := r])
  }

  lemma Restand(p: Pool, q: Pool, i: nat, pc: Pc, r: Ref, pc': Pc, r': Ref)
    requires i < |p.pcs| == |p.arg|
             && q == p.(mutex := q.mutex, queue := q.queue, sem := q.sem, accepted := q.accepted, popped := q.popped)
    ensures Stand(Stand(q, i, pc, r), i, pc', r') == Stand(q, i, pc', r')
    ensures p.pcs[i] == pc' && p.arg[i] == r' ==> Stand(q, i, pc', r') == q
  {
    assert q.pcs[i := pc][i := pc'] == q.pcs[i := pc'] && q.arg[i := r][i := r'] == q.arg[i := r'];
    assert p.pcs[i] == pc' && p.arg[i] == r' ==> q.pcs[i := pc'] == q.pcs && q.arg[i := r'] == q.arg;
  }

  lemma AppendStarts(p: Pool, i: nat, r: Ref)
    requires Inv(p) && i < |p.pcs| && p.pcs[i].Out? && p.mutex.None?
    ensures Repeat(Next(p, Call(i, r)), i, 1) == Stand(p, i, Entered, r).(mutex := Some(i))
  {
    Restand(p, p, i, Locking, r, Entered, r);
  }

  /** A call of append that is refused leaves the pool exactly as it was; one that is not adds the request and a token. */
  lemma AppendAlone(p: Pool, i: nat, r: Ref)
    requires Inv(p) && i < |p.pcs| && p.pcs[i].Out? && p.mutex.None?
    ensures Exec(p, AppendRun(p, i, r))
            == if |p.queue| > p.max then p else p.(queue := p.queue + [r], accepted := p.accepted + [r], sem := p.sem + 1)
  {
    var n := if |p.queue| > p.max then 3 else 5;
    assert AppendRun(p, i, r)[0] == Call(i, r) && AppendRun(p, i, r)[1..] == Steps(i, n);
    var p1 := Next(p, Call(i, r));
    StepsRepeat(p1, i, n);
    AppendStarts(p, i, r);
    var p2 := Advance(p1, i);
    assert p2 == Stand(p.(mutex := Some(i)), i, Entered, r);
    if n == 3 {
      var p3 := Advance(p2, i);
      Restand(p, p.(mutex := Some(i)), i, Entered, r, Refusing, r);
      assert p3 == Stand(p.(mutex := Some(i)), i, Refusing, r);
      Restand(p, p, i, Refusing, r, Out, NULL);
      assert Advance(p3, i) == p;
      assert Repeat(p1, i, 3) == Repeat(p2, i, 2) == Repeat(p3, i, 1);
    } else {
      AppendTaken(p, p2, i, r);
      assert Repeat(p1, i, 5) == Repeat(p2, i, 4);
    }
  }

  lemma AppendTaken(p: Pool, p2: Pool, i: nat, r: Ref)
    requires Inv(p) && i < |p.pcs| && p.pcs[i].Out? && |p.queue| <= p.max && p.mutex.None?
    requires p2 == Stand(p.(mutex := Some(i)), i, Entered, r)
    ensures Repeat(p2, i, 4) == p.(queue := p.queue + [r], accepted := p.accepted + [r], sem := p.sem + 1)
  {
    var p3 := Advance(p2, i);
    var q := p.(queue := p.queue + [r], accepted := p.accepted + [r]);
    Restand(p, p.(mutex := Some(i)), i, Entered, r, Admitted, r);
    assert p3 == Stand(p.(mutex := Some(i)), i, Admitted, r);
    var p4 := Advance(p3, i);
    Restand(p, q.(mutex := Some(i)), i, Admitted, r, Pushed, NULL);
    assert p4 == Stand(q.(mutex := Some(i)), i, Pushed, NULL);
    var p5 := Advance(p4, i);
    Restand(p, q, i, Pushed, NULL, Posting, NULL);
    assert p5 == Stand(q, i, Posting, NULL);
    Restand(p, q.(sem := q.sem + 1), i, Posting, NULL, Out, NULL);
    assert Repeat(p2, i, 4) == Repeat(p3, i, 3) == Repeat(p4, i, 2) == Repeat(p5, i, 1) == Advance(p5, i);
  }

  /** A turn of run() that is not interrupted. */
  function RunTurn(p: Pool, i: nat): seq<Event> {
    Steps(i, if p.queue == [] then 4 else 5)
  }

  /** It takes the oldest request; or a token only, in the case that TokenEquation excludes. */
  lemma RunAlone(p: Pool, i: nat)
    requires i < |p.pcs| == |p.arg| && p.pcs[i].Waiting? && p.arg[i] == NULL && p.mutex.None? && p.sem > 0
    ensures Exec(p, RunTurn(p, i))
            == if p.queue == [] then p.(sem := p.sem - 1)
               else Stand(p.(queue := p.queue[1..], sem := p.sem - 1, popped := p.popped + [p.queue[0]]),
                          i, if p.queue[0] == NULL then Waiting else Running, p.queue[0])
  {
    var n := if p.queue == [] then 4 else 5;
    StepsRepeat(p, i, n);
    var p0 := p.(sem := p.sem - 1);
    var p1 := Advance(p, i);
    assert p1 == Stand(p0, i, Woken, NULL);
    var p2 := Advance(p1, i);
    Restand(p, p0.(mutex := Some(i)), i, Woken, NULL, Inside, NULL);
    assert p2 == Stand(p0.(mutex := Some(i)), i, Inside, NULL);
    assert Repeat(p, i, n) == Repeat(p1, i, n - 1) == Repeat(p2, i, n - 2);
    if n == 4 {
      MissAlone(p, p2, i);
    } else {
      TakeAlone(p, p2, i);
    }
  }

  lemma MissAlone(p: Pool, p2: Pool, i: nat)
    requires i < |p.pcs| == |p.arg| && p.pcs[i].Waiting? && p.arg[i] == NULL && p.mutex.None? && p.sem > 0 && p.queue == []
    requires p2 == Stand(p.(sem := p.sem - 1, mutex := Some(i)), i, Inside, NULL)
    ensures Repeat(p2, i, 2) == p.(sem := p.sem - 1)
  {
    var p3 := Advance(p2, i);
    Restand(p, p.(sem := p.sem - 1, mutex := Some(i)), i, Inside, NULL, Missed, NULL);
    assert p3 == Stand(p.(sem := p.sem - 1, mutex := Some(i)), i, Missed, NULL);
    Restand(p, p.(sem := p.sem - 1), i, Missed, NULL, Waiting, NULL);
    assert Repeat(p2, i, 2) == Repeat(p3, i, 1) == Advance(p3, i);
  }

  lemma TakeAlone(p: Pool, p2: Pool, i: nat)
    requires i < |p.pcs| == |p.arg| && p.pcs[i].Waiting? && p.arg[i] == NULL && p.mutex.None? && p.sem > 0 && p.queue != []
    requires p2 == Stand(p.(sem := p.sem - 1, mutex := Some(i)), i, Inside, NULL)
    ensures var r := p.queue[0];
            Repeat(p2, i, 3)
            == Stand(p.(queue := p.queue[1..], sem := p.sem - 1, popped := p.popped + [r]),
                     i, if r == NULL then Waiting else Running, r)
  {
    var r := p.queue[0];
    var q := p.(queue := p.queue[1..], sem := p.sem - 1, popped := p.popped + [r]);
    var p3 := Advance(p2, i);
    Restand(p, p.(sem := p.sem - 1, mutex := Some(i)), i, Inside, NULL, Found, NULL);
    assert p3 == Stand(p.(sem := p.sem - 1, mutex := Some(i)), i, Found, NULL);
    var p4 := Advance(p3, i);
    Restand(p, q.(mutex := Some(i)), i, Found, NULL, Popped, r);
    assert p4 == Stand(q.(mutex := Some(i)), i, Popped, r);
    Restand(p, q, i, Popped, r, if r == NULL then Waiting else Running, r);
    assert Repeat(p2, i, 3) == Repeat(p3, i, 2) == Repeat(p4, i, 1) == Advance(p4, i);
  }

  lemma {:induction false} ExecConcat(p: Pool, a: seq<Event>, b: seq<Event>)
    requires |p.pcs| == |p.arg|
    ensures Exec(p, a + b) == Exec(Exec(p, a), b)
    decreases a
  {
    if a == [] {
      assert a + b == b;
    } else {
      assert (a + b)[1..] == a[1..] + b;
      ExecConcat(Next(p, a[0]), a[1..], b);
    }
  }

  lemma {:induction false} FillUp(p: Pool, i: nat, r: Ref, k: nat) returns (schedule: seq<Event>)
    requires Inv(p) && i < |p.pcs| && p.pcs[i].Out? && p.mutex.None? && |p.queue| + k <= p.max + 1
    ensures var q := Exec(p, schedule); Inv(q) && q.pcs[i].Out? && q.mutex.None? && |q.queue| == |p.queue| + k
    decreases k
  {
    schedule := [];
    if k > 0 {
      var run := AppendRun(p, i, r);
      AppendAlone(p, i, r);
      Safety(p, run);
      var rest := FillUp(Exec(p, run), i, r, k - 1);
      ExecConcat(p, run, rest);
      schedule := run + rest;
    }
  }

  /**
   The documented maximum can be exceeded, by exactly one: for every m_max_requsts some run queues one more,
   and then append refuses.
   */
  lemma BoundIsReached(p: Pool, i: nat, r: Ref) returns (schedule: seq<Event>)
    requires Initial(p) && i < |p.pcs| && p.pcs[i].Out?
    ensures var q := Exec(p, schedule); |q.queue| == q.max + 1 && Exec(q, AppendRun(q, i, r)) == q
  {
    InitialInv(p);
    schedule := FillUp(p, i, r, p.max + 1);
    AppendAlone(Exec(p, schedule), i, r);
  }

  // ----- the class, run by one thread at a time

  class ThreadPool {
    const m_max_requsts: nat
    var m_workqueue: seq<Ref>
    var m_queuelocker: Option<nat>
    var m_queuestat: nat
    ghost var pcs: seq<Pc>
    ghost var arg: seq<Ref>
    ghost var accepted: seq<Ref>
    ghost var popped: seq<Ref>

    ghost function State(): Pool
      reads this
    {
      Pool(m_max_requsts, pcs, arg, m_queuelocker, m_workqueue, m_queuestat, accepted, popped)
    }

    constructor (max_requests: nat, ghost appenders: nat, ghost workers: nat)
      ensures Initial(State()) && m_max_requsts == max_requests
      ensures pcs == seq(appenders, _ => Out) + seq(workers, _ => Waiting)
    {
      m_max_requsts, m_workqueue, m_queuelocker, m_queuestat := max_requests, [], None, 0;
      pcs := seq(appenders, _ => Out) + seq(workers, _ => Waiting);
      arg := seq(appenders + workers, _ => NULL);
      accepted, popped := [], [];
    }

    /** append() by thread `i`. */
    method Append(i: nat, request: Ref) returns (ok: bool)
      requires Inv(State()) && i < |pcs| && pcs[i].Out? && m_queuelocker.None?
      modifies this
      ensures ok <==> |old(m_workqueue)| <= m_max_requsts
      ensures State() == Exec(old(State()), AppendRun(old(State()), i, request))
    {
      AppendAlone(State(), i, request);
      m_queuelocker := Some(i);
      if |m_workqueue| > m_max_requsts {
        m_queuelocker := None;
        return false;
      }
      m_workqueue := m_workqueue + [request];
      accepted := accepted + [request];
      m_queuelocker := None;
      m_queuestat := m_queuestat + 1;
      return true;
    }

    /** One turn of run() by worker `i`, up to the call of process(); None is a null request or an empty queue. */
    method RunOnce(i: nat) returns (request: Option<Ref>)
      requires i < |pcs| == |arg| && pcs[i].Waiting? && arg[i] == NULL && m_queuelocker.None? && m_queuestat > 0
      modifies this
      ensures request == (if old(m_workqueue) == [] || old(m_workqueue)[0] == NULL then None else Some(old(m_workqueue)[0]))
      ensures State() == Exec(old(State()), RunTurn(old(State()), i))
    {
      RunAlone(State(), i);
      m_queuestat := m_queuestat - 1;
      m_queuelocker := Some(i);
      if m_workqueue == [] {
        m_queuelocker := None;
        return None;
      }
      var front := m_workqueue[0];
      m_workqueue := m_workqueue[1..];
      popped := popped + [front];
      m_queuelocker := None;
      if front == NULL {
        assert pcs[i := Waiting] == pcs && arg[i := NULL] == arg;
        return None;
      }
      pcs, arg := pcs[i := Running], arg[i := front];
      return Some(front);
    }
  }
}
