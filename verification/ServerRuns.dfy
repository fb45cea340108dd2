/** What holds in every run of the server, from its start on. */
module ServerRuns {
  import opened Base
  import opened Threads
  import opened Server
  import Sending
  import P = ThreadPool

  lemma Twice(arg: seq<P.Ref>, i: nat, j: nat)
    requires i < j < |arg| && arg[i] == arg[j]
    ensures multiset(arg)[arg[i]] >= 2
  {
    assert arg == arg[..j] + arg[j..];
    assert arg[..j][i] == arg[i] && arg[j..][0] == arg[j];
  }

  /**
   In every reachable state a connection is in at most one of: armed in epoll, reported, held by
   the event thread, queued, held by a worker. It is open while queued or held.
   */
  lemma ExclusiveOwnership(s: State, actions: seq<Action>, c: Conn)
    requires Initial(s) && c != LISTENER
    ensures var t := Exec(s, actions);
            && Owners(t, c) <= 1
            && (c in t.pool.queue || c in t.pool.arg ==> c in t.open && c !in t.armed)
            && (forall i, j :: 0 <= i < j < |t.pool.arg| && t.pool.arg[i] == t.pool.arg[j] ==> t.pool.arg[i] == P.NULL)
  {
    InitialInv(s);
    Safety(s, actions);
    var t := Exec(s, actions);
    forall i, j | 0 <= i < j < |t.pool.arg| && t.pool.arg[i] == t.pool.arg[j]
      ensures t.pool.arg[i] == P.NULL
    {
      Twice(t.pool.arg, i, j);
      assert t.pool.arg[i] != P.NULL ==> Owners(t, t.pool.arg[i]) <= 1;
    }
  }

  /** m_user_count is the number of slots whose m_sockfd is not -1. */
  lemma ConnectionCount(s: State, actions: seq<Action>)
    requires Initial(s)
    ensures var t := Exec(s, actions); t.count == |t.open| <= 65536
  {
    InitialInv(s);
    Safety(s, actions);
  }

  /** A run of the server is a run of its pool. */
  lemma {:induction false} PoolRun(s: State, actions: seq<Action>) returns (schedule: seq<P.Event>)
    requires |s.pool.pcs| == |s.pool.arg|
    ensures Exec(s, actions).pool == P.Exec(s.pool, schedule)
    decreases actions
  {
    schedule := [];
    if actions != [] {
      PoolMoves(s, actions[0]);
      var rest := PoolRun(Step(s, actions[0]), actions[1..]);
      match PoolEvent(s, actions[0])
      case None => schedule := rest;
      case Some(e) =>
        schedule := [e] + rest;
        assert schedule[1..] == rest;
    }
  }

  /** The connection the event thread is handing over. */
  function InHand(p: P.Pool): seq<Conn> {
    if MAIN < |p.pcs| == |p.arg| && P.Holds(p.pcs[MAIN]) then [p.arg[MAIN]] else []
  }

  /**
   Connections reach the workers in the order in which they were read, each once: what was read, without the calls
   that append refused, is what was popped, then the queue, then the connection that the event thread has in hand.
   */
  lemma ServedInOrder(s: State, actions: seq<Action>)
    requires Initial(s)
    ensures var t := Exec(s, actions);
            Kept(t.taken, t.refused)
            == t.pool.popped + t.pool.queue + InHand(t.pool)
  {
    InitialInv(s);
    Safety(s, actions);
    var t := Exec(s, actions);
    if P.Holds(t.pool.pcs[MAIN]) {
      var n := |t.taken| - 1;
      assert t.taken == t.taken[..n] + [t.taken[n]];
      KeptLast(t.taken[..n], t.refused, t.taken[n]);
    }
  }

  // ----- which connections are lost

  /** A connection nobody owns stays so: no later step hands it to append again, or closes it. */
  lemma {:induction false} IdleForever(s: State, actions: seq<Action>, c: Conn)
    requires Inv(s) && c in s.known && Owners(s, c) == 0
    ensures var t := Exec(s, actions); c in t.known && Owners(t, c) == 0 && (c in t.open <==> c in s.open)
    ensures multiset(Exec(s, actions).taken)[c] == multiset(s.taken)[c]
    decreases actions
  {
    if actions != [] {
      TakenReported(s, actions[0], c);
      StepKeeps(s, actions[0]);
      StepFate(s, actions[0], c);
      IdleForever(Step(s, actions[0]), actions[1..], c);
    }
  }

  /** So a request that append refuses keeps its connection open, and counted, for ever. */
  lemma RefusedForever(s: State, actions: seq<Action>, c: Conn)
    requires Inv(s) && MainRefuses(s) && c == s.pool.arg[MAIN]
    ensures var t := Exec(Step(s, PoolStep(MAIN)), actions); c in t.open && Owners(t, c) == 0
  {
    var u := Step(s, PoolStep(MAIN));
    StepFate(s, PoolStep(MAIN), c);
    StepKeeps(s, PoolStep(MAIN));
    IdleForever(u, actions, c);
  }

  /** Some step of the run is a refusal of `c`. */
  ghost predicate WasRefused(s: State, actions: seq<Action>, c: Conn)
    requires |s.pool.pcs| == |s.pool.arg|
    decreases actions
  {
    actions != [] && (Refusal(s, actions[0], c) || WasRefused(Step(s, actions[0]), actions[1..], c))
  }

  lemma {:induction false} LostIffRefused(s: State, actions: seq<Action>, c: Conn)
    requires Inv(s) && c != LISTENER && (c in s.open ==> Owners(s, c) == 1)
    ensures var t := Exec(s, actions); c in t.open ==> (Owners(t, c) == 1 <==> !WasRefused(s, actions, c))
    decreases actions
  {
    if actions != [] {
      StepKeeps(s, actions[0]);
      StepFate(s, actions[0], c);
      if Refusal(s, actions[0], c) {
        IdleForever(Step(s, actions[0]), actions[1..], c);
      } else {
        LostIffRefused(Step(s, actions[0]), actions[1..], c);
      }
    }
  }

  /** An open connection has exactly one owner if and only if append has never refused it; else it has none. */
  lemma OneOwnerExactly(s: State, actions: seq<Action>, c: Conn)
    requires Initial(s) && c != LISTENER
    ensures var t := Exec(s, actions);
            c in t.open ==> Owners(t, c) <= 1 && (Owners(t, c) == 1 <==> !WasRefused(s, actions, c))
  {
    InitialInv(s);
    Safety(s, actions);
    LostIffRefused(s, actions, c);
  }

  // ----- when append refuses

  lemma {:induction false} DistinctFit(queue: seq<Conn>, all: set<Conn>)
    requires forall c :: c in queue ==> c in all && multiset(queue)[c] <= 1
    ensures |queue| <= |all|
    decreases |queue|
  {
    if queue != [] {
      var c, rest := queue[0], queue[1..];
      assert queue == [c] + rest;
      forall d | d in rest
        ensures d in all - {c} && multiset(rest)[d] <= 1
      {
        assert multiset(queue)[d] == multiset(rest)[d] + One(d == c);
      }
      DistinctFit(rest, all - {c});
    }
  }

  /** append has found the queue too long. */
  predicate MainRefuses(s: State) {
    MAIN < |s.pool.pcs| && s.pool.pcs[MAIN].Refusing?
  }

  /** A refusal takes more open connections than a full queue: those in it, and the one in hand. */
  lemma RefusalNeeds(s: State)
    requires Inv(s) && MainRefuses(s)
    ensures s.count >= s.pool.max + 2
  {
    var c := s.pool.arg[MAIN];
    var all := s.pool.queue + [c];
    assert c in multiset(s.pool.arg);
    forall d | d in all
      ensures d in s.open && multiset(all)[d] <= 1
    {
      Pushed(s.pool.queue, c, d);
      assert multiset(all)[d] <= Held(s.pool, d) <= Owners(s, d) <= 1;
    }
    DistinctFit(all, s.open);
  }

  lemma RefusalNeedsMany(s: State, actions: seq<Action>)
    requires Initial(s) && MainRefuses(Exec(s, actions))
    ensures Exec(s, actions).count >= s.pool.max + 2
  {
    InitialInv(s);
    Safety(s, actions);
    MaxKept(s, actions);
    RefusalNeeds(Exec(s, actions));
  }

  lemma MaxKept(s: State, actions: seq<Action>)
    requires |s.pool.pcs| == |s.pool.arg|
    ensures Exec(s, actions).pool.max == s.pool.max
  {
    var schedule := PoolRun(s, actions);
  }

  lemma NextMax(s: State, a: Action)
    requires |s.pool.pcs| == |s.pool.arg|
    ensures Step(s, a).pool.max == s.pool.max
  {
    PoolMoves(s, a);
  }

  lemma RefusalIsMains(s: State, a: Action, c: Conn)
    requires Inv(s) && Refusal(s, a, c)
    ensures s.count >= s.pool.max + 2
  {
    assert P.Worker(s.pool.pcs[a.thread]) <==> a.thread != MAIN;
    RefusalNeeds(s);
  }

  /** m_user_count stays below `bound` all along the run. */
  ghost predicate CountBelow(s: State, actions: seq<Action>, bound: int)
    requires |s.pool.pcs| == |s.pool.arg|
    decreases actions
  {
    s.count < bound && (actions == [] || CountBelow(Step(s, actions[0]), actions[1..], bound))
  }

  lemma FewNotRefused(s: State, a: Action, c: Conn)
    requires Inv(s) && s.count < s.pool.max + 2
    ensures !Refusal(s, a, c)
  {
    if Refusal(s, a, c) {
      RefusalIsMains(s, a, c);
    }
  }

  lemma NotRefusedLater(s: State, actions: seq<Action>, c: Conn, u: State)
    requires |s.pool.pcs| == |s.pool.arg| && |u.pool.pcs| == |u.pool.arg|
    requires actions != [] && u == Step(s, actions[0]) && !Refusal(s, actions[0], c) && !WasRefused(u, actions[1..], c)
    ensures !WasRefused(s, actions, c)
  {
  }

  lemma BelowLater(s: State, actions: seq<Action>, bound: int, u: State)
    requires |s.pool.pcs| == |s.pool.arg| && |u.pool.pcs| == |u.pool.arg|
    requires actions != [] && u == Step(s, actions[0]) && CountBelow(s, actions, bound)
    ensures s.count < bound && CountBelow(u, actions[1..], bound)
  {
  }

  lemma {:induction false} FewAreNotRefused(s: State, actions: seq<Action>, c: Conn, bound: int)
    requires Inv(s) && bound == s.pool.max + 2 && CountBelow(s, actions, bound)
    ensures !WasRefused(s, actions, c)
    decreases actions
  {
    if actions != [] {
      var u := Step(s, actions[0]);
      NextMax(s, actions[0]);
      StepKeeps(s, actions[0]);
      BelowLater(s, actions, bound, u);
      FewNotRefused(s, actions[0], c);
      FewAreNotRefused(u, actions[1..], c, bound);
      NotRefusedLater(s, actions, c, u);
    }
  }

  /** So while m_user_count stays below m_max_requsts + 2, every open connection has exactly one owner. */
  lemma FewAreOwned(s: State, actions: seq<Action>, c: Conn)
    requires Initial(s) && CountBelow(s, actions, s.pool.max + 2) && c in Exec(s, actions).open
    ensures Owners(Exec(s, actions), c) == 1
  {
    InitialInv(s);
    Safety(s, actions);
    FewAreNotRefused(s, actions, c, s.pool.max + 2);
    OneOwnerExactly(s, actions, c);
  }

  // ----- and that it can

  lemma {:induction false} ExecConcat(s: State, a: seq<Action>, b: seq<Action>)
    requires |s.pool.pcs| == |s.pool.arg|
    ensures Exec(s, a + b) == Exec(Exec(s, a), b)
    decreases a
  {
    if a == [] {
      assert a + b == b;
    } else {
      assert (a + b)[1..] == a[1..] + b;
      ExecConcat(Step(s, a[0]), a[1..], b);
    }
  }

  lemma ExecOne(s: State, a: Action)
    requires |s.pool.pcs| == |s.pool.arg|
    ensures Exec(s, [a]) == Step(s, a)
  {
    assert [a][1..] == [];
  }

  /** `n` steps of the event thread in append. */
  function MainSteps(n: nat): seq<Action> {
    if n == 0 then [] else [PoolStep(MAIN)] + MainSteps(n - 1)
  }

  /** All but the pool and the log of refusals. */
  predicate SameOutside(s: State, t: State) {
    t == s.(pool := t.pool, refused := t.refused)
  }

  lemma {:induction false} MainStepsRepeat(s: State, n: nat)
    requires P.Inv(s.pool) && Roles(s.pool)
    ensures var t := Exec(s, MainSteps(n)); t.pool == P.Repeat(s.pool, MAIN, n) && SameOutside(s, t)
    decreases n
  {
    if n > 0 {
      assert MainSteps(n)[0] == PoolStep(MAIN) && MainSteps(n)[1..] == MainSteps(n - 1);
      P.AdvanceKeeps(s.pool, MAIN);
      RolesKept(s.pool, MAIN);
      MainStepsRepeat(Step(s, PoolStep(MAIN)), n - 1);
    }
  }

  /** append by the event thread, when nobody interrupts it. */
  lemma AppendMain(p: P.Pool, c: Conn)
    requires P.Inv(p) && Roles(p) && p.pcs[MAIN].Out? && p.mutex.None?
    ensures var q := P.Next(p, P.Call(MAIN, c));
            if |p.queue| > p.max then P.Repeat(q, MAIN, 2).pcs[MAIN].Refusing?
            else P.Repeat(q, MAIN, 5) == p.(queue := p.queue + [c], accepted := p.accepted + [c], sem := p.sem + 1)
  {
    var q := P.Next(p, P.Call(MAIN, c));
    P.AppendAlone(p, MAIN, c);
    var run := P.AppendRun(p, MAIN, c);
    if |p.queue| > p.max {
      P.AppendStarts(p, MAIN, c);
      assert P.Repeat(q, MAIN, 2) == P.Repeat(P.Advance(q, MAIN), MAIN, 1) == P.Advance(P.Advance(q, MAIN), MAIN);
      assert P.Repeat(q, MAIN, 1) == P.Advance(q, MAIN);
    } else {
      assert run[1..] == P.Steps(MAIN, 5);
      P.StepsRepeat(q, MAIN, 5);
    }
  }

  /** A connection is accepted, and reported readable. */
  function Arrival(c: Conn): seq<Action> {
    [EpollWait([Report(LISTENER, Readable)]), Connect(Some(c)),
     EpollWait([Report(c, Readable)]), Dispatch(true, Sending.Again)]
  }

  /** The event thread waits, nothing else goes on, and `k` connections have come, all of them queued. */
  ghost predicate Quiet(s: State, k: nat) {
    && Inv(s) && MainIdle(s) && s.batch == [] && s.pool.mutex.None?
    && |s.pool.queue| == s.count == k && (forall c :: c in s.known ==> c <= k)
  }

  lemma Accepted(s: State, c: Conn)
    requires |s.pool.pcs| == |s.pool.arg| && MainIdle(s) && s.batch == []
    requires c != LISTENER && c !in s.known && s.count < MAX_FD
    ensures var t := Exec(s, [EpollWait([Report(LISTENER, Readable)]), Connect(Some(c))]);
            && t.pool == s.pool && t.batch == [] && t.known == s.known + {c} && t.count == s.count + 1 && c in t.open
            && c in t.armed && t.armed[c].In?
  {
    var a, b := EpollWait([Report(LISTENER, Readable)]), Connect(Some(c));
    assert [a, b] == [a] + [b];
    ExecConcat(s, [a], [b]);
    ExecOne(s, a);
    assert Delivers(s, [Report(LISTENER, Readable)]);
    ExecOne(Step(s, a), b);
  }

  lemma OneDelivered(s: State, r: Report)
    requires r.conn in s.armed && Asked(r.kind, s.armed[r.conn])
    ensures Delivers(s, [r])
  {
    assert [r][1..] == [];
    forall q | q in [r] && q.conn in s.armed
      ensures Asked(q.kind, s.armed[q.conn])
    {
      assert q == r;
    }
  }

  lemma Taken(s: State, c: Conn)
    requires |s.pool.pcs| == |s.pool.arg| && MainIdle(s) && s.batch == [] && c != LISTENER && c in s.open
    requires c in s.armed && s.armed[c].In?
    ensures var t := Exec(s, [EpollWait([Report(c, Readable)]), Dispatch(true, Sending.Again)]);
            t.pool == P.Next(s.pool, P.Call(MAIN, c)) && t.batch == [] && t.known == s.known && t.count == s.count
  {
    var reports := [Report(c, Readable)];
    var a, b := EpollWait(reports), Dispatch(true, Sending.Again);
    assert [a, b] == [a] + [b];
    ExecConcat(s, [a], [b]);
    ExecOne(s, a);
    OneDelivered(s, Report(c, Readable));
    ExecOne(Step(s, a), b);
  }

  lemma Arrived(s: State, k: nat)
    requires Quiet(s, k) && k < MAX_FD
    ensures var t := Exec(s, Arrival(k + 1));
            && Inv(t) && t.pool == P.Next(s.pool, P.Call(MAIN, k + 1)) && t.batch == []
            && t.count == k + 1 && t.known == s.known + {k + 1}
  {
    var c := k + 1;
    var first := [EpollWait([Report(LISTENER, Readable)]), Connect(Some(c))];
    var second := [EpollWait([Report(c, Readable)]), Dispatch(true, Sending.Again)];
    assert Arrival(c) == first + second;
    ExecConcat(s, first, second);
    Accepted(s, c);
    Taken(Exec(s, first), c);
    Safety(s, Arrival(c));
  }

  /** While the queue is not too long, another connection leads from one quiet state to the next. */
  lemma Round(s: State, k: nat) returns (actions: seq<Action>)
    requires Quiet(s, k) && k < MAX_FD && k <= s.pool.max
    ensures Quiet(Exec(s, actions), k + 1) && Exec(s, actions).pool.max == s.pool.max
  {
    actions := Arrival(k + 1) + MainSteps(5);
    ExecConcat(s, Arrival(k + 1), MainSteps(5));
    Arrived(s, k);
    MainStepsRepeat(Exec(s, Arrival(k + 1)), 5);
    AppendMain(s.pool, k + 1);
    Safety(s, actions);
  }

  lemma {:induction false} Rounds(s: State, k: nat, n: nat) returns (actions: seq<Action>)
    requires Quiet(s, k) && k <= n <= s.pool.max + 1 && n < MAX_FD
    ensures Quiet(Exec(s, actions), n) && Exec(s, actions).pool.max == s.pool.max
    decreases n - k
  {
    actions := [];
    if k < n {
      var first := Round(s, k);
      var rest := Rounds(Exec(s, first), k + 1, n);
      ExecConcat(s, first, rest);
      actions := first + rest;
    }
  }

  /** If so many connections are allowed, a run in which one more comes than the queue takes. */
  lemma RefusalReached(s: State) returns (actions: seq<Action>)
    requires Initial(s) && s.pool.max + 2 <= MAX_FD
    ensures MainRefuses(Exec(s, actions))
  {
    InitialInv(s);
    var k := s.pool.max + 1;
    var first := Rounds(s, 0, k);
    var t := Exec(s, first);
    Arrived(t, k);
    AppendMain(t.pool, k + 1);
    MainStepsRepeat(Exec(t, Arrival(k + 1)), 2);
    ExecConcat(t, Arrival(k + 1), MainSteps(2));
    ExecConcat(s, first, Arrival(k + 1) + MainSteps(2));
    actions := first + (Arrival(k + 1) + MainSteps(2));
  }

  /** Some run leads to a refusal. */
  ghost predicate CanRefuse(s: State)
    requires |s.pool.pcs| == |s.pool.arg|
  {
    exists actions :: MainRefuses(Exec(s, actions))
  }

  /** append can refuse if and only if MAX_FD allows for two connections more than m_max_requsts. */
  lemma RefusalExactly(s: State)
    requires Initial(s)
    ensures CanRefuse(s) <==> s.pool.max + 2 <= 65536
  {
    if s.pool.max + 2 <= MAX_FD {
      var actions := RefusalReached(s);
    } else {
      forall actions
        ensures !MainRefuses(Exec(s, actions))
      {
        ConnectionCount(s, actions);
        if MainRefuses(Exec(s, actions)) {
          RefusalNeedsMany(s, actions);
        }
      }
    }
  }

  /** Then, from the start on, there is a run after which some connection stays open without an owner, whatever follows. */
  lemma ConnectionLost(s: State) returns (actions: seq<Action>, c: Conn)
    requires Initial(s) && s.pool.max + 2 <= MAX_FD
    ensures forall later :: var t := Exec(Exec(s, actions), later); c in t.open && Owners(t, c) == 0
  {
    var before := RefusalReached(s);
    InitialInv(s);
    Safety(s, before);
    var t := Exec(s, before);
    c := t.pool.arg[MAIN];
    actions := before + [PoolStep(MAIN)];
    ExecConcat(s, before, [PoolStep(MAIN)]);
    ExecOne(t, PoolStep(MAIN));
    forall later
      ensures var u := Exec(Exec(s, actions), later); c in u.open && Owners(u, c) == 0
    {
      RefusedForever(t, later, c);
    }
  }
}
