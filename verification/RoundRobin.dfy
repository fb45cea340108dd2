/** The parent of the process pool: round-robin dispatch over children that die one by one. */
module RoundRobin {
  import opened Base
  import opened Threads

  /** The pid of each child, -1 once it is reaped; sub_process_counter; m_stop. */
  datatype State = State(pids: seq<int>, counter: nat, stop: bool)

  datatype Event = Dispatch | Reap(pid: int)

  predicate Valid(s: State) {
    s.counter < |s.pids|
  }

  predicate Alive(pids: seq<int>, k: int) {
    0 <= k < |pids| && pids[k] != -1
  }

  // ----- the ring

  /** The place `d` behind `c` on a ring of `n`. */
  function Ahead(n: nat, c: nat, d: nat): (k: nat)
    requires c < n && d <= n
    ensures k < n
  {
    if c + d < n then c + d else c + d - n
  }

  /** How far `k` is ahead of `c`. */
  function Distance(n: nat, c: nat, k: nat): (d: nat)
    requires c < n && k < n
    ensures d < n && Ahead(n, c, d) == k
  {
    if k >= c then k - c else k + n - c
  }

  /** How many of the `d` children from `c` on are alive. */
  function Living(pids: seq<int>, c: nat, d: nat): nat
    requires c < |pids| && d <= |pids|
  {
    if d == 0 then 0 else Living(pids, c, d - 1) + One(Alive(pids, Ahead(|pids|, c, d - 1)))
  }

  /** L, the number of live children. */
  function Live(pids: seq<int>): nat {
    Count(pids, IsPid)
  }

  predicate IsPid(pid: int) {
    pid != -1
  }

  lemma {:induction false} LivingSplit(pids: seq<int>, c: nat, d: nat, e: nat)
    requires c < |pids| && d + e <= |pids|
    ensures Living(pids, c, d + e) == Living(pids, c, d) + Living(pids, Ahead(|pids|, c, d), e)
    decreases e
  {
    if e > 0 {
      LivingSplit(pids, c, d, e - 1);
      assert Ahead(|pids|, c, d + e - 1) == Ahead(|pids|, Ahead(|pids|, c, d), e - 1);
    }
  }

  lemma {:induction false} CountTake(pids: seq<int>, d: nat)
    requires 0 < |pids| && d <= |pids|
    ensures Count(pids[..d], IsPid) == Living(pids, 0, d)
    decreases d
  {
    if d > 0 {
      CountTake(pids, d - 1);
      assert pids[..d] == pids[..d - 1] + [pids[d - 1]];
      CountAppended(pids[..d - 1], pids[d - 1]);
    }
  }

  lemma {:induction false} CountAppended(pids: seq<int>, pid: int)
    ensures Count(pids + [pid], IsPid) == Count(pids, IsPid) + One(IsPid(pid))
    decreases |pids|
  {
    if pids == [] {
      assert pids + [pid] == [pid];
    } else {
      assert (pids + [pid])[1..] == pids[1..] + [pid];
      CountAppended(pids[1..], pid);
    }
  }

  /** Wherever one starts, a round of the ring meets all live children. */
  lemma FullRound(pids: seq<int>, c: nat)
    requires c < |pids|
    ensures Living(pids, c, |pids|) == Live(pids)
  {
    var n := |pids|;
    LivingSplit(pids, c, n - c, c);
    LivingSplit(pids, 0, c, n - c);
    CountTake(pids, n);
    assert pids[..n] == pids;
  }

  lemma {:induction false} NoneLiving(pids: seq<int>, c: nat, d: nat)
    requires c < |pids| && d <= |pids| && forall e :: 0 <= e < d ==> !Alive(pids, Ahead(|pids|, c, e))
    ensures Living(pids, c, d) == 0
    decreases d
  {
    if d > 0 {
      NoneLiving(pids, c, d - 1);
      assert !Alive(pids, Ahead(|pids|, c, d - 1));
    }
  }

  /** Children only die, so counts only fall. */
  lemma {:induction false} LivingFalls(pids: seq<int>, later: seq<int>, c: nat, d: nat)
    requires c < |pids| == |later| && d <= |pids| && forall k :: Alive(later, k) ==> Alive(pids, k)
    ensures Living(later, c, d) <= Living(pids, c, d)
    decreases d
  {
    if d > 0 {
      LivingFalls(pids, later, c, d - 1);
    }
  }

  // ----- dispatching

  /** The distance of the first live child from `c` on, among those at least `d` ahead. */
  function FirstLive(pids: seq<int>, c: nat, d: nat): (r: Option<nat>)
    requires c < |pids| && d <= |pids|
    ensures r.Some? ==> d <= r.value < |pids| && Alive(pids, Ahead(|pids|, c, r.value))
    ensures forall e :: d <= e < (if r.Some? then r.value else |pids|) ==> !Alive(pids, Ahead(|pids|, c, e))
    decreases |pids| - d
  {
    if d == |pids| then None
    else if Alive(pids, Ahead(|pids|, c, d)) then Some(d)
    else FirstLive(pids, c, d + 1)
  }

  /** The child that is sent the connection; None is the end of the loop. */
  function Choice(s: State): (r: Option<nat>)
    requires Valid(s)
    ensures r.Some? ==> Alive(s.pids, r.value)
  {
    match FirstLive(s.pids, s.counter, 0)
    case None => None
    case Some(d) => Some(Ahead(|s.pids|, s.counter, d))
  }

  function Reaped(pids: seq<int>, pid: int): seq<int> {
    seq(|pids|, k requires 0 <= k < |pids| => if pids[k] == pid then -1 else pids[k])
  }

  function Next(s: State, e: Event): (t: State)
    requires Valid(s)
    ensures Valid(t) && |t.pids| == |s.pids|
  {
    match e
    case Dispatch =>
      if s.stop then s
      else if Choice(s).None? then s.(stop := true)
      else s.(counter := Ahead(|s.pids|, Choice(s).value, 1))
    case Reap(pid) => s.(pids := Reaped(s.pids, pid))
  }

  /** The children chosen in a run, in order. */
  function Choices(s: State, events: seq<Event>): seq<nat>
    requires Valid(s)
    decreases events
  {
    if events == [] then []
    else
      var rest := Choices(Next(s, events[0]), events[1..]);
      if events[0].Dispatch? && !s.stop && Choice(s).Some? then [Choice(s).value] + rest else rest
  }

  function Exec(s: State, events: seq<Event>): (t: State)
    requires Valid(s)
    ensures Valid(t) && |t.pids| == |s.pids|
    decreases events
  {
    if events == [] then s else Exec(Next(s, events[0]), events[1..])
  }

  function Dispatches(events: seq<Event>): nat {
    if events == [] then 0 else One(events[0].Dispatch?) + Dispatches(events[1..])
  }

  // ----- fairness

  lemma {:induction false} OnlyDying(s: State, events: seq<Event>, k: nat)
    requires Valid(s) && Alive(Exec(s, events).pids, k)
    ensures Alive(s.pids, k)
    decreases events
  {
    if events != [] {
      OnlyDying(Next(s, events[0]), events[1..], k);
    }
  }

  /** A dispatch chooses `k`, or one of the live children between the counter and `k` has had its turn. */
  lemma OneNearer(s: State, k: nat)
    requires Valid(s) && !s.stop && Alive(s.pids, k)
    ensures var n, t := |s.pids|, Next(s, Dispatch);
            && Choice(s).Some? && !t.stop && t.pids == s.pids
            && (Choice(s).value == k
                || Living(t.pids, t.counter, Distance(n, t.counter, k)) < Living(s.pids, s.counter, Distance(n, s.counter, k)))
  {
    var n, c := |s.pids|, s.counter;
    var d := Distance(n, c, k);
    assert Alive(s.pids, Ahead(n, c, d));
    var f := FirstLive(s.pids, c, 0).value;
    if f < d {
      LivingSplit(s.pids, c, f + 1, d - f - 1);
      assert Ahead(n, Ahead(n, c, f), 1) == Ahead(n, c, f + 1);
      assert Distance(n, Ahead(n, c, f + 1), k) == d - f - 1;
      assert Living(s.pids, c, f + 1) >= 1;
    }
  }

  lemma {:induction false} ChosenInTime(s: State, events: seq<Event>, k: nat)
    requires Valid(s) && !s.stop && Alive(Exec(s, events).pids, k) && k < |s.pids|
    requires Dispatches(events) > Living(s.pids, s.counter, Distance(|s.pids|, s.counter, k))
    ensures k in Choices(s, events)
    decreases events
  {
    OnlyDying(s, events, k);
    var t := Next(s, events[0]);
    match events[0]
    case Dispatch =>
      OneNearer(s, k);
      if Choice(s).value != k {
        ChosenInTime(t, events[1..], k);
      }
    case Reap(pid) =>
      LivingFalls(s.pids, t.pids, s.counter, Distance(|s.pids|, s.counter, k));
      ChosenInTime(t, events[1..], k);
  }

  /** Between `c` and a live child there are fewer live children than in all. */
  lemma OthersBefore(pids: seq<int>, c: nat, k: nat)
    requires c < |pids| && Alive(pids, k)
    ensures Living(pids, c, Distance(|pids|, c, k)) < Live(pids)
  {
    var n := |pids|;
    var d := Distance(n, c, k);
    FullRound(pids, c);
    LivingSplit(pids, c, d + 1, n - d - 1);
  }

  /**
   Fairness: in any stretch with as many dispatches as there were live children at its start, a
   child that is alive to the end is chosen at least once, however many of the others die.
   */
  lemma Fairness(s: State, events: seq<Event>, k: nat)
    requires Valid(s) && !s.stop && Alive(Exec(s, events).pids, k) && Dispatches(events) >= Live(s.pids)
    ensures k in Choices(s, events)
  {
    OnlyDying(s, events, k);
    OthersBefore(s.pids, s.counter, k);
    ChosenInTime(s, events, k);
  }

  /** A dispatch stops the parent exactly when no child is alive. */
  lemma StopsIffNoneLive(s: State)
    requires Valid(s) && !s.stop
    ensures Next(s, Dispatch).stop <==> Live(s.pids) == 0
  {
    FullRound(s.pids, s.counter);
    if Choice(s).None? {
      NoneLiving(s.pids, s.counter, |s.pids|);
    } else {
      CountZero(s.pids, IsPid);
    }
  }

  /** Reaping a pid is the end of just the children that have it. */
  lemma ReapExactly(s: State, pid: int, k: nat)
    requires Valid(s) && k < |s.pids|
    ensures var t := Next(s, Reap(pid));
            && (Alive(t.pids, k) <==> Alive(s.pids, k) && s.pids[k] != pid)
            && (Alive(t.pids, k) ==> t.pids[k] == s.pids[k])
            && t.counter == s.counter && t.stop == s.stop
  {
  }

  lemma {:induction false} DeadNotChosen(s: State, events: seq<Event>, k: nat)
    requires Valid(s) && !Alive(s.pids, k)
    ensures k !in Choices(s, events)
    decreases events
  {
    if events != [] {
      DeadNotChosen(Next(s, events[0]), events[1..], k);
    }
  }

  /** A child whose pid is reaped is not sent anything any more. */
  lemma ReapedNotChosen(s: State, events: seq<Event>, k: nat)
    requires Valid(s) && k < |s.pids|
    ensures k !in Choices(Next(s, Reap(s.pids[k])), events)
  {
    ReapExactly(s, s.pids[k], k);
    DeadNotChosen(Next(s, Reap(s.pids[k])), events, k);
  }

  function Rounds(n: nat): seq<Event> {
    seq(n, _ => Dispatch)
  }

  lemma {:induction false} RoundsChoose(s: State, n: nat)
    requires Valid(s) && !s.stop && Live(s.pids) > 0
    ensures |Choices(s, Rounds(n))| == n == Dispatches(Rounds(n)) && Exec(s, Rounds(n)).pids == s.pids
    ensures forall k :: k in Choices(s, Rounds(n)) ==> Alive(s.pids, k)
    decreases n
  {
    if n > 0 {
      StopsIffNoneLive(s);
      assert Rounds(n)[1..] == Rounds(n - 1);
      RoundsChoose(Next(s, Dispatch), n - 1);
    }
  }

  /** The live children. */
  ghost function LiveSet(pids: seq<int>): set<nat> {
    set k: nat | k < |pids| && Alive(pids, k)
  }

  lemma {:induction false} LiveSetSize(pids: seq<int>)
    ensures |LiveSet(pids)| == Live(pids)
    decreases |pids|
  {
    if pids != [] {
      var m := |pids| - 1;
      var before := pids[..m];
      LiveSetSize(before);
      CountAppended(before, pids[m]);
      assert pids == before + [pids[m]];
      assert LiveSet(pids) == LiveSet(before) + if Alive(pids, m) then {m} else {};
    } else {
      assert LiveSet(pids) == {};
    }
  }

  /** As many choices as there are live children, covering them all, have no child twice. */
  lemma {:induction false} CoverOnce(choices: seq<nat>, all: set<nat>)
    requires |choices| == |all| && forall k :: k in all ==> k in choices
    ensures forall k :: k in all ==> multiset(choices)[k] == 1
    decreases |choices|
  {
    if choices != [] {
      var first, rest := choices[0], choices[1..];
      assert choices == [first] + rest;
      if first !in all {
        CoverSize(rest, all);
        assert false;
      } else if first in rest {
        CoverSize(rest, all);
        assert false;
      } else {
        CoverOnce(rest, all - {first});
      }
    }
  }

  lemma {:induction false} CoverSize(choices: seq<nat>, all: set<nat>)
    requires forall k :: k in all ==> k in choices
    ensures |all| <= |choices|
    decreases |choices|
  {
    if choices == [] {
      assert all == {};
    } else {
      CoverSize(choices[1..], all - {choices[0]});
      assert |all| <= |all - {choices[0]}| + 1;
    }
  }

  /** While nobody dies, every round of L dispatches chooses each live child exactly once. */
  lemma ExactlyOnce(s: State, k: nat)
    requires Valid(s) && !s.stop && Alive(s.pids, k)
    ensures multiset(Choices(s, Rounds(Live(s.pids))))[k] == 1
  {
    var n := Live(s.pids);
    CountZero(s.pids, IsPid);
    RoundsChoose(s, n);
    LiveSetSize(s.pids);
    forall j | j in LiveSet(s.pids)
      ensures j in Choices(s, Rounds(n))
    {
      Fairness(s, Rounds(n), j);
    }
    CoverOnce(Choices(s, Rounds(n)), LiveSet(s.pids));
  }

  // ----- the code

  /** (j + 1) % n is the next place of the ring. */
  lemma NextPlace(n: nat, c: nat, d: nat)
    requires c < n && d < n
    ensures (Ahead(n, c, d) + 1) % n == Ahead(n, c, d + 1)
    ensures Ahead(n, c, d + 1) == Ahead(n, Ahead(n, c, d), 1)
    ensures Ahead(n, c, d + 1) == c <==> d + 1 == n
  {
    var j := Ahead(n, c, d);
    if j + 1 == n {
      assert (j + 1) % n == 0;
    } else {
      assert (j + 1) % n == j + 1;
    }
  }

  class ProcessPool {
    const m_sub_process: array<int>   // the m_pid of each child
    var sub_process_counter: nat
    var m_stop: bool

    ghost function Abs(): State
      reads this, m_sub_process
    {
      State(m_sub_process[..], sub_process_counter, m_stop)
    }

    constructor (pids: array<int>)
      requires pids.Length > 0
      ensures m_sub_process == pids && Valid(Abs()) && sub_process_counter == 0 && !m_stop
    {
      m_sub_process, sub_process_counter, m_stop := pids, 0, false;
    }

    /** The branch of run_parent() for a new connection. */
    method Select() returns (child: Option<nat>)
      requires Valid(Abs()) && !m_stop
      modifies this`sub_process_counter, this`m_stop
      ensures Abs() == Next(old(Abs()), Dispatch) && child == Choice(old(Abs()))
    {
      var n := m_sub_process.Length;
      var j := sub_process_counter;
      ghost var d, pids := 0, m_sub_process[..];
      while true
        invariant sub_process_counter == old(sub_process_counter) && m_stop == old(m_stop)
        invariant 0 <= d < n && j == Ahead(n, sub_process_counter, d)
        invariant FirstLive(pids, sub_process_counter, 0) == FirstLive(pids, sub_process_counter, d)
        decreases n - d
      {
        if m_sub_process[j] != -1 {
          break;
        }
        NextPlace(n, sub_process_counter, d);
        j := (j + 1) % n;
        d := d + 1;
        if j == sub_process_counter {
          break;
        }
      }
      if m_sub_process[j] == -1 {
        m_stop := true;
        return None;
      }
      NextPlace(n, sub_process_counter, d);
      sub_process_counter := (j + 1) % n;
      return Some(j);
    }

    /** The branch for SIGCHLD, for one reaped pid. */
    method ReapChild(pid: int)
      requires Valid(Abs()) && pid > 0
      modifies m_sub_process, this`m_stop
      ensures Abs() == Next(old(Abs()), Reap(pid)).(stop := m_stop)
      ensures m_stop <==> old(m_stop) && Live(m_sub_process[..]) == 0
      ensures forall k :: 0 <= k < m_sub_process.Length ==>
                m_sub_process[k] == if old(m_sub_process[k]) == pid then -1 else old(m_sub_process[k])
    {
      var n := m_sub_process.Length;
      for k := 0 to n
        invariant m_stop == old(m_stop)
        invariant forall i :: 0 <= i < n ==>
                    m_sub_process[i] == if i < k && old(m_sub_process[i]) == pid then -1 else old(m_sub_process[i])
      {
        if m_sub_process[k] == pid {
          m_sub_process[k] := -1;
        }
      }
      assert m_sub_process[..] == Reaped(old(m_sub_process[..]), pid);
      for i := 0 to n
        invariant m_sub_process[..] == Reaped(old(m_sub_process[..]), pid)
        invariant m_stop <==> old(m_stop) && forall k :: 0 <= k < i ==> m_sub_process[k] == -1
      {
        if m_sub_process[i] != -1 {
          m_stop := false;
        }
      }
      CountZero(m_sub_process[..], IsPid);
    }
  }
}
