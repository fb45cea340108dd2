/** Producers and consumers with a mutex and a condition variable: any number of each. */
module CondBuffer {
  import opened Base
  import opened Threads

  const BUF_SIZE: nat := 100

  /** Where a thread stands. */
  datatype Pc =
    | Producing | Filling      // before lock; locked, before the test
    | Signalling | Filled      // pushed, before pthread_cond_signal; before unlock
    | Consuming | Emptying     // before lock; locked, before the test
    | Waiting | Woken          // in pthread_cond_wait: asleep; awake and without the mutex
    | Emptied                  // locked, before unlock

  datatype State = State(pcs: seq<Pc>, mutex: Option<nat>, buf: seq<int>, produced: seq<int>, consumed: seq<int>)

  /** A step of a thread, a signal with the threads that it wakes, or a spurious wakeup. */
  datatype Event = Step(thread: nat, num: int) | Signal(thread: nat, woken: set<nat>) | Spurious(thread: nat)

  predicate Inside(pc: Pc) {
    pc.Filling? || pc.Signalling? || pc.Filled? || pc.Emptying? || pc.Emptied?
  }

  predicate Consumer(pc: Pc) {
    pc.Consuming? || pc.Emptying? || pc.Waiting? || pc.Woken? || pc.Emptied?
  }

  function Advance(s: State, i: nat, num: int): State
    requires i < |s.pcs|
  {
    match s.pcs[i]
    case Producing => if s.mutex.None? then s.(pcs := s.pcs[i := Filling], mutex := Some(i)) else s
    case Filling =>
      if |s.buf| < BUF_SIZE then s.(pcs := s.pcs[i := Signalling], buf := s.buf + [num], produced := s.produced + [num])
      else s.(pcs := s.pcs[i := Filled])
    case Signalling => s
    case Filled => s.(pcs := s.pcs[i := Producing], mutex := None)
    case Consuming => if s.mutex.None? then s.(pcs := s.pcs[i := Emptying], mutex := Some(i)) else s
    case Emptying =>
      if s.buf != []
      then s.(pcs := s.pcs[i := Emptied], buf := s.buf[..|s.buf| - 1], consumed := s.consumed + [s.buf[|s.buf| - 1]])
      else s.(pcs := s.pcs[i := Waiting], mutex := None)
    case Waiting => s
    case Woken => if s.mutex.None? then s.(pcs := s.pcs[i := Emptied], mutex := Some(i)) else s
    case Emptied => s.(pcs := s.pcs[i := Consuming], mutex := None)
  }

  function Wake(pcs: seq<Pc>, woken: set<nat>): seq<Pc> {
    seq(|pcs|, k requires 0 <= k < |pcs| => if k in woken && pcs[k].Waiting? then Woken else pcs[k])
  }

  /** pthread_cond_signal wakes at least one of the sleeping threads, if there is one. */
  predicate Wakes(pcs: seq<Pc>, woken: set<nat>) {
    (exists k :: 0 <= k < |pcs| && pcs[k].Waiting?) ==> exists k :: 0 <= k < |pcs| && pcs[k].Waiting? && k in woken
  }

  function Next(s: State, e: Event): State {
    if e.thread >= |s.pcs| then s
    else
      match e
      case Step(i, num) => Advance(s, i, num)
      case Signal(i, woken) =>
        if s.pcs[i].Signalling? && Wakes(s.pcs, woken) then s.(pcs := Wake(s.pcs, woken)[i := Filled]) else s
      case Spurious(i) => if s.pcs[i].Waiting? then s.(pcs := s.pcs[i := Woken]) else s
  }

  function Exec(s: State, schedule: seq<Event>): State
    decreases schedule
  {
    if schedule == [] then s else Exec(Next(s, schedule[0]), schedule[1..])
  }

  /** If the buffer is not empty and all consumers sleep, a signal is on its way. */
  predicate NotStranded(s: State) {
    && s.buf != []
    && (exists i :: 0 <= i < |s.pcs| && Consumer(s.pcs[i]))
    && (forall i :: 0 <= i < |s.pcs| && Consumer(s.pcs[i]) ==> s.pcs[i].Waiting?)
    ==> exists i :: 0 <= i < |s.pcs| && s.pcs[i].Signalling?
  }

  predicate Conserved(s: State) {
    Conserves(s.produced, s.consumed, s.buf) && |s.buf| <= BUF_SIZE
  }

  predicate Inv(s: State) {
    Exclusive(s.pcs, Inside, s.mutex) && NotStranded(s) && Conserved(s)
  }

  predicate Initial(s: State) {
    (forall i :: 0 <= i < |s.pcs| ==> s.pcs[i].Producing? || s.pcs[i].Consuming?) && s == State(s.pcs, None, [], [], [])
  }

  lemma MutexKept(s: State, e: Event)
    requires Inv(s)
    ensures var t := Next(s, e); Exclusive(t.pcs, Inside, t.mutex)
  {
    if e.thread < |s.pcs| && !e.Signal? {
      var t := Next(s, e);
      SectionMoved(s.pcs, Inside, s.mutex, e.thread, t.pcs[e.thread], t.mutex);
    }
  }

  /** Moves that neither push nor signal nor fall asleep. */
  lemma OtherMove(s: State, t: State, i: nat)
    requires NotStranded(s) && i < |s.pcs| == |t.pcs| && t.pcs == s.pcs[i := t.pcs[i]] && (t.buf != [] ==> s.buf != [])
    requires Consumer(t.pcs[i]) <==> Consumer(s.pcs[i])
    requires !s.pcs[i].Signalling? && (t.pcs[i].Waiting? ==> t.buf == [])
    ensures NotStranded(t)
  {
    if k :| 0 <= k < |s.pcs| && s.pcs[k].Signalling? {
      assert t.pcs[k].Signalling?;
    }
    if k :| 0 <= k < |t.pcs| && Consumer(t.pcs[k]) {
      assert Consumer(s.pcs[k]);
    }
    if k :| 0 <= k < |s.pcs| && Consumer(s.pcs[k]) && !s.pcs[k].Waiting? {
      assert k != i ==> t.pcs[k] == s.pcs[k];
      assert Consumer(t.pcs[k]);
    }
  }

  lemma SignalMove(s: State, t: State, i: nat, woken: set<nat>)
    requires Exclusive(s.pcs, Inside, s.mutex) && i < |s.pcs| && s.pcs[i].Signalling? && Wakes(s.pcs, woken)
    requires t == s.(pcs := Wake(s.pcs, woken)[i := Filled])
    ensures NotStranded(t)
  {
    if c :| 0 <= c < |t.pcs| && Consumer(t.pcs[c]) && t.pcs[c].Waiting? {
      assert s.pcs[c].Waiting?;
      var k :| 0 <= k < |s.pcs| && s.pcs[k].Waiting? && k in woken;
      assert t.pcs[k].Woken? && Consumer(t.pcs[k]);
    }
  }

  lemma StrandedKept(s: State, e: Event)
    requires Inv(s)
    ensures NotStranded(Next(s, e))
  {
    var t := Next(s, e);
    if e.thread < |s.pcs| {
      if e.Signal? && s.pcs[e.thread].Signalling? && Wakes(s.pcs, e.woken) {
        SignalMove(s, t, e.thread, e.woken);
      } else if t.pcs[e.thread].Signalling? {
      } else if t != s {
        OtherMove(s, t, e.thread);
      }
    }
  }

  lemma AdvanceConserves(s: State, i: nat, num: int)
    requires Conserved(s) && i < |s.pcs|
    ensures Conserved(Advance(s, i, num))
  {
    match s.pcs[i]
    case Filling => PushConserves(s.produced, s.consumed, s.buf, num);
    case Emptying =>
      if s.buf != [] {
        PopConserves(s.produced, s.consumed, s.buf);
      }
    case _ =>
  }

  lemma ItemsKept(s: State, e: Event)
    requires Conserved(s)
    ensures Conserved(Next(s, e))
  {
    if e.Step? && e.thread < |s.pcs| {
      AdvanceConserves(s, e.thread, e.num);
    }
  }

  lemma {:induction false} Safety(s: State, schedule: seq<Event>)
    requires Inv(s)
    ensures Inv(Exec(s, schedule))
    decreases schedule
  {
    if schedule != [] {
      MutexKept(s, schedule[0]);
      StrandedKept(s, schedule[0]);
      ItemsKept(s, schedule[0]);
      Safety(Next(s, schedule[0]), schedule[1..]);
    }
  }

  lemma InitialInv(s: State)
    requires Initial(s)
    ensures Inv(s)
  {
  }

  // ----- the main results

  /** No stranded items: whenever the mutex is free and all consumers sleep, the buffer is empty. */
  lemma NoStrandedItems(s: State, schedule: seq<Event>, c: nat)
    requires Initial(s)
    requires var t := Exec(s, schedule);
             && t.mutex.None? && c < |t.pcs| && Consumer(t.pcs[c])
             && forall i :: 0 <= i < |t.pcs| && Consumer(t.pcs[i]) ==> t.pcs[i].Waiting?
    ensures Exec(s, schedule).buf == []
  {
    InitialInv(s);
    Safety(s, schedule);
  }

  /** So an item that lies in the buffer can be fetched: with the mutex free, some consumer is not asleep and gets it. */
  lemma ItemsCanBeFetched(s: State, schedule: seq<Event>, c: nat) returns (i: nat)
    requires Initial(s)
    requires var t := Exec(s, schedule); t.mutex.None? && c < |t.pcs| && Consumer(t.pcs[c]) && t.buf != []
    ensures var t := Exec(s, schedule);
            i < |t.pcs| && Consumer(t.pcs[i]) && Advance(t, i, 0).mutex == Some(i)
  {
    InitialInv(s);
    Safety(s, schedule);
    var t := Exec(s, schedule);
    i :| 0 <= i < |t.pcs| && Consumer(t.pcs[i]) && !t.pcs[i].Waiting?;
  }

  /** The size is bounded, and no item is lost, made up or taken twice. */
  lemma BufferSafety(s: State, schedule: seq<Event>)
    requires Initial(s)
    ensures var t := Exec(s, schedule);
            && |t.buf| <= 100
            && multiset(t.produced) == multiset(t.consumed) + multiset(t.buf)
            && (forall i, j :: 0 <= i < j < |t.pcs| ==> !(Inside(t.pcs[i]) && Inside(t.pcs[j])))
  {
    InitialInv(s);
    Safety(s, schedule);
  }

  predicate CanMove(s: State, e: Event) {
    e.thread < |s.pcs| && !e.Spurious? && Next(s, e).pcs[e.thread] != s.pcs[e.thread]
  }

  predicate AllAsleep(s: State) {
    s.mutex.None? && forall i :: 0 <= i < |s.pcs| ==> s.pcs[i].Waiting?
  }

  lemma Mover(s: State) returns (e: Event)
    requires Inv(s) && !AllAsleep(s)
    ensures CanMove(s, e)
  {
    if s.mutex.Some? {
      var i := s.mutex.value;
      e := Step(i, 0);
      if s.pcs[i].Signalling? {
        e := Signal(i, set k | 0 <= k < |s.pcs| && s.pcs[k].Waiting?);
        assert Wake(s.pcs, e.woken)[i := Filled][i].Filled?;
      }
    } else {
      var i :| 0 <= i < |s.pcs| && !s.pcs[i].Waiting?;
      e := Step(i, 0);
    }
  }

  /**
   Everything stands still, but for spurious wakeups, exactly when every thread sleeps on the condition;
   so never while there is a producer.
   */
  lemma DeadlockExactly(s: State)
    requires Inv(s)
    ensures (forall e :: !CanMove(s, e)) <==> AllAsleep(s)
  {
    if !AllAsleep(s) {
      var e := Mover(s);
      assert CanMove(s, e);
    }
  }

  // ----- one turn of a loop

  /** A turn of producer() that nobody interrupts. */
  function ProducerTurn(s: State, i: nat, num: int, woken: set<nat>): seq<Event> {
    if |s.buf| < BUF_SIZE then [Step(i, num), Step(i, num), Signal(i, woken), Step(i, num)]
      else [Step(i, num), Step(i, num), Step(i, num)]
  }

  /** A turn of consumer(), up to where it falls asleep if the buffer is empty. */
  function ConsumerTurn(s: State, i: nat): seq<Event> {
    if s.buf != [] then [Step(i, 0), Step(i, 0), Step(i, 0)] else [Step(i, 0), Step(i, 0)]
  }

  lemma ExecCons(s: State, e: Event, rest: seq<Event>)
    ensures Exec(s, [e] + rest) == Exec(Next(s, e), rest)
  {
    assert ([e] + rest)[1..] == rest;
  }

  lemma ThreeEvents(s: State, a: Event, b: Event, c: Event, s1: State, s2: State)
    requires s1 == Next(s, a) && s2 == Next(s1, b)
    ensures Exec(s, [a, b]) == s2
    ensures Exec(s, [a, b, c]) == Next(s2, c)
  {
    ExecCons(s2, c, []);
    ExecCons(s1, b, []);
    ExecCons(s1, b, [c]);
    ExecCons(s, a, [b]);
    ExecCons(s, a, [b, c]);
    assert [a, b] == [a] + [b] && [a, b, c] == [a] + [b, c] && [b, c] == [b] + [c] && [c] == [c] + [] && [b] == [b] + [];
  }

  lemma ProduceAlone(s: State, i: nat, num: int, woken: set<nat>)
    requires i < |s.pcs| && s.pcs[i].Producing? && s.mutex.None? && Wakes(s.pcs, woken)
    ensures Exec(s, ProducerTurn(s, i, num, woken))
            == if |s.buf| >= 100 then s
               else s.(buf := s.buf + [num], produced := s.produced + [num], pcs := Wake(s.pcs, woken))
  {
    var s1 := s.(pcs := s.pcs[i := Filling], mutex := Some(i));
    if |s.buf| < BUF_SIZE {
      var t := s.(buf := s.buf + [num], produced := s.produced + [num], mutex := Some(i));
      var s2 := t.(pcs := s.pcs[i := Signalling]);
      var s3 := t.(pcs := Wake(s.pcs, woken)[i := Filled]);
      WakesKept(s.pcs, i, woken);
      ExecCons(s, Step(i, num), [Step(i, num), Signal(i, woken), Step(i, num)]);
      ThreeEvents(s1, Step(i, num), Signal(i, woken), Step(i, num), s2, s3);
      assert s3.pcs[i := Producing] == Wake(s.pcs, woken);
    } else {
      ThreeEvents(s, Step(i, num), Step(i, num), Step(i, num), s1, s1.(pcs := s.pcs[i := Filled]));
      assert s.pcs[i := Filled][i := Producing] == s.pcs;
    }
  }

  lemma WakesKept(pcs: seq<Pc>, i: nat, woken: set<nat>)
    requires i < |pcs| && pcs[i].Producing? && Wakes(pcs, woken)
    ensures Wakes(pcs[i := Signalling], woken)
    ensures Wake(pcs[i := Signalling], woken)[i := Filled] == Wake(pcs, woken)[i := Filled]
  {
    if k :| 0 <= k < |pcs| && pcs[k].Waiting? && k in woken {
      assert pcs[i := Signalling][k].Waiting?;
    }
  }

  lemma ConsumeAlone(s: State, i: nat)
    requires i < |s.pcs| && s.pcs[i].Consuming? && s.mutex.None?
    ensures Exec(s, ConsumerTurn(s, i))
            == if s.buf != [] then s.(buf := s.buf[..|s.buf| - 1], consumed := s.consumed + [s.buf[|s.buf| - 1]])
               else s.(pcs := s.pcs[i := Waiting])
  {
    var s1 := s.(pcs := s.pcs[i := Emptying], mutex := Some(i));
    ThreeEvents(s, Step(i, 0), Step(i, 0), Step(i, 0), s1, Next(s1, Step(i, 0)));
    assert s.pcs[i := Emptied][i := Consuming] == s.pcs;
  }

  class Buffer {
    var buf: seq<int>
    var mutex: Option<nat>
    ghost var pcs: seq<Pc>
    ghost var produced: seq<int>
    ghost var consumed: seq<int>

    ghost function Abs(): State
      reads this
    {
      State(pcs, mutex, buf, produced, consumed)
    }

    constructor (ghost producers: nat, ghost consumers: nat)
      ensures Initial(Abs()) && pcs == seq(producers, _ => Producing) + seq(consumers, _ => Consuming)
    {
      buf, mutex := [], None;
      pcs := seq(producers, _ => Producing) + seq(consumers, _ => Consuming);
      produced, consumed := [], [];
    }

    /** The loop body of producer(), when lock does not block; `woken` are the threads the signal wakes. */
    method Produce(i: nat, num: int, ghost woken: set<nat>)
      requires i < |pcs| && pcs[i].Producing? && mutex.None? && Wakes(pcs, woken)
      modifies this
      ensures Abs() == Exec(old(Abs()), ProducerTurn(old(Abs()), i, num, woken))
    {
      ProduceAlone(Abs(), i, num, woken);
      mutex := Some(i);
      if |buf| < BUF_SIZE {
        buf, produced := buf + [num], produced + [num];
        pcs := Wake(pcs, woken);
      }
      mutex := None;
    }

    /** The loop body of consumer(); None means that it sleeps in pthread_cond_wait, without the mutex. */
    method Consume(i: nat) returns (back: Option<int>)
      requires i < |pcs| && pcs[i].Consuming? && mutex.None?
      modifies this
      ensures back == if old(buf) == [] then None else Some(old(buf)[|old(buf)| - 1])
      ensures Abs() == Exec(old(Abs()), ConsumerTurn(old(Abs()), i))
    {
      ConsumeAlone(Abs(), i);
      mutex := Some(i);
      if |buf| > 0 {
        back := Some(buf[|buf| - 1]);
        buf, consumed := buf[..|buf| - 1], consumed + [back.value];
      } else {
        back := None;
        pcs := pcs[i := Waiting];
      }
      mutex := None;
    }
  }
}
