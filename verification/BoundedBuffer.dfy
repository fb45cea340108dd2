/** Producers and consumers around one buffer, with a mutex and two semaphores: any number of each. */
module BoundedBuffer {
  import opened Base
  import opened Threads

  const BUF_SIZE: nat := 100

  /** Where a thread stands; each step is one call or one access to the buffer. */
  datatype Pc =
    | Producing                    // before sem_wait(&sem_p)
    | HasSlot | Filling | Filled   // before lock; locked; pushed
    | Announcing                   // unlocked, before sem_post(&sem_c)
    | Consuming                    // before sem_wait(&sem_c)
    | HasItem | Emptying | Emptied // before lock; locked; popped
    | Releasing                    // unlocked, before sem_post(&sem_p)

  /** The shared variables, where the threads stand, and everything pushed and popped so far. */
  datatype State = State(
    pcs: seq<Pc>, mutex: Option<nat>, buf: seq<int>, slots: nat, items: nat, produced: seq<int>, consumed: seq<int>)

  predicate Inside(pc: Pc) {
    pc.Filling? || pc.Filled? || pc.Emptying? || pc.Emptied?
  }

  predicate Producer(pc: Pc) {
    pc.Producing? || pc.HasSlot? || pc.Filling? || pc.Filled? || pc.Announcing?
  }

  /** A producer between wait and push. */
  predicate BeforePush(pc: Pc) {
    pc.HasSlot? || pc.Filling?
  }

  /** A producer between push and post. */
  predicate AfterPush(pc: Pc) {
    pc.Filled? || pc.Announcing?
  }

  predicate BeforePop(pc: Pc) {
    pc.HasItem? || pc.Emptying?
  }

  predicate AfterPop(pc: Pc) {
    pc.Emptied? || pc.Releasing?
  }

  /** One step of thread `i`, which pushes `num` if that is its step; a blocked thread stays where it is. */
  function Advance(s: State, i: nat, num: int): State
    requires i < |s.pcs|
  {
    match s.pcs[i]
    case Producing => if s.slots > 0 then s.(pcs := s.pcs[i := HasSlot], slots := s.slots - 1) else s
    case HasSlot => if s.mutex.None? then s.(pcs := s.pcs[i := Filling], mutex := Some(i)) else s
    case Filling => s.(pcs := s.pcs[i := Filled], buf := s.buf + [num], produced := s.produced + [num])
    case Filled => s.(pcs := s.pcs[i := Announcing], mutex := None)
    case Announcing => s.(pcs := s.pcs[i := Producing], items := s.items + 1)
    case Consuming => if s.items > 0 then s.(pcs := s.pcs[i := HasItem], items := s.items - 1) else s
    case HasItem => if s.mutex.None? then s.(pcs := s.pcs[i := Emptying], mutex := Some(i)) else s
    case Emptying =>
      if s.buf == [] then s
      else s.(pcs := s.pcs[i := Emptied], buf := s.buf[..|s.buf| - 1], consumed := s.consumed + [s.buf[|s.buf| - 1]])
    case Emptied => s.(pcs := s.pcs[i := Releasing], mutex := None)
    case Releasing => s.(pcs := s.pcs[i := Consuming], slots := s.slots + 1)
  }

  datatype Event = Event(thread: nat, num: int)

  function Next(s: State, e: Event): State {
    if e.thread < |s.pcs| then Advance(s, e.thread, e.num) else s
  }

  function Exec(s: State, schedule: seq<Event>): State
    decreases schedule
  {
    if schedule == [] then s else Exec(Next(s, schedule[0]), schedule[1..])
  }

  /** Every place of the buffer is filled, free, or promised to one thread on its way. */
  predicate SlotEquation(s: State) {
    |s.buf| + s.slots + Count(s.pcs, BeforePush) + Count(s.pcs, AfterPop) == BUF_SIZE
  }

  /** Every item in the buffer is announced, about to be, or promised to one consumer. */
  predicate ItemEquation(s: State) {
    |s.buf| == s.items + Count(s.pcs, AfterPush) + Count(s.pcs, BeforePop)
  }

  predicate Conserved(s: State) {
    Conserves(s.produced, s.consumed, s.buf)
  }

  predicate Inv(s: State) {
    Exclusive(s.pcs, Inside, s.mutex) && SlotEquation(s) && ItemEquation(s) && Conserved(s)
  }

  predicate Initial(s: State) {
    && (forall i :: 0 <= i < |s.pcs| ==> s.pcs[i].Producing? || s.pcs[i].Consuming?)
    && s == State(s.pcs, None, [], BUF_SIZE, 0, [], [])
  }

  lemma InitialInv(s: State)
    requires Initial(s)
    ensures Inv(s)
  {
    CountZero(s.pcs, BeforePush);
    CountZero(s.pcs, AfterPush);
    CountZero(s.pcs, BeforePop);
    CountZero(s.pcs, AfterPop);
  }

  lemma EquationsKept(s: State, i: nat, num: int)
    requires Inv(s) && i < |s.pcs|
    ensures var t := Advance(s, i, num); SlotEquation(t) && ItemEquation(t)
  {
    var to := Advance(s, i, num).pcs[i];
    Moved(s.pcs, BeforePush, i, to);
    Moved(s.pcs, AfterPush, i, to);
    Moved(s.pcs, BeforePop, i, to);
    Moved(s.pcs, AfterPop, i, to);
  }

  lemma MutexKept(s: State, i: nat, num: int)
    requires Inv(s) && i < |s.pcs|
    ensures var t := Advance(s, i, num); Exclusive(t.pcs, Inside, t.mutex)
  {
    var t := Advance(s, i, num);
    SectionMoved(s.pcs, Inside, s.mutex, i, t.pcs[i], t.mutex);
  }

  lemma ItemsKept(s: State, i: nat, num: int)
    requires Inv(s) && i < |s.pcs|
    ensures Conserved(Advance(s, i, num))
  {
    match s.pcs[i]
    case Filling => PushConserves(s.produced, s.consumed, s.buf, num);
    case Emptying =>
      if s.buf != [] {
        PopConserves(s.produced, s.consumed, s.buf);
      }
    case _ =>
  }

  /** Every run keeps the equations, mutual exclusion and the items. */
  lemma {:induction false} Safety(s: State, schedule: seq<Event>)
    requires Inv(s)
    ensures Inv(Exec(s, schedule))
    decreases schedule
  {
    if schedule != [] {
      var i, num := schedule[0].thread, schedule[0].num;
      if i < |s.pcs| {
        EquationsKept(s, i, num);
        MutexKept(s, i, num);
        ItemsKept(s, i, num);
      }
      Safety(Next(s, schedule[0]), schedule[1..]);
    }
  }

  // ----- the main results

  /** The two equations in every reachable state. */
  lemma TokenEquations(s: State, schedule: seq<Event>)
    requires Initial(s)
    ensures var t := Exec(s, schedule);
            && |t.buf| + t.slots + Count(t.pcs, BeforePush) + Count(t.pcs, AfterPop) == 100
            && |t.buf| == t.items + Count(t.pcs, AfterPush) + Count(t.pcs, BeforePop)
  {
    InitialInv(s);
    Safety(s, schedule);
  }

  /** The buffer never exceeds its size, back() never sees it empty, and no item is lost, made up or taken twice. */
  lemma BufferSafety(s: State, schedule: seq<Event>)
    requires Initial(s)
    ensures var t := Exec(s, schedule);
            && |t.buf| <= 100
            && (forall i :: 0 <= i < |t.pcs| && t.pcs[i].Emptying? ==> t.buf != [])
            && (forall i :: 0 <= i < |t.pcs| && t.pcs[i].Filling? ==> |t.buf| < 100)
            && multiset(t.produced) == multiset(t.consumed) + multiset(t.buf)
            && (forall i, j :: 0 <= i < j < |t.pcs| ==> !(Inside(t.pcs[i]) && Inside(t.pcs[j])))
  {
    InitialInv(s);
    Safety(s, schedule);
    var t := Exec(s, schedule);
    CountZero(t.pcs, BeforePop);
    CountZero(t.pcs, BeforePush);
  }

  predicate CanMove(s: State, i: nat) {
    i < |s.pcs| && Advance(s, i, 0).pcs[i] != s.pcs[i]
  }

  predicate Stuck(s: State) {
    || (s.slots == 0 && forall i :: 0 <= i < |s.pcs| ==> s.pcs[i].Producing?)
    || (s.items == 0 && forall i :: 0 <= i < |s.pcs| ==> s.pcs[i].Consuming?)
  }

  /** The only ways for all threads to be blocked: there are only producers and no slot, or only consumers and no item. */
  lemma DeadlockExactly(s: State)
    requires Inv(s) && s.pcs != []
    ensures (forall i: nat :: !CanMove(s, i)) <==> Stuck(s)
  {
    if !Stuck(s) {
      var i := Mover(s);
      assert CanMove(s, i);
    }
  }

  lemma Mover(s: State) returns (i: nat)
    requires Inv(s) && s.pcs != [] && !Stuck(s)
    ensures CanMove(s, i)
  {
    if s.mutex.Some? {
      i := s.mutex.value;
      CountZero(s.pcs, BeforePop);
    } else if j :| 0 <= j < |s.pcs| && !s.pcs[j].Producing? && !s.pcs[j].Consuming? {
      i := j;
    } else {
      Rested(s);
      assert s.pcs[0].Producing? || s.pcs[0].Consuming?;
      i :| 0 <= i < |s.pcs| && if s.pcs[i].Producing? then s.slots > 0 else s.items > 0;
    }
  }

  lemma Rested(s: State)
    requires Inv(s) && forall j :: 0 <= j < |s.pcs| ==> s.pcs[j].Producing? || s.pcs[j].Consuming?
    ensures |s.buf| == s.items && s.items + s.slots == BUF_SIZE
  {
    CountZero(s.pcs, BeforePush);
    CountZero(s.pcs, AfterPush);
    CountZero(s.pcs, BeforePop);
    CountZero(s.pcs, AfterPop);
  }

  lemma {:induction false} RolesKept(s: State, schedule: seq<Event>, i: nat)
    requires i < |s.pcs|
    ensures var t := Exec(s, schedule); i < |t.pcs| && (Producer(t.pcs[i]) <==> Producer(s.pcs[i]))
    decreases schedule
  {
    if schedule != [] {
      RolesKept(Next(s, schedule[0]), schedule[1..], i);
    }
  }

  /** With a producer and a consumer some thread can always move. */
  lemma NoDeadlock(s: State, schedule: seq<Event>, p: nat, c: nat) returns (i: nat)
    requires Initial(s) && p < |s.pcs| && c < |s.pcs| && s.pcs[p].Producing? && s.pcs[c].Consuming?
    ensures CanMove(Exec(s, schedule), i)
  {
    InitialInv(s);
    Safety(s, schedule);
    RolesKept(s, schedule, p);
    RolesKept(s, schedule, c);
    i := Mover(Exec(s, schedule));
  }

  // ----- one turn of a loop

  function Times(e: Event, n: nat): seq<Event> {
    if n == 0 then [] else [e] + Times(e, n - 1)
  }

  function Repeat(s: State, e: Event, n: nat): State
    decreases n
  {
    if n == 0 then s else Repeat(Next(s, e), e, n - 1)
  }

  lemma {:induction false} TimesRepeat(s: State, e: Event, n: nat)
    ensures Exec(s, Times(e, n)) == Repeat(s, e, n)
    decreases n
  {
    if n > 0 {
      assert Times(e, n)[0] == e && Times(e, n)[1..] == Times(e, n - 1);
      TimesRepeat(Next(s, e), e, n - 1);
    }
  }

  /** A whole turn of thread `i` that nobody interrupts. */
  function Turn(s: State, i: nat, num: int): State {
    Exec(s, Times(Event(i, num), 5))
  }

  lemma FiveSteps(s: State, e: Event, s1: State, s2: State, s3: State, s4: State)
    requires s1 == Next(s, e) && s2 == Next(s1, e) && s3 == Next(s2, e) && s4 == Next(s3, e)
    ensures Exec(s, Times(e, 5)) == Next(s4, e)
  {
    TimesRepeat(s, e, 5);
    assert Repeat(s, e, 5) == Repeat(s1, e, 4) == Repeat(s2, e, 3) == Repeat(s3, e, 2) == Repeat(s4, e, 1);
  }

  lemma ProducerTurn(s: State, i: nat, num: int)
    requires i < |s.pcs| && s.pcs[i].Producing? && s.mutex.None? && s.slots > 0
    ensures Turn(s, i, num) == s.(buf := s.buf + [num], slots := s.slots - 1, items := s.items + 1,
            produced := s.produced + [num])
  {
    var t := s.(slots := s.slots - 1);
    var u := t.(buf := s.buf + [num], produced := s.produced + [num]);
    FiveSteps(s, Event(i, num), t.(pcs := s.pcs[i := HasSlot]), t.(pcs := s.pcs[i := Filling], mutex := Some(i)),
              u.(pcs := s.pcs[i := Filled], mutex := Some(i)), u.(pcs := s.pcs[i := Announcing]));
    assert s.pcs[i := Announcing][i := Producing] == s.pcs;
  }

  lemma ConsumerTurn(s: State, i: nat, num: int)
    requires i < |s.pcs| && s.pcs[i].Consuming? && s.mutex.None? && s.items > 0 && s.buf != []
    ensures var n := |s.buf| - 1;
            Turn(s, i, num) == s.(buf := s.buf[..n], slots := s.slots + 1, items := s.items - 1,
              consumed := s.consumed + [s.buf[n]])
  {
    var n := |s.buf| - 1;
    var t := s.(items := s.items - 1);
    var u := t.(buf := s.buf[..n], consumed := s.consumed + [s.buf[n]]);
    FiveSteps(s, Event(i, num), t.(pcs := s.pcs[i := HasItem]), t.(pcs := s.pcs[i := Emptying], mutex := Some(i)),
              u.(pcs := s.pcs[i := Emptied], mutex := Some(i)), u.(pcs := s.pcs[i := Releasing]));
    assert s.pcs[i := Releasing][i := Consuming] == s.pcs;
  }

  class Buffer {
    var buf: seq<int>
    var mutex: Option<nat>
    var sem_p: nat
    var sem_c: nat
    ghost var pcs: seq<Pc>
    ghost var produced: seq<int>
    ghost var consumed: seq<int>

    ghost function Abs(): State
      reads this
    {
      State(pcs, mutex, buf, sem_p, sem_c, produced, consumed)
    }

    constructor (ghost producers: nat, ghost consumers: nat)
      ensures Initial(Abs()) && pcs == seq(producers, _ => Producing) + seq(consumers, _ => Consuming)
    {
      buf, mutex, sem_p, sem_c := [], None, BUF_SIZE, 0;
      pcs := seq(producers, _ => Producing) + seq(consumers, _ => Consuming);
      produced, consumed := [], [];
    }

    /** The loop body of producer(), when sem_wait and lock do not block. */
    method Produce(i: nat, num: int)
      requires i < |pcs| && pcs[i].Producing? && mutex.None? && sem_p > 0
      modifies this
      ensures Abs() == Turn(old(Abs()), i, num)
    {
      ProducerTurn(Abs(), i, num);
      sem_p := sem_p - 1;
      mutex := Some(i);
      buf, produced := buf + [num], produced + [num];
      mutex := None;
      sem_c := sem_c + 1;
    }

    /** The loop body of consumer(). */
    method Consume(i: nat) returns (back: int)
      requires i < |pcs| && pcs[i].Consuming? && mutex.None? && sem_c > 0 && Inv(Abs())
      modifies this
      ensures old(buf) != [] && back == old(buf)[|old(buf)| - 1]
      ensures Abs() == Turn(old(Abs()), i, 0)
    {
      ConsumerTurn(Abs(), i, 0);
      sem_c := sem_c - 1;
      mutex := Some(i);
      back := buf[|buf| - 1];
      buf, consumed := buf[..|buf| - 1], consumed + [back];
      mutex := None;
      sem_p := sem_p + 1;
    }
  }
}
