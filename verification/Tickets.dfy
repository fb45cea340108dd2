/** Selling tickets under a mutex taken with trylock: any number of sellers. */
module Tickets {
  import opened Base
  import opened Threads

  /** Where a seller stands. */
  datatype Pc =
    | Trying                 // before pthread_mutex_trylock
    | Testing                // locked
    | Printing | Printed     // tickets_num was positive; its number is printed
    | Decremented | Counted  // tickets_num is lowered; *sell is raised
    | SoldOut                // tickets_num was 0, before unlock
    | Stopped                // past the loop

  /** `sell` has the counter of each seller, `printed` the ticket numbers in the order of the printf calls. */
  datatype State = State(pcs: seq<Pc>, mutex: Option<nat>, tickets: int, sell: seq<nat>, printed: seq<int>)

  predicate Inside(pc: Pc) {
    !pc.Trying? && !pc.Stopped?
  }

  /** One step of seller `i`; a trylock that fails leads back to the start of the loop. */
  function Advance(s: State, i: nat): State
    requires i < |s.pcs| == |s.sell|
  {
    match s.pcs[i]
    case Trying => if s.mutex.None? then s.(pcs := s.pcs[i := Testing], mutex := Some(i)) else s
    case Testing => s.(pcs := s.pcs[i := if s.tickets > 0 then Printing else SoldOut])
    case Printing => s.(pcs := s.pcs[i := Printed], printed := s.printed + [s.tickets])
    case Printed => s.(pcs := s.pcs[i := Decremented], tickets := s.tickets - 1)
    case Decremented => s.(pcs := s.pcs[i := Counted], sell := s.sell[i := s.sell[i] + 1])
    case Counted => s.(pcs := s.pcs[i := Trying], mutex := None)
    case SoldOut => s.(pcs := s.pcs[i := Stopped], mutex := None)
    case Stopped => s
  }

  /** The sellers take steps in the order of the schedule. */
  function Exec(s: State, schedule: seq<nat>): (t: State)
    requires |s.pcs| == |s.sell|
    ensures |t.pcs| == |t.sell| == |s.pcs|
    decreases schedule
  {
    if schedule == [] then s
    else if schedule[0] < |s.pcs| then Exec(Advance(s, schedule[0]), schedule[1..])
    else Exec(s, schedule[1..])
  }

  function Sum(counts: seq<nat>): nat {
    if counts == [] then 0 else counts[0] + Sum(counts[1..])
  }

  lemma {:induction false} SumRaised(counts: seq<nat>, i: nat)
    requires i < |counts|
    ensures Sum(counts[i := counts[i] + 1]) == Sum(counts) + 1
    decreases |counts|
  {
    if i == 0 {
      assert counts[i := counts[i] + 1][1..] == counts[1..];
    } else {
      assert counts[i := counts[i] + 1][1..] == counts[1..][i - 1 := counts[i] + 1];
      SumRaised(counts[1..], i - 1);
    }
  }

  lemma {:induction false} SumAppended(counts: seq<nat>, c: nat)
    ensures Sum(counts + [c]) == Sum(counts) + c
    decreases |counts|
  {
    if counts == [] {
      assert counts + [c] == [c];
    } else {
      assert (counts + [c])[1..] == counts[1..] + [c];
      SumAppended(counts[1..], c);
    }
  }

  /** A ticket is taken from the stock and not yet counted. */
  predicate InHand(pc: Pc) {
    pc.Decremented?
  }

  /** A ticket is printed and not yet taken from the stock. */
  predicate Shown(pc: Pc) {
    pc.Printed?
  }

  predicate StockInv(s: State, total: nat) {
    s.tickets + Sum(s.sell) + Count(s.pcs, InHand) == total && s.tickets >= 0
  }

  /** The printed numbers count down from the total. */
  predicate PrintInv(s: State, total: nat) {
    && |s.printed| == total - s.tickets + Count(s.pcs, Shown)
    && forall k :: 0 <= k < |s.printed| ==> s.printed[k] == total - k
  }

  predicate TestInv(s: State) {
    forall i :: 0 <= i < |s.pcs| ==>
      && (s.pcs[i].Printing? || s.pcs[i].Printed? ==> s.tickets > 0)
      && (s.pcs[i].SoldOut? || s.pcs[i].Stopped? ==> s.tickets == 0)
  }

  predicate Inv(s: State, total: nat) {
    |s.pcs| == |s.sell| && Exclusive(s.pcs, Inside, s.mutex) && StockInv(s, total) && PrintInv(s, total) && TestInv(s)
  }

  predicate Initial(s: State, total: nat) {
    && |s.pcs| == |s.sell| && s == State(s.pcs, None, total, s.sell, [])
    && (forall i :: 0 <= i < |s.pcs| ==> s.pcs[i].Trying? && s.sell[i] == 0)
  }

  lemma {:induction false} SumZero(counts: seq<nat>)
    requires forall i :: 0 <= i < |counts| ==> counts[i] == 0
    ensures Sum(counts) == 0
    decreases |counts|
  {
    if counts != [] {
      SumZero(counts[1..]);
    }
  }

  lemma InitialInv(s: State, total: nat)
    requires Initial(s, total)
    ensures Inv(s, total)
  {
    SumZero(s.sell);
    CountZero(s.pcs, InHand);
    CountZero(s.pcs, Shown);
  }

  lemma MutexKept(s: State, i: nat, total: nat)
    requires Inv(s, total) && i < |s.pcs|
    ensures var t := Advance(s, i); Exclusive(t.pcs, Inside, t.mutex)
  {
    var t := Advance(s, i);
    SectionMoved(s.pcs, Inside, s.mutex, i, t.pcs[i], t.mutex);
  }

  lemma StockKept(s: State, i: nat, total: nat)
    requires Inv(s, total) && i < |s.pcs|
    ensures StockInv(Advance(s, i), total)
  {
    Moved(s.pcs, InHand, i, Advance(s, i).pcs[i]);
    SumRaised(s.sell, i);
  }

  /** No other seller is between printing and decrementing while seller `i` has the mutex. */
  lemma NoneShown(s: State, i: nat, total: nat)
    requires Inv(s, total) && i < |s.pcs| && Inside(s.pcs[i]) && !Shown(s.pcs[i])
    ensures Count(s.pcs, Shown) == 0
  {
    CountZero(s.pcs, Shown);
  }

  lemma PrintKept(s: State, i: nat, total: nat)
    requires Inv(s, total) && i < |s.pcs|
    ensures PrintInv(Advance(s, i), total)
  {
    Moved(s.pcs, Shown, i, Advance(s, i).pcs[i]);
    if s.pcs[i].Printing? {
      NoneShown(s, i, total);
    }
  }

  lemma TestKept(s: State, i: nat, total: nat)
    requires Inv(s, total) && i < |s.pcs|
    ensures TestInv(Advance(s, i))
  {
  }

  lemma {:induction false} Safety(s: State, schedule: seq<nat>, total: nat)
    requires Inv(s, total)
    ensures Inv(Exec(s, schedule), total)
    decreases schedule
  {
    if schedule != [] {
      var i := schedule[0];
      if i < |s.pcs| {
        MutexKept(s, i, total);
        StockKept(s, i, total);
        PrintKept(s, i, total);
        TestKept(s, i, total);
        Safety(Advance(s, i), schedule[1..], total);
      } else {
        Safety(s, schedule[1..], total);
      }
    }
  }

  // ----- the main results

  /** Whenever the mutex is free, the tickets left and those sold are all tickets. */
  lemma Conservation(s: State, schedule: seq<nat>, total: nat)
    requires Initial(s, total)
    ensures var t := Exec(s, schedule); t.mutex.None? ==> t.tickets + Sum(t.sell) == total && t.tickets >= 0
  {
    InitialInv(s, total);
    Safety(s, schedule, total);
    CountZero(Exec(s, schedule).pcs, InHand);
  }

  /** Whenever the mutex is free, the numbers sold are total, total - 1, ..., down to the last, each once. */
  lemma SoldOnce(s: State, schedule: seq<nat>, total: nat)
    requires Initial(s, total)
    ensures var t := Exec(s, schedule);
            && (t.mutex.None? ==> |t.printed| == Sum(t.sell))
            && (forall k :: 0 <= k < |t.printed| ==> t.printed[k] == total - k > 0)
            && (forall j, k :: 0 <= j < k < |t.printed| ==> t.printed[j] != t.printed[k])
  {
    InitialInv(s, total);
    Safety(s, schedule, total);
    var t := Exec(s, schedule);
    CountZero(t.pcs, InHand);
    CountZero(t.pcs, Shown);
    if j :| 0 <= j < |t.pcs| && Shown(t.pcs[j]) {
      Moved(t.pcs, Shown, j, Trying);
      OnlyOne(t, j);
    }
  }

  lemma OnlyOne(t: State, j: nat)
    requires Exclusive(t.pcs, Inside, t.mutex) && j < |t.pcs| && Shown(t.pcs[j])
    ensures Count(t.pcs, Shown) == 1
  {
    CountZero(t.pcs[j := Trying], Shown);
    Moved(t.pcs, Shown, j, Trying);
  }

  predicate AllStopped(s: State) {
    forall i :: 0 <= i < |s.pcs| ==> s.pcs[i].Stopped?
  }

  /** When all sellers have returned, what main sums up is the number of tickets. */
  lemma AllSold(s: State, schedule: seq<nat>, total: nat)
    requires Initial(s, total) && |s.pcs| > 0
    requires AllStopped(Exec(s, schedule))
    ensures var t := Exec(s, schedule); t.tickets == 0 && Sum(t.sell) == total && |t.printed| == total
  {
    InitialInv(s, total);
    Safety(s, schedule, total);
    var t := Exec(s, schedule);
    CountZero(t.pcs, InHand);
    CountZero(t.pcs, Shown);
    assert t.pcs[0].Stopped?;
  }

  /** While a seller has not stopped, some seller can take a step that is not a failed trylock. */
  lemma NoDeadlock(s: State, schedule: seq<nat>, total: nat, j: nat) returns (i: nat)
    requires Initial(s, total) && j < |s.pcs| && !Exec(s, schedule).pcs[j].Stopped?
    ensures i < |s.pcs| && Advance(Exec(s, schedule), i).pcs[i] != Exec(s, schedule).pcs[i]
  {
    InitialInv(s, total);
    Safety(s, schedule, total);
    var t := Exec(s, schedule);
    i := if t.mutex.Some? then t.mutex.value else j;
  }

  /** The joining loop of main. */
  method JoinAll(real_sell: seq<nat>) returns (sum: nat)
    ensures sum == Sum(real_sell)
  {
    sum := 0;
    for i := 0 to |real_sell|
      invariant sum == Sum(real_sell[..i])
    {
      SumAppended(real_sell[..i], real_sell[i]);
      assert real_sell[..i + 1] == real_sell[..i] + [real_sell[i]];
      sum := sum + real_sell[i];
    }
    assert real_sell[..|real_sell|] == real_sell;
  }

  class Office {
    var tickets_num: nat
    var mutex: Option<nat>

    constructor (tickets: nat)
      ensures tickets_num == tickets && mutex.None?
    {
      tickets_num, mutex := tickets, None;
    }

    /** sell_tickets() by seller `i` while no other seller runs: it sells all that is left, in descending order. */
    method SellTickets(i: nat) returns (sell: nat, printed: seq<int>)
      requires mutex.None?
      modifies this
      ensures tickets_num == 0 && mutex.None? && sell == |printed| == old(tickets_num)
      ensures forall k :: 0 <= k < |printed| ==> printed[k] == old(tickets_num) - k
    {
      sell, printed := 0, [];
      while true
        invariant mutex.None? && tickets_num + sell == old(tickets_num) && |printed| == sell
        invariant forall k :: 0 <= k < |printed| ==> printed[k] == old(tickets_num) - k
        decreases tickets_num
      {
        mutex := Some(i);
        if tickets_num > 0 {
          printed := printed + [tickets_num];
          tickets_num := tickets_num - 1;
          sell := sell + 1;
        } else {
          mutex := None;
          break;
        }
        mutex := None;
      }
    }
  }
}
