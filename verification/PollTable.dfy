/** The slot table of the poll server, and the number of slots that it lets poll watch. */
module PollTable {
  const MAX_CLIENT_NUM: nat := 1024

  /** The fd of each slot, -1 if free; cur_max_fd; the listening socket, which keeps slot 0. */
  datatype State = State(slots: seq<int>, curMax: int, listen: int)

  /** accept returns a descriptor or -1; a client that poll reports has gone. */
  datatype Event = Accept(fd: int) | Disconnect(slot: nat)

  function Init(listen: int): State {
    State([listen] + seq(MAX_CLIENT_NUM - 1, _ => -1), 1, listen)
  }

  function Max(a: int, b: int): int {
    if a < b then b else a
  }

  /** The first free slot, or the number of slots. */
  function FirstFree(slots: seq<int>, i: nat): (k: nat)
    requires i <= |slots|
    ensures i <= k <= |slots| && (k < |slots| ==> slots[k] == -1)
    ensures forall j :: i <= j < k ==> slots[j] != -1
    decreases |slots| - i
  {
    if i == |slots| || slots[i] == -1 then i else FirstFree(slots, i + 1)
  }

  function Next(s: State, e: Event): State {
    match e
    case Accept(fd) =>
      var k := FirstFree(s.slots, 0);
      State(if k < |s.slots| then s.slots[k := fd] else s.slots, Max(s.curMax, fd), s.listen)
    case Disconnect(i) => if i < |s.slots| then s.(slots := s.slots[i := -1]) else s
  }

  /**
   What the system may do: accept gives the lowest unused descriptor, hence one that is not
   open and, as all up to the listening one stay open, lies above it; poll reports watched clients.
   */
  predicate Legal(s: State, e: Event) {
    match e
    case Accept(fd) => fd == -1 || (s.listen < fd < MAX_CLIENT_NUM && fd !in s.slots)
    case Disconnect(i) => 1 <= i < s.curMax && i < |s.slots| && s.slots[i] != -1
  }

  predicate LegalRun(s: State, events: seq<Event>)
    decreases events
  {
    events == [] || (Legal(s, events[0]) && LegalRun(Next(s, events[0]), events[1..]))
  }

  function Exec(s: State, events: seq<Event>): State
    decreases events
  {
    if events == [] then s else Exec(Next(s, events[0]), events[1..])
  }

  predicate Distinct(slots: seq<int>) {
    forall i, j :: 0 <= i < j < |slots| && slots[i] != -1 ==> slots[i] != slots[j]
  }

  /** Clients have distinct descriptors up to cur_max_fd, and a client in slot `i` has raised it to listen + i at least. */
  predicate Inv(s: State) {
    && |s.slots| == MAX_CLIENT_NUM && s.slots[0] == s.listen >= 0 && 1 <= s.curMax < MAX_CLIENT_NUM && s.listen < MAX_CLIENT_NUM
    && Distinct(s.slots)
    && (forall i :: 1 <= i < MAX_CLIENT_NUM && s.slots[i] != -1 ==>
          s.listen < s.slots[i] <= s.curMax && s.listen + i <= s.curMax)
  }

  // ----- pigeonholes

  /** Distinct numbers above `lo` and up to `hi` are at most hi - lo many. */
  lemma {:induction false} Pigeonhole(s: seq<int>, lo: int, hi: int)
    requires lo <= hi && (forall i :: 0 <= i < |s| ==> lo < s[i] <= hi) && (forall i, j :: 0 <= i < j < |s| ==> s[i] != s[j])
    ensures |s| <= hi - lo
    decreases hi - lo
  {
    if |s| == 0 {
    } else if k :| 0 <= k < |s| && s[k] == hi {
      Pigeonhole(s[..k] + s[k + 1..], lo, hi - 1);
    } else {
      assert lo < s[0];
      Pigeonhole(s, lo, hi - 1);
    }
  }

  /** If the slots before `k` are taken, the descriptors in them reach at least listen + k - 1. */
  lemma TakenReach(s: State, k: nat, fd: int)
    requires Inv(s) && 1 <= k < MAX_CLIENT_NUM && (forall j :: 0 <= j < k ==> s.slots[j] != -1)
    requires s.listen < fd < MAX_CLIENT_NUM && fd !in s.slots
    ensures s.listen + k <= Max(s.curMax, fd)
  {
    var clients := s.slots[1..k] + [fd];
    Pigeonhole(clients, s.listen, Max(s.curMax, fd));
  }

  /** The table is never full. */
  lemma FreeSlot(s: State)
    requires Inv(s) && s.listen > 0
    ensures FirstFree(s.slots, 0) < MAX_CLIENT_NUM
  {
    if FirstFree(s.slots, 0) == MAX_CLIENT_NUM {
      Pigeonhole(s.slots[1..], s.listen, s.curMax);
    }
  }

  // ----- every run

  lemma AcceptKeeps(s: State, fd: int)
    requires Inv(s) && Legal(s, Accept(fd))
    ensures Inv(Next(s, Accept(fd)))
  {
    var k := FirstFree(s.slots, 0);
    if fd != -1 && k < MAX_CLIENT_NUM {
      TakenReach(s, k, fd);
    } else if k < MAX_CLIENT_NUM {
      assert s.slots[k := -1] == s.slots;
    }
  }

  lemma {:induction false} Safety(s: State, events: seq<Event>)
    requires Inv(s) && LegalRun(s, events)
    ensures Inv(Exec(s, events)) && Exec(s, events).listen == s.listen
    decreases events
  {
    if events != [] {
      if events[0].Accept? {
        AcceptKeeps(s, events[0].fd);
      }
      Safety(Next(s, events[0]), events[1..]);
    }
  }

  lemma InitInv(listen: int)
    requires 0 <= listen < MAX_CLIENT_NUM
    ensures Inv(Init(listen))
  {
  }

  /** poll(fds, cur_max_fd) watches every taken slot. */
  predicate Covered(s: State) {
    forall i :: 0 <= i < |s.slots| && s.slots[i] != -1 ==> i < s.curMax
  }

  /**
   After any connects and disconnects every live client is watched, there is a free slot, and the loop over
   1..cur_max_fd stays in the table.
   */
  lemma Coverage(listen: int, events: seq<Event>)
    requires 0 < listen < MAX_CLIENT_NUM && LegalRun(Init(listen), events)
    ensures var s := Exec(Init(listen), events);
            && Covered(s)
            && s.curMax < |s.slots| == 1024
            && exists i :: 0 < i < 1024 && s.slots[i] == -1
  {
    InitInv(listen);
    Safety(Init(listen), events);
    FreeSlot(Exec(Init(listen), events));
    assert Exec(Init(listen), events).slots[FirstFree(Exec(Init(listen), events).slots, 0)] == -1;
  }

  /** The descriptor accept returned is in the table afterwards, and the other slots are as before. */
  lemma AcceptStores(s: State, fd: int) returns (k: nat)
    requires Inv(s) && s.listen > 0 && Legal(s, Accept(fd))
    ensures var t := Next(s, Accept(fd));
            && k < |s.slots|
            && (fd == -1 ==> t == s)
            && (fd != -1 ==> k < t.curMax && s.slots[k] == -1 && t.slots == s.slots[k := fd])
  {
    FreeSlot(s);
    AcceptKeeps(s, fd);
    k := FirstFree(s.slots, 0);
    if fd == -1 {
      assert s.slots[k := -1] == s.slots;
    } else {
      assert Next(s, Accept(fd)).slots[k] == fd;
    }
  }

  /** A client that has gone leaves its slot free, and nothing else changes; the next one gets this slot or one before it. */
  lemma DisconnectFrees(s: State, i: nat, fd: int)
    requires Inv(s) && s.listen > 0 && Legal(s, Disconnect(i))
    requires fd != -1 && Legal(Next(s, Disconnect(i)), Accept(fd))
    ensures var t := Next(s, Disconnect(i));
            && t.slots == s.slots[i := -1] && t.curMax == s.curMax && t.listen == s.listen
            && exists k :: 0 < k <= i && t.slots[k] == -1 && Next(t, Accept(fd)).slots == t.slots[k := fd]
  {
    var t := Next(s, Disconnect(i));
    var k := FirstFree(t.slots, 0);
    assert t.slots[i] == -1;
    assert 0 < k <= i && Next(t, Accept(fd)).slots == t.slots[k := fd];
  }

  ghost predicate AlwaysCovered(listen: int) {
    forall events | LegalRun(Init(listen), events) :: Covered(Exec(Init(listen), events))
  }

  /** With descriptor 0 as the listening socket, the first client is not watched. */
  lemma FirstClientMissed() returns (events: seq<Event>)
    ensures LegalRun(Init(0), events) && !Covered(Exec(Init(0), events))
  {
    events := [Accept(1)];
    var t := Next(Init(0), Accept(1));
    assert FirstFree(Init(0).slots, 0) == 1;
    assert t.slots[1] == 1 && t.curMax == 1;
    assert events[1..] == [];
  }

  /** The argument needs a listening descriptor other than 0, and nothing else about it. */
  lemma CoverageExactly(listen: int)
    requires 0 <= listen < MAX_CLIENT_NUM
    ensures AlwaysCovered(listen) <==> listen > 0
  {
    if listen > 0 {
      forall events | LegalRun(Init(listen), events)
        ensures Covered(Exec(Init(listen), events))
      {
        Coverage(listen, events);
      }
    } else {
      var events := FirstClientMissed();
    }
  }

  // ----- the code

  class Poller {
    const fds: array<int>
    var cur_max_fd: int
    const listenfd: int

    ghost function Abs(): State
      reads this, fds
    {
      State(fds[..], cur_max_fd, listenfd)
    }

    constructor (listen: int)
      ensures Abs() == Init(listen) && fresh(fds)
    {
      fds := new int[MAX_CLIENT_NUM](_ => -1);
      cur_max_fd, listenfd := 1, listen;
      new;
      fds[0] := listen;
    }

    /** A new connection: the first free slot, and cur_max_fd. */
    method Connect(client_fd: int)
      modifies this`cur_max_fd, fds
      ensures Abs() == Next(old(Abs()), Accept(client_fd))
    {
      ghost var before := fds[..];
      var i := 0;
      while i < fds.Length
        invariant 0 <= i <= fds.Length && fds[..] == before && cur_max_fd == old(cur_max_fd)
        invariant FirstFree(before, 0) == FirstFree(before, i)
      {
        if fds[i] == -1 {
          fds[i] := client_fd;
          break;
        }
        i := i + 1;
      }
      cur_max_fd := Max(cur_max_fd, client_fd);
    }

    /** read returned 0. */
    method Drop(i: nat)
      requires i < fds.Length
      modifies fds
      ensures Abs() == Next(old(Abs()), Disconnect(i)) && fds[i] == -1
    {
      fds[i] := -1;
    }
  }
}
