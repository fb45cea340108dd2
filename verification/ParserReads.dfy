/**
 read() in front of process_read: the buffer holds READ_BUFFER_SIZE bytes of a request, and a read that finds more, or
 no room at all, fails, upon which main closes the connection.
 */
module ParserReads {
  import opened Base
  import opened RequestParser
  import opened ParserInvariants
  import opened ParserChunking

  /** How many bytes still go into the buffer. */
  function Room(p: Parser): int {
    READ_BUFFER_SIZE - |p.data|
  }

  /** One read for each chunk, process_read after each, until something is decided; None when a read fails. */
  function Receive(p: Parser, chunks: seq<seq<char>>): (r: Option<(Parser, Outcome)>)
    requires Wf(p)
    ensures r.Some? ==> Wf(r.value.0)
    decreases chunks
  {
    if chunks == [] then Some((p, Pending))
    else if Room(p) <= 0 || |chunks[0]| > Room(p) then None
    else
      var (q, outcome) := Run(Feed(p, chunks[0]));
      if outcome.Pending? then Receive(q, chunks[1..]) else Some((q, outcome))
  }

  /** While the bytes fit, read() might as well not be there. */
  lemma {:induction false} ReceiveFits(p: Parser, chunks: seq<seq<char>>)
    requires Wf(p) && Arrivals(chunks) && |Concat(chunks)| <= Room(p)
    ensures Receive(p, chunks) == Some(Drive(p, chunks))
    decreases chunks
  {
    if chunks != [] && Run(Feed(p, chunks[0])).1.Pending? {
      ReceiveFits(Run(Feed(p, chunks[0])).0, chunks[1..]);
    }
  }

  /** The first read, and what comes after it. */
  lemma ReceiveNext(p: Parser, chunks: seq<seq<char>>, first: (Parser, Outcome))
    requires Wf(p) && chunks != [] && Room(p) > 0 && |chunks[0]| <= Room(p) && first == Run(Feed(p, chunks[0]))
    ensures Wf(first.0) && Receive(p, chunks) == if first.1.Pending? then Receive(first.0, chunks[1..]) else Some(first)
  {
  }

  // ----- when a stream is decided on

  /** How many bytes of a stream are looked at before a decision: the request up to its empty line. */
  function DecidedAt(p: Parser, s: seq<char>): int
    requires Wf(p)
  {
    Run(Feed(p, s)).0.checked - |p.data|
  }

  lemma ContinuesDecided(n: nat, first: (Parser, Outcome), e: seq<char>, later: (Parser, Outcome))
    requires Continues(n, first, e, later) && first.0.checked <= n
    ensures !first.1.Pending? <==> !later.1.Pending? && later.0.checked <= n
  {
  }

  lemma PartsDecided(p: Parser, head: seq<char>, tail: seq<char>, first: (Parser, Outcome), later: (Parser, Outcome))
    requires Wf(p) && first == Run(Feed(p, head)) && later == Run(Feed(p, head + tail))
    ensures !first.1.Pending? <==> !later.1.Pending? && later.0.checked <= |p.data| + |head|
  {
    FeedFeed(p, head, tail);
    CallExtends(Feed(p, head), tail, first, later);
    ContinuesDecided(|p.data| + |head|, first, tail, later);
  }

  /** What has come is decided on if and only if it reaches so far. */
  lemma PrefixDecided(p: Parser, s: seq<char>, k: nat)
    requires Wf(p) && k <= |s|
    ensures !Run(Feed(p, s[..k])).1.Pending? <==> !Run(Feed(p, s)).1.Pending? && DecidedAt(p, s) <= k
  {
    assert s == s[..k] + s[k..];
    PartsDecided(p, s[..k], s[k..], Run(Feed(p, s[..k])), Run(Feed(p, s)));
  }

  /** How many bytes the first `i` reads get. */
  function Upto(chunks: seq<seq<char>>, i: nat): nat
    requires i <= |chunks|
  {
    |Concat(chunks[..i])|
  }

  lemma UptoNext(chunks: seq<seq<char>>, i: nat)
    requires 0 < i <= |chunks|
    ensures Upto(chunks, i) == |chunks[0]| + Upto(chunks[1..], i - 1)
  {
    assert chunks[..i][1..] == chunks[1..][..i - 1];
  }

  /** Some read ends behind the request, and within the buffer. */
  ghost predicate SomeReadDecides(chunks: seq<seq<char>>, decided: int, room: int) {
    exists i :: 0 <= i <= |chunks| && decided <= Upto(chunks, i) <= room
  }

  lemma LaterReadDecides(chunks: seq<seq<char>>, decided: int, room: int)
    requires chunks != [] && 0 < decided
    ensures SomeReadDecides(chunks, decided, room)
            <==> SomeReadDecides(chunks[1..], decided - |chunks[0]|, room - |chunks[0]|)
  {
    assert Upto(chunks, 0) == 0;
    forall i | 0 < i <= |chunks|
      ensures Upto(chunks, i) == |chunks[0]| + Upto(chunks[1..], i - 1)
    {
      UptoNext(chunks, i);
    }
    if SomeReadDecides(chunks[1..], decided - |chunks[0]|, room - |chunks[0]|) {
      var i :| 0 <= i <= |chunks[1..]| && decided - |chunks[0]| <= Upto(chunks[1..], i) <= room - |chunks[0]|;
      assert Upto(chunks, i + 1) == |chunks[0]| + Upto(chunks[1..], i);
    }
  }

  lemma FirstReadDecides(chunks: seq<seq<char>>, decided: int, room: int)
    requires chunks != [] && 0 < decided
    ensures |chunks[0]| > room ==> !SomeReadDecides(chunks, decided, room)
    ensures decided <= |chunks[0]| <= room ==> SomeReadDecides(chunks, decided, room)
  {
    LaterReadDecides(chunks, decided, room);
    assert Upto(chunks[1..], 0) == 0;
  }

  /** A settled parser has decided nothing. */
  lemma DecidedLater(p: Parser, s: seq<char>)
    requires Settled(p) && !Run(Feed(p, s)).1.Pending?
    ensures 0 < DecidedAt(p, s) <= |s|
  {
    WholeSplits(p, s);
    PrefixDecided(p, s, 0);
    PrefixDecided(p, s, |s|);
  }

  /** The first of the chunks has been read and leaves the parser waiting. */
  lemma OneRead(p: Parser, chunk: seq<char>, rest: seq<char>) returns (q: Parser)
    requires Inv(p) && Run(Feed(p, chunk)).1.Pending?
    ensures Run(Feed(p, chunk)) == (q, Pending) && Inv(q) && Settled(q)
    ensures Run(Feed(p, chunk + rest)) == Run(Feed(q, rest)) && Room(q) == Room(p) - |chunk|
    ensures DecidedAt(p, chunk + rest) == |chunk| + DecidedAt(q, rest)
  {
    q := Run(Feed(p, chunk)).0;
    FeedFeed(p, chunk, rest);
    RunExtends(Feed(p, chunk), rest);
    FeedKeeps(p, chunk);
    RunKeeps(Feed(p, chunk));
  }

  /** What a connection makes of a stream, by what the whole stream, if there was room for it, would lead to. */
  predicate Outcomes(r: Option<(Parser, Outcome)>, whole: (Parser, Outcome), fits: bool, read: bool) {
    if whole.1.Pending? then r == if fits then Some(whole) else None
    else (r.Some? <==> read) && (r.Some? ==> !r.value.1.Pending?)
  }

  lemma OverrunRead(p: Parser, chunks: seq<seq<char>>, whole: (Parser, Outcome), decided: int)
    requires Wf(p) && chunks != [] && 0 <= Room(p) < |chunks[0]| && (whole.1.Pending? || 0 < decided)
    ensures Outcomes(Receive(p, chunks), whole, |Concat(chunks)| <= Room(p), SomeReadDecides(chunks, decided, Room(p)))
  {
    if !whole.1.Pending? {
      FirstReadDecides(chunks, decided, Room(p));
    }
  }

  lemma DecidingRead(p: Parser, chunks: seq<seq<char>>, first: (Parser, Outcome), whole: (Parser, Outcome), decided: int)
    requires Wf(p) && chunks != [] && 0 < |chunks[0]| <= Room(p)
    requires first == Run(Feed(p, chunks[0])) && !first.1.Pending? && !whole.1.Pending? && 0 < decided <= |chunks[0]|
    ensures Outcomes(Receive(p, chunks), whole, |Concat(chunks)| <= Room(p), SomeReadDecides(chunks, decided, Room(p)))
  {
    ReceiveNext(p, chunks, first);
    FirstReadDecides(chunks, decided, Room(p));
  }

  lemma WaitingRead(p: Parser, chunks: seq<seq<char>>, q: Parser, whole: (Parser, Outcome), decided: int)
    requires Wf(p) && Wf(q) && chunks != [] && 0 < |chunks[0]| <= Room(p) && (whole.1.Pending? || 0 < decided)
    requires (q, Pending) == Run(Feed(p, chunks[0])) && Room(q) == Room(p) - |chunks[0]|
    requires Outcomes(Receive(q, chunks[1..]), whole, |Concat(chunks[1..])| <= Room(q),
                      SomeReadDecides(chunks[1..], decided - |chunks[0]|, Room(q)))
    ensures Outcomes(Receive(p, chunks), whole, |Concat(chunks)| <= Room(p), SomeReadDecides(chunks, decided, Room(p)))
  {
    ReceiveNext(p, chunks, (q, Pending));
    if !whole.1.Pending? {
      LaterReadDecides(chunks, decided, Room(p));
    }
  }

  /** What the first of the chunks has to do with a decision on all of them. */
  lemma FirstOf(p: Parser, chunks: seq<seq<char>>, whole: (Parser, Outcome))
    requires Settled(p) && chunks != [] && whole == Run(Feed(p, Concat(chunks)))
    ensures !whole.1.Pending? ==> 0 < DecidedAt(p, Concat(chunks))
    ensures !Run(Feed(p, chunks[0])).1.Pending? ==> !whole.1.Pending? && DecidedAt(p, Concat(chunks)) <= |chunks[0]|
  {
    if !whole.1.Pending? {
      DecidedLater(p, Concat(chunks));
    }
    PartsDecided(p, chunks[0], Concat(chunks[1..]), Run(Feed(p, chunks[0])), whole);
  }

  lemma ArrivalsBehind(chunks: seq<seq<char>>)
    requires Arrivals(chunks) && chunks != []
    ensures |chunks[0]| > 0 && Arrivals(chunks[1..]) && Concat(chunks) == chunks[0] + Concat(chunks[1..])
  {
  }

  lemma NoReads(p: Parser)
    requires Settled(p)
    ensures Run(Feed(p, Concat([]))) == (p, Pending)
  {
    WholeSplits(p, []);
  }

  /**
   A stream in which there is nothing to decide leaves the connection waiting if it fits the buffer, and closed if
   not. Any other is decided on if and only if some read ends behind the request and within the buffer; else read()
   fails. Whether it does is a matter of the cuts alone.
   */
  lemma {:induction false} ReceivedExactly(p: Parser, chunks: seq<seq<char>>)
    requires Inv(p) && Settled(p) && Room(p) >= 0 && Arrivals(chunks)
    ensures var s := Concat(chunks);
            Outcomes(Receive(p, chunks), Run(Feed(p, s)), |s| <= Room(p), SomeReadDecides(chunks, DecidedAt(p, s), Room(p)))
    decreases chunks
  {
    if chunks == [] {
      NoReads(p);
    } else {
      var whole, decided := Run(Feed(p, Concat(chunks))), DecidedAt(p, Concat(chunks));
      var first := Run(Feed(p, chunks[0]));
      FirstOf(p, chunks, whole);
      ArrivalsBehind(chunks);
      if |chunks[0]| > Room(p) {
        OverrunRead(p, chunks, whole, decided);
      } else if !first.1.Pending? {
        DecidingRead(p, chunks, first, whole, decided);
      } else {
        var q := OneRead(p, chunks[0], Concat(chunks[1..]));
        ReceivedExactly(q, chunks[1..]);
        WaitingRead(p, chunks, q, whole, decided);
      }
    }
  }

  // ----- what the decision is

  /** As much of a stream as the buffer takes. */
  function Taken(s: seq<char>, room: int): seq<char>
    requires room >= 0
  {
    if |s| <= room then s else s[..room]
  }

  lemma TakenBehind(chunk: seq<char>, rest: seq<char>, room: int)
    requires |chunk| <= room
    ensures Taken(chunk + rest, room) == chunk + Taken(rest, room - |chunk|)
  {
    if |chunk + rest| > room {
      assert (chunk + rest)[..room] == chunk + rest[..room - |chunk|];
    }
  }

  lemma FirstChunk(chunks: seq<seq<char>>, room: int) returns (chunk: seq<char>, rest: seq<char>)
    requires chunks != [] && |chunks[0]| <= room && Arrivals(chunks)
    ensures chunk == chunks[0] != [] && Arrivals(chunks[1..]) && rest == Taken(Concat(chunks[1..]), room - |chunk|)
    ensures Taken(Concat(chunks), room) == chunk + rest
  {
    chunk, rest := chunks[0], Taken(Concat(chunks[1..]), room - |chunks[0]|);
    TakenBehind(chunk, Concat(chunks[1..]), room);
  }

  lemma NothingRead(p: Parser, run: (Parser, Outcome))
    requires Settled(p) && Room(p) >= 0 && run == Run(Feed(p, Taken([], Room(p))))
    ensures run == (p, Pending)
  {
    WholeSplits(p, []);
  }

  /** If a stream is decided on at all, then as what fits the buffer is in one read, but for a body that arrives in it. */
  lemma {:induction false} ReceiveAgrees(p: Parser, chunks: seq<seq<char>>, fitting: (Parser, Outcome))
    requires Inv(p) && Settled(p) && Room(p) >= 0 && Arrivals(chunks)
    requires fitting == Run(Feed(p, Taken(Concat(chunks), Room(p)))) && Receive(p, chunks).Some? && !BodyArrived(fitting)
    ensures Agree(Receive(p, chunks).value, fitting)
    decreases chunks
  {
    if chunks == [] {
      NothingRead(p, fitting);
    } else {
      var chunk, rest := FirstChunk(chunks, Room(p));
      var first := Run(Feed(p, chunk));
      ReceiveNext(p, chunks, first);
      if first.1.Pending? {
        var q := OneRead(p, chunk, rest);
        ReceiveAgrees(q, chunks[1..], fitting);
      } else {
        FirstReadAgrees(p, chunk, rest, first, fitting);
      }
    }
  }

  lemma FirstReadAgrees(p: Parser, chunk: seq<char>, rest: seq<char>, first: (Parser, Outcome), later: (Parser, Outcome))
    requires Inv(p) && first == Run(Feed(p, chunk)) && later == Run(Feed(p, chunk + rest))
    requires !first.1.Pending? && !BodyArrived(later)
    ensures Agree(first, later)
  {
    FeedFeed(p, chunk, rest);
    CallExtends(Feed(p, chunk), rest, first, later);
    FeedKeeps(p, chunk);
    RunKeeps(Feed(p, chunk));
    LaterAgrees(|Feed(p, chunk).data|, first, rest, later);
  }

  /** All that the first `i` reads get, in one call. */
  function RunUpto(p: Parser, chunks: seq<seq<char>>, i: nat): (Parser, Outcome)
    requires Wf(p) && i <= |chunks|
  {
    Run(Feed(p, Concat(chunks[..i])))
  }

  /** The first of the reads after which one call decides on all there is leads to this. */
  predicate FirstToDecide(p: Parser, chunks: seq<seq<char>>, i: nat, run: (Parser, Outcome))
    requires Wf(p)
  {
    && 0 < i <= |chunks| && run == RunUpto(p, chunks, i) && !run.1.Pending?
    && forall j :: 0 <= j < i ==> RunUpto(p, chunks, j).1.Pending?
  }

  lemma RunUptoNext(p: Parser, chunks: seq<seq<char>>, q: Parser, j: nat)
    requires Inv(p) && Wf(q) && 0 < j <= |chunks| && Run(Feed(p, chunks[0])) == (q, Pending)
    ensures RunUpto(p, chunks, j) == RunUpto(q, chunks[1..], j - 1)
  {
    var more := Concat(chunks[1..][..j - 1]);
    assert chunks[..j][1..] == chunks[1..][..j - 1];
    var q' := OneRead(p, chunks[0], more);
  }

  lemma LaterToDecide(p: Parser, chunks: seq<seq<char>>, q: Parser, k: nat, run: (Parser, Outcome))
    requires Inv(p) && Settled(p) && Wf(q) && chunks != [] && Run(Feed(p, chunks[0])) == (q, Pending)
    requires FirstToDecide(q, chunks[1..], k, run)
    ensures FirstToDecide(p, chunks, k + 1, run)
  {
    forall j | 0 <= j <= k + 1
      ensures RunUpto(p, chunks, j) == if j == 0 then (p, Pending) else RunUpto(q, chunks[1..], j - 1)
    {
      if j == 0 {
        FirstOnly(chunks);
        NoReads(p);
      } else {
        RunUptoNext(p, chunks, q, j);
      }
    }
  }

  lemma FirstDecides(p: Parser, chunks: seq<seq<char>>, run: (Parser, Outcome))
    requires Settled(p) && chunks != [] && run == Run(Feed(p, chunks[0])) && !run.1.Pending?
    ensures FirstToDecide(p, chunks, 1, run)
  {
    FirstOnly(chunks);
    NoReads(p);
  }

  /** The first read that ends behind the request decides: the result is that of all bytes up to there in one call. */
  lemma {:induction false} FirstCut(p: Parser, chunks: seq<seq<char>>) returns (i: nat)
    requires Inv(p) && Settled(p) && Arrivals(chunks) && Receive(p, chunks).Some? && !Receive(p, chunks).value.1.Pending?
    ensures FirstToDecide(p, chunks, i, Receive(p, chunks).value)
    decreases chunks
  {
    var first := Run(Feed(p, chunks[0]));
    ReceiveNext(p, chunks, first);
    ArrivalsBehind(chunks);
    if first.1.Pending? {
      var q := OneRead(p, chunks[0], []);
      i := FirstCut(q, chunks[1..]);
      LaterToDecide(p, chunks, q, i, Receive(p, chunks).value);
      i := i + 1;
    } else {
      i := 1;
      FirstDecides(p, chunks, first);
    }
  }

  lemma FirstOnly(chunks: seq<seq<char>>)
    requires chunks != []
    ensures Concat(chunks[..1]) == chunks[0] && chunks[..0] == []
  {
    assert chunks[..1] == [chunks[0]] && [chunks[0]][1..] == [];
    assert Concat([chunks[0]]) == chunks[0] + Concat([]);
  }

  lemma {:induction false} UptoGrows(chunks: seq<seq<char>>, i: nat, j: nat)
    requires i <= j <= |chunks|
    ensures Upto(chunks, i) <= Upto(chunks, j) <= |Concat(chunks)|
    ensures Concat(chunks[..j]) == Concat(chunks)[..Upto(chunks, j)]
    decreases j
  {
    if j > 0 {
      UptoNext(chunks, j);
      if i > 0 {
        UptoNext(chunks, i);
      }
      UptoGrows(chunks[1..], if i > 0 then i - 1 else 0, j - 1);
      assert chunks[..j][1..] == chunks[1..][..j - 1];
    }
  }

  /** The first of the reads to decide is the first that ends behind the request. */
  lemma FirstBehind(p: Parser, chunks: seq<seq<char>>, i: nat, run: (Parser, Outcome))
    requires Inv(p) && Settled(p) && FirstToDecide(p, chunks, i, run)
    ensures var decided := DecidedAt(p, Concat(chunks));
            decided <= Upto(chunks, i) && forall j :: 0 <= j < i ==> Upto(chunks, j) < decided
    ensures Upto(chunks, i) <= |Concat(chunks)| && run == Run(Feed(p, Concat(chunks)[..Upto(chunks, i)]))
  {
    forall j | 0 <= j <= i
      ensures Upto(chunks, j) <= |Concat(chunks)| && RunUpto(p, chunks, j) == Run(Feed(p, Concat(chunks)[..Upto(chunks, j)]))
      ensures !RunUpto(p, chunks, j).1.Pending?
              <==> !Run(Feed(p, Concat(chunks))).1.Pending? && DecidedAt(p, Concat(chunks)) <= Upto(chunks, j)
    {
      UptoGrows(chunks, j, j);
      PrefixDecided(p, Concat(chunks), Upto(chunks, j));
    }
  }

  lemma AnsweredDecided(p: Parser, chunks: seq<seq<char>>, whole: (Parser, Outcome))
    requires Inv(p) && Settled(p) && Room(p) >= 0 && Arrivals(chunks)
    requires Receive(p, chunks).Some? && whole == Run(Feed(p, Concat(chunks))) && !whole.1.Pending?
    ensures !Receive(p, chunks).value.1.Pending?
  {
    ReceivedExactly(p, chunks);
  }

  lemma PartOfBoth(head: seq<char>, behind: seq<char>, both: seq<char>, m: nat, k: nat)
    requires both == head + behind && m == |head| + k <= |both|
    ensures k <= |behind| && both[..m] == head + behind[..k]
  {
  }

  /** The first of the reads to decide, in a stream that starts with a request. */
  lemma FirstBehindHead(
      p: Parser, head: seq<char>, behind: seq<char>, chunks: seq<seq<char>>, whole: (Parser, Outcome), i: nat,
      run: (Parser, Outcome))
    returns (k: nat)
    requires Inv(p) && Settled(p) && Concat(chunks) == head + behind && FirstToDecide(p, chunks, i, run)
    requires whole == Run(Feed(p, head + behind)) && whole.0.checked == |p.data| + |head|
    ensures k <= |behind| && Upto(chunks, i) == |head| + k && forall j :: 0 <= j < i ==> Upto(chunks, j) < |head|
    ensures run == Run(Feed(p, head + behind[..k]))
  {
    FirstBehind(p, chunks, i, run);
    k := Upto(chunks, i) - |head|;
    PartOfBoth(head, behind, Concat(chunks), Upto(chunks, i), k);
  }

  /** The read that decides on a request at the start of a stream, and how much of what is behind has then come. */
  lemma HeadCut(
      p: Parser, head: seq<char>, behind: seq<char>, chunks: seq<seq<char>>, whole: (Parser, Outcome), run: (Parser, Outcome))
    returns (i: nat, k: nat)
    requires Inv(p) && Settled(p) && Room(p) >= 0 && Arrivals(chunks)
    requires Concat(chunks) == head + behind && Receive(p, chunks) == Some(run)
    requires whole == Run(Feed(p, head + behind)) && !whole.1.Pending? && whole.0.checked == |p.data| + |head|
    ensures i <= |chunks| && k <= |behind| && Upto(chunks, i) == |head| + k
    ensures forall j :: 0 <= j < i ==> Upto(chunks, j) < |head|
    ensures run == Run(Feed(p, head + behind[..k])) && FirstToDecide(p, chunks, i, run)
  {
    AnsweredDecided(p, chunks, whole);
    i := FirstCut(p, chunks);
    k := FirstBehindHead(p, head, behind, chunks, whole, i, run);
  }

  // ----- when the cuts make no difference

  /** The stream in one read. */
  function AtOnce(p: Parser, s: seq<char>): Option<(Parser, Outcome)>
    requires Wf(p)
  {
    if |s| <= Room(p) then Some(Run(Feed(p, s))) else None
  }

  predicate Same(a: Option<(Parser, Outcome)>, b: Option<(Parser, Outcome)>) {
    (a.Some? <==> b.Some?) && (a.Some? && b.Some? ==> Agree(a.value, b.value))
  }

  /** However the stream is cut into reads, what becomes of the connection is the same. */
  ghost predicate CutsIrrelevant(p: Parser, s: seq<char>)
    requires Wf(p)
  {
    forall chunks | Arrivals(chunks) && Concat(chunks) == s :: Same(Receive(p, chunks), AtOnce(p, s))
  }

  lemma FittingStream(p: Parser, s: seq<char>)
    requires Inv(p) && Settled(p) && |s| <= Room(p)
    ensures CutsIrrelevant(p, s) <==> !BodyArrived(Run(Feed(p, s)))
  {
    if BodyArrived(Run(Feed(p, s))) {
      var chunks := CutBeforeBody(p, s);
      ReceiveFits(p, chunks);
      assert !Same(Receive(p, chunks), AtOnce(p, s));
    } else {
      forall chunks | Arrivals(chunks) && Concat(chunks) == s
        ensures Same(Receive(p, chunks), AtOnce(p, s))
      {
        ReceiveFits(p, chunks);
        DriveAgrees(p, chunks);
      }
    }
  }

  lemma SplitAt(s: seq<char>, n: int) returns (chunks: seq<seq<char>>)
    requires 0 < n < |s|
    ensures chunks != [] && chunks[0] == s[..n] && Arrivals(chunks) && Concat(chunks) == s
  {
    chunks := ConcatTwo(s[..n], s[n..]);
    assert s[..n] + s[n..] == s;
  }

  lemma FillThenRest(p: Parser, s: seq<char>, first: (Parser, Outcome)) returns (chunks: seq<seq<char>>)
    requires Wf(p) && 0 < Room(p) < |s| && first == Run(Feed(p, s[..Room(p)])) && !first.1.Pending?
    ensures Arrivals(chunks) && Concat(chunks) == s && Receive(p, chunks).Some?
  {
    chunks := SplitAt(s, Room(p));
    ReceiveNext(p, chunks, first);
  }

  /** Two reads of a stream that does not fit: all there is room for, and the rest. */
  lemma FullBuffer(p: Parser, s: seq<char>) returns (chunks: seq<seq<char>>)
    requires Inv(p) && Settled(p) && 0 < Room(p) < |s| && !Run(Feed(p, s)).1.Pending? && DecidedAt(p, s) <= Room(p)
    ensures Arrivals(chunks) && Concat(chunks) == s && Receive(p, chunks).Some?
  {
    PrefixDecided(p, s, Room(p));
    chunks := FillThenRest(p, s, Run(Feed(p, s[..Room(p)])));
  }

  lemma OverlongStream(p: Parser, s: seq<char>)
    requires Inv(p) && Settled(p) && 0 <= Room(p) < |s|
    ensures CutsIrrelevant(p, s) <==> Run(Feed(p, s)).1.Pending? || DecidedAt(p, s) > Room(p)
  {
    if Run(Feed(p, s)).1.Pending? || DecidedAt(p, s) > Room(p) {
      forall chunks | Arrivals(chunks) && Concat(chunks) == s
        ensures Same(Receive(p, chunks), AtOnce(p, s))
      {
        ReceivedExactly(p, chunks);
      }
    } else {
      DecidedLater(p, s);
      var chunks := FullBuffer(p, s);
      assert !Same(Receive(p, chunks), AtOnce(p, s));
    }
  }

  /**
   The cuts make no difference, for a stream that fits the buffer, if and only if one call does not find the whole of
   a non-empty body; and for one that does not fit, if and only if it holds no request that ends within the buffer.
   */
  lemma ReadsTheorem(p: Parser, s: seq<char>)
    requires Inv(p) && Settled(p) && Room(p) >= 0
    ensures CutsIrrelevant(p, s)
            <==> if |s| <= Room(p) then !BodyArrived(Run(Feed(p, s)))
                 else Run(Feed(p, s)).1.Pending? || DecidedAt(p, s) > Room(p)
  {
    if |s| <= Room(p) {
      FittingStream(p, s);
    } else {
      OverlongStream(p, s);
    }
  }

  // ----- streams that lead to an answer

  lemma InOneRead(p: Parser, e: seq<char>)
    requires Settled(p) && |e| <= Room(p) && !Run(Feed(p, e)).1.Pending?
    ensures Arrivals([e]) && Receive(p, [e]) == Some(Run(Feed(p, e)))
  {
    NoReads(p);
    ReceiveNext(p, [e], Run(Feed(p, e)));
  }

  lemma CutWithin(chunks: seq<seq<char>>, i: nat, decided: int, room: int)
    requires SomeReadDecides(chunks, decided, room) && i <= |chunks|
    requires forall j :: 0 <= j < i ==> Upto(chunks, j) < decided
    ensures Upto(chunks, i) <= room
  {
    var j :| 0 <= j <= |chunks| && decided <= Upto(chunks, j) <= room;
    UptoGrows(chunks, i, j);
  }

  lemma InSomeBytes(p: Parser, chunks: seq<seq<char>>) returns (e: seq<char>)
    requires Inv(p) && Settled(p) && Arrivals(chunks) && Receive(p, chunks).Some? && !Receive(p, chunks).value.1.Pending?
    requires Room(p) >= 0
    ensures |e| <= Room(p) && Receive(p, chunks).value == Run(Feed(p, e)) && e <= Concat(chunks)
  {
    var i := FirstCut(p, chunks);
    e := Concat(chunks[..i]);
    UptoGrows(chunks, i, i);
    ReceivedExactly(p, chunks);
    FirstBehind(p, chunks, i, Receive(p, chunks).value);
    CutWithin(chunks, i, DecidedAt(p, Concat(chunks)), Room(p));
  }
}
