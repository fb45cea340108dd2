/** The loop of http_conn::write, which decides what becomes of a connection with a response. */
module Sending {
  /** What writev answers. */
  datatype WritevResult = Wrote(count: nat) | WouldBlock | Error

  /** How write() ends: EAGAIN, another error, done with or without m_linger, or nothing to send. */
  datatype Sent = Again | Failed | DoneLinger | DoneClose | NothingToSend

  /** The bytes of the leading answers, and the answer that follows them; none is a connection that would block. */
  function Written(answers: seq<WritevResult>): nat {
    if answers == [] || !answers[0].Wrote? then 0 else answers[0].count + Written(answers[1..])
  }

  function Ending(answers: seq<WritevResult>): WritevResult {
    if answers == [] then WouldBlock else if answers[0].Wrote? then Ending(answers[1..]) else answers[0]
  }

  /** A response counts as sent once half of m_write_idx has been written before anything fails. */
  function SentOf(total: nat, linger: bool, answers: seq<WritevResult>): Sent {
    if total == 0 then NothingToSend
    else if 2 * Written(answers) >= total then (if linger then DoneLinger else DoneClose)
    else if Ending(answers).Error? then Failed
    else Again
  }

  /** The first `n` answers are counts of bytes. */
  predicate AllWrote(answers: seq<WritevResult>, n: nat) {
    n <= |answers| && forall k :: 0 <= k < n ==> answers[k].Wrote?
  }

  /** The bytes of the first `n` answers. */
  function Total(answers: seq<WritevResult>, n: nat): nat
    requires AllWrote(answers, n)
  {
    if n == 0 then 0 else Total(answers, n - 1) + answers[n - 1].count
  }

  lemma {:induction false} WrittenSplit(answers: seq<WritevResult>, n: nat)
    requires AllWrote(answers, n)
    ensures Written(answers) == Total(answers, n) + Written(answers[n..]) && Ending(answers) == Ending(answers[n..])
    decreases n
  {
    if n == 0 {
      assert answers[0..] == answers;
    } else {
      WrittenSplit(answers, n - 1);
      assert answers[n - 1..][1..] == answers[n..];
    }
  }

  /**
   How write() ends, by the answers of writev: as soon as half of m_write_idx has been accepted, m_linger decides; if
   an answer that is no count comes before, EAGAIN means to try again, and any other error that the response has failed.
   */
  ghost predicate EndsBy(total: nat, linger: bool, answers: seq<WritevResult>, sent: Sent) {
    && (total == 0 ==> sent == NothingToSend)
    && forall n: nat | total > 0 && AllWrote(answers, n) ::
         && (2 * Total(answers, n) >= total ==> sent == if linger then DoneLinger else DoneClose)
         && (2 * Total(answers, n) < total ==>
               && (n == |answers| || answers[n] == WouldBlock ==> sent == Again)
               && (n < |answers| && answers[n] == Error ==> sent == Failed))
  }

  lemma EndsBySent(total: nat, linger: bool, answers: seq<WritevResult>)
    ensures EndsBy(total, linger, answers, SentOf(total, linger, answers))
  {
    forall n: nat | AllWrote(answers, n)
      ensures Written(answers) == Total(answers, n) + Written(answers[n..]) && Ending(answers) == Ending(answers[n..])
    {
      WrittenSplit(answers, n);
    }
  }

  /** How many bytes each of the writev calls accepts that write() makes before it returns; `have` before the first. */
  function Calls(have: nat, total: nat, answers: seq<WritevResult>): seq<nat>
    decreases |answers|
  {
    if answers == [] || !answers[0].Wrote? then []
    else
      var sent := have + answers[0].count;
      [answers[0].count] + if 2 * sent >= total then [] else Calls(sent, total, answers[1..])
  }

  /** How write() ends, and the calls it makes until then. */
  function Course(have: nat, total: nat, linger: bool, answers: seq<WritevResult>): (Sent, seq<nat>)
    decreases |answers|
  {
    if answers == [] || !answers[0].Wrote? then (if answers == [] || answers[0].WouldBlock? then Again else Failed, [])
    else
      var sent := have + answers[0].count;
      if 2 * sent >= total then (if linger then DoneLinger else DoneClose, [answers[0].count])
      else
        var later := Course(sent, total, linger, answers[1..]);
        (later.0, [answers[0].count] + later.1)
  }

  lemma {:induction false} CallsMade(have: nat, total: nat, linger: bool, answers: seq<WritevResult>)
    ensures Course(have, total, linger, answers).1 == Calls(have, total, answers)
    decreases |answers|
  {
    if answers != [] && answers[0].Wrote? {
      CallsMade(have + answers[0].count, total, linger, answers[1..]);
    }
  }

  lemma {:induction false} CourseEnds(have: nat, total: nat, linger: bool, answers: seq<WritevResult>)
    requires 2 * have < total
    ensures Course(have, total, linger, answers).0
            == if 2 * (have + Written(answers)) >= total then (if linger then DoneLinger else DoneClose)
               else if Ending(answers).Error? then Failed else Again
    decreases |answers|
  {
    if answers != [] && answers[0].Wrote? && 2 * (have + answers[0].count) < total {
      CourseEnds(have + answers[0].count, total, linger, answers[1..]);
    }
  }

  function Behind(counts: seq<nat>, course: (Sent, seq<nat>)): (Sent, seq<nat>) {
    (course.0, counts + course.1)
  }

  lemma BehindMore(counts: seq<nat>, c: nat, course: (Sent, seq<nat>))
    ensures Behind([], course) == course
    ensures Behind(counts, (course.0, [c] + course.1)) == Behind(counts + [c], course)
  {
    assert [] + course.1 == course.1;
    assert counts + ([c] + course.1) == counts + [c] + course.1;
  }

  lemma CourseStep(
      whole: (Sent, seq<nat>), have: nat, total: nat, linger: bool, left: seq<WritevResult>, counts: seq<nat>, c: nat)
    requires left != [] && left[0] == Wrote(c) && whole == Behind(counts, Course(have, total, linger, left))
    ensures if 2 * (have + c) >= total then whole == (if linger then DoneLinger else DoneClose, counts + [c])
            else whole == Behind(counts + [c], Course(have + c, total, linger, left[1..]))
  {
    var later := Course(have + c, total, linger, left[1..]);
    BehindMore(counts, c, later);
    if 2 * (have + c) < total {
      assert Course(have, total, linger, left) == (later.0, [c] + later.1);
    }
  }

  /** The loop of write(), without its effects on the connection; `counts` are the calls it has made. */
  method Send(m_write_idx: nat, m_linger: bool, answers: seq<WritevResult>) returns (sent: Sent, ghost counts: seq<nat>)
    ensures sent == SentOf(m_write_idx, m_linger, answers) && EndsBy(m_write_idx, m_linger, answers, sent)
    ensures m_write_idx > 0 ==> counts == Calls(0, m_write_idx, answers)
  {
    EndsBySent(m_write_idx, m_linger, answers);
    counts := [];
    var bytes_have_send, bytes_to_send: int := 0, m_write_idx;
    if bytes_to_send == 0 {
      return NothingToSend, counts;
    }
    CallsMade(0, m_write_idx, m_linger, answers);
    CourseEnds(0, m_write_idx, m_linger, answers);
    ghost var course := Course(0, m_write_idx, m_linger, answers);
    BehindMore([], 0, course);
    var left := answers;
    while true
      invariant 0 <= bytes_have_send && bytes_to_send == m_write_idx - bytes_have_send && 2 * bytes_have_send < m_write_idx
      invariant course == Behind(counts, Course(bytes_have_send, m_write_idx, m_linger, left))
      decreases |left|
    {
      if left == [] || !left[0].Wrote? {
        return if left == [] || left[0].WouldBlock? then Again else Failed, counts;
      }
      var temp := left[0].count;
      CourseStep(course, bytes_have_send, m_write_idx, m_linger, left, counts, temp);
      left, counts := left[1..], counts + [temp];
      bytes_to_send := bytes_to_send - temp;
      bytes_have_send := bytes_have_send + temp;
      if bytes_to_send <= bytes_have_send {
        return if m_linger then DoneLinger else DoneClose, counts;
      }
    }
  }

  // ----- what the peer gets

  predicate Within(counts: seq<nat>, size: nat) {
    forall k :: 0 <= k < |counts| ==> counts[k] <= size
  }

  /** Every call of writev begins with the first byte of the response, as the vectors are never advanced. */
  function Received(response: seq<char>, counts: seq<nat>): seq<char>
    requires Within(counts, |response|)
  {
    if counts == [] then [] else response[..counts[0]] + Received(response, counts[1..])
  }

  /** What writev can answer: at least one byte, and no more than it is given. */
  predicate Possible(answers: seq<WritevResult>, size: nat) {
    forall k :: 0 <= k < |answers| && answers[k].Wrote? ==> 0 < answers[k].count <= size
  }

  /** Calls that go on while less than half of the head has been accepted, and no longer. */
  predicate Stops(have: nat, head: nat, size: nat, counts: seq<nat>)
    decreases |counts|
  {
    counts == []
    || (0 < counts[0] <= size
        && if 2 * (have + counts[0]) >= head then |counts| == 1 else Stops(have + counts[0], head, size, counts[1..]))
  }

  lemma {:induction false} CallsStop(have: nat, head: nat, answers: seq<WritevResult>, size: nat)
    requires Possible(answers, size)
    ensures Stops(have, head, size, Calls(have, head, answers))
    decreases |answers|
  {
    if answers != [] && answers[0].Wrote? && 2 * (have + answers[0].count) < head {
      CallsStop(have + answers[0].count, head, answers[1..], size);
    }
  }

  lemma {:induction false} StopsWithin(have: nat, head: nat, size: nat, counts: seq<nat>)
    requires Stops(have, head, size, counts)
    ensures Within(counts, size)
    decreases |counts|
  {
    if counts != [] && 2 * (have + counts[0]) < head {
      StopsWithin(have + counts[0], head, size, counts[1..]);
    }
  }

  /** No part behind the first byte and within half of the head continues like the response itself. */
  predicate Aperiodic(response: seq<char>, head: nat) {
    forall k :: 0 < k && 2 * k < head && k < |response| ==> response[k..] != response[..|response| - k]
  }

  /** write() reports success. */
  predicate Done(sent: Sent) {
    sent.DoneLinger? || sent.DoneClose?
  }

  lemma TailDiffers(response: seq<char>, have: nat, c: nat, rest: seq<char>)
    requires have + c <= |response| && rest != response[have + c..]
    ensures response[..c] + rest != response[have..]
  {
    assert (response[..c] + rest)[c..] == rest;
    assert response[have..][c..] == response[have + c..];
  }

  /** A last call that starts behind the first byte, and within half of the head, does not bring the rest. */
  lemma LastCall(response: seq<char>, head: nat, have: nat, c: nat)
    requires 0 < have && 2 * have < head <= |response| && 0 < c <= |response| && Aperiodic(response, head)
    ensures response[..c] != response[have..]
  {
    assert response[have..] != response[..|response| - have];
    if c != |response| - have {
      assert |response[..c]| != |response[have..]|;
    }
  }

  lemma OneCall(response: seq<char>, counts: seq<nat>)
    requires Within(counts, |response|) && |counts| == 1
    ensures Received(response, counts) == response[..counts[0]]
  {
    assert Received(response, counts[1..]) == [];
  }

  /** A call after the first one cannot complete the response. */
  lemma {:induction false} LaterCalls(response: seq<char>, head: nat, have: nat, counts: seq<nat>)
    requires 0 < have && 2 * have < head <= |response| && Stops(have, head, |response|, counts) && Aperiodic(response, head)
    requires Within(counts, |response|)
    ensures Received(response, counts) != response[have..]
    decreases |counts|
  {
    if counts == [] {
      assert |response[have..]| > 0;
    } else if 2 * (have + counts[0]) < head {
      LaterCalls(response, head, have + counts[0], counts[1..]);
      TailDiffers(response, have, counts[0], Received(response, counts[1..]));
    } else {
      OneCall(response, counts);
      LastCall(response, head, have, counts[0]);
    }
  }

  lemma WholeByOne(response: seq<char>, head: nat, counts: seq<nat>)
    requires 0 < head <= |response| && Stops(0, head, |response|, counts) && Aperiodic(response, head)
    requires Within(counts, |response|)
    ensures Received(response, counts) == response <==> counts == [|response|]
  {
    if counts != [] && 2 * counts[0] < head {
      LaterCalls(response, head, counts[0], counts[1..]);
      TailDiffers(response, 0, counts[0], Received(response, counts[1..]));
      assert response[0..] == response;
    } else if counts != [] {
      OneCall(response, counts);
    }
  }

  /**
   The peer gets the response, the whole of it and nothing else, if and only if the first call of writev accepts all
   of it; that, for write() to report success, is not needed.
   */
  lemma SentWholeExactly(response: seq<char>, head: nat, linger: bool, answers: seq<WritevResult>)
    requires 0 < head <= |response| && Possible(answers, |response|) && Aperiodic(response, head)
    ensures Within(Calls(0, head, answers), |response|)
    ensures Received(response, Calls(0, head, answers)) == response <==> answers != [] && answers[0] == Wrote(|response|)
    ensures answers != [] && answers[0] == Wrote(|response|) ==> Done(SentOf(head, linger, answers))
  {
    CallsStop(0, head, answers, |response|);
    StopsWithin(0, head, |response|, Calls(0, head, answers));
    WholeByOne(response, head, Calls(0, head, answers));
  }

  /** Half of the head is enough for success, whatever should follow. */
  lemma HalfIsDone(response: seq<char>, head: nat, linger: bool, n: nat)
    requires head <= 2 * n && 0 < head && n <= |response|
    ensures Calls(0, head, [Wrote(n)]) == [n] && Received(response, [n]) == response[..n]
    ensures Done(SentOf(head, linger, [Wrote(n)]))
  {
    assert Received(response, [n]) == response[..n] + Received(response, []);
    assert Written([Wrote(n)]) == n + Written([]);
  }
}
