/** Threads under one mutex, of which one moves at a time: counting those at certain places, and exclusion. */
module Threads {
  import opened Base

  function One(b: bool): nat {
    if b then 1 else 0
  }

  function Count<T>(s: seq<T>, f: T -> bool): nat {
    if s == [] then 0 else One(f(s[0])) + Count(s[1..], f)
  }

  lemma {:induction false} Moved<T>(s: seq<T>, f: T -> bool, i: nat, to: T)
    requires i < |s|
    ensures Count(s[i := to], f) == Count(s, f) - One(f(s[i])) + One(f(to))
    ensures Count(s, f) >= One(f(s[i]))
    decreases |s|
  {
    if i == 0 {
      assert s[i := to][1..] == s[1..];
    } else {
      assert s[i := to][1..] == s[1..][i - 1 := to];
      Moved(s[1..], f, i - 1, to);
    }
  }

  lemma {:induction false} CountZero<T>(s: seq<T>, f: T -> bool)
    ensures Count(s, f) == 0 <==> forall i :: 0 <= i < |s| ==> !f(s[i])
    decreases |s|
  {
    if s != [] {
      CountZero(s[1..], f);
      assert forall i :: 0 < i < |s| ==> s[i] == s[1..][i - 1];
      assert forall i :: 0 <= i < |s| - 1 ==> s[1..][i] == s[i + 1];
    }
  }

  /** The thread that has the mutex is the one between lock and unlock. */
  predicate Exclusive<T>(pcs: seq<T>, inside: T -> bool, mutex: Option<nat>) {
    (mutex.Some? ==> mutex.value < |pcs|) && forall i :: 0 <= i < |pcs| ==> (inside(pcs[i]) <==> mutex == Some(i))
  }

  /** A move keeps this if it enters only by taking the free mutex and leaves only by giving it back. */
  lemma SectionMoved<T>(pcs: seq<T>, inside: T -> bool, mutex: Option<nat>, i: nat, to: T, after: Option<nat>)
    requires Exclusive(pcs, inside, mutex) && i < |pcs|
    requires if inside(to) then (mutex.None? || inside(pcs[i])) && after == Some(i)
             else after == if inside(pcs[i]) then None else mutex
    ensures Exclusive(pcs[i := to], inside, after)
  {
  }

  /** All items pushed are those popped and those in the buffer. */
  predicate Conserves<T(==)>(produced: seq<T>, consumed: seq<T>, buf: seq<T>) {
    multiset(produced) == multiset(consumed) + multiset(buf)
  }

  lemma PushConserves<T>(produced: seq<T>, consumed: seq<T>, buf: seq<T>, item: T)
    requires Conserves(produced, consumed, buf)
    ensures Conserves(produced + [item], consumed, buf + [item])
  {
  }

  lemma PopConserves<T>(produced: seq<T>, consumed: seq<T>, buf: seq<T>)
    requires Conserves(produced, consumed, buf) && buf != []
    ensures Conserves(produced, consumed + [buf[|buf| - 1]], buf[..|buf| - 1])
  {
    assert buf == buf[..|buf| - 1] + [buf[|buf| - 1]];
  }
}
