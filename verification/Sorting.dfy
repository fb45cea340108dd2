/** The two in-place sorts, and how many swaps the first one makes. */
module Sorting {
  // ----- orders and inversions

  predicate Sorted(s: seq<int>) {
    forall i, j :: 0 <= i < j < |s| ==> s[i] <= s[j]
  }

  /** How many elements are smaller than `x`. */
  function Smaller(s: seq<int>, x: int): nat {
    if s == [] then 0 else (if s[0] < x then 1 else 0) + Smaller(s[1..], x)
  }

  /** How many pairs of positions hold a larger element before a smaller one. */
  function Inversions(s: seq<int>): nat {
    if s == [] then 0 else Smaller(s[1..], s[0]) + Inversions(s[1..])
  }

  /** The pairs of positions themselves. */
  ghost function Pairs(s: seq<int>): set<(int, int)> {
    set i, j | 0 <= i < j < |s| && s[i] > s[j] :: (i, j)
  }

  /** How many elements are larger than `y`. */
  function Larger(s: seq<int>, y: int): nat {
    if s == [] then 0 else (if s[0] > y then 1 else 0) + Larger(s[1..], y)
  }

  lemma {:induction false} Appended(s: seq<int>, x: int, y: int)
    ensures Smaller(s + [y], x) == Smaller(s, x) + if y < x then 1 else 0
    ensures Larger(s + [y], x) == Larger(s, x) + if y > x then 1 else 0
    decreases |s|
  {
    if s == [] {
      assert (s + [y])[1..] == [];
    } else {
      assert (s + [y])[1..] == s[1..] + [y];
      Appended(s[1..], x, y);
    }
  }

  lemma {:induction false} InversionsAppended(s: seq<int>, y: int)
    ensures Inversions(s + [y]) == Inversions(s) + Larger(s, y)
    decreases |s|
  {
    if s == [] {
      assert (s + [y])[1..] == [];
    } else {
      assert (s + [y])[1..] == s[1..] + [y];
      InversionsAppended(s[1..], y);
      Appended(s[1..], s[0], y);
    }
  }

  /** The pairs of elements of `s` with one behind them, at position `m`. */
  ghost function Column(s: seq<int>, y: int, m: int): set<(int, int)> {
    set i | 0 <= i < |s| && s[i] > y :: (i, m)
  }

  lemma {:induction false} ColumnSize(s: seq<int>, y: int, m: int)
    ensures |Column(s, y, m)| == Larger(s, y)
    decreases |s|
  {
    if s == [] {
      assert Column(s, y, m) == {};
    } else {
      var n := |s| - 1;
      ColumnSize(s[..n], y, m);
      Appended(s[..n], y, s[n]);
      assert s == s[..n] + [s[n]];
      assert Column(s, y, m) == Column(s[..n], y, m) + if s[n] > y then {(n, m)} else {};
    }
  }

  lemma PairsSplit(s: seq<int>, y: int)
    ensures Pairs(s + [y]) == Pairs(s) + Column(s, y, |s|) && Pairs(s) !! Column(s, y, |s|)
  {
  }

  /** Inversions counts these pairs. */
  lemma {:induction false} InversionsArePairs(s: seq<int>)
    ensures Inversions(s) == |Pairs(s)|
    decreases |s|
  {
    if s == [] {
      assert Pairs(s) == {};
    } else {
      var n := |s| - 1;
      InversionsArePairs(s[..n]);
      InversionsAppended(s[..n], s[n]);
      ColumnSize(s[..n], s[n], n);
      assert s == s[..n] + [s[n]];
      PairsSplit(s[..n], s[n]);
    }
  }

  function Swapped(s: seq<int>, i: nat, j: nat): (t: seq<int>)
    requires i < |s| && j < |s|
    ensures |t| == |s| && t[i] == s[j] && t[j] == s[i]
    ensures forall k :: 0 <= k < |s| && k != i && k != j ==> t[k] == s[k]
    ensures multiset(t) == multiset(s)
  {
    s[i := s[j]][j := s[i]]
  }

  lemma {:induction false} SmallerSwapped(s: seq<int>, j: nat, x: int)
    requires j + 1 < |s|
    ensures Smaller(Swapped(s, j, j + 1), x) == Smaller(s, x)
    decreases j
  {
    var t := Swapped(s, j, j + 1);
    if j == 0 {
      assert t[1..][1..] == s[1..][1..];
    } else {
      assert t[1..] == Swapped(s[1..], j - 1, j);
      SmallerSwapped(s[1..], j - 1, x);
    }
  }

  /** Swapping two neighbours that are out of order removes exactly one inversion. */
  lemma {:induction false} SwapRemovesOne(s: seq<int>, j: nat)
    requires j + 1 < |s| && s[j] > s[j + 1]
    ensures Inversions(Swapped(s, j, j + 1)) + 1 == Inversions(s)
    decreases j
  {
    var t := Swapped(s, j, j + 1);
    if j == 0 {
      assert t[1..][1..] == s[1..][1..];
    } else {
      assert t[1..] == Swapped(s[1..], j - 1, j);
      SmallerSwapped(s[1..], j - 1, s[0]);
      SwapRemovesOne(s[1..], j - 1);
    }
  }

  lemma {:induction false} NoneSmaller(s: seq<int>, x: int)
    ensures Smaller(s, x) == 0 <==> forall k :: 0 <= k < |s| ==> x <= s[k]
    decreases |s|
  {
    if s != [] {
      NoneSmaller(s[1..], x);
      assert forall k :: 0 < k < |s| ==> s[k] == s[1..][k - 1];
      assert forall k :: 0 <= k < |s| - 1 ==> s[1..][k] == s[k + 1];
    }
  }

  /** A sequence is sorted exactly when it has no inversion. */
  lemma {:induction false} SortedNoInversions(s: seq<int>)
    ensures Inversions(s) == 0 <==> Sorted(s)
    decreases |s|
  {
    if s != [] {
      SortedNoInversions(s[1..]);
      NoneSmaller(s[1..], s[0]);
      assert forall k :: 0 < k < |s| ==> s[k] == s[1..][k - 1];
      assert forall k :: 0 <= k < |s| - 1 ==> s[1..][k] == s[k + 1];
    }
  }

  // ----- the sorted permutation

  function Insert(x: int, s: seq<int>): (t: seq<int>)
    ensures multiset(t) == multiset(s) + multiset{x}
  {
    if s == [] || x <= s[0] then [x] + s
    else
      assert s == [s[0]] + s[1..];
      [s[0]] + Insert(x, s[1..])
  }

  /** What Insert returns are the elements it is given. */
  lemma InsertFrom(x: int, s: seq<int>, k: nat)
    requires k < |Insert(x, s)|
    ensures Insert(x, s)[k] == x || Insert(x, s)[k] in s
  {
    assert Insert(x, s)[k] in multiset(Insert(x, s));
  }

  lemma {:induction false} InsertSorted(x: int, s: seq<int>)
    requires Sorted(s)
    ensures Sorted(Insert(x, s))
    decreases |s|
  {
    if s != [] && x > s[0] {
      InsertSorted(x, s[1..]);
      forall k: nat | k < |Insert(x, s[1..])|
        ensures s[0] <= Insert(x, s[1..])[k]
      {
        InsertFrom(x, s[1..], k);
      }
    }
  }

  /** The sorted arrangement of `s`. */
  function Sort(s: seq<int>): (t: seq<int>)
    ensures Sorted(t) && multiset(t) == multiset(s)
  {
    if s == [] then []
    else
      assert s == [s[0]] + s[1..];
      InsertSorted(s[0], Sort(s[1..]));
      Insert(s[0], Sort(s[1..]))
  }

  /** There is only one. */
  lemma {:induction false} SortedUnique(s: seq<int>, t: seq<int>)
    requires Sorted(s) && Sorted(t) && multiset(s) == multiset(t)
    ensures s == t
    decreases |s|
  {
    assert |s| == |multiset(s)| == |multiset(t)| == |t|;
    if s != [] {
      assert s[0] in multiset(t) && t[0] in multiset(s);
      assert s[0] == t[0];
      assert s == [s[0]] + s[1..] && t == [t[0]] + t[1..];
      assert multiset(s[1..]) == multiset(s) - multiset{s[0]};
      assert multiset(t[1..]) == multiset(t) - multiset{t[0]};
      SortedUnique(s[1..], t[1..]);
    }
  }

  lemma SortedIsSort(s: seq<int>, t: seq<int>)
    requires Sorted(t) && multiset(t) == multiset(s)
    ensures t == Sort(s)
  {
    SortedUnique(t, Sort(s));
  }

  // ----- bubbleSort

  /** From `m` on no element is smaller than one before it. */
  predicate TopDone(s: seq<int>, m: int) {
    forall p, q :: 0 <= p < q < |s| && m <= q ==> s[p] <= s[q]
  }

  predicate MaxAt(s: seq<int>, j: int) {
    0 <= j < |s| && forall p :: 0 <= p < j ==> s[p] <= s[j]
  }

  /** One comparison of the inner loop. */
  function Bubbled(s: seq<int>, j: nat): seq<int>
    requires j + 1 < |s|
  {
    if s[j] > s[j + 1] then Swapped(s, j, j + 1) else s
  }

  lemma BubbleStep(s: seq<int>, j: nat, m: int)
    requires j + 1 < m <= |s| && TopDone(s, m) && MaxAt(s, j)
    ensures var t := Bubbled(s, j);
            && TopDone(t, m) && MaxAt(t, j + 1) && multiset(t) == multiset(s)
            && Inversions(t) + (if s[j] > s[j + 1] then 1 else 0) == Inversions(s)
  {
    if s[j] > s[j + 1] {
      SwapRemovesOne(s, j);
    }
  }

  /** bubbleSort; `swaps` counts its swaps. */
  method BubbleSort(a: array<int>) returns (ghost swaps: nat)
    modifies a
    ensures a[..] == Sort(old(a[..]))
    ensures swaps == Inversions(old(a[..]))
  {
    swaps := 0;
    ghost var s := a[..];
    var len := a.Length;
    var i := 0;
    while i < len - 1
      invariant 0 <= i && (len > 0 ==> i <= len - 1) && a[..] == s && |s| == len
      invariant TopDone(s, len - i) && multiset(s) == multiset(old(a[..])) && swaps + Inversions(s) == Inversions(old(a[..]))
    {
      var j := 0;
      while j < len - 1 - i
        invariant 0 <= j <= len - 1 - i && a[..] == s && |s| == len
        invariant TopDone(s, len - i) && MaxAt(s, j)
        invariant multiset(s) == multiset(old(a[..])) && swaps + Inversions(s) == Inversions(old(a[..]))
      {
        BubbleStep(s, j, len - i);
        if a[j] > a[j + 1] {
          var temp := a[j];
          a[j] := a[j + 1];
          a[j + 1] := temp;
          assert a[..] == Swapped(s, j, j + 1);
          swaps := swaps + 1;
        }
        s := Bubbled(s, j);
        j := j + 1;
      }
      i := i + 1;
    }
    SortedIsSort(old(a[..]), s);
    SortedNoInversions(s);
  }

  // ----- selectSort

  /** No element before `m` is larger than one behind it. */
  predicate BottomDone(s: seq<int>, m: int) {
    forall p, q :: 0 <= p < q < |s| && p < m ==> s[p] <= s[q]
  }

  /** The element at `j` is the least of those from `j` up to `i`. */
  predicate MinAt(s: seq<int>, j: int, i: int) {
    0 <= j < i <= |s| && forall q :: j < q < i ==> s[j] <= s[q]
  }

  function Exchanged(s: seq<int>, j: nat, i: nat): seq<int>
    requires j < i < |s|
  {
    if s[j] > s[i] then Swapped(s, j, i) else s
  }

  lemma ExchangeStep(s: seq<int>, j: nat, i: nat)
    requires j < i < |s| && BottomDone(s, j) && MinAt(s, j, i)
    ensures var t := Exchanged(s, j, i); BottomDone(t, j) && MinAt(t, j, i + 1) && multiset(t) == multiset(s)
  {
  }

  /** selectSort computes the same. */
  method SelectSort(a: array<int>)
    modifies a
    ensures a[..] == Sort(old(a[..]))
  {
    ghost var s := a[..];
    var len := a.Length;
    var j := 0;
    while j < len - 1
      invariant 0 <= j && (len > 0 ==> j <= len - 1) && a[..] == s && |s| == len
      invariant BottomDone(s, j) && multiset(s) == multiset(old(a[..]))
    {
      var i := j + 1;
      while i < len
        invariant j + 1 <= i <= len && a[..] == s && |s| == len
        invariant BottomDone(s, j) && MinAt(s, j, i) && multiset(s) == multiset(old(a[..]))
      {
        ExchangeStep(s, j, i);
        if a[j] > a[i] {
          var temp := a[j];
          a[j] := a[i];
          a[i] := temp;
        }
        s := Exchanged(s, j, i);
        i := i + 1;
      }
      j := j + 1;
    }
    SortedIsSort(old(a[..]), s);
  }
}
