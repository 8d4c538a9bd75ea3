/** Sorted order, and the selection step that src/calc_pedestal.cc takes from the C++ library. */
module Order {

  predicate Sorted(s: seq<int>) {
    forall i, j | 0 <= i < j < |s| :: s[i] <= s[j]
  }

  function Insert(x: int, s: seq<int>): (r: seq<int>) {
    if s == [] || x <= s[0] then [x] + s else [s[0]] + Insert(x, s[1..])
  }

  function Sort(s: seq<int>): (r: seq<int>)
    ensures |r| == |s|
  {
    if s == [] then [] else
      InsertLengthens(s[0], Sort(s[1..]));
      Insert(s[0], Sort(s[1..]))
  }

  lemma {:induction false} InsertLengthens(x: int, s: seq<int>)
    ensures |Insert(x, s)| == |s| + 1
  {
    if !(s == [] || x <= s[0]) { InsertLengthens(x, s[1..]); }
  }

  lemma {:induction false} InsertAdds(x: int, s: seq<int>)
    ensures multiset(Insert(x, s)) == multiset{x} + multiset(s)
  {
    if !(s == [] || x <= s[0]) {
      InsertAdds(x, s[1..]);
      HeadAndTail(s);
    }
  }

  lemma HeadAndTail(s: seq<int>)
    requires s != []
    ensures multiset(s) == multiset{s[0]} + multiset(s[1..])
  {
    assert s == [s[0]] + s[1..];
  }

  // Insertion puts x where everything before is smaller.
  lemma {:induction false} InsertSorts(x: int, s: seq<int>, low: int)
    requires Sorted(s) && low <= x && (s != [] ==> low <= s[0])
    ensures Sorted(Insert(x, s)) && low <= Insert(x, s)[0]
  {
    if !(s == [] || x <= s[0]) {
      InsertSorts(x, s[1..], s[0]);
      ConsSorted(s[0], Insert(x, s[1..]));
    }
  }

  lemma ConsSorted(x: int, s: seq<int>)
    requires Sorted(s) && (s != [] ==> x <= s[0])
    ensures Sorted([x] + s)
  {
    forall i, j | 0 <= i < j < |[x] + s| ensures ([x] + s)[i] <= ([x] + s)[j] {
      assert ([x] + s)[j] == s[j - 1];
    }
  }

  /** Sort yields a sorted rearrangement. */
  lemma {:induction false} SortSorts(s: seq<int>)
    ensures Sorted(Sort(s)) && multiset(Sort(s)) == multiset(s)
  {
    if s != [] {
      SortSorts(s[1..]);
      var t := Sort(s[1..]);
      InsertSorts(s[0], t, if t == [] || s[0] <= t[0] then s[0] else t[0]);
      InsertAdds(s[0], t);
      HeadAndTail(s);
    }
  }

  lemma SameMembers(a: seq<int>, b: seq<int>)
    requires multiset(a) == multiset(b)
    ensures |a| == |b|
    ensures forall x: int :: x in a <==> x in b
  {
    assert |a| == |multiset(a)| && |b| == |multiset(b)|;
    forall x: int ensures x in a <==> x in b {
      assert x in a <==> x in multiset(a);
      assert x in b <==> x in multiset(b);
    }
  }

  /** A list has only one sorted order. */
  lemma {:induction false} SortedOrderIsUnique(a: seq<int>, b: seq<int>)
    requires Sorted(a) && Sorted(b) && multiset(a) == multiset(b)
    ensures a == b
  {
    SameMembers(a, b);
    if a != [] {
      FirstIsLeast(a, b[0]);
      FirstIsLeast(b, a[0]);
      TailsAgree(a, b);
      SortedOrderIsUnique(a[1..], b[1..]);
    }
  }

  lemma FirstIsLeast(a: seq<int>, x: int)
    requires Sorted(a) && x in a
    ensures a[0] <= x
  {
  }

  lemma TailsAgree(a: seq<int>, b: seq<int>)
    requires a != [] && b != [] && a[0] == b[0] && multiset(a) == multiset(b)
    ensures multiset(a[1..]) == multiset(b[1..])
  {
    HeadAndTail(a);
    HeadAndTail(b);
    assert multiset(a[1..]) == multiset(a) - multiset{a[0]};
  }

  ghost predicate Partitioned(s: seq<int>, n: nat) {
    n < |s| && (forall i | 0 <= i < n :: s[i] <= s[n]) && (forall i | n < i < |s| :: s[n] <= s[i])
  }

  lemma BoundsSurviveSorting(s: seq<int>, low: int, high: int)
    requires forall x <- s :: low <= x <= high
    ensures forall i | 0 <= i < |s| :: low <= Sort(s)[i] <= high
  {
    hide Sort;
    SortSorts(s);
    SameMembers(s, Sort(s));
    forall i | 0 <= i < |s| ensures low <= Sort(s)[i] <= high {
      assert Sort(s)[i] in Sort(s);
    }
  }

  /** In a list partitioned at n, position n holds what sorting would put there, and what stands before
      it is what sorting would put before it. */
  lemma PartitionSelects(s: seq<int>, n: nat)
    requires Partitioned(s, n)
    ensures Sort(s)[n] == s[n] && Sort(s)[..n] == Sort(s[..n])
  {
    hide Sort, Sorted;
    var a, b := Sort(s[..n]), Sort(s[n + 1..]);
    SortedPieces(s, n);
    SortSorts(s);
    SortedOrderIsUnique(a + [s[n]] + b, Sort(s));
  }

  lemma SortedPieces(s: seq<int>, n: nat)
    requires Partitioned(s, n)
    ensures var t := Sort(s[..n]) + [s[n]] + Sort(s[n + 1..]); Sorted(t) && multiset(t) == multiset(s)
  {
    hide Sort;
    var a, b := Sort(s[..n]), Sort(s[n + 1..]);
    SortSorts(s[..n]);
    SortSorts(s[n + 1..]);
    SameMembers(a, s[..n]);
    SameMembers(b, s[n + 1..]);
    forall i | 0 <= i < |a| ensures a[i] <= s[n] {
      assert a[i] in a;
    }
    forall i | 0 <= i < |b| ensures s[n] <= b[i] {
      assert b[i] in b;
    }
    assert s == s[..n] + [s[n]] + s[n + 1..];
  }

  lemma LastIsGreatest(s: seq<int>, v: int)
    requires v in s && forall x <- s :: x <= v
    ensures Sort(s)[|s| - 1] == v
  {
    hide Sort;
    var t := Sort(s);
    SortSorts(s);
    SameMembers(s, t);
    assert t[|t| - 1] in t;
    assert v in t;
  }

  method MinElement(a: array<int>, from: nat) returns (least: nat)
    requires from < a.Length
    ensures from <= least < a.Length
    ensures forall i | from <= i < a.Length :: a[least] <= a[i]
  {
    least := from;
    for j := from + 1 to a.Length
      invariant from <= least < a.Length
      invariant forall i | from <= i < j :: a[least] <= a[i]
    {
      if a[j] < a[least] { least := j; }
    }
  }

  // The first k elements are in order and nothing after them is smaller.
  ghost predicate Settled(s: seq<int>, k: nat) {
    forall i, j | 0 <= i < k && i < j < |s| :: s[i] <= s[j]
  }

  function Swapped(s: seq<int>, i: nat, j: nat): seq<int>
    requires i < |s| && j < |s|
  {
    s[i := s[j]][j := s[i]]
  }

  lemma SwappingSettles(s: seq<int>, k: nat, least: nat)
    requires k <= least < |s| && Settled(s, k)
    requires forall i | k <= i < |s| :: s[least] <= s[i]
    ensures Settled(Swapped(s, k, least), k + 1)
    ensures multiset(Swapped(s, k, least)) == multiset(s)
  {
  }

  lemma SettledIsPartitioned(s: seq<int>, n: nat)
    requires n < |s| && Settled(s, n + 1)
    ensures Partitioned(s, n)
  {
  }

  /** What [alg.nth.element] of ISO/IEC 14882:2017 promises, and no more. */
  method NthElement(a: array<int>, n: nat)
    requires n < a.Length
    modifies a
    ensures Partitioned(a[..], n)
    ensures multiset(a[..]) == multiset(old(a[..]))
  {
    hide Partitioned, Settled;
    assert Settled(a[..], 0) by { NothingSettled(a[..]); }
    for k := 0 to n + 1
      invariant multiset(a[..]) == multiset(old(a[..]))
      invariant Settled(a[..], k)
    {
      var least := MinElement(a, k);
      SwappingSettles(a[..], k, least);
      ghost var swapped := Swapped(a[..], k, least);
      a[k], a[least] := a[least], a[k];
      assert a[..] == swapped;
    }
    SettledIsPartitioned(a[..], n);
  }

  lemma NothingSettled(s: seq<int>)
    ensures Settled(s, 0)
  {
  }

  method MaxElement(a: array<int>, n: nat) returns (v: int)
    requires 0 < n <= a.Length
    ensures v in a[..n] && forall x <- a[..n] :: x <= v
  {
    var at := 0;
    for i := 1 to n
      invariant 0 <= at < i
      invariant forall j | 0 <= j < i :: a[j] <= a[at]
    {
      if a[at] < a[i] { at := i; }
    }
    v := a[at];
    assert a[..n][at] == v;
  }

  /** Twice the median: the middle of the sorted order, or the sum of the two in the middle. */
  function DoubledMedian(s: seq<int>): int
    requires s != []
  {
    var t, n := Sort(s), |s|;
    if n % 2 == 1 then 2 * t[n / 2] else t[n / 2 - 1] + t[n / 2]
  }

  lemma MedianIgnoresOrder(s: seq<int>, t: seq<int>)
    requires s != [] && multiset(s) == multiset(t)
    ensures t != [] && DoubledMedian(s) == DoubledMedian(t)
  {
    hide Sort;
    SameMembers(s, t);
    SortSorts(s);
    SortSorts(t);
    SortedOrderIsUnique(Sort(s), Sort(t));
  }

  lemma MedianIsBounded(s: seq<int>, low: int, high: int)
    requires s != [] && forall x <- s :: low <= x <= high
    ensures 2 * low <= DoubledMedian(s) <= 2 * high
  {
    hide Sort;
    BoundsSurviveSorting(s, low, high);
  }

  // ---------------------------------------------------------------------------------------------
  // Ranks
  // ---------------------------------------------------------------------------------------------

  function CountBelow(s: seq<int>, v: int): (n: nat)
    ensures n <= |s|
  {
    if s == [] then 0 else (if s[0] < v then 1 else 0) + CountBelow(s[1..], v)
  }

  lemma {:induction false} InsertCounts(x: int, s: seq<int>, v: int)
    ensures CountBelow(Insert(x, s), v) == (if x < v then 1 else 0) + CountBelow(s, v)
  {
    assert ([x] + s)[1..] == s;
    if !(s == [] || x <= s[0]) {
      assert ([s[0]] + Insert(x, s[1..]))[1..] == Insert(x, s[1..]);
      InsertCounts(x, s[1..], v);
    }
  }

  lemma {:induction false} SortCounts(s: seq<int>, v: int)
    ensures CountBelow(Sort(s), v) == CountBelow(s, v)
  {
    if s != [] {
      InsertCounts(s[0], Sort(s[1..]), v);
      SortCounts(s[1..], v);
    }
  }

  // Where a sorted list reaches v decides how many elements are below v.
  lemma {:induction false} SortedCounts(t: seq<int>, v: int, r: nat)
    requires Sorted(t) && r <= |t|
    ensures r < |t| && v <= t[r] ==> CountBelow(t, v) <= r
    ensures r > 0 && t[r - 1] < v ==> r <= CountBelow(t, v)
  {
    if t != [] {
      if r > 0 {
        SortedCounts(t[1..], v, r - 1);
      } else if v <= t[0] {
        SortedCounts(t[1..], v, 0);
      }
    }
  }

  /** The element at place r of the sorted order: at most r elements are below it, and more than r are not above
      it. */
  lemma SortedRank(s: seq<int>, r: nat)
    requires r < |s|
    ensures CountBelow(s, Sort(s)[r]) <= r < CountBelow(s, Sort(s)[r] + 1)
  {
    hide Sort, Sorted, CountBelow;
    var t := Sort(s);
    SortSorts(s);
    SortCounts(s, t[r]);
    SortCounts(s, t[r] + 1);
    SortedCounts(t, t[r], r);
    SortedCounts(t, t[r] + 1, r + 1);
  }

  lemma {:induction false} CountAppends(s: seq<int>, x: int, v: int)
    ensures CountBelow(s + [x], v) == CountBelow(s, v) + if x < v then 1 else 0
  {
    if s != [] {
      assert (s + [x])[1..] == s[1..] + [x];
      CountAppends(s[1..], x, v);
    }
  }
}
