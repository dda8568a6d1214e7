/** Summary statistics over the integer pixel values of one hexagon, as
    numpy computes them: sum, mean, minimum, maximum and median (the
    middle of the sorted values, or the mean of the two middle ones). */
module Stats {

  function IntSum(xs: seq<int>): int
  {
    if xs == [] then 0 else IntSum(xs[..|xs| - 1]) + xs[|xs| - 1]
  }

  /** `np.mean`. */
  function Mean(xs: seq<int>): real
    requires |xs| > 0
  {
    IntSum(xs) as real / |xs| as real
  }

  /** `np.min`. */
  function MinOf(xs: seq<int>): int
    requires |xs| > 0
  {
    if |xs| == 1 then xs[0]
    else
      var rest := MinOf(xs[..|xs| - 1]);
      if xs[|xs| - 1] < rest then xs[|xs| - 1] else rest
  }

  /** `np.max`. */
  function MaxOf(xs: seq<int>): int
    requires |xs| > 0
  {
    if |xs| == 1 then xs[0]
    else
      var rest := MaxOf(xs[..|xs| - 1]);
      if xs[|xs| - 1] > rest then xs[|xs| - 1] else rest
  }

  /** The minimum is a value of the list no greater than any other. */
  lemma {:induction false} MinOfIsLeast(xs: seq<int>)
    requires |xs| > 0
    ensures MinOf(xs) in xs
    ensures forall i :: 0 <= i < |xs| ==> MinOf(xs) <= xs[i]
    decreases |xs|
  {
    if |xs| > 1 {
      MinOfIsLeast(xs[..|xs| - 1]);
    }
  }

  /** The maximum is a value of the list no smaller than any other. */
  lemma {:induction false} MaxOfIsGreatest(xs: seq<int>)
    requires |xs| > 0
    ensures MaxOf(xs) in xs
    ensures forall i :: 0 <= i < |xs| ==> xs[i] <= MaxOf(xs)
    decreases |xs|
  {
    if |xs| > 1 {
      MaxOfIsGreatest(xs[..|xs| - 1]);
    }
  }

  predicate Sorted(s: seq<int>)
  {
    forall i, j :: 0 <= i < j < |s| ==> s[i] <= s[j]
  }

  /** Inserts `x` before the first value not below it. */
  function Insert(x: int, s: seq<int>): (r: seq<int>)
    ensures |r| == |s| + 1
  {
    if s == [] then [x]
    else if x <= s[0] then [x] + s
    else [s[0]] + Insert(x, s[1..])
  }

  /** Inserting into a sorted list keeps it sorted and adds exactly `x`. */
  lemma {:induction false} InsertSorted(x: int, s: seq<int>)
    requires Sorted(s)
    ensures Sorted(Insert(x, s))
    ensures multiset(Insert(x, s)) == multiset(s) + multiset{x}
    decreases |s|
  {
    InsertPermutes(x, s);
    if s != [] && x > s[0] {
      var t := Insert(x, s[1..]);
      InsertSorted(x, s[1..]);
      InsertPermutes(x, s[1..]);
      BoundedByValues(t, s[1..], x, s[0]);
      ConsSorted(s[0], t);
    } else if s != [] {
      ConsSorted(x, s);
    }
  }

  /** Inserting adds exactly `x` to the values. */
  lemma {:induction false} InsertPermutes(x: int, s: seq<int>)
    ensures multiset(Insert(x, s)) == multiset(s) + multiset{x}
    decreases |s|
  {
    if s != [] && x > s[0] {
      assert s == [s[0]] + s[1..];
      InsertPermutes(x, s[1..]);
    }
  }

  /** A value no larger than any of a sorted list's, put in front, keeps
      it sorted. */
  lemma ConsSorted(a: int, t: seq<int>)
    requires Sorted(t) && forall i :: 0 <= i < |t| ==> a <= t[i]
    ensures Sorted([a] + t)
  {
  }

  /** A list holding the values of `u` and `x` is bounded below by any
      bound of them. */
  lemma BoundedByValues(t: seq<int>, u: seq<int>, x: int, lo: int)
    requires multiset(t) == multiset(u) + multiset{x}
    requires lo <= x && forall i :: 0 <= i < |u| ==> lo <= u[i]
    ensures forall i :: 0 <= i < |t| ==> lo <= t[i]
  {
    forall i | 0 <= i < |t| ensures lo <= t[i] {
      assert t[i] in multiset(t);
      if t[i] != x {
        assert t[i] in multiset(u);
        var j :| 0 <= j < |u| && u[j] == t[i];
      }
    }
  }

  /** The values in ascending order, as `np.median` sorts them. */
  function Sort(xs: seq<int>): (s: seq<int>)
    ensures |s| == |xs|
  {
    if xs == [] then []
    else Insert(xs[|xs| - 1], Sort(xs[..|xs| - 1]))
  }

  /** Sorting gives a sorted permutation of the values. */
  lemma {:induction false} SortSound(xs: seq<int>)
    ensures Sorted(Sort(xs))
    ensures multiset(Sort(xs)) == multiset(xs)
    decreases |xs|
  {
    if xs != [] {
      SortSound(xs[..|xs| - 1]);
      InsertSorted(xs[|xs| - 1], Sort(xs[..|xs| - 1]));
      assert xs == xs[..|xs| - 1] + [xs[|xs| - 1]];
    }
  }

  /** `np.median`. */
  function Median(xs: seq<int>): real
    requires |xs| > 0
  {
    var s := Sort(xs);
    var n := |s|;
    if n % 2 == 1 then s[n / 2] as real
    else (s[n / 2 - 1] + s[n / 2]) as real / 2.0
  }

  lemma {:induction false} SumBounds(xs: seq<int>, lo: int, hi: int)
    requires forall i :: 0 <= i < |xs| ==> lo <= xs[i] <= hi
    ensures |xs| * lo <= IntSum(xs) <= |xs| * hi
    decreases |xs|
  {
    if xs != [] {
      var init := xs[..|xs| - 1];
      assert forall i :: 0 <= i < |init| ==> init[i] == xs[i];
      SumBounds(init, lo, hi);
      MulStep(|init|, lo);
      MulStep(|init|, hi);
    }
  }

  lemma MulStep(n: nat, v: int)
    ensures (n + 1) * v == n * v + v
  {
  }

  lemma DivBetween(lo: int, hi: int, s: int, n: nat)
    requires n > 0 && n * lo <= s <= n * hi
    ensures lo as real <= s as real / n as real <= hi as real
  {
    assert (n * lo) as real == n as real * lo as real;
    assert (n * hi) as real == n as real * hi as real;
  }

  /** The mean lies between the minimum and the maximum. */
  lemma MeanBounds(xs: seq<int>)
    requires |xs| > 0
    ensures MinOf(xs) as real <= Mean(xs) <= MaxOf(xs) as real
  {
    MinOfIsLeast(xs);
    MaxOfIsGreatest(xs);
    SumBounds(xs, MinOf(xs), MaxOf(xs));
    DivBetween(MinOf(xs), MaxOf(xs), IntSum(xs), |xs|);
  }

  /** Sorting keeps the values, so each sorted value lies between the
      list's minimum and maximum. */
  lemma SortedValueBounds(xs: seq<int>, i: nat)
    requires |xs| > 0
    requires i < |Sort(xs)|
    ensures MinOf(xs) <= Sort(xs)[i] <= MaxOf(xs)
  {
    var s := Sort(xs);
    SortSound(xs);
    MinOfIsLeast(xs);
    MaxOfIsGreatest(xs);
    assert s[i] in multiset(s);
    assert s[i] in multiset(xs);
    var j :| 0 <= j < |xs| && xs[j] == s[i];
  }

  lemma MidBetween(lo: int, hi: int, a: int, b: int)
    requires lo <= a <= hi && lo <= b <= hi
    ensures lo as real <= (a + b) as real / 2.0 <= hi as real
  {
  }

  /** The median lies between the minimum and the maximum. */
  lemma MedianBounds(xs: seq<int>)
    requires |xs| > 0
    ensures MinOf(xs) as real <= Median(xs) <= MaxOf(xs) as real
  {
    var n := |xs|;
    if n % 2 == 1 {
      SortedValueBounds(xs, n / 2);
    } else {
      EvenMedianBounds(xs);
    }
  }

  lemma EvenMedianBounds(xs: seq<int>)
    requires |xs| > 0 && |xs| % 2 == 0
    ensures MinOf(xs) as real <= Median(xs) <= MaxOf(xs) as real
  {
    var s := Sort(xs);
    var k := |xs| / 2 - 1;
    var lo, hi := MinOf(xs), MaxOf(xs);
    SortedValueBounds(xs, k);
    SortedValueBounds(xs, k + 1);
    assert lo <= s[k] <= hi;
    assert lo <= s[k + 1] <= hi;
    MidBetween(lo, hi, s[k], s[k + 1]);
    assert Median(xs) == (s[k] + s[k + 1]) as real / 2.0;
  }

  /** Order does not matter to the median: it is the median of the
      sorted list itself. */
  lemma MedianOfSorted(xs: seq<int>)
    requires |xs| > 0 && Sorted(xs)
    ensures Median(xs) == (if |xs| % 2 == 1 then xs[|xs| / 2] as real
                           else (xs[|xs| / 2 - 1] + xs[|xs| / 2]) as real / 2.0)
  {
    SortSound(xs);
    SortUnique(Sort(xs), xs);
  }

  /** Two sorted lists with the same values start with the same value. */
  lemma SortedHeads(a: seq<int>, b: seq<int>)
    requires Sorted(a) && Sorted(b) && multiset(a) == multiset(b)
    requires a != [] && b != []
    ensures a[0] == b[0]
  {
    assert a[0] in multiset(b) && b[0] in multiset(a);
    var i :| 0 <= i < |b| && b[i] == a[0];
    var j :| 0 <= j < |a| && a[j] == b[0];
    assert b[0] <= b[i] && a[0] <= a[j];
  }

  lemma TailValues(a: seq<int>)
    requires a != []
    ensures multiset(a[1..]) == multiset(a) - multiset{a[0]}
  {
    assert a == [a[0]] + a[1..];
  }

  /** Two sorted lists with the same values are equal. */
  lemma {:induction false} SortUnique(a: seq<int>, b: seq<int>)
    requires Sorted(a) && Sorted(b) && multiset(a) == multiset(b)
    ensures a == b
    decreases |a|
  {
    assert |a| == |multiset(a)| == |multiset(b)| == |b|;
    if a != [] {
      SortedHeads(a, b);
      TailValues(a);
      TailValues(b);
      SortUnique(a[1..], b[1..]);
      assert a == [a[0]] + a[1..] && b == [b[0]] + b[1..];
    }
  }
}
