/** Shared vocabulary of the pipeline: nullable values, sums over columns,
    the string tests the scripts use on column and file names, decimal
    rendering of integers and first-appearance de-duplication. */
module Common {

  /** A nullable value, as a dataframe cell or a Python `None`. */
  datatype Option<+T> = None | Some(value: T)

  /** A hexagonal cell identifier (an H3 index string). */
  type Cell = string

  /** Sum of a sequence of reals, accumulated from the left. */
  function Sum(xs: seq<real>): real
  {
    if xs == [] then 0.0 else Sum(xs[..|xs| - 1]) + xs[|xs| - 1]
  }

  lemma {:induction false} SumConcat(a: seq<real>, b: seq<real>)
    ensures Sum(a + b) == Sum(a) + Sum(b)
    decreases |b|
  {
    if b == [] {
      assert a + b == a;
    } else {
      var b' := b[..|b| - 1];
      assert (a + b)[..|a + b| - 1] == a + b';
      SumConcat(a, b');
    }
  }

  /** A column sum with null cells skipped, as polars `sum()` does
      (an all-null column sums to zero). */
  function NullSum(xs: seq<Option<real>>): real
  {
    if xs == [] then 0.0
    else NullSum(xs[..|xs| - 1]) + (match xs[|xs| - 1] case None => 0.0 case Some(v) => v)
  }

  /** The non-null values of a column, in order. */
  function Present(xs: seq<Option<real>>): (vs: seq<real>)
    ensures |vs| <= |xs|
    ensures forall v :: v in vs <==> Some(v) in xs
  {
    if xs == [] then []
    else
      var rest := Present(xs[..|xs| - 1]);
      assert forall o :: o in xs <==> o in xs[..|xs| - 1] || o == xs[|xs| - 1];
      match xs[|xs| - 1]
      case None => rest
      case Some(v) => rest + [v]
  }

  lemma {:induction false} NullSumIsSumOfPresent(xs: seq<Option<real>>)
    ensures NullSum(xs) == Sum(Present(xs))
  {
    if xs != [] {
      NullSumIsSumOfPresent(xs[..|xs| - 1]);
      var rest := Present(xs[..|xs| - 1]);
      match xs[|xs| - 1]
      case None =>
      case Some(v) =>
        assert (rest + [v])[..|rest + [v]| - 1] == rest;
    }
  }

  /** The arithmetic mean of the non-null values, `None` when there are none
      (polars `mean()` of a column, or of a filtered column). */
  function MeanPresent(xs: seq<Option<real>>): (r: Option<real>)
    ensures r.None? <==> (forall i :: 0 <= i < |xs| ==> xs[i].None?)
  {
    var vs := Present(xs);
    if vs == [] then
      None
    else
      assert vs[0] in vs;
      Some(Sum(vs) / (|vs| as real))
  }

  lemma {:induction false} SumBetween(vs: seq<real>, lo: real, hi: real)
    requires forall i :: 0 <= i < |vs| ==> lo <= vs[i] <= hi
    ensures |vs| as real * lo <= Sum(vs) <= |vs| as real * hi
    decreases |vs|
  {
    if vs != [] {
      SumBetween(vs[..|vs| - 1], lo, hi);
    }
  }

  /** The mean of the non-null values lies within any bounds of them. */
  lemma MeanPresentBounds(xs: seq<Option<real>>, lo: real, hi: real)
    requires forall i :: 0 <= i < |xs| && xs[i].Some? ==> lo <= xs[i].value <= hi
    requires MeanPresent(xs).Some?
    ensures lo <= MeanPresent(xs).value <= hi
  {
    PresentBetween(xs, lo, hi);
    MeanBetween(Present(xs), lo, hi);
  }

  lemma MeanBetween(vs: seq<real>, lo: real, hi: real)
    requires vs != [] && forall i :: 0 <= i < |vs| ==> lo <= vs[i] <= hi
    ensures lo <= Sum(vs) / (|vs| as real) <= hi
  {
    SumBetween(vs, lo, hi);
    QuotientBetween(Sum(vs), |vs| as real, lo, hi);
  }

  lemma PresentBetween(xs: seq<Option<real>>, lo: real, hi: real)
    requires forall i :: 0 <= i < |xs| && xs[i].Some? ==> lo <= xs[i].value <= hi
    ensures forall i :: 0 <= i < |Present(xs)| ==> lo <= Present(xs)[i] <= hi
  {
    var vs := Present(xs);
    forall i | 0 <= i < |vs| ensures lo <= vs[i] <= hi {
      assert vs[i] in vs;
      var j :| 0 <= j < |xs| && xs[j] == Some(vs[i]);
    }
  }

  lemma QuotientBetween(s: real, n: real, lo: real, hi: real)
    requires n > 0.0 && n * lo <= s <= n * hi
    ensures lo <= s / n <= hi
  {
  }

  /** `part / total * 100` when the total is positive, else 0, the
      percentage rule every rollup script writes inline. */
  function Percent(part: real, total: real): (p: real)
    ensures total > 0.0 ==> p * total == part * 100.0
    ensures total <= 0.0 ==> p == 0.0
  {
    if total > 0.0 then part / total * 100.0 else 0.0
  }

  // ----- strings -----

  predicate StartsWith(s: string, p: string)
  {
    |p| <= |s| && s[..|p|] == p
  }

  predicate EndsWith(s: string, x: string)
  {
    |x| <= |s| && s[|s| - |x|..] == x
  }

  /** Python's `x in s` on strings. */
  predicate Contains(s: string, x: string)
    decreases |s|
  {
    StartsWith(s, x) || (|s| > 0 && Contains(s[1..], x))
  }

  lemma {:induction false} ContainsInfix(a: string, x: string, b: string)
    ensures Contains(a + x + b, x)
    decreases |a|
  {
    if a == [] {
      assert a + x + b == x + b;
      assert (x + b)[..|x|] == x;
    } else {
      assert (a + x + b)[1..] == a[1..] + x + b;
      ContainsInfix(a[1..], x, b);
    }
  }

  lemma StartsWithConcat(p: string, s: string)
    ensures StartsWith(p + s, p)
  {
    assert (p + s)[..|p|] == p;
  }

  lemma EndsWithConcat(s: string, x: string)
    ensures EndsWith(s + x, x)
  {
    assert (s + x)[|s + x| - |x|..] == x;
  }

  /** Decimal digit of a number below ten. */
  function DigitChar(d: nat): char
    requires d < 10
  {
    "0123456789"[d]
  }

  predicate IsDigit(c: char)
  {
    '0' <= c <= '9'
  }

  /** Decimal rendering of a natural number, as Python's `str(n)`
      or an f-string `{n}` render it. */
  function NatToString(n: nat): (s: string)
    ensures |s| >= 1
    ensures forall i :: 0 <= i < |s| ==> IsDigit(s[i])
    decreases n
  {
    if n < 10 then [DigitChar(n)] else NatToString(n / 10) + [DigitChar(n % 10)]
  }

  /** The number a string of decimal digits denotes (Python's `int(s)`). */
  function ParseNat(s: string): nat
    requires forall i :: 0 <= i < |s| ==> IsDigit(s[i])
  {
    if s == [] then 0
    else
      assert IsDigit(s[|s| - 1]);
      ParseNat(s[..|s| - 1]) * 10 + ((s[|s| - 1] as int - '0' as int) as nat)
  }

  /** Rendering a number and reading it back gives the number, so distinct
      numbers render differently. */
  lemma {:induction false} NatToStringRoundTrip(n: nat)
    ensures ParseNat(NatToString(n)) == n
    decreases n
  {
    var s := NatToString(n);
    if n < 10 {
      DigitValue(n);
      assert s[..0] == [];
    } else {
      NatToStringRoundTrip(n / 10);
      assert s[..|s| - 1] == NatToString(n / 10);
      DigitValue(n % 10);
      assert s[|s| - 1] == DigitChar(n % 10);
    }
  }

  /** A digit character denotes the digit it renders. */
  lemma DigitValue(d: nat)
    requires d < 10
    ensures DigitChar(d) as int - '0' as int == d
  {
  }

  // ----- first-appearance de-duplication -----

  predicate NoDuplicates<T(==)>(s: seq<T>)
  {
    forall i, j :: 0 <= i < j < |s| ==> s[i] != s[j]
  }

  /** Two duplicate-free lists with no element in common concatenate to a
      duplicate-free list. */
  lemma NoDuplicatesConcat<T>(a: seq<T>, b: seq<T>)
    requires NoDuplicates(a) && NoDuplicates(b)
    requires forall x :: x in a ==> x !in b
    ensures NoDuplicates(a + b)
  {
    var c := a + b;
    forall i, j | 0 <= i < j < |c|
      ensures c[i] != c[j]
    {
      if j < |a| {
        assert c[i] == a[i] && c[j] == a[j];
      } else if i >= |a| {
        assert c[i] == b[i - |a|] && c[j] == b[j - |a|];
      } else {
        assert c[i] == a[i] && c[j] == b[j - |a|];
        assert a[i] in a;
      }
    }
  }

  /** Dropping the last element keeps a list free of duplicates, and
      that element does not occur before it. */
  lemma NoDuplicatesInit<T>(s: seq<T>)
    requires s != [] && NoDuplicates(s)
    ensures NoDuplicates(s[..|s| - 1]) && s[|s| - 1] !in s[..|s| - 1]
  {
    var init := s[..|s| - 1];
    assert forall i, j :: 0 <= i < j < |init| ==> init[i] == s[i] && init[j] == s[j];
  }

  /** Membership in a list is membership in its front or being its last. */
  lemma InSnoc<T>(s: seq<T>, x: T)
    requires s != []
    ensures x in s <==> x in s[..|s| - 1] || x == s[|s| - 1]
  {
    assert s == s[..|s| - 1] + [s[|s| - 1]];
  }

  /** A prefix one longer is the prefix with the next element appended. */
  lemma TakeSnoc<T>(s: seq<T>, i: nat)
    requires i < |s|
    ensures s[..i + 1] == s[..i] + [s[i]]
  {
  }

  /** Updating one key of a map leaves every other key's value. */
  lemma MapUpdateKeeps<K, V>(m: map<K, V>, a: K, v: V, b: K)
    requires b in m && a != b
    ensures b in m[a := v] && m[a := v][b] == m[b]
  {
  }

  /** The distinct elements of `s` in order of first appearance. */
  function Distinct<T(==,!new)>(s: seq<T>): (d: seq<T>)
    ensures NoDuplicates(d)
    ensures forall x :: x in d <==> x in s
    ensures |d| <= |s|
  {
    if s == [] then []
    else
      var d' := Distinct(s[..|s| - 1]);
      assert forall x :: x in s <==> x in s[..|s| - 1] || x == s[|s| - 1];
      if s[|s| - 1] in d' then d' else d' + [s[|s| - 1]]
  }

  /** Elements of `s` satisfying membership in `keep`, in order. */
  function FilterIn<T(==,!new)>(s: seq<T>, keep: set<T>): (r: seq<T>)
    ensures forall x :: x in r <==> x in s && x in keep
    ensures |r| <= |s|
    ensures NoDuplicates(s) ==> NoDuplicates(r)
  {
    if s == [] then []
    else
      var r' := FilterIn(s[..|s| - 1], keep);
      assert forall x :: x in s <==> x in s[..|s| - 1] || x == s[|s| - 1];
      if s[|s| - 1] in keep then r' + [s[|s| - 1]] else r'
  }

  /** Elements of `s` satisfying `keep`, in order (a list comprehension
      with an `if`). */
  function Filter<T(!new)>(s: seq<T>, keep: T -> bool): (r: seq<T>)
    ensures |r| <= |s|
    ensures forall x :: x in r <==> x in s && keep(x)
  {
    if s == [] then []
    else
      var r' := Filter(s[..|s| - 1], keep);
      assert forall x :: x in s <==> x in s[..|s| - 1] || x == s[|s| - 1];
      if keep(s[|s| - 1]) then r' + [s[|s| - 1]] else r'
  }

  lemma {:induction false} FilterConcat<T(!new)>(a: seq<T>, b: seq<T>, keep: T -> bool)
    ensures Filter(a + b, keep) == Filter(a, keep) + Filter(b, keep)
    decreases |b|
  {
    if b == [] {
      assert a + b == a;
    } else {
      var n := |b| - 1;
      assert (a + b)[..|a + b| - 1] == a + b[..n];
      FilterConcat(a, b[..n], keep);
    }
  }

  /** A string ends with a suffix of its last part exactly when that part
      does. */
  lemma EndsWithLastPart(a: string, b: string, x: string)
    requires |x| <= |b|
    ensures EndsWith(a + b, x) <==> EndsWith(b, x)
  {
    assert (a + b)[|a + b| - |x|..] == b[|b| - |x|..];
  }

  lemma FilterNone<T(!new)>(s: seq<T>, keep: T -> bool)
    requires forall i :: 0 <= i < |s| ==> !keep(s[i])
    ensures Filter(s, keep) == []
  {
  }

  lemma {:induction false} FilterAll<T(!new)>(s: seq<T>, keep: T -> bool)
    requires forall i :: 0 <= i < |s| ==> keep(s[i])
    ensures Filter(s, keep) == s
    decreases |s|
  {
    if s != [] {
      var init := s[..|s| - 1];
      assert forall i :: 0 <= i < |init| ==> init[i] == s[i];
      FilterAll(init, keep);
      FilterSnocCount(s, keep);
      SnocSplit(s);
    }
  }

  /** A list is its front followed by its last element. */
  lemma SnocSplit<T>(s: seq<T>)
    requires s != []
    ensures s == s[..|s| - 1] + [s[|s| - 1]]
  {
  }

  /** Filtering a non-empty list filters its front and keeps its last
      element when it passes. */
  lemma FilterSnocCount<T(!new)>(s: seq<T>, keep: T -> bool)
    requires s != []
    ensures Filter(s, keep) == Filter(s[..|s| - 1], keep) + (if keep(s[|s| - 1]) then [s[|s| - 1]] else [])
    ensures |Filter(s, keep)| == |Filter(s[..|s| - 1], keep)| + (if keep(s[|s| - 1]) then 1 else 0)
  {
  }

  /** Collecting the present values of a non-empty list adds its last one
      when it is present. */
  lemma PresentSnocCount(xs: seq<Option<real>>)
    requires xs != []
    ensures |Present(xs)| == |Present(xs[..|xs| - 1])| + (if xs[|xs| - 1].Some? then 1 else 0)
  {
  }

  /** After a shared head, one string starts with another exactly when
      their tails do. */
  lemma StartsWithAfter(p: string, x: string, y: string)
    ensures StartsWith(p + x, p + y) <==> StartsWith(x, y)
  {
    if |y| <= |x| {
      assert (p + x)[..|p + y|] == p + x[..|y|];
      if (p + x)[..|p + y|] == p + y {
        assert x[..|y|] == (p + x)[..|p + y|][|p|..];
      }
    }
  }

  /** The test "not among `a`", as a value for `Filter`. */
  function NotIn<T(==)>(a: seq<T>): T -> bool
  {
    x => x !in a
  }

  /** The test "among `a`", as a value for `Filter`. */
  function In<T(==)>(a: seq<T>): T -> bool
  {
    x => x in a
  }

  lemma {:induction false} FilterNoDuplicates<T(!new)>(s: seq<T>, keep: T -> bool)
    requires NoDuplicates(s)
    ensures NoDuplicates(Filter(s, keep))
    decreases |s|
  {
    if s != [] {
      var init := s[..|s| - 1];
      assert forall i, j :: 0 <= i < j < |init| ==> init[i] == s[i] && init[j] == s[j];
      FilterNoDuplicates(init, keep);
      assert s[|s| - 1] !in init;
    }
  }

  /** A list without duplicates is its own de-duplication. */
  lemma {:induction false} DistinctOfDistinct<T(!new)>(s: seq<T>)
    requires NoDuplicates(s)
    ensures Distinct(s) == s
    decreases |s|
  {
    if s != [] {
      var init := s[..|s| - 1];
      assert forall i, j :: 0 <= i < j < |init| ==> init[i] == s[i] && init[j] == s[j];
      DistinctOfDistinct(init);
      assert s[|s| - 1] !in init;
      assert s == init + [s[|s| - 1]];
    }
  }

  /** De-duplicating `a + b` keeps the de-duplicated `a` in front, then
      the elements of `b` that `a` lacks, each at its first appearance. */
  lemma {:induction false} DistinctConcat<T(!new)>(a: seq<T>, b: seq<T>)
    ensures Distinct(a + b) == Distinct(a) + Distinct(Filter(b, NotIn(a)))
    decreases |b|
  {
    if b == [] {
      assert a + b == a;
    } else {
      var init := b[..|b| - 1];
      var x := b[|b| - 1];
      assert b == init + [x];
      assert a + b == (a + init) + [x];
      DistinctConcat(a, init);
      FilterSnoc(init, x, NotIn(a));
      if x in a {
        DistinctConcatSeen(a, init, x);
      } else {
        DistinctConcatNew(a, init, x);
      }
    }
  }

  /** The step of `DistinctConcat` for an element `a` already has. */
  lemma DistinctConcatSeen<T(!new)>(a: seq<T>, init: seq<T>, x: T)
    requires x in a
    requires Distinct(a + init) == Distinct(a) + Distinct(Filter(init, NotIn(a)))
    ensures Distinct((a + init) + [x]) == Distinct(a) + Distinct(Filter(init, NotIn(a)))
  {
    DistinctSnocSeen(a + init, x);
  }

  /** The step of `DistinctConcat` for an element `a` lacks. */
  lemma DistinctConcatNew<T(!new)>(a: seq<T>, init: seq<T>, x: T)
    requires x !in a
    requires Distinct(a + init) == Distinct(a) + Distinct(Filter(init, NotIn(a)))
    ensures Distinct((a + init) + [x]) == Distinct(a) + Distinct(Filter(init, NotIn(a)) + [x])
  {
    var f := Filter(init, NotIn(a));
    OutsideMember(a, init, x);
    if x in f {
      DistinctSnocSeen(a + init, x);
      DistinctSnocSeen(f, x);
    } else {
      AppendAfterJoin(Distinct(a + init), Distinct(a), Distinct(f), x);
      DistinctSnocNew(a + init, x);
      DistinctSnocNew(f, x);
    }
  }

  lemma AppendAfterJoin<T>(d: seq<T>, da: seq<T>, df: seq<T>, x: T)
    requires d == da + df
    ensures d + [x] == da + (df + [x])
  {
  }

  lemma OutsideMember<T(!new)>(a: seq<T>, init: seq<T>, x: T)
    requires x !in a
    ensures x in a + init <==> x in Filter(init, NotIn(a))
  {
  }

  /** De-duplicating one more element that was seen changes nothing. */
  lemma DistinctSnocSeen<T(!new)>(s: seq<T>, x: T)
    requires x in s
    ensures Distinct(s + [x]) == Distinct(s)
  {
    assert (s + [x])[..|s|] == s;
  }

  /** De-duplicating one more, unseen element appends it. */
  lemma DistinctSnocNew<T(!new)>(s: seq<T>, x: T)
    requires x !in s
    ensures Distinct(s + [x]) == Distinct(s) + [x]
  {
    assert (s + [x])[..|s|] == s;
  }

  /** Filtering one more element appends it when it passes. */
  lemma FilterSnoc<T(!new)>(s: seq<T>, x: T, keep: T -> bool)
    ensures Filter(s + [x], keep) == if keep(x) then Filter(s, keep) + [x] else Filter(s, keep)
  {
    assert (s + [x])[..|s|] == s;
  }

}
