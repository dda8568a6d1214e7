/** Work partitioning shared by both weight-matrix builders: the input list
    is cut into consecutive slices of `BATCH_SIZE` items, each slice is
    processed on its own, and the per-slice results are concatenated in
    slice order (the process pool's `map` returns results in input order). */
module Batching {

  const BATCH_SIZE: nat := 500

  /** Concatenation of a list of lists, front to back. */
  function Flatten<T>(xss: seq<seq<T>>): seq<T>
  {
    if xss == [] then [] else xss[0] + Flatten(xss[1..])
  }

  lemma {:induction false} FlattenSnoc<T>(xss: seq<seq<T>>, xs: seq<T>)
    ensures Flatten(xss + [xs]) == Flatten(xss) + xs
    decreases |xss|
  {
    if xss == [] {
      assert [xs][1..] == [];
    } else {
      assert (xss + [xs])[1..] == xss[1..] + [xs];
      FlattenSnoc(xss[1..], xs);
    }
  }

  lemma {:induction false} FlattenAppend<T>(a: seq<seq<T>>, b: seq<seq<T>>)
    ensures Flatten(a + b) == Flatten(a) + Flatten(b)
    decreases |a|
  {
    if a == [] {
      assert a + b == b;
    } else {
      assert (a + b)[1..] == a[1..] + b;
      FlattenAppend(a[1..], b);
    }
  }

  /** The slices `s[i : i + BATCH_SIZE]` for `i` in `range(0, len(s), BATCH_SIZE)`. */
  function Batches<T>(s: seq<T>): (bs: seq<seq<T>>)
    ensures forall i :: 0 <= i < |bs| ==> 0 < |bs[i]| <= BATCH_SIZE
    ensures forall i :: 0 <= i < |bs| - 1 ==> |bs[i]| == BATCH_SIZE
    decreases |s|
  {
    if s == [] then []
    else if |s| <= BATCH_SIZE then [s]
    else [s[..BATCH_SIZE]] + Batches(s[BATCH_SIZE..])
  }

  /** The batches, concatenated in order, give back the list. */
  lemma {:induction false} FlattenBatches<T>(s: seq<T>)
    ensures Flatten(Batches(s)) == s
    decreases |s|
  {
    if s != [] {
      if |s| <= BATCH_SIZE {
        assert Flatten([s][1..]) == [];
      } else {
        var rest := Batches(s[BATCH_SIZE..]);
        FlattenBatches(s[BATCH_SIZE..]);
        assert ([s[..BATCH_SIZE]] + rest)[1..] == rest;
        assert s[..BATCH_SIZE] + s[BATCH_SIZE..] == s;
      }
    }
  }

  /** Batch `k` is exactly the slice `s[k*BATCH_SIZE : min((k+1)*BATCH_SIZE, len(s))]`. */
  lemma BatchIsSlice<T>(s: seq<T>, k: nat)
    requires k < |Batches(s)|
    ensures k * BATCH_SIZE < |s|
    ensures Batches(s)[k] == s[k * BATCH_SIZE .. if (k + 1) * BATCH_SIZE <= |s| then (k + 1) * BATCH_SIZE else |s|]
  {
    BatchAt(s, k);
    OffsetIsProduct(k);
    OffsetIsProduct(k + 1);
  }

  /** The offset of batch `k`: `BATCH_SIZE` items per earlier batch. */
  function Offset(k: nat): nat
  {
    if k == 0 then 0 else Offset(k - 1) + BATCH_SIZE
  }

  lemma {:induction false} OffsetIsProduct(k: nat)
    ensures Offset(k) == k * BATCH_SIZE
  {
    if k > 0 {
      OffsetIsProduct(k - 1);
    }
  }

  /** Batch `k` is the slice from its offset of at most `BATCH_SIZE` items. */
  lemma {:induction false} BatchAt<T>(s: seq<T>, k: nat)
    requires k < |Batches(s)|
    ensures Offset(k) < |s|
    ensures Batches(s)[k] == s[Offset(k) .. if Offset(k + 1) <= |s| then Offset(k + 1) else |s|]
    decreases |s|
  {
    var bs := Batches(s);
    assert Offset(k + 1) == Offset(k) + BATCH_SIZE;
    if k == 0 {
      assert Offset(1) == BATCH_SIZE;
      if |s| <= BATCH_SIZE {
        assert bs == [s];
        assert bs[0] == s[0..|s|];
      } else {
        assert bs[0] == s[0..BATCH_SIZE];
      }
    } else {
      var rest := s[BATCH_SIZE..];
      assert bs == [s[..BATCH_SIZE]] + Batches(rest);
      BatchAt(rest, k - 1);
      var lo := Offset(k - 1);
      var hi := if Offset(k) <= |rest| then Offset(k) else |rest|;
      assert bs[k] == rest[lo..hi];
      SliceShift(s, BATCH_SIZE, lo, hi);
      assert lo + BATCH_SIZE == Offset(k);
      assert hi + BATCH_SIZE == if Offset(k + 1) <= |s| then Offset(k + 1) else |s|;
      assert bs[k] == s[Offset(k) .. hi + BATCH_SIZE];
    }
  }

  /** A slice of a suffix is a slice of the whole, shifted. */
  lemma SliceShift<T>(s: seq<T>, d: nat, lo: nat, hi: nat)
    requires d <= |s| && lo <= hi <= |s| - d
    ensures s[d..][lo..hi] == s[lo + d..hi + d]
  {
  }

  /** There are `ceil(len(s)/BATCH_SIZE)` batches. */
  lemma {:induction false} BatchCount<T>(s: seq<T>)
    ensures |Batches(s)| == (|s| + BATCH_SIZE - 1) / BATCH_SIZE
    decreases |s|
  {
    if |s| > BATCH_SIZE {
      BatchCount(s[BATCH_SIZE..]);
      assert (|s| + BATCH_SIZE - 1) / BATCH_SIZE == (|s[BATCH_SIZE..]| + BATCH_SIZE - 1) / BATCH_SIZE + 1 by {
        var m := |s[BATCH_SIZE..]| + BATCH_SIZE - 1;
        assert |s| + BATCH_SIZE - 1 == m + BATCH_SIZE;
      }
    }
  }

  /** Apply a per-item step to every item and concatenate the results
      (one source's entries after another's). */
  function ConcatMap<T, U>(f: T -> seq<U>, s: seq<T>): seq<U>
  {
    if s == [] then [] else ConcatMap(f, s[..|s| - 1]) + f(s[|s| - 1])
  }

  lemma {:induction false} ConcatMapAppend<T, U>(f: T -> seq<U>, a: seq<T>, b: seq<T>)
    ensures ConcatMap(f, a + b) == ConcatMap(f, a) + ConcatMap(f, b)
    decreases |b|
  {
    if b == [] {
      assert a + b == a;
    } else {
      var b' := b[..|b| - 1];
      assert (a + b)[..|a + b| - 1] == a + b';
      ConcatMapAppend(f, a, b');
    }
  }

  /** Every item of a concatenated result comes from one input item. */
  lemma {:induction false} ConcatMapMember<T, U>(f: T -> seq<U>, s: seq<T>, u: U)
    requires u in ConcatMap(f, s)
    ensures exists i :: 0 <= i < |s| && u in f(s[i])
    decreases |s|
  {
    var n := |s| - 1;
    if u !in f(s[n]) {
      ConcatMapMember(f, s[..n], u);
      var i :| 0 <= i < n && u in f(s[..n][i]);
      assert s[..n][i] == s[i];
    }
  }

  /** Every result of an input item is in the concatenated result. */
  lemma {:induction false} ConcatMapHas<T, U>(f: T -> seq<U>, s: seq<T>, i: nat, u: U)
    requires i < |s| && u in f(s[i])
    ensures u in ConcatMap(f, s)
    decreases |s|
  {
    var n := |s| - 1;
    if i < n {
      assert s[..n][i] == s[i];
      ConcatMapHas(f, s[..n], i, u);
    }
  }

  /** Processing the batches up to `k` and then batch `k`. */
  lemma BatchedStep<T, U>(f: T -> seq<U>, bs: seq<seq<T>>, k: nat)
    requires k < |bs|
    ensures ConcatMap(f, Flatten(bs[..k + 1])) == ConcatMap(f, Flatten(bs[..k])) + ConcatMap(f, bs[k])
  {
    assert bs[..k + 1] == bs[..k] + [bs[k]];
    FlattenSnoc(bs[..k], bs[k]);
    ConcatMapAppend(f, Flatten(bs[..k]), bs[k]);
  }

  /** Batch results, one list per batch, in batch order. */
  function PerBatch<T, U>(f: T -> seq<U>, bs: seq<seq<T>>): (rs: seq<seq<U>>)
    ensures |rs| == |bs|
  {
    if bs == [] then [] else [ConcatMap(f, bs[0])] + PerBatch(f, bs[1..])
  }

  lemma {:induction false} PerBatchSnoc<T, U>(f: T -> seq<U>, bs: seq<seq<T>>, b: seq<T>)
    ensures PerBatch(f, bs + [b]) == PerBatch(f, bs) + [ConcatMap(f, b)]
    decreases |bs|
  {
    if bs == [] {
      assert [b][1..] == [];
    } else {
      assert (bs + [b])[1..] == bs[1..] + [b];
      PerBatchSnoc(f, bs[1..], b);
    }
  }

  /** Batching is transparent: concatenating the per-batch results gives
      the result of processing the whole list in one pass. */
  lemma {:induction false} BatchedEqualsWhole<T, U>(f: T -> seq<U>, bs: seq<seq<T>>)
    ensures Flatten(PerBatch(f, bs)) == ConcatMap(f, Flatten(bs))
    decreases |bs|
  {
    if bs != [] {
      BatchedEqualsWhole(f, bs[1..]);
      ConcatMapAppend(f, bs[0], Flatten(bs[1..]));
    }
  }
}
