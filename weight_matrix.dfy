/** The sparse source -> cell weight matrix both builders produce: the scan
    of the candidate cells around one source polygon, the materiality
    threshold, and the per-source renormalisation that makes every
    source's weights sum to one. */
module WeightMatrix {
  import opened Common

  /** Raw weights at or below this fraction of the source area are dropped. */
  const MATERIALITY: real := 0.001

  /** One matrix row: `(grid_id | quadkey, h3_index, weight)`. */
  datatype Entry = Entry(key: string, cell: Cell, weight: real)

  /** What testing one candidate hexagon against the source polygon gives:
      a geometry call raised, the polygons do not intersect, or they
      intersect and the intersection has the given area. */
  datatype Probe = Raises | Disjoint | Meets(area: real)

  /** Entries emitted for one source while walking its candidate cells in
      order. A raising candidate ends the walk (the `except` is around the
      whole source), but entries appended before it stay. A source area of
      zero makes the division raise at the first intersecting candidate. */
  function Scan(key: string, srcArea: real, cands: seq<Cell>, probe: Cell -> Probe): (es: seq<Entry>)
    ensures |es| <= |cands|
    decreases |cands|
  {
    if cands == [] then []
    else
      match probe(cands[0])
      case Raises => []
      case Disjoint => Scan(key, srcArea, cands[1..], probe)
      case Meets(a) =>
        if srcArea == 0.0 then []
        else if a / srcArea > MATERIALITY then [Entry(key, cands[0], a / srcArea)] + Scan(key, srcArea, cands[1..], probe)
        else Scan(key, srcArea, cands[1..], probe)
  }

  /** Every emitted entry carries the source key, one of the candidates,
      and that candidate's intersection area over the source area, which
      is above the materiality threshold. */
  lemma {:induction false} ScanSound(key: string, srcArea: real, cands: seq<Cell>, probe: Cell -> Probe)
    ensures forall e :: e in Scan(key, srcArea, cands, probe) ==>
      && e.key == key && e.cell in cands && srcArea != 0.0
      && probe(e.cell).Meets? && e.weight == probe(e.cell).area / srcArea
      && e.weight > MATERIALITY
    decreases |cands|
  {
    if cands != [] {
      ScanSound(key, srcArea, cands[1..], probe);
      assert forall c :: c in cands[1..] ==> c in cands;
    }
  }

  /** When no candidate raises and the source area is non-zero, every
      candidate whose share of the source exceeds the threshold is emitted. */
  lemma {:induction false} ScanComplete(key: string, srcArea: real, cands: seq<Cell>, probe: Cell -> Probe)
    requires srcArea != 0.0
    requires forall c :: c in cands ==> !probe(c).Raises?
    ensures forall c :: c in cands && probe(c).Meets? && probe(c).area / srcArea > MATERIALITY ==>
      Entry(key, c, probe(c).area / srcArea) in Scan(key, srcArea, cands, probe)
    decreases |cands|
  {
    if cands != [] {
      assert forall c :: c in cands[1..] ==> c in cands;
      ScanComplete(key, srcArea, cands[1..], probe);
      assert forall c :: c in cands ==> c == cands[0] || c in cands[1..];
    }
  }

  /** A candidate that raises discards nothing emitted before it and
      nothing after it is emitted. */
  lemma {:induction false} ScanStopsAtRaise(key: string, srcArea: real, cands: seq<Cell>, probe: Cell -> Probe, j: nat)
    requires j < |cands| && probe(cands[j]).Raises?
    ensures Scan(key, srcArea, cands, probe) == Scan(key, srcArea, cands[..j], probe)
    decreases j
  {
    if j > 0 {
      ScanStopsAtRaise(key, srcArea, cands[1..], probe, j - 1);
      assert cands[1..][..j - 1] == cands[..j][1..];
      match probe(cands[0])
      case Raises =>
      case Disjoint =>
      case Meets(a) =>
    }
  }

  /** A source whose area is zero contributes no entries. */
  lemma {:induction false} ScanZeroArea(key: string, cands: seq<Cell>, probe: Cell -> Probe)
    ensures Scan(key, 0.0, cands, probe) == []
    decreases |cands|
  {
    if cands != [] {
      ScanZeroArea(key, cands[1..], probe);
    }
  }

  /** The candidate loop as the builders run it: `for h3_idx in candidates`,
      appending each material intersection. */
  method ScanCandidates(key: string, srcArea: real, cands: seq<Cell>, probe: Cell -> Probe)
    returns (es: seq<Entry>)
    ensures es == Scan(key, srcArea, cands, probe)
  {
    es := [];
    var i := 0;
    while i < |cands|
      invariant 0 <= i <= |cands|
      invariant es + Scan(key, srcArea, cands[i..], probe) == Scan(key, srcArea, cands, probe)
    {
      assert cands[i..][1..] == cands[i + 1..];
      var p := probe(cands[i]);
      if p.Raises? {
        return;
      }
      if p.Meets? {
        if srcArea == 0.0 {
          return;
        }
        var w := p.area / srcArea;
        if w > MATERIALITY {
          es := es + [Entry(key, cands[i], w)];
        }
      }
      i := i + 1;
    }
    assert cands[i..] == [];
  }

  // ----- renormalisation per source key -----

  /** Sum of the weights of the entries of one source key
      (`pl.col("weight").sum().over(key)`). */
  function KeySum(es: seq<Entry>, key: string): real
  {
    if es == [] then 0.0
    else KeySum(es[..|es| - 1], key) + (if es[|es| - 1].key == key then es[|es| - 1].weight else 0.0)
  }

  predicate AllPositive(es: seq<Entry>)
  {
    forall i :: 0 <= i < |es| ==> es[i].weight > 0.0
  }

  lemma {:induction false} KeySumBoundsMember(es: seq<Entry>, i: nat)
    requires AllPositive(es) && i < |es|
    ensures 0.0 < es[i].weight <= KeySum(es, es[i].key)
    decreases |es|
  {
    var n := |es| - 1;
    if i < n {
      KeySumBoundsMember(es[..n], i);
      KeySumNonNegative(es[..n], es[i].key);
    } else {
      KeySumNonNegative(es[..n], es[i].key);
    }
  }

  lemma {:induction false} KeySumNonNegative(es: seq<Entry>, key: string)
    requires AllPositive(es)
    ensures KeySum(es, key) >= 0.0
    decreases |es|
  {
    if es != [] {
      KeySumNonNegative(es[..|es| - 1], key);
    }
  }

  lemma {:induction false} KeySumAbsent(es: seq<Entry>, key: string)
    requires forall i :: 0 <= i < |es| ==> es[i].key != key
    ensures KeySum(es, key) == 0.0
    decreases |es|
  {
    if es != [] {
      KeySumAbsent(es[..|es| - 1], key);
    }
  }

  /** Each entry of `es` divided by its key's total in `all`. */
  function Rescale(es: seq<Entry>, all: seq<Entry>): (ns: seq<Entry>)
    requires forall i :: 0 <= i < |es| ==> KeySum(all, es[i].key) > 0.0
    ensures |ns| == |es|
    ensures forall i :: 0 <= i < |es| ==>
      ns[i].key == es[i].key && ns[i].cell == es[i].cell
      && ns[i].weight == es[i].weight / KeySum(all, es[i].key)
  {
    if es == [] then []
    else
      var e := es[|es| - 1];
      Rescale(es[..|es| - 1], all) + [Entry(e.key, e.cell, e.weight / KeySum(all, e.key))]
  }

  lemma KeySumsPositive(es: seq<Entry>)
    requires AllPositive(es)
    ensures forall i :: 0 <= i < |es| ==> KeySum(es, es[i].key) > 0.0
  {
    forall i | 0 <= i < |es| ensures KeySum(es, es[i].key) > 0.0 {
      KeySumBoundsMember(es, i);
    }
  }

  /** The matrix after `weight / weight.sum().over(key)`. */
  function Normalize(es: seq<Entry>): (ns: seq<Entry>)
    requires AllPositive(es)
    ensures |ns| == |es|
  {
    KeySumsPositive(es);
    Rescale(es, es)
  }

  lemma {:induction false} RescaleKeySum(es: seq<Entry>, all: seq<Entry>, key: string)
    requires forall i :: 0 <= i < |es| ==> KeySum(all, es[i].key) > 0.0
    requires KeySum(all, key) > 0.0
    ensures KeySum(Rescale(es, all), key) == KeySum(es, key) / KeySum(all, key)
    decreases |es|
  {
    if es != [] {
      var n := |es| - 1;
      RescaleKeySum(es[..n], all, key);
      var ns := Rescale(es, all);
      assert ns[..n] == Rescale(es[..n], all);
      var s := KeySum(all, key);
      var e := es[n];
      assert ns[n].key == e.key;
      assert e.key == key ==> ns[n].weight == e.weight / s;
      assert KeySum(ns, key) == KeySum(ns[..n], key) + (if e.key == key then e.weight / s else 0.0);
      assert KeySum(es, key) == KeySum(es[..n], key) + (if e.key == key then e.weight else 0.0);
      ScaledStep(KeySum(ns[..n], key), KeySum(es[..n], key), e.weight, s, e.key == key);
    }
  }

  /** Adding a scaled term to a scaled sum scales the new sum. */
  lemma ScaledStep(prev: real, a: real, w: real, s: real, hit: bool)
    requires s > 0.0 && prev == a / s
    ensures prev + (if hit then w / s else 0.0) == (a + (if hit then w else 0.0)) / s
  {
    if hit {
      DivAdd(a, w, s);
    }
  }

  lemma DivAdd(a: real, b: real, s: real)
    requires s > 0.0
    ensures a / s + b / s == (a + b) / s
  {
  }

  lemma SelfDiv(s: real)
    requires s > 0.0
    ensures s / s == 1.0
  {
  }

  lemma DivAtMostOne(a: real, s: real)
    requires 0.0 < a <= s
    ensures 0.0 < a / s <= 1.0
  {
  }

  /** Every key that occurs has weights summing to one, all positive. */
  predicate IsNormalized(m: seq<Entry>)
  {
    AllPositive(m) && forall i :: 0 <= i < |m| ==> KeySum(m, m[i].key) == 1.0
  }

  /** After renormalisation each source's weights sum to 1 and every
      weight stays positive. */
  lemma NormalizeSumsToOne(es: seq<Entry>)
    requires AllPositive(es)
    ensures IsNormalized(Normalize(es))
  {
    var ns := Normalize(es);
    KeySumsPositive(es);
    forall i | 0 <= i < |ns| ensures ns[i].weight > 0.0 && KeySum(ns, ns[i].key) == 1.0 {
      var k := es[i].key;
      var s := KeySum(es, k);
      assert ns[i].key == k && ns[i].weight == es[i].weight / s;
      KeySumBoundsMember(es, i);
      DivAtMostOne(es[i].weight, s);
      RescaleKeySum(es, es, k);
      SelfDiv(s);
    }
  }

  /** Renormalised weights lie in (0, 1] and each row keeps its source key
      and its cell. */
  lemma NormalizeBounds(es: seq<Entry>)
    requires AllPositive(es)
    ensures forall i :: 0 <= i < |es| ==>
      && Normalize(es)[i].key == es[i].key && Normalize(es)[i].cell == es[i].cell
      && 0.0 < Normalize(es)[i].weight <= 1.0
  {
    var ns := Normalize(es);
    forall i | 0 <= i < |es| ensures 0.0 < ns[i].weight <= 1.0 {
      KeySumBoundsMember(es, i);
      DivAtMostOne(es[i].weight, KeySum(es, es[i].key));
    }
  }

  lemma DivRatio(a: real, b: real, s: real)
    requires s > 0.0
    ensures (a / s) * b == (b / s) * a
  {
  }

  /** Renormalisation keeps the ratio between two weights of one source. */
  lemma NormalizePreservesRatios(es: seq<Entry>, i: nat, j: nat)
    requires AllPositive(es)
    requires i < |es| && j < |es| && es[i].key == es[j].key
    ensures Normalize(es)[i].weight * es[j].weight == Normalize(es)[j].weight * es[i].weight
  {
    KeySumsPositive(es);
    var s := KeySum(es, es[i].key);
    var ns := Rescale(es, es);
    assert ns[i].weight == es[i].weight / s;
    assert ns[j].weight == es[j].weight / s;
    DivRatio(es[i].weight, es[j].weight, s);
  }
}
