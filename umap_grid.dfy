/**
 * The UMAP parameter grid of src/generate-64-umap-combinations.py
 * (`select_64_parameter_combinations`): for each `n_neighbors` (outer loop)
 * and each `min_dist` (inner loop) a cosine combination, followed by a
 * euclidean twin for a few key pairs; the list is then cut to its first 64
 * entries.  `min_dist` is kept as an integer number of tenths (0.1 is 1).
 */
module UmapGrid {
  import opened Labels

  datatype Metric = Cosine | Euclidean

  /** One UMAP parameter combination. */
  datatype Params = Params(nNeighbors: int, minDistTenths: int, metric: Metric)

  const NeighborValues: seq<int> := [15, 20, 25, 30, 40, 50, 75, 100]
  const MinDistValues: seq<int> := [1, 2, 3, 4, 5, 6, 8, 10]
  /** The `n` list of the euclidean test; 5 is listed although no `n` takes that value. */
  const EuclideanNeighbors: seq<int> := [5, 15, 30, 50]
  const EuclideanMinDists: seq<int> := [1, 3]
  const Limit: nat := 64

  /** `n in [5, 15, 30, 50] and d in [0.1, 0.3]`. */
  predicate HasEuclideanTwin(n: int, d: int)
  {
    n in EuclideanNeighbors && d in EuclideanMinDists
  }

  /** What one inner iteration appends for `n` and `d`. */
  function Entries(n: int, d: int): seq<Params>
  {
    [Params(n, d, Cosine)] + (if HasEuclideanTwin(n, d) then [Params(n, d, Euclidean)] else [])
  }

  /** What the inner loop appends for `n` over the distances `ds`. */
  function Row(n: int, ds: seq<int>): seq<Params>
  {
    if ds == [] then [] else Row(n, ds[..|ds| - 1]) + Entries(n, ds[|ds| - 1])
  }

  /** What the nested loops append over the neighbour counts `ns` and distances `ds`. */
  function Grid(ns: seq<int>, ds: seq<int>): seq<Params>
  {
    if ns == [] then [] else Grid(ns[..|ns| - 1], ds) + Row(ns[|ns| - 1], ds)
  }

  /** Python's slice `s[:k]`. */
  function Take(s: seq<Params>, k: nat): seq<Params>
  {
    if |s| <= k then s else s[..k]
  }

  /** The list `select_64_parameter_combinations` returns. */
  function Selected(): seq<Params>
  {
    Take(Grid(NeighborValues, MinDistValues), Limit)
  }

  /**
   * `select_64_parameter_combinations`: the nested loops append the cosine
   * entry and, for key pairs, its euclidean twin; then the list is cut to 64.
   */
  method Select64ParameterCombinations() returns (combinations: seq<Params>)
    ensures combinations == Selected()
    ensures |combinations| == 64
  {
    combinations := [];
    var ns := NeighborValues;
    var ds := MinDistValues;
    for a := 0 to |ns|
      invariant combinations == Grid(ns[..a], ds)
    {
      var n := ns[a];
      ghost var done := combinations;
      for b := 0 to |ds|
        invariant combinations == done + Row(n, ds[..b])
      {
        var d := ds[b];
        RowStep(n, ds, b);
        ghost var before := combinations;
        combinations := combinations + [Params(n, d, Cosine)];
        if HasEuclideanTwin(n, d) {
          combinations := combinations + [Params(n, d, Euclidean)];
        }
        AppendEntries(before, combinations, n, d);
      }
      assert ds[..|ds|] == ds;
      GridStep(ns, ds, a);
    }
    assert ns[..|ns|] == ns;
    GridIsCut(combinations);
    combinations := if |combinations| <= 64 then combinations else combinations[..64];
  }

  /** The full grid is longer than 64, so the cut keeps exactly its first 64 entries. */
  lemma GridIsCut(g: seq<Params>)
    requires g == Grid(NeighborValues, MinDistValues)
    ensures |g| > 64 && g[..64] == Selected() && |Selected()| == 64
  {
    SelectedShape();
    GridShape();
  }

  /** The two appends of one inner iteration add `Entries(n, d)`. */
  lemma AppendEntries(before: seq<Params>, after: seq<Params>, n: int, d: int)
    requires after == before + [Params(n, d, Cosine)] + (if HasEuclideanTwin(n, d) then [Params(n, d, Euclidean)] else [])
    ensures after == before + Entries(n, d)
  {
  }

  /** One more inner iteration appends the entries for the next distance. */
  lemma RowStep(n: int, ds: seq<int>, b: nat)
    requires b < |ds|
    ensures Row(n, ds[..b + 1]) == Row(n, ds[..b]) + Entries(n, ds[b])
  {
    assert ds[..b + 1][..b] == ds[..b];
  }

  /** One more outer iteration appends the row for the next neighbour count. */
  lemma GridStep(ns: seq<int>, ds: seq<int>, a: nat)
    requires a < |ns|
    ensures Grid(ns[..a + 1], ds) == Grid(ns[..a], ds) + Row(ns[a], ds)
  {
    var prefix := ns[..a + 1];
    assert prefix[..a] == ns[..a];
    assert prefix[a] == ns[a];
    assert Grid(prefix, ds) == Grid(prefix[..a], ds) + Row(prefix[a], ds);
  }

  // ---------------------------------------------------------------------------
  // Membership

  /** The combinations of a row: its neighbour count, a listed distance, cosine or a key pair. */
  lemma {:induction false} InRow(n: int, ds: seq<int>, p: Params)
    ensures p in Row(n, ds) <==>
              p.nNeighbors == n && p.minDistTenths in ds
              && (p.metric == Cosine || HasEuclideanTwin(n, p.minDistTenths))
  {
    if ds != [] {
      var init := ds[..|ds| - 1];
      InRow(n, init, p);
      assert ds == init + [ds[|ds| - 1]];
    }
  }

  /**
   * The combinations of a grid: a listed neighbour count and distance, with
   * metric cosine, or euclidean for key pairs only.
   */
  lemma {:induction false} InGrid(ns: seq<int>, ds: seq<int>, p: Params)
    ensures p in Grid(ns, ds) <==>
              p.nNeighbors in ns && p.minDistTenths in ds
              && (p.metric == Cosine || HasEuclideanTwin(p.nNeighbors, p.minDistTenths))
  {
    if ns != [] {
      var init := ns[..|ns| - 1];
      InGrid(init, ds, p);
      InRow(ns[|ns| - 1], ds, p);
      assert ns == init + [ns[|ns| - 1]];
    }
  }

  // ---------------------------------------------------------------------------
  // Order: n_neighbors outer, min_dist inner, each euclidean entry after its cosine twin

  /** `p` comes before `q` in the loops' order. */
  predicate Before(p: Params, q: Params)
  {
    || p.nNeighbors < q.nNeighbors
    || (p.nNeighbors == q.nNeighbors && p.minDistTenths < q.minDistTenths)
    || (p.nNeighbors == q.nNeighbors && p.minDistTenths == q.minDistTenths
        && p.metric == Cosine && q.metric == Euclidean)
  }

  predicate Ordered(s: seq<Params>)
  {
    forall i, j :: 0 <= i < j < |s| ==> Before(s[i], s[j])
  }

  /** Every euclidean entry comes right after the cosine entry with the same parameters. */
  predicate TwinsAdjacent(s: seq<Params>)
  {
    forall i :: 0 <= i < |s| && s[i].metric == Euclidean ==>
      0 < i && s[i - 1] == Params(s[i].nNeighbors, s[i].minDistTenths, Cosine)
  }

  lemma OrderedAppend(a: seq<Params>, b: seq<Params>)
    requires Ordered(a) && Ordered(b)
    requires forall x, y :: x in a && y in b ==> Before(x, y)
    ensures Ordered(a + b)
  {
    forall i, j | 0 <= i < j < |a + b| ensures Before((a + b)[i], (a + b)[j]) {
      if j < |a| {
      } else if i >= |a| {
        assert (a + b)[i] == b[i - |a|] && (a + b)[j] == b[j - |a|];
      } else {
        assert (a + b)[i] in a && (a + b)[j] in b;
      }
    }
  }

  lemma TwinsAppend(a: seq<Params>, b: seq<Params>)
    requires TwinsAdjacent(a) && TwinsAdjacent(b)
    ensures TwinsAdjacent(a + b)
  {
    forall i | 0 <= i < |a + b| && (a + b)[i].metric == Euclidean
      ensures 0 < i && (a + b)[i - 1] == Params((a + b)[i].nNeighbors, (a + b)[i].minDistTenths, Cosine)
    {
      if i >= |a| {
        assert (a + b)[i] == b[i - |a|];
        if i > |a| {
          assert (a + b)[i - 1] == b[i - 1 - |a|];
        }
      }
    }
  }

  lemma {:induction false} RowOrdered(n: int, ds: seq<int>)
    requires StrictlyIncreasing(ds)
    ensures Ordered(Row(n, ds)) && TwinsAdjacent(Row(n, ds))
  {
    if ds != [] {
      var init := ds[..|ds| - 1];
      var d := ds[|ds| - 1];
      RowOrdered(n, init);
      forall x, y | x in Row(n, init) && y in Entries(n, d) ensures Before(x, y) {
        InRow(n, init, x);
      }
      OrderedAppend(Row(n, init), Entries(n, d));
      TwinsAppend(Row(n, init), Entries(n, d));
    }
  }

  lemma {:induction false} GridOrdered(ns: seq<int>, ds: seq<int>)
    requires StrictlyIncreasing(ns) && StrictlyIncreasing(ds)
    ensures Ordered(Grid(ns, ds)) && TwinsAdjacent(Grid(ns, ds))
  {
    if ns != [] {
      var init := ns[..|ns| - 1];
      var n := ns[|ns| - 1];
      GridOrdered(init, ds);
      RowOrdered(n, ds);
      forall x, y | x in Grid(init, ds) && y in Row(n, ds) ensures Before(x, y) {
        InGrid(init, ds, x);
        InRow(n, ds, y);
      }
      OrderedAppend(Grid(init, ds), Row(n, ds));
      TwinsAppend(Grid(init, ds), Row(n, ds));
    }
  }

  // ---------------------------------------------------------------------------
  // Counting

  /** Number of entries with metric `m`. */
  function CountMetric(s: seq<Params>, m: Metric): nat
  {
    if s == [] then 0 else CountMetric(s[..|s| - 1], m) + (if s[|s| - 1].metric == m then 1 else 0)
  }

  lemma {:induction false} CountMetricAppend(a: seq<Params>, b: seq<Params>, m: Metric)
    ensures CountMetric(a + b, m) == CountMetric(a, m) + CountMetric(b, m)
  {
    if b == [] {
      assert a + b == a;
    } else {
      var init := b[..|b| - 1];
      assert (a + b)[..|a + b| - 1] == a + init;
      assert (a + b)[|a + b| - 1] == b[|b| - 1];
      CountMetricAppend(a, init, m);
    }
  }

  lemma EntriesCosineCount(n: int, d: int)
    ensures CountMetric(Entries(n, d), Cosine) == 1
  {
    var c := Params(n, d, Cosine);
    assert [c][..0] == [];
    assert CountMetric([c], Cosine) == 1;
    if HasEuclideanTwin(n, d) {
      var e := [c, Params(n, d, Euclidean)];
      assert Entries(n, d) == e;
      assert e[..1] == [c];
    } else {
      assert Entries(n, d) == [c];
    }
  }

  lemma MultiplySuccessor(a: nat, b: nat)
    ensures (a + 1) * b == a * b + b
  {
  }

  /** Each row has one cosine entry per distance. */
  lemma {:induction false} RowCosineCount(n: int, ds: seq<int>)
    ensures CountMetric(Row(n, ds), Cosine) == |ds|
  {
    if ds != [] {
      var init := ds[..|ds| - 1];
      RowCosineCount(n, init);
      CountMetricAppend(Row(n, init), Entries(n, ds[|ds| - 1]), Cosine);
      EntriesCosineCount(n, ds[|ds| - 1]);
    }
  }

  /** A grid has one cosine entry per pair of a neighbour count and a distance. */
  lemma {:induction false} GridCosineCount(ns: seq<int>, ds: seq<int>)
    ensures CountMetric(Grid(ns, ds), Cosine) == |ns| * |ds|
  {
    if ns != [] {
      var init := ns[..|ns| - 1];
      GridCosineCount(init, ds);
      RowCosineCount(ns[|ns| - 1], ds);
      CountMetricAppend(Grid(init, ds), Row(ns[|ns| - 1], ds), Cosine);
      MultiplySuccessor(|init|, |ds|);
    }
  }

  lemma {:induction false} MetricsPartition(s: seq<Params>)
    ensures CountMetric(s, Cosine) + CountMetric(s, Euclidean) == |s|
  {
    if s != [] {
      MetricsPartition(s[..|s| - 1]);
    }
  }

  /** A row without a key pair holds the cosine entries of its distances, in order. */
  lemma {:induction false} PlainRow(n: int, ds: seq<int>)
    requires n !in EuclideanNeighbors
    ensures |Row(n, ds)| == |ds|
    ensures forall i :: 0 <= i < |ds| ==> Row(n, ds)[i] == Params(n, ds[i], Cosine)
  {
    if ds != [] {
      PlainRow(n, ds[..|ds| - 1]);
    }
  }

  /** Rows over the listed distances hold 10 entries for key neighbour counts and 8 otherwise. */
  lemma RowLength(n: int)
    ensures |Row(n, MinDistValues)| == if n in EuclideanNeighbors then 10 else 8
  {
    var ds := MinDistValues;
    for k := 0 to 8
      invariant |Row(n, ds[..k])| ==
                  k + (if n in EuclideanNeighbors then (if k >= 3 then 2 else if k >= 1 then 1 else 0) else 0)
    {
      assert ds[..k + 1][..k] == ds[..k];
    }
    assert ds[..8] == ds;
  }

  /**
   * The loops generate 70 combinations: 64 cosine and 6 euclidean ones.  The
   * first seven neighbour counts give 62 of them and `n_neighbors=100` the
   * last 8.
   */
  lemma GridShape()
    ensures |Grid(NeighborValues[..7], MinDistValues)| == 62
    ensures Grid(NeighborValues, MinDistValues) ==
              Grid(NeighborValues[..7], MinDistValues) + Row(100, MinDistValues)
    ensures |Grid(NeighborValues, MinDistValues)| == 70
    ensures CountMetric(Grid(NeighborValues, MinDistValues), Cosine) == 64
    ensures CountMetric(Grid(NeighborValues, MinDistValues), Euclidean) == 6
  {
    FirstRowsLength();
    LastRow();
    RowLength(100);
    GridCosineCount(NeighborValues, MinDistValues);
    MetricsPartition(Grid(NeighborValues, MinDistValues));
  }

  /** The first seven neighbour counts generate 62 combinations. */
  lemma FirstRowsLength()
    ensures |Grid(NeighborValues[..7], MinDistValues)| == 62
  {
    var ns := NeighborValues;
    var ds := MinDistValues;
    var total := [0, 10, 18, 26, 36, 44, 54, 62];
    for k := 0 to 7
      invariant |Grid(ns[..k], ds)| == total[k]
    {
      GridStep(ns, ds, k);
      RowLength(ns[k]);
    }
  }

  /** The last neighbour count, 100, contributes the last row. */
  lemma LastRow()
    ensures Grid(NeighborValues, MinDistValues) ==
              Grid(NeighborValues[..7], MinDistValues) + Row(100, MinDistValues)
  {
    var ns := NeighborValues;
    assert ns[..8] == ns;
    assert ns[..8][..7] == ns[..7];
  }

  /** The selected list is the first 62 combinations followed by two for `n_neighbors=100`. */
  lemma SelectedShape()
    ensures |Selected()| == 64
    ensures Selected() == Grid(NeighborValues[..7], MinDistValues)
                          + [Params(100, 1, Cosine), Params(100, 2, Cosine)]
  {
    GridShape();
    PlainRow(100, MinDistValues);
    var row := Row(100, MinDistValues);
    assert row[..2] == [Params(100, 1, Cosine), Params(100, 2, Cosine)];
    var full := Grid(NeighborValues, MinDistValues);
    assert full[..64] == Grid(NeighborValues[..7], MinDistValues) + row[..2];
  }

  // ---------------------------------------------------------------------------
  // Properties of the selected list

  /**
   * A combination is selected exactly when its neighbour count and distance are
   * listed and it is either a cosine entry other than `n_neighbors=100` with
   * `min_dist >= 0.3`, or a euclidean entry for `n_neighbors` in {15, 30, 50}
   * and `min_dist` in {0.1, 0.3}.  In particular `n_neighbors=5` never occurs.
   */
  lemma SelectedMembership(p: Params)
    ensures p in Selected() <==>
              p.nNeighbors in NeighborValues && p.minDistTenths in MinDistValues
              && (p.metric == Cosine ==> !(p.nNeighbors == 100 && p.minDistTenths >= 3))
              && (p.metric == Euclidean ==> p.nNeighbors in {15, 30, 50} && p.minDistTenths in {1, 3})
    ensures p in Selected() ==> p.nNeighbors != 5
  {
    SelectedShape();
    var first := NeighborValues[..7];
    assert first == [15, 20, 25, 30, 40, 50, 75];
    var tail := [Params(100, 1, Cosine), Params(100, 2, Cosine)];
    assert p in Selected() <==> p in Grid(first, MinDistValues) || p in tail;
    InGrid(first, MinDistValues, p);
  }

  /**
   * The selected list follows the loops' order (`n_neighbors` outer, `min_dist`
   * inner, both ascending), has no repeated entry, and puts every euclidean
   * entry right after its cosine twin.
   */
  lemma SelectedOrder()
    ensures Ordered(Selected())
    ensures TwinsAdjacent(Selected())
    ensures forall i, j :: 0 <= i < j < |Selected()| ==> Selected()[i] != Selected()[j]
  {
    var ns := NeighborValues;
    var ds := MinDistValues;
    assert StrictlyIncreasing(ns);
    assert StrictlyIncreasing(ds);
    GridOrdered(ns, ds);
    GridShape();
    var full := Grid(ns, ds);
    assert Selected() == full[..64];
  }

  /**
   * Cutting to 64 drops only the last six combinations, the cosine entries for
   * `n_neighbors=100` with `min_dist >= 0.3`; all six euclidean entries survive.
   */
  lemma TruncationDropsOnlyLargeNeighbourhoods()
    ensures |Grid(NeighborValues, MinDistValues)| == 70
    ensures Selected() == Grid(NeighborValues, MinDistValues)[..64]
    ensures forall i :: 64 <= i < |Grid(NeighborValues, MinDistValues)| ==>
              var p := Grid(NeighborValues, MinDistValues)[i];
              p.metric == Cosine && p.nNeighbors == 100 && p.minDistTenths >= 3
    ensures CountMetric(Selected(), Euclidean) == 6
    ensures CountMetric(Selected(), Cosine) == 58
  {
    GridIsCut(Grid(NeighborValues, MinDistValues));
    DroppedTail();
    SelectedMetricCounts();
  }

  /** Entries 64 to 69 of the grid are the cosine entries for `n_neighbors=100` and `min_dist >= 0.3`. */
  lemma DroppedTail()
    ensures |Grid(NeighborValues, MinDistValues)| == 70
    ensures forall i :: 64 <= i < 70 ==>
              Grid(NeighborValues, MinDistValues)[i] == Params(100, MinDistValues[i - 62], Cosine)
    ensures forall j :: 2 <= j < |MinDistValues| ==> MinDistValues[j] >= 3
  {
    GridShape();
    PlainRow(100, MinDistValues);
    var first := Grid(NeighborValues[..7], MinDistValues);
    var row := Row(100, MinDistValues);
    forall i | 64 <= i < 70
      ensures Grid(NeighborValues, MinDistValues)[i] == Params(100, MinDistValues[i - 62], Cosine)
    {
      assert (first + row)[i] == row[i - 62];
    }
  }

  /** The cut keeps all 6 euclidean entries and 58 of the 64 cosine ones. */
  lemma SelectedMetricCounts()
    ensures CountMetric(Selected(), Euclidean) == 6
    ensures CountMetric(Selected(), Cosine) == 58
  {
    GridShape();
    SelectedShape();
    PlainRow(100, MinDistValues);
    var first := Grid(NeighborValues[..7], MinDistValues);
    var row := Row(100, MinDistValues);
    var kept := [Params(100, 1, Cosine), Params(100, 2, Cosine)];
    CountMetricAppend(first, row, Euclidean);
    CountMetricAppend(first, row, Cosine);
    CountMetricAppend(first, kept, Euclidean);
    CountMetricAppend(first, kept, Cosine);
    RowCosineCount(100, MinDistValues);
    MetricsPartition(row);
    assert kept[..1] == [Params(100, 1, Cosine)];
  }
}
