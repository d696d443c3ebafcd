/**
 * The bookkeeping around community detection in src/modularity-detector.py:
 * the community-size histogram and community count that
 * `ModularityDetector.detect_communities` reports, the labelling of the result
 * by algorithm (with its k-means fallback), the default k-means cluster count,
 * and `add_community_colors`.  Leiden, the k-NN graph and k-means themselves
 * are library calls; their outcomes (a label per point and a modularity score,
 * or an exception) are inputs here.
 */
module Communities {
  import opened Outcomes
  import opened Labels

  /** A completed Leiden or k-means run: one label per point and its (pseudo-)modularity. */
  datatype Run = Run(labels: seq<int>, modularity: real)

  /** The dictionary `detect_communities` returns. */
  datatype Detection = Detection(
    communities: seq<int>,
    modularity: real,
    nCommunities: nat,
    communitySizes: map<int, nat>,
    algorithm: string,
    kNeighbors: Option<int>)

  // ---------------------------------------------------------------------------
  // Community sizes and the number of communities

  /** The fallback path's `{i: communities.count(i) for i in set(communities)}`. */
  function SizesByCount(communities: seq<int>): (sizes: map<int, nat>)
    ensures forall c :: c in communities <==> c in sizes
    ensures forall c :: c in sizes ==> 1 <= sizes[c] <= |communities|
  {
    map i | i in Distinct(communities) :: Count(communities, i)
  }

  /**
   * The success path's loop `community_sizes[comm] = community_sizes.get(comm, 0) + 1`:
   * it builds the same map as the fallback path's comprehension.
   */
  method CommunitySizes(communities: seq<int>) returns (sizes: map<int, nat>)
    ensures sizes == SizesByCount(communities)
  {
    sizes := map[];
    for i := 0 to |communities|
      invariant sizes == SizesByCount(communities[..i])
    {
      var comm := communities[i];
      assert communities[..i + 1] == communities[..i] + [comm];
      SizesStep(communities[..i], comm);
      sizes := sizes[comm := (if comm in sizes then sizes[comm] else 0) + 1];
    }
    assert communities[..|communities|] == communities;
  }

  /** Counting one more label adds one to its size, starting from 0 for a new label. */
  lemma SizesStep(before: seq<int>, comm: int)
    ensures SizesByCount(before + [comm]) ==
              SizesByCount(before)[comm := (if comm in SizesByCount(before) then SizesByCount(before)[comm] else 0) + 1]
  {
    var sizesBefore := SizesByCount(before);
    var sizesAfter := SizesByCount(before + [comm]);
    forall c | c in sizesAfter
      ensures sizesAfter[c] == sizesBefore[comm := (if comm in sizesBefore then sizesBefore[comm] else 0) + 1][c]
    {
      CountAppend(before, [comm], c);
      assert [comm][..0] == [];
    }
    assert sizesAfter.Keys == sizesBefore.Keys + {comm};
  }

  /** `len(set(communities))`. */
  function NumberOfCommunities(communities: seq<int>): nat
  {
    |Distinct(communities)|
  }

  lemma {:induction false} DistinctAtMostLength(s: seq<int>)
    ensures |Distinct(s)| <= |s|
  {
    if s != [] {
      var t := s[..|s| - 1];
      DistinctAtMostLength(t);
      assert Distinct(s) == Distinct(t) + {s[|s| - 1]};
    }
  }

  /**
   * The community count equals the number of keys of the size map and the
   * number of sorted distinct labels; it is between 1 and the number of
   * points when there are points, and 0 otherwise.
   */
  lemma NumberOfCommunitiesIsKeyCount(communities: seq<int>)
    ensures NumberOfCommunities(communities) == |SizesByCount(communities)|
    ensures NumberOfCommunities(communities) == |SortedDistinct(communities)|
    ensures communities == [] ==> NumberOfCommunities(communities) == 0
    ensures communities != [] ==> 1 <= NumberOfCommunities(communities) <= |communities|
  {
    assert SizesByCount(communities).Keys == Distinct(communities);
    SortedDistinctLength(communities);
    DistinctAtMostLength(communities);
    if communities != [] {
      assert communities[0] in Distinct(communities);
    }
  }

  /** The sum of `sizes[k]` over the keys `keys`, in order. */
  function SumOver(sizes: map<int, nat>, keys: seq<int>): nat
    requires forall k :: k in keys ==> k in sizes
  {
    if keys == [] then 0
    else
      var last := keys[|keys| - 1];
      assert last in keys;
      SumOver(sizes, keys[..|keys| - 1]) + sizes[last]
  }

  lemma {:induction false} SumOverSizes(communities: seq<int>, keys: seq<int>)
    requires forall k :: k in keys ==> k in communities
    ensures SumOver(SizesByCount(communities), keys) == SumCounts(communities, keys)
  {
    if keys != [] {
      SumOverSizes(communities, keys[..|keys| - 1]);
    }
  }

  /**
   * Every point is in exactly one community: the sizes, summed over the
   * distinct labels (each taken once, in ascending order), add up to the
   * number of points.
   */
  lemma SizesSumToLength(communities: seq<int>)
    ensures SumOver(SizesByCount(communities), SortedDistinct(communities)) == |communities|
  {
    var keys := SortedDistinct(communities);
    SumOverSizes(communities, keys);
    SumCountsCoversLength(communities, keys);
  }

  /** Each size is the multiplicity of its label among the points. */
  lemma SizesAreMultiplicities(communities: seq<int>, c: int)
    requires c in SizesByCount(communities)
    ensures SizesByCount(communities)[c] == multiset(communities)[c]
  {
    CountIsMultiplicity(communities, c);
  }

  // ---------------------------------------------------------------------------
  // Default number of k-means clusters

  /** The largest `root >= r` with `2 * root * root <= n`, searching upwards from `r`. */
  function FloorSqrtHalfFrom(n: nat, r: nat): (root: nat)
    requires 2 * r * r <= n
    ensures r <= root
    ensures 2 * root * root <= n < 2 * (root + 1) * (root + 1)
    decreases n - 2 * r * r
  {
    if 2 * (r + 1) * (r + 1) <= n then FloorSqrtHalfFrom(n, r + 1) else r
  }

  /** `int(np.sqrt(n / 2))` for a non-negative count `n`: the floor of the square root of n/2. */
  function FloorSqrtHalf(n: nat): (root: nat)
    ensures 2 * root * root <= n < 2 * (root + 1) * (root + 1)
  {
    FloorSqrtHalfFrom(n, 0)
  }

  lemma SquareMonotone(a: nat, b: nat)
    requires a <= b
    ensures a * a <= b * b
  {
    assert a * a <= a * b;
  }

  /**
   * `max(2, min(20, int(np.sqrt(len(embeddings) / 2))))`: always between 2 and
   * 20; 2 below 8 points, 20 from 800 points on, and otherwise the floor of
   * the square root of half the number of points.
   */
  function DefaultClusterCount(nPoints: nat): (k: nat)
    ensures 2 <= k <= 20
    ensures nPoints < 8 ==> k == 2
    ensures 800 <= nPoints ==> k == 20
    ensures 8 <= nPoints < 800 ==> 2 * k * k <= nPoints < 2 * (k + 1) * (k + 1)
  {
    var root := FloorSqrtHalf(nPoints);
    RootThresholds(nPoints, root);
    if root < 2 then 2 else if root > 20 then 20 else root
  }

  /** Where the floor of the square root of n/2 crosses the clamping bounds 2 and 20. */
  lemma RootThresholds(n: nat, root: nat)
    requires 2 * root * root <= n < 2 * (root + 1) * (root + 1)
    ensures root < 2 <==> n < 8
    ensures root < 20 <==> n < 800
  {
    if root < 2 { SquareMonotone(root + 1, 2); } else { SquareMonotone(2, root); }
    if root < 20 { SquareMonotone(root + 1, 20); } else { SquareMonotone(20, root); }
  }

  // ---------------------------------------------------------------------------
  // Detection and its fallback

  /** What the configured branch of the `try` block produced. */
  function PrimaryRun(algorithm: string, leiden: Outcome<Run>, kmeans: Outcome<Run>): (r: Outcome<Run>)
    ensures algorithm != "leiden" && algorithm != "kmeans" ==> r == Raised
  {
    if algorithm == "leiden" then leiden
    else if algorithm == "kmeans" then kmeans
    else Raised
  }

  /**
   * `detect_communities`: the configured algorithm's result, or, after any
   * exception, the k-means result labelled `'kmeans_fallback'`.  k-means is
   * seeded (`random_state=42`), so the fallback call has the same outcome as
   * a primary k-means call; if it raises, the exception propagates.
   */
  function Detect(algorithm: string, kNeighbors: int, leiden: Outcome<Run>, kmeans: Outcome<Run>): (r: Outcome<Detection>)
    ensures r.Raised? <==> PrimaryRun(algorithm, leiden, kmeans).Raised? && kmeans.Raised?
    ensures r.Returned? ==> r.value.algorithm == algorithm || r.value.algorithm == "kmeans_fallback"
    ensures r.Returned? && PrimaryRun(algorithm, leiden, kmeans).Returned? ==>
              r.value.algorithm == algorithm && r.value.communities == PrimaryRun(algorithm, leiden, kmeans).value.labels
    ensures r.Returned? && PrimaryRun(algorithm, leiden, kmeans).Raised? ==>
              r.value.algorithm == "kmeans_fallback" && r.value.communities == kmeans.value.labels
    ensures r.Returned? ==> (r.value.kNeighbors.Some? <==> r.value.algorithm == "leiden")
    ensures r.Returned? && r.value.kNeighbors.Some? ==> r.value.kNeighbors.value == kNeighbors
    ensures r.Returned? && PrimaryRun(algorithm, leiden, kmeans).Returned? ==>
              r.value.modularity == PrimaryRun(algorithm, leiden, kmeans).value.modularity
    ensures r.Returned? && PrimaryRun(algorithm, leiden, kmeans).Raised? ==>
              r.value.modularity == kmeans.value.modularity
    ensures r.Returned? ==> r.value.communitySizes == SizesByCount(r.value.communities)
    ensures r.Returned? ==> r.value.nCommunities == |r.value.communitySizes|
    ensures r.Returned? ==> forall c :: c in r.value.communities <==> c in r.value.communitySizes
  {
    match PrimaryRun(algorithm, leiden, kmeans)
    case Returned(run) =>
      NumberOfCommunitiesIsKeyCount(run.labels);
      Returned(Detection(run.labels, run.modularity, NumberOfCommunities(run.labels),
                         SizesByCount(run.labels), algorithm,
                         if algorithm == "leiden" then Some(kNeighbors) else None))
    case Raised =>
      match kmeans
      case Returned(run) =>
        NumberOfCommunitiesIsKeyCount(run.labels);
        Returned(Detection(run.labels, run.modularity, NumberOfCommunities(run.labels),
                           SizesByCount(run.labels), "kmeans_fallback", None))
      case Raised => Raised
  }

  /** An unknown algorithm name always ends in the fallback. */
  lemma UnknownAlgorithmFallsBack(algorithm: string, kNeighbors: int, leiden: Outcome<Run>, kmeans: Outcome<Run>)
    requires algorithm != "leiden" && algorithm != "kmeans"
    ensures Detect(algorithm, kNeighbors, leiden, kmeans).Returned? <==> kmeans.Returned?
    ensures kmeans.Returned? ==> Detect(algorithm, kNeighbors, leiden, kmeans).value.algorithm == "kmeans_fallback"
  {
  }

  /** The detector object: its configuration and the fields `detect_communities` sets. */
  class ModularityDetector {
    const kNeighbors: int
    const algorithm: string
    var communities: Option<seq<int>>
    var modularityScore: Option<real>
    var nCommunities: Option<nat>

    constructor (kNeighbors: int := 20, algorithm: string := "leiden")
      ensures this.kNeighbors == kNeighbors && this.algorithm == algorithm
      ensures communities == None && modularityScore == None && nCommunities == None
    {
      this.kNeighbors := kNeighbors;
      this.algorithm := algorithm;
      communities := None;
      modularityScore := None;
      nCommunities := None;
    }

    /**
     * `detect_communities`: returns what `Detect` specifies and records the
     * labels, modularity and community count of the returned result; when
     * the fallback raises too, nothing was recorded.
     */
    method DetectCommunities(leiden: Outcome<Run>, kmeans: Outcome<Run>) returns (r: Outcome<Detection>)
      modifies this
      ensures r == Detect(algorithm, kNeighbors, leiden, kmeans)
      ensures r.Returned? ==>
                (communities == Some(r.value.communities)
                 && modularityScore == Some(r.value.modularity)
                 && nCommunities == Some(r.value.nCommunities))
      ensures r.Raised? ==>
                (communities == old(communities)
                 && modularityScore == old(modularityScore)
                 && nCommunities == old(nCommunities))
    {
      var primary := PrimaryRun(algorithm, leiden, kmeans);
      if primary.Returned? {
        var run := primary.value;
        communities := Some(run.labels);
        modularityScore := Some(run.modularity);
        nCommunities := Some(NumberOfCommunities(run.labels));
        var sizes := CommunitySizes(run.labels);
        r := Returned(Detection(run.labels, run.modularity, NumberOfCommunities(run.labels), sizes,
                                algorithm, if algorithm == "leiden" then Some(kNeighbors) else None));
      } else if kmeans.Returned? {
        var run := kmeans.value;
        communities := Some(run.labels);
        modularityScore := Some(run.modularity);
        nCommunities := Some(NumberOfCommunities(run.labels));
        r := Returned(Detection(run.labels, run.modularity, NumberOfCommunities(run.labels),
                                SizesByCount(run.labels), "kmeans_fallback", None));
      } else {
        r := Raised;
      }
    }
  }

  // ---------------------------------------------------------------------------
  // Community colours

  /** `max(1, k - 1)` as the divisor of the colour spread. */
  function Divisor(k: nat): (d: real)
    ensures d >= 1.0
  {
    if k >= 2 then (k - 1) as real else 1.0
  }

  /**
   * The colour `add_community_colors` gives label `c`: its rank among the
   * sorted distinct labels, i.e. the number of distinct labels below it,
   * over `max(1, k - 1)` for `k` distinct labels.
   */
  function ColorOf(communities: seq<int>, c: int): real
  {
    |Below(communities, c)| as real / Divisor(|Distinct(communities)|)
  }

  /**
   * The first loop of `add_community_colors`: enumerating `sorted(set(communities))`
   * gives each label its rank spread over `[0, 1]`.
   */
  method CommunityColorMap(communities: seq<int>) returns (colors: map<int, real>)
    ensures forall c :: c in colors <==> c in communities
    ensures forall c :: c in colors ==> colors[c] == ColorOf(communities, c)
  {
    var unique := SortedDistinct(communities);
    SortedDistinctLength(communities);
    var divisor := Divisor(|unique|);
    colors := map[];
    for i := 0 to |unique|
      invariant forall c :: c in colors <==> c in unique[..i]
      invariant forall j :: 0 <= j < i ==> colors[unique[j]] == j as real / divisor
    {
      colors := colors[unique[i] := i as real / divisor];
    }
    forall c | c in colors ensures colors[c] == ColorOf(communities, c) {
      var j :| 0 <= j < |unique| && unique[j] == c;
      RankIsNumberBelow(communities, j);
    }
  }

  lemma BelowExcludesSelf(communities: seq<int>, c: int)
    requires c in communities
    ensures |Below(communities, c)| <= |Distinct(communities)| - 1
  {
    assert c in Distinct(communities);
    assert Below(communities, c) <= Distinct(communities) - {c};
    SubsetCardinality(Below(communities, c), Distinct(communities) - {c});
    assert |Distinct(communities) - {c}| == |Distinct(communities)| - 1;
  }

  /** Colours lie in [0, 1]; with a single community every colour is 0. */
  lemma ColorRange(communities: seq<int>, c: int)
    requires c in communities
    ensures 0.0 <= ColorOf(communities, c) <= 1.0
    ensures |Distinct(communities)| == 1 ==> ColorOf(communities, c) == 0.0
  {
    BelowExcludesSelf(communities, c);
    var k := |Distinct(communities)|;
    var rank := |Below(communities, c)|;
    assert rank as real <= Divisor(k);
    DivideAtMostDivisor(rank as real, Divisor(k));
  }

  /** The smallest label gets colour 0. */
  lemma ColorOfSmallest(communities: seq<int>, c: int)
    requires c in communities
    requires forall y :: y in communities ==> c <= y
    ensures ColorOf(communities, c) == 0.0
  {
    assert Below(communities, c) == {};
  }

  /** The largest label gets colour 1 when there are at least two communities. */
  lemma ColorOfLargest(communities: seq<int>, c: int)
    requires c in communities
    requires forall y :: y in communities ==> y <= c
    requires |Distinct(communities)| >= 2
    ensures ColorOf(communities, c) == 1.0
  {
    var k := |Distinct(communities)|;
    assert c in Distinct(communities);
    assert Below(communities, c) == Distinct(communities) - {c};
    assert |Below(communities, c)| == k - 1;
    assert Divisor(k) == (k - 1) as real;
    DivideBySelf((k - 1) as real);
  }

  lemma DivideBySelf(d: real)
    requires d >= 1.0
    ensures d / d == 1.0
  {
  }

  /** A larger label always gets a larger colour: distinct communities get distinct colours. */
  lemma ColorIncreasing(communities: seq<int>, c: int, d: int)
    requires c in communities && d in communities && c < d
    ensures ColorOf(communities, c) < ColorOf(communities, d)
  {
    assert Below(communities, c) < Below(communities, d) by {
      assert c in Below(communities, d) - Below(communities, c);
    }
    SubsetCardinality(Below(communities, c), Below(communities, d));
    DivideByPositive(|Below(communities, c)| as real, |Below(communities, d)| as real,
                     Divisor(|Distinct(communities)|));
  }

  lemma DivideAtMostDivisor(a: real, d: real)
    requires 0.0 <= a <= d && d >= 1.0
    ensures 0.0 <= a / d <= 1.0
  {
  }

  lemma DivideByPositive(a: real, b: real, d: real)
    requires a < b && d > 0.0
    ensures a / d < b / d
  {
  }

  /** A JSON value, as found in a metadata record. */
  datatype Json =
    | JNull
    | JBool(b: bool)
    | JInt(i: int)
    | JReal(r: real)
    | JStr(s: string)
    | JList(items: seq<Json>)
    | JObject(fields: map<string, Json>)

  /** A metadata record: a JSON object. */
  type Record = map<string, Json>

  const AddedKeys: set<string> := {"community", "communityColor", "communitySize"}

  /**
   * `out` is `meta` with the community label `c`, its colour and its size
   * added, and every other key of `meta` kept with its value.
   */
  predicate Annotates(out: Record, meta: Record, communities: seq<int>, c: int)
  {
    && out.Keys == meta.Keys + AddedKeys
    && out["community"] == JInt(c)
    && out["communityColor"] == JReal(ColorOf(communities, c))
    && out["communitySize"] == JInt(Count(communities, c))
    && (forall key :: key in meta && key !in AddedKeys ==> out[key] == meta[key])
  }

  /** The three updates of one record in `add_community_colors` produce an annotated record. */
  lemma AnnotatesUpdates(meta: Record, communities: seq<int>, c: int, color: real)
    requires color == ColorOf(communities, c)
    ensures Annotates(meta["community" := JInt(c)]["communityColor" := JReal(color)]
                        ["communitySize" := JInt(Count(communities, c))], meta, communities, c)
  {
  }

  /**
   * `add_community_colors(metadata, communities, n_communities)`: one record per
   * metadata record, in order, each a copy of its input with the community,
   * its colour and its size added.  `communities[i]` is read for every
   * record, so fewer labels than records raises `IndexError`.  The
   * `n_communities` argument is not used.
   */
  method AddCommunityColors(metadata: seq<Record>, communities: seq<int>, nCommunities: int)
    returns (r: Outcome<seq<Record>>)
    ensures r.Raised? <==> |communities| < |metadata|
    ensures r.Returned? ==> |r.value| == |metadata|
    ensures r.Returned? ==> forall i :: 0 <= i < |metadata| ==>
              Annotates(r.value[i], metadata[i], communities, communities[i])
  {
    var communityToColor := CommunityColorMap(communities);
    var enhanced: seq<Record> := [];
    for i := 0 to |metadata|
      invariant i <= |communities|
      invariant |enhanced| == i
      invariant forall j :: 0 <= j < i ==> Annotates(enhanced[j], metadata[j], communities, communities[j])
    {
      if i >= |communities| {
        return Raised;
      }
      var meta := metadata[i];
      meta := meta["community" := JInt(communities[i])];
      meta := meta["communityColor" := JReal(communityToColor[communities[i]])];
      meta := meta["communitySize" := JInt(Count(communities, communities[i]))];
      AnnotatesUpdates(metadata[i], communities, communities[i], communityToColor[communities[i]]);
      enhanced := enhanced + [meta];
    }
    r := Returned(enhanced);
  }
}
