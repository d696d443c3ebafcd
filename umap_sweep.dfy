/**
 * The body of `main` in src/generate-64-umap-combinations.py: for every
 * selected parameter combination whose UMAP run succeeds, one data point per
 * metadata row with features derived from the chunk text and folder, and the
 * community colour of the row's k-means label.  Loading from the database,
 * UMAP and k-means are outside the model: the rows, the labels and what UMAP
 * returns for each combination are inputs.
 */
module UmapSweep {
  import opened Outcomes
  import opened Labels
  import opened Text
  import opened UmapGrid

  /** A row of the database query: the chunk text, the note's path, its word count and its folder. */
  datatype NoteRow = NoteRow(chunkText: string, filePath: string, wordCount: int, folder: string)

  /** A 2-D coordinate produced by UMAP. */
  datatype Point = Point(x: real, y: real)

  /** The modelled fields of one entry of a result's `data` list. */
  datatype DataPoint = DataPoint(
    x: real,
    y: real,
    chunkText: string,
    filePath: string,
    wordCount: int,
    folder: string,
    folderDepth: nat,
    hasCode: int,
    hasLinks: int,
    hasTags: int,
    community: int,
    communityColor: real)

  /** One entry of `results`: the combination, its data points and their summary counts. */
  datatype ResultEntry = ResultEntry(parameters: Params, data: seq<DataPoint>, dataPoints: nat, communities: nat)

  /** The written output, without its timestamp. */
  datatype SweepOutput = SweepOutput(totalSamples: nat, parameterCombinations: nat, results: seq<ResultEntry>)

  /** The number of k-means clusters `detect_communities` is called with. */
  const DefaultClusters: int := 10

  // ---------------------------------------------------------------------------
  // Per-point features

  const CodeWords: seq<string> := ["def ", "function", "class ", "import"]

  /** `hasCode`: 1 when the lower-cased chunk text contains one of the code words. */
  function HasCode(text: string): (flag: int)
    ensures flag == 0 || flag == 1
    ensures flag == 1 <==> SomeWordOccurs(Lower(text), CodeWords)
  {
    var lowered := Lower(text);
    ContainsAny(lowered, CodeWords);
    if AnyContained(lowered, CodeWords) then 1 else 0
  }

  /** One of `words` occurs somewhere in `s`. */
  ghost predicate SomeWordOccurs(s: string, words: seq<string>)
  {
    exists w, i :: w in words && OccursAt(s, w, i)
  }

  /** Python's `any(w in s for w in words)`. */
  predicate AnyContained(s: string, words: seq<string>)
  {
    exists w :: w in words && Contains(s, w)
  }

  /** `any(w in s for w in words)` holds exactly when some word occurs somewhere in `s`. */
  lemma ContainsAny(s: string, words: seq<string>)
    ensures AnyContained(s, words) <==> SomeWordOccurs(s, words)
  {
    if AnyContained(s, words) {
      var w :| w in words && Contains(s, w);
      var i :| OccursAt(s, w, i);
    }
    if exists w, i :: w in words && OccursAt(s, w, i) {
      var w, i :| w in words && OccursAt(s, w, i);
      assert Contains(s, w);
    }
  }

  /** Lower-casing keeps every occurrence of a word without upper-case letters. */
  lemma LowerKeepsLowerCaseWord(s: string, w: string, i: int)
    requires OccursAt(s, w, i)
    requires forall k :: 0 <= k < |w| ==> !('A' <= w[k] <= 'Z')
    ensures OccursAt(Lower(s), w, i)
  {
    forall k | 0 <= k < |w| ensures Lower(s)[i + k] == w[k] {
      assert s[i + k] == s[i..i + |w|][k];
    }
    assert Lower(s)[i..i + |w|] == w;
  }

  /** A code word in the chunk text, as written in the list, is always detected. */
  lemma CodeWordDetected(text: string, w: string, i: int)
    requires w in CodeWords
    requires OccursAt(text, w, i)
    ensures HasCode(text) == 1
  {
    LowerKeepsLowerCaseWord(text, w, i);
  }

  /** `hasCode` ignores letter case: capitalising the chunk text does not change it. */
  lemma HasCodeIgnoresCase(text: string)
    ensures HasCode(Upper(text)) == HasCode(text)
  {
    LowerOfUpper(text);
  }

  /** `hasLinks`: 1 when the chunk text contains `[[` or `http`. */
  function HasLinks(text: string): (flag: int)
    ensures flag == 0 || flag == 1
    ensures flag == 1 <==> (exists i :: OccursAt(text, "[[", i)) || (exists i :: OccursAt(text, "http", i))
  {
    if Contains(text, "[[") || Contains(text, "http") then 1 else 0
  }

  /** `hasTags`: 1 when the chunk text contains a `#` character. */
  function HasTags(text: string): (flag: int)
    ensures flag == 0 || flag == 1
    ensures flag == 1 <==> '#' in text
  {
    ContainsChar(text, '#');
    if Contains(text, "#") then 1 else 0
  }

  /** `folderDepth`: the number of `/`-separated segments, one more than the number of `/`. */
  function FolderDepth(folder: string): (depth: nat)
    ensures depth == CountChar(folder, '/') + 1
    ensures folder == "" ==> depth == 1
  {
    |Split(folder, '/')|
  }

  /**
   * `community_labels / (n_clusters - 1)` for one community.  Only called with
   * `n_clusters = 10`; at least two clusters keep the divisor non-zero.
   */
  function CommunityColor(community: int, nClusters: int): (color: real)
    requires nClusters >= 2
    ensures color * (nClusters - 1) as real == community as real
    ensures 0 <= community <= nClusters - 1 ==> 0.0 <= color <= 1.0
    ensures community == 0 ==> color == 0.0
    ensures community == nClusters - 1 ==> color == 1.0
  {
    community as real / (nClusters - 1) as real
  }

  /** The data point for one UMAP coordinate, its metadata row and its community label. */
  function MakeDataPoint(point: Point, meta: NoteRow, community: int, nClusters: int): DataPoint
    requires nClusters >= 2
  {
    DataPoint(point.x, point.y, meta.chunkText, meta.filePath, meta.wordCount, meta.folder,
              FolderDepth(meta.folder), HasCode(meta.chunkText), HasLinks(meta.chunkText),
              HasTags(meta.chunkText), community, CommunityColor(community, nClusters))
  }

  // ---------------------------------------------------------------------------
  // The results loop

  function Min(a: nat, b: nat): nat
  {
    if a <= b then a else b
  }

  /** The combinations whose UMAP run returns coordinates, in their original order. */
  function Kept(combinations: seq<Params>, umap: Params -> Option<seq<Point>>): (kept: seq<Params>)
    ensures |kept| <= |combinations|
    ensures forall p :: p in kept <==> p in combinations && umap(p).Some?
  {
    if combinations == [] then []
    else
      var last := combinations[|combinations| - 1];
      Kept(combinations[..|combinations| - 1], umap) + (if umap(last).Some? then [last] else [])
  }

  /** Skipping failed runs keeps the combinations in the loops' order. */
  lemma {:induction false} KeptOrdered(combinations: seq<Params>, umap: Params -> Option<seq<Point>>)
    requires Ordered(combinations)
    ensures Ordered(Kept(combinations, umap))
  {
    if combinations != [] {
      var init := combinations[..|combinations| - 1];
      var last := combinations[|combinations| - 1];
      KeptOrdered(init, umap);
      var tail := if umap(last).Some? then [last] else [];
      forall x, y | x in Kept(init, umap) && y in tail ensures Before(x, y) {
        var i :| 0 <= i < |init| && init[i] == x;
      }
      OrderedAppend(Kept(init, umap), tail);
    }
  }

  /** Trying one more combination keeps it exactly when its run succeeds. */
  lemma KeptStep(combinations: seq<Params>, umap: Params -> Option<seq<Point>>, i: nat)
    requires i < |combinations|
    ensures Kept(combinations[..i + 1], umap) ==
              Kept(combinations[..i], umap) + (if umap(combinations[i]).Some? then [combinations[i]] else [])
  {
    assert combinations[..i + 1][..i] == combinations[..i];
  }

  /**
   * The inner loop of `main`: `zip(embedding_2d, metadata)` stops at the
   * shorter list; point `j` takes row `j` and label `j`.
   */
  method BuildDataPoints(coords: seq<Point>, metadata: seq<NoteRow>, labels: seq<int>, nClusters: int)
    returns (data: seq<DataPoint>)
    requires nClusters >= 2
    requires |labels| == |metadata|
    ensures |data| == Min(|coords|, |metadata|)
    ensures forall j :: 0 <= j < |data| ==> data[j] == MakeDataPoint(coords[j], metadata[j], labels[j], nClusters)
  {
    data := [];
    var count := Min(|coords|, |metadata|);
    for j := 0 to count
      invariant |data| == j
      invariant forall k :: 0 <= k < j ==> data[k] == MakeDataPoint(coords[k], metadata[k], labels[k], nClusters)
    {
      data := data + [MakeDataPoint(coords[j], metadata[j], labels[j], nClusters)];
    }
  }

  /** `results[k]` is the entry `main` builds for the combination `p` and its coordinates. */
  predicate IsEntryFor(entry: ResultEntry, p: Params, umap: Params -> Option<seq<Point>>,
                       metadata: seq<NoteRow>, labels: seq<int>, nClusters: int)
    requires nClusters >= 2
    requires |labels| == |metadata|
  {
    && umap(p).Some?
    && entry.parameters == p
    && |entry.data| == Min(|umap(p).value|, |metadata|)
    && (forall j :: 0 <= j < |entry.data| ==>
          entry.data[j] == MakeDataPoint(umap(p).value[j], metadata[j], labels[j], nClusters))
    && entry.dataPoints == |entry.data|
    && entry.communities == |Distinct(labels)|
  }

  /**
   * The outer loop of `main`: a combination whose UMAP run returns `None` is
   * skipped; every other one adds one result, in order.
   */
  method GenerateResults(combinations: seq<Params>, metadata: seq<NoteRow>, labels: seq<int>,
                         nClusters: int, umap: Params -> Option<seq<Point>>)
    returns (results: seq<ResultEntry>)
    requires nClusters >= 2
    requires |labels| == |metadata|
    ensures |results| == |Kept(combinations, umap)| <= |combinations|
    ensures forall k :: 0 <= k < |results| ==>
              IsEntryFor(results[k], Kept(combinations, umap)[k], umap, metadata, labels, nClusters)
  {
    results := [];
    for i := 0 to |combinations|
      invariant |results| == |Kept(combinations[..i], umap)|
      invariant forall k :: 0 <= k < |results| ==>
                  IsEntryFor(results[k], Kept(combinations[..i], umap)[k], umap, metadata, labels, nClusters)
    {
      var params := combinations[i];
      KeptStep(combinations, umap, i);
      var embedding2d := umap(params);
      if embedding2d.None? {
        continue;
      }
      var data := BuildDataPoints(embedding2d.value, metadata, labels, nClusters);
      var entry := ResultEntry(params, data, |data|, |Distinct(labels)|);
      assert IsEntryFor(entry, params, umap, metadata, labels, nClusters);
      results := results + [entry];
    }
    assert combinations[..|combinations|] == combinations;
  }

  /**
   * `main` without its input and output: select the 64 combinations, run the
   * results loop with the labels of 10 k-means clusters, and report the counts.
   */
  method RunSweep(metadata: seq<NoteRow>, labels: seq<int>, umap: Params -> Option<seq<Point>>)
    returns (output: SweepOutput)
    requires |labels| == |metadata|
    ensures output.totalSamples == |metadata|
    ensures output.parameterCombinations == |output.results| <= 64
    ensures |output.results| == |Kept(Selected(), umap)|
    ensures forall k :: 0 <= k < |output.results| ==>
              IsEntryFor(output.results[k], Kept(Selected(), umap)[k], umap, metadata, labels, DefaultClusters)
    ensures forall k :: 0 <= k < |output.results| ==>
              output.results[k].parameters in Selected()
              && IsEntryFor(output.results[k], output.results[k].parameters, umap, metadata, labels, DefaultClusters)
    ensures forall p :: p in Selected() && umap(p).Some? ==>
              exists k :: 0 <= k < |output.results| && output.results[k].parameters == p
  {
    var combinations := Select64ParameterCombinations();
    var results := GenerateResults(combinations, metadata, labels, DefaultClusters, umap);
    var kept := Kept(combinations, umap);
    forall p | p in combinations && umap(p).Some?
      ensures exists k :: 0 <= k < |results| && results[k].parameters == p
    {
      var k :| 0 <= k < |kept| && kept[k] == p;
      assert IsEntryFor(results[k], kept[k], umap, metadata, labels, DefaultClusters);
    }
    forall k | 0 <= k < |results| ensures results[k].parameters in combinations {
      assert IsEntryFor(results[k], kept[k], umap, metadata, labels, DefaultClusters);
      assert kept[k] in kept;
    }
    output := SweepOutput(|metadata|, |results|, results);
  }

  /** A data point's colour lies in [0, 1] when its label is one of the clusters. */
  lemma DataPointColorInRange(point: Point, meta: NoteRow, community: int, nClusters: int)
    requires nClusters >= 2
    requires 0 <= community < nClusters
    ensures 0.0 <= MakeDataPoint(point, meta, community, nClusters).communityColor <= 1.0
    ensures MakeDataPoint(point, meta, community, nClusters).folderDepth >= 1
  {
  }
}
