# Community bookkeeping and the UMAP parameter sweep, in Dafny

This project models the deterministic logic of two analysis scripts of the
obsidian-analysis repository. Around it sit library calls (Leiden, k-means,
UMAP), which are not modelled.

- `src/modularity-detector.py`: `ModularityDetector.detect_communities` and
  `add_community_colors`. Given the community labels Leiden or k-means
  assigned to the embedding vectors, they do four things:
  - count the distinct communities;
  - build the community-size histogram, by a loop on the success path and by
    a comprehension on the fallback path;
  - label the result with the algorithm that produced it; after any
    exception the result comes from k-means and is labelled
    `kmeans_fallback`;
  - annotate every metadata record with its community, a colour spread over
    [0, 1] by the label's rank, and the community's size.

  The rule that picks the default number of k-means clusters is modelled too.
- `src/generate-64-umap-combinations.py`: `select_64_parameter_combinations`
  builds the grid of UMAP parameter combinations and cuts it to 64. The main
  loop runs UMAP for every combination and skips those whose run fails. For
  each remaining combination it builds one data point per pair of the `zip`
  over coordinates and metadata rows, so as many as the shorter of the two. The
  point's features come from the chunk text (`hasCode`, `hasLinks`,
  `hasTags`), from the folder (`folderDepth`) and from the k-means label
  (`community`, `communityColor`).

Files:

- `outcomes.dfy` (module `Outcomes`): `Option`, and `Outcome` (a call
  returned a value or raised).
- `labels.dfy` (module `Labels`): the label-list operations the scripts use.
  These are `list.count`, `set(...)` and `sorted(set(...))`, with the rank of
  a label and the sum of counts.
- `modularity_detector.dfy` (module `Communities`): the detector class, the
  size map, the community count, the cluster-count rule, the detection
  result and the colours.
- `text.dfy` (module `Text`): substring test, `lower()` and `upper()` for the
  letters A to Z and a to z only, and
  `split('/')` with its inverse `join`.
- `umap_grid.dfy` (module `UmapGrid`): the parameter grid. `min_dist` is an
  integer number of tenths, so 0.1 is 1.
- `umap_sweep.dfy` (module `UmapSweep`): the per-point features and the
  results loop.

The labels produced by Leiden or k-means are inputs, and so is each
algorithm's modularity score. What UMAP returns for a combination is a
function argument from parameters to `Option<seq<Point>>`, where `None` is a
failed run. k-means is seeded (`random_state=42`), so one k-means outcome
serves both the configured `'kmeans'` branch and the fallback.

## Model

| member | source | states |
|---|---|---|
| Labels.Count | src/modularity-detector.py:183 | `communities.count(x)` is at most the list length and is zero exactly when `x` is absent |
| Labels.CountIsMultiplicity | src/modularity-detector.py:183 | the count of a label equals its multiplicity in the multiset of the list |
| Labels.SortedDistinct | src/modularity-detector.py:171 | `sorted(set(communities))` is strictly ascending and holds exactly the labels of the list |
| Labels.RankIsNumberBelow | src/modularity-detector.py:173-175 | the index of a label in `sorted(set(communities))` equals the number of distinct labels smaller than it |
| Labels.SumCountsCoversLength | src/modularity-detector.py:119-121 | summing the counts over a strictly ascending list (such as `sorted(set(...))`) that covers all labels gives the list length |
| Communities.SizesByCount | src/modularity-detector.py:144 | the fallback size map has a key for exactly the labels present, and every size is between 1 and the number of points |
| Communities.CommunitySizes | src/modularity-detector.py:119-121 | the loop `community_sizes[comm] = community_sizes.get(comm, 0) + 1` builds the same map as the fallback comprehension |
| Communities.NumberOfCommunitiesIsKeyCount | src/modularity-detector.py:116 | `n_communities`, computed by `NumberOfCommunities` as `len(set(communities))` (also at line 138), equals the number of size-map keys and of sorted distinct labels; it is 0 for no points and between 1 and the number of points otherwise |
| Communities.SizesSumToLength | src/modularity-detector.py:119-121 | the community sizes, summed over the distinct labels, add up to `len(communities)` |
| Communities.SizesAreMultiplicities | src/modularity-detector.py:144 | each community size is the multiplicity of its label among the points |
| Communities.FloorSqrtHalf | src/modularity-detector.py:88 | `int(np.sqrt(n / 2))` is the unique `r` with `2r² <= n < 2(r+1)²` |
| Communities.DefaultClusterCount | src/modularity-detector.py:86-88 | the default cluster count is always in [2, 20]: 2 below 8 points, 20 from 800 points, otherwise floor(sqrt(n/2)) |
| Communities.PrimaryRun | src/modularity-detector.py:106-112 | an algorithm name other than `'leiden'` or `'kmeans'` raises |
| Communities.Detect | src/modularity-detector.py:103-147 | the result's `algorithm` is the configured one when its branch returns and `'kmeans_fallback'` after an exception; the call raises only when the fallback raises too; `k_neighbors` is set exactly for `'leiden'` results; on both paths the modularity is the producing run's, the size map is the label counts of `SizesByCount` (so its sizes sum to the number of points, by `SizesSumToLength`), `n_communities` is the number of size-map keys, and those keys are the labels |
| Communities.UnknownAlgorithmFallsBack | src/modularity-detector.py:111-112 | an unknown algorithm name always ends in the k-means fallback |
| Communities.ModularityDetector.constructor | src/modularity-detector.py:28-33 | keeps `k_neighbors` and `algorithm` (defaults 20 and `'leiden'`) and starts with no communities, score or count |
| Communities.ModularityDetector.DetectCommunities | src/modularity-detector.py:103-147 | returns the result `Detect` specifies and records its labels, modularity and community count; a raised fallback leaves the fields as they were |
| Communities.CommunityColorMap | src/modularity-detector.py:170-175 | the colour map has exactly the labels as keys and maps each to (number of smaller distinct labels) / max(1, k-1) |
| Communities.ColorRange | src/modularity-detector.py:173-175 | colours lie in [0, 1], and a single community gets 0 |
| Communities.ColorOfSmallest | src/modularity-detector.py:171-175 | the smallest label gets colour 0 |
| Communities.ColorOfLargest | src/modularity-detector.py:171-175 | the largest label gets colour 1 when there are at least two communities |
| Communities.ColorIncreasing | src/modularity-detector.py:173-175 | a larger label gets a strictly larger colour, so distinct communities get distinct colours |
| Communities.AddCommunityColors | src/modularity-detector.py:167-186 | raises exactly when there are fewer labels than records; otherwise returns one record per input record, in order. Each output record has the input's keys plus `community`, `communityColor` and `communitySize`: its own label, that label's colour, and the label's number of occurrences. Every other key keeps its value |
| Text.Contains | src/generate-64-umap-combinations.py:185 | Python's substring test holds exactly when the pattern occurs at some index |
| Text.ContainsChar | src/generate-64-umap-combinations.py:186 | testing a one-character substring is testing membership of that character |
| Text.Lower | src/generate-64-umap-combinations.py:184 | `lower()` keeps the length, lowers each letter A-Z and leaves no upper-case letter |
| Text.LowerOfUpper | src/generate-64-umap-combinations.py:184 | with ASCII upper-casing (a to z only), lower-casing an upper-cased text gives the lower-cased original |
| Text.Split | src/generate-64-umap-combinations.py:182 | `split('/')` yields one more piece than there are separators, and no piece contains the separator |
| Text.JoinSplit | src/generate-64-umap-combinations.py:182 | joining the pieces of `split('/')` with `/` gives back the folder string |
| Text.SplitJoin | src/generate-64-umap-combinations.py:182 | splitting a join of separator-free pieces gives back the pieces |
| UmapGrid.Select64ParameterCombinations | src/generate-64-umap-combinations.py:57-92 | the nested loops and the cut return the first 64 entries of the generated grid, which number exactly 64 |
| UmapGrid.InGrid | src/generate-64-umap-combinations.py:72-86 | a combination is generated exactly when its `n_neighbors` and `min_dist` are listed and it is cosine, or euclidean for a key pair |
| UmapGrid.GridOrdered | src/generate-64-umap-combinations.py:72-86 | for ascending value lists the generated grid runs `n_neighbors` outer and `min_dist` inner, and each euclidean entry immediately follows its cosine twin |
| UmapGrid.GridCosineCount | src/generate-64-umap-combinations.py:72-78 | the loops generate one cosine entry per (`n_neighbors`, `min_dist`) pair |
| UmapGrid.RowLength | src/generate-64-umap-combinations.py:73-86 | one outer iteration appends 10 entries for `n_neighbors` in the euclidean list and 8 otherwise |
| UmapGrid.GridShape | src/generate-64-umap-combinations.py:65-87 | 70 combinations are generated before the cut, 64 cosine and 6 euclidean; `n_neighbors=100` contributes the last 8 |
| UmapGrid.SelectedShape | src/generate-64-umap-combinations.py:88-89 | the returned list is the first 62 generated entries followed by the cosine entries for `n_neighbors=100`, `min_dist` 0.1 and 0.2 |
| UmapGrid.SelectedMembership | src/generate-64-umap-combinations.py:65-89 | a combination is returned exactly when it has listed values and is either cosine but not (`n_neighbors=100`, `min_dist>=0.3`), or euclidean with `n_neighbors` in {15,30,50} and `min_dist` in {0.1,0.3}; `n_neighbors=5` never occurs |
| UmapGrid.SelectedOrder | src/generate-64-umap-combinations.py:72-89 | the returned list follows the loop order, repeats no entry, and puts each euclidean entry right after its cosine twin |
| UmapGrid.TruncationDropsOnlyLargeNeighbourhoods | src/generate-64-umap-combinations.py:88-89 | the cut drops only the cosine entries for `n_neighbors=100` with `min_dist>=0.3`; all 6 euclidean entries survive, next to 58 cosine ones |
| UmapSweep.HasCode | src/generate-64-umap-combinations.py:184 | `hasCode` is 0 or 1, and 1 exactly when a code word occurs in the lower-cased chunk text |
| UmapSweep.ContainsAny | src/generate-64-umap-combinations.py:184 | `any(word in text for word in words)` holds exactly when some word occurs at some index |
| UmapSweep.CodeWordDetected | src/generate-64-umap-combinations.py:184 | a code word in the chunk text, as listed, always gives `hasCode` 1 |
| UmapSweep.HasCodeIgnoresCase | src/generate-64-umap-combinations.py:184 | ASCII upper-casing of the chunk text (a to z only) does not change `hasCode` |
| UmapSweep.HasLinks | src/generate-64-umap-combinations.py:185 | `hasLinks` is 0 or 1, and 1 exactly when `[[` or `http` occurs in the chunk text |
| UmapSweep.HasTags | src/generate-64-umap-combinations.py:186 | `hasTags` is 0 or 1, and 1 exactly when the chunk text has a `#` character |
| UmapSweep.FolderDepth | src/generate-64-umap-combinations.py:182 | `folderDepth` is the number of `/` in the folder plus one, so 1 for an empty folder |
| UmapSweep.CommunityColor | src/generate-64-umap-combinations.py:126 | `communityColor` times `n_clusters - 1` is the label; it lies in [0, 1] for labels in [0, n_clusters-1], with 0 and 1 at the ends |
| UmapSweep.DataPointColorInRange | src/generate-64-umap-combinations.py:187-188 | a data point whose label is one of the clusters has a colour in [0, 1] and a folder depth of at least 1 |
| UmapSweep.Kept | src/generate-64-umap-combinations.py:166-169 | the combinations that produce results are those whose UMAP run returns coordinates, no more than were tried |
| UmapSweep.KeptOrdered | src/generate-64-umap-combinations.py:162-169 | skipping failed runs keeps the surviving combinations in loop order |
| UmapSweep.BuildDataPoints | src/generate-64-umap-combinations.py:172-190 | one data point per pair of the `zip`: as many as the shorter of the coordinates and the rows, point `j` built by `MakeDataPoint` (the per-point dict of lines 174-190) from coordinate `j`, row `j` and label `j` |
| UmapSweep.GenerateResults | src/generate-64-umap-combinations.py:160-203 | one result per successful combination, in order, each with its data points, their count and the number of distinct labels |
| UmapSweep.RunSweep | src/generate-64-umap-combinations.py:143-211 | `totalSamples` is the number of rows and `parameterCombinations` is the number of results, at most 64. The results are exactly the selected combinations whose UMAP run succeeds, once each and in loop order: result `k` is the entry for the `k`-th of them. Every result belongs to a selected combination, and every selected combination whose UMAP run succeeds has a result |

## Left out

- Leiden, the k-NN graph, k-means and the pseudo-modularity arithmetic (`build_knn_graph`, `detect_communities_leiden`, `detect_communities_kmeans` apart from its line 88): library calls. Their outcomes are inputs, and the modularity is passed through as a `real`.
- `run_umap_with_params` and the k-means fit in `detect_communities` of the sweep script: library calls. UMAP's outcome per combination and the k-means labels are inputs.
- Loading embeddings from JSON or SQLite, argument parsing, the JSON output, the timestamp and all printing: I/O.
- `calculate_relative_positions`, `folderColor`: they use Python's salted `hash()`, whose values change from run to run.
- `title` (`Path(...).stem`) and the `parameterString` text of each result: path parsing and float formatting are not modelled.
- The plotting scripts under `visualization/` and the loader under `exports/`: plotting, sampling and I/O only.
- The repository's Markdown chunking and enrichment pipeline is not part of this model.
- Text.Lower: handles the letters A to Z only. Python's `str.lower()` applies full Unicode case mapping, and a few non-ASCII letters lower to ASCII ones.
- Text.Upper: maps a to z only. Python's `str.upper()` also maps non-ASCII letters, some to ASCII ones: `ß` becomes `SS` and `ı` becomes `I`. Text.LowerOfUpper and UmapSweep.HasCodeIgnoresCase therefore hold only for ASCII upper-casing. Under Python's `upper()`, `'ß'.upper().lower()` is `'ss'`, and `"claß x"` has `hasCode` 0 while its upper-cased `"CLASS X"` has 1.
- UmapSweep.RunSweep: starts from labels that k-means produced. The script aborts before any output in two cases this model does not cover. With fewer than 10 rows, `KMeans(n_clusters=10)` raises. With no rows at all, `embeddings.shape[1]` already raises on the empty array.
- Communities.FloorSqrtHalf: exact integer square root. Float rounding in `np.sqrt` cannot change the result for realistic point counts, and the result is clamped to [2, 20] anyway.
- UmapSweep.CommunityColor: requires at least two clusters. The only caller uses 10, and with one cluster numpy would divide by zero and give `nan`.
- Communities.AddCommunityColors: records are immutable values. Python's shallow `copy()` is therefore not modelled: nested values shared between an input record and its copy.
- UmapSweep.BuildDataPoints: rows are records with fixed fields, so a `KeyError` for a missing column cannot arise. All four columns of the query (chunk text, file path, word count, folder) are assumed non-NULL; the query does not filter NULLs out. A NULL chunk text or folder would make `.lower()` or `.split('/')` raise, and a NULL file path would make `Path(...).stem` raise, each ending `main`. A NULL word count would be written out as JSON `null`, which the integer `wordCount` cannot hold.
