/**
 * Lists of community labels: how often a label occurs (Python's `list.count`),
 * the set of distinct labels (`set(...)`) and the distinct labels in ascending
 * order (`sorted(set(...))`).
 */
module Labels {

  /** The distinct labels of `s`: Python's `set(s)`. */
  function Distinct(s: seq<int>): set<int>
  {
    set x | x in s
  }

  /** Number of occurrences of `x` in `s`: Python's `s.count(x)`. */
  function Count(s: seq<int>, x: int): (c: nat)
    ensures c <= |s|
    ensures c == 0 <==> x !in s
  {
    if s == [] then 0
    else Count(s[..|s| - 1], x) + (if s[|s| - 1] == x then 1 else 0)
  }

  /** `Count` agrees with the multiplicity of `x` in the multiset of `s`. */
  lemma {:induction false} CountIsMultiplicity(s: seq<int>, x: int)
    ensures Count(s, x) == multiset(s)[x]
  {
    if s != [] {
      var t := s[..|s| - 1];
      assert s == t + [s[|s| - 1]];
      CountIsMultiplicity(t, x);
    }
  }

  /** Counting over a concatenation adds the counts of the parts. */
  lemma {:induction false} CountAppend(s: seq<int>, t: seq<int>, x: int)
    ensures Count(s + t, x) == Count(s, x) + Count(t, x)
  {
    if t == [] {
      assert s + t == s;
    } else {
      var u := t[..|t| - 1];
      assert (s + t)[..|s + t| - 1] == s + u;
      CountAppend(s, u, x);
    }
  }

  predicate StrictlyIncreasing(s: seq<int>)
  {
    forall i, j :: 0 <= i < j < |s| ==> s[i] < s[j]
  }

  /** Inserts `x` into an ascending list of distinct labels, unless it is there already. */
  function Insert(ks: seq<int>, x: int): (r: seq<int>)
    requires StrictlyIncreasing(ks)
    ensures StrictlyIncreasing(r)
    ensures forall y :: y in r <==> y in ks || y == x
  {
    if ks == [] then [x]
    else if x < ks[0] then [x] + ks
    else if x == ks[0] then ks
    else
      var rest := Insert(ks[1..], x);
      assert forall k :: 0 <= k < |rest| ==> rest[k] in ks[1..] || rest[k] == x;
      [ks[0]] + rest
  }

  /** The distinct labels of `s` in ascending order: Python's `sorted(set(s))`. */
  function SortedDistinct(s: seq<int>): (r: seq<int>)
    ensures StrictlyIncreasing(r)
    ensures forall y :: y in r <==> y in s
  {
    if s == [] then []
    else Insert(SortedDistinct(s[..|s| - 1]), s[|s| - 1])
  }

  /** A strictly ascending list (such as `sorted(set(...))`) has as many distinct elements as it is long. */
  lemma {:induction false} IncreasingCardinality(ks: seq<int>)
    requires StrictlyIncreasing(ks)
    ensures |Distinct(ks)| == |ks|
  {
    if ks != [] {
      var t := ks[..|ks| - 1];
      var last := ks[|ks| - 1];
      IncreasingCardinality(t);
      assert last !in Distinct(t);
      assert Distinct(ks) == Distinct(t) + {last};
    }
  }

  /** There are as many sorted distinct labels as distinct labels. */
  lemma SortedDistinctLength(s: seq<int>)
    ensures |SortedDistinct(s)| == |Distinct(s)|
  {
    var ks := SortedDistinct(s);
    IncreasingCardinality(ks);
    assert Distinct(ks) == Distinct(s);
  }

  /** A subset is no larger than its superset, and a proper subset is smaller. */
  lemma SubsetCardinality(a: set<int>, b: set<int>)
    requires a <= b
    ensures |a| <= |b|
    ensures a < b ==> |a| < |b|
  {
    assert b == a + (b - a);
    assert a * (b - a) == {};
    if a < b {
      assert b - a != {};
    }
  }

  /** The labels of `s` strictly smaller than `c`. */
  function Below(s: seq<int>, c: int): set<int>
  {
    set y | y in s && y < c
  }

  /**
   * The position of a label in `sorted(set(s))` is the number of distinct
   * labels smaller than it.
   */
  lemma RankIsNumberBelow(s: seq<int>, i: nat)
    requires i < |SortedDistinct(s)|
    ensures i == |Below(s, SortedDistinct(s)[i])|
  {
    var ks := SortedDistinct(s);
    var prefix := ks[..i];
    assert StrictlyIncreasing(prefix);
    IncreasingCardinality(prefix);
    forall y | y in Below(s, ks[i]) ensures y in Distinct(prefix) {
      assert y in ks;
      var j :| 0 <= j < |ks| && ks[j] == y;
      assert j < i;
      assert prefix[j] == y;
    }
    assert Below(s, ks[i]) == Distinct(prefix);
  }

  /** The sum of `Count(s, k)` over the labels `ks`. */
  function SumCounts(s: seq<int>, ks: seq<int>): nat
  {
    if ks == [] then 0
    else SumCounts(s, ks[..|ks| - 1]) + Count(s, ks[|ks| - 1])
  }

  /** Appending one label `x` to `s` adds the number of times `x` is listed in `ks`. */
  lemma {:induction false} SumCountsSnoc(s: seq<int>, x: int, ks: seq<int>)
    ensures SumCounts(s + [x], ks) == SumCounts(s, ks) + Count(ks, x)
  {
    if ks != [] {
      var t := ks[..|ks| - 1];
      SumCountsSnoc(s, x, t);
      assert (s + [x])[..|s + [x]| - 1] == s;
    }
  }

  /** A strictly ascending list (such as `sorted(set(...))`) lists each of its elements once. */
  lemma {:induction false} CountInIncreasing(ks: seq<int>, x: int)
    requires StrictlyIncreasing(ks)
    ensures Count(ks, x) == if x in ks then 1 else 0
  {
    if ks != [] {
      var t := ks[..|ks| - 1];
      assert StrictlyIncreasing(t);
      CountInIncreasing(t, x);
      if ks[|ks| - 1] == x {
        assert x !in t;
      }
    }
  }

  /**
   * Summing the counts over a strictly ascending list (such as `sorted(set(...))`)
   * that covers every label of `s` gives the length of `s`: every element is
   * counted exactly once.
   */
  lemma {:induction false} SumCountsCoversLength(s: seq<int>, ks: seq<int>)
    requires StrictlyIncreasing(ks)
    requires forall x :: x in s ==> x in ks
    ensures SumCounts(s, ks) == |s|
  {
    if s == [] {
      SumCountsEmpty(ks);
    } else {
      var t := s[..|s| - 1];
      var x := s[|s| - 1];
      assert s == t + [x];
      SumCountsCoversLength(t, ks);
      SumCountsSnoc(t, x, ks);
      CountInIncreasing(ks, x);
    }
  }

  lemma {:induction false} SumCountsEmpty(ks: seq<int>)
    ensures SumCounts([], ks) == 0
  {
    if ks != [] {
      SumCountsEmpty(ks[..|ks| - 1]);
    }
  }
}
