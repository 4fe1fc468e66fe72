/** The recovery script's search for duplicate indices and sequence breaks in an index-ordered log. */
module SequenceAudit {

  datatype Break = Break(expected: int, got: int)

  /** One record for every position whose index is not its rank. */
  function Breaks(xs: seq<int>): seq<Break> {
    if xs == [] then []
    else
      var n := |xs| - 1;
      Breaks(xs[..n]) + if xs[n] != n + 1 then [Break(n + 1, xs[n])] else []
  }

  ghost predicate Ascending(xs: seq<int>) {
    forall i, j :: 0 <= i < j < |xs| ==> xs[i] <= xs[j]
  }

  /** How often an index so far repeats the one before it. */
  function Repeats(xs: seq<int>, i: nat): nat
    requires i < |xs|
  {
    if i == 0 then 0 else Repeats(xs, i - 1) + if xs[i] == xs[i - 1] then 1 else 0
  }

  /** How many index values were skipped so far. */
  function Skipped(xs: seq<int>, i: nat): int
    requires i < |xs|
  {
    if i == 0 then 0 else Skipped(xs, i - 1) + if xs[i] > xs[i - 1] + 1 then xs[i] - xs[i - 1] - 1 else 0
  }

  /** Theorem: there are no breaks exactly when the indices are 1 to n. */
  lemma {:induction false} NoBreaksIff(xs: seq<int>)
    ensures Breaks(xs) == [] <==> forall i :: 0 <= i < |xs| ==> xs[i] == i + 1
  {
    if xs != [] {
      var n := |xs| - 1;
      NoBreaksIff(xs[..n]);
      assert forall i :: 0 <= i < n ==> xs[..n][i] == xs[i];
    }
  }

  /** Theorem: a duplicate index always shows up as a break. */
  lemma DuplicateForcesBreak(xs: seq<int>, i: nat, j: nat)
    requires i < j < |xs| && xs[i] == xs[j]
    ensures Breaks(xs) != []
  {
    NoBreaksIff(xs);
  }

  /** Theorem: at every position the distance between rank and index is the repeats so far minus the values skipped
      so far, corrected for a first index other than 1. */
  lemma {:induction false} DistanceToRank(xs: seq<int>, i: nat)
    requires Ascending(xs) && i < |xs|
    ensures i + 1 - xs[i] == 1 - xs[0] + Repeats(xs, i) - Skipped(xs, i)
  {
    if i > 0 {
      DistanceToRank(xs, i - 1);
      assert xs[i - 1] <= xs[i];
    }
  }

  /** The positions from a first break on, if every later position breaks too. */
  function SuffixBreaks(xs: seq<int>, first: nat): seq<Break>
    requires first <= |xs|
  {
    seq(|xs| - first, i requires 0 <= i < |xs| - first => Break(first + i + 1, xs[first + i]))
  }

  /** Theorem: for indices that start at 1 and skip nothing, the breaks are exactly the positions from the first
      repeat on, and expected minus got counts the repeated copies so far. */
  lemma {:induction false} BreaksAreTheSuffix(xs: seq<int>, first: nat)
    requires Ascending(xs) && xs != [] && xs[0] == 1
    requires forall i :: 0 < i < |xs| ==> xs[i] <= xs[i - 1] + 1
    requires 0 < first <= |xs|
    requires forall i :: 0 < i < first ==> xs[i] != xs[i - 1]
    requires first < |xs| ==> xs[first] == xs[first - 1]
    ensures Breaks(xs) == SuffixBreaks(xs, first)
    ensures forall i :: first <= i < |xs| ==> i + 1 - xs[i] == Repeats(xs, i) > 0
  {
    forall i: nat | i < |xs| ensures i + 1 - xs[i] == Repeats(xs, i) && (Repeats(xs, i) > 0 <==> first <= i) {
      DistanceToRank(xs, i);
      NothingSkipped(xs, i);
      RepeatsFrom(xs, i, first);
    }
    BreaksUpTo(xs, |xs|, first);
    assert xs[..|xs|] == xs;
  }

  lemma {:induction false} NothingSkipped(xs: seq<int>, i: nat)
    requires i < |xs| && forall j :: 0 < j < |xs| ==> xs[j] <= xs[j - 1] + 1
    ensures Skipped(xs, i) == 0
  {
    if i > 0 {
      NothingSkipped(xs, i - 1);
    }
  }

  lemma {:induction false} RepeatsFrom(xs: seq<int>, i: nat, first: nat)
    requires i < |xs| && 0 < first <= |xs|
    requires forall j :: 0 < j < first ==> xs[j] != xs[j - 1]
    requires first < |xs| ==> xs[first] == xs[first - 1]
    ensures Repeats(xs, i) > 0 <==> first <= i
  {
    if i > 0 {
      RepeatsFrom(xs, i - 1, first);
    }
  }

  lemma {:induction false} BreaksUpTo(xs: seq<int>, n: nat, first: nat)
    requires n <= |xs| && first <= |xs|
    requires forall i :: 0 <= i < |xs| ==> (xs[i] != i + 1 <==> first <= i)
    ensures Breaks(xs[..n]) == if n <= first then [] else SuffixBreaks(xs[..n], first)
  {
    hide SuffixBreaks;
    if n > 0 {
      BreaksUpTo(xs, n - 1, first);
      assert xs[..n][..n - 1] == xs[..n - 1];
      if first < n {
        SuffixStep(xs, n, first);
      }
    }
  }

  lemma SuffixStep(xs: seq<int>, n: nat, first: nat)
    requires first < n <= |xs|
    ensures SuffixBreaks(xs[..n], first) == SuffixBreaks(xs[..n - 1], first) + [Break(n, xs[n - 1])]
    ensures first == n - 1 ==> SuffixBreaks(xs[..n - 1], first) == []
  {
  }

  /** Every index with the positions it occurs at, and the indices in order of first occurrence. */
  ghost predicate IsIndexMap(xs: seq<int>, indexMap: map<int, seq<nat>>, keys: seq<int>) {
    && (forall d :: d in keys <==> d in indexMap)
    && (forall i, j :: 0 <= i < j < |keys| ==> keys[i] != keys[j])
    && (forall d :: d in indexMap ==> |indexMap[d]| == multiset(xs)[d] > 0)
    && (forall d :: d !in indexMap ==> multiset(xs)[d] == 0)
  }

  lemma IndexMapStep(xs: seq<int>, n: nat, before: map<int, seq<nat>>, keys: seq<int>)
    requires n < |xs| && IsIndexMap(xs[..n], before, keys)
    ensures xs[n] in before ==> IsIndexMap(xs[..n + 1], before[xs[n] := before[xs[n]] + [n]], keys)
    ensures xs[n] !in before ==> IsIndexMap(xs[..n + 1], before[xs[n] := [n]], keys + [xs[n]])
  {
    assert xs[..n + 1] == xs[..n] + [xs[n]];
    assert multiset(xs[..n + 1]) == multiset(xs[..n]) + multiset{xs[n]};
  }

  /** What the second pass needs of the first. */
  lemma IndexMapMeans(xs: seq<int>, indexMap: map<int, seq<nat>>, keys: seq<int>)
    requires IsIndexMap(xs, indexMap, keys)
    ensures forall n :: 0 <= n < |keys| ==> keys[n] in indexMap && keys[n] !in keys[..n]
    ensures forall d :: multiset(xs)[d] > 1 <==> d in keys && d in indexMap && |indexMap[d]| > 1
  {
    forall n | 0 <= n < |keys| ensures keys[n] in indexMap && keys[n] !in keys[..n] {
      assert keys[n] in keys;
    }
  }

  /** The keys with several positions, once each. */
  ghost predicate Selects(duplicates: seq<int>, keys: seq<int>, indexMap: map<int, seq<nat>>) {
    && (forall d :: d in duplicates <==> d in keys && d in indexMap && |indexMap[d]| > 1)
    && forall i, j :: 0 <= i < j < |duplicates| ==> duplicates[i] != duplicates[j]
  }

  lemma SelectsNone(indexMap: map<int, seq<nat>>)
    ensures Selects([], [], indexMap)
  {
  }

  lemma SelectsNext(duplicates: seq<int>, keys: seq<int>, d: int, indexMap: map<int, seq<nat>>)
    requires Selects(duplicates, keys, indexMap) && d in indexMap && d !in keys
    ensures Selects(if |indexMap[d]| > 1 then duplicates + [d] else duplicates, keys + [d], indexMap)
  {
  }

  lemma EmptyIndexMap()
    ensures IsIndexMap([], map[], [])
  {
  }

  /** The first pass fills `indexMap` and collects the breaks. */
  method ScanIndices(xs: seq<int>) returns (indexMap: map<int, seq<nat>>, keys: seq<int>, breaks: seq<Break>)
    ensures IsIndexMap(xs, indexMap, keys)
    ensures breaks == Breaks(xs)
  {
    hide IsIndexMap;
    indexMap, keys, breaks := map[], [], [];
    EmptyIndexMap();
    assert xs[..0] == [];
    for n := 0 to |xs|
      invariant breaks == Breaks(xs[..n])
      invariant IsIndexMap(xs[..n], indexMap, keys)
    {
      IndexMapStep(xs, n, indexMap, keys);
      assert xs[..n + 1][..n] == xs[..n];
      if xs[n] in indexMap {
        indexMap := indexMap[xs[n] := indexMap[xs[n]] + [n]];
      } else {
        indexMap, keys := indexMap[xs[n] := [n]], keys + [xs[n]];
      }
      var expected := n + 1;
      if xs[n] != expected {
        breaks := breaks + [Break(expected, xs[n])];
      }
    }
    assert xs[..|xs|] == xs;
  }

  /** The second pass keeps the indices with several positions. */
  method FindAnomalies(xs: seq<int>) returns (duplicates: seq<int>, breaks: seq<Break>)
    ensures breaks == Breaks(xs)
    ensures forall d :: d in duplicates <==> multiset(xs)[d] > 1
    ensures forall i, j :: 0 <= i < j < |duplicates| ==> duplicates[i] != duplicates[j]
  {
    hide IsIndexMap, Selects;
    var indexMap, keys;
    indexMap, keys, breaks := ScanIndices(xs);
    IndexMapMeans(xs, indexMap, keys);
    duplicates := [];
    SelectsNone(indexMap);
    assert keys[..0] == [];
    for n := 0 to |keys|
      invariant Selects(duplicates, keys[..n], indexMap)
    {
      var d := keys[n];
      assert d in indexMap && d !in keys[..n];
      SelectsNext(duplicates, keys[..n], d, indexMap);
      assert keys[..n + 1] == keys[..n] + [d];
      if |indexMap[d]| > 1 {
        duplicates := duplicates + [d];
      }
    }
    assert keys[..|keys|] == keys;
    SelectsMeans(xs, duplicates, keys, indexMap);
  }

  lemma SelectsMeans(xs: seq<int>, duplicates: seq<int>, keys: seq<int>, indexMap: map<int, seq<nat>>)
    requires Selects(duplicates, keys, indexMap) && IsIndexMap(xs, indexMap, keys)
    ensures forall d :: d in duplicates <==> multiset(xs)[d] > 1
    ensures forall i, j :: 0 <= i < j < |duplicates| ==> duplicates[i] != duplicates[j]
  {
    hide IsIndexMap;
    IndexMapMeans(xs, indexMap, keys);
  }
}
