/** Two location lists: part one pairs them up smallest with smallest and
    adds the distances; part two weighs every left value by how often it
    occurs on the right. */
module Aoc2024Day01 {
  import opened Common

  predicate Sorted(s: seq<int>)
  {
    forall i, j :: 0 <= i < j < |s| ==> s[i] <= s[j]
  }

  /** A head no larger than the first element of a sorted tail keeps the
      list sorted. */
  lemma ConsSorted(h: int, t: seq<int>)
    requires Sorted(t) && (t == [] || h <= t[0])
    ensures Sorted([h] + t)
  {
    var s := [h] + t;
    forall i, j | 0 <= i < j < |s| ensures s[i] <= s[j] {
      if i == 0 && j > 1 {
        assert t[0] <= t[j - 1];
      }
    }
  }

  lemma SortedTail(s: seq<int>)
    requires Sorted(s) && s != []
    ensures Sorted(s[1..])
  {
    forall i, j | 0 <= i < j < |s| - 1 ensures s[1..][i] <= s[1..][j] {
      assert s[i + 1] <= s[j + 1];
    }
  }

  /** x put into its place in a sorted list. */
  function Insert(x: int, s: seq<int>): (r: seq<int>)
    requires Sorted(s)
    ensures Sorted(r)
    ensures multiset(r) == multiset(s) + multiset{x}
    ensures |r| == |s| + 1 && (r[0] == x || (s != [] && r[0] == s[0]))
  {
    if s == [] then [x]
    else if x <= s[0] then
      ConsSorted(x, s);
      [x] + s
    else
      SortedTail(s);
      var rest := Insert(x, s[1..]);
      assert |s| > 1 ==> s[0] <= s[1];
      ConsSorted(s[0], rest);
      assert s == [s[0]] + s[1..];
      [s[0]] + rest
  }

  /** `iter().sorted()`: the values in ascending order. */
  function Sort(s: seq<int>): (r: seq<int>)
    ensures Sorted(r)
    ensures multiset(r) == multiset(s)
  {
    if s == [] then []
    else
      assert s == s[..|s| - 1] + [s[|s| - 1]];
      Insert(s[|s| - 1], Sort(s[..|s| - 1]))
  }

  /** A sorted list is determined by its values: any two sorted
      arrangements of the same values are equal. */
  lemma {:induction false} SortedUnique(a: seq<int>, b: seq<int>)
    requires Sorted(a) && Sorted(b)
    requires multiset(a) == multiset(b)
    ensures a == b
    decreases |a|
  {
    if a == [] {
      assert |b| == |multiset(b)| == 0;
    } else {
      assert |b| == |multiset(b)| == |a|;
      assert a[0] in multiset(b) && b[0] in multiset(a);
      SortedHeadIsLeast(b, a[0]);
      SortedHeadIsLeast(a, b[0]);
      var h := a[0];
      assert h == b[0];
      assert a == [h] + a[1..] && b == [h] + b[1..];
      MultisetTail(a);
      MultisetTail(b);
      assert multiset(a[1..]) == multiset(a) - multiset{h} == multiset(b) - multiset{h} == multiset(b[1..]);
      SortedTail(a);
      SortedTail(b);
      SortedUnique(a[1..], b[1..]);
    }
  }

  lemma MultisetTail(s: seq<int>)
    requires s != []
    ensures multiset(s[1..]) == multiset(s) - multiset{s[0]}
  {
    assert s == [s[0]] + s[1..];
  }

  /** The first element of a sorted list is at most any of its elements. */
  lemma SortedHeadIsLeast(s: seq<int>, x: int)
    requires Sorted(s) && x in s
    ensures s[0] <= x
  {
    var i :| 0 <= i < |s| && s[i] == x;
    if i > 0 {
      assert s[0] <= s[i];
    }
  }

  /** The sum of `|left - right|` over the pairs of `zip`, which stops at the
      end of the shorter list. */
  function DistanceSum(a: seq<int>, b: seq<int>): (r: int)
    ensures r >= 0
  {
    if a == [] || b == [] then 0 else Abs(a[0] - b[0]) + DistanceSum(a[1..], b[1..])
  }

  /** `part_one`: the distance of the sorted columns. Columns of equal
      length are at distance zero exactly when they hold the same values. */
  function PartOne(left: seq<int>, right: seq<int>): (r: int)
    ensures r >= 0
    ensures |left| == |right| ==> (r == 0 <==> multiset(left) == multiset(right))
  {
    var a, b := Sort(left), Sort(right);
    assert |left| == |right| ==> (DistanceSum(a, b) == 0 <==> multiset(left) == multiset(right)) by {
      if |left| == |right| {
        assert |a| == |multiset(a)| == |left| && |b| == |multiset(b)| == |right|;
        DistanceSumZero(a, b);
        if multiset(left) == multiset(right) {
          SortedUnique(a, b);
        }
      }
    }
    DistanceSum(a, b)
  }

  lemma {:induction false} DistanceSumSymmetric(a: seq<int>, b: seq<int>)
    ensures DistanceSum(a, b) == DistanceSum(b, a)
  {
    if a != [] && b != [] {
      DistanceSumSymmetric(a[1..], b[1..]);
    }
  }

  /** Lists of the same length are at distance zero exactly when they are
      equal. */
  lemma {:induction false} DistanceSumZero(a: seq<int>, b: seq<int>)
    requires |a| == |b|
    ensures DistanceSum(a, b) == 0 <==> a == b
  {
    if a != [] {
      DistanceSumZero(a[1..], b[1..]);
      assert a == [a[0]] + a[1..] && b == [b[0]] + b[1..];
    }
  }

  /** Swapping the two columns does not change part one. */
  lemma PartOneSymmetric(left: seq<int>, right: seq<int>)
    ensures PartOne(left, right) == PartOne(right, left)
  {
    DistanceSumSymmetric(Sort(left), Sort(right));
  }

  /** Part one depends only on the values in each column, not their order. */
  lemma PartOneIgnoresOrder(left: seq<int>, left': seq<int>, right: seq<int>)
    requires multiset(left) == multiset(left')
    ensures PartOne(left, right) == PartOne(left', right)
  {
    SortedUnique(Sort(left), Sort(left'));
  }

  /** What `part_two` computes: each left value times its number of
      occurrences on the right. */
  function Similarity(left: seq<int>, right: seq<int>): int
  {
    if left == [] then 0
    else
      var x := left[|left| - 1];
      Similarity(left[..|left| - 1], right) + x * multiset(right)[x]
  }

  lemma Distribute(a: int, b: int, c: int)
    ensures a * (b + c) == a * b + a * c
  {
  }

  /** One more right value x adds x once for every x on the left. */
  lemma {:induction false} SimilarityAddRight(left: seq<int>, right: seq<int>, x: int)
    ensures Similarity(left, right + [x]) == Similarity(left, right) + x * multiset(left)[x]
  {
    if left != [] {
      var init, y := left[..|left| - 1], left[|left| - 1];
      SimilarityAddRight(init, right, x);
      assert left == init + [y];
      var extra := if y == x then 1 else 0;
      var cr, cl := multiset(right)[y], multiset(init)[x];
      assert multiset(right + [x])[y] == cr + extra;
      assert multiset(left)[x] == cl + extra;
      Distribute(y, cr, extra);
      Distribute(x, cl, extra);
      assert y * extra == x * extra;
      assert Similarity(left, right + [x]) == Similarity(init, right + [x]) + y * (cr + extra);
      assert Similarity(left, right) == Similarity(init, right) + y * cr;
    }
  }

  /** Nothing on the right weighs every left value by zero. */
  lemma {:induction false} SimilarityEmptyRight(left: seq<int>)
    ensures Similarity(left, []) == 0
  {
    if left != [] {
      SimilarityEmptyRight(left[..|left| - 1]);
    }
  }

  /** Similarity is symmetric: both sides count x * (number of x on the
      left) * (number of x on the right). */
  lemma {:induction false} SimilaritySymmetric(left: seq<int>, right: seq<int>)
    ensures Similarity(left, right) == Similarity(right, left)
  {
    if left == [] {
      SimilarityEmptyRight(right);
    } else {
      var init, x := left[..|left| - 1], left[|left| - 1];
      SimilaritySymmetric(init, right);
      assert left == init + [x];
      SimilarityAddRight(right, init, x);
      assert Similarity(left, right) == Similarity(init, right) + x * multiset(right)[x];
      assert Similarity(right, init + [x]) == Similarity(right, init) + x * multiset(right)[x];
      assert Similarity(right, left) == Similarity(right, init + [x]);
    }
  }

  /** `occurrences.get(value).unwrap_or(&0)`. */
  function Occurrences(occurrences: map<int, int>, value: int): int
  {
    if value in occurrences then occurrences[value] else 0
  }

  /** The final `map(...).sum()` over the left column. */
  function WeightedSum(left: seq<int>, occurrences: map<int, int>): int
  {
    if left == [] then 0
    else
      var x := left[|left| - 1];
      WeightedSum(left[..|left| - 1], occurrences) + x * Occurrences(occurrences, x)
  }

  /** With the occurrence table of the right column, the weighted sum is the
      similarity. */
  lemma {:induction false} WeightedSumIsSimilarity(left: seq<int>, right: seq<int>, occurrences: map<int, int>)
    requires forall v :: Occurrences(occurrences, v) == multiset(right)[v]
    ensures WeightedSum(left, occurrences) == Similarity(left, right)
  {
    if left != [] {
      var x := left[|left| - 1];
      WeightedSumIsSimilarity(left[..|left| - 1], right, occurrences);
      assert Occurrences(occurrences, x) == multiset(right)[x];
    }
  }

  /** `part_two`: count the right column into a table, then weigh the left
      column by it. */
  method PartTwo(left: seq<int>, right: seq<int>) returns (r: int)
    ensures r == Similarity(left, right)
  {
    var occurrences: map<int, int> := map[];
    for i := 0 to |right|
      invariant forall v :: Occurrences(occurrences, v) == multiset(right[..i])[v]
    {
      var value := right[i];
      assert right[..i + 1] == right[..i] + [value];
      occurrences := occurrences[value := Occurrences(occurrences, value) + 1];
    }
    assert right[..|right|] == right;
    WeightedSumIsSimilarity(left, right, occurrences);
    return WeightedSum(left, occurrences);
  }
}
