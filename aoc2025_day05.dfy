/** Fresh ingredient ranges: membership, counting, and the size of the union
    of inclusive ranges after sorting them. */
module Aoc2025Day05 {
  import opened Common

  /** An inclusive range `start-end` of fresh ingredient ids. */
  datatype FreshRange = FreshRange(start: int, end: int)

  /** `is_fresh`: some range contains the id. */
  function IsFresh(ranges: seq<FreshRange>, id: int): (b: bool)
    ensures b <==> exists k :: 0 <= k < |ranges| && ranges[k].start <= id <= ranges[k].end
  {
    if ranges == [] then false
    else (ranges[0].start <= id <= ranges[0].end) || IsFresh(ranges[1..], id)
  }

  /** `part_one`: how many of the listed ingredients are fresh. */
  function PartOne(ranges: seq<FreshRange>, ingredients: seq<int>): (r: nat)
    ensures r <= |ingredients|
    ensures r == 0 <==> forall i :: 0 <= i < |ingredients| ==> !IsFresh(ranges, ingredients[i])
    ensures r == |ingredients| <==> forall i :: 0 <= i < |ingredients| ==> IsFresh(ranges, ingredients[i])
  {
    if ingredients == [] then 0
    else
      var rest := PartOne(ranges, ingredients[1..]);
      assert forall i :: 1 <= i < |ingredients| ==> ingredients[i] == ingredients[1..][i - 1];
      (if IsFresh(ranges, ingredients[0]) then 1 else 0) + rest
  }

  // ---------------------------------------------------------------------
  // Counting fresh ids in a window

  /** Number of ids in `lo..hi` that some range contains. */
  function CountIn(ranges: seq<FreshRange>, lo: int, hi: int): nat
    decreases hi - lo
  {
    if hi < lo then 0
    else CountIn(ranges, lo, hi - 1) + (if IsFresh(ranges, hi) then 1 else 0)
  }

  lemma {:induction false} CountSplit(ranges: seq<FreshRange>, lo: int, mid: int, hi: int)
    requires lo - 1 <= mid <= hi
    ensures CountIn(ranges, lo, hi) == CountIn(ranges, lo, mid) + CountIn(ranges, mid + 1, hi)
    decreases hi - mid
  {
    if hi > mid {
      CountSplit(ranges, lo, mid, hi - 1);
    }
  }

  lemma {:induction false} CountSame(a: seq<FreshRange>, b: seq<FreshRange>, lo: int, hi: int)
    requires forall x :: lo <= x <= hi ==> IsFresh(a, x) == IsFresh(b, x)
    ensures CountIn(a, lo, hi) == CountIn(b, lo, hi)
    decreases hi - lo
  {
    if hi >= lo {
      CountSame(a, b, lo, hi - 1);
    }
  }

  lemma {:induction false} CountAll(ranges: seq<FreshRange>, lo: int, hi: int)
    requires lo <= hi + 1
    requires forall x :: lo <= x <= hi ==> IsFresh(ranges, x)
    ensures CountIn(ranges, lo, hi) == hi - lo + 1
    decreases hi - lo
  {
    if hi >= lo {
      CountAll(ranges, lo, hi - 1);
    }
  }

  lemma {:induction false} CountNone(ranges: seq<FreshRange>, lo: int, hi: int)
    requires forall x :: lo <= x <= hi ==> !IsFresh(ranges, x)
    ensures CountIn(ranges, lo, hi) == 0
    decreases hi - lo
  {
    if hi >= lo {
      CountNone(ranges, lo, hi - 1);
    }
  }

  /** Every range has start <= end. */
  predicate WellFormed(ranges: seq<FreshRange>)
  {
    forall k :: 0 <= k < |ranges| ==> ranges[k].start <= ranges[k].end
  }

  /** Lowest start and highest end over a non-empty list. */
  function MinStart(ranges: seq<FreshRange>): (m: int)
    requires |ranges| > 0
    ensures forall k :: 0 <= k < |ranges| ==> m <= ranges[k].start
    ensures exists k :: 0 <= k < |ranges| && m == ranges[k].start
  {
    if |ranges| == 1 then ranges[0].start
    else
      var m := MinStart(ranges[1..]);
      assert forall k :: 1 <= k < |ranges| ==> ranges[k] == ranges[1..][k - 1];
      if ranges[0].start <= m then ranges[0].start else m
  }

  function MaxEnd(ranges: seq<FreshRange>): (m: int)
    requires |ranges| > 0
    ensures forall k :: 0 <= k < |ranges| ==> ranges[k].end <= m
    ensures exists k :: 0 <= k < |ranges| && m == ranges[k].end
  {
    if |ranges| == 1 then ranges[0].end
    else
      var m := MaxEnd(ranges[1..]);
      assert forall k :: 1 <= k < |ranges| ==> ranges[k] == ranges[1..][k - 1];
      if ranges[0].end >= m then ranges[0].end else m
  }

  /** Every fresh id lies between the lowest start and the highest end. */
  lemma FreshWithinBounds(ranges: seq<FreshRange>, x: int)
    requires |ranges| > 0 && IsFresh(ranges, x)
    ensures MinStart(ranges) <= x <= MaxEnd(ranges)
  {
    var k :| 0 <= k < |ranges| && ranges[k].start <= x <= ranges[k].end;
    assert MinStart(ranges) <= ranges[k].start;
  }

  /** The size of the union of the ranges: the fresh ids in the only window
      where any can be (see FreshWithinBounds). */
  function UnionSize(ranges: seq<FreshRange>): nat
    requires |ranges| > 0
  {
    CountIn(ranges, MinStart(ranges), MaxEnd(ranges))
  }

  // ---------------------------------------------------------------------
  // Sorting (Python's `sorted` on (start, end) tuples)

  /** Lexicographic order on (start, end). */
  predicate Le(a: FreshRange, b: FreshRange)
  {
    a.start < b.start || (a.start == b.start && a.end <= b.end)
  }

  predicate Sorted(ranges: seq<FreshRange>)
  {
    forall i, j :: 0 <= i < j < |ranges| ==> Le(ranges[i], ranges[j])
  }

  /** Inserts `x` before the first element it does not follow. */
  function Insert(x: FreshRange, s: seq<FreshRange>): (r: seq<FreshRange>)
    requires Sorted(s)
    ensures Sorted(r)
    ensures multiset(r) == multiset(s) + multiset{x}
    ensures forall k :: 0 <= k < |r| ==> r[k] == x || r[k] in s
  {
    if s == [] then [x]
    else if Le(x, s[0]) then [x] + s
    else
      var t := Insert(x, s[1..]);
      InsertBehind(x, s, t);
      [s[0]] + t
  }

  /** `x` goes behind the head of `s`: the head followed by `x` inserted
      into the rest. */
  lemma InsertBehind(x: FreshRange, s: seq<FreshRange>, t: seq<FreshRange>)
    requires Sorted(s) && s != [] && !Le(x, s[0])
    requires Sorted(t) && multiset(t) == multiset(s[1..]) + multiset{x}
    requires forall k :: 0 <= k < |t| ==> t[k] == x || t[k] in s[1..]
    ensures Sorted([s[0]] + t)
    ensures multiset([s[0]] + t) == multiset(s) + multiset{x}
    ensures forall k :: 0 <= k < |[s[0]] + t| ==> ([s[0]] + t)[k] == x || ([s[0]] + t)[k] in s
  {
    assert s == [s[0]] + s[1..];
    assert forall k :: 0 <= k < |t| ==> Le(s[0], t[k]);
  }

  /** `sorted(fresh_ranges)`: an insertion sort building a new list. */
  method SortRanges(ranges: seq<FreshRange>) returns (s: seq<FreshRange>)
    ensures Sorted(s)
    ensures multiset(s) == multiset(ranges)
  {
    s := [];
    for i := 0 to |ranges|
      invariant Sorted(s)
      invariant multiset(s) == multiset(ranges[..i])
    {
      assert ranges[..i + 1] == ranges[..i] + [ranges[i]];
      s := Insert(ranges[i], s);
    }
    assert ranges[..|ranges|] == ranges;
  }

  /** Lists with the same elements contain the same ids. */
  lemma SameElementsSameFresh(a: seq<FreshRange>, b: seq<FreshRange>, x: int)
    requires multiset(a) == multiset(b)
    ensures IsFresh(a, x) == IsFresh(b, x)
  {
    if IsFresh(a, x) {
      var k :| 0 <= k < |a| && a[k].start <= x <= a[k].end;
      assert a[k] in multiset(b);
      var j :| 0 <= j < |b| && b[j] == a[k];
    }
    if IsFresh(b, x) {
      var k :| 0 <= k < |b| && b[k].start <= x <= b[k].end;
      assert b[k] in multiset(a);
      var j :| 0 <= j < |a| && a[j] == b[k];
    }
  }

  /** An element of one list occurs in any list with the same elements. */
  lemma FindIn(a: seq<FreshRange>, b: seq<FreshRange>, k: int) returns (j: int)
    requires multiset(a) == multiset(b) && 0 <= k < |a|
    ensures 0 <= j < |b| && b[j] == a[k]
  {
    assert a[k] in multiset(b);
    j :| 0 <= j < |b| && b[j] == a[k];
  }

  lemma SameElementsSameBounds(a: seq<FreshRange>, b: seq<FreshRange>)
    requires |a| > 0 && multiset(a) == multiset(b)
    ensures |b| > 0 && MinStart(a) == MinStart(b) && MaxEnd(a) == MaxEnd(b)
  {
    assert |b| == |multiset(b)| == |multiset(a)| == |a|;
    var ka :| 0 <= ka < |a| && MinStart(a) == a[ka].start;
    var kb :| 0 <= kb < |b| && MinStart(b) == b[kb].start;
    var ja := FindIn(a, b, ka);
    var jb := FindIn(b, a, kb);
    var ea :| 0 <= ea < |a| && MaxEnd(a) == a[ea].end;
    var eb :| 0 <= eb < |b| && MaxEnd(b) == b[eb].end;
    var fa := FindIn(a, b, ea);
    var fb := FindIn(b, a, eb);
  }

  // ---------------------------------------------------------------------
  // part_two

  /** Appending a range adds exactly the ids it contains. */
  lemma FreshAppend(p: seq<FreshRange>, r: FreshRange, x: int)
    ensures IsFresh(p + [r], x) <==> IsFresh(p, x) || r.start <= x <= r.end
  {
    if IsFresh(p, x) {
      var k :| 0 <= k < |p| && p[k].start <= x <= p[k].end;
      assert (p + [r])[k] == p[k];
    }
    if IsFresh(p + [r], x) && !(r.start <= x <= r.end) {
      var k :| 0 <= k < |p + [r]| && (p + [r])[k].start <= x <= (p + [r])[k].end;
      assert k < |p| && (p + [r])[k] == p[k];
    }
    assert (p + [r])[|p|] == r;
  }

  /** One loop step of `part_two` on a sorted list: the count grows by the
      ids of `r` above the highest end so far. */
  lemma CountStep(p: seq<FreshRange>, r: FreshRange, lo: int, end: int, j: int)
    requires 0 <= j < |p| && p[j].end == end && p[j].start <= r.start && lo <= r.start
    requires forall x :: IsFresh(p, x) ==> x <= end
    requires r.start <= r.end && lo <= end
    ensures r.end <= end ==> CountIn(p + [r], lo, end) == CountIn(p, lo, end)
    ensures r.end > end ==>
      CountIn(p + [r], lo, r.end) ==
      CountIn(p, lo, end) + (r.end - (if r.start <= end then end + 1 else r.start) + 1)
  {
    var q := p + [r];
    forall x | lo <= x <= end ensures IsFresh(q, x) == IsFresh(p, x) {
      FreshAppend(p, r, x);
      if r.start <= x <= r.end {
        assert p[j].start <= x <= p[j].end;
      }
    }
    CountSame(q, p, lo, end);
    if r.end > end {
      var s := if r.start <= end then end + 1 else r.start;
      CountSplit(q, lo, end, r.end);
      CountSplit(q, end + 1, s - 1, r.end);
      forall x | end + 1 <= x <= s - 1 ensures !IsFresh(q, x) {
        FreshAppend(p, r, x);
      }
      CountNone(q, end + 1, s - 1);
      forall x | s <= x <= r.end ensures IsFresh(q, x) {
        FreshAppend(p, r, x);
      }
      CountAll(q, s, r.end);
    }
  }

  /** The loop step of `part_two` at index `i` of the sorted list, stated
      on the prefix before it. */
  lemma PartTwoStep(sorted: seq<FreshRange>, i: int, lo: int, end: int, j: int)
    requires Sorted(sorted) && WellFormed(sorted) && 0 <= j < i < |sorted|
    requires lo == sorted[0].start <= end && sorted[j].end == end
    requires forall k :: 0 <= k < i ==> sorted[k].end <= end
    ensures sorted[i].end <= end ==>
      CountIn(sorted[..i + 1], lo, end) == CountIn(sorted[..i], lo, end)
    ensures sorted[i].end > end ==>
      CountIn(sorted[..i + 1], lo, sorted[i].end) ==
      CountIn(sorted[..i], lo, end) +
      (sorted[i].end - (if sorted[i].start <= end then end + 1 else sorted[i].start) + 1)
  {
    var cur := sorted[i];
    var p := sorted[..i];
    assert sorted[..i + 1] == p + [cur];
    forall x | IsFresh(p, x) ensures x <= end {
      var k :| 0 <= k < |p| && p[k].start <= x <= p[k].end;
    }
    assert p[j] == sorted[j];
    assert Le(sorted[j], cur);
    assert Le(sorted[0], cur);
    CountStep(p, cur, lo, end, j);
  }

  /** After the loop: counting over the sorted list's window is the union
      size of the input list. */
  lemma PartTwoDone(sorted: seq<FreshRange>, ranges: seq<FreshRange>, end: int)
    requires |sorted| > 0 && Sorted(sorted) && multiset(sorted) == multiset(ranges)
    requires forall k :: 0 <= k < |sorted| ==> sorted[k].end <= end
    requires exists k :: 0 <= k < |sorted| && sorted[k].end == end
    ensures |ranges| > 0 && CountIn(sorted, sorted[0].start, end) == UnionSize(ranges)
  {
    SameElementsSameBounds(sorted, ranges);
    assert MinStart(sorted) == sorted[0].start by {
      assert forall k :: 0 <= k < |sorted| ==> Le(sorted[0], sorted[k]);
    }
    assert MaxEnd(sorted) == end;
    forall x | MinStart(ranges) <= x <= MaxEnd(ranges)
      ensures IsFresh(sorted, x) == IsFresh(ranges, x)
    {
      SameElementsSameFresh(sorted, ranges, x);
    }
    CountSame(sorted, ranges, sorted[0].start, end);
  }

  lemma SameElementsWellFormed(a: seq<FreshRange>, b: seq<FreshRange>)
    requires multiset(a) == multiset(b) && WellFormed(b)
    ensures WellFormed(a)
  {
    forall k | 0 <= k < |a| ensures a[k].start <= a[k].end {
      var j := FindIn(a, b, k);
    }
  }

  /** `part_two`: None where the source raises IndexError on an empty list.
      On well-formed ranges the result is the number of distinct fresh ids. */
  method PartTwo(ranges: seq<FreshRange>) returns (r: Option<int>)
    ensures r.Some? <==> |ranges| > 0
    ensures r.Some? && WellFormed(ranges) ==> r.value == UnionSize(ranges)
  {
    var sorted := SortRanges(ranges);
    if |sorted| == 0 {
      return None;
    }
    var freshIngredients, end := Sweep(sorted);
    if WellFormed(ranges) {
      SameElementsWellFormed(sorted, ranges);
      PartTwoDone(sorted, ranges, end);
    }
    return Some(freshIngredients);
  }

  /** The state of the `part_two` loop after the first `i` sorted ranges:
      `end` is the end of range `j`, and on well-formed ranges it is the
      highest end so far, `start` lies between the lowest start and `end`,
      and `count` is the number of fresh ids up to `end`. */
  ghost predicate Swept(sorted: seq<FreshRange>, i: int, start: int, end: int, count: int, j: int)
  {
    0 <= j < i <= |sorted| && sorted[j].end == end &&
    (WellFormed(sorted) ==>
      (forall k :: 0 <= k < i ==> sorted[k].end <= end) &&
      sorted[0].start <= start <= end &&
      count == CountIn(sorted[..i], sorted[0].start, end))
  }

  /** The loop of `part_two` over the sorted ranges: each range extends
      the counted span past its end, or adds nothing.  On well-formed
      ranges the count is that of the whole span up to the highest end. */
  method Sweep(sorted: seq<FreshRange>) returns (freshIngredients: int, end: int)
    requires |sorted| > 0 && Sorted(sorted)
    ensures WellFormed(sorted) ==> forall k :: 0 <= k < |sorted| ==> sorted[k].end <= end
    ensures exists k :: 0 <= k < |sorted| && sorted[k].end == end
    ensures WellFormed(sorted) ==> freshIngredients == CountIn(sorted, sorted[0].start, end)
  {
    var start;
    start, end := sorted[0].start, sorted[0].end;
    freshIngredients := end - start + 1;
    ghost var j := 0;
    if WellFormed(sorted) {
      assert sorted[..1] == [sorted[0]];
      CountAll(sorted[..1], start, end);
    }
    for i := 1 to |sorted|
      invariant Swept(sorted, i, start, end, freshIngredients, j)
    {
      start, end, freshIngredients, j := SweepStep(sorted, i, start, end, freshIngredients, j);
    }
    assert sorted[..|sorted|] == sorted;
  }

  /** One iteration of the `part_two` loop: a range ending within what is
      counted is skipped; otherwise the ids after the old end, or from its
      own start when it begins later, are added. */
  method SweepStep(sorted: seq<FreshRange>, i: int, start: int, end: int, count: int, ghost j: int)
      returns (start': int, end': int, count': int, ghost j': int)
    requires Sorted(sorted) && 1 <= i < |sorted|
    requires Swept(sorted, i, start, end, count, j)
    ensures Swept(sorted, i + 1, start', end', count', j')
  {
    var cur := sorted[i];
    if WellFormed(sorted) {
      PartTwoStep(sorted, i, sorted[0].start, end, j);
    }
    if cur.end <= start || cur.end <= end {
      return start, end, count, j;
    }
    start' := if cur.start <= end then end + 1 else cur.start;
    end' := cur.end;
    j' := i;
    count' := count + end' - start' + 1;
  }

  /** A range inside what is already counted adds nothing, whichever order
      the ranges are listed in. */
  lemma {:induction false} UnionIgnoresContained(ranges: seq<FreshRange>, r: FreshRange)
    requires |ranges| > 0 && r.start <= r.end
    requires forall x :: r.start <= x <= r.end ==> IsFresh(ranges, x)
    ensures UnionSize(ranges + [r]) == UnionSize(ranges)
  {
    var q := ranges + [r];
    forall x ensures IsFresh(q, x) == IsFresh(ranges, x) {
      FreshAppend(ranges, r, x);
    }
    FreshWithinBounds(ranges, r.start);
    FreshWithinBounds(ranges, r.end);
    BoundsKept(ranges, r);
    var lo, hi := MinStart(ranges), MaxEnd(ranges);
    CountSame(q, ranges, lo, hi);
  }

  /** A range within the bounds of the others leaves the bounds alone. */
  lemma BoundsKept(ranges: seq<FreshRange>, r: FreshRange)
    requires |ranges| > 0
    requires MinStart(ranges) <= r.start && r.end <= MaxEnd(ranges)
    ensures MinStart(ranges + [r]) == MinStart(ranges) && MaxEnd(ranges + [r]) == MaxEnd(ranges)
  {
    MinKept(ranges, r);
    MaxKept(ranges, r);
  }

  lemma MinKept(ranges: seq<FreshRange>, r: FreshRange)
    requires |ranges| > 0 && MinStart(ranges) <= r.start
    ensures MinStart(ranges + [r]) == MinStart(ranges)
  {
    var q := ranges + [r];
    var lo, lo' := MinStart(ranges), MinStart(q);
    var k :| 0 <= k < |ranges| && lo == ranges[k].start;
    assert q[k] == ranges[k];
    var k' :| 0 <= k' < |q| && lo' == q[k'].start;
    if k' < |ranges| {
      assert q[k'] == ranges[k'];
    }
  }

  lemma MaxKept(ranges: seq<FreshRange>, r: FreshRange)
    requires |ranges| > 0 && r.end <= MaxEnd(ranges)
    ensures MaxEnd(ranges + [r]) == MaxEnd(ranges)
  {
    var q := ranges + [r];
    var hi, hi' := MaxEnd(ranges), MaxEnd(q);
    var k :| 0 <= k < |ranges| && hi == ranges[k].end;
    assert q[k] == ranges[k];
    var k' :| 0 <= k' < |q| && hi' == q[k'].end;
    if k' < |ranges| {
      assert q[k'] == ranges[k'];
    }
  }
}
