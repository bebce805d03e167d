/** Reactor reports: a report is safe when its levels move in one direction
    by 1 to 3 at every step; the dampener also accepts a report that
    becomes safe once one level is removed. */
module Aoc2024Day02 {
  import opened Common

  /** Levels k and k + 1 differ by 1 to 3. */
  predicate GradualAt(r: seq<int>, k: int)
    requires 0 <= k < |r| - 1
  {
    1 <= Abs(r[k] - r[k + 1]) <= 3
  }

  /** Every adjacent difference is between 1 and 3 in size. */
  predicate Gradual(r: seq<int>)
  {
    forall k :: 0 <= k < |r| - 1 ==> GradualAt(r, k)
  }

  predicate DownAt(r: seq<int>, k: int)
    requires 0 <= k < |r| - 1
  {
    r[k] >= r[k + 1]
  }

  predicate UpAt(r: seq<int>, k: int)
    requires 0 <= k < |r| - 1
  {
    r[k] <= r[k + 1]
  }

  /** No level is below the next one. */
  predicate NonIncreasing(r: seq<int>)
  {
    forall k :: 0 <= k < |r| - 1 ==> DownAt(r, k)
  }

  /** No level is above the next one. */
  predicate NonDecreasing(r: seq<int>)
  {
    forall k :: 0 <= k < |r| - 1 ==> UpAt(r, k)
  }

  /** What `is_valid_report` decides. */
  predicate Safe(r: seq<int>)
  {
    Gradual(r) && (NonIncreasing(r) || NonDecreasing(r))
  }

  /** `is_valid_report`: one pass over the adjacent pairs, clearing the
      `desc`/`asc` flags and stopping at the first bad difference. */
  method IsValidReport(report: seq<int>) returns (b: bool)
    ensures b == Safe(report)
  {
    var desc, asc := true, true;
    var i := 0;
    while i + 1 < |report|
      invariant 0 <= i && (i == 0 || i < |report|)
      invariant desc == forall k :: 0 <= k < i ==> DownAt(report, k)
      invariant asc == forall k :: 0 <= k < i ==> UpAt(report, k)
      invariant forall k :: 0 <= k < i ==> GradualAt(report, k)
    {
      var left, right := report[i], report[i + 1];
      assert DownAt(report, i) == (left >= right) && UpAt(report, i) == (left <= right);
      assert GradualAt(report, i) == (1 <= Abs(left - right) <= 3);
      if left < right {
        desc := false;
      }
      if left > right {
        asc := false;
      }
      var diff := Abs(left - right);
      if !(1 <= diff <= 3) {
        assert !Gradual(report);
        return false;
      }
      i := i + 1;
    }
    assert Gradual(report) && desc == NonIncreasing(report) && asc == NonDecreasing(report);
    return desc || asc;
  }

  /** `Vec::remove(i)` on a copy. */
  function Remove(r: seq<int>, i: nat): (q: seq<int>)
    requires i < |r|
    ensures |q| == |r| - 1
  {
    r[..i] + r[i + 1..]
  }

  /** What `is_valid_report_with_tolerance_of_one` decides. */
  predicate Tolerable(r: seq<int>)
  {
    Safe(r) || exists i :: 0 <= i < |r| && Safe(Remove(r, i))
  }

  /** `is_valid_report_with_tolerance_of_one`: the report itself, then
      every copy with one level removed, in order. */
  method IsValidReportWithToleranceOfOne(report: seq<int>) returns (b: bool)
    ensures b == Tolerable(report)
  {
    var valid := IsValidReport(report);
    if valid {
      return true;
    }
    for i := 0 to |report|
      invariant forall j :: 0 <= j < i ==> !Safe(Remove(report, j))
    {
      var modifiedReport := report[..i] + report[i + 1..];
      valid := IsValidReport(modifiedReport);
      if valid {
        assert Safe(Remove(report, i));
        return true;
      }
    }
    return false;
  }

  /** Reports with fewer than two levels are safe. */
  lemma ShortIsSafe(r: seq<int>)
    requires |r| < 2
    ensures Safe(r)
  {
  }

  /** Dropping the first level of a safe report leaves it safe, so for a
      non-empty report the dampener's first check is implied by the
      removal loop. */
  lemma SafeWithoutFirst(r: seq<int>)
    requires |r| > 0 && Safe(r)
    ensures Safe(Remove(r, 0))
    ensures Tolerable(r) <==> exists i :: 0 <= i < |r| && Safe(Remove(r, i))
  {
    var q := Remove(r, 0);
    assert q == r[1..];
    forall k | 0 <= k < |q| - 1 ensures GradualAt(q, k) {
      assert GradualAt(r, k + 1);
    }
    if NonIncreasing(r) {
      forall k | 0 <= k < |q| - 1 ensures DownAt(q, k) {
        assert DownAt(r, k + 1);
      }
    } else {
      forall k | 0 <= k < |q| - 1 ensures UpAt(q, k) {
        assert UpAt(r, k + 1);
      }
    }
  }

  /** The reversed report. */
  function Reverse(r: seq<int>): (q: seq<int>)
    ensures |q| == |r|
  {
    if r == [] then [] else [r[|r| - 1]] + Reverse(r[..|r| - 1])
  }

  /** The k-th level of the reversed report is the k-th from the end. */
  lemma {:induction false} ReverseAt(r: seq<int>, k: int)
    requires 0 <= k < |r|
    ensures Reverse(r)[k] == r[|r| - 1 - k]
  {
    if k > 0 {
      ReverseAt(r[..|r| - 1], k - 1);
    }
  }

  /** Reading a report backwards does not change whether it is safe. */
  lemma SafeReverse(r: seq<int>)
    ensures Safe(Reverse(r)) <==> Safe(r)
  {
    GradualReverse(r);
    MonotoneReverse(r);
    MonotoneReverse(Reverse(r));
    ReverseReverse(r);
  }

  lemma ReverseReverse(r: seq<int>)
    ensures Reverse(Reverse(r)) == r
  {
    var q := Reverse(Reverse(r));
    forall k | 0 <= k < |r| ensures q[k] == r[k] {
      ReverseAt(Reverse(r), k);
      ReverseAt(r, |r| - 1 - k);
    }
  }

  lemma GradualReverse(r: seq<int>)
    ensures Gradual(Reverse(r)) <==> Gradual(r)
  {
    var q, n := Reverse(r), |r|;
    if Gradual(r) {
      forall k | 0 <= k < n - 1 ensures GradualAt(q, k) {
        ReverseAt(r, k);
        ReverseAt(r, k + 1);
        assert GradualAt(r, n - 2 - k);
      }
    }
    if Gradual(q) {
      forall k | 0 <= k < n - 1 ensures GradualAt(r, k) {
        ReverseAt(r, n - 1 - k);
        ReverseAt(r, n - 2 - k);
        assert GradualAt(q, n - 2 - k);
      }
    }
  }

  /** Backwards, a non-decreasing report is non-increasing. */
  lemma MonotoneReverse(r: seq<int>)
    ensures NonIncreasing(Reverse(r)) <==> NonDecreasing(r)
  {
    var q, n := Reverse(r), |r|;
    if NonDecreasing(r) {
      forall k | 0 <= k < n - 1 ensures DownAt(q, k) {
        ReverseAt(r, k);
        ReverseAt(r, k + 1);
        assert UpAt(r, n - 2 - k);
      }
    }
    if NonIncreasing(q) {
      forall k | 0 <= k < n - 1 ensures UpAt(r, k) {
        ReverseAt(r, n - 1 - k);
        ReverseAt(r, n - 2 - k);
        assert DownAt(q, n - 2 - k);
      }
    }
  }

  /** `part_one`: the number of safe reports; all of them exactly when
      every report is safe, none exactly when none is. */
  function PartOne(reports: seq<seq<int>>): (r: nat)
    ensures r <= |reports|
    ensures r == |reports| <==> forall k :: 0 <= k < |reports| ==> Safe(reports[k])
    ensures r == 0 <==> forall k :: 0 <= k < |reports| ==> !Safe(reports[k])
  {
    if reports == [] then 0
    else PartOne(reports[..|reports| - 1]) + (if Safe(reports[|reports| - 1]) then 1 else 0)
  }

  /** `part_two`: the number of reports the dampener accepts; all of them
      exactly when it accepts every report, none exactly when it accepts
      none. */
  function PartTwo(reports: seq<seq<int>>): (r: nat)
    ensures r <= |reports|
    ensures r == |reports| <==> forall k :: 0 <= k < |reports| ==> Tolerable(reports[k])
    ensures r == 0 <==> forall k :: 0 <= k < |reports| ==> !Tolerable(reports[k])
  {
    if reports == [] then 0
    else PartTwo(reports[..|reports| - 1]) + (if Tolerable(reports[|reports| - 1]) then 1 else 0)
  }

  /** The dampener accepts at least the safe reports, and no more reports
      than there are. */
  lemma {:induction false} PartOneAtMostPartTwo(reports: seq<seq<int>>)
    ensures PartOne(reports) <= PartTwo(reports) <= |reports|
  {
    if reports != [] {
      PartOneAtMostPartTwo(reports[..|reports| - 1]);
    }
  }
}
