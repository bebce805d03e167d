/** Battery banks: the joltage of a bank is the number formed by the
    digits of `battery_nbr` of its batteries, kept in order.  The source
    picks greedily, each time the leftmost largest digit that still leaves
    room for the digits after it. */
module Aoc2025Day03 {
  import opened Common

  /** s[k] is at most m. */
  predicate AtMost(s: seq<int>, k: int, m: int)
    requires 0 <= k < |s|
  {
    s[k] <= m
  }

  /** s[k] is below m. */
  predicate Below(s: seq<int>, k: int, m: int)
    requires 0 <= k < |s|
  {
    s[k] < m
  }

  /** `max(s)`. */
  function SeqMax(s: seq<int>): (m: int)
    requires |s| > 0
    ensures m in s
    ensures forall k :: 0 <= k < |s| ==> AtMost(s, k, m)
  {
    PrefixMax(s, |s|)
  }

  /** The largest of the first n values of s. */
  function PrefixMax(s: seq<int>, n: int): (m: int)
    requires 0 < n <= |s|
    ensures m in s
    ensures forall k :: 0 <= k < n ==> AtMost(s, k, m)
  {
    if n == 1 then
      assert AtMost(s, 0, s[0]);
      s[0]
    else
      var m := Max(PrefixMax(s, n - 1), s[n - 1]);
      assert forall k :: 0 <= k < n ==> AtMost(s, k, m) by {
        forall k | 0 <= k < n ensures AtMost(s, k, m) {
          if k < n - 1 {
            assert AtMost(s, k, PrefixMax(s, n - 1));
          }
        }
      }
      m
  }

  /** s[k] is not v. */
  predicate Differs(s: seq<int>, k: int, v: int)
    requires 0 <= k < |s|
  {
    s[k] != v
  }

  /** `s.index(v)`: the first position holding v. */
  function IndexOf(s: seq<int>, v: int): (r: nat)
    requires v in s
    ensures r < |s| && s[r] == v
    ensures forall k :: 0 <= k < r ==> Differs(s, k, v)
  {
    IndexFrom(s, v, 0)
  }

  /** The first position from k on holding v, when none before k does. */
  function IndexFrom(s: seq<int>, v: int, k: nat): (r: nat)
    requires v in s && k <= |s|
    requires forall j :: 0 <= j < k ==> Differs(s, j, v)
    ensures k <= r < |s| && s[r] == v
    ensures forall j :: 0 <= j < r ==> Differs(s, j, v)
    decreases |s| - k
  {
    assert k < |s| by {
      var w :| 0 <= w < |s| && s[w] == v;
      assert w < k ==> !Differs(s, w, v);
    }
    if s[k] == v then k else IndexFrom(s, v, k + 1)
  }

  /** The leftmost of the largest values of `bank[lo:hi]`. */
  function Pick(bank: seq<int>, lo: int, hi: int): (p: int)
    requires 0 <= lo < hi <= |bank|
    ensures lo <= p < hi
    ensures forall k :: lo <= k < hi ==> AtMost(bank, k, bank[p])
    ensures forall k :: lo <= k < p ==> Below(bank, k, bank[p])
    decreases hi - lo
  {
    if hi - lo == 1 then
      assert AtMost(bank, lo, bank[lo]);
      lo
    else
      var q := Pick(bank, lo, hi - 1);
      if bank[hi - 1] > bank[q] then
        PickLast(bank, lo, hi - 1, q);
        hi - 1
      else
        assert AtMost(bank, hi - 1, bank[q]);
        q
  }

  /** A last value above the leftmost maximum of the others is the new
      leftmost maximum. */
  lemma PickLast(bank: seq<int>, lo: int, j: int, q: int)
    requires 0 <= lo <= q < j < |bank|
    requires forall k :: lo <= k < j ==> AtMost(bank, k, bank[q])
    requires bank[j] > bank[q]
    ensures forall k :: lo <= k <= j ==> AtMost(bank, k, bank[j])
    ensures forall k :: lo <= k < j ==> Below(bank, k, bank[j])
  {
    forall k | lo <= k < j
      ensures AtMost(bank, k, bank[j]) && Below(bank, k, bank[j])
    {
      assert AtMost(bank, k, bank[q]);
    }
    assert AtMost(bank, j, bank[j]);
  }

  /** `offset + bank[offset:hi].index(max(bank[offset:hi]))`, the position
      the source picks, is the leftmost maximum. */
  lemma PickIsIndexOfMax(bank: seq<int>, lo: int, hi: int)
    requires 0 <= lo < hi <= |bank|
    ensures lo + IndexOf(bank[lo..hi], SeqMax(bank[lo..hi])) == Pick(bank, lo, hi)
    ensures SeqMax(bank[lo..hi]) == bank[Pick(bank, lo, hi)]
  {
    var window := bank[lo..hi];
    var top := SeqMax(window);
    var i := IndexOf(window, top);
    var p := Pick(bank, lo, hi);
    assert AtMost(bank, lo + i, bank[p]);
    assert AtMost(window, p - lo, top);
    assert lo + i < p ==> Below(bank, lo + i, bank[p]);
    assert p < lo + i ==> Differs(window, p - lo, top);
  }

  /** The greedy choice of m digits from `bank[lo:]`: pick the leftmost
      largest digit among those that leave m - 1 digits after it, then
      continue right of it. */
  function Greedy(bank: seq<int>, lo: nat, m: nat): (ds: seq<int>)
    requires m >= 1 && lo + m <= |bank|
    ensures |ds| == m
    decreases m
  {
    var p := Pick(bank, lo, |bank| - m + 1);
    if m == 1 then [bank[p]] else [bank[p]] + Greedy(bank, p + 1, m - 1)
  }

  /** The number whose decimal digits are ds. */
  function Val(ds: seq<int>): int
  {
    if ds == [] then 0 else 10 * Val(ds[..|ds| - 1]) + ds[|ds| - 1]
  }

  /** The leading digit d of d :: r is worth d * 10^|r|. */
  lemma {:induction false} ValCons(d: int, r: seq<int>)
    ensures Val([d] + r) == d * Pow10(|r|) + Val(r)
  {
    if r != [] {
      var init := r[..|r| - 1];
      assert ([d] + r)[..|r|] == [d] + init;
      ValCons(d, init);
      var q := Pow10(|init|);
      assert Val([d] + r) == 10 * (d * q + Val(init)) + r[|r| - 1];
      assert 10 * (d * q) == d * (10 * q);
    }
  }

  /** The joltage the source computes, None where it raises ValueError on
      the maximum of an empty slice.  A battery count below one still
      takes one digit (the final `max(bank[offset:])`). */
  function Joltage(bank: seq<int>, batteryNbr: int): Option<int>
  {
    var m := Max(batteryNbr, 1);
    if |bank| < m then None else Some(Val(Greedy(bank, 0, m)))
  }

  /** Greedy's first digit, then the rest. */
  lemma GreedyUnfold(bank: seq<int>, lo: nat, m: nat)
    requires m >= 2 && lo + m <= |bank|
    ensures var p := Pick(bank, lo, |bank| - m + 1);
      Greedy(bank, lo, m) == [bank[p]] + Greedy(bank, p + 1, m - 1)
  {
  }



  /** The rounds of `get_largest_joltage` still to run from `offset` with
      i digits left before the last, each taking the leftmost largest digit
      that leaves room for the rest; None where `max` would meet an empty
      slice. */
  function Rounds(bank: seq<int>, offset: nat, i: int, joltage: int): Option<int>
    decreases i
  {
    if i <= 0 then
      if offset >= |bank| then None else Some(joltage + bank[Pick(bank, offset, |bank|)])
    else if |bank| - i <= offset then None
    else
      var p := Pick(bank, offset, |bank| - i);
      Rounds(bank, p + 1, i - 1, (joltage + bank[p]) * 10)
  }

  /** The accumulation of the loop: each digit moves the accumulator one
      decimal place up and is added to it. */
  function Fold(acc: int, ds: seq<int>): int
    decreases |ds|
  {
    if ds == [] then acc else Fold(10 * acc + ds[0], ds[1..])
  }

  lemma Shift(acc: int, d: int, q: int)
    ensures (10 * acc + d) * q == acc * (10 * q) + d * q
  {
  }

  /** Accumulating digits onto acc puts acc in front of them. */
  lemma {:induction false} FoldIsVal(acc: int, ds: seq<int>)
    ensures Fold(acc, ds) == acc * Pow10(|ds|) + Val(ds)
    decreases |ds|
  {
    if ds != [] {
      var r := ds[1..];
      FoldIsVal(10 * acc + ds[0], r);
      assert ds == [ds[0]] + r;
      ValCons(ds[0], r);
      Shift(acc, ds[0], Pow10(|r|));
    }
  }

  /** From a joltage of ten times acc, the rounds accumulate the greedy
      choice of the remaining i + 1 digits onto acc. */
  lemma {:induction false} RoundsAreGreedy(bank: seq<int>, offset: nat, i: nat, acc: int, joltage: int)
    requires offset + i < |bank| && joltage == 10 * acc
    ensures Rounds(bank, offset, i, joltage) == Some(Fold(acc, Greedy(bank, offset, i + 1)))
    decreases i
  {
    var p := Pick(bank, offset, |bank| - i);
    if i == 0 {
      var ds := Greedy(bank, offset, 1);
      assert ds == [bank[p]];
      assert Fold(acc, ds) == Fold(10 * acc + bank[p], []);
    } else {
      var acc' := 10 * acc + bank[p];
      GreedyRoundStep(bank, offset, i, acc, joltage);
      RoundsAreGreedy(bank, p + 1, i - 1, acc', 10 * acc');
    }
  }

  /** One round and one greedy digit move together: both take the digit
      at `Pick`, and go on from just after it. */
  lemma GreedyRoundStep(bank: seq<int>, offset: nat, i: nat, acc: int, joltage: int)
    requires i > 0 && offset + i < |bank| && joltage == 10 * acc
    ensures var p := Pick(bank, offset, |bank| - i);
      var acc' := 10 * acc + bank[p];
      Rounds(bank, offset, i, joltage) == Rounds(bank, p + 1, i - 1, 10 * acc') &&
      Fold(acc, Greedy(bank, offset, i + 1)) == Fold(acc', Greedy(bank, p + 1, i))
  {
    var p := Pick(bank, offset, |bank| - i);
    var acc' := 10 * acc + bank[p];
    RoundsUnfold(bank, offset, i, joltage);
    assert (joltage + bank[p]) * 10 == 10 * acc';
    GreedyUnfold(bank, offset, i + 1);
    FoldCons(acc, bank[p], Greedy(bank, p + 1, i));
  }

  /** Accumulating a digit in front of more digits. */
  lemma FoldCons(acc: int, d: int, rest: seq<int>)
    ensures Fold(acc, [d] + rest) == Fold(10 * acc + d, rest)
  {
    assert ([d] + rest)[1..] == rest;
  }

  /** The rounds compute the joltage of the greedy choice, and raise
      exactly when the bank is shorter than the digits asked for. */
  lemma RoundsComputeJoltage(bank: seq<int>, batteryNbr: int)
    ensures Rounds(bank, 0, batteryNbr - 1, 0) == Joltage(bank, batteryNbr)
  {
    var i: nat := if batteryNbr <= 1 then 0 else batteryNbr - 1;
    assert Rounds(bank, 0, batteryNbr - 1, 0) == Rounds(bank, 0, i, 0);
    if i < |bank| {
      RoundsAreGreedy(bank, 0, i, 0, 0);
      FoldIsVal(0, Greedy(bank, 0, i + 1));
    }
  }

  /** One round as the source writes it: `max` of the slice, then one past
      its first `index`. */
  lemma RoundStep(bank: seq<int>, offset: nat, i: int, joltage: int)
    requires i > 0 && offset < |bank| - i
    ensures var window := bank[offset..|bank| - i];
      var value := SeqMax(window);
      Rounds(bank, offset, i, joltage) == Rounds(bank, offset + IndexOf(window, value) + 1, i - 1, (joltage + value) * 10)
  {
    PickIsIndexOfMax(bank, offset, |bank| - i);
    RoundsUnfold(bank, offset, i, joltage);
  }

  /** A round with digits left to pick takes the leftmost largest digit
      of its window. */
  lemma RoundsUnfold(bank: seq<int>, offset: nat, i: int, joltage: int)
    requires i > 0 && offset < |bank| - i
    ensures var p := Pick(bank, offset, |bank| - i);
      Rounds(bank, offset, i, joltage) == Rounds(bank, p + 1, i - 1, (joltage + bank[p]) * 10)
  {
  }

  /** The last digit as the source takes it: `max(bank[offset:])`. */
  lemma RoundLast(bank: seq<int>, offset: nat, i: int, joltage: int)
    requires i <= 0
    ensures Rounds(bank, offset, i, joltage) == if offset >= |bank| then None else Some(joltage + SeqMax(bank[offset..]))
  {
    if offset < |bank| {
      assert bank[offset..|bank|] == bank[offset..];
      PickIsIndexOfMax(bank, offset, |bank|);
    }
  }

  /** `get_largest_joltage`: `max` then `index` on each slice find the
      leftmost largest digit. */
  method GetLargestJoltage(bank: seq<int>, batteryNbr: int) returns (r: Option<int>)
    ensures r == Joltage(bank, batteryNbr)
  {
    RoundsComputeJoltage(bank, batteryNbr);
    var joltage := 0;
    var offset := 0;
    var i := batteryNbr - 1;
    while i > 0
      invariant 0 <= offset
      invariant Rounds(bank, offset, i, joltage) == Rounds(bank, 0, batteryNbr - 1, 0)
    {
      if |bank| - i <= offset {
        return None;
      }
      var window := bank[offset..|bank| - i];
      var value := SeqMax(window);
      RoundStep(bank, offset, i, joltage);
      offset := offset + IndexOf(window, value) + 1;
      joltage := (joltage + value) * 10;
      i := i - 1;
    }
    RoundLast(bank, offset, i, joltage);
    if offset >= |bank| {
      return None;
    }
    return Some(joltage + SeqMax(bank[offset..]));
  }

  predicate DigitAt(ds: seq<int>, k: int)
    requires 0 <= k < |ds|
  {
    0 <= ds[k] <= 9
  }

  predicate IsDigits(ds: seq<int>)
  {
    forall k :: 0 <= k < |ds| ==> DigitAt(ds, k)
  }

  lemma DigitsTail(ds: seq<int>)
    requires IsDigits(ds) && ds != []
    ensures IsDigits(ds[1..]) && 0 <= ds[0] <= 9
  {
    assert DigitAt(ds, 0);
    forall k | 0 <= k < |ds| - 1 ensures DigitAt(ds[1..], k) {
      assert DigitAt(ds, k + 1);
    }
  }

  /** A digit times 10^n stays below the next multiple of 10^n. */
  lemma DigitTimes(d: int, e: int, p: int)
    requires 0 <= d < e && p >= 1
    ensures d * p + p <= e * p
  {
    var k := e - d;
    MulAtLeast(p, k);
    assert e * p == d * p + p * k;
  }

  /** m decimal digits make a number below 10^m. */
  lemma {:induction false} ValBound(ds: seq<int>)
    requires IsDigits(ds)
    ensures 0 <= Val(ds) < Pow10(|ds|)
  {
    if ds != [] {
      var init := ds[..|ds| - 1];
      assert DigitAt(ds, |ds| - 1);
      forall k | 0 <= k < |init| ensures DigitAt(init, k) {
        assert DigitAt(ds, k);
      }
      ValBound(init);
    }
  }

  lemma {:induction false} GreedyIsDigits(bank: seq<int>, lo: nat, m: nat)
    requires IsDigits(bank) && m >= 1 && lo + m <= |bank|
    ensures IsDigits(Greedy(bank, lo, m))
    decreases m
  {
    var p := Pick(bank, lo, |bank| - m + 1);
    var g := Greedy(bank, lo, m);
    assert DigitAt(bank, p);
    if m > 1 {
      var rest := Greedy(bank, p + 1, m - 1);
      GreedyIsDigits(bank, p + 1, m - 1);
      assert g == [bank[p]] + rest;
      forall k | 0 <= k < m ensures DigitAt(g, k) {
        if k > 0 {
          assert DigitAt(rest, k - 1);
        }
      }
    }
  }

  /** idx lists positions of `bank[lo:len]` in strictly increasing order. */
  predicate Chosen(idx: seq<int>, lo: int, len: int)
    decreases |idx|
  {
    idx == [] || (lo <= idx[0] < len && Chosen(idx[1..], idx[0] + 1, len))
  }

  /** The digits at the chosen positions; positions outside the bank read
      as 0. */
  function Selected(bank: seq<int>, idx: seq<int>): (ds: seq<int>)
    ensures |ds| == |idx|
  {
    if idx == [] then []
    else [if 0 <= idx[0] < |bank| then bank[idx[0]] else 0] + Selected(bank, idx[1..])
  }

  lemma {:induction false} SelectedIsDigits(bank: seq<int>, idx: seq<int>)
    requires IsDigits(bank)
    ensures IsDigits(Selected(bank, idx))
  {
    if idx != [] {
      SelectedIsDigits(bank, idx[1..]);
      var sel, rest := Selected(bank, idx), Selected(bank, idx[1..]);
      if 0 <= idx[0] < |bank| {
        assert DigitAt(bank, idx[0]);
      }
      forall k | 0 <= k < |sel| ensures DigitAt(sel, k) {
        if k > 0 {
          assert DigitAt(rest, k - 1);
        }
      }
    }
  }

  /** m increasing positions below len start at most at len - m. */
  lemma {:induction false} ChosenFits(idx: seq<int>, lo: int, len: int)
    requires |idx| >= 1 && Chosen(idx, lo, len)
    ensures lo <= idx[0] && idx[0] + |idx| <= len
  {
    if |idx| > 1 {
      ChosenFits(idx[1..], idx[0] + 1, len);
    }
  }

  /** Among numbers with the same count of digits, a smaller leading digit
      gives a smaller number. */
  lemma LeadingDigitDecides(a: seq<int>, b: seq<int>)
    requires IsDigits(a) && IsDigits(b) && |a| == |b| >= 1
    requires a[0] < b[0]
    ensures Val(a) < Val(b)
  {
    DigitsTail(a);
    DigitsTail(b);
    ValBound(a[1..]);
    ValBound(b[1..]);
    assert a == [a[0]] + a[1..] && b == [b[0]] + b[1..];
    ValCons(a[0], a[1..]);
    ValCons(b[0], b[1..]);
    DigitTimes(a[0], b[0], Pow10(|a| - 1));
  }

  /** With equal leading digits the rest decides. */
  lemma RestDecides(a: seq<int>, b: seq<int>)
    requires |a| == |b| >= 1 && a[0] == b[0]
    requires Val(a[1..]) <= Val(b[1..])
    ensures Val(a) <= Val(b)
  {
    assert a == [a[0]] + a[1..] && b == [b[0]] + b[1..];
    ValCons(a[0], a[1..]);
    ValCons(b[0], b[1..]);
  }

  /** No choice of |idx| batteries, kept in order, beats the greedy one. */
  lemma {:induction false} GreedyIsBest(bank: seq<int>, lo: nat, idx: seq<int>)
    requires IsDigits(bank)
    requires |idx| >= 1 && Chosen(idx, lo, |bank|)
    ensures lo + |idx| <= |bank|
    ensures Val(Selected(bank, idx)) <= Val(Greedy(bank, lo, |idx|))
    decreases |idx|
  {
    ChosenFits(idx, lo, |bank|);
    var m := |idx|;
    var p := Pick(bank, lo, |bank| - m + 1);
    var d := bank[idx[0]];
    assert AtMost(bank, idx[0], bank[p]);
    var sel := Selected(bank, idx);
    var g := Greedy(bank, lo, m);
    assert sel[0] == d && g[0] == bank[p];
    if d < bank[p] {
      SelectedIsDigits(bank, idx);
      GreedyIsDigits(bank, lo, m);
      LeadingDigitDecides(sel, g);
    } else if m == 1 {
      assert sel[1..] == [] && g[1..] == [];
      RestDecides(sel, g);
    } else {
      var rest := idx[1..];
      var gRest := Greedy(bank, p + 1, m - 1);
      assert g == [bank[p]] + gRest;
      assert g[1..] == gRest;
      assert sel[1..] == Selected(bank, rest);
      assert idx[0] < p ==> Below(bank, idx[0], bank[p]);
      ChosenWider(rest, idx[0] + 1, p + 1, |bank|);
      GreedyIsBest(bank, p + 1, rest);
      RestDecides(sel, g);
    }
  }

  /** A choice from `bank[lo:]` is also one from any wider `bank[lo':]`. */
  lemma ChosenWider(idx: seq<int>, lo: int, lo': int, len: int)
    requires Chosen(idx, lo, len) && lo' <= lo
    ensures Chosen(idx, lo', len)
  {
  }

  /** The joltage the source finds is the largest number any in-order
      choice of the batteries gives. */
  lemma JoltageIsLargest(bank: seq<int>, batteryNbr: int, idx: seq<int>)
    requires IsDigits(bank)
    requires |idx| == Max(batteryNbr, 1) && Chosen(idx, 0, |bank|)
    ensures Joltage(bank, batteryNbr).Some?
    ensures Val(Selected(bank, idx)) <= Joltage(bank, batteryNbr).value
  {
    GreedyIsBest(bank, 0, idx);
  }

  /** The greedy digits are themselves an in-order choice, so the bound of
      `JoltageIsLargest` is attained. */
  lemma {:induction false} GreedyIsChosen(bank: seq<int>, lo: nat, m: nat) returns (idx: seq<int>)
    requires m >= 1 && lo + m <= |bank|
    ensures |idx| == m && Chosen(idx, lo, |bank|)
    ensures Selected(bank, idx) == Greedy(bank, lo, m)
    decreases m
  {
    var p := Pick(bank, lo, |bank| - m + 1);
    if m == 1 {
      idx := [p];
      assert idx[1..] == [];
      assert Selected(bank, idx) == [bank[p]] + Selected(bank, []);
      assert Greedy(bank, lo, m) == [bank[p]] + [];
    } else {
      var rest := GreedyIsChosen(bank, p + 1, m - 1);
      idx := [p] + rest;
      assert idx[1..] == rest;
      assert Selected(bank, idx) == [bank[p]] + Selected(bank, rest);
      assert Greedy(bank, lo, m) == [bank[p]] + Greedy(bank, p + 1, m - 1);
    }
  }

  /** `part_one` and `part_two`: the joltages of all banks with 2 and with
      12 batteries, None if any bank raises.  The total succeeds exactly
      when every bank has at least as many batteries as asked for. */
  function TotalJoltage(banks: seq<seq<int>>, batteryNbr: int): (r: Option<int>)
    ensures r.Some? <==> forall k :: 0 <= k < |banks| ==> LongEnough(banks, k, batteryNbr)
  {
    if banks == [] then Some(0)
    else
      var init := banks[..|banks| - 1];
      assert forall k :: 0 <= k < |init| ==> LongEnough(init, k, batteryNbr) == LongEnough(banks, k, batteryNbr);
      var total := TotalJoltage(init, batteryNbr);
      var last := Joltage(banks[|banks| - 1], batteryNbr);
      assert last.None? <==> !LongEnough(banks, |banks| - 1, batteryNbr);
      if total.None? || last.None? then None else Some(total.value + last.value)
  }

  /** Bank k has enough batteries. */
  predicate LongEnough(banks: seq<seq<int>>, k: int, batteryNbr: int)
    requires 0 <= k < |banks|
  {
    |banks[k]| >= Max(batteryNbr, 1)
  }
}
