/** Password rules: read left to right, the characters of the number never
    decrease and two adjacent ones are equal; the stricter rule wants a run
    of exactly two equal characters. */
module Aoc2019Day04 {

  /** The decimal digit of 0 <= d < 10. */
  function DigitChar(d: int): char
    requires 0 <= d < 10
  {
    ('0' as int + d) as char
  }

  predicate IsDigit(c: char)
  {
    '0' <= c <= '9'
  }

  /** The decimal digits of a natural number, most significant first. */
  function Digits(n: nat): (s: seq<char>)
    ensures |s| >= 1
    ensures forall k :: 0 <= k < |s| ==> IsDigit(s[k])
    ensures n >= 10 ==> s[0] != '0'
  {
    if n < 10 then [DigitChar(n)] else Digits(n / 10) + [DigitChar(n % 10)]
  }

  /** The number a string of decimal digits denotes. */
  function Value(s: seq<char>): nat
    requires forall k :: 0 <= k < |s| ==> IsDigit(s[k])
  {
    if s == [] then 0
    else
      assert IsDigit(s[|s| - 1]);
      10 * Value(s[..|s| - 1]) + (s[|s| - 1] as int - '0' as int)
  }

  /** The digits read back give the number. */
  lemma {:induction false} DigitsValue(n: nat)
    ensures Value(Digits(n)) == n
  {
    if n >= 10 {
      var s := Digits(n);
      assert s[..|s| - 1] == Digits(n / 10);
      DigitsValue(n / 10);
    }
  }

  /** `str(number)`: a minus sign before the digits of a negative number. */
  function Str(number: int): (s: seq<char>)
    ensures |s| >= 1
  {
    if number < 0 then ['-'] + Digits(-number) else Digits(number)
  }

  /** Characters k and k + 1 do not decrease. */
  predicate UpAt(s: seq<char>, k: int)
    requires 0 <= k < |s| - 1
  {
    s[k] <= s[k + 1]
  }

  /** Characters k and k + 1 are equal. */
  predicate PairAt(s: seq<char>, k: int)
    requires 0 <= k < |s| - 1
  {
    s[k] == s[k + 1]
  }

  predicate NonDecreasing(s: seq<char>)
  {
    forall k :: 0 <= k < |s| - 1 ==> UpAt(s, k)
  }

  /** What `is_number_valid_p1` decides about `str(number)`. */
  predicate ValidP1(s: seq<char>)
  {
    NonDecreasing(s) && exists k :: 0 <= k < |s| - 1 && PairAt(s, k)
  }

  /** `is_number_valid_p1`: one pass over the adjacent characters, stopping
      at the first decrease. */
  method IsNumberValidP1(number: int) returns (b: bool)
    ensures b == ValidP1(Str(number))
  {
    var s := Str(number);
    var hasPair := false;
    for i := 0 to |s| - 1
      invariant forall k :: 0 <= k < i ==> UpAt(s, k)
      invariant hasPair == exists k :: 0 <= k < i && PairAt(s, k)
    {
      var a, c := s[i], s[i + 1];
      assert UpAt(s, i) == (c >= a) && PairAt(s, i) == (a == c);
      if c < a {
        return false;
      }
      if a == c {
        hasPair := true;
      }
    }
    return hasPair;
  }

  /** How many equal adjacent pairs end at character i, counting backwards
      until the first unequal pair: `repeat_count` after i pairs. */
  function RunLength(s: seq<char>, i: int): (r: nat)
    requires 0 <= i < |s|
    ensures r <= i
  {
    if i == 0 || s[i - 1] != s[i] then 0 else RunLength(s, i - 1) + 1
  }

  /** Characters k and k + 1 are equal and neither neighbour equals them:
      a run of exactly two. */
  predicate ExactPairAt(s: seq<char>, k: int)
    requires 0 <= k < |s| - 1
  {
    s[k] == s[k + 1] && (k == 0 || s[k - 1] != s[k]) && (k + 2 == |s| || s[k + 1] != s[k + 2])
  }

  /** What `is_number_valid_p2` decides about `str(number)`. */
  predicate ValidP2(s: seq<char>)
  {
    NonDecreasing(s) && exists k :: 0 <= k < |s| - 1 && ExactPairAt(s, k)
  }

  /** A run length of exactly one at k + 1 is a pair at k with an unequal
      left neighbour. */
  lemma RunLengthOne(s: seq<char>, k: int)
    requires 0 <= k < |s| - 1
    ensures RunLength(s, k + 1) == 1 <==> s[k] == s[k + 1] && (k == 0 || s[k - 1] != s[k])
  {
    if k > 0 && s[k] == s[k + 1] && s[k - 1] == s[k] {
      assert RunLength(s, k) >= 1;
    }
  }

  /** `is_number_valid_p2`: the same pass, counting the current run of
      equal pairs and noting a run that ended after exactly one pair. */
  method IsNumberValidP2(number: int) returns (b: bool)
    ensures b == ValidP2(Str(number))
  {
    var s := Str(number);
    var hasPair := false;
    var repeatCount := 0;
    for i := 0 to |s| - 1
      invariant forall k :: 0 <= k < i ==> UpAt(s, k)
      invariant repeatCount == RunLength(s, i)
      invariant hasPair == exists k :: 0 <= k && k + 1 < i && ExactPairAt(s, k)
    {
      var a, c := s[i], s[i + 1];
      assert UpAt(s, i) == (c >= a);
      if c < a {
        return false;
      }
      if a == c {
        repeatCount := repeatCount + 1;
        if i > 0 {
          assert !ExactPairAt(s, i - 1);
        }
      } else {
        if i > 0 {
          RunLengthOne(s, i - 1);
          assert ExactPairAt(s, i - 1) == (repeatCount == 1);
        }
        if repeatCount == 1 {
          hasPair := true;
        }
        repeatCount := 0;
      }
    }
    var n := |s|;
    if n >= 2 {
      RunLengthOne(s, n - 2);
      assert ExactPairAt(s, n - 2) == (repeatCount == 1);
    }
    if repeatCount == 1 {
      hasPair := true;
    }
    return hasPair;
  }

  /** The stricter rule implies the first one. */
  lemma ValidP2ImpliesP1(s: seq<char>)
    requires ValidP2(s)
    ensures ValidP1(s)
  {
    var k :| 0 <= k < |s| - 1 && ExactPairAt(s, k);
    assert PairAt(s, k);
  }

  /** A leading minus sign sorts below every digit and equals none, so a
      negative number passes either rule exactly when its absolute value
      does. */
  lemma NegativeLikePositive(n: int)
    requires n > 0
    ensures ValidP1(Str(-n)) <==> ValidP1(Str(n))
    ensures ValidP2(Str(-n)) <==> ValidP2(Str(n))
  {
    var d := Digits(n);
    assert Str(-n) == ['-'] + d;
    MinusKeepsOrder(d);
    MinusKeepsPairs(d);
    MinusKeepsExactPairs(d);
  }

  lemma MinusKeepsOrder(d: seq<char>)
    requires |d| >= 1 && IsDigit(d[0])
    ensures NonDecreasing(['-'] + d) <==> NonDecreasing(d)
  {
    var s := ['-'] + d;
    assert UpAt(s, 0);
    if NonDecreasing(s) {
      forall k | 0 <= k < |d| - 1 ensures UpAt(d, k) {
        assert UpAt(s, k + 1);
      }
    }
    if NonDecreasing(d) {
      forall k | 1 <= k < |s| - 1 ensures UpAt(s, k) {
        assert UpAt(d, k - 1);
      }
    }
  }

  lemma MinusKeepsPairs(d: seq<char>)
    requires |d| >= 1 && IsDigit(d[0])
    ensures (exists k :: 0 <= k < |d| && PairAt(['-'] + d, k)) <==> (exists k :: 0 <= k < |d| - 1 && PairAt(d, k))
  {
    var s := ['-'] + d;
    if exists k :: 0 <= k < |d| && PairAt(s, k) {
      var k :| 0 <= k < |d| && PairAt(s, k);
      assert k != 0;
      assert PairAt(d, k - 1);
    }
    if exists k :: 0 <= k < |d| - 1 && PairAt(d, k) {
      var k :| 0 <= k < |d| - 1 && PairAt(d, k);
      assert PairAt(s, k + 1);
    }
  }

  lemma MinusKeepsExactPairs(d: seq<char>)
    requires |d| >= 1 && IsDigit(d[0])
    ensures (exists k :: 0 <= k < |d| && ExactPairAt(['-'] + d, k)) <==> (exists k :: 0 <= k < |d| - 1 && ExactPairAt(d, k))
  {
    var s := ['-'] + d;
    if exists k :: 0 <= k < |d| && ExactPairAt(s, k) {
      var k :| 0 <= k < |d| && ExactPairAt(s, k);
      assert k != 0;
      assert ExactPairAt(d, k - 1);
    }
    if exists k :: 0 <= k < |d| - 1 && ExactPairAt(d, k) {
      var k :| 0 <= k < |d| - 1 && ExactPairAt(d, k);
      assert ExactPairAt(s, k + 1);
    }
  }

  /** How many numbers of start..end (both included) satisfy p. */
  function Count(p: int -> bool, start: int, end: int): (r: nat)
    ensures end < start ==> r == 0
    ensures r <= end - start + 1 || end < start
    decreases end - start
  {
    if end < start then 0 else Count(p, start, end - 1) + (if p(end) then 1 else 0)
  }

  /** Counts add up over adjacent ranges. */
  lemma {:induction false} CountSplit(p: int -> bool, start: int, mid: int, end: int)
    requires start <= mid <= end
    ensures Count(p, start, end) == Count(p, start, mid) + Count(p, mid + 1, end)
    decreases end - mid
  {
    if end > mid {
      CountSplit(p, start, mid, end - 1);
    }
  }

  /** A weaker test never counts fewer numbers. */
  lemma {:induction false} CountMonotone(p: int -> bool, q: int -> bool, start: int, end: int)
    requires forall n :: p(n) ==> q(n)
    ensures Count(p, start, end) <= Count(q, start, end)
    decreases end - start
  {
    if end >= start {
      CountMonotone(p, q, start, end - 1);
    }
  }

  predicate NumberValidP1(number: int)
  {
    ValidP1(Str(number))
  }

  predicate NumberValidP2(number: int)
  {
    ValidP2(Str(number))
  }

  /** The numbers of start..end that pass the test. */
  ghost function Passing(p: int -> bool, start: int, end: int): set<int>
  {
    set n | start <= n <= end && p(n)
  }

  /** The count is the number of passing numbers of the range. */
  lemma {:induction false} CountIsPassing(p: int -> bool, start: int, end: int)
    ensures Count(p, start, end) == |Passing(p, start, end)|
    decreases end - start
  {
    if end < start {
      assert Passing(p, start, end) == {};
    } else {
      CountIsPassing(p, start, end - 1);
      if p(end) {
        assert Passing(p, start, end) == Passing(p, start, end - 1) + {end};
      } else {
        assert Passing(p, start, end) == Passing(p, start, end - 1);
      }
    }
  }

  /** `part_one`: how many numbers of start..end (both included) pass. */
  function PartOne(start: int, end: int): (r: nat)
    ensures r == |Passing(NumberValidP1, start, end)|
  {
    CountIsPassing(NumberValidP1, start, end);
    Count(NumberValidP1, start, end)
  }

  /** `part_two`: how many numbers of start..end pass the stricter rule. */
  function PartTwo(start: int, end: int): (r: nat)
    ensures r == |Passing(NumberValidP2, start, end)|
  {
    CountIsPassing(NumberValidP2, start, end);
    Count(NumberValidP2, start, end)
  }

  /** The stricter rule never admits more passwords. */
  lemma PartTwoAtMostPartOne(start: int, end: int)
    ensures PartTwo(start, end) <= PartOne(start, end)
  {
    forall n | NumberValidP2(n) ensures NumberValidP1(n) {
      ValidP2ImpliesP1(Str(n));
    }
    CountMonotone(NumberValidP2, NumberValidP1, start, end);
  }
}
