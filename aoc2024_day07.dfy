/** Bridge calibration: an equation holds when some choice of operators,
    evaluated left to right, turns its values into the target.  Part one
    may add or multiply; part two may also concatenate decimal digits. */
module Aoc2024Day07 {
  import opened Common

  datatype Equation = Equation(target: int, values: seq<int>)

  /** The number of decimal digits of b. */
  function NumDigits(b: nat): (r: nat)
    ensures r >= 1
    ensures b < Pow10(r)
    ensures r > 1 ==> Pow10(r - 1) <= b
  {
    if b < 10 then 1 else NumDigits(b / 10) + 1
  }

  /** `format!("{}{}", a, b).parse()` for b >= 0: the digits of b written
      after those of a, which keeps a's sign. */
  function Concat(a: int, b: nat): (r: int)
    ensures var p := Pow10(NumDigits(b));
      (a >= 0 ==> a * p <= r < (a + 1) * p) && (a < 0 ==> (a - 1) * p < r <= a * p)
  {
    var p := Pow10(NumDigits(b));
    assert (a + 1) * p == a * p + p && (a - 1) * p == a * p - p;
    if a >= 0 then a * p + b else a * p - b
  }

  /** Concatenation can be undone: dividing by a power of ten gives a back
      and the remainder gives b. */
  lemma ConcatSplits(a: nat, b: nat)
    ensures Concat(a, b) / Pow10(NumDigits(b)) == a
    ensures Concat(a, b) % Pow10(NumDigits(b)) == b
  {
    var p := Pow10(NumDigits(b));
    assert Concat(a, b) == p * a + b;
    ModUnique(Concat(a, b), p, a, b);
  }

  /** A leading zero vanishes when parsed: "0" followed by b reads b. */
  lemma ConcatZero(b: nat)
    ensures Concat(0, b) == b
  {
  }

  predicate NonNegative(values: seq<int>)
  {
    forall k :: 0 <= k < |values| ==> values[k] >= 0
  }

  /** `is_solvable`: try addition, then multiplication, then (in part two)
      concatenation of the next value onto the accumulator.  The source
      panics when it concatenates a negative value, so concatenation is
      only modelled for non-negative values. */
  function IsSolvable(target: int, values: seq<int>, accumulator: int, useConcatenation: bool): (r: bool)
    requires useConcatenation ==> NonNegative(values)
    ensures r <==> target in Results(values, accumulator, useConcatenation)
  {
    if values == [] then accumulator == target
    else
      var next, rest := values[0], values[1..];
      IsSolvable(target, rest, accumulator + next, useConcatenation)
      || IsSolvable(target, rest, accumulator * next, useConcatenation)
      || (useConcatenation && IsSolvable(target, rest, Concat(accumulator, next), useConcatenation))
  }

  /** Every value a left-to-right evaluation of the values can produce,
      starting from the accumulator. */
  function Results(values: seq<int>, accumulator: int, useConcatenation: bool): set<int>
    requires useConcatenation ==> NonNegative(values)
  {
    if values == [] then {accumulator}
    else
      var next, rest := values[0], values[1..];
      Results(rest, accumulator + next, useConcatenation)
      + Results(rest, accumulator * next, useConcatenation)
      + (if useConcatenation then Results(rest, Concat(accumulator, next), useConcatenation) else {})
  }

  /** Allowing concatenation only adds results. */
  lemma {:induction false} ConcatenationOnlyAdds(values: seq<int>, accumulator: int)
    requires NonNegative(values)
    ensures Results(values, accumulator, false) <= Results(values, accumulator, true)
  {
    if values != [] {
      var next, rest := values[0], values[1..];
      ConcatenationOnlyAdds(rest, accumulator + next);
      ConcatenationOnlyAdds(rest, accumulator * next);
    }
  }

  /** An equation that holds with addition and multiplication still holds
      when concatenation is allowed. */
  lemma SolvableWithConcatenation(target: int, values: seq<int>, accumulator: int)
    requires NonNegative(values)
    requires IsSolvable(target, values, accumulator, false)
    ensures IsSolvable(target, values, accumulator, true)
  {
    ConcatenationOnlyAdds(values, accumulator);
  }

  /** With a single value and an accumulator of 0, the first operator
      either keeps the value (0 + v, and in part two "0v") or zeroes it
      (0 * v). */
  lemma FirstValue(target: int, v: int, useConcatenation: bool)
    requires useConcatenation ==> v >= 0
    ensures IsSolvable(target, [v], 0, useConcatenation) <==> target == v || target == 0
  {
    assert [v][1..] == [];
    if useConcatenation {
      ConcatZero(v);
    }
  }

  predicate AllNonNegative(equations: seq<Equation>)
  {
    forall k :: 0 <= k < |equations| ==> NonNegative(equations[k].values)
  }

  /** `part_one`: the sum of the targets of the equations that hold with
      addition and multiplication. */
  function PartOne(equations: seq<Equation>): (r: int)
    ensures NonNegativeTargets(equations) ==> r >= 0
    ensures (forall k :: 0 <= k < |equations| ==>
      !IsSolvable(equations[k].target, equations[k].values, 0, false)) ==> r == 0
  {
    if equations == [] then 0
    else
      var init, e := equations[..|equations| - 1], equations[|equations| - 1];
      assert forall k :: 0 <= k < |init| ==> init[k] == equations[k];
      PartOne(init) + (if IsSolvable(e.target, e.values, 0, false) then e.target else 0)
  }

  predicate NonNegativeTargets(equations: seq<Equation>)
  {
    forall k :: 0 <= k < |equations| ==> equations[k].target >= 0
  }

  /** `part_two`: the same with concatenation allowed.  With non-negative
      targets its sum is at least part one's, since every equation part one
      counts still holds. */
  function PartTwo(equations: seq<Equation>): (r: int)
    requires AllNonNegative(equations)
    ensures NonNegativeTargets(equations) ==> r >= PartOne(equations)
  {
    if equations == [] then 0
    else
      var init, e := equations[..|equations| - 1], equations[|equations| - 1];
      assert forall k :: 0 <= k < |init| ==> init[k] == equations[k];
      assert IsSolvable(e.target, e.values, 0, false) ==> IsSolvable(e.target, e.values, 0, true) by {
        if IsSolvable(e.target, e.values, 0, false) {
          SolvableWithConcatenation(e.target, e.values, 0);
        }
      }
      PartTwo(init) + (if IsSolvable(e.target, e.values, 0, true) then e.target else 0)
  }
}
