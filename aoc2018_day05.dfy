/** Polymer reduction: units are character codes, and two adjacent units
    whose codes differ by exactly 32 (the same letter in opposite case)
    annihilate. */
module Aoc2018Day05 {
  import opened Common

  /** Two units react when their codes differ by 32. */
  predicate Reacts(a: int, b: int)
  {
    Abs(a - b) == 32
  }

  /** One iteration of the stack loop: pop when the unit reacts with the
      top, push otherwise. */
  function Push(stack: seq<int>, unit: int): seq<int>
  {
    if |stack| > 0 && Reacts(stack[|stack| - 1], unit) then stack[..|stack| - 1]
    else stack + [unit]
  }

  /** The stack after processing all of `polymer` left to right. */
  function Reduce(polymer: seq<int>): seq<int>
  {
    if polymer == [] then [] else Push(Reduce(polymer[..|polymer| - 1]), polymer[|polymer| - 1])
  }

  /** No two adjacent units react. */
  predicate Reduced(s: seq<int>)
  {
    forall i :: 0 <= i < |s| - 1 ==> !Reacts(s[i], s[i + 1])
  }

  /** `part_one`: the length of the reduced polymer. */
  method PartOne(initialPolymer: seq<int>) returns (r: nat)
    ensures r == |Reduce(initialPolymer)|
  {
    var stack: seq<int> := [];
    for i := 0 to |initialPolymer|
      invariant stack == Reduce(initialPolymer[..i])
    {
      var unit := initialPolymer[i];
      assert initialPolymer[..i + 1][..i] == initialPolymer[..i];
      if |stack| > 0 && Abs(stack[|stack| - 1] - unit) == 32 {
        stack := stack[..|stack| - 1];
      } else {
        stack := stack + [unit];
      }
    }
    assert initialPolymer[..|initialPolymer|] == initialPolymer;
    return |stack|;
  }

  /** The stack never holds an adjacent reacting pair. */
  lemma {:induction false} ReduceIsReduced(polymer: seq<int>)
    ensures Reduced(Reduce(polymer))
  {
    if polymer != [] {
      ReduceIsReduced(polymer[..|polymer| - 1]);
    }
  }

  /** Reduction removes units in pairs: the result is no longer than the
      input and has the same parity. */
  lemma {:induction false} ReduceLength(polymer: seq<int>)
    ensures |Reduce(polymer)| <= |polymer|
    ensures (|polymer| - |Reduce(polymer)|) % 2 == 0
  {
    if polymer != [] {
      ReduceLength(polymer[..|polymer| - 1]);
    }
  }

  /** A polymer without reacting neighbours is left as it is. */
  lemma {:induction false} ReducedIsFixed(s: seq<int>)
    requires Reduced(s)
    ensures Reduce(s) == s
  {
    if s != [] {
      var init := s[..|s| - 1];
      assert Reduced(init);
      ReducedIsFixed(init);
      assert init + [s[|s| - 1]] == s;
    }
  }

  /** Reducing twice is reducing once. */
  lemma ReduceIdempotent(polymer: seq<int>)
    ensures Reduce(Reduce(polymer)) == Reduce(polymer)
  {
    ReduceIsReduced(polymer);
    ReducedIsFixed(Reduce(polymer));
  }

  /** `[u for u in polymer if u not in (unit, unit + 32)]`. */
  function Trim(polymer: seq<int>, unit: int): (r: seq<int>)
    ensures |r| <= |polymer|
    ensures forall i :: 0 <= i < |r| ==> r[i] != unit && r[i] != unit + 32
    ensures forall x :: x in polymer && x != unit && x != unit + 32 ==> x in r
    ensures forall x :: x in r ==> x in polymer
  {
    if polymer == [] then []
    else
      var rest := Trim(polymer[1..], unit);
      assert forall x :: x in polymer ==> x == polymer[0] || x in polymer[1..];
      if polymer[0] == unit || polymer[0] == unit + 32 then rest else [polymer[0]] + rest
  }

  /** Length of the reduced polymer once `unit` is removed. */
  function TrimmedLength(polymer: seq<int>, unit: int): nat
  {
    |Reduce(Trim(polymer, unit))|
  }

  /** The running minimum of `part_two` after trying the units 'A' up to
      (excluding) `hi`, folded as the source folds it: min(result, smallest). */
  function Shortest(polymer: seq<int>, hi: int): nat
    requires hi > 'A' as int
    decreases hi
  {
    if hi == 'A' as int + 1 then TrimmedLength(polymer, 'A' as int)
    else Min(TrimmedLength(polymer, hi - 1), Shortest(polymer, hi - 1))
  }

  /** The running minimum is no longer than any candidate tried. */
  lemma {:induction false} ShortestIsLowerBound(polymer: seq<int>, hi: int, u: int)
    requires 'A' as int <= u < hi
    ensures Shortest(polymer, hi) <= TrimmedLength(polymer, u)
    decreases hi
  {
    if hi > 'A' as int + 1 && u < hi - 1 {
      ShortestIsLowerBound(polymer, hi - 1, u);
    }
  }

  /** The running minimum is the length for one of the candidates. */
  lemma {:induction false} ShortestIsAttained(polymer: seq<int>, hi: int) returns (u: int)
    requires hi > 'A' as int
    ensures 'A' as int <= u < hi && Shortest(polymer, hi) == TrimmedLength(polymer, u)
    decreases hi
  {
    if hi == 'A' as int + 1 {
      u := 'A' as int;
    } else if TrimmedLength(polymer, hi - 1) <= Shortest(polymer, hi - 1) {
      u := hi - 1;
    } else {
      u := ShortestIsAttained(polymer, hi - 1);
    }
  }

  /** `part_two`: the shortest reduction after removing one letter A..Z in
      both cases.  The source starts from infinity, modelled as None. */
  method PartTwo(initialPolymer: seq<int>) returns (r: int)
    ensures r == Shortest(initialPolymer, 'Z' as int + 1)
  {
    var smallestPolymer: Option<int> := None;
    for unit := 'A' as int to 'Z' as int + 1
      invariant smallestPolymer == if unit == 'A' as int then None else Some(Shortest(initialPolymer, unit))
    {
      var trimmedPolymer := Trim(initialPolymer, unit);
      var result := PartOne(trimmedPolymer);
      smallestPolymer := match smallestPolymer
        case None => Some(result)
        case Some(v) => Some(Min(result, v));
    }
    r := smallestPolymer.value;
  }

  /** `part_two` finds the best letter to remove: its answer is the
      reduced length for some letter, and no letter does better. */
  lemma PartTwoIsBest(polymer: seq<int>)
    ensures exists u :: 'A' as int <= u <= 'Z' as int && Shortest(polymer, 'Z' as int + 1) == TrimmedLength(polymer, u)
    ensures forall u :: 'A' as int <= u <= 'Z' as int ==> Shortest(polymer, 'Z' as int + 1) <= TrimmedLength(polymer, u)
  {
    var w := ShortestIsAttained(polymer, 'Z' as int + 1);
    forall u | 'A' as int <= u <= 'Z' as int
      ensures Shortest(polymer, 'Z' as int + 1) <= TrimmedLength(polymer, u)
    {
      ShortestIsLowerBound(polymer, 'Z' as int + 1, u);
    }
  }
}
