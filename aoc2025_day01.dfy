/** The safe dial: a dial numbered 0..99 starts at 50 and turns by each
    rotation of the document (negative values turn left).  Part one counts
    the rotations that stop on 0; part two counts every click that lands
    on 0. */
module Aoc2025Day01 {
  import opened Common

  /** `(dial + value) % 100`: Python's `%` floors, which for the divisor 100
      is Dafny's Euclidean remainder. */
  function Turn(dial: int, value: int): (d: int)
    ensures 0 <= d < 100
  {
    (dial + value) % 100
  }

  /** The dial after every rotation of the document. */
  function DialAfter(document: seq<int>): (d: int)
    ensures 0 <= d < 100
  {
    if document == [] then 50 else Turn(DialAfter(document[..|document| - 1]), document[|document| - 1])
  }

  /** Taking the remainder early does not change the final remainder. */
  lemma TurnTwice(a: int, b: int)
    ensures (a % 100 + b) % 100 == (a + b) % 100
  {
    var q, m := (a % 100 + b) / 100, (a % 100 + b) % 100;
    assert a + b == 100 * (a / 100 + q) + m;
    ModUnique(a + b, 100, a / 100 + q, m);
  }

  /** The dial is 50 plus the sum of all rotations, modulo 100. */
  lemma {:induction false} DialAfterIsSum(document: seq<int>)
    ensures DialAfter(document) == (50 + Sum(document)) % 100
  {
    if document != [] {
      var init := document[..|document| - 1];
      DialAfterIsSum(init);
      TurnTwice(50 + Sum(init), document[|document| - 1]);
    }
  }

  /** How many rotations stop on 0. */
  function ZeroStops(document: seq<int>): (r: nat)
    ensures r <= |document|
  {
    if document == [] then 0
    else ZeroStops(document[..|document| - 1]) + (if DialAfter(document) == 0 then 1 else 0)
  }

  /** `part_one`. */
  method PartOne(document: seq<int>) returns (password: nat)
    ensures password == ZeroStops(document)
  {
    var dial := 50;
    password := 0;
    for i := 0 to |document|
      invariant dial == DialAfter(document[..i])
      invariant password == ZeroStops(document[..i])
    {
      assert document[..i + 1][..i] == document[..i];
      dial := (dial + document[i]) % 100;
      if dial == 0 {
        password := password + 1;
      }
    }
    assert document[..|document|] == document;
  }

  /** How many of the first n single clicks, each moving the dial by
      `modifier`, land on 0. */
  function Hits(dial: int, modifier: int, n: nat): nat
  {
    if n == 0 then 0 else Hits(dial, modifier, n - 1) + (if (dial + modifier * n) % 100 == 0 then 1 else 0)
  }

  /** `-1 if value < 0 else 1`. */
  function Modifier(value: int): int
  {
    if value < 0 then -1 else 1
  }

  /** How many clicks over the whole document land on 0. */
  function ZeroClicks(document: seq<int>): nat
  {
    if document == [] then 0
    else
      var init, value := document[..|document| - 1], document[|document| - 1];
      ZeroClicks(init) + Hits(DialAfter(init), Modifier(value), Abs(value))
  }

  /** The clicks of one rotation, counted one at a time. */
  method Clicks(start: int, value: int) returns (dial: int, hits: nat)
    requires 0 <= start < 100
    ensures dial == Turn(start, value)
    ensures hits == Hits(start, Modifier(value), Abs(value))
  {
    var modifier := Modifier(value);
    dial, hits := start, 0;
    for j := 0 to Abs(value)
      invariant dial == (start + modifier * j) % 100
      invariant hits == Hits(start, modifier, j)
    {
      TurnTwice(start + modifier * j, modifier);
      dial := (dial + modifier) % 100;
      if dial == 0 {
        hits := hits + 1;
      }
    }
    assert modifier * Abs(value) == value;
  }

  /** `part_two`. */
  method PartTwo(document: seq<int>) returns (password: nat)
    ensures password == ZeroClicks(document)
  {
    var dial := 50;
    password := 0;
    for i := 0 to |document|
      invariant dial == DialAfter(document[..i])
      invariant password == ZeroClicks(document[..i])
    {
      assert document[..i + 1][..i] == document[..i];
      var hits;
      dial, hits := Clicks(dial, document[i]);
      password := password + hits;
    }
    assert document[..|document|] == document;
  }

  /** Moving from x - 1 to x crosses a multiple of 100 exactly when x is
      one. */
  lemma StepDiv(x: int)
    ensures x / 100 - (x - 1) / 100 == if x % 100 == 0 then 1 else 0
  {
    var q, r := (x - 1) / 100, (x - 1) % 100;
    if r == 99 {
      ModUnique(x, 100, q + 1, 0);
    } else {
      ModUnique(x, 100, q, r + 1);
    }
  }

  /** Clicks to the right land on 0 once for each multiple of 100 in
      dial + 1 .. dial + n. */
  lemma {:induction false} HitsRight(dial: int, n: nat)
    ensures Hits(dial, 1, n) == (dial + n) / 100 - dial / 100
  {
    if n > 0 {
      HitsRight(dial, n - 1);
      StepDiv(dial + n);
    }
  }

  /** Clicks to the left land on 0 once for each multiple of 100 in
      dial - n .. dial - 1. */
  lemma {:induction false} HitsLeft(dial: int, n: nat)
    ensures Hits(dial, -1, n) == (dial - 1) / 100 - (dial - n - 1) / 100
  {
    if n > 0 {
      HitsLeft(dial, n - 1);
      StepDiv(dial - n);
    }
  }

  /** A rotation that stops on 0 has its last click land on 0, so without
      empty rotations part two counts at least what part one counts.  (An
      empty rotation while the dial shows 0 counts for part one only.) */
  lemma {:induction false} ZeroStopsAtMostZeroClicks(document: seq<int>)
    requires forall k :: 0 <= k < |document| ==> document[k] != 0
    ensures ZeroStops(document) <= ZeroClicks(document)
  {
    if document != [] {
      var init, value := document[..|document| - 1], document[|document| - 1];
      ZeroStopsAtMostZeroClicks(init);
      var d := DialAfter(init);
      assert Modifier(value) * Abs(value) == value;
      assert Hits(d, Modifier(value), Abs(value)) >= if (d + value) % 100 == 0 then 1 else 0;
    }
  }

  /** An empty rotation while the dial shows 0 is counted by part one and
      not by part two. */
  lemma EmptyRotationOnZero(document: seq<int>)
    requires DialAfter(document) == 0
    ensures ZeroStops(document + [0]) == ZeroStops(document) + 1
    ensures ZeroClicks(document + [0]) == ZeroClicks(document)
  {
    assert (document + [0])[..|document|] == document;
  }
}
