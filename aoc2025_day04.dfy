/** Printing department (2025, day 4): a grid of paper rolls (1) and
    empty floor (0).  A roll is accessible when its eight neighbours hold
    fewer than four rolls.  Part one counts the accessible rolls; part two
    removes them round after round, until none is accessible, and counts
    every roll removed. */
module Aoc2025Day04 {
  datatype Point = Point(x: int, y: int)

  /** The grid as a value: every row as long as the first. */
  predicate Rectangular(g: seq<seq<int>>)
  {
    forall y :: 0 <= y < |g| ==> |g[y]| == |g[0]|
  }

  function Width(g: seq<seq<int>>): nat
  {
    if |g| == 0 then 0 else |g[0]|
  }

  predicate InGrid(g: seq<seq<int>>, x: int, y: int)
  {
    0 <= x < Width(g) && 0 <= y < |g|
  }

  /** The value at (x, y), or nothing off the grid. */
  function Cell(g: seq<seq<int>>, x: int, y: int): int
    requires Rectangular(g)
  {
    if InGrid(g, x, y) then g[y][x] else 0
  }

  /** The offsets both loops of `is_accessible` run through. */
  const Delta: seq<int> := [-1, 0, 1]

  /** The nine (dx, dy) pairs in the order of the two loops, dx outer. */
  const Offsets: seq<(int, int)> :=
    [(-1, -1), (-1, 0), (-1, 1), (0, -1), (0, 0), (0, 1), (1, -1), (1, 0), (1, 1)]

  /** The values of the first `k` of the nine offsets, the roll itself
      skipped. */
  function NeighbourSum(g: seq<seq<int>>, p: Point, k: nat): int
    requires Rectangular(g) && k <= 9
  {
    if k == 0 then 0
    else
      NeighbourSum(g, p, k - 1)
        + (if k - 1 == 4 then 0 else Cell(g, p.x + Offsets[k - 1].0, p.y + Offsets[k - 1].1))
  }

  /** `is_accessible`: fewer than four neighbouring rolls. */
  predicate Accessible(g: seq<seq<int>>, p: Point)
    requires Rectangular(g)
  {
    NeighbourSum(g, p, 9) < 4
  }

  /** The three cells of row y around column x. */
  function RowOfThree(g: seq<seq<int>>, x: int, y: int): int
    requires Rectangular(g)
  {
    Cell(g, x - 1, y) + Cell(g, x, y) + Cell(g, x + 1, y)
  }

  /** The neighbour total is the total of the three-by-three block
      around the roll, row by row, less the roll's own cell: the column
      by column order of the loops does not matter. */
  lemma NeighbourSumIsBlock(g: seq<seq<int>>, p: Point)
    requires Rectangular(g)
    ensures NeighbourSum(g, p, 9) ==
      RowOfThree(g, p.x, p.y - 1) + RowOfThree(g, p.x, p.y) + RowOfThree(g, p.x, p.y + 1)
        - Cell(g, p.x, p.y)
  {
    assert NeighbourSum(g, p, 1) == Cell(g, p.x - 1, p.y - 1);
    assert NeighbourSum(g, p, 2) == NeighbourSum(g, p, 1) + Cell(g, p.x - 1, p.y);
    assert NeighbourSum(g, p, 3) == NeighbourSum(g, p, 2) + Cell(g, p.x - 1, p.y + 1);
    assert NeighbourSum(g, p, 4) == NeighbourSum(g, p, 3) + Cell(g, p.x, p.y - 1);
    assert NeighbourSum(g, p, 5) == NeighbourSum(g, p, 4);
    assert NeighbourSum(g, p, 6) == NeighbourSum(g, p, 5) + Cell(g, p.x, p.y + 1);
    assert NeighbourSum(g, p, 7) == NeighbourSum(g, p, 6) + Cell(g, p.x + 1, p.y - 1);
    assert NeighbourSum(g, p, 8) == NeighbourSum(g, p, 7) + Cell(g, p.x + 1, p.y);
  }

  /** One offset more: the step the inner loop of `is_accessible` takes. */
  lemma NeighbourStep(g: seq<seq<int>>, p: Point, i: nat, j: nat)
    requires Rectangular(g) && i < 3 && j < 3
    ensures NeighbourSum(g, p, 3 * i + j + 1) == NeighbourSum(g, p, 3 * i + j)
      + (if i == 1 && j == 1 then 0 else Cell(g, p.x + Delta[i], p.y + Delta[j]))
  {
    assert Offsets[3 * i + j] == (Delta[i], Delta[j]) by {
      assert i == 0 || i == 1 || i == 2;
      assert j == 0 || j == 1 || j == 2;
    }
  }

  /** Every cell is a roll or empty, as the input is read. */
  predicate Binary(g: seq<seq<int>>)
  {
    forall y, x :: 0 <= y < |g| && 0 <= x < |g[y]| ==> g[y][x] == 0 || g[y][x] == 1
  }

  /** The number of rolls among the first `k` offsets, the roll itself
      skipped: the count the rule is stated with. */
  function NeighbourRolls(g: seq<seq<int>>, p: Point, k: nat): nat
    requires Rectangular(g) && k <= 9
  {
    if k == 0 then 0
    else
      NeighbourRolls(g, p, k - 1)
        + (if k - 1 != 4 && Cell(g, p.x + Offsets[k - 1].0, p.y + Offsets[k - 1].1) == 1 then 1 else 0)
  }

  /** On a grid of rolls and floor, a roll is accessible exactly when
      fewer than four of its eight neighbours are rolls. */
  lemma {:induction false} AccessibleMeaning(g: seq<seq<int>>, p: Point, k: nat)
    requires Rectangular(g) && Binary(g) && k <= 9
    ensures NeighbourSum(g, p, k) == NeighbourRolls(g, p, k) <= k
    ensures k == 9 ==> (Accessible(g, p) <==> NeighbourRolls(g, p, 9) < 4)
  {
    if k > 0 {
      AccessibleMeaning(g, p, k - 1);
    }
  }

  /** The accessible rolls of row y among its first `x` cells, in order. */
  function AccessibleInRow(g: seq<seq<int>>, y: nat, x: nat): seq<Point>
    requires Rectangular(g) && y < |g| && x <= Width(g)
  {
    if x == 0 then []
    else
      AccessibleInRow(g, y, x - 1)
        + (if g[y][x - 1] == 1 && Accessible(g, Point(x - 1, y)) then [Point(x - 1, y)] else [])
  }

  /** `get_accessible_rolls` over the first `y` rows, in reading order. */
  function AccessibleRolls(g: seq<seq<int>>, y: nat): seq<Point>
    requires Rectangular(g) && y <= |g|
  {
    if y == 0 then [] else AccessibleRolls(g, y - 1) + AccessibleInRow(g, y - 1, Width(g))
  }

  /** A roll is listed exactly when it is a roll and accessible. */
  predicate Listed(g: seq<seq<int>>, p: Point)
    requires Rectangular(g)
  {
    InGrid(g, p.x, p.y) && g[p.y][p.x] == 1 && Accessible(g, p)
  }

  /** One point comes before another in reading order. */
  predicate Before(p: Point, q: Point)
  {
    p.y < q.y || (p.y == q.y && p.x < q.x)
  }

  /** The list of a row holds its accessible rolls, in order. */
  lemma {:induction false} AccessibleInRowMeaning(g: seq<seq<int>>, y: nat, x: nat)
    requires Rectangular(g) && y < |g| && x <= Width(g)
    ensures forall p :: p in AccessibleInRow(g, y, x) <==> Listed(g, p) && p.y == y && p.x < x
    ensures forall i, j :: 0 <= i < j < |AccessibleInRow(g, y, x)| ==>
      Before(AccessibleInRow(g, y, x)[i], AccessibleInRow(g, y, x)[j])
  {
    if x > 0 {
      AccessibleInRowMeaning(g, y, x - 1);
    }
  }

  /** `get_accessible_rolls` lists exactly the accessible rolls, each once,
      in reading order. */
  lemma AccessibleRollsMeaning(g: seq<seq<int>>, y: nat)
    requires Rectangular(g) && y <= |g|
    ensures forall p :: p in AccessibleRolls(g, y) <==> Listed(g, p) && p.y < y
    ensures forall i, j :: 0 <= i < j < |AccessibleRolls(g, y)| ==>
      Before(AccessibleRolls(g, y)[i], AccessibleRolls(g, y)[j])
  {
    AccessibleRollsListed(g, y);
    AccessibleRollsOrdered(g, y);
  }

  /** The rolls listed over the first `y` rows are the accessible ones. */
  lemma {:induction false} AccessibleRollsListed(g: seq<seq<int>>, y: nat)
    requires Rectangular(g) && y <= |g|
    ensures forall p :: p in AccessibleRolls(g, y) <==> Listed(g, p) && p.y < y
  {
    if y > 0 {
      var a := AccessibleRolls(g, y - 1);
      var b := AccessibleInRow(g, y - 1, Width(g));
      AccessibleRollsListed(g, y - 1);
      AccessibleInRowMeaning(g, y - 1, Width(g));
      forall p
        ensures p in a + b <==> Listed(g, p) && p.y < y
      {
        assert p in a + b <==> p in a || p in b;
      }
    }
  }

  /** The rolls listed over the first `y` rows come in reading order. */
  lemma {:induction false} AccessibleRollsOrdered(g: seq<seq<int>>, y: nat)
    requires Rectangular(g) && y <= |g|
    ensures forall i, j :: 0 <= i < j < |AccessibleRolls(g, y)| ==>
      Before(AccessibleRolls(g, y)[i], AccessibleRolls(g, y)[j])
  {
    if y > 0 {
      var a := AccessibleRolls(g, y - 1);
      var b := AccessibleInRow(g, y - 1, Width(g));
      AccessibleRollsOrdered(g, y - 1);
      AccessibleRollsListed(g, y - 1);
      AccessibleInRowMeaning(g, y - 1, Width(g));
      forall i, j | 0 <= i < j < |a + b|
        ensures Before((a + b)[i], (a + b)[j])
      {
        if j < |a| {
          assert (a + b)[i] == a[i] && (a + b)[j] == a[j];
        } else if i >= |a| {
          assert (a + b)[i] == b[i - |a|] && (a + b)[j] == b[j - |a|];
        } else {
          assert (a + b)[i] == a[i] && a[i] in a;
          assert (a + b)[j] == b[j - |a|] && b[j - |a|] in b;
        }
      }
    }
  }

  /** The grid after one round of part two: every accessible roll set to
      zero, everything else kept. */
  function Cleared(g: seq<seq<int>>): (r: seq<seq<int>>)
    requires Rectangular(g)
    ensures |r| == |g| && Rectangular(r) && Width(r) == Width(g)
  {
    seq(|g|, y requires 0 <= y < |g| =>
      seq(Width(g), x requires 0 <= x < Width(g) =>
        if Listed(g, Point(x, y)) then 0 else g[y][x]))
  }

  /** The number of rolls among the first `x` cells of row y. */
  function RowRolls(g: seq<seq<int>>, y: nat, x: nat): nat
    requires Rectangular(g) && y < |g| && x <= Width(g)
  {
    if x == 0 then 0 else RowRolls(g, y, x - 1) + (if g[y][x - 1] == 1 then 1 else 0)
  }

  /** The number of rolls in the first `y` rows. */
  function Rolls(g: seq<seq<int>>, y: nat): nat
    requires Rectangular(g) && y <= |g|
  {
    if y == 0 then 0 else Rolls(g, y - 1) + RowRolls(g, y - 1, Width(g))
  }

  /** Clearing a row takes away exactly its listed rolls. */
  lemma {:induction false} ClearedRow(g: seq<seq<int>>, y: nat, x: nat)
    requires Rectangular(g) && y < |g| && x <= Width(g)
    ensures RowRolls(Cleared(g), y, x) + |AccessibleInRow(g, y, x)| == RowRolls(g, y, x)
  {
    if x > 0 {
      ClearedRow(g, y, x - 1);
    }
  }

  /** A round of part two removes exactly as many rolls as
      `get_accessible_rolls` lists. */
  lemma {:induction false} ClearedRolls(g: seq<seq<int>>, y: nat)
    requires Rectangular(g) && y <= |g|
    ensures Rolls(Cleared(g), y) + |AccessibleRolls(g, y)| == Rolls(g, y)
  {
    if y > 0 {
      ClearedRolls(g, y - 1);
      ClearedRow(g, y - 1, Width(g));
    }
  }

  /** `part_two` on values: rounds of clearing until no roll is
      accessible, adding up the rolls each round lists. */
  function Removed(g: seq<seq<int>>): nat
    requires Rectangular(g)
    decreases Rolls(g, |g|)
  {
    var listed := AccessibleRolls(g, |g|);
    if listed == [] then 0
    else
      ClearedRolls(g, |g|);
      |listed| + Removed(Cleared(g))
  }

  /** The grid part two leaves: the first one without accessible rolls. */
  function Final(g: seq<seq<int>>): (r: seq<seq<int>>)
    requires Rectangular(g)
    ensures Rectangular(r) && |r| == |g| && Width(r) == Width(g)
    decreases Rolls(g, |g|)
  {
    if AccessibleRolls(g, |g|) == [] then g
    else
      ClearedRolls(g, |g|);
      Final(Cleared(g))
  }

  /** The count part two returns is the number of rolls gone between the
      grid it starts from and the grid it leaves, where no roll is
      accessible any more and every cell is as it was or cleared. */
  lemma {:induction false} RemovedMeaning(g: seq<seq<int>>)
    requires Rectangular(g)
    ensures Removed(g) + Rolls(Final(g), |Final(g)|) == Rolls(g, |g|)
    ensures AccessibleRolls(Final(g), |Final(g)|) == []
    ensures |Final(g)| == |g| && Width(Final(g)) == Width(g)
    ensures forall y, x :: 0 <= y < |g| && 0 <= x < Width(g) ==>
      Final(g)[y][x] == g[y][x] || Final(g)[y][x] == 0
    decreases Rolls(g, |g|)
  {
    if AccessibleRolls(g, |g|) != [] {
      ClearedRolls(g, |g|);
      RemovedMeaning(Cleared(g));
    }
  }

  /** The grid an array holds, row by row. */
  ghost function Contents(a: array2<int>): (g: seq<seq<int>>)
    reads a
    ensures |g| == a.Length0 && Rectangular(g)
    ensures forall y :: 0 <= y < a.Length0 ==> |g[y]| == a.Length1
  {
    seq(a.Length0, y requires 0 <= y < a.Length0 reads a =>
      seq(a.Length1, x requires 0 <= x < a.Length1 reads a => a[y, x]))
  }

  /** `is_accessible`: the two loops over the offsets, adding up the
      neighbours on the grid. */
  method IsAccessible(rolls: array2<int>, roll: Point) returns (accessible: bool)
    requires 0 <= roll.x < rolls.Length1 && 0 <= roll.y < rolls.Length0
    ensures accessible == Accessible(Contents(rolls), roll)
  {
    ghost var g := Contents(rolls);
    var total := 0;
    for i := 0 to 3
      invariant total == NeighbourSum(g, roll, 3 * i)
    {
      total := AddColumn(rolls, roll, i, total);
    }
    accessible := total < 4;
  }

  /** The inner loop of `is_accessible`: the three offsets of one column. */
  method AddColumn(rolls: array2<int>, roll: Point, i: nat, total: int) returns (r: int)
    requires i < 3
    requires total == NeighbourSum(Contents(rolls), roll, 3 * i)
    ensures r == NeighbourSum(Contents(rolls), roll, 3 * i + 3)
  {
    ghost var g := Contents(rolls);
    r := total;
    for j := 0 to 3
      invariant r == NeighbourSum(g, roll, 3 * i + j)
    {
      NeighbourStep(g, roll, i, j);
      var deltaX, deltaY := Delta[i], Delta[j];
      if deltaX == 0 && deltaY == 0 {
        continue;
      }
      var candidateX, candidateY := roll.x + deltaX, roll.y + deltaY;
      if 0 <= candidateX < rolls.Length1 && 0 <= candidateY < rolls.Length0 {
        r := r + rolls[candidateY, candidateX];
      }
    }
  }

  /** The inner loop of `get_accessible_rolls`: the rolls of row y. */
  method AccessibleRow(rolls: array2<int>, y: nat, listed: seq<Point>) returns (r: seq<Point>)
    requires y < rolls.Length0
    ensures r == listed + AccessibleInRow(Contents(rolls), y, rolls.Length1)
  {
    ghost var g := Contents(rolls);
    r := listed;
    for x := 0 to rolls.Length1
      invariant r == listed + AccessibleInRow(g, y, x)
    {
      if rolls[y, x] == 1 {
        var accessible := IsAccessible(rolls, Point(x, y));
        if accessible {
          r := r + [Point(x, y)];
        }
      }
    }
  }

  /** `get_accessible_rolls`: the accessible rolls in reading order. */
  method GetAccessibleRolls(rolls: array2<int>) returns (listed: seq<Point>)
    ensures listed == AccessibleRolls(Contents(rolls), rolls.Length0)
  {
    listed := [];
    for y := 0 to rolls.Length0
      invariant listed == AccessibleRolls(Contents(rolls), y)
    {
      listed := AccessibleRow(rolls, y, listed);
    }
  }

  /** `part_one`: how many rolls are accessible. */
  method PartOne(rolls: array2<int>) returns (count: nat)
    ensures count == |AccessibleRolls(Contents(rolls), rolls.Length0)|
  {
    var listed := GetAccessibleRolls(rolls);
    count := |listed|;
  }

  /** The array holds `g` with the points of `s` set to zero. */
  ghost predicate ClearedBy(a: array2<int>, g: seq<seq<int>>, s: seq<Point>)
    reads a
    requires Rectangular(g) && |g| == a.Length0 && (|g| > 0 ==> Width(g) == a.Length1)
  {
    forall y, x :: 0 <= y < a.Length0 && 0 <= x < a.Length1 ==>
      a[y, x] == if Point(x, y) in s then 0 else g[y][x]
  }

  /** The inner loop of `part_two`: each of the points set to zero, in
      place, every other cell left alone. */
  method ZeroPoints(rolls: array2<int>, points: seq<Point>)
    requires forall p :: p in points ==> 0 <= p.y < rolls.Length0 && 0 <= p.x < rolls.Length1
    modifies rolls
    ensures forall y, x :: 0 <= y < rolls.Length0 && 0 <= x < rolls.Length1 ==>
      rolls[y, x] == if Point(x, y) in points then 0 else old(rolls[y, x])
  {
    for i := 0 to |points|
      invariant forall y, x :: 0 <= y < rolls.Length0 && 0 <= x < rolls.Length1 ==>
        rolls[y, x] == if Point(x, y) in points[..i] then 0 else old(rolls[y, x])
    {
      var p := points[i];
      assert p in points;
      rolls[p.y, p.x] := 0;
      assert points[..i + 1] == points[..i] + [p];
    }
    assert points[..|points|] == points;
  }

  /** One round of `part_two` after the count: the listed rolls cleared. */
  method ClearListed(rolls: array2<int>, listed: seq<Point>)
    requires listed == AccessibleRolls(Contents(rolls), rolls.Length0)
    modifies rolls
    ensures Contents(rolls) == Cleared(old(Contents(rolls)))
  {
    ghost var g := Contents(rolls);
    ListedOnGrid(g);
    ZeroPoints(rolls, listed);
    ListedExactly(g);
    ContentsCleared(rolls, g, listed);
  }

  /** The listed points are the accessible rolls. */
  lemma ListedExactly(g: seq<seq<int>>)
    requires Rectangular(g)
    ensures forall p :: p in AccessibleRolls(g, |g|) <==> Listed(g, p)
  {
    AccessibleRollsMeaning(g, |g|);
  }

  /** The listed points all lie on the grid. */
  lemma ListedOnGrid(g: seq<seq<int>>)
    requires Rectangular(g)
    ensures forall p :: p in AccessibleRolls(g, |g|) ==> 0 <= p.y < |g| && 0 <= p.x < Width(g)
  {
    AccessibleRollsMeaning(g, |g|);
  }

  /** An array whose cells are those of `g` with the listed rolls set to
      zero holds the cleared grid. */
  lemma ContentsCleared(a: array2<int>, g: seq<seq<int>>, listed: seq<Point>)
    requires Rectangular(g) && |g| == a.Length0 && (|g| > 0 ==> Width(g) == a.Length1)
    requires forall p :: p in listed <==> Listed(g, p)
    requires ClearedBy(a, g, listed)
    ensures Contents(a) == Cleared(g)
  {
    forall y | 0 <= y < |g|
      ensures Contents(a)[y] == Cleared(g)[y]
    {
    }
  }

  /** `part_two`: while some roll is accessible, count the listed rolls
      and clear them from the grid in place. */
  method PartTwo(rolls: array2<int>) returns (removed: nat)
    modifies rolls
    ensures removed == Removed(old(Contents(rolls)))
    ensures Contents(rolls) == Final(old(Contents(rolls)))
  {
    removed := 0;
    var listed := GetAccessibleRolls(rolls);
    while listed != []
      invariant listed == AccessibleRolls(Contents(rolls), rolls.Length0)
      invariant removed + Removed(Contents(rolls)) == Removed(old(Contents(rolls)))
      invariant Final(Contents(rolls)) == Final(old(Contents(rolls)))
      decreases Rolls(Contents(rolls), rolls.Length0)
    {
      ghost var g := Contents(rolls);
      removed := removed + |listed|;
      ClearListed(rolls, listed);
      ClearedRolls(g, |g|);
      listed := GetAccessibleRolls(rolls);
    }
  }
}
