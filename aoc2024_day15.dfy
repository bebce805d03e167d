/** Warehouse robot: the robot pushes any row of boxes ahead of it one
    step, unless the row ends at a wall. */
module Aoc2024Day15 {
  import opened Common

  datatype Point = Point(x: int, y: int)

  datatype Direction = Up | Down | Left | Right

  /** The point `i` steps from `p` in direction `d`. */
  function Shift(p: Point, d: Direction, i: int): Point
  {
    match d
    case Up => Point(p.x, p.y - i)
    case Down => Point(p.x, p.y + i)
    case Left => Point(p.x - i, p.y)
    case Right => Point(p.x + i, p.y)
  }

  /** `Direction::get_new_point`: one step. */
  function GetNewPoint(d: Direction, p: Point): (q: Point)
    ensures q == Shift(p, d, 1)
    ensures q != p
  {
    match d
    case Up => Point(p.x, p.y - 1)
    case Down => Point(p.x, p.y + 1)
    case Left => Point(p.x - 1, p.y)
    case Right => Point(p.x + 1, p.y)
  }

  /** Stepping from the i-th point reaches the (i+1)-th. */
  lemma ShiftStep(p: Point, d: Direction, i: int)
    ensures GetNewPoint(d, Shift(p, d, i)) == Shift(p, d, i + 1)
  {
  }

  /** Points along a line are pairwise distinct. */
  lemma ShiftInjective(p: Point, d: Direction, i: int, j: int)
    requires i != j
    ensures Shift(p, d, i) != Shift(p, d, j)
  {
  }

  // ---------------------------------------------------------------------
  // What a move does

  /** The k points after `p` in direction `d` are boxes and the next is not. */
  ghost predicate IsChain(boxes: set<Point>, p: Point, d: Direction, k: nat)
  {
    (forall i :: 1 <= i <= k ==> Shift(p, d, i) in boxes) && Shift(p, d, k + 1) !in boxes
  }

  /** Length of the row of boxes directly ahead of `p`. */
  ghost function ChainLength(boxes: set<Point>, p: Point, d: Direction): (k: nat)
    ensures IsChain(boxes, p, d, k)
    decreases |boxes|
  {
    var q := Shift(p, d, 1);
    if q !in boxes then 0
    else
      var k := ChainLength(boxes - {q}, q, d);
      forall i | 1 <= i <= k + 1 ensures Shift(p, d, i) in boxes {
        if i > 1 {
          assert Shift(q, d, i - 1) == Shift(p, d, i);
        }
      }
      assert Shift(q, d, k + 1) == Shift(p, d, k + 2);
      ShiftInjective(p, d, 1, k + 2);
      1 + k
  }

  /** The row ahead has only one length. */
  lemma ChainUnique(boxes: set<Point>, p: Point, d: Direction, k: nat, k': nat)
    requires IsChain(boxes, p, d, k) && IsChain(boxes, p, d, k')
    ensures k == k'
  {
    assert k < k' ==> Shift(p, d, k + 1) in boxes;
    assert k' < k ==> Shift(p, d, k' + 1) in boxes;
  }

  /** A move as a function: the robot's new position (None when blocked)
      and the new boxes.  Shifting the whole row one step frees its first
      cell and fills the cell after its last. */
  ghost function MoveSpec(walls: set<Point>, boxes: set<Point>, robot: Point, d: Direction): (Option<Point>, set<Point>)
  {
    var k := ChainLength(boxes, robot, d);
    if Shift(robot, d, k + 1) in walls then (None, boxes)
    else if k == 0 then (Some(Shift(robot, d, 1)), boxes)
    else (Some(Shift(robot, d, 1)), boxes - {Shift(robot, d, 1)} + {Shift(robot, d, k + 1)})
  }

  /** A move never changes the number of boxes. */
  lemma MoveKeepsCount(walls: set<Point>, boxes: set<Point>, robot: Point, d: Direction)
    ensures |MoveSpec(walls, boxes, robot, d).1| == |boxes|
  {
    var k := ChainLength(boxes, robot, d);
    if Shift(robot, d, k + 1) !in walls && k > 0 {
      var first, after := Shift(robot, d, 1), Shift(robot, d, k + 1);
      assert first in boxes && after !in boxes - {first};
    }
  }

  /** A move keeps walls and boxes apart. */
  lemma MoveKeepsApart(walls: set<Point>, boxes: set<Point>, robot: Point, d: Direction)
    requires walls !! boxes
    ensures walls !! MoveSpec(walls, boxes, robot, d).1
  {
  }

  lemma SubsetCard<T>(a: set<T>, b: set<T>)
    requires a <= b
    ensures |a| <= |b|
  {
    assert b == a + (b - a);
  }

  // ---------------------------------------------------------------------
  // The map

  class Map {
    var walls: set<Point>
    var boxes: set<Point>

    /** A cell holds at most one of a wall and a box. */
    predicate Valid()
      reads this
    {
      walls !! boxes
    }

    constructor(walls: set<Point>, boxes: set<Point>)
      requires walls !! boxes
      ensures this.walls == walls && this.boxes == boxes && Valid()
    {
      this.walls := walls;
      this.boxes := boxes;
    }

    /** `Map::move_robot`.  The source's re-check of each target cell while
        moving boxes, and its box check after the scan, can never fire;
        both are stated as assertions. */
    method MoveRobot(robot: Point, d: Direction) returns (r: Option<Point>)
      requires Valid()
      modifies this
      ensures Valid() && walls == old(walls)
      ensures (r, boxes) == MoveSpec(old(walls), old(boxes), robot, d)
    {
      ghost var k0 := ChainLength(boxes, robot, d);
      var boxesToMove, newRobot := CollectBoxes(robot, d);
      var k := |boxesToMove|;
      ChainUnique(boxes, robot, d, k, k0);
      if newRobot in walls {
        return None;
      }
      assert newRobot !in boxes;
      PushBoxes(robot, d, boxesToMove);
      return Some(GetNewPoint(d, robot));
    }

    /** The scan of `move_robot`: the consecutive boxes ahead of the robot,
        and the cell after them, where the scan stops at a wall or a cell
        without a box. */
    method CollectBoxes(robot: Point, d: Direction) returns (boxesToMove: seq<Point>, newRobot: Point)
      requires Valid()
      ensures forall i :: 0 <= i < |boxesToMove| ==> boxesToMove[i] == Shift(robot, d, i + 1)
      ensures IsChain(boxes, robot, d, |boxesToMove|)
      ensures newRobot == Shift(robot, d, |boxesToMove| + 1)
    {
      newRobot := GetNewPoint(d, robot);
      boxesToMove := [];
      if newRobot in walls {
        return;
      }
      ghost var seen: set<Point> := {};
      while newRobot in boxes
        invariant newRobot == Shift(robot, d, |boxesToMove| + 1) && newRobot !in walls
        invariant forall i :: 0 <= i < |boxesToMove| ==> boxesToMove[i] == Shift(robot, d, i + 1)
        invariant forall x :: x in seen ==> x in boxesToMove
        invariant seen <= boxes && |seen| == |boxesToMove|
        invariant forall i :: 1 <= i <= |boxesToMove| ==> Shift(robot, d, i) in boxes
        decreases |boxes| - |seen|
      {
        assert newRobot !in boxesToMove by {
          forall i | 0 <= i < |boxesToMove| ensures boxesToMove[i] != newRobot {
            ShiftInjective(robot, d, i + 1, |boxesToMove| + 1);
          }
        }
        boxesToMove := boxesToMove + [newRobot];
        seen := seen + {newRobot};
        newRobot := GetNewPoint(d, newRobot);
        ShiftStep(robot, d, |boxesToMove|);
        SubsetCard(seen, boxes);
        if newRobot in walls {
          return;
        }
      }
    }

    /** The box-moving loop of `move_robot`: from the last box of the row
        to the first, each box moves one step into the cell just freed. */
    method PushBoxes(robot: Point, d: Direction, boxesToMove: seq<Point>)
      requires Valid()
      requires forall i :: 0 <= i < |boxesToMove| ==> boxesToMove[i] == Shift(robot, d, i + 1)
      requires IsChain(boxes, robot, d, |boxesToMove|)
      requires Shift(robot, d, |boxesToMove| + 1) !in walls
      modifies this
      ensures Valid() && walls == old(walls)
      ensures boxes == if |boxesToMove| == 0 then old(boxes)
        else old(boxes) - {Shift(robot, d, 1)} + {Shift(robot, d, |boxesToMove| + 1)}
    {
      var k := |boxesToMove|;
      var i := k;
      while i > 0
        invariant 0 <= i <= k
        invariant boxes == if i == k then old(boxes)
          else old(boxes) - {Shift(robot, d, i + 1)} + {Shift(robot, d, k + 1)}
        invariant walls == old(walls)
      {
        i := i - 1;
        var boxPos := boxesToMove[i];
        var newBoxPos := GetNewPoint(d, boxPos);
        ShiftStep(robot, d, i + 1);
        if i + 1 < k {
          ShiftInjective(robot, d, i + 2, k + 1);
        }
        ShiftInjective(robot, d, i + 1, k + 1);
        ShiftInjective(robot, d, i + 1, i + 2);
        assert !(newBoxPos in walls || newBoxPos in boxes);
        boxes := boxes - {boxPos};
        boxes := boxes + {newBoxPos};
      }
    }
  }

  // ---------------------------------------------------------------------
  // part_one

  /** The boxes and robot after following `directions`. */
  ghost function Run(walls: set<Point>, boxes: set<Point>, robot: Point, directions: seq<Direction>): (set<Point>, Point)
    decreases |directions|
  {
    if directions == [] then (boxes, robot)
    else
      var (moved, newBoxes) := MoveSpec(walls, boxes, robot, directions[0]);
      Run(walls, newBoxes, if moved.Some? then moved.value else robot, directions[1..])
  }

  /** Following any directions keeps the number of boxes. */
  lemma {:induction false} RunKeepsCount(walls: set<Point>, boxes: set<Point>, robot: Point, directions: seq<Direction>)
    ensures |Run(walls, boxes, robot, directions).0| == |boxes|
    decreases |directions|
  {
    if directions != [] {
      var (moved, newBoxes) := MoveSpec(walls, boxes, robot, directions[0]);
      MoveKeepsCount(walls, boxes, robot, directions[0]);
      RunKeepsCount(walls, newBoxes, if moved.Some? then moved.value else robot, directions[1..]);
    }
  }

  /** The GPS coordinate of a box. */
  function Gps(p: Point): int
  {
    100 * p.y + p.x
  }

  /** Sum of the GPS coordinates of a set of boxes. */
  ghost function GpsSum(s: set<Point>): int
    decreases |s|
  {
    if s == {} then 0
    else
      var p :| p in s;
      Gps(p) + GpsSum(s - {p})
  }

  /** The sum does not depend on which box is taken out first. */
  lemma {:induction false} GpsSumRemove(s: set<Point>, q: Point)
    requires q in s
    ensures GpsSum(s) == Gps(q) + GpsSum(s - {q})
    decreases |s|
  {
    var p :| p in s && GpsSum(s) == Gps(p) + GpsSum(s - {p});
    if p != q {
      GpsSumRemove(s - {p}, q);
      GpsSumRemove(s - {q}, p);
      assert s - {p} - {q} == s - {q} - {p};
    }
  }

  /** `part_one`: follow the directions on a copy of the map, then sum the
      boxes' GPS coordinates. */
  method PartOne(walls: set<Point>, boxes: set<Point>, directions: seq<Direction>, robot: Point) returns (total: int)
    requires walls !! boxes
    ensures total == GpsSum(Run(walls, boxes, robot, directions).0)
  {
    var warehouse := new Map(walls, boxes);
    var current := robot;
    for i := 0 to |directions|
      invariant warehouse.Valid() && warehouse.walls == walls
      invariant Run(walls, boxes, robot, directions) == Run(walls, warehouse.boxes, current, directions[i..])
    {
      assert directions[i..][1..] == directions[i + 1..];
      var newRobot := warehouse.MoveRobot(current, directions[i]);
      if newRobot.Some? {
        current := newRobot.value;
      }
    }
    assert directions[|directions|..] == [];
    assert Run(walls, boxes, robot, directions).0 == warehouse.boxes;
    total := 0;
    var finalBoxes := warehouse.boxes;
    var rest := finalBoxes;
    while rest != {}
      invariant total + GpsSum(rest) == GpsSum(finalBoxes)
      decreases |rest|
    {
      var p :| p in rest;
      GpsSumRemove(rest, p);
      total := total + Gps(p);
      rest := rest - {p};
    }
  }
}
