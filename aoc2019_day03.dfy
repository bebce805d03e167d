/** Crossed wires (2019, day 3): two wires are laid on a grid from a
    common origin, one unit step at a time.  Part one finds the crossing
    closest to the origin; part two the crossing the two wires reach in
    the fewest combined steps. */
module Aoc2019Day03 {
  import opened Common

  datatype Point = Point(x: int, y: int)

  const Origin := Point(0, 0)

  /** `manhattan_distance`. */
  function Manhattan(p: Point, q: Point): nat
  {
    Abs(p.x - q.x) + Abs(p.y - q.y)
  }

  /** One move of a wire: a direction letter and a number of steps, as
      `move[0]` and `int(move[1:])` read them. */
  datatype Move = Move(direction: char, distance: int)

  /** The unit step of each direction letter, y growing downwards; any
      other letter is the `KeyError` of the lookup. */
  function DeltaOf(direction: char): (r: Option<(int, int)>)
    ensures r.Some? ==> Abs(r.value.0) + Abs(r.value.1) == 1
  {
    match direction
    case 'U' => Some((0, -1))
    case 'D' => Some((0, 1))
    case 'L' => Some((-1, 0))
    case 'R' => Some((1, 0))
    case _ => None
  }

  /** The `n` points one move adds after `start`; `range` of a negative
      count is empty. */
  function Walk(start: Point, dx: int, dy: int, n: int): (w: seq<Point>)
    ensures |w| == if n <= 0 then 0 else n
    decreases n
  {
    if n <= 0 then []
    else Walk(start, dx, dy, n - 1) + [Point(start.x + n * dx, start.y + n * dy)]
  }

  /** The points a move adds are the start shifted 1, 2, ... times. */
  lemma {:induction false} WalkAt(start: Point, dx: int, dy: int, n: int, i: nat)
    requires i < n
    ensures Walk(start, dx, dy, n)[i] == Point(start.x + (i + 1) * dx, start.y + (i + 1) * dy)
    decreases n
  {
    if i < n - 1 {
      WalkAt(start, dx, dy, n - 1, i);
    }
  }

  /** The number of steps of the moves; negative counts add none. */
  function TotalDistance(moves: seq<Move>): nat
  {
    if moves == [] then 0
    else
      var d := moves[|moves| - 1].distance;
      TotalDistance(moves[..|moves| - 1]) + (if d <= 0 then 0 else d)
  }

  /** A direction letter the lookup does not know. */
  predicate BadDirection(moves: seq<Move>)
  {
    exists k :: 0 <= k < |moves| && DeltaOf(moves[k].direction).None?
  }

  /** `get_path_from_line` on values: the origin, then the points of every
      move in turn.  It fails exactly when some direction is unknown. */
  function Path(moves: seq<Move>): (r: Option<seq<Point>>)
    ensures r.None? <==> BadDirection(moves)
    ensures r.Some? ==> |r.value| == 1 + TotalDistance(moves)
  {
    if moves == [] then Some([Origin])
    else
      var init := moves[..|moves| - 1];
      var last := moves[|moves| - 1];
      assert forall k :: 0 <= k < |init| ==> init[k] == moves[k];
      match Path(init)
      case None => None
      case Some(p) =>
        match DeltaOf(last.direction)
        case None => None
        case Some(d) => Some(p + Walk(p[|p| - 1], d.0, d.1, last.distance))
  }

  /** Two points one unit step apart. */
  predicate Adjacent(p: Point, q: Point)
  {
    Manhattan(p, q) == 1
  }

  /** A wire starts at the origin. */
  predicate StartsAtOrigin(p: seq<Point>)
  {
    |p| >= 1 && p[0] == Origin
  }

  /** A wire path starts at the origin and each point is one unit step
      from the one before. */
  predicate UnitPath(p: seq<Point>)
  {
    StartsAtOrigin(p) && forall i :: 0 < i < |p| ==> Adjacent(p[i - 1], p[i])
  }

  /** Every path the moves give is a unit path from the origin. */
  lemma {:induction false} PathIsUnit(moves: seq<Move>)
    requires Path(moves).Some?
    ensures UnitPath(Path(moves).value)
  {
    if moves != [] {
      var init := moves[..|moves| - 1];
      var last := moves[|moves| - 1];
      PathIsUnit(init);
      var p := Path(init).value;
      var d := DeltaOf(last.direction).value;
      var w := Walk(p[|p| - 1], d.0, d.1, last.distance);
      var q := p + w;
      assert Path(moves).value == q;
      forall i | 0 < i < |q|
        ensures Adjacent(q[i - 1], q[i])
      {
        if i >= |p| {
          WalkAt(p[|p| - 1], d.0, d.1, last.distance, i - |p|);
          if i > |p| {
            WalkAt(p[|p| - 1], d.0, d.1, last.distance, i - |p| - 1);
          }
        }
      }
    }
  }

  /** After i unit steps from the origin a wire is at most i away. */
  lemma {:induction false} UnitPathDistance(p: seq<Point>, i: nat)
    requires UnitPath(p) && i < |p|
    ensures Manhattan(Origin, p[i]) <= i
  {
    if i > 0 {
      UnitPathDistance(p, i - 1);
      assert Adjacent(p[i - 1], p[i]);
    }
  }

  /** `get_path_from_line`: the outer loop over the moves, the inner one
      over the steps of a move, each step appended. */
  method GetPathFromLine(moves: seq<Move>) returns (points: Option<seq<Point>>)
    ensures points == Path(moves)
  {
    var lastPoint := Origin;
    var pts := [Origin];
    for i := 0 to |moves|
      invariant Path(moves[..i]) == Some(pts)
      invariant lastPoint == pts[|pts| - 1]
    {
      assert moves[..i + 1][..i] == moves[..i];
      var delta := DeltaOf(moves[i].direction);
      if delta.None? {
        assert DeltaOf(moves[..i + 1][i].direction).None?;
        PathNoneGrows(moves, i + 1);
        return None;
      }
      pts, lastPoint := AddSteps(pts, lastPoint, delta.value.0, delta.value.1, moves[i].distance);
      assert Path(moves[..i + 1]) == Some(pts);
    }
    assert moves[..|moves|] == moves;
    return Some(pts);
  }

  /** The inner loop of `get_path_from_line`: the steps of one move
      appended one at a time. */
  method AddSteps(points: seq<Point>, start: Point, deltaX: int, deltaY: int, distance: int)
    returns (pts: seq<Point>, lastPoint: Point)
    requires |points| >= 1 && start == points[|points| - 1]
    ensures pts == points + Walk(start, deltaX, deltaY, distance)
    ensures lastPoint == pts[|pts| - 1]
  {
    pts, lastPoint := points, start;
    var j := 0;
    while j < distance
      invariant 0 <= j && (j <= distance || j == 0)
      invariant pts == points + Walk(start, deltaX, deltaY, j)
      invariant lastPoint == Point(start.x + j * deltaX, start.y + j * deltaY)
      invariant lastPoint == pts[|pts| - 1]
    {
      assert (j + 1) * deltaX == j * deltaX + deltaX && (j + 1) * deltaY == j * deltaY + deltaY;
      var newPoint := Point(lastPoint.x + deltaX, lastPoint.y + deltaY);
      pts := pts + [newPoint];
      lastPoint := newPoint;
      j := j + 1;
    }
  }

  /** A failing prefix makes the whole path fail. */
  lemma PathNoneGrows(moves: seq<Move>, i: nat)
    requires i <= |moves| && Path(moves[..i]).None?
    ensures Path(moves).None?
  {
    var k :| 0 <= k < i && DeltaOf(moves[..i][k].direction).None?;
    assert moves[k] == moves[..i][k];
  }

  /** `(set(path_a) & set(path_b)) ^ {origin}`: the common points with
      the origin toggled. */
  function Crossings(a: seq<Point>, b: seq<Point>): set<Point>
  {
    var common := (set p | p in a) * (set p | p in b);
    (common - {Origin}) + ({Origin} - common)
  }

  /** Both wires start at the origin, so the toggle only drops it: the
      crossings are the points on both wires other than the origin. */
  lemma CrossingsOfPaths(a: seq<Point>, b: seq<Point>)
    requires StartsAtOrigin(a) && StartsAtOrigin(b)
    ensures forall p :: p in Crossings(a, b) <==> p in a && p in b && p != Origin
  {
    assert a[0] in a && b[0] in b;
  }

  /** `d` is the smallest distance to the origin of the points of `s`. */
  predicate LeastDistance(s: set<Point>, d: nat)
  {
    (exists p :: p in s && Manhattan(Origin, p) == d) &&
    forall p :: p in s ==> d <= Manhattan(Origin, p)
  }

  /** `part_one`: the `min` over the crossings of their distance to the
      origin; `min` of nothing raises, here `None`. */
  method PartOne(a: seq<Point>, b: seq<Point>) returns (r: Option<nat>)
    ensures r.None? <==> Crossings(a, b) == {}
    ensures r.Some? ==> LeastDistance(Crossings(a, b), r.value)
  {
    var crossings := Crossings(a, b);
    if crossings == {} {
      return None;
    }
    var first :| first in crossings;
    var best := Manhattan(Origin, first);
    var remaining := crossings - {first};
    while remaining != {}
      invariant remaining <= crossings
      invariant first in crossings && Manhattan(Origin, first) == best
      invariant forall p :: p in crossings && p !in remaining ==> best <= Manhattan(Origin, p)
      decreases |remaining|
    {
      var p :| p in remaining;
      if Manhattan(Origin, p) < best {
        best := Manhattan(Origin, p);
        first := p;
      }
      remaining := remaining - {p};
    }
    return Some(best);
  }

  /** `list.index`: the first position of a point on a wire. */
  function FirstIndex(s: seq<Point>, p: Point): (i: nat)
    requires p in s
    ensures i < |s| && s[i] == p
  {
    if s[0] == p then 0 else 1 + FirstIndex(s[1..], p)
  }

  /** No earlier position holds the point. */
  lemma {:induction false} FirstIndexIsFirst(s: seq<Point>, p: Point, j: nat)
    requires p in s && j < FirstIndex(s, p)
    ensures s[j] != p
  {
    if j > 0 {
      FirstIndexIsFirst(s[1..], p, j - 1);
    }
  }

  /** The combined steps both wires take to reach a crossing. */
  function Steps(a: seq<Point>, b: seq<Point>, p: Point): nat
    requires p in a && p in b
  {
    FirstIndex(a, p) + FirstIndex(b, p)
  }

  /** `d` is the fewest combined steps over the common points `s`. */
  predicate LeastSteps(a: seq<Point>, b: seq<Point>, s: set<Point>, d: nat)
    requires forall p :: p in s ==> p in a && p in b
  {
    (exists p :: p in s && Steps(a, b, p) == d) &&
    forall p :: p in s ==> d <= Steps(a, b, p)
  }

  /** `part_two`: the loop over the crossings keeping the smallest sum of
      first positions; with no crossing the source returns infinity, here
      `None`.  The toggled origin is not on both wires, so it is skipped
      the way `index` would fail on it. */
  method PartTwo(a: seq<Point>, b: seq<Point>) returns (r: Option<nat>)
    requires StartsAtOrigin(a) && StartsAtOrigin(b)
    ensures r.None? <==> Crossings(a, b) == {}
    ensures r.Some? ==> LeastSteps(a, b, Crossings(a, b), r.value)
  {
    CrossingsOfPaths(a, b);
    var crossings := Crossings(a, b);
    var minDistance: Option<nat> := None;
    var remaining := crossings;
    ghost var best := Origin;
    while remaining != {}
      invariant remaining <= crossings
      invariant minDistance.None? <==> remaining == crossings
      invariant minDistance.Some? ==>
        best in crossings && Steps(a, b, best) == minDistance.value &&
        forall p :: p in crossings && p !in remaining ==> minDistance.value <= Steps(a, b, p)
      decreases |remaining|
    {
      var point :| point in remaining;
      var distance := FirstIndex(a, point) + FirstIndex(b, point);
      if minDistance.None? || distance < minDistance.value {
        minDistance := Some(distance);
        best := point;
      }
      remaining := remaining - {point};
    }
    return minDistance;
  }

  /** Reaching a crossing takes each wire at least its distance to the
      origin, so the answer of part two is at least twice that of part
      one. */
  lemma PartTwoAtLeastTwicePartOne(a: seq<Point>, b: seq<Point>, d1: nat, d2: nat)
    requires UnitPath(a) && UnitPath(b)
    requires forall p :: p in Crossings(a, b) ==> p in a && p in b
    requires LeastDistance(Crossings(a, b), d1)
    requires LeastSteps(a, b, Crossings(a, b), d2)
    ensures 2 * d1 <= d2
  {
    var p :| p in Crossings(a, b) && Steps(a, b, p) == d2;
    UnitPathDistance(a, FirstIndex(a, p));
    UnitPathDistance(b, FirstIndex(b, p));
  }
}
