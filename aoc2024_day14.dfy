/** Restroom redoubt (2024, day 14): robots move on a grid that wraps
    around at its edges, each with its own constant velocity.  Part one
    moves them for 100 seconds and multiplies the numbers of robots in the
    four quadrants, leaving out the robots on the centre row and column. */
module Aoc2024Day14 {
  import opened Common

  datatype Point = Point(x: int, y: int)

  datatype Robot = Robot(position: Point, velocity: Point)

  predicate ValidSize(size: Point)
  {
    size.x > 0 && size.y > 0
  }

  predicate OnGrid(p: Point, size: Point)
  {
    0 <= p.x < size.x && 0 <= p.y < size.y
  }

  /** `elapse_one_second`: the position moves by the velocity and wraps
      with `rem_euclid`; the velocity is kept. */
  function ElapseOneSecond(robot: Robot, size: Point): (r: Robot)
    requires ValidSize(size)
    ensures OnGrid(r.position, size)
    ensures r.velocity == robot.velocity
  {
    Robot(Point((robot.position.x + robot.velocity.x) % size.x,
                (robot.position.y + robot.velocity.y) % size.y),
          robot.velocity)
  }

  /** The robot after `seconds` seconds. */
  function Elapse(robot: Robot, size: Point, seconds: nat): Robot
    requires ValidSize(size)
  {
    if seconds == 0 then robot else ElapseOneSecond(Elapse(robot, size, seconds - 1), size)
  }

  /** Wrapping after every step is wrapping once at the end. */
  lemma ModAddMod(a: int, b: int, m: int)
    requires m > 0
    ensures (a % m + b) % m == (a + b) % m
  {
    var q := a / m;
    assert a == m * q + a % m;
    assert a + b == (a % m + b) + m * q;
    ModPeriod(a % m + b, m, q);
  }

  /** After n seconds a robot that starts on the grid is at
      (p + n * v) mod size, with the same velocity. */
  lemma {:induction false} ElapseClosedForm(robot: Robot, size: Point, seconds: nat)
    requires ValidSize(size)
    ensures Elapse(robot, size, seconds).velocity == robot.velocity
    ensures seconds > 0 || OnGrid(robot.position, size) ==>
      Elapse(robot, size, seconds).position ==
        Point((robot.position.x + seconds * robot.velocity.x) % size.x,
              (robot.position.y + seconds * robot.velocity.y) % size.y)
  {
    if seconds > 0 {
      var prev := Elapse(robot, size, seconds - 1);
      ElapseClosedForm(robot, size, seconds - 1);
      var v := robot.velocity;
      if seconds - 1 == 0 {
        assert prev == robot;
      } else {
        ModAddMod(robot.position.x + (seconds - 1) * v.x, v.x, size.x);
        ModAddMod(robot.position.y + (seconds - 1) * v.y, v.y, size.y);
      }
    }
  }

  /** The quadrant a position falls in: 0 below right, 1 below left,
      2 above left, 3 above right of the centre; None on the centre row or
      column. */
  function Quadrant(p: Point, size: Point): Option<nat>
  {
    var cx, cy := size.x / 2, size.y / 2;
    if p.x == cx || p.y == cy then None
    else if p.x > cx && p.y > cy then Some(0)
    else if p.x < cx && p.y > cy then Some(1)
    else if p.x < cx && p.y < cy then Some(2)
    else Some(3)
  }

  /** Every position off the centre lines is in exactly the quadrant its
      two comparisons with the centre name. */
  lemma QuadrantMeaning(p: Point, size: Point)
    ensures var cx, cy := size.x / 2, size.y / 2;
      (Quadrant(p, size).None? <==> p.x == cx || p.y == cy)
      && (Quadrant(p, size) == Some(0) <==> p.x > cx && p.y > cy)
      && (Quadrant(p, size) == Some(1) <==> p.x < cx && p.y > cy)
      && (Quadrant(p, size) == Some(2) <==> p.x < cx && p.y < cy)
      && (Quadrant(p, size) == Some(3) <==> p.x > cx && p.y < cy)
  {
  }

  /** How many robots stand in quadrant q. */
  function QuadrantCount(robots: seq<Robot>, size: Point, q: nat): (r: nat)
    ensures r <= |robots|
  {
    if robots == [] then 0
    else
      QuadrantCount(robots[..|robots| - 1], size, q)
        + (if Quadrant(robots[|robots| - 1].position, size) == Some(q) then 1 else 0)
  }

  /** How many robots stand on the centre row or column. */
  function CentreCount(robots: seq<Robot>, size: Point): (r: nat)
  {
    if robots == [] then 0
    else
      CentreCount(robots[..|robots| - 1], size)
        + (if Quadrant(robots[|robots| - 1].position, size).None? then 1 else 0)
  }

  /** The four quadrant counts and the robots on the centre lines account
      for every robot once. */
  lemma {:induction false} CountsCoverAll(robots: seq<Robot>, size: Point)
    ensures QuadrantCount(robots, size, 0) + QuadrantCount(robots, size, 1)
      + QuadrantCount(robots, size, 2) + QuadrantCount(robots, size, 3)
      + CentreCount(robots, size) == |robots|
  {
    if robots != [] {
      CountsCoverAll(robots[..|robots| - 1], size);
    }
  }

  /** The safety factor: the product of the four quadrant counts. */
  function Safety(robots: seq<Robot>, size: Point): nat
  {
    QuadrantCount(robots, size, 0) * QuadrantCount(robots, size, 1)
      * QuadrantCount(robots, size, 2) * QuadrantCount(robots, size, 3)
  }

  /** A robot on the centre row or column does not change the safety
      factor. */
  lemma CentreIgnored(robots: seq<Robot>, robot: Robot, size: Point)
    requires robot.position.x == size.x / 2 || robot.position.y == size.y / 2
    ensures Safety(robots + [robot], size) == Safety(robots, size)
  {
    assert (robots + [robot])[..|robots|] == robots;
  }

  /** `get_safety_factor`: the loop filling the array of four counters,
      then their product. */
  method GetSafetyFactor(robots: seq<Robot>, size: Point) returns (factor: nat)
    ensures factor == Safety(robots, size)
  {
    var counts := CountQuadrants(robots, size);
    var q0, q1, q2, q3 := counts[0], counts[1], counts[2], counts[3];
    factor := q0 * q1 * q2 * q3;
  }

  /** The loop of `get_safety_factor`: a fresh array of four counters,
      each robot added to the counter of its quadrant. */
  method CountQuadrants(robots: seq<Robot>, size: Point) returns (counts: array<nat>)
    ensures counts.Length == 4
    ensures forall q :: 0 <= q < 4 ==> counts[q] == QuadrantCount(robots, size, q)
  {
    counts := new nat[4](_ => 0);
    for i := 0 to |robots|
      invariant forall q :: 0 <= q < 4 ==> counts[q] == QuadrantCount(robots[..i], size, q)
    {
      assert robots[..i + 1][..i] == robots[..i];
      CountRobot(counts, robots[i].position, size);
    }
    assert robots[..|robots|] == robots;
  }

  /** The body of the `get_safety_factor` loop: a robot off the centre
      lines adds one to the counter of its quadrant. */
  method CountRobot(counts: array<nat>, p: Point, size: Point)
    requires counts.Length == 4
    modifies counts
    ensures forall q :: 0 <= q < 4 ==>
      counts[q] == old(counts[q]) + if Quadrant(p, size) == Some(q) then 1 else 0
  {
    var centerX, centerY := size.x / 2, size.y / 2;
    var x, y := p.x, p.y;
    if x == centerX || y == centerY {
      return;
    }
    if x > centerX && y > centerY {
      counts[0] := counts[0] + 1;
    } else if x < centerX && y > centerY {
      counts[1] := counts[1] + 1;
    } else if x < centerX && y < centerY {
      counts[2] := counts[2] + 1;
    } else if x > centerX && y < centerY {
      counts[3] := counts[3] + 1;
    }
  }

  /** Every robot after `seconds` seconds. */
  function ElapseAll(robots: seq<Robot>, size: Point, seconds: nat): (r: seq<Robot>)
    requires ValidSize(size)
    ensures |r| == |robots|
    ensures forall i :: 0 <= i < |robots| ==> r[i] == Elapse(robots[i], size, seconds)
  {
    seq(|robots|, i requires 0 <= i < |robots| => Elapse(robots[i], size, seconds))
  }

  /** `part_one`: 100 seconds of moving every robot, then the safety
      factor. */
  method PartOne(robots: seq<Robot>, size: Point) returns (factor: nat)
    requires ValidSize(size)
    ensures factor == Safety(ElapseAll(robots, size, 100), size)
  {
    var current := robots;
    for second := 0 to 100
      invariant current == ElapseAll(robots, size, second)
    {
      current := seq(|current|, i requires 0 <= i < |current| => ElapseOneSecond(current[i], size));
    }
    factor := GetSafetyFactor(current, size);
  }
}
