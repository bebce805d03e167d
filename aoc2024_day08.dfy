/** Resonant collinearity (2024, day 8): antennas of the same frequency
    create antinodes.  In part one an antinode of a pair a, b lies at
    2a - b (and 2b - a) when that point is on the grid; in part two every
    grid point on the line through a and b is one, found by stepping from a
    in both directions by (b - a) divided by the gcd of its coordinates. */
module Aoc2024Day08 {
  import opened Common

  datatype Map = Map(width: nat, height: nat)

  datatype Point = Point(x: int, y: int)

  predicate InBounds(grid: Map, p: Point)
  {
    0 <= p.x < grid.width && 0 <= p.y < grid.height
  }

  /** `gcd`: Euclid's recursion (the remainder of two non-negative values
      is the same whether it truncates or not). */
  function Gcd(a: nat, b: nat): nat
    decreases b
  {
    if b == 0 then a else Gcd(b, a % b)
  }

  lemma {:induction false} GcdPositive(a: nat, b: nat)
    requires a > 0 || b > 0
    ensures Gcd(a, b) > 0
    decreases b
  {
    if b > 0 {
      GcdPositive(b, a % b);
    }
  }

  /** If g divides x and y it divides x * q + y. */
  lemma MultipleCombine(g: int, x: int, y: int, q: int)
    requires g > 0 && x % g == 0 && y % g == 0
    ensures (x * q + y) % g == 0
  {
    var m, n := x / g, y / g;
    assert x == g * m && y == g * n;
    assert x * q + y == 0 + g * (m * q + n);
    ModPeriod(0, g, m * q + n);
  }

  /** The gcd divides both arguments. */
  lemma {:induction false} GcdDivides(a: nat, b: nat)
    requires a > 0 || b > 0
    ensures Gcd(a, b) > 0 && a % Gcd(a, b) == 0 && b % Gcd(a, b) == 0
    decreases b
  {
    GcdPositive(a, b);
    if b > 0 {
      var g := Gcd(b, a % b);
      GcdDivides(b, a % b);
      assert a == b * (a / b) + a % b;
      MultipleCombine(g, b, a % b, a / b);
    }
  }

  /** Every common divisor of the arguments divides the gcd. */
  lemma {:induction false} GcdGreatest(a: nat, b: nat, d: int)
    requires d > 0 && a % d == 0 && b % d == 0
    ensures Gcd(a, b) % d == 0
    decreases b
  {
    if b > 0 {
      assert a % b == b * (-(a / b)) + a;
      MultipleCombine(d, b, a, -(a / b));
      GcdGreatest(b, a % b, d);
    }
  }

  /** Rust's `/` on `isize`, which truncates toward zero. */
  function TruncDiv(a: int, b: int): int
    requires b > 0
  {
    if a >= 0 then a / b else -((-a) / b)
  }

  /** The smallest step along the line from a to b:
      `(delta_x / step_factor, delta_y / step_factor)`; (0, 0) where a and
      b coincide, for which the source divides by zero. */
  function Step(a: Point, b: Point): Point
  {
    var dx, dy := b.x - a.x, b.y - a.y;
    var g := Gcd(Abs(dx), Abs(dy));
    if g == 0 then Point(0, 0) else Point(TruncDiv(dx, g), TruncDiv(dy, g))
  }

  lemma TruncDivExact(a: int, g: int)
    requires g > 0 && Abs(a) % g == 0
    ensures g * TruncDiv(a, g) == a
  {
    var q := Abs(a) / g;
    assert Abs(a) == g * q + Abs(a) % g;
    if a < 0 {
      assert g * TruncDiv(a, g) == -(g * q);
    }
  }

  /** The step times the gcd of the delta's coordinates is the delta, so
      b lies on the line from a; the step is never zero. */
  lemma StepMeaning(a: Point, b: Point)
    requires a != b
    ensures var g := Gcd(Abs(b.x - a.x), Abs(b.y - a.y));
      g > 0 && g * Step(a, b).x == b.x - a.x && g * Step(a, b).y == b.y - a.y
      && Step(a, b) != Point(0, 0)
  {
    var dx, dy := b.x - a.x, b.y - a.y;
    GcdDivides(Abs(dx), Abs(dy));
    var g := Gcd(Abs(dx), Abs(dy));
    TruncDivExact(dx, g);
    TruncDivExact(dy, g);
  }

  /** The k-th point from a in steps of s (k may be negative), one step
      at a time. */
  function Along(a: Point, s: Point, k: int): Point
    decreases if k >= 0 then k else -k
  {
    if k == 0 then a
    else if k > 0 then var p := Along(a, s, k - 1); Point(p.x + s.x, p.y + s.y)
    else var p := Along(a, s, k + 1); Point(p.x - s.x, p.y - s.y)
  }

  /** The k-th point is a + k * s. */
  lemma {:induction false} AlongClosedForm(a: Point, s: Point, k: int)
    ensures Along(a, s, k) == Point(a.x + k * s.x, a.y + k * s.y)
    decreases if k >= 0 then k else -k
  {
    if k > 0 {
      AlongClosedForm(a, s, k - 1);
      assert (k - 1) * s.x + s.x == k * s.x && (k - 1) * s.y + s.y == k * s.y;
    } else if k < 0 {
      AlongClosedForm(a, s, k + 1);
      assert (k + 1) * s.x - s.x == k * s.x && (k + 1) * s.y - s.y == k * s.y;
    }
  }

  ghost predicate OnLine(p: Point, a: Point, s: Point)
  {
    exists k :: p == Along(a, s, k)
  }

  /** The grid points on the line through a with step s. */
  ghost function LinePoints(grid: Map, a: Point, s: Point): set<Point>
  {
    set x: int, y: int | 0 <= x < grid.width && 0 <= y < grid.height && OnLine(Point(x, y), a, s) :: Point(x, y)
  }

  lemma LinePointsMeaning(grid: Map, a: Point, s: Point, p: Point)
    ensures p in LinePoints(grid, a, s) <==> InBounds(grid, p) && OnLine(p, a, s)
  {
    if InBounds(grid, p) && OnLine(p, a, s) {
      assert p == Point(p.x, p.y);
    }
  }

  /** A coordinate that has left [0, n) moving away from a start inside it
      never comes back. */
  lemma LeavesForever(x0: int, s: int, i: int, k: int, n: int)
    requires 0 <= x0 < n && !(0 <= x0 + i * s < n)
    requires 0 < i <= k || k <= i < 0
    ensures !(0 <= x0 + k * s < n)
  {
    assert k * s - i * s == (k - i) * s;
    if 0 < i {
      if s >= 0 {
        assert (k - i) * s >= 0;
      } else {
        assert i * s < 0;
        assert (k - i) * s <= 0;
      }
    } else {
      if s <= 0 {
        assert (k - i) * s >= 0;
      } else {
        assert i * s < 0;
        assert (k - i) * s <= 0;
      }
    }
  }

  /** The grid is convex: once the line leaves it, it stays out. */
  lemma Convex(grid: Map, a: Point, s: Point, i: int, k: int)
    requires InBounds(grid, a) && !InBounds(grid, Along(a, s, i))
    requires 0 < i <= k || k <= i < 0
    ensures !InBounds(grid, Along(a, s, k))
  {
    AlongClosedForm(a, s, i);
    AlongClosedForm(a, s, k);
    if !(0 <= a.x + i * s.x < grid.width) {
      LeavesForever(a.x, s.x, i, k, grid.width);
    } else {
      LeavesForever(a.y, s.y, i, k, grid.height);
    }
  }

  /** `Map::trace_line`: the two while loops stepping forward from start
      and backward from start - step while on the grid.  The points are on
      the grid and on the line; when start is on the grid they are all of
      them. */
  method TraceLine(grid: Map, start: Point, end: Point) returns (line: set<Point>)
    requires start != end
    ensures line <= LinePoints(grid, start, Step(start, end))
    ensures InBounds(grid, start) ==> line == LinePoints(grid, start, Step(start, end))
  {
    var deltaX, deltaY := end.x - start.x, end.y - start.y;
    StepMeaning(start, end);
    var stepFactor := Gcd(Abs(deltaX), Abs(deltaY));
    var stepX, stepY := TruncDiv(deltaX, stepFactor), TruncDiv(deltaY, stepFactor);
    ghost var forwardEnd, backwardEnd;
    line, forwardEnd := WalkForward(grid, start, stepX, stepY);
    line, backwardEnd := WalkBackward(grid, start, stepX, stepY, line);
    if InBounds(grid, start) {
      LineComplete(grid, start, Point(stepX, stepY), forwardEnd, backwardEnd, line);
    }
  }

  /** The first loop of `trace_line`: start, start + step, ... while on
      the grid; n is the number of points it adds. */
  method WalkForward(grid: Map, start: Point, stepX: int, stepY: int) returns (line: set<Point>, ghost n: nat)
    requires stepX != 0 || stepY != 0
    ensures line <= LinePoints(grid, start, Point(stepX, stepY))
    ensures forall j :: 0 <= j < n ==> Along(start, Point(stepX, stepY), j) in line
    ensures !InBounds(grid, Along(start, Point(stepX, stepY), n))
    ensures n > 0 <==> InBounds(grid, start)
  {
    ghost var s := Point(stepX, stepY);
    line := {};
    var forwardX, forwardY := start.x, start.y;
    n := 0;
    while 0 <= forwardX < grid.width && 0 <= forwardY < grid.height
      invariant Point(forwardX, forwardY) == Along(start, s, n)
      invariant forall j :: 0 <= j < n ==> Along(start, s, j) in line
      invariant line <= LinePoints(grid, start, s)
      invariant n > 0 ==> InBounds(grid, start)
      decreases if stepX > 0 then grid.width - forwardX else if stepX < 0 then forwardX
        else if stepY > 0 then grid.height - forwardY else forwardY
    {
      LinePointsMeaning(grid, start, s, Along(start, s, n));
      line := line + {Point(forwardX, forwardY)};
      forwardX, forwardY := forwardX + stepX, forwardY + stepY;
      n := n + 1;
    }
  }

  /** The second loop of `trace_line`: start - step, start - 2 step, ...
      while on the grid; it stops at index n < 0. */
  method WalkBackward(grid: Map, start: Point, stepX: int, stepY: int, line0: set<Point>)
    returns (line: set<Point>, ghost n: int)
    requires stepX != 0 || stepY != 0
    requires line0 <= LinePoints(grid, start, Point(stepX, stepY))
    ensures line0 <= line <= LinePoints(grid, start, Point(stepX, stepY))
    ensures n < 0 && forall j :: n < j < 0 ==> Along(start, Point(stepX, stepY), j) in line
    ensures !InBounds(grid, Along(start, Point(stepX, stepY), n))
    ensures n < -1 ==> InBounds(grid, Along(start, Point(stepX, stepY), -1))
  {
    ghost var s := Point(stepX, stepY);
    line := line0;
    var backwardX, backwardY := start.x - stepX, start.y - stepY;
    n := -1;
    while 0 <= backwardX < grid.width && 0 <= backwardY < grid.height
      invariant WalkedBack(grid, start, s, line0, line, n) && Point(backwardX, backwardY) == Along(start, s, n)
      decreases if stepX > 0 then backwardX else if stepX < 0 then grid.width - backwardX
        else if stepY > 0 then backwardY else grid.height - backwardY
    {
      BackStep(grid, start, s, line0, line, n);
      line := line + {Point(backwardX, backwardY)};
      backwardX, backwardY := backwardX - stepX, backwardY - stepY;
      n := n - 1;
    }
  }

  /** The state of the second loop of `trace_line` at index n < 0: every
      point strictly between n and 0 collected, and only line points. */
  ghost predicate WalkedBack(grid: Map, start: Point, s: Point, line0: set<Point>, line: set<Point>, n: int)
  {
    n < 0 && (forall j :: n < j < 0 ==> Along(start, s, j) in line) &&
    line0 <= line <= LinePoints(grid, start, s) &&
    (n < -1 ==> InBounds(grid, Along(start, s, -1)))
  }

  /** One pass of the second loop: the point at index n, on the grid, is
      collected and the walk moves one step further back. */
  lemma BackStep(grid: Map, start: Point, s: Point, line0: set<Point>, line: set<Point>, n: int)
    requires s.x != 0 || s.y != 0
    requires WalkedBack(grid, start, s, line0, line, n) && InBounds(grid, Along(start, s, n))
    ensures WalkedBack(grid, start, s, line0, line + {Along(start, s, n)}, n - 1)
    ensures Along(start, s, n - 1) == Point(Along(start, s, n).x - s.x, Along(start, s, n).y - s.y)
  {
    LinePointsMeaning(grid, start, s, Along(start, s, n));
  }

  /** When both walks stop at the first point off the grid, they have
      collected every grid point of the line. */
  lemma LineComplete(grid: Map, start: Point, s: Point, forwardEnd: nat, backwardEnd: int, line: set<Point>)
    requires InBounds(grid, start) && forwardEnd > 0 && backwardEnd < 0
    requires !InBounds(grid, Along(start, s, forwardEnd)) && !InBounds(grid, Along(start, s, backwardEnd))
    requires forall j :: 0 <= j < forwardEnd ==> Along(start, s, j) in line
    requires forall j :: backwardEnd < j < 0 ==> Along(start, s, j) in line
    ensures LinePoints(grid, start, s) <= line
  {
    forall p | p in LinePoints(grid, start, s)
      ensures p in line
    {
      LinePointsMeaning(grid, start, s, p);
      var j :| p == Along(start, s, j);
      if j >= forwardEnd {
        Convex(grid, start, s, forwardEnd, j);
      } else if j <= backwardEnd {
        Convex(grid, start, s, backwardEnd, j);
      }
    }
  }

  /** `Map::mirrored_point`: 2a - b when that point is on the grid. */
  function MirroredPoint(grid: Map, a: Point, b: Point): (r: Option<Point>)
    ensures r.Some? ==> InBounds(grid, r.value)
  {
    var x, y := 2 * a.x - b.x, 2 * a.y - b.y;
    if 0 <= x < grid.width && 0 <= y < grid.height then Some(Point(x, y)) else None
  }

  /** The mirrored point is where a lies halfway between it and b; it is
      missing only when that point is off the grid. */
  lemma MirroredMeaning(grid: Map, a: Point, b: Point)
    ensures MirroredPoint(grid, a, b).Some? ==>
      var p := MirroredPoint(grid, a, b).value; p.x - a.x == a.x - b.x && p.y - a.y == a.y - b.y
    ensures MirroredPoint(grid, a, b).None? <==> !InBounds(grid, Point(2 * a.x - b.x, 2 * a.y - b.y))
  {
  }

  function OptionSet(o: Option<Point>): set<Point>
  {
    if o.Some? then {o.value} else {}
  }

  datatype Part = One | Two

  /** The antinodes a pair of antennas makes in each part. */
  ghost function Antinodes(part: Part, grid: Map, a: Point, b: Point): set<Point>
  {
    if part == One then OptionSet(MirroredPoint(grid, a, b)) + OptionSet(MirroredPoint(grid, b, a))
    else LinePoints(grid, a, Step(a, b))
  }

  lemma Scaled(g: int, s: int, d: int)
    requires g * s == d
    ensures (-g) * s == -d && (2 * g) * s == 2 * d
  {
  }

  /** Every part-one antinode of a pair is a part-two antinode of it: the
      two mirrored points lie on the line, one gcd-multiple of the step
      before a and two after. */
  lemma MirroredOnLine(grid: Map, a: Point, b: Point)
    requires a != b
    ensures Antinodes(One, grid, a, b) <= Antinodes(Two, grid, a, b)
  {
    StepMeaning(a, b);
    var g: int := Gcd(Abs(b.x - a.x), Abs(b.y - a.y));
    var s := Step(a, b);
    Scaled(g, s.x, b.x - a.x);
    Scaled(g, s.y, b.y - a.y);
    if MirroredPoint(grid, a, b).Some? {
      var p := MirroredPoint(grid, a, b).value;
      AlongClosedForm(a, s, -g);
      assert p == Along(a, s, -g);
      LinePointsMeaning(grid, a, s, p);
    }
    if MirroredPoint(grid, b, a).Some? {
      var p := MirroredPoint(grid, b, a).value;
      AlongClosedForm(a, s, 2 * g);
      assert p == Along(a, s, 2 * g);
      LinePointsMeaning(grid, a, s, p);
    }
  }

  /** The antinodes of the pairs (i, j') with i < j' < j: the inner loop
      of `tuple_combinations`. */
  ghost function Row(part: Part, grid: Map, points: seq<Point>, i: nat, j: nat): set<Point>
    requires i < |points| && j <= |points|
  {
    if j <= i + 1 then {} else Row(part, grid, points, i, j - 1) + Antinodes(part, grid, points[i], points[j - 1])
  }

  /** The antinodes of the pairs whose first index is below i. */
  ghost function Upper(part: Part, grid: Map, points: seq<Point>, i: nat): set<Point>
    requires i <= |points|
  {
    if i == 0 then {} else Upper(part, grid, points, i - 1) + Row(part, grid, points, i - 1, |points|)
  }

  /** The antinodes of the first g frequencies. */
  ghost function Collected(part: Part, grid: Map, groups: seq<seq<Point>>, g: nat): set<Point>
    requires g <= |groups|
  {
    if g == 0 then {} else Collected(part, grid, groups, g - 1) + Upper(part, grid, groups[g - 1], |groups[g - 1]|)
  }

  /** The pair (i, j) of frequency g makes the antinode p. */
  ghost predicate Gives(part: Part, grid: Map, groups: seq<seq<Point>>, g: int, i: int, j: int, p: Point)
  {
    0 <= g < |groups| && 0 <= i < j < |groups[g]| && p in Antinodes(part, grid, groups[g][i], groups[g][j])
  }

  lemma {:induction false} RowHas(part: Part, grid: Map, points: seq<Point>, i: nat, j: nat, j': nat, p: Point)
    requires i < j' < j <= |points| && p in Antinodes(part, grid, points[i], points[j'])
    ensures p in Row(part, grid, points, i, j)
  {
    if j' < j - 1 {
      RowHas(part, grid, points, i, j - 1, j', p);
    }
  }

  lemma {:induction false} RowFrom(part: Part, grid: Map, points: seq<Point>, i: nat, j: nat, p: Point)
    requires i < |points| && j <= |points| && p in Row(part, grid, points, i, j)
    ensures exists j' :: i < j' < j && p in Antinodes(part, grid, points[i], points[j'])
  {
    if p !in Antinodes(part, grid, points[i], points[j - 1]) {
      RowFrom(part, grid, points, i, j - 1, p);
    }
  }

  lemma {:induction false} UpperHas(part: Part, grid: Map, points: seq<Point>, n: nat, i: nat, j: nat, p: Point)
    requires n <= |points| && i < n && i < j < |points| && p in Antinodes(part, grid, points[i], points[j])
    ensures p in Upper(part, grid, points, n)
  {
    if i < n - 1 {
      UpperHas(part, grid, points, n - 1, i, j, p);
    } else {
      RowHas(part, grid, points, i, |points|, j, p);
    }
  }

  lemma {:induction false} UpperFrom(part: Part, grid: Map, points: seq<Point>, n: nat, p: Point)
    requires n <= |points| && p in Upper(part, grid, points, n)
    ensures exists i, j :: 0 <= i < j < |points| && p in Antinodes(part, grid, points[i], points[j])
  {
    if p in Row(part, grid, points, n - 1, |points|) {
      RowFrom(part, grid, points, n - 1, |points|, p);
    } else {
      UpperFrom(part, grid, points, n - 1, p);
    }
  }

  /** Every antinode of a pair of same-frequency antennas is collected. */
  lemma {:induction false} CollectedHas(part: Part, grid: Map, groups: seq<seq<Point>>, n: nat, g: nat, i: nat, j: nat, p: Point)
    requires n <= |groups| && g < n && Gives(part, grid, groups, g, i, j, p)
    ensures p in Collected(part, grid, groups, n)
  {
    if g < n - 1 {
      CollectedHas(part, grid, groups, n - 1, g, i, j, p);
    } else {
      UpperHas(part, grid, groups[g], |groups[g]|, i, j, p);
    }
  }

  /** Only antinodes of pairs of same-frequency antennas are collected. */
  lemma {:induction false} CollectedFrom(part: Part, grid: Map, groups: seq<seq<Point>>, n: nat, p: Point)
    requires n <= |groups| && p in Collected(part, grid, groups, n)
    ensures exists g, i, j :: Gives(part, grid, groups, g, i, j, p)
  {
    var points := groups[n - 1];
    if p in Upper(part, grid, points, |points|) {
      UpperFrom(part, grid, points, |points|, p);
      var i, j :| 0 <= i < j < |points| && p in Antinodes(part, grid, points[i], points[j]);
      assert Gives(part, grid, groups, n - 1, i, j, p);
    } else {
      CollectedFrom(part, grid, groups, n - 1, p);
    }
  }

  /** Two antennas of the same frequency never share a cell, and every
      antenna is on the grid: what `get_input` builds on a rectangular
      grid. */
  predicate WellPlaced(grid: Map, groups: seq<seq<Point>>)
  {
    forall g, i :: 0 <= g < |groups| && 0 <= i < |groups[g]| ==>
      InBounds(grid, groups[g][i]) && forall j :: i < j < |groups[g]| ==> groups[g][i] != groups[g][j]
  }

  /** Every part-one antinode is a part-two antinode. */
  lemma PartOneWithinPartTwo(grid: Map, groups: seq<seq<Point>>)
    requires WellPlaced(grid, groups)
    ensures Collected(One, grid, groups, |groups|) <= Collected(Two, grid, groups, |groups|)
  {
    forall p | p in Collected(One, grid, groups, |groups|)
      ensures p in Collected(Two, grid, groups, |groups|)
    {
      CollectedFrom(One, grid, groups, |groups|, p);
      var g, i, j :| Gives(One, grid, groups, g, i, j, p);
      MirroredOnLine(grid, groups[g][i], groups[g][j]);
      CollectedHas(Two, grid, groups, |groups|, g, i, j, p);
    }
  }

  /** The body of the pair loop: both mirrored points in part one, the
      traced line in part two. */
  method PairAntinodes(part: Part, grid: Map, a: Point, b: Point) returns (found: set<Point>)
    requires part == Two ==> a != b && InBounds(grid, a)
    ensures found == Antinodes(part, grid, a, b)
  {
    if part == One {
      found := {};
      var m := MirroredPoint(grid, a, b);
      if m.Some? {
        found := found + {m.value};
      }
      var m' := MirroredPoint(grid, b, a);
      if m'.Some? {
        found := found + {m'.value};
      }
    } else {
      found := TraceLine(grid, a, b);
    }
  }

  /** The inner loop of `tuple_combinations` for the first antenna i. */
  method AddRow(part: Part, grid: Map, points: seq<Point>, i: nat, antinodes: set<Point>) returns (r: set<Point>)
    requires i < |points|
    requires part == Two ==> InBounds(grid, points[i]) && forall j :: i < j < |points| ==> points[i] != points[j]
    ensures r == antinodes + Row(part, grid, points, i, |points|)
  {
    r := antinodes;
    for j := i + 1 to |points|
      invariant r == antinodes + Row(part, grid, points, i, j)
    {
      var found := PairAntinodes(part, grid, points[i], points[j]);
      r := r + found;
    }
  }

  /** The antinodes of all frequencies: the loops of `part_one` and
      `part_two` over the antenna groups and their pairs. */
  method CollectAntinodes(part: Part, grid: Map, groups: seq<seq<Point>>) returns (antinodes: set<Point>)
    requires part == Two ==> WellPlaced(grid, groups)
    ensures antinodes == Collected(part, grid, groups, |groups|)
  {
    antinodes := {};
    for g := 0 to |groups|
      invariant antinodes == Collected(part, grid, groups, g)
    {
      var points := groups[g];
      ghost var before := antinodes;
      for i := 0 to |points|
        invariant antinodes == before + Upper(part, grid, points, i)
      {
        antinodes := AddRow(part, grid, points, i, antinodes);
      }
    }
  }

  /** `part_one`: the number of distinct mirrored antinodes. */
  method PartOne(grid: Map, groups: seq<seq<Point>>) returns (count: nat)
    ensures count == |Collected(One, grid, groups, |groups|)|
  {
    var antinodes := CollectAntinodes(One, grid, groups);
    count := |antinodes|;
  }

  /** `part_two`: the number of distinct grid points on a line through two
      antennas of the same frequency. */
  method PartTwo(grid: Map, groups: seq<seq<Point>>) returns (count: nat)
    requires WellPlaced(grid, groups)
    ensures count == |Collected(Two, grid, groups, |groups|)|
  {
    var antinodes := CollectAntinodes(Two, grid, groups);
    count := |antinodes|;
  }
}
