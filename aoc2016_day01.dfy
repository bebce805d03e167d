/** No time for a taxicab (2016, day 1): starting at the origin facing up,
    each instruction turns left or right and walks a number of blocks.
    Part one reports where the walk ends; part two reports the first block
    visited twice, walking one block at a time. */
module Aoc2016Day01 {
  import opened Common

  /** `Direction`, with the enum values UP = 1 .. LEFT = 4. */
  datatype Direction = Up | Right | Down | Left

  /** `Rotation`: the values "L" and "R". */
  datatype Rotation = L | R

  datatype Pos = Pos(y: int, x: int)

  /** A parsed instruction: a rotation and a number of blocks. */
  datatype Instruction = Instruction(rotation: Rotation, steps: int)

  function Value(d: Direction): (v: int)
    ensures 1 <= v <= 4
  {
    match d
    case Up => 1
    case Right => 2
    case Down => 3
    case Left => 4
  }

  /** `Direction(v)`. */
  function FromValue(v: int): (d: Direction)
    requires 1 <= v <= 4
    ensures Value(d) == v
  {
    if v == 1 then Up else if v == 2 then Right else if v == 3 then Down else Left
  }

  function Symbol(r: Rotation): char
  {
    if r == L then 'L' else 'R'
  }

  /** `Direction.rotate`: `(value - 1) % 4 or 4` for "L", `(value + 1) % 4
      or 4` for "R", None for anything else. */
  function Rotate(d: Direction, rotation: char): (r: Option<Direction>)
    ensures r.Some? <==> rotation == 'L' || rotation == 'R'
  {
    if rotation == 'L' then
      var v := (Value(d) - 1) % 4;
      Some(FromValue(if v == 0 then 4 else v))
    else if rotation == 'R' then
      var v := (Value(d) + 1) % 4;
      Some(FromValue(if v == 0 then 4 else v))
    else None
  }

  /** The direction after a quarter turn: clockwise for R. */
  function Turn(d: Direction, r: Rotation): Direction
  {
    match (d, r)
    case (Up, L) => Left
    case (Right, L) => Up
    case (Down, L) => Right
    case (Left, L) => Down
    case (Up, R) => Right
    case (Right, R) => Down
    case (Down, R) => Left
    case (Left, R) => Up
  }

  /** The modular arithmetic of `rotate` is a quarter turn, and keeps the
      value in 1..4. */
  lemma RotateIsTurn(d: Direction, r: Rotation)
    ensures Rotate(d, Symbol(r)) == Some(Turn(d, r))
  {
    var v := Value(d);
    if r == L {
      assert (v - 1) % 4 == if v == 1 then 0 else v - 1;
    } else {
      assert (v + 1) % 4 == if v == 4 then 1 else if v == 3 then 0 else v + 1;
    }
  }

  /** Turning right then left, or left then right, faces the same way. */
  lemma TurnsCancel(d: Direction)
    ensures Turn(Turn(d, R), L) == d && Turn(Turn(d, L), R) == d
  {
  }

  /** Four right turns, or four left turns, come back round. */
  lemma FourTurns(d: Direction, r: Rotation)
    ensures Turn(Turn(Turn(Turn(d, r), r), r), r) == d
  {
  }

  /** `Direction.advance`: the (delta_x, delta_y) of `steps` blocks. */
  function Advance(d: Direction, steps: int): (int, int)
  {
    match d
    case Up => (0, steps)
    case Down => (0, -steps)
    case Left => (-steps, 0)
    case Right => (steps, 0)
  }

  /** `Direction.advance_one_step`. */
  function AdvanceOneStep(d: Direction): (int, int)
  {
    match d
    case Up => (0, 1)
    case Down => (0, -1)
    case Left => (-1, 0)
    case Right => (1, 0)
  }

  function Move(p: Pos, delta: (int, int)): Pos
  {
    Pos(p.y + delta.1, p.x + delta.0)
  }

  /** n single blocks from p in direction d. */
  function StepN(p: Pos, d: Direction, n: nat): Pos
  {
    if n == 0 then p else Move(StepN(p, d, n - 1), AdvanceOneStep(d))
  }

  /** Walking n blocks at once ends where n single blocks end. */
  lemma {:induction false} AdvanceIsRepeatedStep(p: Pos, d: Direction, n: nat)
    ensures Move(p, Advance(d, n)) == StepN(p, d, n)
  {
    if n > 0 {
      AdvanceIsRepeatedStep(p, d, n - 1);
    }
  }

  datatype Walker = Walker(dir: Direction, pos: Pos)

  /** Facing and position after the instructions of part one. */
  function Walk(instrs: seq<Instruction>): Walker
  {
    if instrs == [] then Walker(Up, Pos(0, 0))
    else
      var prev, last := Walk(instrs[..|instrs| - 1]), instrs[|instrs| - 1];
      var dir := Turn(prev.dir, last.rotation);
      Walker(dir, Move(prev.pos, Advance(dir, last.steps)))
  }

  /** The loop of `part_one`: the walk followed turn by turn, leaving the
      end point (y, x). */
  method EndPoint(instrs: seq<Instruction>) returns (y: int, x: int)
    ensures Walk(instrs).pos == Pos(y, x)
  {
    y, x := 0, 0;
    var direction := Up;
    for i := 0 to |instrs|
      invariant Walk(instrs[..i]) == Walker(direction, Pos(y, x))
    {
      assert instrs[..i + 1][..i] == instrs[..i];
      RotateIsTurn(direction, instrs[i].rotation);
      direction := Rotate(direction, Symbol(instrs[i].rotation)).value;
      var (deltaX, deltaY) := Advance(direction, instrs[i].steps);
      y, x := y + deltaY, x + deltaX;
    }
    assert instrs[..|instrs|] == instrs;
  }

  /** `part_one`, as written: the signed sum y + x of the end point. */
  method PartOne(instrs: seq<Instruction>) returns (r: int)
    ensures r == Walk(instrs).pos.y + Walk(instrs).pos.x
  {
    var y, x := EndPoint(instrs);
    return y + x;
  }

  /** Part one as intended: the blocks distance of the end point, never
      negative and the same for the mirrored walk. */
  method BlocksAway(instrs: seq<Instruction>) returns (r: nat)
    ensures r == Distance(Walk(instrs).pos)
    ensures r == Distance(Walk(Mirror(instrs)).pos)
  {
    var y, x := EndPoint(instrs);
    PartOneDistanceMirrored(instrs);
    return Abs(y) + Abs(x);
  }

  /** The blocks distance from the origin, which the puzzle asks for. */
  function Distance(p: Pos): nat
  {
    Abs(p.y) + Abs(p.x)
  }

  /** The left-right mirror image of a direction. */
  function MirrorDir(d: Direction): Direction
  {
    match d
    case Up => Up
    case Down => Down
    case Left => Right
    case Right => Left
  }

  function MirrorRotation(r: Rotation): Rotation
  {
    if r == L then R else L
  }

  /** Mirroring exchanges left and right turns. */
  lemma TurnMirror(d: Direction, r: Rotation)
    ensures Turn(MirrorDir(d), MirrorRotation(r)) == MirrorDir(Turn(d, r))
  {
  }

  /** The same instructions with every L and R exchanged. */
  function Mirror(instrs: seq<Instruction>): (m: seq<Instruction>)
    ensures |m| == |instrs|
  {
    if instrs == [] then []
    else
      var last := instrs[|instrs| - 1];
      Mirror(instrs[..|instrs| - 1]) + [Instruction(MirrorRotation(last.rotation), last.steps)]
  }

  /** The mirrored walk is the reflection of the walk in the vertical axis. */
  lemma {:induction false} MirrorWalk(instrs: seq<Instruction>)
    ensures Walk(Mirror(instrs)).dir == MirrorDir(Walk(instrs).dir)
    ensures Walk(Mirror(instrs)).pos == Pos(Walk(instrs).pos.y, -Walk(instrs).pos.x)
  {
    if instrs != [] {
      var m := Mirror(instrs);
      MirrorWalk(instrs[..|instrs| - 1]);
      assert m[..|m| - 1] == Mirror(instrs[..|instrs| - 1]);
    }
  }

  /** What part one should report: the distance of the end point.  It does
      not depend on which hand the walk turns. */
  lemma PartOneDistanceMirrored(instrs: seq<Instruction>)
    ensures Distance(Walk(Mirror(instrs)).pos) == Distance(Walk(instrs).pos)
  {
    MirrorWalk(instrs);
  }

  /** The signed sum is not the distance: "L3" ends three blocks away at
      x = -3, and part one reports -3. */
  lemma SignedSumLeft()
    ensures Walk([Instruction(L, 3)]).pos == Pos(0, -3)
  {
    var left := [Instruction(L, 3)];
    assert left[..0] == [];
  }

  /** Mirrored, the same walk "R3" is reported as 3, while the distance is
      the same. */
  lemma SignedSumRight()
    ensures Walk([Instruction(R, 3)]).pos == Pos(0, 3)
  {
    var right := [Instruction(R, 3)];
    assert right[..0] == [];
  }

  /** The blocks `range(steps)` visits one at a time from p: none when
      steps is negative. */
  function Trail(p: Pos, d: Direction, n: nat): (t: seq<Pos>)
    ensures |t| == n
  {
    if n == 0 then [] else Trail(p, d, n - 1) + [StepN(p, d, n)]
  }

  function StepCount(steps: int): nat
  {
    if steps < 0 then 0 else steps
  }

  function Last(cells: seq<Pos>): Pos
    requires cells != []
  {
    cells[|cells| - 1]
  }

  datatype Route = Route(dir: Direction, cells: seq<Pos>)

  /** Facing and every block visited by part two, the origin first. */
  function RouteOf(instrs: seq<Instruction>): (r: Route)
    ensures r.cells != []
  {
    if instrs == [] then Route(Up, [Pos(0, 0)])
    else
      var prev, last := RouteOf(instrs[..|instrs| - 1]), instrs[|instrs| - 1];
      var dir := Turn(prev.dir, last.rotation);
      Route(dir, prev.cells + Trail(Last(prev.cells), dir, StepCount(last.steps)))
  }

  /** Instruction i extends the route of the instructions before it. */
  lemma RouteStep(instrs: seq<Instruction>, i: nat)
    requires i < |instrs|
    ensures var prev := RouteOf(instrs[..i]);
      var dir := Turn(prev.dir, instrs[i].rotation);
      RouteOf(instrs[..i + 1]) == Route(dir, prev.cells + Trail(Last(prev.cells), dir, StepCount(instrs[i].steps)))
  {
    assert instrs[..i + 1][..i] == instrs[..i];
  }

  /** With no backward instructions, part two walks the route of part one:
      same facing, and its last block is part one's end point. */
  lemma {:induction false} RouteFollowsWalk(instrs: seq<Instruction>)
    requires forall k :: 0 <= k < |instrs| ==> instrs[k].steps >= 0
    ensures RouteOf(instrs).dir == Walk(instrs).dir
    ensures Last(RouteOf(instrs).cells) == Walk(instrs).pos
  {
    if instrs != [] {
      var init, last := instrs[..|instrs| - 1], instrs[|instrs| - 1];
      RouteFollowsWalk(init);
      var prev := RouteOf(init);
      var p := Last(prev.cells);
      var dir := Turn(prev.dir, last.rotation);
      AdvanceIsRepeatedStep(p, dir, last.steps);
      var t := Trail(p, dir, last.steps);
      if last.steps > 0 {
        assert Last(prev.cells + t) == t[last.steps - 1] == StepN(p, dir, last.steps);
      } else {
        assert prev.cells + t == prev.cells;
      }
    }
  }

  /** The first block that is visited a second time, in walking order. */
  function FirstRevisit(cells: seq<Pos>): Option<Pos>
  {
    if cells == [] then None
    else
      var r := FirstRevisit(cells[..|cells| - 1]);
      if r.Some? then r
      else if Last(cells) in cells[..|cells| - 1] then Some(Last(cells))
      else None
  }

  /** A first revisit is a block that occurs at least twice; without one,
      no block occurs twice. */
  lemma {:induction false} FirstRevisitMeaning(cells: seq<Pos>)
    ensures FirstRevisit(cells).Some? ==> multiset(cells)[FirstRevisit(cells).value] >= 2
    ensures FirstRevisit(cells).None? ==> forall i, j :: 0 <= i < j < |cells| ==> cells[i] != cells[j]
  {
    if cells != [] {
      var init := cells[..|cells| - 1];
      FirstRevisitMeaning(init);
      assert cells == init + [Last(cells)];
    }
  }

  predicate IsPrefix(a: seq<Pos>, b: seq<Pos>)
  {
    |a| <= |b| && b[..|a|] == a
  }

  lemma PrefixTrans(a: seq<Pos>, b: seq<Pos>, c: seq<Pos>)
    requires IsPrefix(a, b) && IsPrefix(b, c)
    ensures IsPrefix(a, c)
  {
    assert c[..|a|] == c[..|b|][..|a|];
  }

  lemma PrefixAppend(base: seq<Pos>, a: seq<Pos>, b: seq<Pos>)
    requires IsPrefix(a, b)
    ensures IsPrefix(base + a, base + b)
  {
    assert (base + b)[..|base + a|] == base + b[..|a|];
  }

  /** Walking further does not change the first revisit once there is one. */
  lemma {:induction false} FirstRevisitPrefix(a: seq<Pos>, b: seq<Pos>)
    requires IsPrefix(a, b) && FirstRevisit(a).Some?
    ensures FirstRevisit(b) == FirstRevisit(a)
  {
    if |b| > |a| {
      var init := b[..|b| - 1];
      assert init[..|a|] == a;
      FirstRevisitPrefix(a, init);
    } else {
      assert b == a;
    }
  }

  lemma {:induction false} TrailPrefix(p: Pos, d: Direction, j: nat, n: nat)
    requires j <= n
    ensures IsPrefix(Trail(p, d, j), Trail(p, d, n))
  {
    if j < n {
      TrailPrefix(p, d, j, n - 1);
      assert Trail(p, d, n)[..n - 1] == Trail(p, d, n - 1);
    }
  }

  lemma {:induction false} RoutePrefix(instrs: seq<Instruction>, i: nat)
    requires i <= |instrs|
    ensures IsPrefix(RouteOf(instrs[..i]).cells, RouteOf(instrs).cells)
  {
    if i < |instrs| {
      var init := instrs[..|instrs| - 1];
      assert instrs[..i] == init[..i];
      RoutePrefix(init, i);
      var a, b := RouteOf(init).cells, RouteOf(instrs).cells;
      assert b[..|a|] == a;
    } else {
      assert instrs[..i] == instrs;
    }
  }

  /** A route walked up to block j + 1 of instruction i is a prefix of the
      whole route. */
  lemma PartialRoutePrefix(instrs: seq<Instruction>, i: nat, j: nat, prev: Route, p: Pos, d: Direction)
    requires i < |instrs| && j < StepCount(instrs[i].steps)
    requires prev == RouteOf(instrs[..i]) && p == Last(prev.cells) && d == Turn(prev.dir, instrs[i].rotation)
    ensures IsPrefix(prev.cells + Trail(p, d, j + 1), RouteOf(instrs).cells)
  {
    var n := StepCount(instrs[i].steps);
    TrailPrefix(p, d, j + 1, n);
    PrefixAppend(prev.cells, Trail(p, d, j + 1), Trail(p, d, n));
    RouteStep(instrs, i);
    RoutePrefix(instrs, i + 1);
    PrefixTrans(prev.cells + Trail(p, d, j + 1), prev.cells + Trail(p, d, n), RouteOf(instrs).cells);
  }

  /** The signed sum of a block, as `part_two` returns it. */
  function SignedSum(c: Option<Pos>): Option<int>
  {
    if c.Some? then Some(c.value.y + c.value.x) else None
  }

  /** `part_two`, as written: walk one block at a time, remembering every
      block, and stop at the first one seen before, returning its signed
      sum y + x; None where the source raises "No solution found". */
  method PartTwo(instrs: seq<Instruction>) returns (r: Option<int>)
    ensures r == SignedSum(FirstRevisit(RouteOf(instrs).cells))
  {
    var y, x := 0, 0;
    var direction := Up;
    var history: set<Pos> := {Pos(y, x)};
    ghost var cells := [Pos(0, 0)];
    for i := 0 to |instrs|
      invariant Walked(instrs, i, Pos(y, x), direction, history, cells)
    {
      var found;
      found, y, x, direction, history, cells := WalkInstruction(instrs, i, y, x, direction, history, cells);
      if found {
        return Some(y + x);
      }
    }
    assert instrs[..|instrs|] == instrs;
    return None;
  }

  /** The state of `part_two` after the first i instructions: the blocks
      walked so far are those of the route, none of them twice, the
      position is the last of them and the history holds exactly them. */
  ghost predicate Walked(instrs: seq<Instruction>, i: nat, p: Pos, direction: Direction, history: set<Pos>, cells: seq<Pos>)
  {
    i <= |instrs| && RouteOf(instrs[..i]) == Route(direction, cells) &&
    cells != [] && p == Last(cells) &&
    (forall c :: c in history <==> c in cells) && FirstRevisit(cells) == None
  }

  /** One pass of the outer loop of `part_two`: turn, then walk the blocks
      of instruction i; either a block seen before is met, and it is the
      first revisit of the whole route, or the state moves on by one
      instruction. */
  method WalkInstruction(instrs: seq<Instruction>, i: nat, y0: int, x0: int, direction0: Direction,
                         history0: set<Pos>, ghost cells0: seq<Pos>)
    returns (found: bool, y: int, x: int, direction: Direction, history: set<Pos>, ghost cells: seq<Pos>)
    requires i < |instrs| && Walked(instrs, i, Pos(y0, x0), direction0, history0, cells0)
    ensures found ==> FirstRevisit(RouteOf(instrs).cells) == Some(Pos(y, x))
    ensures !found ==> Walked(instrs, i + 1, Pos(y, x), direction, history, cells)
  {
    RouteStep(instrs, i);
    RotateIsTurn(direction0, instrs[i].rotation);
    ghost var prev := Route(direction0, cells0);
    direction := Rotate(direction0, Symbol(instrs[i].rotation)).value;
    ghost var j: nat;
    found, y, x, history, cells, j := WalkBlocks(Pos(y0, x0), direction, StepCount(instrs[i].steps), history0, cells0);
    if found {
      PartialRoutePrefix(instrs, i, j, prev, Last(prev.cells), direction);
      FirstRevisitPrefix(prev.cells + Trail(Last(prev.cells), direction, j + 1), RouteOf(instrs).cells);
    }
  }

  /** The inner loop of `part_two`: n single blocks from `start`.  Either
      block j + 1 is the first revisit, or all n blocks are new and have
      been added to the history. */
  method WalkBlocks(start: Pos, direction: Direction, n: nat, history0: set<Pos>, ghost base: seq<Pos>)
    returns (found: bool, y: int, x: int, history: set<Pos>, ghost cells: seq<Pos>, ghost j: nat)
    requires base != [] && Last(base) == start
    requires forall c :: c in history0 <==> c in base
    requires FirstRevisit(base) == None
    ensures found ==> j < n && FirstRevisit(base + Trail(start, direction, j + 1)) == Some(Pos(y, x))
    ensures !found ==> cells == base + Trail(start, direction, n) && Pos(y, x) == Last(cells)
    ensures !found ==> (forall c :: c in history <==> c in cells) && FirstRevisit(cells) == None
  {
    var (deltaX, deltaY) := AdvanceOneStep(direction);
    y, x, history, cells := start.y, start.x, history0, base;
    for k := 0 to n
      invariant Pos(y, x) == StepN(start, direction, k)
      invariant cells == base + Trail(start, direction, k)
      invariant cells != [] && Pos(y, x) == Last(cells)
      invariant forall c :: c in history <==> c in cells
      invariant FirstRevisit(cells) == None
    {
      y, x := y + deltaY, x + deltaX;
      ghost var walked := cells + [Pos(y, x)];
      assert walked[..|cells|] == cells;
      assert walked == base + Trail(start, direction, k + 1);
      if Pos(y, x) in history {
        return true, y, x, history, cells, k;
      }
      history := history + {Pos(y, x)};
      cells := walked;
    }
    found, j := false, 0;
  }

  /** What part two should report: the distance of the first revisited
      block. */
  function RevisitDistance(instrs: seq<Instruction>): Option<nat>
  {
    var c := FirstRevisit(RouteOf(instrs).cells);
    if c.Some? then Some(Distance(c.value)) else None
  }

  function MirrorPos(p: Pos): Pos
  {
    Pos(p.y, -p.x)
  }

  function MirrorCells(cells: seq<Pos>): (m: seq<Pos>)
    ensures |m| == |cells|
  {
    if cells == [] then [] else MirrorCells(cells[..|cells| - 1]) + [MirrorPos(Last(cells))]
  }

  lemma {:induction false} MirrorCellsAppend(a: seq<Pos>, b: seq<Pos>)
    ensures MirrorCells(a + b) == MirrorCells(a) + MirrorCells(b)
  {
    if b != [] {
      assert (a + b)[..|a + b| - 1] == a + b[..|b| - 1];
      MirrorCellsAppend(a, b[..|b| - 1]);
    } else {
      assert a + b == a;
    }
  }

  lemma {:induction false} StepNMirror(p: Pos, d: Direction, n: nat)
    ensures StepN(MirrorPos(p), MirrorDir(d), n) == MirrorPos(StepN(p, d, n))
  {
    if n > 0 {
      StepNMirror(p, d, n - 1);
    }
  }

  lemma {:induction false} TrailMirror(p: Pos, d: Direction, n: nat)
    ensures Trail(MirrorPos(p), MirrorDir(d), n) == MirrorCells(Trail(p, d, n))
  {
    if n > 0 {
      TrailMirror(p, d, n - 1);
      StepNMirror(p, d, n);
      assert Trail(p, d, n)[..n - 1] == Trail(p, d, n - 1);
    }
  }

  /** The mirrored instructions visit the mirror images of the blocks. */
  lemma {:induction false} RouteMirror(instrs: seq<Instruction>)
    ensures RouteOf(Mirror(instrs)) == Route(MirrorDir(RouteOf(instrs).dir), MirrorCells(RouteOf(instrs).cells))
  {
    if instrs != [] {
      var init, last := instrs[..|instrs| - 1], instrs[|instrs| - 1];
      var m := Mirror(instrs);
      assert m[..|m| - 1] == Mirror(init);
      RouteMirror(init);
      var prev := RouteOf(init);
      var dir := Turn(prev.dir, last.rotation);
      TurnMirror(prev.dir, last.rotation);
      var n := StepCount(last.steps);
      var t := Trail(Last(prev.cells), dir, n);
      MirrorCellsAppend(prev.cells, t);
      TrailMirror(Last(prev.cells), dir, n);
      var mprev := RouteOf(Mirror(init));
      assert Last(mprev.cells) == MirrorPos(Last(prev.cells));
      var mt := Trail(MirrorPos(Last(prev.cells)), MirrorDir(dir), n);
      assert RouteOf(m) == Route(MirrorDir(dir), mprev.cells + mt);
      assert RouteOf(instrs) == Route(dir, prev.cells + t);
      assert MirrorCells(prev.cells + t) == mprev.cells + mt;
    } else {
      var origin := [Pos(0, 0)];
      assert origin[..0] == [];
      assert MirrorCells(origin) == origin;
    }
  }

  lemma {:induction false} MirrorIn(cells: seq<Pos>, c: Pos)
    ensures c in cells <==> MirrorPos(c) in MirrorCells(cells)
  {
    if cells != [] {
      var init := cells[..|cells| - 1];
      MirrorIn(init, c);
      assert cells == init + [Last(cells)];
    }
  }

  function MirrorOption(c: Option<Pos>): Option<Pos>
  {
    if c.Some? then Some(MirrorPos(c.value)) else None
  }

  lemma {:induction false} FirstRevisitMirror(cells: seq<Pos>)
    ensures FirstRevisit(MirrorCells(cells)) == MirrorOption(FirstRevisit(cells))
  {
    if cells != [] {
      var init := cells[..|cells| - 1];
      FirstRevisitMirror(init);
      MirrorIn(init, Last(cells));
      var m := MirrorCells(cells);
      assert m[..|m| - 1] == MirrorCells(init);
    }
  }

  /** The distance of the first revisited block does not depend on which
      hand the walk turns; the signed sum part two reports does. */
  lemma RevisitDistanceMirrored(instrs: seq<Instruction>)
    ensures RevisitDistance(Mirror(instrs)) == RevisitDistance(instrs)
  {
    RouteMirror(instrs);
    FirstRevisitMirror(RouteOf(instrs).cells);
    var c := FirstRevisit(RouteOf(instrs).cells);
    if c.Some? {
      DistanceMirror(c.value);
    }
  }

  lemma DistanceMirror(p: Pos)
    ensures Distance(MirrorPos(p)) == Distance(p)
  {
  }
}
