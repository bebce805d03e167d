/** Guard gallivant (2024, day 6): a guard walks on a grid of obstacles,
    going straight ahead and turning right in front of an obstacle, until
    it steps off the grid.  Part one counts the distinct cells it stands
    on, the start included. */
module Aoc2024Day06 {
  import opened Common

  datatype Direction = Up | Down | Left | Right

  datatype Point = Point(x: nat, y: nat)

  /** The guard's whole state, as a value. */
  datatype State = State(direction: Direction, position: Point)

  /** The grid has at least one row and all rows are as long as the
      first, which the edge tests and the indexing rely on. */
  predicate Rectangular(obstacles: seq<seq<bool>>)
  {
    |obstacles| > 0 && forall y :: 0 <= y < |obstacles| ==> |obstacles[y]| == |obstacles[0]|
  }

  function Width(obstacles: seq<seq<bool>>): nat
    requires |obstacles| > 0
  {
    |obstacles[0]|
  }

  predicate InGrid(x: int, y: int, obstacles: seq<seq<bool>>)
    requires Rectangular(obstacles)
  {
    0 <= y < |obstacles| && 0 <= x < Width(obstacles)
  }

  predicate InBounds(p: Point, obstacles: seq<seq<bool>>)
    requires Rectangular(obstacles)
  {
    InGrid(p.x, p.y, obstacles)
  }

  /** `rotate_right`: the quarter turn clockwise. */
  function Clockwise(d: Direction): Direction
  {
    match d
    case Up => Right
    case Right => Down
    case Down => Left
    case Left => Up
  }

  /** The unit move of each direction, y growing downwards. */
  function Delta(d: Direction): (int, int)
  {
    match d
    case Up => (0, -1)
    case Down => (0, 1)
    case Left => (-1, 0)
    case Right => (1, 0)
  }

  /** Four quarter turns come back to the start, and no fewer do. */
  lemma ClockwiseCycle(d: Direction)
    ensures Clockwise(Clockwise(Clockwise(Clockwise(d)))) == d
    ensures Clockwise(d) != d && Clockwise(Clockwise(d)) != d
      && Clockwise(Clockwise(Clockwise(d))) != d
    ensures Delta(Clockwise(d)) == (-Delta(d).1, Delta(d).0)
  {
    match d
    case Up =>
    case Right =>
    case Down =>
    case Left =>
  }

  /** The edge of the grid the guard faces: the test made before looking
      ahead, with the right edge at the last column. */
  predicate AtEdge(s: State, obstacles: seq<seq<bool>>)
    requires Rectangular(obstacles)
  {
    match s.direction
    case Up => s.position.y == 0
    case Down => s.position.y == |obstacles| - 1
    case Left => s.position.x == 0
    case Right => s.position.x == Width(obstacles) - 1
  }

  /** The cell in front of a guard that is not at the edge it faces. */
  function Ahead(s: State, obstacles: seq<seq<bool>>): (q: Point)
    requires Rectangular(obstacles) && InBounds(s.position, obstacles)
    requires !AtEdge(s, obstacles)
    ensures InBounds(q, obstacles)
  {
    var p := s.position;
    match s.direction
    case Up => Point(p.x, p.y - 1)
    case Down => Point(p.x, p.y + 1)
    case Left => Point(p.x - 1, p.y)
    case Right => Point(p.x + 1, p.y)
  }

  /** `move_one_step` with the right edge at the last column: None where
      the source returns `Err`, otherwise the state after turning in front
      of an obstacle or stepping ahead. */
  function Step(s: State, obstacles: seq<seq<bool>>): (r: Option<State>)
    requires Rectangular(obstacles) && InBounds(s.position, obstacles)
    ensures r.Some? ==> InBounds(r.value.position, obstacles)
  {
    if AtEdge(s, obstacles) then None
    else
      var q := Ahead(s, obstacles);
      if obstacles[q.y][q.x] then Some(State(Clockwise(s.direction), s.position))
      else Some(State(s.direction, q))
  }

  /** A step fails exactly when the cell one unit ahead is off the grid;
      otherwise an obstacle there turns the guard right where it stands,
      and a free cell is where it goes, facing the same way. */
  lemma StepMeaning(s: State, obstacles: seq<seq<bool>>)
    requires Rectangular(obstacles) && InBounds(s.position, obstacles)
    ensures var (dx, dy) := Delta(s.direction);
      var (x, y) := (s.position.x + dx, s.position.y + dy);
      (Step(s, obstacles).None? <==> !InGrid(x, y, obstacles))
      && (InGrid(x, y, obstacles) && obstacles[y][x] ==>
            Step(s, obstacles) == Some(State(Clockwise(s.direction), s.position)))
      && (InGrid(x, y, obstacles) && !obstacles[y][x] ==>
            Step(s, obstacles) == Some(State(s.direction, Point(x, y))))
  {
  }

  /** A guard that does not stand on an obstacle never steps onto one. */
  lemma StepAvoidsObstacles(s: State, obstacles: seq<seq<bool>>)
    requires Rectangular(obstacles) && InBounds(s.position, obstacles)
    requires !obstacles[s.position.y][s.position.x]
    ensures Step(s, obstacles).Some? ==>
      var p := Step(s, obstacles).value.position;
      !obstacles[p.y][p.x]
  {
  }

  /** What `move_one_step` as written can do: end the walk, go on in a
      new state, or index past the end of a row. */
  datatype Outcome = Exited | Moved(next: State) | IndexOutOfRange

  /** `move_one_step` as written: the right edge test compares the column
      with the row length, so a guard in the last column facing right
      looks at the cell past the end of its row. */
  function StepAsWritten(s: State, obstacles: seq<seq<bool>>): Outcome
    requires Rectangular(obstacles) && InBounds(s.position, obstacles)
  {
    var p := s.position;
    match s.direction
    case Up =>
      if p.y == 0 then Exited
      else if obstacles[p.y - 1][p.x] then Moved(State(Right, p))
      else Moved(State(Up, Point(p.x, p.y - 1)))
    case Down =>
      if p.y == |obstacles| - 1 then Exited
      else if obstacles[p.y + 1][p.x] then Moved(State(Left, p))
      else Moved(State(Down, Point(p.x, p.y + 1)))
    case Left =>
      if p.x == 0 then Exited
      else if obstacles[p.y][p.x - 1] then Moved(State(Up, p))
      else Moved(State(Left, Point(p.x - 1, p.y)))
    case Right =>
      if p.x == Width(obstacles) then Exited
      else if p.x + 1 >= |obstacles[p.y]| then IndexOutOfRange
      else if obstacles[p.y][p.x + 1] then Moved(State(Down, p))
      else Moved(State(Right, Point(p.x + 1, p.y)))
  }

  /** A guard in the last column facing right makes the code as written
      index out of range, where the walk should simply end. */
  lemma RightEdgeOutOfRange(s: State, obstacles: seq<seq<bool>>)
    requires Rectangular(obstacles) && InBounds(s.position, obstacles)
    requires s.direction == Right && s.position.x == Width(obstacles) - 1
    ensures StepAsWritten(s, obstacles) == IndexOutOfRange
    ensures Step(s, obstacles) == None
  {
  }

  /** Everywhere else the code as written does what Step does. */
  lemma AsWrittenAgreesElsewhere(s: State, obstacles: seq<seq<bool>>)
    requires Rectangular(obstacles) && InBounds(s.position, obstacles)
    requires !(s.direction == Right && s.position.x == Width(obstacles) - 1)
    ensures StepAsWritten(s, obstacles) ==
      match Step(s, obstacles)
      case None => Exited
      case Some(t) => Moved(t)
  {
  }

  /** The cells visited from `s` until the guard leaves the grid, the
      first one included; None when it has not left within `fuel` steps. */
  function Visited(s: State, obstacles: seq<seq<bool>>, fuel: nat): Option<set<Point>>
    requires Rectangular(obstacles) && InBounds(s.position, obstacles)
    decreases fuel
  {
    if fuel == 0 then None
    else
      match Step(s, obstacles)
      case None => Some({s.position})
      case Some(t) => Join({s.position}, Visited(t, obstacles, fuel - 1))
  }

  function Join(seen: set<Point>, rest: Option<set<Point>>): Option<set<Point>>
  {
    match rest
    case None => None
    case Some(more) => Some(seen + more)
  }

  /** The start cell is always among the visited ones. */
  lemma VisitedHasStart(s: State, obstacles: seq<seq<bool>>, fuel: nat)
    requires Rectangular(obstacles) && InBounds(s.position, obstacles)
    ensures Visited(s, obstacles, fuel).Some? ==> s.position in Visited(s, obstacles, fuel).value
  {
  }

  /** Every visited cell is on the grid, and none holds an obstacle when
      the start does not. */
  lemma {:induction false} VisitedCells(s: State, obstacles: seq<seq<bool>>, fuel: nat)
    requires Rectangular(obstacles) && InBounds(s.position, obstacles)
    ensures Visited(s, obstacles, fuel).Some? ==>
      forall p :: p in Visited(s, obstacles, fuel).value ==>
        InBounds(p, obstacles) && (!obstacles[s.position.y][s.position.x] ==> !obstacles[p.y][p.x])
    decreases fuel
  {
    if fuel > 0 {
      match Step(s, obstacles)
      case None =>
      case Some(t) =>
        VisitedCells(t, obstacles, fuel - 1);
        if !obstacles[s.position.y][s.position.x] {
          StepAvoidsObstacles(s, obstacles);
        }
    }
  }

  /** More fuel does not change a walk that already ended. */
  lemma {:induction false} VisitedFuel(s: State, obstacles: seq<seq<bool>>, fuel: nat, more: nat)
    requires Rectangular(obstacles) && InBounds(s.position, obstacles)
    requires Visited(s, obstacles, fuel).Some? && fuel <= more
    ensures Visited(s, obstacles, more) == Visited(s, obstacles, fuel)
    decreases fuel
  {
    match Step(s, obstacles)
    case None =>
    case Some(t) => VisitedFuel(t, obstacles, fuel - 1, more - 1);
  }

  /** The count part one gives for a walk that ends within `fuel` steps. */
  function CountVisited(s: State, obstacles: seq<seq<bool>>, fuel: nat): (r: Option<nat>)
    requires Rectangular(obstacles) && InBounds(s.position, obstacles)
    ensures r.Some? ==> r.value >= 1
  {
    VisitedHasStart(s, obstacles, fuel);
    match Visited(s, obstacles, fuel)
    case None => None
    case Some(cells) => Some(|cells|)
  }

  /** The walk from `s` is the walk from `s` with its start added. */
  lemma WalkStarts(s: State, obstacles: seq<seq<bool>>, fuel: nat)
    requires Rectangular(obstacles) && InBounds(s.position, obstacles)
    ensures Visited(s, obstacles, fuel) == Join({s.position}, Visited(s, obstacles, fuel))
  {
    VisitedHasStart(s, obstacles, fuel);
    if Visited(s, obstacles, fuel).Some? {
      assert {s.position} + Visited(s, obstacles, fuel).value == Visited(s, obstacles, fuel).value;
    }
  }

  /** Cells already seen, then a walk that goes on for one more step. */
  lemma WalkGoesOn(seen: set<Point>, s: State, obstacles: seq<seq<bool>>, left: nat)
    requires Rectangular(obstacles) && InBounds(s.position, obstacles)
    requires left > 0 && s.position in seen && Step(s, obstacles).Some?
    ensures var t := Step(s, obstacles).value;
      Join(seen, Visited(s, obstacles, left))
        == Join(seen + {t.position}, Visited(t, obstacles, left - 1))
  {
    var t := Step(s, obstacles).value;
    var rest := Visited(t, obstacles, left - 1);
    assert Visited(s, obstacles, left) == Join({s.position}, rest);
    VisitedHasStart(t, obstacles, left - 1);
    if rest.Some? {
      assert seen + ({s.position} + rest.value) == seen + {t.position} + rest.value;
    }
  }

  /** Cells already seen, then a walk that ends at once. */
  lemma WalkEnds(seen: set<Point>, s: State, obstacles: seq<seq<bool>>, left: nat)
    requires Rectangular(obstacles) && InBounds(s.position, obstacles)
    requires left > 0 && s.position in seen && Step(s, obstacles).None?
    ensures Join(seen, Visited(s, obstacles, left)) == Some(seen)
  {
    assert Visited(s, obstacles, left) == Some({s.position});
    assert seen + {s.position} == seen;
  }

  /** `Guard`: its direction and position, changed in place. */
  class Guard {
    var direction: Direction
    var position: Point

    function Current(): State
      reads this
    {
      State(direction, position)
    }

    constructor (direction: Direction, position: Point)
      ensures Current() == State(direction, position)
    {
      this.direction := direction;
      this.position := position;
    }

    /** `rotate_right`: the quarter turn clockwise, in place. */
    method RotateRight()
      modifies this
      ensures direction == Clockwise(old(direction)) && position == old(position)
    {
      direction := match direction
        case Up => Right
        case Right => Down
        case Down => Left
        case Left => Up;
    }

    /** `move_one_step` with the right edge at the last column: false and
        nothing changed at the edge, otherwise the next state. */
    method MoveOneStep(obstacles: seq<seq<bool>>) returns (ok: bool)
      requires Rectangular(obstacles) && InBounds(position, obstacles)
      modifies this
      ensures ok == Step(old(Current()), obstacles).Some?
      ensures ok ==> Current() == Step(old(Current()), obstacles).value
      ensures !ok ==> Current() == old(Current())
    {
      match direction {
      case Up =>
        if position.y == 0 {
          return false;
        }
        if obstacles[position.y - 1][position.x] {
          RotateRight();
        } else {
          position := position.(y := position.y - 1);
        }
      case Down =>
        if position.y == |obstacles| - 1 {
          return false;
        }
        if obstacles[position.y + 1][position.x] {
          RotateRight();
        } else {
          position := position.(y := position.y + 1);
        }
      case Left =>
        if position.x == 0 {
          return false;
        }
        if obstacles[position.y][position.x - 1] {
          RotateRight();
        } else {
          position := position.(x := position.x - 1);
        }
      case Right =>
        if position.x == |obstacles[0]| - 1 {
          return false;
        }
        if obstacles[position.y][position.x + 1] {
          RotateRight();
        } else {
          position := position.(x := position.x + 1);
        }
      }
      ok := true;
    }
  }

  /** `part_one`: walk a copy of the guard, collecting the cells it stands
      on, until a step fails; None when `fuel` steps were not enough. */
  method PartOne(start: State, obstacles: seq<seq<bool>>, fuel: nat) returns (count: Option<nat>)
    requires Rectangular(obstacles) && InBounds(start.position, obstacles)
    ensures count == CountVisited(start, obstacles, fuel)
  {
    var guard := new Guard(start.direction, start.position);
    var seen := {guard.position};
    var left := fuel;
    WalkStarts(start, obstacles, fuel);
    while left > 0
      invariant InBounds(guard.position, obstacles) && guard.position in seen
      invariant Visited(start, obstacles, fuel) == Join(seen, Visited(guard.Current(), obstacles, left))
    {
      ghost var before := guard.Current();
      var ok := guard.MoveOneStep(obstacles);
      if !ok {
        WalkEnds(seen, before, obstacles, left);
        return Some(|seen|);
      }
      WalkGoesOn(seen, before, obstacles, left);
      seen := seen + {guard.position};
      left := left - 1;
    }
    return None;
  }
}
