/** Mine Cart Madness (2018, day 13): carts run along a track of straight
    pieces, curves and intersections.  Each tick the carts move one square
    in reading order; part one reports the first crash, part two removes
    crashed carts until one is left. */
module Aoc2018Day13 {
  import opened Common

  // ---------------------------------------------------------------------
  // Turning

  /** The choice a cart makes at its next intersection. */
  datatype Intersection = TurnLeft | GoStraight | TurnRight

  /** `get_next_intersection`: left, then straight, then right, then left
      again. */
  function NextIntersection(i: Intersection): Intersection
  {
    match i
    case TurnLeft => GoStraight
    case GoStraight => TurnRight
    case TurnRight => TurnLeft
  }

  /** The choices cycle with period three: no choice is made twice in a
      row, and every third intersection repeats one. */
  lemma IntersectionCycle(i: Intersection)
    ensures NextIntersection(i) != i && NextIntersection(NextIntersection(i)) != i
    ensures NextIntersection(NextIntersection(NextIntersection(i))) == i
  {
    match i
    case TurnLeft =>
    case GoStraight =>
    case TurnRight =>
  }

  /** A heading, in the order of the enum values 1 to 4. */
  datatype Direction = Up | Right | Down | Left

  /** The enum value of a heading. */
  function Value(d: Direction): int
  {
    match d
    case Up => 1
    case Right => 2
    case Down => 3
    case Left => 4
  }

  /** `Direction(v)`: the heading with enum value v. */
  function FromValue(v: int): (d: Direction)
    requires 1 <= v <= 4
    ensures Value(d) == v
  {
    if v == 1 then Up else if v == 2 then Right else if v == 3 then Down else Left
  }

  /** `get_from_intersection`: straight keeps the heading; left and right
      step the enum value down or up, cyclically (the divisor is positive,
      so the floored remainder of the source and Dafny's agree). */
  function Turn(d: Direction, i: Intersection): Direction
  {
    match i
    case GoStraight => d
    case TurnLeft => FromValue((Value(d) - 2) % 4 + 1)
    case TurnRight => FromValue(Value(d) % 4 + 1)
  }

  /** The square a heading moves to, with y growing downwards. */
  function Delta(d: Direction): (int, int)
  {
    match d
    case Up => (0, -1)
    case Right => (1, 0)
    case Down => (0, 1)
    case Left => (-1, 0)
  }

  /** The four headings turned left and right, case by case. */
  lemma TurnTable()
    ensures Turn(Up, TurnRight) == Right && Turn(Right, TurnRight) == Down
    ensures Turn(Down, TurnRight) == Left && Turn(Left, TurnRight) == Up
    ensures Turn(Up, TurnLeft) == Left && Turn(Right, TurnLeft) == Up
    ensures Turn(Down, TurnLeft) == Right && Turn(Left, TurnLeft) == Down
  {
    assert Value(Up) == 1 && Value(Right) == 2 && Value(Down) == 3 && Value(Left) == 4;
  }

  /** Left and right are quarter turns, counter-clockwise and clockwise on
      the screen, and undo each other. */
  lemma TurnQuarter(d: Direction)
    ensures Delta(Turn(d, TurnRight)) == (-Delta(d).1, Delta(d).0)
    ensures Delta(Turn(d, TurnLeft)) == (Delta(d).1, -Delta(d).0)
    ensures Turn(d, GoStraight) == d
    ensures Turn(Turn(d, TurnLeft), TurnRight) == d && Turn(Turn(d, TurnRight), TurnLeft) == d
  {
    TurnTable();
  }

  /** A square of the track. */
  datatype Point = Point(x: int, y: int)

  /** `Point.get_from`: the neighbouring square in the heading. */
  function GetFrom(p: Point, d: Direction): (r: Point)
  {
    match d
    case Up => Point(p.x, p.y - 1)
    case Down => Point(p.x, p.y + 1)
    case Left => Point(p.x - 1, p.y)
    case Right => Point(p.x + 1, p.y)
  }

  /** Moving follows the heading's delta, and two right turns lead back. */
  lemma GetFromDelta(p: Point, d: Direction)
    ensures GetFrom(p, d) == Point(p.x + Delta(d).0, p.y + Delta(d).1)
    ensures GetFrom(GetFrom(p, d), Turn(Turn(d, TurnRight), TurnRight)) == p
  {
    match d
    case Up =>
    case Right =>
    case Down =>
    case Left =>
  }

  /** The curve `/`. */
  function Slash(d: Direction): Direction
  {
    match d
    case Left => Down
    case Right => Up
    case Up => Right
    case Down => Left
  }

  /** The curve `\`. */
  function Backslash(d: Direction): Direction
  {
    match d
    case Left => Up
    case Right => Down
    case Up => Left
    case Down => Right
  }

  /** The curves are mirrors: `/` maps (dx, dy) to (-dy, -dx), `\` to
      (dy, dx), and taking a curve twice the other way round undoes it. */
  lemma CurvesReflect(d: Direction)
    ensures Delta(Slash(d)) == (-Delta(d).1, -Delta(d).0)
    ensures Delta(Backslash(d)) == (Delta(d).1, Delta(d).0)
    ensures Slash(Slash(d)) == d && Backslash(Backslash(d)) == d
  {
    match d
    case Up =>
    case Right =>
    case Down =>
    case Left =>
  }

  // ---------------------------------------------------------------------
  // Carts

  /** What a cart is at one moment. */
  datatype CartState = CartState(position: Point, direction: Direction, intersection: Intersection)

  /** The tile at a square, `lines[y][x]`, with Python's negative
      indexing; `None` where the source raises an `IndexError`. */
  function Tile(lines: seq<seq<char>>, p: Point): (r: Option<char>)
  {
    match PyIndex(|lines|, p.y)
    case None => None
    case Some(y) =>
      match PyIndex(|lines[y]|, p.x)
      case None => None
      case Some(x) => Some(lines[y][x])
  }

  /** The heading and next choice after entering a tile. */
  function Steer(tile: char, d: Direction, i: Intersection): (Direction, Intersection)
  {
    if tile == '/' then (Slash(d), i)
    else if tile == '\\' then (Backslash(d), i)
    else if tile == '+' then (Turn(d, i), NextIntersection(i))
    else (d, i)
  }

  /** A cart one tick later: moved one square ahead, then steered by the
      tile there; `None` when that square is off the grid. */
  function Moved(c: CartState, lines: seq<seq<char>>): Option<CartState>
  {
    var p := GetFrom(c.position, c.direction);
    match Tile(lines, p)
    case None => None
    case Some(t) => Some(CartState(p, Steer(t, c.direction, c.intersection).0, Steer(t, c.direction, c.intersection).1))
  }

  /** A tick moves a cart to a neighbouring square; only curves and
      intersections change its heading, and only intersections its next
      choice, which then advances in the cycle. */
  lemma MovedMeaning(c: CartState, lines: seq<seq<char>>)
    requires Moved(c, lines).Some?
    ensures Abs(Moved(c, lines).value.position.x - c.position.x) + Abs(Moved(c, lines).value.position.y - c.position.y) == 1
    ensures Moved(c, lines).value.direction != c.direction ==>
      Tile(lines, Moved(c, lines).value.position).value in {'/', '\\', '+'}
    ensures Moved(c, lines).value.intersection != c.intersection ==>
      Tile(lines, Moved(c, lines).value.position) == Some('+') &&
      Moved(c, lines).value.intersection == NextIntersection(c.intersection)
  {
    GetFromDelta(c.position, c.direction);
    var t := Tile(lines, Moved(c, lines).value.position).value;
    if Moved(c, lines).value.direction != c.direction {
      assert t == '/' || t == '\\' || t == '+';
    }
  }

  /** `Cart`: a position, a heading and the choice for the next
      intersection, updated in place. */
  class Cart {
    var position: Point
    var direction: Direction
    var intersection: Intersection

    /** A new cart turns left at its first intersection. */
    constructor(p: Point, d: Direction)
      ensures State() == CartState(p, d, TurnLeft)
    {
      position := p;
      direction := d;
      intersection := TurnLeft;
    }

    function State(): CartState
      reads this
    {
      CartState(position, direction, intersection)
    }

    /** `update_position`: move first, then turn by the tile reached.
        Reaching a square off the grid raises in the source, so the caller
        must not send the cart there. */
    method UpdatePosition(lines: seq<seq<char>>)
      requires Moved(State(), lines).Some?
      modifies this
      ensures State() == Moved(old(State()), lines).value
    {
      position := GetFrom(position, direction);
      var tile := lines[PyIndex(|lines|, position.y).value][PyIndex(|lines[PyIndex(|lines|, position.y).value]|, position.x).value];
      if tile == '/' {
        match direction
        case Left => direction := Down;
        case Right => direction := Up;
        case Up => direction := Right;
        case Down => direction := Left;
      } else if tile == '\\' {
        match direction
        case Left => direction := Up;
        case Right => direction := Down;
        case Up => direction := Left;
        case Down => direction := Right;
      } else if tile == '+' {
        direction := Turn(direction, intersection);
        intersection := NextIntersection(intersection);
      }
    }
  }

  /** The states of the carts of a list. */
  function States(carts: seq<Cart>): (r: seq<CartState>)
    reads carts
    ensures |r| == |carts| && forall i :: 0 <= i < |carts| ==> r[i] == carts[i].State()
  {
    if carts == [] then [] else States(carts[..|carts| - 1]) + [carts[|carts| - 1].State()]
  }

  /** No cart appears twice in the list. */
  predicate Distinct(carts: seq<Cart>)
  {
    forall i, j :: 0 <= i < j < |carts| ==> carts[i] != carts[j]
  }

  // ---------------------------------------------------------------------
  // Reading order

  /** p comes no later than q in reading order: by row, then column. */
  predicate Before(p: Point, q: Point)
  {
    p.y < q.y || (p.y == q.y && p.x <= q.x)
  }

  predicate InReadingOrder(s: seq<CartState>)
  {
    forall i, j :: 0 <= i < j < |s| ==> Before(s[i].position, s[j].position)
  }

  /** Each index appears at most once. */
  predicate DistinctIndices(order: seq<nat>)
  {
    forall a, b :: 0 <= a < b < |order| ==> order[a] != order[b]
  }

  /** Every index of `order` names a cart of a list of n. */
  predicate InRange(order: seq<nat>, n: nat)
  {
    forall k :: 0 <= k < |order| ==> order[k] < n
  }

  /** The states in the order the indices give. */
  function Arrange(s: seq<CartState>, order: seq<nat>): (r: seq<CartState>)
    requires InRange(order, |s|)
    ensures |r| == |order| && forall j :: 0 <= j < |order| ==> r[j] == s[order[j]]
  {
    seq(|order|, j requires 0 <= j < |order| => s[order[j]])
  }

  /** The carts in the order the indices give. */
  function Pick(carts: seq<Cart>, order: seq<nat>): (r: seq<Cart>)
    requires InRange(order, |carts|)
    ensures |r| == |order| && forall j :: 0 <= j < |order| ==> r[j] == carts[order[j]]
  {
    seq(|order|, j requires 0 <= j < |order| => carts[order[j]])
  }

  /** Index i placed before the first index of `order` whose cart it does
      not come after: ahead of carts on the same square. */
  function InsertIndex(s: seq<CartState>, i: nat, order: seq<nat>): (r: seq<nat>)
    requires i < |s| && InRange(order, |s|)
    ensures |r| == |order| + 1 && InRange(r, |s|)
    ensures forall k :: 0 <= k < |r| ==> r[k] == i || r[k] in order
    ensures i in r && forall k :: k in order ==> k in r
  {
    if order == [] then [i]
    else if Before(s[i].position, s[order[0]].position) then [i] + order
    else
      assert order == [order[0]] + order[1..];
      [order[0]] + InsertIndex(s, i, order[1..])
  }

  /** `carts.sort(key=lambda c: (c.position.y, c.position.x))` on the
      carts from index `from` on, as an insertion sort of their indices. */
  function SortOrder(s: seq<CartState>, from: nat): (r: seq<nat>)
    requires from <= |s|
    ensures |r| == |s| - from && InRange(r, |s|)
    ensures forall k :: 0 <= k < |r| ==> from <= r[k]
    decreases |s| - from
  {
    if from == |s| then [] else InsertIndex(s, from, SortOrder(s, from + 1))
  }

  lemma {:induction false} InsertIndexOrdered(s: seq<CartState>, i: nat, order: seq<nat>)
    requires i < |s| && InRange(order, |s|) && InReadingOrder(Arrange(s, order))
    ensures InReadingOrder(Arrange(s, InsertIndex(s, i, order)))
  {
    if order == [] {
    } else if Before(s[i].position, s[order[0]].position) {
      OrderedHead(s, order);
      ConsOrdered(s, i, order);
    } else {
      var tail := order[1..];
      OrderedHead(s, order);
      InsertIndexOrdered(s, i, tail);
      ConsOrdered(s, order[0], InsertIndex(s, i, tail));
    }
  }

  /** The first cart of an ordered arrangement comes before the others,
      and the rest is ordered. */
  lemma OrderedHead(s: seq<CartState>, order: seq<nat>)
    requires order != [] && InRange(order, |s|) && InReadingOrder(Arrange(s, order))
    ensures forall k :: k in order[1..] ==> Before(s[order[0]].position, s[k].position)
    ensures InReadingOrder(Arrange(s, order[1..]))
  {
    var tail := order[1..];
    forall k | k in tail
      ensures Before(s[order[0]].position, s[k].position)
    {
      var m :| 0 <= m < |tail| && tail[m] == k;
      assert Arrange(s, order)[m + 1] == s[k];
    }
    assert forall j :: 0 <= j < |tail| ==> Arrange(s, tail)[j] == Arrange(s, order)[j + 1];
  }

  /** An ordered arrangement stays ordered with a first cart put in front
      that comes before all of it. */
  lemma ConsOrdered(s: seq<CartState>, h: nat, order: seq<nat>)
    requires h < |s| && InRange(order, |s|) && InReadingOrder(Arrange(s, order))
    requires forall k :: k in order ==> Before(s[h].position, s[k].position)
    ensures InReadingOrder(Arrange(s, [h] + order))
  {
    var r := Arrange(s, [h] + order);
    forall a, b | 0 <= a < b < |r|
      ensures Before(r[a].position, r[b].position)
    {
      assert r[b] == s[order[b - 1]];
      if a > 0 {
        assert r[a] == Arrange(s, order)[a - 1];
      }
    }
  }

  lemma {:induction false} InsertIndexDistinct(s: seq<CartState>, i: nat, order: seq<nat>)
    requires i < |s| && InRange(order, |s|) && DistinctIndices(order) && i !in order
    ensures DistinctIndices(InsertIndex(s, i, order))
  {
    if order != [] && !Before(s[i].position, s[order[0]].position) {
      var tail := order[1..];
      InsertIndexDistinct(s, i, tail);
      assert order[0] !in tail;
    }
  }

  /** Carts on the same square keep their relative order, as in Python's
      stable sort. */
  predicate Stable(s: seq<CartState>, order: seq<nat>)
    requires InRange(order, |s|)
  {
    forall a, b :: 0 <= a < b < |order| && s[order[a]].position == s[order[b]].position ==>
      order[a] < order[b]
  }

  lemma {:induction false} InsertIndexStable(s: seq<CartState>, i: nat, order: seq<nat>)
    requires i < |s| && InRange(order, |s|) && Stable(s, order)
    requires forall k :: k in order ==> i < k
    ensures Stable(s, InsertIndex(s, i, order))
  {
    if order == [] {
    } else if Before(s[i].position, s[order[0]].position) {
      ConsStable(s, i, order);
    } else {
      var tail := order[1..];
      StableHead(s, order);
      assert forall k :: k in tail ==> k in order;
      InsertIndexStable(s, i, tail);
      ConsStable(s, order[0], InsertIndex(s, i, tail));
    }
  }

  /** The first index of a stable arrangement is below the later ones on
      its square, and the rest is stable. */
  lemma StableHead(s: seq<CartState>, order: seq<nat>)
    requires order != [] && InRange(order, |s|) && Stable(s, order)
    ensures forall k :: k in order[1..] && s[k].position == s[order[0]].position ==> order[0] < k
    ensures Stable(s, order[1..])
  {
    var tail := order[1..];
    forall k | k in tail && s[k].position == s[order[0]].position
      ensures order[0] < k
    {
      var m :| 0 <= m < |tail| && tail[m] == k;
      assert order[m + 1] == k;
    }
  }

  /** A stable arrangement stays stable with an index put in front that is
      below all later ones on its square. */
  lemma ConsStable(s: seq<CartState>, h: nat, order: seq<nat>)
    requires h < |s| && InRange(order, |s|) && Stable(s, order)
    requires forall k :: k in order && s[k].position == s[h].position ==> h < k
    ensures Stable(s, [h] + order)
  {
    var r := [h] + order;
    forall a, b | 0 <= a < b < |r| && s[r[a]].position == s[r[b]].position
      ensures r[a] < r[b]
    {
      assert r[b] == order[b - 1];
      if a > 0 {
        assert r[a] == order[a - 1];
      }
    }
  }

  /** The sort gives every index once, in reading order, carts on the
      same square in their former order. */
  lemma {:induction false} SortOrderDistinct(s: seq<CartState>, from: nat)
    requires from <= |s|
    ensures DistinctIndices(SortOrder(s, from))
    decreases |s| - from
  {
    if from < |s| {
      SortOrderDistinct(s, from + 1);
      var rest := SortOrder(s, from + 1);
      assert from !in rest;
      InsertIndexDistinct(s, from, rest);
    }
  }

  lemma {:induction false} SortOrderOrdered(s: seq<CartState>, from: nat)
    requires from <= |s|
    ensures InReadingOrder(Arrange(s, SortOrder(s, from)))
    decreases |s| - from
  {
    if from < |s| {
      SortOrderOrdered(s, from + 1);
      InsertIndexOrdered(s, from, SortOrder(s, from + 1));
    }
  }

  lemma {:induction false} SortOrderStable(s: seq<CartState>, from: nat)
    requires from <= |s|
    ensures Stable(s, SortOrder(s, from))
    decreases |s| - from
  {
    if from < |s| {
      SortOrderStable(s, from + 1);
      var rest := SortOrder(s, from + 1);
      assert forall k :: k in rest ==> from < k;
      InsertIndexStable(s, from, rest);
    }
  }

  lemma {:induction false} SortOrderComplete(s: seq<CartState>, from: nat)
    requires from <= |s|
    ensures forall k :: from <= k < |s| ==> k in SortOrder(s, from)
    decreases |s| - from
  {
    if from < |s| {
      SortOrderComplete(s, from + 1);
    }
  }

  /** Sorting reorders the carts: each index of the list exactly once. */
  lemma SortOrderPermutation(s: seq<CartState>)
    ensures InRange(SortOrder(s, 0), |s|) && |SortOrder(s, 0)| == |s| && DistinctIndices(SortOrder(s, 0))
    ensures forall k :: 0 <= k < |s| ==> k in SortOrder(s, 0)
    ensures InReadingOrder(Arrange(s, SortOrder(s, 0))) && Stable(s, SortOrder(s, 0))
  {
    SortOrderDistinct(s, 0);
    SortOrderOrdered(s, 0);
    SortOrderStable(s, 0);
    SortOrderComplete(s, 0);
  }

  /** Picking distinct indices of distinct carts gives distinct carts. */
  lemma PickDistinct(carts: seq<Cart>, order: seq<nat>)
    requires InRange(order, |carts|) && DistinctIndices(order) && Distinct(carts)
    ensures Distinct(Pick(carts, order))
  {
  }

  // ---------------------------------------------------------------------
  // One tick

  /** The cart at `idx` shares its square with another. */
  predicate Collides(s: seq<CartState>, idx: nat)
    requires idx < |s|
  {
    exists j :: 0 <= j < |s| && j != idx && s[j].position == s[idx].position
  }

  /** The first `k` carts can each be moved. */
  predicate Movable(before: seq<CartState>, lines: seq<seq<char>>, k: nat)
    requires k <= |before|
  {
    forall j :: 0 <= j < k ==> Moved(before[j], lines).Some?
  }

  /** The carts once the first `k` have moved, the rest still waiting. */
  function Advanced(before: seq<CartState>, lines: seq<seq<char>>, k: nat): (r: seq<CartState>)
    requires k <= |before| && Movable(before, lines, k)
    ensures |r| == |before|
  {
    seq(|before|, j requires 0 <= j < |before| => if j < k then Moved(before[j], lines).value else before[j])
  }

  /** No cart among the first `k` crashed when it moved. */
  predicate Quiet(before: seq<CartState>, lines: seq<seq<char>>, k: nat)
    requires k <= |before| && Movable(before, lines, k)
  {
    forall i :: 0 <= i < k ==> QuietAt(before, lines, i)
  }

  /** Cart i did not crash when it moved. */
  predicate QuietAt(before: seq<CartState>, lines: seq<seq<char>>, i: nat)
    requires i < |before| && Movable(before, lines, i + 1)
  {
    !Collides(Advanced(before, lines, i + 1), i)
  }

  /** What a tick of part one ends in. */
  datatype Outcome = Crash(point: Point) | NoCrash | OffTrack

  /** `sorted` is the list `carts` sorted by the states `s` the carts had,
      and `before` those states in the sorted order. */
  ghost predicate SortedFrom(s: seq<CartState>, carts: seq<Cart>, sorted: seq<Cart>, before: seq<CartState>)
  {
    |s| == |carts| && sorted == Pick(carts, SortOrder(s, 0)) && before == Arrange(s, SortOrder(s, 0)) &&
    Distinct(sorted) && InReadingOrder(before) && forall j :: 0 <= j < |sorted| ==> sorted[j] in carts
  }

  /** The two `for` loops of `simulate_step` that compare the cart just
      moved with those before it and after it. */
  method HitsOther(carts: seq<Cart>, idx: nat) returns (hit: bool)
    requires idx < |carts|
    ensures hit <==> Collides(States(carts), idx)
  {
    var s := States(carts);
    for j := 0 to idx
      invariant forall k :: 0 <= k < j ==> s[k].position != s[idx].position
    {
      if carts[idx].position == carts[j].position {
        return true;
      }
    }
    for j := idx + 1 to |carts|
      invariant forall k :: 0 <= k < j && k != idx ==> s[k].position != s[idx].position
    {
      if carts[idx].position == carts[j].position {
        return true;
      }
    }
    return false;
  }

  /** `simulate_step`: the carts sorted into reading order (the list is
      sorted in place; the sorted list is returned), then moved one by one,
      stopping at the first cart that lands on another's square. */
  method SimulateStep(carts: seq<Cart>, lines: seq<seq<char>>)
      returns (sorted: seq<Cart>, outcome: Outcome, ghost before: seq<CartState>)
    requires Distinct(carts)
    modifies carts
    ensures SortedFrom(old(States(carts)), carts, sorted, before)
    ensures outcome.NoCrash? ==>
      Movable(before, lines, |before|) && Quiet(before, lines, |before|) &&
      States(sorted) == Advanced(before, lines, |before|)
    ensures outcome.Crash? ==> exists idx :: (0 <= idx < |before| &&
      Movable(before, lines, idx + 1) && Quiet(before, lines, idx) &&
      States(sorted) == Advanced(before, lines, idx + 1) &&
      Collides(States(sorted), idx) && outcome.point == States(sorted)[idx].position)
    ensures outcome.OffTrack? ==> exists idx :: (0 <= idx < |before| &&
      Movable(before, lines, idx) && Quiet(before, lines, idx) && Moved(before[idx], lines).None?)
  {
    sorted := SortByPosition(carts);
    before := States(sorted);
    for idx := 0 to |sorted|
      invariant Movable(before, lines, idx) && Quiet(before, lines, idx)
      invariant States(sorted) == Advanced(before, lines, idx)
    {
      var stop := TickCart(sorted, idx, lines, before);
      if stop.Some? {
        return sorted, stop.value, before;
      }
    }
    return sorted, NoCrash, before;
  }

  /** The turn of cart `idx` in `simulate_step`: it leaves the grid, or
      moves and then crashes or not. */
  method TickCart(sorted: seq<Cart>, idx: nat, lines: seq<seq<char>>, ghost before: seq<CartState>)
      returns (stop: Option<Outcome>)
    requires idx < |sorted| == |before| && Distinct(sorted)
    requires Movable(before, lines, idx) && Quiet(before, lines, idx)
    requires States(sorted) == Advanced(before, lines, idx)
    modifies sorted[idx]
    ensures stop != Some(NoCrash)
    ensures stop.None? ==>
      Movable(before, lines, idx + 1) && Quiet(before, lines, idx + 1) &&
      States(sorted) == Advanced(before, lines, idx + 1)
    ensures stop == Some(OffTrack) ==> Moved(before[idx], lines).None?
    ensures stop.Some? && stop.value.Crash? ==>
      Movable(before, lines, idx + 1) && States(sorted) == Advanced(before, lines, idx + 1) &&
      Collides(States(sorted), idx) && stop.value.point == States(sorted)[idx].position
  {
    var cart := sorted[idx];
    if Moved(cart.State(), lines).None? {
      return Some(OffTrack);
    }
    MoveCart(sorted, idx, lines, before);
    var hit := HitsOther(sorted, idx);
    if hit {
      return Some(Crash(cart.position));
    }
    QuietStep(before, lines, idx);
    return None;
  }

  /** `carts.sort(key=lambda c: (c.position.y, c.position.x))`: the same
      carts, in reading order. */
  method SortByPosition(carts: seq<Cart>) returns (sorted: seq<Cart>)
    requires Distinct(carts)
    ensures InRange(SortOrder(States(carts), 0), |carts|)
    ensures sorted == Pick(carts, SortOrder(States(carts), 0)) && Distinct(sorted)
    ensures States(sorted) == Arrange(States(carts), SortOrder(States(carts), 0))
    ensures InReadingOrder(States(sorted))
    ensures forall j :: 0 <= j < |sorted| ==> sorted[j] in carts
  {
    var order := SortOrder(States(carts), 0);
    SortOrderPermutation(States(carts));
    sorted := Pick(carts, order);
    PickDistinct(carts, order);
  }

  lemma QuietStep(before: seq<CartState>, lines: seq<seq<char>>, idx: nat)
    requires idx < |before| && Movable(before, lines, idx + 1)
    requires Quiet(before, lines, idx) && !Collides(Advanced(before, lines, idx + 1), idx)
    ensures Quiet(before, lines, idx + 1)
  {
    assert QuietAt(before, lines, idx);
  }

  /** The move of cart `idx` in a tick of part one. */
  method MoveCart(sorted: seq<Cart>, idx: nat, lines: seq<seq<char>>, ghost before: seq<CartState>)
    requires idx < |sorted| == |before| && Distinct(sorted)
    requires Movable(before, lines, idx) && States(sorted) == Advanced(before, lines, idx)
    requires Moved(sorted[idx].State(), lines).Some?
    modifies sorted[idx]
    ensures Movable(before, lines, idx + 1) && States(sorted) == Advanced(before, lines, idx + 1)
  {
    var cart := sorted[idx];
    cart.UpdatePosition(lines);
    forall j | 0 <= j < |sorted|
      ensures States(sorted)[j] == Advanced(before, lines, idx + 1)[j]
    {
      if j != idx {
        assert sorted[j] != cart;
      }
    }
  }

  // ---------------------------------------------------------------------
  // One tick with removal

  /** The carts and the indices of those crashed so far in a tick. */
  datatype Round = Round(states: seq<CartState>, crashed: set<nat>)

  /** Cart j is another cart, not crashed, on the square of cart idx. */
  predicate Hits(s: seq<CartState>, crashed: set<nat>, idx: nat, j: nat)
    requires idx < |s| && j < |s|
  {
    j != idx && j !in crashed && s[j].position == s[idx].position
  }

  /** The first such cart among the first n. */
  function FirstHit(s: seq<CartState>, crashed: set<nat>, idx: nat, n: nat): (r: Option<nat>)
    requires idx < |s| && n <= |s|
    ensures r.Some? ==> (r.value < n && Hits(s, crashed, idx, r.value) &&
      forall j :: 0 <= j < r.value ==> !Hits(s, crashed, idx, j))
    ensures r.None? ==> forall j :: 0 <= j < n ==> !Hits(s, crashed, idx, j)
  {
    if n == 0 then None
    else
      var r := FirstHit(s, crashed, idx, n - 1);
      if r.Some? then r
      else if Hits(s, crashed, idx, n - 1) then Some(n - 1)
      else None
  }

  /** One turn of the loop of `simulate_step_with_removal`: a crashed cart
      is skipped; otherwise it moves and, meeting a cart not yet crashed,
      crashes together with the first such. */
  function RemovalTurn(r: Round, lines: seq<seq<char>>, idx: nat): Option<Round>
    requires idx < |r.states|
  {
    if idx in r.crashed then Some(r)
    else
      match Moved(r.states[idx], lines)
      case None => None
      case Some(m) =>
        var s := r.states[idx := m];
        match FirstHit(s, r.crashed, idx, |s|)
        case None => Some(Round(s, r.crashed))
        case Some(j) => Some(Round(s, r.crashed + {idx, j}))
  }

  /** The round once the first k carts have had their turn. */
  ghost function RemovalRun(before: seq<CartState>, lines: seq<seq<char>>, k: nat): (r: Option<Round>)
    requires k <= |before|
    ensures r.Some? ==> |r.value.states| == |before|
  {
    if k == 0 then Some(Round(before, {}))
    else
      match RemovalRun(before, lines, k - 1)
      case None => None
      case Some(r) => RemovalTurn(r, lines, k - 1)
  }

  /** A move off the grid ends the tick for good. */
  lemma {:induction false} RemovalRunStopped(before: seq<CartState>, lines: seq<seq<char>>, k: nat, n: nat)
    requires k <= n <= |before| && RemovalRun(before, lines, k).None?
    ensures RemovalRun(before, lines, n).None?
    decreases n
  {
    if n > k {
      RemovalRunStopped(before, lines, k, n - 1);
    }
  }

  /** Carts crash two at a time: the crashed carts are indices of the
      list, an even number of them. */
  lemma {:induction false} CrashInPairs(before: seq<CartState>, lines: seq<seq<char>>, k: nat)
    requires k <= |before| && RemovalRun(before, lines, k).Some?
    ensures |RemovalRun(before, lines, k).value.crashed| % 2 == 0
    ensures forall i :: i in RemovalRun(before, lines, k).value.crashed ==> i < |before|
  {
    if k > 0 {
      CrashInPairs(before, lines, k - 1);
      var r := RemovalRun(before, lines, k - 1).value;
      var next := RemovalTurn(r, lines, k - 1).value;
      assert RemovalRun(before, lines, k) == Some(next);
      TurnCrashesPair(r, lines, k - 1);
      if next.crashed != r.crashed {
        var j :| j < |r.states| && k - 1 != j && k - 1 !in r.crashed && j !in r.crashed &&
          next.crashed == r.crashed + {k - 1, j};
        AddPair(r.crashed, k - 1, j);
      }
    }
  }

  /** One turn adds no crashed cart or two, both indices of the list. */
  lemma TurnCrashesPair(r: Round, lines: seq<seq<char>>, idx: nat)
    requires idx < |r.states| && RemovalTurn(r, lines, idx).Some?
    ensures RemovalTurn(r, lines, idx).value.crashed == r.crashed ||
      exists j :: (j < |r.states| && idx != j && idx !in r.crashed && j !in r.crashed &&
        RemovalTurn(r, lines, idx).value.crashed == r.crashed + {idx, j})
  {
  }

  lemma AddPair(crashed: set<nat>, idx: nat, j: nat)
    requires idx != j && idx !in crashed && j !in crashed
    ensures |crashed + {idx, j}| == |crashed| + 2
  {
    assert crashed + {idx, j} == (crashed + {idx}) + {j};
  }

  /** The carts not crashed sit on pairwise different squares. */
  predicate Spread(r: Round)
  {
    forall i, j :: 0 <= i < j < |r.states| && i !in r.crashed && j !in r.crashed ==>
      r.states[i].position != r.states[j].position
  }

  lemma TurnSpread(r: Round, lines: seq<seq<char>>, idx: nat)
    requires idx < |r.states| && Spread(r) && RemovalTurn(r, lines, idx).Some?
    ensures Spread(RemovalTurn(r, lines, idx).value)
  {
    if idx !in r.crashed {
      var m := Moved(r.states[idx], lines).value;
      var s := r.states[idx := m];
      var hit := FirstHit(s, r.crashed, idx, |s|);
      if hit.None? {
        forall i, j | 0 <= i < j < |s| && i !in r.crashed && j !in r.crashed
          ensures s[i].position != s[j].position
        {
          if i == idx {
            assert !Hits(s, r.crashed, idx, j);
          } else if j == idx {
            assert !Hits(s, r.crashed, idx, i);
          }
        }
      }
    }
  }

  /** If the carts start on different squares, those left after any
      number of turns still are: a cart that meets another is removed
      with it. */
  lemma {:induction false} RemovalSpread(before: seq<CartState>, lines: seq<seq<char>>, k: nat)
    requires k <= |before| && Spread(Round(before, {})) && RemovalRun(before, lines, k).Some?
    ensures Spread(RemovalRun(before, lines, k).value)
  {
    if k > 0 {
      RemovalSpread(before, lines, k - 1);
      TurnSpread(RemovalRun(before, lines, k - 1).value, lines, k - 1);
    }
  }

  /** `[cart for i, cart in enumerate(carts) if i not in crashed]`. */
  function Keep(carts: seq<Cart>, crashed: set<nat>): (r: seq<Cart>)
    ensures |r| <= |carts| && forall j :: 0 <= j < |r| ==> r[j] in carts
  {
    if carts == [] then []
    else
      var n := |carts| - 1;
      Keep(carts[..n], crashed) + (if n in crashed then [] else [carts[n]])
  }

  /** The carts kept are carts of any list that held all of them. */
  lemma KeepWithin(carts: seq<Cart>, crashed: set<nat>, all: seq<Cart>)
    requires forall j :: 0 <= j < |carts| ==> carts[j] in all
    ensures forall j :: 0 <= j < |Keep(carts, crashed)| ==> Keep(carts, crashed)[j] in all
  {
  }

  /** A cart is kept exactly when some index of it is not crashed. */
  lemma {:induction false} KeepMeaning(carts: seq<Cart>, crashed: set<nat>)
    ensures forall c :: c in Keep(carts, crashed) ==> exists i :: 0 <= i < |carts| && i !in crashed && carts[i] == c
    ensures forall i :: 0 <= i < |carts| && i !in crashed ==> carts[i] in Keep(carts, crashed)
  {
    if carts != [] {
      var n := |carts| - 1;
      KeepMeaning(carts[..n], crashed);
    }
  }

  lemma {:induction false} KeepDistinct(carts: seq<Cart>, crashed: set<nat>)
    requires Distinct(carts)
    ensures Distinct(Keep(carts, crashed))
  {
    if carts != [] {
      var n := |carts| - 1;
      assert Distinct(carts[..n]);
      KeepDistinct(carts[..n], crashed);
      KeepMeaning(carts[..n], crashed);
      if n !in crashed {
        assert carts[n] !in Keep(carts[..n], crashed);
      }
    }
  }

  /** The inner loop of `simulate_step_with_removal`: the first cart not
      crashed, other than idx, on its square. */
  method FindHit(carts: seq<Cart>, crashed: set<nat>, idx: nat) returns (hit: Option<nat>)
    requires idx < |carts|
    ensures hit == FirstHit(States(carts), crashed, idx, |carts|)
  {
    ghost var s := States(carts);
    for j := 0 to |carts|
      invariant FirstHit(s, crashed, idx, j).None?
    {
      if idx != j && j !in crashed && carts[idx].position == carts[j].position {
        FirstHitFound(s, crashed, idx, j, |carts|);
        return Some(j);
      }
    }
    return None;
  }

  /** Once found, the first hit stays the first whatever else is scanned. */
  lemma {:induction false} FirstHitFound(s: seq<CartState>, crashed: set<nat>, idx: nat, j: nat, n: nat)
    requires idx < |s| && j < n <= |s|
    requires FirstHit(s, crashed, idx, j).None? && Hits(s, crashed, idx, j)
    ensures FirstHit(s, crashed, idx, n) == Some(j)
    decreases n
  {
    if n > j + 1 {
      FirstHitFound(s, crashed, idx, j, n - 1);
    }
  }

  /** `simulate_step_with_removal`: the carts sorted into reading order,
      each cart not yet crashed moved in turn, a cart landing on another
      crashing with it; the carts not crashed are returned.  `None` where
      a cart leaves the grid and the source raises. */
  method SimulateStepWithRemoval(carts: seq<Cart>, lines: seq<seq<char>>)
      returns (survivors: Option<seq<Cart>>, ghost sorted: seq<Cart>, ghost before: seq<CartState>)
    requires Distinct(carts)
    modifies carts
    ensures SortedFrom(old(States(carts)), carts, sorted, before)
    ensures survivors.None? <==> RemovalRun(before, lines, |before|).None?
    ensures survivors.Some? ==>
      States(sorted) == RemovalRun(before, lines, |before|).value.states &&
      survivors.value == Keep(sorted, RemovalRun(before, lines, |before|).value.crashed) &&
      Distinct(survivors.value)
  {
    var cs := SortByPosition(carts);
    sorted, before := cs, States(cs);
    var crashed := RemovalLoop(cs, lines, before);
    if crashed.None? {
      return None, sorted, before;
    }
    KeepDistinct(cs, crashed.value);
    return Some(Keep(cs, crashed.value)), sorted, before;
  }

  /** The loop of `simulate_step_with_removal` over the sorted carts: the
      indices crashed, `None` when a cart leaves the grid. */
  method RemovalLoop(cs: seq<Cart>, lines: seq<seq<char>>, ghost before: seq<CartState>)
      returns (result: Option<set<nat>>)
    requires Distinct(cs) && States(cs) == before
    modifies cs
    ensures result.None? <==> RemovalRun(before, lines, |before|).None?
    ensures result.Some? ==> RemovalRun(before, lines, |before|) == Some(Round(States(cs), result.value))
  {
    var crashed: set<nat> := {};
    for idx := 0 to |cs|
      invariant RemovalRun(before, lines, idx) == Some(Round(States(cs), crashed))
    {
      var next := RemovalTick(cs, idx, lines, crashed, before);
      if next.None? {
        return None;
      }
      crashed := next.value;
    }
    return Some(crashed);
  }

  /** The turn of cart `idx` in `simulate_step_with_removal`: skipped if
      it crashed, else moved and checked against the carts not crashed.
      `None` when it leaves the grid. */
  method RemovalTick(cs: seq<Cart>, idx: nat, lines: seq<seq<char>>, crashed: set<nat>, ghost before: seq<CartState>)
      returns (next: Option<set<nat>>)
    requires idx < |cs| == |before| && Distinct(cs)
    requires RemovalRun(before, lines, idx) == Some(Round(States(cs), crashed))
    modifies cs[idx]
    ensures next.None? ==> RemovalRun(before, lines, |before|).None?
    ensures next.Some? ==> RemovalRun(before, lines, idx + 1) == Some(Round(States(cs), next.value))
  {
    ghost var s0 := States(cs);
    if idx in crashed {
      TurnSkipped(before, lines, idx, s0, crashed);
      return Some(crashed);
    }
    var cart := cs[idx];
    if Moved(cart.State(), lines).None? {
      TurnOffGrid(before, lines, idx, s0, crashed);
      return None;
    }
    MoveSurvivor(cs, idx, lines);
    var hit := FindHit(cs, crashed, idx);
    TurnTaken(before, lines, idx, s0, crashed, States(cs), hit);
    if hit.Some? {
      return Some(crashed + {idx, hit.value});
    }
    return Some(crashed);
  }

  lemma TurnSkipped(before: seq<CartState>, lines: seq<seq<char>>, idx: nat, s0: seq<CartState>, crashed: set<nat>)
    requires idx < |before| && RemovalRun(before, lines, idx) == Some(Round(s0, crashed))
    requires idx in crashed
    ensures RemovalRun(before, lines, idx + 1) == Some(Round(s0, crashed))
  {
  }

  lemma TurnOffGrid(before: seq<CartState>, lines: seq<seq<char>>, idx: nat, s0: seq<CartState>, crashed: set<nat>)
    requires idx < |before| && RemovalRun(before, lines, idx) == Some(Round(s0, crashed))
    requires idx !in crashed && Moved(s0[idx], lines).None?
    ensures RemovalRun(before, lines, |before|).None?
  {
    RemovalRunStopped(before, lines, idx + 1, |before|);
  }

  lemma TurnTaken(before: seq<CartState>, lines: seq<seq<char>>, idx: nat, s0: seq<CartState>, crashed: set<nat>,
                  s1: seq<CartState>, hit: Option<nat>)
    requires idx < |before| && RemovalRun(before, lines, idx) == Some(Round(s0, crashed))
    requires idx !in crashed && Moved(s0[idx], lines).Some?
    requires s1 == s0[idx := Moved(s0[idx], lines).value]
    requires hit == FirstHit(s1, crashed, idx, |s1|)
    ensures RemovalRun(before, lines, idx + 1) ==
      Some(Round(s1, if hit.Some? then crashed + {idx, hit.value} else crashed))
  {
  }

  /** The move of cart `idx` in a tick of part two. */
  method MoveSurvivor(cs: seq<Cart>, idx: nat, lines: seq<seq<char>>)
    requires idx < |cs| && Distinct(cs)
    requires Moved(cs[idx].State(), lines).Some?
    modifies cs[idx]
    ensures States(cs) == old(States(cs))[idx := Moved(old(cs[idx].State()), lines).value]
  {
    var cart := cs[idx];
    ghost var s0 := States(cs);
    cart.UpdatePosition(lines);
    forall j | 0 <= j < |cs| && j != idx
      ensures States(cs)[j] == s0[j]
    {
      assert cs[j] != cart;
    }
  }

  // ---------------------------------------------------------------------
  // The parts

  /** How many ticks the parts simulate before giving up. */
  const MaxSteps := 100_000

  /** `part_one`: ticks until the first crash, whose square is reported
      (the source formats it as "x,y"); `NoCrash` after `MaxSteps` ticks. */
  method PartOne(carts: seq<Cart>, lines: seq<seq<char>>) returns (r: Outcome)
    requires Distinct(carts)
    modifies carts
    ensures r.Crash? ==> exists c, d :: (c in carts && d in carts && c != d &&
      c.position == r.point && d.position == r.point)
  {
    var list := carts;
    for step := 0 to MaxSteps
      invariant Distinct(list) && forall j :: 0 <= j < |list| ==> list[j] in carts
    {
      var sorted, outcome, before := SimulateStep(list, lines);
      list := sorted;
      if outcome.Crash? {
        ghost var idx :| 0 <= idx < |before| && Collides(States(sorted), idx) &&
          outcome.point == States(sorted)[idx].position;
        ghost var j :| 0 <= j < |sorted| && j != idx && States(sorted)[j].position == States(sorted)[idx].position;
        assert sorted[idx] in carts && sorted[j] in carts;
        return outcome;
      } else if outcome.OffTrack? {
        return OffTrack;
      }
    }
    return NoCrash;
  }

  /** What part two ends in. */
  datatype LastCart = Last(point: Point) | AllCrashed | Timeout | LeftGrid

  /** `part_two`: ticks with removal until one cart is left, whose square
      is reported; `AllCrashed` when none is, `Timeout` after `MaxSteps`
      ticks. */
  method PartTwo(carts: seq<Cart>, lines: seq<seq<char>>) returns (r: LastCart)
    requires Distinct(carts)
    modifies carts
    ensures r.Last? ==> exists c :: c in carts && c.position == r.point
  {
    var list := carts;
    for step := 0 to MaxSteps
      invariant Distinct(list) && forall j :: 0 <= j < |list| ==> list[j] in carts
    {
      var survivors, sorted, before := SimulateStepWithRemoval(list, lines);
      if survivors.None? {
        return LeftGrid;
      }
      KeepWithin(sorted, RemovalRun(before, lines, |before|).value.crashed, list);
      list := survivors.value;
      if |list| == 1 {
        assert list[0] in carts;
        return Last(list[0].position);
      } else if |list| == 0 {
        return AllCrashed;
      }
    }
    return Timeout;
  }
}
