/** No matter how you slice it (2018, day 3): rectangular claims on a
    sheet of fabric.  Part one counts the square inches covered by two or
    more claims; part two finds the claim that overlaps no other. */
module Aoc2018Day03 {
  import opened Common

  /** A claim `#id @ x,y: widthxheight`; the digits the parser reads are
      never negative. */
  datatype Claim = Claim(id: nat, y: nat, x: nat, width: nat, height: nat)

  /** The claim covers the square inch at column x, row y. */
  predicate Covers(c: Claim, x: int, y: int)
  {
    c.x <= x < c.x + c.width && c.y <= y < c.y + c.height
  }

  /** `Claim.intersects`: neither claim lies wholly to one side of the
      other. */
  predicate Intersects(a: Claim, b: Claim)
  {
    !(a.x + a.width <= b.x || b.x + b.width <= a.x ||
      a.y + a.height <= b.y || b.y + b.height <= a.y)
  }

  lemma IntersectsSymmetric(a: Claim, b: Claim)
    ensures Intersects(a, b) <==> Intersects(b, a)
  {
  }

  /** Two claims that both cover a square inch intersect; two claims of
      some width and height that intersect share a square inch. */
  lemma IntersectsMeaning(a: Claim, b: Claim)
    ensures (exists x, y :: Covers(a, x, y) && Covers(b, x, y)) ==> Intersects(a, b)
    ensures a.width > 0 && a.height > 0 && b.width > 0 && b.height > 0 && Intersects(a, b) ==>
      exists x, y :: Covers(a, x, y) && Covers(b, x, y)
  {
    if a.width > 0 && a.height > 0 && b.width > 0 && b.height > 0 && Intersects(a, b) {
      var x := Max(a.x, b.x);
      var y := Max(a.y, b.y);
      assert Covers(a, x, y) && Covers(b, x, y);
    }
  }

  /** How many of the claims cover the square inch (x, y). */
  function Coverage(claims: seq<Claim>, x: int, y: int): nat
  {
    if claims == [] then 0
    else
      Coverage(claims[..|claims| - 1], x, y)
        + (if Covers(claims[|claims| - 1], x, y) then 1 else 0)
  }

  /** `max(c.y + c.height for c in claims)`: the rows the grid needs. */
  function MaxY(claims: seq<Claim>): (r: nat)
    requires |claims| >= 1
    ensures forall k :: 0 <= k < |claims| ==> claims[k].y + claims[k].height <= r
    ensures exists k :: 0 <= k < |claims| && claims[k].y + claims[k].height == r
  {
    if |claims| == 1 then claims[0].y + claims[0].height
    else
      var rest := MaxY(claims[1..]);
      assert forall k :: 1 <= k < |claims| ==> claims[k] == claims[1..][k - 1];
      Max(claims[0].y + claims[0].height, rest)
  }

  /** `max(c.x + c.width for c in claims)`: the columns the grid needs. */
  function MaxX(claims: seq<Claim>): (r: nat)
    requires |claims| >= 1
    ensures forall k :: 0 <= k < |claims| ==> claims[k].x + claims[k].width <= r
    ensures exists k :: 0 <= k < |claims| && claims[k].x + claims[k].width == r
  {
    if |claims| == 1 then claims[0].x + claims[0].width
    else
      var rest := MaxX(claims[1..]);
      assert forall k :: 1 <= k < |claims| ==> claims[k] == claims[1..][k - 1];
      Max(claims[0].x + claims[0].width, rest)
  }

  /** The grid part one allocates holds every claim: no square inch
      outside it is covered. */
  lemma {:induction false} CoverageOutsideGrid(claims: seq<Claim>, all: seq<Claim>, x: int, y: int)
    requires |all| >= 1 && claims <= all
    requires x < 0 || y < 0 || x >= MaxX(all) || y >= MaxY(all)
    ensures Coverage(claims, x, y) == 0
  {
    if claims != [] {
      var n := |claims| - 1;
      assert claims[n] == all[n];
      assert claims[..n] <= all;
      CoverageOutsideGrid(claims[..n], all, x, y);
    }
  }

  /** The square inches of row y, among the first `w` columns, that two
      or more claims cover. */
  function OverlapRow(claims: seq<Claim>, y: int, w: nat): nat
  {
    if w == 0 then 0
    else OverlapRow(claims, y, w - 1) + (if Coverage(claims, w - 1, y) >= 2 then 1 else 0)
  }

  /** The square inches of the first `h` rows and `w` columns that two or
      more claims cover. */
  function Overlap(claims: seq<Claim>, w: nat, h: nat): nat
  {
    if h == 0 then 0 else Overlap(claims, w, h - 1) + OverlapRow(claims, h - 1, w)
  }

  /** The inner loops of `part_one` for one claim: every square inch it
      covers counted once more. */
  method AddClaim(grid: array2<nat>, c: Claim)
    requires c.y + c.height <= grid.Length0 && c.x + c.width <= grid.Length1
    modifies grid
    ensures forall y, x :: 0 <= y < grid.Length0 && 0 <= x < grid.Length1 ==>
      grid[y, x] == old(grid[y, x]) + (if Covers(c, x, y) then 1 else 0)
  {
    for y := c.y to c.y + c.height
      invariant forall y', x :: 0 <= y' < grid.Length0 && 0 <= x < grid.Length1 ==>
        grid[y', x] == old(grid[y', x]) + (if c.y <= y' < y && c.x <= x < c.x + c.width then 1 else 0)
    {
      for x := c.x to c.x + c.width
        invariant forall y', x' :: 0 <= y' < grid.Length0 && 0 <= x' < grid.Length1 ==>
          grid[y', x'] == old(grid[y', x'])
            + (if (c.y <= y' < y && c.x <= x' < c.x + c.width) || (y' == y && c.x <= x' < x) then 1 else 0)
      {
        grid[y, x] := grid[y, x] + 1;
      }
    }
  }

  /** The first loop of `part_one`: every claim added to a grid of zeros
      that holds them all, leaving the coverage of each square inch. */
  method AddClaims(grid: array2<nat>, claims: seq<Claim>)
    requires forall k :: 0 <= k < |claims| ==>
      claims[k].y + claims[k].height <= grid.Length0 && claims[k].x + claims[k].width <= grid.Length1
    requires forall y, x :: 0 <= y < grid.Length0 && 0 <= x < grid.Length1 ==> grid[y, x] == 0
    modifies grid
    ensures forall y, x :: 0 <= y < grid.Length0 && 0 <= x < grid.Length1 ==> grid[y, x] == Coverage(claims, x, y)
  {
    for k := 0 to |claims|
      invariant forall y, x :: 0 <= y < grid.Length0 && 0 <= x < grid.Length1 ==>
        grid[y, x] == Coverage(claims[..k], x, y)
    {
      AddClaim(grid, claims[k]);
      assert claims[..k + 1][..k] == claims[..k];
    }
    assert claims[..|claims|] == claims;
  }

  /** The counting loop of `part_one` over one row. */
  method CountRow(grid: array2<nat>, claims: seq<Claim>, y: nat) returns (count: nat)
    requires y < grid.Length0
    requires forall x :: 0 <= x < grid.Length1 ==> grid[y, x] == Coverage(claims, x, y)
    ensures count == OverlapRow(claims, y, grid.Length1)
  {
    count := 0;
    for x := 0 to grid.Length1
      invariant count == OverlapRow(claims, y, x)
    {
      if grid[y, x] >= 2 {
        count := count + 1;
      }
    }
  }

  /** `part_one`: a grid as large as the claims reach, every claim added
      to it in place, then the square inches counted twice or more.  `max`
      of no claims raises, here `None`. */
  method PartOne(claims: seq<Claim>) returns (r: Option<nat>)
    ensures r.None? <==> claims == []
    ensures r.Some? ==> r.value == Overlap(claims, MaxX(claims), MaxY(claims))
  {
    if claims == [] {
      return None;
    }
    var maxY, maxX := MaxY(claims), MaxX(claims);
    var grid := new nat[maxY, maxX]((y, x) => 0);
    AddClaims(grid, claims);
    var counter := 0;
    for y := 0 to maxY
      invariant counter == Overlap(claims, maxX, y)
      invariant forall y, x :: 0 <= y < maxY && 0 <= x < maxX ==> grid[y, x] == Coverage(claims, x, y)
    {
      var row := CountRow(grid, claims, y);
      counter := counter + row;
    }
    return Some(counter);
  }

  /** `all(not claim.intersects(c) for c in claims if c.id != claim.id)`:
      no claim with another id intersects this one. */
  predicate Isolated(claims: seq<Claim>, c: Claim)
  {
    forall k :: 0 <= k < |claims| && claims[k].id != c.id ==> !Intersects(c, claims[k])
  }

  /** Claim k is isolated and no claim before it is. */
  predicate FirstIsolated(claims: seq<Claim>, k: nat)
    requires k < |claims|
  {
    Isolated(claims, claims[k]) && forall j :: 0 <= j < k ==> !Isolated(claims, claims[j])
  }

  /** `part_two`: the id of the first isolated claim; with none the
      source raises, here `None`. */
  method PartTwo(claims: seq<Claim>) returns (r: Option<nat>)
    ensures r.Some? ==> exists k :: 0 <= k < |claims| && claims[k].id == r.value && FirstIsolated(claims, k)
    ensures r.None? <==> forall k :: 0 <= k < |claims| ==> !Isolated(claims, claims[k])
  {
    for k := 0 to |claims|
      invariant forall j :: 0 <= j < k ==> !Isolated(claims, claims[j])
    {
      if Isolated(claims, claims[k]) {
        return Some(claims[k].id);
      }
    }
    return None;
  }

  /** Ids are distinct, as the claims of a puzzle input are. */
  predicate DistinctIds(claims: seq<Claim>)
  {
    forall i, j :: 0 <= i < j < |claims| ==> claims[i].id != claims[j].id
  }

  /** The two parts agree: with distinct ids, every square inch of an
      isolated claim is covered by it alone, so none of them is counted
      by part one. */
  lemma IsolatedCoveredOnce(claims: seq<Claim>, k: nat, x: int, y: int)
    requires k < |claims| && DistinctIds(claims) && Isolated(claims, claims[k])
    requires Covers(claims[k], x, y)
    ensures Coverage(claims, x, y) == 1
  {
    CoveredOnlyBy(claims, claims, k, x, y);
  }

  lemma {:induction false} CoveredOnlyBy(prefix: seq<Claim>, claims: seq<Claim>, k: nat, x: int, y: int)
    requires prefix <= claims
    requires k < |claims| && DistinctIds(claims) && Isolated(claims, claims[k])
    requires Covers(claims[k], x, y)
    ensures Coverage(prefix, x, y) == if k < |prefix| then 1 else 0
  {
    if prefix != [] {
      var n := |prefix| - 1;
      assert prefix[..n] <= claims;
      CoveredOnlyBy(prefix[..n], claims, k, x, y);
      assert prefix[n] == claims[n];
      if n != k && Covers(claims[n], x, y) {
        IntersectsMeaning(claims[k], claims[n]);
      }
    }
  }
}
