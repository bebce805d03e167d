/** Triangles: three side lengths form a triangle when each pair of sides
    is longer than the third.  Part two reads the sides down the columns,
    three rows at a time. */
module Aoc2016Day03 {
  import opened Common

  datatype Triangle = Triangle(a: int, b: int, c: int)

  /** `_is_valid_triangle`. */
  predicate IsValidTriangle(t: Triangle)
  {
    t.a + t.b > t.c && t.a + t.c > t.b && t.b + t.c > t.a
  }

  /** Validity does not depend on the order of the sides: swapping the
      first two or rotating all three keeps it, and these two generate
      every reordering. */
  lemma ValidityIgnoresOrder(t: Triangle)
    ensures IsValidTriangle(Triangle(t.b, t.a, t.c)) <==> IsValidTriangle(t)
    ensures IsValidTriangle(Triangle(t.b, t.c, t.a)) <==> IsValidTriangle(t)
  {
  }

  /** A valid triangle has only positive sides. */
  lemma ValidSidesPositive(t: Triangle)
    requires IsValidTriangle(t)
    ensures t.a > 0 && t.b > 0 && t.c > 0
  {
  }

  /** `part_one`: how many rows are valid triangles. */
  function PartOne(triangles: seq<Triangle>): (r: nat)
    ensures r <= |triangles|
  {
    if triangles == [] then 0
    else PartOne(triangles[..|triangles| - 1]) + (if IsValidTriangle(triangles[|triangles| - 1]) then 1 else 0)
  }

  /** Counting splits over a concatenation. */
  lemma {:induction false} PartOneAppend(s: seq<Triangle>, t: seq<Triangle>)
    ensures PartOne(s + t) == PartOne(s) + PartOne(t)
    decreases |t|
  {
    if t == [] {
      assert s + t == s;
    } else {
      assert (s + t)[..|s + t| - 1] == s + t[..|t| - 1];
      PartOneAppend(s, t[..|t| - 1]);
    }
  }

  /** `triangles[y][x]` for x in 0..2. */
  function Side(t: Triangle, x: int): int
    requires 0 <= x < 3
  {
    if x == 0 then t.a else if x == 1 then t.b else t.c
  }

  /** The three triangles read down the columns of three rows. */
  function Columns(r0: Triangle, r1: Triangle, r2: Triangle): seq<Triangle>
  {
    [Triangle(r0.a, r1.a, r2.a), Triangle(r0.b, r1.b, r2.b), Triangle(r0.c, r1.c, r2.c)]
  }

  /** Every group of three rows, read by columns; None when the number of
      rows is not a multiple of three (the source raises IndexError on the
      last, incomplete group). */
  function ByColumns(triangles: seq<Triangle>): (r: Option<seq<Triangle>>)
    ensures r.Some? <==> |triangles| % 3 == 0
    ensures r.Some? ==> |r.value| == |triangles|
    decreases |triangles|
  {
    if triangles == [] then Some([])
    else if |triangles| < 3 then None
    else
      var rest := ByColumns(triangles[3..]);
      if rest.None? then None
      else Some(Columns(triangles[0], triangles[1], triangles[2]) + rest.value)
  }

  /** Reading a group of three rows by columns twice gives the rows back. */
  lemma ColumnsTwice(r0: Triangle, r1: Triangle, r2: Triangle)
    ensures var t := Columns(r0, r1, r2); Columns(t[0], t[1], t[2]) == [r0, r1, r2]
  {
  }

  /** Reading by columns twice gives the list back. */
  lemma {:induction false} ByColumnsTwice(triangles: seq<Triangle>)
    requires |triangles| % 3 == 0
    ensures ByColumns(ByColumns(triangles).value) == Some(triangles)
    decreases |triangles|
  {
    if triangles != [] {
      var cols := ByColumns(triangles).value;
      var head := Columns(triangles[0], triangles[1], triangles[2]);
      var rest := ByColumns(triangles[3..]).value;
      assert cols == head + rest;
      assert cols[3..] == rest;
      ByColumnsTwice(triangles[3..]);
      ColumnsTwice(triangles[0], triangles[1], triangles[2]);
      assert [triangles[0], triangles[1], triangles[2]] + triangles[3..] == triangles;
    }
  }

  /** `part_two`: the two nested loops over groups of three rows and the
      three columns; None when the source raises IndexError. */
  method PartTwo(triangles: seq<Triangle>) returns (r: Option<nat>)
    ensures r.Some? <==> |triangles| % 3 == 0
    ensures r.Some? ==> r.value == PartOne(ByColumns(triangles).value)
  {
    var validTriangles := 0;
    var y := 0;
    while y < |triangles|
      invariant 0 <= y <= |triangles| && y % 3 == 0
      invariant ByColumns(triangles[..y]).Some?
      invariant validTriangles == PartOne(ByColumns(triangles[..y]).value)
      decreases |triangles| - y
    {
      if y + 2 >= |triangles| {
        return None;
      }
      ghost var before := ByColumns(triangles[..y]).value;
      var groupValid := CountColumns(triangles[y], triangles[y + 1], triangles[y + 2]);
      validTriangles := validTriangles + groupValid;
      PartOneAppend(before, Columns(triangles[y], triangles[y + 1], triangles[y + 2]));
      ByColumnsAppend(triangles[..y], triangles[y], triangles[y + 1], triangles[y + 2]);
      assert triangles[..y + 3] == triangles[..y] + [triangles[y], triangles[y + 1], triangles[y + 2]];
      y := y + 3;
    }
    if |triangles| % 3 != 0 {
      return None;
    }
    assert triangles[..y] == triangles;
    return Some(validTriangles);
  }

  /** The inner loop of `part_two`: the valid triangles among the three
      columns of three rows. */
  method CountColumns(r0: Triangle, r1: Triangle, r2: Triangle) returns (count: nat)
    ensures count == PartOne(Columns(r0, r1, r2))
  {
    ghost var group := Columns(r0, r1, r2);
    count := 0;
    for x := 0 to 3
      invariant count == PartOne(group[..x])
    {
      var triangle := Triangle(Side(r0, x), Side(r1, x), Side(r2, x));
      assert triangle == group[x];
      assert group[..x + 1][..x] == group[..x];
      count := count + if IsValidTriangle(triangle) then 1 else 0;
    }
    assert group[..3] == group;
  }

  /** Adding a group of three rows adds its three column triangles. */
  lemma {:induction false} ByColumnsAppend(s: seq<Triangle>, r0: Triangle, r1: Triangle, r2: Triangle)
    requires |s| % 3 == 0
    ensures ByColumns(s + [r0, r1, r2]) == Some(ByColumns(s).value + Columns(r0, r1, r2))
    decreases |s|
  {
    var t := s + [r0, r1, r2];
    if s == [] {
      assert t[3..] == [] && t[0] == r0 && t[1] == r1 && t[2] == r2;
      assert ByColumns(t).value == Columns(r0, r1, r2) + [];
      assert ByColumns(s).value + Columns(r0, r1, r2) == Columns(r0, r1, r2) + [];
    } else {
      assert t[3..] == s[3..] + [r0, r1, r2];
      ByColumnsAppend(s[3..], r0, r1, r2);
      assert t[0] == s[0] && t[1] == s[1] && t[2] == s[2];
      var head := Columns(s[0], s[1], s[2]);
      assert ByColumns(s).value == head + ByColumns(s[3..]).value;
      var rest := ByColumns(s[3..]).value;
      assert ByColumns(t).value == head + (rest + Columns(r0, r1, r2));
      assert head + (rest + Columns(r0, r1, r2)) == (head + rest) + Columns(r0, r1, r2);
    }
  }
}
