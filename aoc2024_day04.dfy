/** Ceres search (2024, day 4): count XMAS in a letter grid.  Part one
    looks at the four-letter windows going down, right, up-right and
    down-right from every cell and counts those that read XMAS or SAMX
    (XMAS backwards); part two counts the 'A' cells whose two diagonals
    each read MAS or SAM. */
module Aoc2024Day04 {

  type Grid = seq<seq<char>>

  /** Every row as long as the first; the source indexes `grid[0]`, so
      there is at least one row. */
  predicate Rectangular(grid: Grid)
  {
    |grid| > 0 && forall y :: 0 <= y < |grid| ==> |grid[y]| == |grid[0]|
  }

  function Height(grid: Grid): nat
  {
    |grid|
  }

  function Width(grid: Grid): nat
    requires Rectangular(grid)
  {
    |grid[0]|
  }

  /** `count_xmas_samx`: 1 for XMAS or SAMX, 0 otherwise; the 2 for a
      window that is both cannot happen. */
  function CountXmasSamx(letters: seq<char>): int
  {
    var isXmas := letters == ['X', 'M', 'A', 'S'];
    var isSamx := letters == ['S', 'A', 'M', 'X'];
    if isXmas && isSamx then 2 else if isXmas || isSamx then 1 else 0
  }

  function Reverse(s: seq<char>): seq<char>
  {
    if s == [] then [] else Reverse(s[1..]) + [s[0]]
  }

  /** A window counts once if it reads XMAS forwards and once if it reads
      it backwards, and never both, so the count is at most 1. */
  lemma CountXmasSamxMeaning(letters: seq<char>)
    ensures CountXmasSamx(letters) ==
      (if letters == "XMAS" then 1 else 0) + (if Reverse(letters) == "XMAS" then 1 else 0)
    ensures CountXmasSamx(letters) <= 1
  {
    if |letters| == 4 {
      assert Reverse(letters) == [letters[3], letters[2], letters[1], letters[0]] by {
        assert Reverse(letters[3..]) == [letters[3]];
        assert letters[3..] == letters[1..][2..] && letters[2..] == letters[1..][1..];
        assert Reverse(letters[2..]) == [letters[3], letters[2]];
        assert Reverse(letters[1..]) == [letters[3], letters[2], letters[1]];
      }
    } else {
      assert |Reverse(letters)| == |letters| by {
        ReverseLength(letters);
      }
    }
  }

  lemma {:induction false} ReverseLength(s: seq<char>)
    ensures |Reverse(s)| == |s|
  {
    if s != [] {
      ReverseLength(s[1..]);
    }
  }

  /** The letters at the four positions of a window. */
  function Letters(grid: Grid, ys: seq<int>, xs: seq<int>): seq<char>
    requires |ys| == |xs|
    requires forall i :: 0 <= i < |ys| ==> 0 <= ys[i] < |grid| && 0 <= xs[i] < |grid[ys[i]]|
  {
    seq(|ys|, i requires 0 <= i < |ys| => grid[ys[i]][xs[i]])
  }

  /** The four window directions of part one, as (dy, dx). */
  datatype Direction = Down | Right | UpRight | DownRight

  function Dy(d: Direction): int
  {
    match d
    case Down => 1
    case Right => 0
    case UpRight => -1
    case DownRight => 1
  }

  function Dx(d: Direction): int
  {
    if d == Down then 0 else 1
  }

  /** The window of four cells from (y, x) in direction d lies in the
      grid. */
  predicate WindowFits(grid: Grid, d: Direction, y: int, x: int)
    requires Rectangular(grid)
  {
    0 <= y < Height(grid) && 0 <= x < Width(grid)
    && 0 <= y + 3 * Dy(d) < Height(grid) && 0 <= x + 3 * Dx(d) < Width(grid)
  }

  /** The letters of the window, when it fits. */
  function Window(grid: Grid, d: Direction, y: int, x: int): seq<char>
    requires Rectangular(grid) && WindowFits(grid, d, y, x)
  {
    var ys := [y, y + Dy(d), y + 2 * Dy(d), y + 3 * Dy(d)];
    var xs := [x, x + Dx(d), x + 2 * Dx(d), x + 3 * Dx(d)];
    Letters(grid, ys, xs)
  }

  /** `count_xmas_down`, `count_xmas_right`, `count_xmas_up_right` and
      `count_xmas_down_right`: 0 when the window leaves the grid, else the
      count of its letters. */
  function CountXmas(grid: Grid, d: Direction, y: nat, x: nat): nat
    requires Rectangular(grid) && y < Height(grid) && x < Width(grid)
  {
    var height, width := Height(grid), Width(grid);
    match d
    case Down =>
      if y + 3 >= height then 0
      else CountXmasSamx(Letters(grid, [y, y + 1, y + 2, y + 3], [x, x, x, x]))
    case Right =>
      if x + 3 >= width then 0
      else CountXmasSamx(Letters(grid, [y, y, y, y], [x, x + 1, x + 2, x + 3]))
    case UpRight =>
      if y < 3 || x + 3 >= width then 0
      else CountXmasSamx(Letters(grid, [y, y - 1, y - 2, y - 3], [x, x + 1, x + 2, x + 3]))
    case DownRight =>
      if y + 3 >= height || x + 3 >= width then 0
      else CountXmasSamx(Letters(grid, [y, y + 1, y + 2, y + 3], [x, x + 1, x + 2, x + 3]))
  }

  /** Each helper is 1 exactly when its window fits and reads XMAS
      forwards or backwards. */
  lemma CountXmasMeaning(grid: Grid, d: Direction, y: nat, x: nat)
    requires Rectangular(grid) && y < Height(grid) && x < Width(grid)
    ensures CountXmas(grid, d, y, x) <= 1
    ensures CountXmas(grid, d, y, x) == 1 <==>
      WindowFits(grid, d, y, x) && (Window(grid, d, y, x) == "XMAS" || Window(grid, d, y, x) == "SAMX")
  {
    if WindowFits(grid, d, y, x) {
      CountXmasSamxMeaning(Window(grid, d, y, x));
    }
  }

  /** What the four helpers add for the cell (y, x). */
  function CellCount(grid: Grid, y: nat, x: nat): nat
    requires Rectangular(grid) && y < Height(grid) && x < Width(grid)
  {
    CountXmas(grid, Down, y, x) + CountXmas(grid, Right, y, x)
      + CountXmas(grid, UpRight, y, x) + CountXmas(grid, DownRight, y, x)
  }

  /** The cells of row y before column n. */
  function RowCount(grid: Grid, y: nat, n: nat): nat
    requires Rectangular(grid) && y < Height(grid) && n <= Width(grid)
  {
    if n == 0 then 0 else RowCount(grid, y, n - 1) + CellCount(grid, y, n - 1)
  }

  /** The rows before row n. */
  function GridCount(grid: Grid, n: nat): nat
    requires Rectangular(grid) && n <= Height(grid)
  {
    if n == 0 then 0 else GridCount(grid, n - 1) + RowCount(grid, n - 1, Width(grid))
  }

  /** Every window that counts starts or ends on an 'X'. */
  lemma CellHasX(grid: Grid, y: nat, x: nat)
    requires Rectangular(grid) && y < Height(grid) && x < Width(grid)
    ensures CellCount(grid, y, x) > 0 ==>
      exists d :: WindowFits(grid, d, y, x) && (Window(grid, d, y, x)[0] == 'X' || Window(grid, d, y, x)[3] == 'X')
  {
    CountXmasMeaning(grid, Down, y, x);
    CountXmasMeaning(grid, Right, y, x);
    CountXmasMeaning(grid, UpRight, y, x);
    CountXmasMeaning(grid, DownRight, y, x);
  }

  /** Each cell adds at most 4, one per direction. */
  lemma {:induction false} RowCountBound(grid: Grid, y: nat, n: nat)
    requires Rectangular(grid) && y < Height(grid) && n <= Width(grid)
    ensures RowCount(grid, y, n) <= 4 * n
  {
    if n > 0 {
      RowCountBound(grid, y, n - 1);
      CountXmasMeaning(grid, Down, y, n - 1);
      CountXmasMeaning(grid, Right, y, n - 1);
      CountXmasMeaning(grid, UpRight, y, n - 1);
      CountXmasMeaning(grid, DownRight, y, n - 1);
    }
  }

  /** The inner loop of `part_one` over the cells of row y. */
  method CountRow(grid: Grid, y: nat) returns (count: nat)
    requires Rectangular(grid) && y < Height(grid)
    ensures count == RowCount(grid, y, Width(grid))
  {
    count := 0;
    for x := 0 to Width(grid)
      invariant count == RowCount(grid, y, x)
    {
      count := count + CountXmas(grid, Down, y, x);
      count := count + CountXmas(grid, Right, y, x);
      count := count + CountXmas(grid, UpRight, y, x);
      count := count + CountXmas(grid, DownRight, y, x);
    }
  }

  /** `part_one`: the four helpers summed over every cell. */
  method PartOne(grid: Grid) returns (count: nat)
    requires Rectangular(grid)
    ensures count == GridCount(grid, Height(grid))
  {
    count := 0;
    for y := 0 to Height(grid)
      invariant count == GridCount(grid, y)
    {
      var row := CountRow(grid, y);
      count := count + row;
    }
  }

  /** A diagonal pair reads MS or SM. */
  predicate MasPair(a: char, b: char)
  {
    [a, b] == ['M', 'S'] || [a, b] == ['S', 'M']
  }

  /** The cell (y, x) is the 'A' of an X-MAS: both diagonals through it
      read MAS or SAM. */
  predicate IsXMas(grid: Grid, y: nat, x: nat)
    requires Rectangular(grid) && 1 <= y < Height(grid) - 1 && 1 <= x < Width(grid) - 1
  {
    grid[y][x] == 'A'
    && MasPair(grid[y - 1][x - 1], grid[y + 1][x + 1])
    && MasPair(grid[y + 1][x - 1], grid[y - 1][x + 1])
  }

  /** The X-MAS cells of row y at columns 1 .. n - 1. */
  function XRowCount(grid: Grid, y: nat, n: nat): nat
    requires Rectangular(grid) && 1 <= y < Height(grid) - 1 && n <= Width(grid) - 1
  {
    if n <= 1 then 0 else XRowCount(grid, y, n - 1) + if IsXMas(grid, y, n - 1) then 1 else 0
  }

  /** The X-MAS cells of rows 1 .. n - 1. */
  function XGridCount(grid: Grid, n: nat): nat
    requires Rectangular(grid) && Width(grid) > 0 && n <= Height(grid) - 1
  {
    if n <= 1 then 0 else XGridCount(grid, n - 1) + XRowCount(grid, n - 1, Width(grid) - 1)
  }

  /** A diagonal pair that reads MS or SM holds one M and one S. */
  lemma MasPairMeaning(a: char, b: char)
    ensures MasPair(a, b) <==> multiset{a, b} == multiset{'M', 'S'}
  {
    if multiset{a, b} == multiset{'M', 'S'} {
      assert a in multiset{a, b} && b in multiset{a, b};
      if a == 'M' {
        assert multiset{a, b} - multiset{a} == multiset{b};
      } else {
        assert multiset{a, b} - multiset{a} == multiset{b};
      }
    }
  }

  /** The inner loop of `part_two` over the columns 1 .. width - 2. */
  method CountXRow(grid: Grid, y: nat) returns (count: nat)
    requires Rectangular(grid) && 1 <= y < Height(grid) - 1 && Width(grid) > 0
    ensures count == XRowCount(grid, y, Width(grid) - 1)
  {
    count := 0;
    var x := 1;
    while x < Width(grid) - 1
      invariant 1 <= x && (x <= Width(grid) - 1 || Width(grid) <= 2)
      invariant count == XRowCount(grid, y, if x <= Width(grid) - 1 then x else Width(grid) - 1)
    {
      if grid[y][x] == 'A' {
        var diag1 := [grid[y - 1][x - 1], grid[y + 1][x + 1]];
        var diag2 := [grid[y + 1][x - 1], grid[y - 1][x + 1]];
        var isDiag1Valid := diag1 == ['M', 'S'] || diag1 == ['S', 'M'];
        var isDiag2Valid := diag2 == ['M', 'S'] || diag2 == ['S', 'M'];
        if isDiag1Valid && isDiag2Valid {
          count := count + 1;
        }
      }
      x := x + 1;
    }
  }

  /** `part_two`: the X-MAS cells off the border.  `width - 1` underflows
      on an empty first row, so the source needs a non-empty one. */
  method PartTwo(grid: Grid) returns (count: nat)
    requires Rectangular(grid) && Width(grid) > 0
    ensures count == XGridCount(grid, Height(grid) - 1)
  {
    count := 0;
    var y := 1;
    while y < Height(grid) - 1
      invariant 1 <= y && (y <= Height(grid) - 1 || Height(grid) <= 2)
      invariant count == XGridCount(grid, if y <= Height(grid) - 1 then y else Height(grid) - 1)
    {
      var row := CountXRow(grid, y);
      count := count + row;
      y := y + 1;
    }
  }
}
