/** Two-factor screen (2016, day 8): a 50 x 6 grid of pixels, a "rect"
    instruction that lights the top-left corner and two rotations that
    shift one row right or one column down, wrapping around. */
module Aoc2016Day08 {
  import opened Common

  const ScreenWidth: nat := 50
  const ScreenHeight: nat := 6

  /** The screen as a list of rows; `screen[y][x]` is the pixel at (x, y). */
  type Grid = seq<seq<bool>>

  /** Positions and amounts come from `\d+`, so they are never negative. */
  datatype Instruction =
    | Rect(width: nat, height: nat)
    | RotateRow(y: nat, value: nat)
    | RotateColumn(x: nat, value: nat)

  predicate WellFormed(g: Grid)
  {
    |g| == ScreenHeight && forall y :: 0 <= y < |g| ==> |g[y]| == ScreenWidth
  }

  const Blank: Grid := seq(ScreenHeight, _ => seq(ScreenWidth, _ => false))

  /** Number of lit pixels in a row. */
  function CountLit(row: seq<bool>): nat
  {
    if row == [] then 0 else CountLit(row[..|row| - 1]) + (if row[|row| - 1] then 1 else 0)
  }

  lemma {:induction false} CountLitMultiset(row: seq<bool>)
    ensures CountLit(row) == multiset(row)[true]
  {
    if row != [] {
      CountLitMultiset(row[..|row| - 1]);
      assert row == row[..|row| - 1] + [row[|row| - 1]];
    }
  }

  /** Number of lit pixels on the screen: `sum(sum(row) for row in screen)`. */
  function Lit(g: Grid): nat
  {
    if g == [] then 0 else Lit(g[..|g| - 1]) + CountLit(g[|g| - 1])
  }

  /** Python's `row[-v:] + row[:-v]`. */
  function PyRotate<T>(s: seq<T>, v: nat): seq<T>
  {
    Slice(s, -(v as int), |s|) + Slice(s, 0, -(v as int))
  }

  /** The slicing rotates right by v when 0 < v < len, and gives the row
      back unchanged when v is 0 (`row[-0:]` is the whole row) or when v
      reaches the length (both slices clamp). */
  lemma PyRotateIsRotation<T>(s: seq<T>, v: nat)
    ensures PyRotate(s, v) == if 0 < v < |s| then RotateRight(s, v) else s
  {
    var n := |s|;
    if 0 < v < n {
      assert SliceBound(n, -(v as int)) == n - v;
      ModUnique(v, n, 0, v);
    } else if v == 0 {
      assert Slice(s, 0, 0) == [];
      assert s[0..n] == s;
    } else {
      assert SliceBound(n, -(v as int)) == 0;
      assert s[0..n] == s;
    }
  }

  lemma PyRotateKeepsLit(row: seq<bool>, v: nat)
    ensures |PyRotate(row, v)| == |row| && CountLit(PyRotate(row, v)) == CountLit(row)
  {
    PyRotateIsRotation(row, v);
    RotateRightPermutes(row, v);
    CountLitMultiset(row);
    CountLitMultiset(PyRotate(row, v));
  }

  /** The pixels of column x, top to bottom. */
  function Column(g: Grid, x: nat): (c: seq<bool>)
    requires forall y :: 0 <= y < |g| ==> x < |g[y]|
    ensures |c| == |g| && forall y :: 0 <= y < |g| ==> c[y] == g[y][x]
  {
    seq(|g|, y requires 0 <= y < |g| => g[y][x])
  }

  /** Column x replaced by `c`. */
  function SetColumn(g: Grid, x: nat, c: seq<bool>): (r: Grid)
    requires |c| == |g| && forall y :: 0 <= y < |g| ==> x < |g[y]|
    ensures |r| == |g| && forall y :: 0 <= y < |g| ==> r[y] == g[y][x := c[y]]
  {
    seq(|g|, y requires 0 <= y < |g| => g[y][x := c[y]])
  }

  /** `Rect.apply`: lights every (x, y) with x < width and y < height. */
  function LightRect(g: Grid, w: nat, h: nat): (r: Grid)
    ensures |r| == |g| && forall y :: 0 <= y < |g| ==> |r[y]| == |g[y]|
  {
    seq(|g|, y requires 0 <= y < |g| =>
      seq(|g[y]|, x requires 0 <= x < |g[y]| => (y < h && x < w) || g[y][x]))
  }

  /** One instruction on a well-formed screen; None where the source raises
      IndexError: a rect wider or taller than the screen (unless it is
      empty), a row or a column outside the screen. */
  function Apply(g: Grid, i: Instruction): (r: Option<Grid>)
    requires WellFormed(g)
    ensures r.Some? ==> WellFormed(r.value)
    ensures r.None? <==>
      match i
      case Rect(w, h) => w > 0 && h > 0 && (w > ScreenWidth || h > ScreenHeight)
      case RotateRow(y, _) => y >= ScreenHeight
      case RotateColumn(x, _) => x >= ScreenWidth
  {
    match i
    case Rect(w, h) =>
      if w > 0 && h > 0 && (w > ScreenWidth || h > ScreenHeight) then None else Some(LightRect(g, w, h))
    case RotateRow(y, v) =>
      if y >= ScreenHeight then None
      else
        PyRotateKeepsLit(g[y], v);
        Some(g[y := PyRotate(g[y], v)])
    case RotateColumn(x, v) =>
      if x >= ScreenWidth then None
      else
        PyRotateKeepsLit(Column(g, x), v);
        Some(SetColumn(g, x, PyRotate(Column(g, x), v)))
  }

  /** Rect lights exactly the top-left width x height pixels it covers and
      leaves every other pixel as it was. */
  lemma RectLightsCorner(g: Grid, w: nat, h: nat, x: nat, y: nat)
    requires WellFormed(g) && Apply(g, Rect(w, h)).Some?
    requires x < ScreenWidth && y < ScreenHeight
    ensures Apply(g, Rect(w, h)).value[y][x] == ((x < w && y < h) || g[y][x])
  {
  }

  /** RotateRow by less than the width moves pixel (x, y) to
      ((x + value) mod width, y) and changes no other row. */
  lemma RotateRowShifts(g: Grid, y: nat, v: nat, x: nat)
    requires WellFormed(g) && y < ScreenHeight && x < ScreenWidth && v < ScreenWidth
    ensures Apply(g, RotateRow(y, v)).value[y][(x + v) % ScreenWidth] == g[y][x]
    ensures forall yy :: 0 <= yy < ScreenHeight && yy != y ==> Apply(g, RotateRow(y, v)).value[yy] == g[yy]
  {
    PyRotateIsRotation(g[y], v);
    var r := Apply(g, RotateRow(y, v)).value;
    var k := (x + v) % ScreenWidth;
    if 0 < v < ScreenWidth {
      RotateRightAt(g[y], v, k);
      ModUnique(k - v, ScreenWidth, if x + v < ScreenWidth then 0 else -1, x);
    } else {
      assert k == x;
    }
  }

  /** Changing one pixel of one row changes the lit count by the difference. */
  lemma {:induction false} LitSetColumn(g: Grid, x: nat, c: seq<bool>)
    requires |c| == |g| && forall y :: 0 <= y < |g| ==> x < |g[y]|
    ensures Lit(SetColumn(g, x, c)) + CountLit(Column(g, x)) == Lit(g) + CountLit(c)
  {
    if g != [] {
      var n := |g| - 1;
      var g', c' := g[..n], c[..n];
      LitSetColumn(g', x, c');
      assert SetColumn(g, x, c)[..n] == SetColumn(g', x, c');
      assert Column(g, x)[..n] == Column(g', x);
      RowSetLit(g[n], x, c[n]);
    }
  }

  lemma {:induction false} RowSetLit(row: seq<bool>, x: nat, b: bool)
    requires x < |row|
    ensures CountLit(row[x := b]) + (if row[x] then 1 else 0) == CountLit(row) + (if b then 1 else 0)
  {
    CountLitMultiset(row);
    CountLitMultiset(row[x := b]);
  }

  lemma {:induction false} LitSetRow(g: Grid, y: nat, row: seq<bool>)
    requires y < |g|
    ensures Lit(g[y := row]) + CountLit(g[y]) == Lit(g) + CountLit(row)
  {
    var n := |g| - 1;
    if y < n {
      LitSetRow(g[..n], y, row);
      assert g[y := row][..n] == g[..n][y := row];
    } else {
      assert g[y := row][..n] == g[..n];
    }
  }

  /** Both rotations keep the number of lit pixels. */
  lemma RotationKeepsLit(g: Grid, i: Instruction)
    requires WellFormed(g) && (i.RotateRow? || i.RotateColumn?) && Apply(g, i).Some?
    ensures Lit(Apply(g, i).value) == Lit(g)
  {
    match i
    case RotateRow(y, v) =>
      PyRotateKeepsLit(g[y], v);
      LitSetRow(g, y, PyRotate(g[y], v));
    case RotateColumn(x, v) =>
      PyRotateKeepsLit(Column(g, x), v);
      LitSetColumn(g, x, PyRotate(Column(g, x), v));
  }

  /** The instructions in order from `start`; None when one raises. */
  function Play(g: Grid, instrs: seq<Instruction>): (r: Option<Grid>)
    requires WellFormed(g)
    ensures r.Some? ==> WellFormed(r.value)
    decreases |instrs|
  {
    if instrs == [] then Some(g)
    else match Apply(g, instrs[0])
      case None => None
      case Some(h) => Play(h, instrs[1..])
  }

  /** Playing only rotations keeps the lit count. */
  lemma {:induction false} RotationsKeepLit(g: Grid, instrs: seq<Instruction>)
    requires WellFormed(g) && Play(g, instrs).Some?
    requires forall k :: 0 <= k < |instrs| ==> !instrs[k].Rect?
    ensures Lit(Play(g, instrs).value) == Lit(g)
    decreases |instrs|
  {
    if instrs != [] {
      RotationKeepsLit(g, instrs[0]);
      RotationsKeepLit(Apply(g, instrs[0]).value, instrs[1..]);
    }
  }

  class Screen {
    var screen: Grid

    /** `[[False] * SCREEN_WIDTH for _ in range(SCREEN_HEIGHT)]`. */
    constructor ()
      ensures screen == Blank && WellFormed(screen)
    {
      screen := Blank;
    }

    /** `Rect.apply`: the nested loops light one pixel at a time. */
    method ApplyRect(w: nat, h: nat) returns (ok: bool)
      requires WellFormed(screen)
      modifies this
      ensures ok == Apply(old(screen), Rect(w, h)).Some?
      ensures ok ==> screen == Apply(old(screen), Rect(w, h)).value
    {
      for y := 0 to h
        invariant |screen| == ScreenHeight
        invariant forall yy :: 0 <= yy < ScreenHeight ==> |screen[yy]| == ScreenWidth
        invariant y > 0 && w > 0 ==> y <= ScreenHeight && w <= ScreenWidth
        invariant forall yy, xx :: 0 <= yy < ScreenHeight && 0 <= xx < ScreenWidth ==>
          screen[yy][xx] == ((yy < y && xx < w) || old(screen)[yy][xx])
      {
        for x := 0 to w
          invariant |screen| == ScreenHeight
          invariant forall yy :: 0 <= yy < ScreenHeight ==> |screen[yy]| == ScreenWidth
          invariant x <= ScreenWidth && (x > 0 ==> y < ScreenHeight)
          invariant forall yy, xx :: 0 <= yy < ScreenHeight && 0 <= xx < ScreenWidth ==>
            screen[yy][xx] == ((yy < y && xx < w) || (yy == y && xx < x) || old(screen)[yy][xx])
        {
          if y >= |screen| || x >= |screen[y]| {
            return false;
          }
          screen := screen[y := screen[y][x := true]];
        }
      }
      ok := true;
      var lit := LightRect(old(screen), w, h);
      forall yy | 0 <= yy < ScreenHeight ensures screen[yy] == lit[yy] {
        assert forall xx :: 0 <= xx < ScreenWidth ==> screen[yy][xx] == lit[yy][xx];
      }
      assert screen == lit;
    }

    /** `RotateRow.apply`: row y is replaced by its rotation. */
    method ApplyRotateRow(y: nat, v: nat) returns (ok: bool)
      requires WellFormed(screen)
      modifies this
      ensures ok == Apply(old(screen), RotateRow(y, v)).Some?
      ensures ok ==> screen == Apply(old(screen), RotateRow(y, v)).value
    {
      if y >= |screen| {
        return false;
      }
      screen := screen[y := PyRotate(screen[y], v)];
      ok := true;
    }

    /** `RotateColumn.apply`: read column x, rotate it, write it back one
        row at a time. */
    method ApplyRotateColumn(x: nat, v: nat) returns (ok: bool)
      requires WellFormed(screen)
      modifies this
      ensures ok == Apply(old(screen), RotateColumn(x, v)).Some?
      ensures ok ==> screen == Apply(old(screen), RotateColumn(x, v)).value
    {
      if x >= ScreenWidth {
        return false;
      }
      var column := PyRotate(Column(screen, x), v);
      PyRotateKeepsLit(Column(screen, x), v);
      WriteColumn(x, column);
      ok := true;
    }

    /** The write-back loop of `RotateColumn.apply`: row by row, the pixel
        in column x takes the rotated column's value. */
    method WriteColumn(x: nat, column: seq<bool>)
      requires WellFormed(screen) && x < ScreenWidth && |column| == ScreenHeight
      modifies this
      ensures screen == SetColumn(old(screen), x, column)
    {
      for y := 0 to ScreenHeight
        invariant |screen| == ScreenHeight
        invariant forall yy :: 0 <= yy < ScreenHeight ==>
          screen[yy] == if yy < y then old(screen)[yy][x := column[yy]] else old(screen)[yy]
      {
        screen := screen[y := screen[y][x := column[y]]];
      }
    }

    method ApplyInstruction(i: Instruction) returns (ok: bool)
      requires WellFormed(screen)
      modifies this
      ensures ok == Apply(old(screen), i).Some?
      ensures ok ==> screen == Apply(old(screen), i).value
    {
      match i
      case Rect(w, h) => ok := ApplyRect(w, h);
      case RotateRow(y, v) => ok := ApplyRotateRow(y, v);
      case RotateColumn(x, v) => ok := ApplyRotateColumn(x, v);
    }
  }

  /** `play_instructions`: a blank screen, then every instruction. */
  method PlayInstructions(instrs: seq<Instruction>) returns (r: Option<Grid>)
    ensures r == Play(Blank, instrs)
  {
    var s := new Screen();
    for k := 0 to |instrs|
      invariant WellFormed(s.screen)
      invariant Play(Blank, instrs) == Play(s.screen, instrs[k..])
    {
      assert instrs[k..][1..] == instrs[k + 1..];
      var ok := s.ApplyInstruction(instrs[k]);
      if !ok {
        return None;
      }
    }
    return Some(s.screen);
  }

  /** `part_one`: the number of lit pixels once every instruction ran. */
  method PartOne(instrs: seq<Instruction>) returns (r: Option<nat>)
    ensures r.Some? <==> Play(Blank, instrs).Some?
    ensures r.Some? ==> r.value == Lit(Play(Blank, instrs).value) <= ScreenWidth * ScreenHeight
  {
    var screen := PlayInstructions(instrs);
    if screen.None? {
      return None;
    }
    LitBound(screen.value);
    return Some(Lit(screen.value));
  }

  lemma LitBound(g: Grid)
    requires WellFormed(g)
    ensures Lit(g) <= ScreenWidth * ScreenHeight
  {
    LitRowsBound(g);
  }

  lemma {:induction false} LitRowsBound(g: Grid)
    requires forall y :: 0 <= y < |g| ==> |g[y]| == ScreenWidth
    ensures Lit(g) <= ScreenWidth * |g|
  {
    if g != [] {
      LitRowsBound(g[..|g| - 1]);
      CountLitBound(g[|g| - 1]);
    }
  }

  lemma {:induction false} CountLitBound(row: seq<bool>)
    ensures CountLit(row) <= |row|
  {
    if row != [] {
      CountLitBound(row[..|row| - 1]);
    }
  }
}
