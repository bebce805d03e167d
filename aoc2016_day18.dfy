/** Like a rogue (2016, day 18): each row of floor tiles is derived from the
    row above it; a tile is a trap when the (left, centre, right) tiles
    above it form one of four patterns, with the walls beyond either end
    counting as safe.  The answer is the number of safe tiles in the first
    `rowNbr` rows. */
module Aoc2016Day18 {

  /** `SAFE = False`, `TRAP = True`. */
  const Safe: bool := false
  const Trap: bool := true

  /** The four (left, centre, right) patterns that make a trap (the source
      calls the set `safe_patterns`, but a match sets the tile to TRAP). */
  predicate TrapPattern(a: bool, b: bool, c: bool)
  {
    (a, b, c) == (Trap, Trap, Safe) || (a, b, c) == (Safe, Trap, Trap)
    || (a, b, c) == (Trap, Safe, Safe) || (a, b, c) == (Safe, Safe, Trap)
  }

  /** The four patterns are exactly those whose left and right tiles
      differ: the centre tile never matters. */
  lemma TrapIffEdgesDiffer(a: bool, b: bool, c: bool)
    ensures TrapPattern(a, b, c) <==> a != c
  {
  }

  /** The tile at position i, with the walls at -1 and |row| safe. */
  function TileAt(row: seq<bool>, i: int): bool
  {
    if 0 <= i < |row| then row[i] else Safe
  }

  /** Whether tile i of the row below `row` is a trap. */
  predicate NextTile(row: seq<bool>, i: int)
  {
    TrapPattern(TileAt(row, i - 1), TileAt(row, i), TileAt(row, i + 1))
  }

  /** The row below `row`. */
  function Next(row: seq<bool>): (r: seq<bool>)
    ensures |r| == |row|
  {
    seq(|row|, i => NextTile(row, i))
  }

  lemma NextAt(row: seq<bool>, i: int)
    requires 0 <= i < |row|
    ensures Next(row)[i] == NextTile(row, i)
  {
  }

  /** Row number g (the first row is row 0). */
  function Generation(first: seq<bool>, g: nat): (r: seq<bool>)
    ensures |r| == |first|
  {
    if g == 0 then first else Next(Generation(first, g - 1))
  }

  /** The number of safe tiles among the first n of a row. */
  function SafeCountTo(row: seq<bool>, n: nat): (r: nat)
    requires n <= |row|
    ensures r <= n
  {
    if n == 0 then 0 else SafeCountTo(row, n - 1) + (if row[n - 1] == Safe then 1 else 0)
  }

  /** The number of safe tiles in a row. */
  function SafeCount(row: seq<bool>): (r: nat)
    ensures r <= |row|
  {
    SafeCountTo(row, |row|)
  }

  /** The number of safe tiles in the first n rows; the first row is always
      counted, even when n is 0. */
  function SafeTiles(first: seq<bool>, n: nat): (r: nat)
  {
    if n <= 1 then SafeCount(first) else SafeTiles(first, n - 1) + SafeCount(Generation(first, n - 1))
  }

  /** n rows of |first| tiles hold at most n * |first| safe tiles. */
  lemma {:induction false} SafeTilesBound(first: seq<bool>, n: nat)
    requires n >= 1
    ensures SafeTiles(first, n) <= n * |first|
  {
    if n > 1 {
      SafeTilesBound(first, n - 1);
      assert SafeCount(Generation(first, n - 1)) <= |first|;
    }
  }

  predicate AllSafe(row: seq<bool>)
  {
    forall i :: 0 <= i < |row| ==> row[i] == Safe
  }

  /** An all-safe row stays all safe. */
  lemma {:induction false} AllSafeStays(first: seq<bool>, g: nat)
    requires AllSafe(first)
    ensures AllSafe(Generation(first, g))
  {
    if g > 0 {
      var row := Generation(first, g - 1);
      AllSafeStays(first, g - 1);
      forall i | 0 <= i < |row| ensures Next(row)[i] == Safe {
        NextAt(row, i);
      }
    }
  }

  /** A row of safe tiles only counts every tile. */
  lemma {:induction false} SafeCountAllSafe(row: seq<bool>, n: nat)
    requires AllSafe(row) && n <= |row|
    ensures SafeCountTo(row, n) == n
  {
    if n > 0 {
      SafeCountAllSafe(row, n - 1);
    }
  }

  /** Without traps in the first row, every tile of every row is safe. */
  lemma {:induction false} AllSafeCountsEverything(first: seq<bool>, n: nat)
    requires n >= 1
    requires AllSafe(first)
    ensures SafeTiles(first, n) == n * |first|
  {
    if n == 1 {
      SafeCountAllSafe(first, |first|);
    } else {
      assert n * |first| == (n - 1) * |first| + |first|;
      AllSafeCountsEverything(first, n - 1);
      AllSafeStays(first, n - 1);
      SafeCountAllSafe(Generation(first, n - 1), |first|);
    }
  }

  /** The buffer holds `[SAFE] + row + [SAFE]`. */
  predicate Padded(buffer: array<bool>, row: seq<bool>)
    reads buffer
  {
    buffer.Length == |row| + 2 && forall j :: 0 <= j < buffer.Length ==> buffer[j] == TileAt(row, j - 1)
  }

  /** `get_safe_tile_nbr`: two padded buffers; each generation writes the
      inner tiles of `newRow` from the windows of `oldRow`, counting the
      safe ones, then copies `newRow` back into `oldRow`. */
  method GetSafeTileNbr(firstRow: seq<bool>, rowNbr: int) returns (safeTileNbr: nat)
    ensures safeTileNbr == SafeTiles(firstRow, if rowNbr < 1 then 1 else rowNbr)
  {
    safeTileNbr := SafeCount(firstRow);
    var oldRow := PaddedBuffer(firstRow);
    var newRow := new bool[oldRow.Length](_ => Safe);
    var generations := if rowNbr < 1 then 0 else rowNbr - 1;
    for g := 0 to generations
      invariant Padded(oldRow, Generation(firstRow, g))
      invariant newRow.Length == oldRow.Length && newRow[0] == Safe && newRow[oldRow.Length - 1] == Safe
      invariant safeTileNbr == SafeTiles(firstRow, g + 1)
    {
      var safe := NextGeneration(oldRow, newRow, firstRow, g);
      safeTileNbr := safeTileNbr + safe;
    }
  }

  /** `[SAFE] + first_row + [SAFE]` as a fresh buffer. */
  method PaddedBuffer(row: seq<bool>) returns (buffer: array<bool>)
    ensures fresh(buffer) && Padded(buffer, row)
  {
    buffer := new bool[|row| + 2]((i: nat) => TileAt(row, i as int - 1));
  }

  /** One generation of the outer loop: the window pass, then the copy. */
  method NextGeneration(oldRow: array<bool>, newRow: array<bool>, ghost first: seq<bool>, ghost g: nat) returns (safe: nat)
    requires oldRow != newRow && Padded(oldRow, Generation(first, g))
    requires newRow.Length == oldRow.Length && newRow[0] == Safe && newRow[oldRow.Length - 1] == Safe
    modifies oldRow, newRow
    ensures Padded(oldRow, Generation(first, g + 1))
    ensures newRow[0] == Safe && newRow[oldRow.Length - 1] == Safe
    ensures safe == SafeCount(Generation(first, g + 1))
  {
    ghost var row := Generation(first, g);
    safe := NextRow(oldRow, newRow, row);
    CopyRow(newRow, oldRow, Next(row));
  }

  /** The sliding-window pass: tile idx + 1 of `newRow` is set from
      `oldRow[idx..idx + 3]`, and the padding of `newRow` is left alone;
      `safe` counts the safe tiles written. */
  method NextRow(oldRow: array<bool>, newRow: array<bool>, ghost row: seq<bool>) returns (safe: nat)
    requires oldRow != newRow && Padded(oldRow, row)
    requires newRow.Length == oldRow.Length && newRow[0] == Safe && newRow[oldRow.Length - 1] == Safe
    modifies newRow
    ensures Padded(newRow, Next(row))
    ensures safe == SafeCount(Next(row))
  {
    ghost var next := Next(row);
    safe := 0;
    for idx := 0 to oldRow.Length - 2
      invariant newRow[0] == Safe && newRow[oldRow.Length - 1] == Safe
      invariant forall j :: 0 <= j < idx ==> newRow[j + 1] == next[j]
      invariant safe == SafeCountTo(next, idx)
    {
      var a, b, c := oldRow[idx], oldRow[idx + 1], oldRow[idx + 2];
      assert a == TileAt(row, idx - 1) && b == TileAt(row, idx) && c == TileAt(row, idx + 1);
      NextAt(row, idx);
      if TrapPattern(a, b, c) {
        newRow[idx + 1] := Trap;
      } else {
        newRow[idx + 1] := Safe;
        safe := safe + 1;
      }
    }
  }

  /** `old_row[i] = new_row[i]` for every i. */
  method CopyRow(newRow: array<bool>, oldRow: array<bool>, ghost row: seq<bool>)
    requires oldRow != newRow && oldRow.Length == newRow.Length && Padded(newRow, row)
    modifies oldRow
    ensures Padded(oldRow, row)
  {
    for i := 0 to oldRow.Length
      invariant forall j :: 0 <= j < i ==> oldRow[j] == newRow[j]
    {
      oldRow[i] := newRow[i];
    }
  }
}
