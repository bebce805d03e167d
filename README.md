# Advent of Code solutions, modelled and verified in Dafny

This project models the core of a collection of Advent of Code solutions,
written in Python (2016, 2018, 2019, 2025) and Rust (2024). It covers the
puzzles whose logic is integer and sequence manipulation. Each Dafny module
`AocYYYYDayNN` (file `aocYYYY_dayNN.dfy`) models one solution file, in the
form the source has:

- Loops that update variables become methods with `while`/`for` loops, each
  proved against a specification function.
- Objects whose fields change in place become classes. Examples are the
  assembunny `ProgramState`, the day 8 screen, the bots of 2016 day 10, the
  mine carts, the guard and the warehouse map.
- Fixed-size buffers and grids become arrays. Examples are the Intcode
  memory, the fabric grid, the disk blocks, the trap rows and the paper
  rolls.
- Pure code becomes datatypes, functions and lemmas.

Three shared modules hold what several days use:

- `Common` holds Python-style indexing and slicing, powers of ten,
  rotations and small arithmetic helpers.
- `Assembunny` holds the register file of the 2016 assembunny machines.
- `Intcode` holds memory reads and writes of the 2019 Intcode machines.

The families covered:

- Instruction interpreters: assembunny (2016 days 12, 23, 25) and Intcode
  (2019 days 2, 5). Each opcode's effect is stated exactly, and the run
  loops are tied to their step functions.
- Sequence and string transformers: the password scrambler and its
  inverse, the pixel screen, polymer reduction, decompression length, the
  license tree, and the digit and letter predicates.
- Interval arithmetic: blacklist merging, and the size of a union of
  ranges.
- Simulations: disk compaction, box pushing, the marble circle, the recipe
  scoreboard, mine carts, chip-passing bots, the guard walk, robots on a
  torus, disc alignment and trap rows.
- Searches and folds: report safety, equation solvability, page ordering,
  stone splitting, antinodes, keypad walks, dial counting, battery
  joltage, accessible rolls, and the breadth-first search for the fewest
  button presses.

Where a source operation raises or panics, the model returns `None`, or an
outcome constructor naming the failure; the few panics that are not
modelled are named under "Left out". A loop that can run forever in the
source takes an explicit `fuel` bound.

## Model

| member | source | states |
|---|---|---|
| `Aoc2016Day01.Value` | aoc_2016/day_01/day_01.py:4-8 | the enum value of a facing is one of 1..4 |
| `Aoc2016Day01.FromValue` | aoc_2016/day_01/day_01.py:4-8 | `Direction(v)` inverts the enum value for every v in 1..4 |
| `Aoc2016Day01.Rotate` | aoc_2016/day_01/day_01.py:10-15 | `rotate` gives a facing exactly for "L" and "R", and None for any other symbol |
| `Aoc2016Day01.RotateIsTurn` | aoc_2016/day_01/day_01.py:10-15 | the `% 4 or 4` arithmetic is a quarter turn to the left or right and stays in 1..4 |
| `Aoc2016Day01.TurnsCancel` | aoc_2016/day_01/day_01.py:10-15 | R followed by L, and L followed by R, give back the original facing |
| `Aoc2016Day01.FourTurns` | aoc_2016/day_01/day_01.py:10-15 | four turns the same way come back to the original facing |
| `Aoc2016Day01.AdvanceIsRepeatedStep` | aoc_2016/day_01/day_01.py:17-35 | `advance(n)` moves to the same point as n calls of `advance_one_step` |
| `Aoc2016Day01.EndPoint` | aoc_2016/day_01/day_01.py:44-50 | the loop, turning and then advancing for each instruction, ends at the end point of the walk |
| `Aoc2016Day01.PartOne` | aoc_2016/day_01/day_01.py:43-51 | the loop ends with the signed sum y + x of the end point of the walk |
| `Aoc2016Day01.BlocksAway` | aoc_2016/day_01/day_01.py:43-51 | part one as intended: the blocks distance \|y\| + \|x\| of the end point, never negative and the same for the mirrored walk |
| `Aoc2016Day01.TurnMirror` | aoc_2016/day_01/day_01.py:10-15 | exchanging L and R turns the mirror image of a facing into the mirror image of the result |
| `Aoc2016Day01.Mirror` | aoc_2016/day_01/day_01.py:43-51 | the mirrored instruction list has the same length as the original |
| `Aoc2016Day01.MirrorWalk` | aoc_2016/day_01/day_01.py:43-51 | the mirrored walk ends with the mirrored facing at the mirror image (y, -x) of the end point |
| `Aoc2016Day01.PartOneDistanceMirrored` | aoc_2016/day_01/day_01.py:43-51 | the distance of the end point, which part one should report, is the same for the mirrored walk |
| `Aoc2016Day01.SignedSumLeft` | aoc_2016/day_01/day_01.py:51 | the walk "L3" ends at x = -3, so part one reports -3 for a point three blocks away |
| `Aoc2016Day01.SignedSumRight` | aoc_2016/day_01/day_01.py:51 | the mirrored walk "R3" ends at x = 3, reported as 3 although the distance is the same |
| `Aoc2016Day01.Trail` | aoc_2016/day_01/day_01.py:61-63 | `range(steps)` visits exactly max(steps, 0) blocks |
| `Aoc2016Day01.RouteOf` | aoc_2016/day_01/day_01.py:54-66 | the route of part two always holds the origin |
| `Aoc2016Day01.RouteStep` | aoc_2016/day_01/day_01.py:59-66 | instruction i turns, then appends its one-block trail to the route of the instructions before it |
| `Aoc2016Day01.RouteFollowsWalk` | aoc_2016/day_01/day_01.py:43-66 | with no negative step counts, part two ends facing as part one does and its last block is part one's end point |
| `Aoc2016Day01.FirstRevisitMeaning` | aoc_2016/day_01/day_01.py:64-67 | a first revisit occurs at least twice on the route; with none, every block of the route is distinct |
| `Aoc2016Day01.FirstRevisitPrefix` | aoc_2016/day_01/day_01.py:62-66 | once a block is revisited, walking further does not change the answer |
| `Aoc2016Day01.PartTwo` | aoc_2016/day_01/day_01.py:54-67 | the result is the signed sum of the first block visited twice, or None where the source raises |
| `Aoc2016Day01.WalkInstruction` | aoc_2016/day_01/day_01.py:59-66 | one pass of the outer loop either meets the first block of the whole route visited twice, or leaves the walked blocks, position and history as the route after one more instruction |
| `Aoc2016Day01.WalkBlocks` | aoc_2016/day_01/day_01.py:62-66 | the inner loop either stops at block j + 1, the first revisit, or adds all n new blocks to the history and the route |
| `Aoc2016Day01.RouteMirror` | aoc_2016/day_01/day_01.py:54-66 | the mirrored instructions visit the mirror images of the blocks, in the same order |
| `Aoc2016Day01.FirstRevisitMirror` | aoc_2016/day_01/day_01.py:64-65 | the first revisit of the mirrored route is the mirror image of the first revisit |
| `Aoc2016Day01.RevisitDistanceMirrored` | aoc_2016/day_01/day_01.py:54-67 | the distance of the first revisited block is the same for the mirrored walk |
| `Aoc2016Day02.GetValue` | aoc_2016/day_02/day_02.py:29-32 | a key is returned only for a point inside the grid; off the grid the result is None |
| `Aoc2016Day02.Step` | aoc_2016/day_02/day_02.py:39-43 | a move succeeds exactly for U, D, L and R, and the finger stays on a key |
| `Aoc2016Day02.FollowLine` | aoc_2016/day_02/day_02.py:38-43 | after the moves of a line the finger still rests on a key |
| `Aoc2016Day02.StripLeft` | aoc_2016/day_02/day_02.py:38 | `strip` removes a run of leading white space and nothing else |
| `Aoc2016Day02.StripRight` | aoc_2016/day_02/day_02.py:38 | `strip` removes a run of trailing white space and nothing else |
| `Aoc2016Day02.Code` | aoc_2016/day_02/day_02.py:35-45 | the code has exactly one character per line and the finger ends on a key |
| `Aoc2016Day02.CodeIsKeys` | aoc_2016/day_02/day_02.py:44 | every character of the code is a key of the keypad |
| `Aoc2016Day02.GetCode` | aoc_2016/day_02/day_02.py:35-45 | the loop computes the code of the lines, and fails exactly where a character is not a move |
| `Aoc2016Day02.FollowMoves` | aoc_2016/day_02/day_02.py:38-43 | the inner loop ends where the line's moves lead, and fails exactly where a character is not a move |
| `Aoc2016Day02.NoMoveFails` | aoc_2016/day_02/day_02.py:39 | a character that is not in `DIRECTIONS` makes its line fail |
| `Aoc2016Day02.CodeFails` | aoc_2016/day_02/day_02.py:37-39 | a failing line makes the whole code fail |
| `Aoc2016Day02.StartOnFive` | aoc_2016/day_02/day_02.py:6-18 | both keypads are rectangular and both parts start on the key "5" |
| `Aoc2016Day02.SquareKeypadClamps` | aoc_2016/day_02/day_02.py:6-10 | on the 3 x 3 keypad every move is a step clamped to the grid |
| `Aoc2016Day02.PartOne` | aoc_2016/day_02/day_02.py:48-49 | part one is the code on the square keypad starting at (1, 1) |
| `Aoc2016Day02.PartTwo` | aoc_2016/day_02/day_02.py:52-53 | part two is the code on the diamond keypad starting at (2, 0) |
| `Aoc2016Day03.ValidityIgnoresOrder` | aoc_2016/day_03/day_03.py:6-8 | swapping two sides or rotating all three keeps validity, so every reordering of the sides does |
| `Aoc2016Day03.ValidSidesPositive` | aoc_2016/day_03/day_03.py:6-8 | a valid triangle has three positive sides |
| `Aoc2016Day03.PartOne` | aoc_2016/day_03/day_03.py:11-12 | the count of valid rows is at most the number of rows |
| `Aoc2016Day03.PartOneAppend` | aoc_2016/day_03/day_03.py:11-12 | the count of a concatenation is the sum of the counts |
| `Aoc2016Day03.ByColumns` | aoc_2016/day_03/day_03.py:17-23 | reading by columns succeeds exactly when the rows come in groups of three, and keeps their number |
| `Aoc2016Day03.ColumnsTwice` | aoc_2016/day_03/day_03.py:19-23 | reading a group of three rows by columns twice gives the rows back |
| `Aoc2016Day03.ByColumnsTwice` | aoc_2016/day_03/day_03.py:17-23 | reading the whole list by columns twice gives the list back |
| `Aoc2016Day03.PartTwo` | aoc_2016/day_03/day_03.py:15-25 | part two counts the valid triangles read by columns, and fails with IndexError exactly when the rows do not come in groups of three |
| `Aoc2016Day03.CountColumns` | aoc_2016/day_03/day_03.py:18-24 | the inner loop counts the valid column triangles of one group of three rows |
| `Aoc2016Day03.ByColumnsAppend` | aoc_2016/day_03/day_03.py:17-23 | a further group of three rows adds its three column triangles at the end |
| `Aoc2016Day04.Occurrences` | aoc_2016/day_04/day_04.py:17 | a letter's count is at most the length of the name |
| `Aoc2016Day04.Letters` | aoc_2016/day_04/day_04.py:13 | removing the dashes never lengthens the name |
| `Aoc2016Day04.BestMeaning` | aoc_2016/day_04/day_04.py:14-18 | each pick is a letter not yet picked that ranks before every other one (higher count, ties alphabetical); none is picked only when all are |
| `Aoc2016Day04.Top` | aoc_2016/day_04/day_04.py:18 | at most k letters are picked |
| `Aoc2016Day04.TopRanked` | aoc_2016/day_04/day_04.py:14-18 | the picked letters come in strict rank order, every letter left out ranks after all of them, and fewer than k are picked only when every letter is |
| `Aoc2016Day04.MostCommonRanked` | aoc_2016/day_04/day_04.py:14-18 | `most_common(5)` on the sorted letters gives at most five distinct letters of the name, by decreasing count with ties alphabetical, none left out ranking above one picked |
| `Aoc2016Day04.CompareChecksumMeaning` | aoc_2016/day_04/day_04.py:18-21 | the loop returns True exactly when the checksum starts with the picked letters, and raises IndexError exactly when the checksum is a proper prefix of them |
| `Aoc2016Day04.ValidMeansChecksumPrefix` | aoc_2016/day_04/day_04.py:12-21 | a room is real exactly when its checksum starts with its most common letters |
| `Aoc2016Day04.Shift` | aoc_2016/day_04/day_04.py:30-32 | the shift of a character is always a lower-case letter |
| `Aoc2016Day04.ShiftCompose` | aoc_2016/day_04/day_04.py:30-32 | shifting by s and then by t is shifting by s + t |
| `Aoc2016Day04.ShiftPeriod` | aoc_2016/day_04/day_04.py:31 | shifting a lower-case letter by a multiple of 26 leaves it alone |
| `Aoc2016Day04.ShiftInverse` | aoc_2016/day_04/day_04.py:30-32 | shifting back by the sector id recovers the encrypted letter |
| `Aoc2016Day04.Split` | aoc_2016/day_04/day_04.py:26 | `split("-")` always gives at least one piece |
| `Aoc2016Day04.ShiftWord` | aoc_2016/day_04/day_04.py:27-35 | a shifted word has the length of the word |
| `Aoc2016Day04.ShiftWords` | aoc_2016/day_04/day_04.py:26-36 | one shifted word per word |
| `Aoc2016Day04.DecryptChars` | aoc_2016/day_04/day_04.py:23-37 | the character-by-character decryption keeps the length |
| `Aoc2016Day04.DecryptedIsCharMap` | aoc_2016/day_04/day_04.py:23-37 | splitting on dashes, shifting every word and joining with spaces equals turning each dash into a space and shifting every other character |
| `Aoc2016Day04.DecryptedNameAt` | aoc_2016/day_04/day_04.py:23-37 | the decrypted name has one character per character of the name: a space for a dash, the shifted letter otherwise |
| `Aoc2016Day04.RealIds` | aoc_2016/day_04/day_04.py:41 | at most one sector id per room is summed |
| `Aoc2016Day04.RealIdsAppend` | aoc_2016/day_04/day_04.py:41 | the real rooms of a concatenation are those of each half |
| `Aoc2016Day04.PartOne` | aoc_2016/day_04/day_04.py:40-41 | when every sector id is non-negative, a sum part one returns is non-negative |
| `Aoc2016Day04.RealIdsNonNegative` | aoc_2016/day_04/day_04.py:41 | with non-negative sector ids, every summed id is non-negative |
| `Aoc2016Day04.PartOneMeaning` | aoc_2016/day_04/day_04.py:40-41 | part one raises IndexError exactly when some room's checksum is a proper prefix of its most common letters, and is 0 when no room is real |
| `Aoc2016Day04.RealIdsNone` | aoc_2016/day_04/day_04.py:41 | with no real room nothing is summed |
| `Aoc2016Day04.CheckedAppend` | aoc_2016/day_04/day_04.py:41 | two lists of rooms checked without error concatenate to one |
| `Aoc2016Day04.PartOneAppend` | aoc_2016/day_04/day_04.py:40-41 | the sum over a list of rooms is the sum over its two halves |
| `Aoc2016Day04.PartOneSingle` | aoc_2016/day_04/day_04.py:40-41 | a single room adds its sector id exactly when it is real |
| `Aoc2016Day04.PartTwo` | aoc_2016/day_04/day_04.py:44-50 | an answer is the sector id of some real room whose decrypted name holds "northpole"; with no such room the search fails |
| `Aoc2016Day04.CheckedTail` | aoc_2016/day_04/day_04.py:45-49 | a room checked without error can be dropped from the front of the scan |
| `Aoc2016Day04.PartTwoFinds` | aoc_2016/day_04/day_04.py:44-49 | part two answers the sector id of the first real room whose decrypted name holds "northpole", reached without an error |
| `Aoc2016Day04.ShiftFound` | aoc_2016/day_04/day_04.py:45-49 | a storage room found in the rest of the list, behind a checked room that is not the storage, is found one place further on |
| `Aoc2016Day04.PartTwoFails` | aoc_2016/day_04/day_04.py:44-50 | part two fails only when no such room is reached without an error |
| `Aoc2016Day07.AbbaFromMeaning` | aoc_2016/day_07/day_07.py:9-16 | the scan of one chunk from index i finds an ABBA exactly when one starts at some index from i on |
| `Aoc2016Day07.SupportTlsMeaning` | aoc_2016/day_07/day_07.py:7-17 | `support_tls` holds exactly when some chunk contains xyyx with x different from y |
| `Aoc2016Day07.PartOne` | aoc_2016/day_07/day_07.py:20-24 | at most one count per address |
| `Aoc2016Day07.HypernetAbbaRulesOut` | aoc_2016/day_07/day_07.py:22 | an ABBA inside brackets rules an address out, whatever its supernet holds |
| `Aoc2016Day07.Bab` | aoc_2016/day_07/day_07.py:33 | the BAB of an ABA has three characters |
| `Aoc2016Day07.ContainsAt` | aoc_2016/day_07/day_07.py:34 | `bab in x` holds wherever the BAB occurs in x |
| `Aoc2016Day07.ContainsWitness` | aoc_2016/day_07/day_07.py:34 | `bab in x` holds only where the BAB occurs in x |
| `Aoc2016Day07.InSomeMeaning` | aoc_2016/day_07/day_07.py:34 | `any(bab in x for x in hypernet)` holds exactly when some hypernet chunk contains the BAB |
| `Aoc2016Day07.AbaFromMeaning` | aoc_2016/day_07/day_07.py:29-35 | the scan of one chunk from index i succeeds exactly when some ABA from i on has its BAB in a hypernet chunk |
| `Aoc2016Day07.SupportSslMeaning` | aoc_2016/day_07/day_07.py:27-36 | `support_ssl` holds exactly when some supernet chunk holds an ABA whose BAB occurs in some hypernet chunk |
| `Aoc2016Day07.NoHypernetNoSsl` | aoc_2016/day_07/day_07.py:34 | without hypernet chunks no address supports SSL |
| `Aoc2016Day07.PartTwo` | aoc_2016/day_07/day_07.py:39-40 | at most one count per address |
| `Aoc2016Day07.PartsAppend` | aoc_2016/day_07/day_07.py:20-40 | both counts over a concatenation are the sums of the counts over the halves |
| `Aoc2016Day07.CloseFrom` | aoc_2016/day_07/day_07.py:46 | the first ']' at or after i, with no ']' before it |
| `Aoc2016Day07.RunEnd` | aoc_2016/day_07/day_07.py:46 | the end of the run of non-bracket characters from i: a bracket or the end of the line |
| `Aoc2016Day07.PiecesInside` | aoc_2016/day_07/day_07.py:46-53 | a bracketed group is read as one hypernet chunk |
| `Aoc2016Day07.PiecesOutside` | aoc_2016/day_07/day_07.py:46-55 | a run of non-bracket text up to a '[' or the end is read as one supernet chunk |
| `Aoc2016Day07.PiecesRender` | aoc_2016/day_07/day_07.py:46-55 | parsing recovers the chunks a well-formed line was written from |
| `Aoc2016Day07.ParseRender` | aoc_2016/day_07/day_07.py:48-56 | a line written from well-formed chunks parses into its outside texts as supernet and its bracketed texts as hypernet, in order |
| `Aoc2016Day07.PiecesShape` | aoc_2016/day_07/day_07.py:46-55 | every chunk parsed is non-empty; supernet chunks hold no bracket and hypernet chunks no ']' |
| `Aoc2016Day08.CountLitMultiset` | aoc_2016/day_08/day_08.py:56 | `sum(row)` counts the lit pixels of the row |
| `Aoc2016Day08.PyRotateIsRotation` | aoc_2016/day_08/day_08.py:32 | `row[-v:] + row[:-v]` rotates right by v when 0 < v < len, and gives the row back when v is 0 or reaches the length |
| `Aoc2016Day08.PyRotateKeepsLit` | aoc_2016/day_08/day_08.py:32-42 | the slicing rotation keeps the length and the number of lit pixels |
| `Aoc2016Day08.Column` | aoc_2016/day_08/day_08.py:41 | the column read is pixel x of every row, top to bottom |
| `Aoc2016Day08.SetColumn` | aoc_2016/day_08/day_08.py:43-44 | writing a column back changes pixel x of every row and nothing else |
| `Aoc2016Day08.LightRect` | aoc_2016/day_08/day_08.py:20-23 | lighting a rectangle keeps the shape of the screen |
| `Aoc2016Day08.Apply` | aoc_2016/day_08/day_08.py:9-44 | an instruction keeps a 50 x 6 screen, and raises exactly for a non-empty rect wider or taller than the screen, or a row or column outside it |
| `Aoc2016Day08.RectLightsCorner` | aoc_2016/day_08/day_08.py:20-23 | rect lights exactly the top-left width x height pixels and leaves every other pixel as it was |
| `Aoc2016Day08.RotateRowShifts` | aoc_2016/day_08/day_08.py:31-32 | rotating a row moves pixel x to (x + value) mod 50 and changes no other row |
| `Aoc2016Day08.LitSetColumn` | aoc_2016/day_08/day_08.py:43-44 | writing a column changes the lit count by the difference between the old and the new column |
| `Aoc2016Day08.LitSetRow` | aoc_2016/day_08/day_08.py:32 | replacing a row changes the lit count by the difference between the old and the new row |
| `Aoc2016Day08.RotationKeepsLit` | aoc_2016/day_08/day_08.py:31-44 | both rotations keep the number of lit pixels |
| `Aoc2016Day08.Play` | aoc_2016/day_08/day_08.py:47-51 | playing instructions keeps a 50 x 6 screen |
| `Aoc2016Day08.RotationsKeepLit` | aoc_2016/day_08/day_08.py:47-51 | a sequence of rotations keeps the lit count |
| `Aoc2016Day08.Screen.constructor` | aoc_2016/day_08/day_08.py:48 | the screen starts blank, 50 x 6 |
| `Aoc2016Day08.Screen.ApplyRect` | aoc_2016/day_08/day_08.py:20-23 | the nested loops light the pixels as `Apply` does, and fail exactly where it raises |
| `Aoc2016Day08.Screen.ApplyRotateRow` | aoc_2016/day_08/day_08.py:31-32 | the row is replaced by its rotation, as `Apply` states |
| `Aoc2016Day08.Screen.ApplyRotateColumn` | aoc_2016/day_08/day_08.py:40-44 | the column is read, rotated and written back one row at a time, as `Apply` states |
| `Aoc2016Day08.Screen.WriteColumn` | aoc_2016/day_08/day_08.py:43-44 | the write-back loop replaces column x by the given column and leaves every other pixel as it was |
| `Aoc2016Day08.Screen.ApplyInstruction` | aoc_2016/day_08/day_08.py:11 | each instruction's `apply` changes the screen as `Apply` states |
| `Aoc2016Day08.PlayInstructions` | aoc_2016/day_08/day_08.py:47-51 | the screen after every instruction, from a blank one |
| `Aoc2016Day08.PartOne` | aoc_2016/day_08/day_08.py:54-56 | part one counts the lit pixels of the final screen, at most 300 |
| `Aoc2016Day08.LitBound` | aoc_2016/day_08/day_08.py:54-56 | a 50 x 6 screen has at most 300 lit pixels |
| `Aoc2016Day09.DigitEnd` | aoc_2016/day_09/day_09.py:3 | the end of the run of digits from i, as `\d+` matches it greedily |
| `Aoc2016Day09.MatchAt` | aoc_2016/day_09/day_09.py:3-13 | a marker `(AxB)` matched at p starts with '(' at p and ends with ')' at least five characters on |
| `Aoc2016Day09.FindFrom` | aoc_2016/day_09/day_09.py:8 | the first index of c from i on, or -1 when there is none |
| `Aoc2016Day09.Find` | aoc_2016/day_09/day_09.py:8 | `find("(")` is -1 exactly when there is no '(' and otherwise its first index |
| `Aoc2016Day09.LengthFromMarker` | aoc_2016/day_09/day_09.py:13-17 | a marker (AxB) adds A*B and moves past the marker and A data characters |
| `Aoc2016Day09.LengthFromPlain` | aoc_2016/day_09/day_09.py:18-20 | a character that does not start a marker adds 1 |
| `Aoc2016Day09.PartOne` | aoc_2016/day_09/day_09.py:6-21 | the loop computes the decompressed length as the marker rules define it |
| `Aoc2016Day09.PartOneStep` | aoc_2016/day_09/day_09.py:12-20 | one iteration moves forward and adds exactly what the version one length counts between the old and the new index |
| `Aoc2016Day09.Repeat` | aoc_2016/day_09/day_09.py:16 | a text repeated n times has n times its length |
| `Aoc2016Day09.DecompressMarker` | aoc_2016/day_09/day_09.py:13-17 | version one decompression repeats the A characters after the marker B times, then goes on after them |
| `Aoc2016Day09.DecompressPlain` | aoc_2016/day_09/day_09.py:18-20 | a character that does not start a marker is copied |
| `Aoc2016Day09.DecompressLength` | aoc_2016/day_09/day_09.py:6-21 | the length part one sums is the length of the decompressed text |
| `Aoc2016Day09.PlainPrefix` | aoc_2016/day_09/day_09.py:8-10 | the text before the first '(' adds its own length |
| `Aoc2016Day09.StartAtZero` | aoc_2016/day_09/day_09.py:8-10 | starting at the first '(' with its index added, or at -1 with -1 added, is starting at 0 |
| `Aoc2016Day09.PartOneIsLength` | aoc_2016/day_09/day_09.py:6-21 | when the text decompresses, part one is the length of the result |
| `Aoc2016Day09.PlainTextLength` | aoc_2016/day_09/day_09.py:8-21 | a text without '(' keeps its length, even though `find` returns -1 |
| `Aoc2016Day09.Segment` | aoc_2016/day_09/day_09.py:34 | the clamped segment after a marker never runs past the text |
| `Aoc2016Day09.Unfold2` | aoc_2016/day_09/day_09.py:25-28 | part two starts from the first '(' with its index added |
| `Aoc2016Day09.LengthFrom2Marker` | aoc_2016/day_09/day_09.py:31-37 | a marker adds B times the version two length of its segment and moves past it |
| `Aoc2016Day09.LengthFrom2Plain` | aoc_2016/day_09/day_09.py:38-40 | a character that does not start a marker adds 1 |
| `Aoc2016Day09.PartTwo` | aoc_2016/day_09/day_09.py:24-41 | the loop, recursing into each segment, computes the version two length |
| `Aoc2016Day09.PartTwoStep` | aoc_2016/day_09/day_09.py:31-40 | one iteration moves forward and adds exactly what the version two length counts between the old and the new index |
| `Aoc2016Day09.Decompress2Marker` | aoc_2016/day_09/day_09.py:31-37 | version two decompression repeats the decompressed segment B times, then goes on after it |
| `Aoc2016Day09.Decompress2Plain` | aoc_2016/day_09/day_09.py:38-40 | a character that does not start a marker is copied |
| `Aoc2016Day09.StartAtZero2` | aoc_2016/day_09/day_09.py:26-28 | starting at the first '(' with its index added is starting at 0 |
| `Aoc2016Day09.Decompress2Length` | aoc_2016/day_09/day_09.py:24-41 | the length part two sums is the length of the fully decompressed text |
| `Aoc2016Day09.PartTwoIsLength` | aoc_2016/day_09/day_09.py:24-41 | when the text decompresses, part two is the length of the result |
| `Aoc2016Day09.VersionsAgreeWithoutNesting` | aoc_2016/day_09/day_09.py:6-41 | without markers both parts give the length of the text |
| `Aoc2016Day10.TouchMeaning` | aoc_2016/day_10/day_10.py:39-40 | `bots[name]` on the defaultdict leaves every holder as it was and adds a fresh empty output holder when the name was missing |
| `Aoc2016Day10.InsertValue` | aoc_2016/day_10/day_10.py:37 | insertion adds one chip |
| `Aoc2016Day10.SortValues` | aoc_2016/day_10/day_10.py:35-37 | `sorted(values)` keeps the number of chips |
| `Aoc2016Day10.InsertValueChips` | aoc_2016/day_10/day_10.py:37 | insertion adds exactly the chip inserted |
| `Aoc2016Day10.InsertValueAscending` | aoc_2016/day_10/day_10.py:37 | inserting into ascending chips keeps them ascending |
| `Aoc2016Day10.SortValuesMeaning` | aoc_2016/day_10/day_10.py:35-37 | `sorted(values)` holds the same chips, in ascending order |
| `Aoc2016Day10.SortPair` | aoc_2016/day_10/day_10.py:37 | two chips sort into the lower, then the higher |
| `Aoc2016Day10.HandOverValues` | aoc_2016/day_10/day_10.py:39-42 | after the hand-over the low target has gained the low chip, the high target the high chip, and nothing else changed |
| `Aoc2016Day10.ProcessSends` | aoc_2016/day_10/day_10.py:37-42 | a bot with two chips sends the lower to its low target and the higher to its high target and keeps nothing, whichever names coincide |
| `Aoc2016Day10.ProcessQueues` | aoc_2016/day_10/day_10.py:43-46 | the queue keeps its entries and grows only by targets that are bots holding exactly two chips, and by every such target |
| `Aoc2016Day10.ChipsElsewhere` | aoc_2016/day_10/day_10.py:27 | a holder that is not in the dictionary does not count towards its chips |
| `Aoc2016Day10.ChipsAppend` | aoc_2016/day_10/day_10.py:41-42 | one chip appended to a holder is one chip more in all |
| `Aoc2016Day10.ChipsClear` | aoc_2016/day_10/day_10.py:38 | clearing a holder takes away exactly its chips |
| `Aoc2016Day10.TouchChips` | aoc_2016/day_10/day_10.py:39-40 | looking a name up adds no chips |
| `Aoc2016Day10.HandOverChips` | aoc_2016/day_10/day_10.py:39-42 | the hand-over adds exactly the two chips handed over |
| `Aoc2016Day10.ProcessConserves` | aoc_2016/day_10/day_10.py:37-42 | each transfer conserves the chips: what the bot loses its targets gain |
| `Aoc2016Day10.InitialQueueMeaning` | aoc_2016/day_10/day_10.py:26-31 | the starting queue holds exactly the bots (not outputs) with exactly two chips |
| `Aoc2016Day10.RunTurn` | aoc_2016/day_10/day_10.py:33-46 | a run with bots queued and fuel left is its first turn followed by the rest of the run |
| `Aoc2016Day10.TakeTurnFound` | aoc_2016/day_10/day_10.py:34-36 | a turn that reports a number reports the bot taken off the queue, whose sorted chips equal the target |
| `Aoc2016Day10.TakeTurnConserves` | aoc_2016/day_10/day_10.py:34-46 | a turn that goes on keeps the dictionary well formed and every chip |
| `Aoc2016Day10.RunFound` | aoc_2016/day_10/day_10.py:33-47 | a number is returned only for a non-empty target, and it is that of a bot whose sorted chips equal the target |
| `Aoc2016Day10.FoundTurn` | aoc_2016/day_10/day_10.py:34-46 | a turn either hands the run on to the machine it leaves, or stops, and a number reported then is that of the bot just taken off the queue, holding the target chips |
| `Aoc2016Day10.RunStops` | aoc_2016/day_10/day_10.py:33 | with an empty queue or no fuel left the run reports no bot |
| `Aoc2016Day10.NoTargetNeverFound` | aoc_2016/day_10/day_10.py:35-51 | without a target part one never returns a bot number |
| `Aoc2016Day10.Factory.constructor` | aoc_2016/day_10/day_10.py:25 | the factory holds the dictionary it is given |
| `Aoc2016Day10.Factory.Fetch` | aoc_2016/day_10/day_10.py:39-40 | `bots[name]` returns the holder and adds a fresh one when it is missing |
| `Aoc2016Day10.Factory.StartQueue` | aoc_2016/day_10/day_10.py:26-31 | the queue starts as the bots with two chips, in dictionary order |
| `Aoc2016Day10.Factory.ProcessBot` | aoc_2016/day_10/day_10.py:37-46 | the in-place hand-over and queueing of one bot, as `Process` states |
| `Aoc2016Day10.Factory.TakeBot` | aoc_2016/day_10/day_10.py:34-46 | one turn of the loop: the bot taken off the queue is either reported or processed |
| `Aoc2016Day10.Factory.RunBot` | aoc_2016/day_10/day_10.py:33-46 | one pass of the loop either ends the run with its answer and final dictionary, or leaves a state whose run on one less fuel is the same run |
| `Aoc2016Day10.Factory.PartOne` | aoc_2016/day_10/day_10.py:25-47 | the loop returns and leaves the dictionary as `Run` states |
| `Aoc2016Day10.Factory.PartTwo` | aoc_2016/day_10/day_10.py:50-52 | part two runs every transfer, then multiplies the first chips of outputs 0, 1 and 2, failing where an output is empty |
| `Assembunny.Set` | aoc_2016/day_12/day_12.py:52-54 | `registers[y] = v` leaves v in register y and every other register as it was |
| `Assembunny.Value` | aoc_2016/day_12/day_12.py:51-54 | an operand that names a register reads that register; a literal reads as itself |
| `Aoc2016Day12.Fetch` | aoc_2016/day_12/day_12.py:45-48 | `instructions[ip]` succeeds exactly for -len ≤ ip < len, indexing from the end for a negative ip, as Python does; otherwise the loop breaks |
| `Aoc2016Day12.Step` | aoc_2016/day_12/day_12.py:44-70 | one turn stops exactly when the fetch fails; otherwise cpy, inc and dec change only their target register and advance by one, and jnz jumps by y when its operand is not zero and advances by one when it is, changing no register |
| `Aoc2016Day12.Exec` | aoc_2016/day_12/day_12.py:43-70 | a run that reports having halted ends in a state where the next fetch fails |
| `Aoc2016Day12.ExecMoreFuel` | aoc_2016/day_12/day_12.py:43-70 | once the run halts, any larger bound on the steps gives the same result |
| `Aoc2016Day12.RegisterAAfterRun` | aoc_2016/day_12/day_12.py:74-76 | register a is reported exactly when the run halted within the bound |
| `Aoc2016Day12.ProgramState.constructor` | aoc_2016/day_12/day_12.py:31-41 | a fresh program state has all four registers at zero and the pointer at 0 |
| `Aoc2016Day12.ProgramState.Run` | aoc_2016/day_12/day_12.py:43-70 | the in-place loop ends in the state, and with the halting flag, that `Exec` gives |
| `Aoc2016Day12.PartOne` | aoc_2016/day_12/day_12.py:73-76 | part one reports register a after a run from all-zero registers |
| `Aoc2016Day12.PartTwo` | aoc_2016/day_12/day_12.py:79-83 | part two reports register a after a run with register c set to 1 first |
| `Aoc2016Day15.PositionAt` | aoc_2016/day_15/day_15.py:18-26 | the position a disc shows when the capsule reaches it is always one of its positions |
| `Aoc2016Day15.FirstAlignment` | aoc_2016/day_15/day_15.py:22-27 | the delay found is the least one from the start that lets the capsule through every disc; none is found only when no delay below 1 000 000 000 works |
| `Aoc2016Day15.PositionStep` | aoc_2016/day_15/day_15.py:25-26 | one more second turns a disc by one position, wrapping round |
| `Aoc2016Day15.Product` | aoc_2016/day_15/day_15.py:22 | the product of the disc sizes, the period of the whole machine, is at least 1 |
| `Aoc2016Day15.ProductFactor` | aoc_2016/day_15/day_15.py:26 | every disc size divides that period |
| `Aoc2016Day15.PositionModPeriod` | aoc_2016/day_15/day_15.py:26 | a disc whose size divides p shows the same position after t and after t mod p seconds |
| `Aoc2016Day15.AlignedModProduct` | aoc_2016/day_15/day_15.py:23 | whether a delay works depends only on the delay modulo the period |
| `Aoc2016Day15.NoneMeansNever` | aoc_2016/day_15/day_15.py:27 | when the period is within the attempt limit, raising "No solution found" means no delay at all works |
| `Aoc2016Day15.WithExtraDisc` | aoc_2016/day_15/day_15.py:54 | part two keeps every disc and adds one of 11 positions at position 0 numbered after them |
| `Aoc2016Day15.PartOneBeforePartTwo` | aoc_2016/day_15/day_15.py:48-56 | when part two finds a delay, part one finds one too, and no later |
| `Aoc2016Day15.Disc.constructor` | aoc_2016/day_15/day_15.py:10-14 | a disc holds the number, size and position it is given |
| `Aoc2016Day15.States` | aoc_2016/day_15/day_15.py:10-14 | the values of the disc objects, one per disc, in order |
| `Aoc2016Day15.SolveDay` | aoc_2016/day_15/day_15.py:17-27 | the in-place loops return the least working delay of the discs as they were (`Solve`), and leave each disc at its position for that delay |
| `Aoc2016Day15.MoveByNumbers` | aoc_2016/day_15/day_15.py:18-20 | the first loop succeeds exactly when every disc has positions, and then leaves each disc where the capsule dropped at time 0 would meet it |
| `Aoc2016Day15.TryDelays` | aoc_2016/day_15/day_15.py:22-27 | the delay loop returns the least delay below the limit at which every disc shows 0, and leaves the discs at that delay's positions |
| `Aoc2016Day15.AtZeroIffAligned` | aoc_2016/day_15/day_15.py:23 | the `all(...)` test holds exactly when the delay lets the capsule through |
| `Aoc2016Day15.FirstAlignmentSkips` | aoc_2016/day_15/day_15.py:23-26 | a delay that fails does not change the least working delay still to come |
| `Aoc2016Day15.TurnAll` | aoc_2016/day_15/day_15.py:25-26 | the inner loop turns every disc one second on |
| `Aoc2016Day18.TrapIffEdgesDiffer` | aoc_2016/day_18/day_18.py:23-28 | the four trap patterns are exactly the windows whose left and right tiles differ; the centre tile never matters |
| `Aoc2016Day18.Next` | aoc_2016/day_18/day_18.py:33-37 | the row below has as many tiles as the row above |
| `Aoc2016Day18.NextAt` | aoc_2016/day_18/day_18.py:30-37 | tile i of the next row comes from the window of the padded row around i, with safe tiles beyond both ends |
| `Aoc2016Day18.Generation` | aoc_2016/day_18/day_18.py:32 | every generation has the width of the first row |
| `Aoc2016Day18.SafeCountTo` | aoc_2016/day_18/day_18.py:29 | the safe tiles among the first n are at most n |
| `Aoc2016Day18.SafeCount` | aoc_2016/day_18/day_18.py:29 | a row holds at most as many safe tiles as tiles |
| `Aoc2016Day18.SafeTilesBound` | aoc_2016/day_18/day_18.py:29-42 | n rows hold at most n times the row width in safe tiles |
| `Aoc2016Day18.AllSafeStays` | aoc_2016/day_18/day_18.py:33-37 | a row without traps stays without traps |
| `Aoc2016Day18.SafeCountAllSafe` | aoc_2016/day_18/day_18.py:29 | in a row without traps every tile counts as safe |
| `Aoc2016Day18.AllSafeCountsEverything` | aoc_2016/day_18/day_18.py:29-42 | without traps in the first row the count is exactly n times the row width |
| `Aoc2016Day18.GetSafeTileNbr` | aoc_2016/day_18/day_18.py:22-42 | the in-place buffers count the safe tiles of the first max(1, row_nbr) rows |
| `Aoc2016Day18.PaddedBuffer` | aoc_2016/day_18/day_18.py:30 | the buffer is the row with a safe tile added at each end |
| `Aoc2016Day18.NextGeneration` | aoc_2016/day_18/day_18.py:32-41 | one pass of the outer loop leaves the next generation, padded, in the old buffer and counts its safe tiles |
| `Aoc2016Day18.NextRow` | aoc_2016/day_18/day_18.py:33-38 | the window pass writes the next row inside the padding of the new buffer and counts its safe tiles |
| `Aoc2016Day18.CopyRow` | aoc_2016/day_18/day_18.py:40-41 | the copy leaves the old buffer holding the new row |
| `Aoc2016Day20.MinStartIndex` | aoc_2016/day_20/day_20.py:11 | `min` with a key picks the first range whose start is least |
| `Aoc2016Day20.RemoveAll` | aoc_2016/day_20/day_20.py:12 | the filter keeps only ranges of the list, drops every copy of the value, and is shorter when the value was there |
| `Aoc2016Day20.RemoveAllCovered` | aoc_2016/day_20/day_20.py:12 | dropping every copy of a range loses exactly the addresses that only it blocked |
| `Aoc2016Day20.RemoveNone` | aoc_2016/day_20/day_20.py:12 | filtering out a range that is not there changes nothing |
| `Aoc2016Day20.CoveredCons` | aoc_2016/day_20/day_20.py:10-25 | an address is blocked by a list exactly when the head or the tail blocks it |
| `Aoc2016Day20.CoveredRemoveAt` | aoc_2016/day_20/day_20.py:21-24 | removing the range at idx loses exactly what only it blocked |
| `Aoc2016Day20.GetNextChunk` | aoc_2016/day_20/day_20.py:10-25 | the chunk starts at the least start and reaches at least that range's end; every range left starts more than one past the chunk; the chunk and the ranges left block exactly what the list blocked |
| `Aoc2016Day20.GetMergedBlacklist` | aoc_2016/day_20/day_20.py:28-34 | the merged chunks are separated by gaps, start with the chunk of the least start, are empty only for an empty list, and block exactly the same addresses |
| `Aoc2016Day20.CoveredAppend` | aoc_2016/day_20/day_20.py:33 | appending a chunk adds exactly the addresses it blocks |
| `Aoc2016Day20.SeparatedAfter` | aoc_2016/day_20/day_20.py:28-34 | every later chunk starts more than one past the end of the first |
| `Aoc2016Day20.PartOne` | aoc_2016/day_20/day_20.py:37-38 | there is an answer exactly when the list is not empty, and it lies past the end of the range with the least start; on well-formed ranges the answer, one past the first chunk, is allowed and every address from the least start up to it is blocked |
| `Aoc2016Day20.PartOneMissesLowAddresses` | aoc_2016/day_20/day_20.py:37-38 | with the single range 5-8 part one answers 9 although 0 is the lowest allowed address |
| `Aoc2016Day20.LowestAllowed` | aoc_2016/day_20/day_20.py:37-38 | the corrected part one returns the lowest address no range blocks |
| `Aoc2016Day20.CountWhitelist` | aoc_2016/day_20/day_20.py:43-49 | the loop sums the gaps plus the tail up to 4294967295, which equals the span from the first start to 4294967295 minus the blocked addresses |
| `Aoc2016Day20.AllowedPlusBlocked` | aoc_2016/day_20/day_20.py:41-49 | every address of a window is either allowed or blocked |
| `Aoc2016Day20.BlockedInSame` | aoc_2016/day_20/day_20.py:28-34 | the merged chunks, blocking the same addresses as the blacklist, block as many in any window |
| `Aoc2016Day20.ChunkInOverlap` | aoc_2016/day_20/day_20.py:44-49 | one chunk blocks, in a window, exactly the addresses where the two overlap |
| `Aoc2016Day20.BlockedInAppend` | aoc_2016/day_20/day_20.py:44-49 | a chunk above all earlier ones adds its own addresses to those blocked in a window |
| `Aoc2016Day20.SeparatedOrder` | aoc_2016/day_20/day_20.py:28-34 | merged chunks are in ascending order with a gap between any two of them |
| `Aoc2016Day20.BlockedChunks` | aoc_2016/day_20/day_20.py:44-49 | separated chunks inside a window block, in it, the sum of their lengths |
| `Aoc2016Day20.PartTwoCounts` | aoc_2016/day_20/day_20.py:41-49 | on well-formed 32-bit ranges, the sum part two computes over the merged chunks is the number of addresses from the least start up to 4294967295 that no range blocks |
| `Aoc2016Day20.PartTwo` | aoc_2016/day_20/day_20.py:41-49 | part two answers exactly when the list is not empty; on well-formed ranges ending at most at 4294967295 the answer is the number of addresses from the least start up to 4294967295 that no range blocks |
| `Aoc2016Day21.IndexOf` | aoc_2016/day_21/day_21.py:39-40 | `index` finds the first position holding the letter, and fails exactly when the letter is absent |
| `Aoc2016Day21.IndexOfDistinct` | aoc_2016/day_21/day_21.py:39-40 | on distinct letters `index` finds the position the letter was read from |
| `Aoc2016Day21.Swap` | aoc_2016/day_21/day_21.py:27 | a swap exchanges the two cells, keeps every other cell and the letters |
| `Aoc2016Day21.SwapPositions` | aoc_2016/day_21/day_21.py:26-27 | swap position succeeds exactly when both positions are in range, and then swaps them |
| `Aoc2016Day21.SwapLetters` | aoc_2016/day_21/day_21.py:38-41 | swap letter succeeds exactly when both letters are present, and then swaps their first occurrences |
| `Aoc2016Day21.BasedOnSteps` | aoc_2016/day_21/day_21.py:72-75 | a letter at index i causes i + 1 steps of rotation, and one more from index 4 on |
| `Aoc2016Day21.RotateBasedOnLetter` | aoc_2016/day_21/day_21.py:71-76 | the rotation succeeds exactly when the letter is present, rotates right by those steps and keeps the letters |
| `Aoc2016Day21.Reversed` | aoc_2016/day_21/day_21.py:95-99 | the reversed slice has each letter mirrored and the same letters |
| `Aoc2016Day21.ReverseRange` | aoc_2016/day_21/day_21.py:94-99 | reverse fails exactly when y is past the end and x ≤ y; cell k inside x..y receives the letter at x + y - k, the rest stay, the letters are kept |
| `Aoc2016Day21.ReverseRangeSplit` | aoc_2016/day_21/day_21.py:94-99 | the mirrored range holds the same letters as before |
| `Aoc2016Day21.RemoveInsert` | aoc_2016/day_21/day_21.py:111-113 | `remove` then `insert` keeps the length and the letters |
| `Aoc2016Day21.RemoveInsertDistinct` | aoc_2016/day_21/day_21.py:110-113 | on distinct letters the moved letter lands at y and the others keep their order |
| `Aoc2016Day21.MovePosition` | aoc_2016/day_21/day_21.py:110-113 | move fails exactly when x is out of range, and otherwise moves the letter at x |
| `Aoc2016Day21.Opposite` | aoc_2016/day_21/day_21.py:59-64 | the reverse of a rotation turns the other way |
| `Aoc2016Day21.Rotate` | aoc_2016/day_21/day_21.py:52-57 | rotating keeps the length and the letters |
| `Aoc2016Day21.RotateOpposite` | aoc_2016/day_21/day_21.py:52-64 | rotating one way then the other by the same steps restores the password |
| `Aoc2016Day21.MoveBack` | aoc_2016/day_21/day_21.py:115-118 | the reverse move fails exactly when y is out of range, and otherwise moves the letter at y to x |
| `Aoc2016Day21.RotateBasedOnBack` | aoc_2016/day_21/day_21.py:78-86 | the reverse rotation, when it finds one, returns a password that the forward rotation maps back to the input |
| `Aoc2016Day21.Apply` | aoc_2016/day_21/day_21.py:14-118 | every `process` that does not raise keeps the length and the letters |
| `Aoc2016Day21.FindBasedOnInverse` | aoc_2016/day_21/day_21.py:79-86 | the search below len + 5 returns only a left rotation that the forward rotation maps back to the input |
| `Aoc2016Day21.ApplyReverse` | aoc_2016/day_21/day_21.py:17-118 | every `process_reverse` that does not raise keeps the length and the letters |
| `Aoc2016Day21.SwapPositionsSelfInverse` | aoc_2016/day_21/day_21.py:26-30 | swapping two positions twice restores the password |
| `Aoc2016Day21.SwapLettersSelfInverse` | aoc_2016/day_21/day_21.py:38-44 | on distinct letters swapping two letters twice restores the password |
| `Aoc2016Day21.ReverseRangeTwiceAt` | aoc_2016/day_21/day_21.py:94-102 | reversing a range twice restores each cell |
| `Aoc2016Day21.ReverseRangeSelfInverse` | aoc_2016/day_21/day_21.py:94-102 | reversing a range twice restores the password |
| `Aoc2016Day21.SelfInverse` | aoc_2016/day_21/day_21.py:26-102 | swap position, swap letter (on distinct letters) and reverse are their own reverse and undo themselves |
| `Aoc2016Day21.MoveUndone` | aoc_2016/day_21/day_21.py:110-118 | on distinct letters with both positions in range, the reverse move undoes the move |
| `Aoc2016Day21.ReverseIsPreimage` | aoc_2016/day_21/day_21.py:17-118 | on distinct letters every `process_reverse` that succeeds returns a password that `process` maps back to its input |
| `Aoc2016Day21.Scramble` | aoc_2016/day_21/day_21.py:121-125 | a scramble that does not raise keeps the length and the letters |
| `Aoc2016Day21.Unscramble` | aoc_2016/day_21/day_21.py:128-132 | an unscramble that does not raise keeps the length and the letters |
| `Aoc2016Day21.ScrambleAppend` | aoc_2016/day_21/day_21.py:123-124 | scrambling with one more operation applies it to the previous result |
| `Aoc2016Day21.UnscrambleLast` | aoc_2016/day_21/day_21.py:130-131 | the first reverse step of an unscramble returns a preimage, with distinct letters, from which the rest of the unscramble continues |
| `Aoc2016Day21.UnscrambleIsPreimage` | aoc_2016/day_21/day_21.py:121-132 | part two's answer scrambles back to the target, given distinct letters and moves in range |
| `Aoc2016Day21.PartOne` | aoc_2016/day_21/day_21.py:121-125 | the in-place loop leaves the scramble of "abcdefgh" |
| `Aoc2016Day21.UnscramblePrefix` | aoc_2016/day_21/day_21.py:130-131 | undoing the first i operations is undoing operation i, then the ones before it |
| `Aoc2016Day21.PartTwo` | aoc_2016/day_21/day_21.py:128-132 | the in-place loop leaves the unscramble of "fbgdceah" |
| `Aoc2016Day23.Toggled` | aoc_2016/day_23/day_23.py:144-154 | inc becomes dec; dec and tgl become inc; cpy becomes jnz and jnz becomes cpy with the same operands |
| `Aoc2016Day23.ToggleTwice` | aoc_2016/day_23/day_23.py:144-154 | toggling twice restores every instruction except tgl, which ends as dec |
| `Aoc2016Day23.MulPattern` | aoc_2016/day_23/day_23.py:52-113 | a match lies wholly inside the program and is the six-instruction multiplication loop: cpy, an inc and a dec in either order, jnz by -2, dec, jnz by -5 |
| `Aoc2016Day23.ClearOperand` | aoc_2016/day_23/day_23.py:118 | clearing a register operand zeroes that register; a literal operand leaves the registers alone |
| `Aoc2016Day23.ApplyMul` | aoc_2016/day_23/day_23.py:114-119 | the multiplication adds factor a times factor b to the product register (when it is not one of the cleared ones) and zeroes the buffers and factor b, changing no other register |
| `Aoc2016Day23.Execute` | aoc_2016/day_23/day_23.py:123-160 | each op_* changes what its case says: cpy into a literal and inc/dec only advance, jnz jumps when its operand is not zero, tgl toggles the target only when it is in range; only tgl changes the program |
| `Aoc2016Day23.NextConfig` | aoc_2016/day_23/day_23.py:162-184 | a step halts exactly when ip is outside the program; a recognised multiplication runs in one step and skips six instructions; otherwise one instruction runs |
| `Aoc2016Day23.Exec` | aoc_2016/day_23/day_23.py:186-188 | a run that reports having halted ends where the next step halts, and the program keeps its length |
| `Aoc2016Day23.ExecMoreFuel` | aoc_2016/day_23/day_23.py:186-188 | once the run halts, any larger bound on the steps gives the same result |
| `Aoc2016Day23.ProgramState.constructor` | aoc_2016/day_23/day_23.py:39-44 | a fresh state has zero registers and ip 0 |
| `Aoc2016Day23.ProgramState.DetectMul` | aoc_2016/day_23/day_23.py:52-121 | reports a match exactly when the pattern is there, and then applies the multiplication and advances by six; otherwise changes nothing |
| `Aoc2016Day23.ProgramState.ToggleAt` | aoc_2016/day_23/day_23.py:144-154 | only the instruction at idx changes, to its toggled form |
| `Aoc2016Day23.ProgramState.Step` | aoc_2016/day_23/day_23.py:162-184 | the in-place step reports running and reaches the state exactly as `NextConfig` states, and changes nothing when it halts |
| `Aoc2016Day23.ProgramState.Run` | aoc_2016/day_23/day_23.py:186-188 | the in-place loop ends in the state `Exec` gives |
| `Aoc2016Day23.RegisterAAfterRun` | aoc_2016/day_23/day_23.py:191-202 | register a is reported exactly when the run halted within the bound |
| `Aoc2016Day23.RunWithA` | aoc_2016/day_23/day_23.py:191-195 | a run on a copy of the program, with register a set first, reports register a |
| `Aoc2016Day23.PartOne` | aoc_2016/day_23/day_23.py:191-195 | part one runs with a = 7 |
| `Aoc2016Day23.PartTwo` | aoc_2016/day_23/day_23.py:198-202 | part two runs with a = 12 |
| `Aoc2016Day25.NextState` | aoc_2016/day_25/day_25.py:53-101 | a step halts exactly when ip is outside the program or an out sends the value it sent last; out records its value; the other instructions act as their op_* methods say and leave the last output alone |
| `Aoc2016Day25.IterAdd` | aoc_2016/day_25/day_25.py:112-119 | m steps and then n steps are m + n steps |
| `Aoc2016Day25.IterPrefix` | aoc_2016/day_25/day_25.py:112-119 | a machine still running after n steps was running after every fewer steps |
| `Aoc2016Day25.RunFromMeaning` | aoc_2016/day_25/day_25.py:112-119 | from any point of the trace, with any key, a report of a repeat means two states of the trace share their key, and a report of a stop means a step returned False |
| `Aoc2016Day25.RunMeaning` | aoc_2016/day_25/day_25.py:112-119 | `run` returns True only when two states along the trace share a signature, and False only when the machine stops |
| `Aoc2016Day25.SignatureMissesLastOutput` | aoc_2016/day_25/day_25.py:103-119 | for `out a; jnz 1 -1` from a = 0, `run` reports a clock signal although the machine prints 0 twice and stops |
| `Aoc2016Day25.RecurrenceNeverStops` | aoc_2016/day_25/day_25.py:78-119 | a state that recurs makes the machine periodic, so it never stops |
| `Aoc2016Day25.ClockRunSound` | aoc_2016/day_25/day_25.py:103-119 | with the last output in the signature, a reported clock signal really runs forever |
| `Aoc2016Day25.ProgramState.constructor` | aoc_2016/day_25/day_25.py:39-45 | a fresh state has zero registers, ip 0 and last output 1 |
| `Aoc2016Day25.ProgramState.Step` | aoc_2016/day_25/day_25.py:78-101 | the in-place step runs on exactly when `NextState` does, and then reaches its state |
| `Aoc2016Day25.ProgramState.Run` | aoc_2016/day_25/day_25.py:112-119 | the in-place loop returns what `RunOutcome` states |
| `Aoc2016Day25.PartOne` | aoc_2016/day_25/day_25.py:122-128 | the answer is the least a below 1 000 000 whose run reports a clock signal; none is returned only when no such a exists |
| `Aoc2018Day03.IntersectsSymmetric` | aoc_2018/day_03/day_03.py:13-19 | `intersects` does not depend on the order of the two claims |
| `Aoc2018Day03.IntersectsMeaning` | aoc_2018/day_03/day_03.py:13-19 | two claims covering a common square inch intersect, and two non-empty claims that intersect share a square inch |
| `Aoc2018Day03.MaxY` | aoc_2018/day_03/day_03.py:23 | the number of rows reaches the bottom edge of every claim and is the bottom edge of one of them |
| `Aoc2018Day03.MaxX` | aoc_2018/day_03/day_03.py:24 | the number of columns reaches the right edge of every claim and is the right edge of one of them |
| `Aoc2018Day03.CoverageOutsideGrid` | aoc_2018/day_03/day_03.py:23-25 | no square inch outside the grid is covered by any claim, so the grid misses nothing |
| `Aoc2018Day03.AddClaim` | aoc_2018/day_03/day_03.py:27-29 | the inner loops add one to every square inch the claim covers and to no other |
| `Aoc2018Day03.AddClaims` | aoc_2018/day_03/day_03.py:25-29 | after the first loop each cell holds how many claims cover it |
| `Aoc2018Day03.CountRow` | aoc_2018/day_03/day_03.py:32 | the row sum counts the cells of the row covered twice or more |
| `Aoc2018Day03.PartOne` | aoc_2018/day_03/day_03.py:22-33 | part one counts the square inches of the grid covered by two or more claims; with no claims `max` raises, here None |
| `Aoc2018Day03.PartTwo` | aoc_2018/day_03/day_03.py:36-40 | part two returns the id of the first claim that intersects no claim with another id, and raises (None) exactly when every claim intersects another |
| `Aoc2018Day03.IsolatedCoveredOnce` | aoc_2018/day_03/day_03.py:22-40 | with distinct ids every square inch of part two's claim is covered once, so part one counts none of it |
| `Aoc2018Day03.CoveredOnlyBy` | aoc_2018/day_03/day_03.py:26-29 | among the first claims, the square inch of an isolated claim is covered once if that claim is among them and otherwise not at all |
| `Aoc2018Day05.PartOne` | aoc_2018/day_05/day_05.py:4-12 | the stack loop returns the length of the polymer's reduction |
| `Aoc2018Day05.ReduceIsReduced` | aoc_2018/day_05/day_05.py:7-11 | the stack never holds two neighbours whose codes differ by 32 |
| `Aoc2018Day05.ReduceLength` | aoc_2018/day_05/day_05.py:7-11 | units disappear in pairs: the reduction is no longer than the polymer and differs in length by an even number |
| `Aoc2018Day05.ReducedIsFixed` | aoc_2018/day_05/day_05.py:7-11 | a polymer without reacting neighbours comes out unchanged |
| `Aoc2018Day05.ReduceIdempotent` | aoc_2018/day_05/day_05.py:4-12 | reducing a reduced polymer changes nothing |
| `Aoc2018Day05.Trim` | aoc_2018/day_05/day_05.py:18 | the filter keeps exactly the units that are neither the letter nor its lower case, as elements of the polymer |
| `Aoc2018Day05.ShortestIsLowerBound` | aoc_2018/day_05/day_05.py:16-20 | the running minimum is no longer than any letter tried so far |
| `Aoc2018Day05.ShortestIsAttained` | aoc_2018/day_05/day_05.py:16-20 | the running minimum is the length for one of the letters tried |
| `Aoc2018Day05.PartTwo` | aoc_2018/day_05/day_05.py:15-21 | the loop returns the running minimum over the letters A to Z |
| `Aoc2018Day05.PartTwoIsBest` | aoc_2018/day_05/day_05.py:15-21 | part two's answer is the reduced length for some letter, and removing any other letter does no better |
| `Aoc2018Day07.GraphMeaning` | aoc_2018/day_07/day_07.py:56-69 | every step named by an instruction has a node and no other does; a step depends on exactly the steps instructions put before it |
| `Aoc2018Day07.ParseInput` | aoc_2018/day_07/day_07.py:60-68 | the parsing loop over the instructions builds that graph |
| `Aoc2018Day07.Least` | aoc_2018/day_07/day_07.py:14 | the alphabetically first name of a non-empty set belongs to it and precedes all others |
| `Aoc2018Day07.SortChars` | aoc_2018/day_07/day_07.py:13-14 | `sorted(nodes.keys())` lists each name once, in increasing order |
| `Aoc2018Day07.FirstReady` | aoc_2018/day_07/day_07.py:17-19 | the `for` loop stops at the first candidate whose dependencies are all stacked; without one, no candidate is ready |
| `Aoc2018Day07.RemoveAt` | aoc_2018/day_07/day_07.py:21 | `candidates.remove` drops the chosen candidate and keeps the others in order |
| `Aoc2018Day07.FindReady` | aoc_2018/day_07/day_07.py:17-22 | the inner loop finds the first ready candidate |
| `Aoc2018Day07.PartOne` | aoc_2018/day_07/day_07.py:12-24 | the while loop stacks the steps as `Order` states, from the sorted keys; None where the source would loop forever |
| `Aoc2018Day07.OrderPermutes` | aoc_2018/day_07/day_07.py:16-22 | the stack keeps what was stacked and adds each candidate exactly once |
| `Aoc2018Day07.OrderRespects` | aoc_2018/day_07/day_07.py:19-20 | a step is stacked only after all its dependencies |
| `Aoc2018Day07.LaterReadyIsLarger` | aoc_2018/day_07/day_07.py:17-22 | a ready candidate left behind by the one taken comes after it alphabetically |
| `Aoc2018Day07.TakesLeastFirst` | aoc_2018/day_07/day_07.py:16-22 | the step stacked first precedes alphabetically every later step that was ready with it |
| `Aoc2018Day07.OrderTakesLeast` | aoc_2018/day_07/day_07.py:16-22 | each step stacked is the alphabetically first of the steps left that are ready at its turn |
| `Aoc2018Day07.SomeReady` | aoc_2018/day_07/day_07.py:17-22 | when some order of all the steps respects the dependencies, some candidate is ready |
| `Aoc2018Day07.OrderSucceeds` | aoc_2018/day_07/day_07.py:16-22 | when some order of the steps respects the dependencies, the loop never gets stuck |
| `Aoc2018Day07.PartOneMeaning` | aoc_2018/day_07/day_07.py:12-24 | part one's answer holds every step once, each after its dependencies and each the alphabetically first ready one; it always comes out when the dependencies admit an order |
| `Aoc2018Day07.DurationExamples` | aoc_2018/day_07/day_07.py:29 | step A takes 61 seconds, C 63 and Z 86 |
| `Aoc2018Day07.Dedup` | aoc_2018/day_07/day_07.py:29 | the counters are keyed by each step of the order once |
| `Aoc2018Day07.WorkOne` | aoc_2018/day_07/day_07.py:34-41 | one worker's turn keeps the counters' keys, the number of workers, and every held step counted |
| `Aoc2018Day07.WorkPhase` | aoc_2018/day_07/day_07.py:34-41 | the work loop keeps the same |
| `Aoc2018Day07.FirstFree` | aoc_2018/day_07/day_07.py:48-51 | the worker chosen is the first idle one, and none is chosen exactly when every worker is busy or one holds the step already |
| `Aoc2018Day07.AssignOne` | aoc_2018/day_07/day_07.py:43-51 | assigning one step changes only the workers; `nodes[key]` raises (None) for a step without a node |
| `Aoc2018Day07.AssignPhase` | aoc_2018/day_07/day_07.py:43-51 | the assignment loop changes only the workers |
| `Aoc2018Day07.AssignPhaseFails` | aoc_2018/day_07/day_07.py:46 | once a lookup has raised, the rest of the loop raises too |
| `Aoc2018Day07.RunTick` | aoc_2018/day_07/day_07.py:32-51 | a pending second is the work loop and the assignment loop followed by the rest of the run |
| `Aoc2018Day07.Work` | aoc_2018/day_07/day_07.py:34-41 | the in-place work loop computes `WorkPhase` |
| `Aoc2018Day07.FindFree` | aoc_2018/day_07/day_07.py:48-51 | the innermost loop computes `FirstFree` |
| `Aoc2018Day07.Assign` | aoc_2018/day_07/day_07.py:43-51 | the in-place assignment loop computes `AssignPhase` |
| `Aoc2018Day07.PartTwo` | aoc_2018/day_07/day_07.py:27-53 | the while loop returns the time `Run` states, from elapsed = -1, the counters of the order and five idle workers |
| `Aoc2018Day07.StartInv` | aoc_2018/day_07/day_07.py:28-31 | the starting floor keeps the invariant and has a counter for each step of the order |
| `Aoc2018Day07.HeldOnce` | aoc_2018/day_07/day_07.py:49 | no worker holds the step a later worker holds |
| `Aoc2018Day07.WorkPhaseMeaning` | aoc_2018/day_07/day_07.py:34-41 | the work loop counts each held counter above zero down once, frees each worker whose counter is zero and completes its step, and touches nothing else |
| `Aoc2018Day07.AssignPhaseKeeps` | aoc_2018/day_07/day_07.py:43-51 | busy workers keep their steps, and a worker that gets one gets a step not done, held by no other worker, whose dependencies are all completed |
| `Aoc2018Day07.WorkPhaseKeeps` | aoc_2018/day_07/day_07.py:34-41 | the work loop keeps the invariant and only adds completed steps |
| `Aoc2018Day07.TickKeeps` | aoc_2018/day_07/day_07.py:32-51 | a second keeps the invariant, the counters' keys, and only adds completed steps |
| `Aoc2018Day07.TickCounts` | aoc_2018/day_07/day_07.py:34-41 | a second counts every busy counter above zero down once and leaves every other counter alone |
| `Aoc2018Day07.RunKeeps` | aoc_2018/day_07/day_07.py:32-51 | the whole loop keeps the invariant |
| `Aoc2018Day07.RunEnds` | aoc_2018/day_07/day_07.py:32 | the loop reports a time only once no counter is above zero |
| `Aoc2018Day07.PartTwoMeaning` | aoc_2018/day_07/day_07.py:27-53 | when part two reports a time, every step of the order with a positive duration is completed, and so are its dependencies |
| `Aoc2018Day08.ParseNode` | aoc_2018/day_08/day_08.py:13-28 | a parsed node consumes at least its two-number header and no more than the list holds; reading past the end raises (None) |
| `Aoc2018Day08.ParseChildren` | aoc_2018/day_08/day_08.py:19-22 | the children loop only moves forward, within the list |
| `Aoc2018Day08.GetNextNode` | aoc_2018/day_08/day_08.py:13-28 | the method, with its loops, computes `ParseNode` |
| `Aoc2018Day08.ReadChildren` | aoc_2018/day_08/day_08.py:19-22 | the children loop, each child parsed from the rest of the list, computes `ParseChildren` |
| `Aoc2018Day08.ParseEncode` | aoc_2018/day_08/day_08.py:13-28 | parsing the encoding of a well-formed node, whatever follows it, gives the node back and consumes exactly its encoding |
| `Aoc2018Day08.ParseEncodeAll` | aoc_2018/day_08/day_08.py:19-22 | the children loop parses back the encodings of well-formed children |
| `Aoc2018Day08.ParseChildrenStep` | aoc_2018/day_08/day_08.py:20-22 | one iteration of the children loop parses one child and advances by its size |
| `Aoc2018Day08.ParsedIsEncoding` | aoc_2018/day_08/day_08.py:13-28 | what a successful parse consumed is the encoding of the node it returns |
| `Aoc2018Day08.ParsedChildrenAreEncodings` | aoc_2018/day_08/day_08.py:19-22 | what the children loop consumed is the encoding of the children it returns |
| `Aoc2018Day08.GetAllNodes` | aoc_2018/day_08/day_08.py:31-38 | the loop over consecutive trees computes `ParseAll` |
| `Aoc2018Day08.ParseAllStep` | aoc_2018/day_08/day_08.py:34-37 | one iteration parses one tree and advances by its size |
| `Aoc2018Day08.ParseAllEncodings` | aoc_2018/day_08/day_08.py:31-38 | concatenated encodings of well-formed trees parse back to the trees |
| `Aoc2018Day08.MetadataSumCoversSubtree` | aoc_2018/day_08/day_08.py:41-44 | the metadata sum of a node is the sum of every metadata entry of its subtree |
| `Aoc2018Day08.MetadataSumAllCovers` | aoc_2018/day_08/day_08.py:49 | the sum over the trees is the sum of all their metadata entries |
| `Aoc2018Day08.PartOne` | aoc_2018/day_08/day_08.py:47-49 | part one answers exactly when parsing succeeds, and sums the metadata of the trees |
| `Aoc2018Day08.RefsOutOfRange` | aoc_2018/day_08/day_08.py:56-58 | entries that name no child add nothing, the IndexError being suppressed |
| `Aoc2018Day08.RefsInRange` | aoc_2018/day_08/day_08.py:56-58 | entries 1 to the number of children name the children in order |
| `Aoc2018Day08.ZeroRefIsLastChild` | aoc_2018/day_08/day_08.py:58 | an entry 0 reads `children[-1]`, the last child |
| `Aoc2018Day08.PartTwo` | aoc_2018/day_08/day_08.py:62-64 | part two answers exactly when parsing succeeds, and sums the values of the trees |
| `Aoc2018Day09.Play` | aoc_2018/day_09/day_09.py:11-18 | one turn passes to a valid player and grows the circle by one marble, except at a multiple of 23, where it shrinks by one |
| `Aoc2018Day09.CircleSizeStep` | aoc_2018/day_09/day_09.py:10-17 | the circle size after marble m is that after m - 1, plus one or, at a multiple of 23, minus one, and never below one |
| `Aoc2018Day09.DistinctAt` | aoc_2018/day_09/day_09.py:8-17 | two different places of a circle of distinct marbles hold different marbles |
| `Aoc2018Day09.PlayAll` | aoc_2018/day_09/day_09.py:8-18 | after marble m the circle holds 1 + m - 2·(m div 23) marbles |
| `Aoc2018Day09.PlayAllInvariant` | aoc_2018/day_09/day_09.py:10-18 | every game reached has distinct marbles, all at most the last one played |
| `Aoc2018Day09.PlayKeepsSound` | aoc_2018/day_09/day_09.py:11-17 | one turn keeps the marbles distinct and bounded |
| `Aoc2018Day09.RotatedIn` | aoc_2018/day_09/day_09.py:12-16 | a rotated deque holds at each place a marble of the circle |
| `Aoc2018Day09.PlaceKeepsDistinct` | aoc_2018/day_09/day_09.py:15-17 | placing a new marble keeps the circle distinct |
| `Aoc2018Day09.TurnAt` | aoc_2018/day_09/day_09.py:12-14 | after a multiple of 23 every remaining marble is one of the circle other than the one seven places counter-clockwise |
| `Aoc2018Day09.TurnKeepsDistinct` | aoc_2018/day_09/day_09.py:11-14 | a multiple of 23 keeps the circle distinct and bounded |
| `Aoc2018Day09.TurnDistinct` | aoc_2018/day_09/day_09.py:12-14 | rotate, pop, rotate back leaves distinct marbles below the current one |
| `Aoc2018Day09.PlayNext` | aoc_2018/day_09/day_09.py:18 | each turn passes to the next player, wrapping round |
| `Aoc2018Day09.PlayAllNext` | aoc_2018/day_09/day_09.py:18 | each marble played moves the current player on by one |
| `Aoc2018Day09.PlayerCycles` | aoc_2018/day_09/day_09.py:6-18 | after marble m the player about to play is (1 + m) mod players |
| `Aoc2018Day09.TwentyThreeScores` | aoc_2018/day_09/day_09.py:11-14 | a multiple of 23 scores itself plus the marble seven places counter-clockwise, which leaves the circle; no other score changes |
| `Aoc2018Day09.PlayAllStep` | aoc_2018/day_09/day_09.py:10 | the game after marble m is the game after m - 1 played once more |
| `Aoc2018Day09.PlaceMarble` | aoc_2018/day_09/day_09.py:11-18 | the loop body on the deque, the scores and the player computes one turn |
| `Aoc2018Day09.ComputeGame` | aoc_2018/day_09/day_09.py:5-23 | with no players or no scores the source raises (None); otherwise the answer is a score of the game and no score is higher |
| `Aoc2018Day09.PlayMarbles` | aoc_2018/day_09/day_09.py:6-18 | the loop plays marbles 1 to the last one in turn |
| `Aoc2018Day09.MaxScore` | aoc_2018/day_09/day_09.py:19 | `max(scores.values())` is a score no other exceeds; it raises (None) exactly for no scores |
| `Aoc2018Day09.PartTwo` | aoc_2018/day_09/day_09.py:26-27 | part two plays the same game with a hundred times as many marbles; with no players, or a negative last marble and so no scores, it raises (None) |
| `Aoc2018Day13.IntersectionCycle` | aoc_2018/day_13/day_13.py:10-16 | the intersection choices cycle left, straight, right with period three, never repeating one twice in a row |
| `Aoc2018Day13.FromValue` | aoc_2018/day_13/day_13.py:19-23 | `Direction(v)` is the heading whose enum value is v |
| `Aoc2018Day13.TurnTable` | aoc_2018/day_13/day_13.py:25-31 | the enum arithmetic turns each heading left and right as a compass does |
| `Aoc2018Day13.TurnQuarter` | aoc_2018/day_13/day_13.py:25-31 | left and right are quarter turns that undo each other, and straight keeps the heading |
| `Aoc2018Day13.GetFromDelta` | aoc_2018/day_13/day_13.py:39-47 | moving follows the heading by one square, and two right turns lead back |
| `Aoc2018Day13.CurvesReflect` | aoc_2018/day_13/day_13.py:83-102 | `/` and `\` reflect the heading as mirrors and undo themselves |
| `Aoc2018Day13.MovedMeaning` | aoc_2018/day_13/day_13.py:71-105 | a tick moves a cart to a neighbouring square; only curves and intersections change its heading, and only intersections advance its next choice |
| `Aoc2018Day13.Cart.constructor` | aoc_2018/day_13/day_13.py:62-66 | a new cart turns left at its first intersection |
| `Aoc2018Day13.Cart.UpdatePosition` | aoc_2018/day_13/day_13.py:71-105 | the in-place update moves, then steers by the tile reached, as `Moved` states |
| `Aoc2018Day13.States` | aoc_2018/day_13/day_13.py:62-66 | the values of the cart objects, one per cart, in order |
| `Aoc2018Day13.Arrange` | aoc_2018/day_13/day_13.py:118 | the carts' states in the order of the sort's indices |
| `Aoc2018Day13.Pick` | aoc_2018/day_13/day_13.py:118 | the cart objects in the order of the sort's indices |
| `Aoc2018Day13.InsertIndex` | aoc_2018/day_13/day_13.py:118 | inserting one index keeps all others and adds it |
| `Aoc2018Day13.SortOrder` | aoc_2018/day_13/day_13.py:118 | the sort's indices are as many as the carts and all in range |
| `Aoc2018Day13.InsertIndexOrdered` | aoc_2018/day_13/day_13.py:118 | inserting an index keeps the arrangement in reading order |
| `Aoc2018Day13.InsertIndexStable` | aoc_2018/day_13/day_13.py:118 | inserting an index keeps carts on one square in their former order |
| `Aoc2018Day13.SortOrderPermutation` | aoc_2018/day_13/day_13.py:118 | `sort` with the (y, x) key reorders the carts: every cart once, in reading order, carts on one square in their former order |
| `Aoc2018Day13.PickDistinct` | aoc_2018/day_13/day_13.py:118 | the sorted list holds distinct cart objects |
| `Aoc2018Day13.Advanced` | aoc_2018/day_13/day_13.py:120-121 | moving the first k carts keeps their number |
| `Aoc2018Day13.HitsOther` | aoc_2018/day_13/day_13.py:124-131 | the two loops report a hit exactly when another cart stands on the moved cart's square |
| `Aoc2018Day13.SimulateStep` | aoc_2018/day_13/day_13.py:114-132 | the carts are sorted, then moved in turn; no crash means all moved quietly; a crash is reported at the square of the first cart that lands on another, after it moved; leaving the grid stops at that cart |
| `Aoc2018Day13.TickCart` | aoc_2018/day_13/day_13.py:120-131 | one cart's turn either leaves the grid, or moves it and reports a crash at its square, or goes on quietly |
| `Aoc2018Day13.SortByPosition` | aoc_2018/day_13/day_13.py:118 | the sorted list is the same carts, in reading order |
| `Aoc2018Day13.QuietStep` | aoc_2018/day_13/day_13.py:124-131 | a cart that hits no other extends the quiet prefix |
| `Aoc2018Day13.MoveCart` | aoc_2018/day_13/day_13.py:121 | moving cart idx in place moves it alone |
| `Aoc2018Day13.FirstHit` | aoc_2018/day_13/day_13.py:157-166 | the loop finds the first other cart not crashed on the same square, and none only when there is none |
| `Aoc2018Day13.RemovalRun` | aoc_2018/day_13/day_13.py:150-166 | the turns keep the number of carts |
| `Aoc2018Day13.RemovalRunStopped` | aoc_2018/day_13/day_13.py:154 | once a cart leaves the grid the tick raises |
| `Aoc2018Day13.CrashInPairs` | aoc_2018/day_13/day_13.py:163-165 | carts crash two at a time, and only carts of the list crash |
| `Aoc2018Day13.TurnCrashesPair` | aoc_2018/day_13/day_13.py:157-166 | a turn crashes no cart or two distinct carts not crashed before |
| `Aoc2018Day13.TurnSpread` | aoc_2018/day_13/day_13.py:150-166 | a turn leaves the carts not crashed on different squares |
| `Aoc2018Day13.RemovalSpread` | aoc_2018/day_13/day_13.py:144-169 | if the carts start on different squares, the survivors of any number of turns still are |
| `Aoc2018Day13.Keep` | aoc_2018/day_13/day_13.py:169 | the survivors are carts of the list, no more of them |
| `Aoc2018Day13.KeepWithin` | aoc_2018/day_13/day_13.py:169 | the survivors belong to any list that held all the carts |
| `Aoc2018Day13.KeepMeaning` | aoc_2018/day_13/day_13.py:169 | a cart survives exactly when one of its indices is not crashed |
| `Aoc2018Day13.KeepDistinct` | aoc_2018/day_13/day_13.py:169 | the survivors are distinct cart objects |
| `Aoc2018Day13.FindHit` | aoc_2018/day_13/day_13.py:157-166 | the inner loop computes `FirstHit` |
| `Aoc2018Day13.FirstHitFound` | aoc_2018/day_13/day_13.py:166 | the loop breaks at the first hit |
| `Aoc2018Day13.SimulateStepWithRemoval` | aoc_2018/day_13/day_13.py:144-169 | the carts are sorted and moved in turn as `RemovalRun` states, and the survivors are the carts not crashed; None where a cart leaves the grid |
| `Aoc2018Day13.RemovalLoop` | aoc_2018/day_13/day_13.py:150-166 | the loop over the sorted carts computes `RemovalRun` |
| `Aoc2018Day13.RemovalTick` | aoc_2018/day_13/day_13.py:151-166 | one cart's turn is skipped if it crashed, else it moves and is checked against the carts not crashed |
| `Aoc2018Day13.TurnSkipped` | aoc_2018/day_13/day_13.py:151-152 | a crashed cart's turn changes nothing |
| `Aoc2018Day13.TurnOffGrid` | aoc_2018/day_13/day_13.py:154 | a cart that leaves the grid makes the tick raise |
| `Aoc2018Day13.TurnTaken` | aoc_2018/day_13/day_13.py:154-166 | a cart's turn moves it, and it crashes with the first other cart not crashed on its square, if any |
| `Aoc2018Day13.MoveSurvivor` | aoc_2018/day_13/day_13.py:154 | moving cart idx in place moves it alone |
| `Aoc2018Day13.PartOne` | aoc_2018/day_13/day_13.py:135-141 | a reported crash square is the square where two distinct carts stand at the end of the tick |
| `Aoc2018Day13.PartTwo` | aoc_2018/day_13/day_13.py:172-184 | the square reported for the last cart is that of one of the carts |
| `Aoc2018Day14.Initial` | aoc_2018/day_14/day_14.py:3-6 | the board starts with scores 3 and 7 and the elves on them, a valid board |
| `Aoc2018Day14.NewRecipes` | aoc_2018/day_14/day_14.py:9-17 | a sum above 9 is written as its two digits, tens first, otherwise as itself, and the digits read back as the sum |
| `Aoc2018Day14.Round` | aoc_2018/day_14/day_14.py:9-19 | a round keeps the board valid and only appends one or two scores |
| `Aoc2018Day14.MoveElves` | aoc_2018/day_14/day_14.py:18-19 | each elf moves one plus its score forward round the grown board, completing the round |
| `Aoc2018Day14.Grow` | aoc_2018/day_14/day_14.py:8-19 | rounds until the board holds enough scores keep it valid |
| `Aoc2018Day14.GrowExtends` | aoc_2018/day_14/day_14.py:8-19 | growing only appends, and stops with the scores needed or one more |
| `Aoc2018Day14.GrowSplit` | aoc_2018/day_14/day_14.py:8-19 | growing to a shorter length first changes nothing |
| `Aoc2018Day14.Scores` | aoc_2018/day_14/day_14.py:8-19 | the scoreboard grown to m holds at least m scores |
| `Aoc2018Day14.ScoresOf` | aoc_2018/day_14/day_14.py:8-19 | the board grown from the start to m scores is that scoreboard |
| `Aoc2018Day14.ScoresPrefix` | aoc_2018/day_14/day_14.py:9-19 | scores never change once written: a shorter scoreboard is a prefix of a longer one |
| `Aoc2018Day14.NextRound` | aoc_2018/day_14/day_14.py:9-19 | the round after a board reached from the start is the board grown to any length it newly covers |
| `Aoc2018Day14.PlayRound` | aoc_2018/day_14/day_14.py:9-19 | the loop body plays one round and counts the scores it adds |
| `Aoc2018Day14.PlayUntil` | aoc_2018/day_14/day_14.py:3-19 | the loop ends with the board grown from the start to the length asked for |
| `Aoc2018Day14.PartOne` | aoc_2018/day_14/day_14.py:1-20 | part one returns the ten scores after the first recipes_nbr |
| `Aoc2018Day14.DecimalDigits` | aoc_2018/day_14/day_14.py:35 | `str` writes at least one decimal digit |
| `Aoc2018Day14.DecimalDigitsValue` | aoc_2018/day_14/day_14.py:35 | the digits read back as the number |
| `Aoc2018Day14.SliceMatches` | aoc_2018/day_14/day_14.py:26 | a slice cut short at the end equals the target exactly when the target occurs there |
| `Aoc2018Day14.ContainsRecipe` | aoc_2018/day_14/day_14.py:23-28 | the target is found exactly when it starts at some score of the board |
| `Aoc2018Day14.WrittenMidRound` | aoc_2018/day_14/day_14.py:39-59 | every board partway through a round is written as the scoreboard has it |
| `Aoc2018Day14.WrittenAppears` | aoc_2018/day_14/day_14.py:42-59 | on such a board, an appearance ending within it is one in its scores |
| `Aoc2018Day14.NoneInMeaning` | aoc_2018/day_14/day_14.py:38-59 | a written board without the target has none on the scoreboard either |
| `Aoc2018Day14.TailFound` | aoc_2018/day_14/day_14.py:42-59 | a tail that matches, with none before it, is the first appearance ending from then on |
| `Aoc2018Day14.WriteScore` | aoc_2018/day_14/day_14.py:41-46 | one score written and the tail compared: the board still lacks the target unless the tail matches |
| `Aoc2018Day14.SearchRound` | aoc_2018/day_14/day_14.py:39-61 | one round of part two returns the first appearance ending past three scores, or plays the round without one |
| `Aoc2018Day14.Found` | aoc_2018/day_14/day_14.py:46-59 | the index returned on a matching tail is that first appearance |
| `Aoc2018Day14.PartTwoAsWritten` | aoc_2018/day_14/day_14.py:31-62 | as written, part two returns the first appearance ending at the third score or later, and none only when no such appearance ends within the first billion rounds |
| `Aoc2018Day14.StartingScoresMissed` | aoc_2018/day_14/day_14.py:34-46 | for 37 the first appearance is the two starting scores, which part two as written never compares |
| `Aoc2018Day14.StartWritten` | aoc_2018/day_14/day_14.py:34 | the starting scores are written as the scoreboard has them |
| `Aoc2018Day14.TryScore` | aoc_2018/day_14/day_14.py:41-46 | one starting score written and the tail compared: a match is the first appearance of the target, otherwise the board still lacks it |
| `Aoc2018Day14.SearchStart` | aoc_2018/day_14/day_14.py:34-36 | comparing the tail after each starting score finds the first appearance when it ends within them |
| `Aoc2018Day14.JoinSearches` | aoc_2018/day_14/day_14.py:31-62 | none within the starting scores and a first one later make the first appearance of all |
| `Aoc2018Day14.PartTwo` | aoc_2018/day_14/day_14.py:31-62 | corrected part two returns the index of the first appearance of the digits, or None when none ends within the first billion rounds |
| `Aoc2019Day01.Fuel` | aoc_2019/day_01/day_01.py:2 | `mass // 3 - 2` is the r with 3(r + 2) ≤ mass < 3(r + 2) + 3, Python's floor division |
| `Aoc2019Day01.PartOne` | aoc_2019/day_01/day_01.py:1-2 | the sum of the fuel is the total mass divided by three, less two per module, within a rounding of at most two per module |
| `Aoc2019Day01.GetMassRec` | aoc_2019/day_01/day_01.py:5-10 | the recursive fuel is never negative, is zero exactly when the mass needs no fuel, and is at least the fuel of the mass alone |
| `Aoc2019Day01.GetMassRecBound` | aoc_2019/day_01/day_01.py:5-10 | the recursive fuel of a non-negative mass is at most half of it |
| `Aoc2019Day01.GetMassRecMonotone` | aoc_2019/day_01/day_01.py:5-10 | a heavier module never needs less recursive fuel |
| `Aoc2019Day01.PartTwo` | aoc_2019/day_01/day_01.py:13-14 | the recursive fuel total is never negative, and for non-negative masses at most half of their sum |
| `Aoc2019Day01.PartTwoAtLeastPartOne` | aoc_2019/day_01/day_01.py:1-14 | part two's answer is at least part one's |
| `Aoc2019Day01.PartsSplit` | aoc_2019/day_01/day_01.py:1-14 | both parts add up module by module |
| `Aoc2019Day02.StepAt` | aoc_2019/day_02/day_02.py:5-21 | one pass: past the end raises IndexError; 99 halts; an unknown opcode raises ValueError; 1 and 2 write the sum or product of the two cells read into the cell named, and raise IndexError when an operand or position is out of range |
| `Aoc2019Day02.Process` | aoc_2019/day_02/day_02.py:1-21 | a run that ends normally keeps the memory's length |
| `Aoc2019Day02.ProcessInPlace` | aoc_2019/day_02/day_02.py:1-21 | the in-place loop leaves the memory `Process` gives, or reports its exception |
| `Aoc2019Day02.PartOne` | aoc_2019/day_02/day_02.py:24-31 | part one runs with noun 12 and verb 2 and reads cell 0, and returns None when the run raises; a list of fewer than three cells raises the uncaught IndexError of the restore (`ShortList`), and only such a list does; a run that ends normally leaves the list holding the final memory, as the source mutates it in place; a short list is left as far as the restore got |
| `Aoc2019Day02.TryPair` | aoc_2019/day_02/day_02.py:37-44 | a copy with noun and verb set is run: the run raises exactly when `Process` fails on those cells, and otherwise cell 0 of its result is read |
| `Aoc2019Day02.PartTwo` | aoc_2019/day_02/day_02.py:34-46 | the program is left as it was; an answer 100·noun + verb is the first pair, noun-major, whose run leaves 19690720 in cell 0; a run that raises first ends the search with None; no solution means no pair gives 19690720; a list of fewer than three cells raises the uncaught IndexError of setting the copy's noun (`ShortCopy`), and only such a list does |
| `Aoc2019Day03.DeltaOf` | aoc_2019/day_03/day_03.py:39-45 | each known direction letter is a unit step; any other letter is the lookup's KeyError |
| `Aoc2019Day03.Walk` | aoc_2019/day_03/day_03.py:46-49 | a move adds as many points as its distance, none for a negative one |
| `Aoc2019Day03.WalkAt` | aoc_2019/day_03/day_03.py:46-49 | the points a move adds are the start shifted by 1, 2, … steps |
| `Aoc2019Day03.Path` | aoc_2019/day_03/day_03.py:31-50 | the path fails exactly when some direction is unknown, and otherwise holds the origin plus one point per step of every move |
| `Aoc2019Day03.PathIsUnit` | aoc_2019/day_03/day_03.py:31-50 | every path starts at the origin and moves one square at a time |
| `Aoc2019Day03.UnitPathDistance` | aoc_2019/day_03/day_03.py:31-50 | after i unit steps a wire is at most i from the origin |
| `Aoc2019Day03.GetPathFromLine` | aoc_2019/day_03/day_03.py:31-50 | the nested loops compute `Path` |
| `Aoc2019Day03.AddSteps` | aoc_2019/day_03/day_03.py:46-49 | the inner loop appends the points of one move and ends at the last of them |
| `Aoc2019Day03.PathNoneGrows` | aoc_2019/day_03/day_03.py:36-45 | an unknown direction anywhere makes the whole line fail |
| `Aoc2019Day03.CrossingsOfPaths` | aoc_2019/day_03/day_03.py:18 | with both wires starting at the origin, the symmetric difference with the origin gives the points on both wires other than the origin |
| `Aoc2019Day03.PartOne` | aoc_2019/day_03/day_03.py:16-19 | part one is the least distance from the origin of a crossing; `min` of no crossing raises, here None |
| `Aoc2019Day03.FirstIndex` | aoc_2019/day_03/day_03.py:26 | `index` gives a position holding the point |
| `Aoc2019Day03.FirstIndexIsFirst` | aoc_2019/day_03/day_03.py:26 | no earlier position holds it |
| `Aoc2019Day03.PartTwo` | aoc_2019/day_03/day_03.py:22-28 | part two is the least sum of the first positions of a crossing on the two wires; with no crossing infinity, here None |
| `Aoc2019Day03.PartTwoAtLeastTwicePartOne` | aoc_2019/day_03/day_03.py:16-28 | part two's answer is at least twice part one's |
| `Aoc2019Day04.Digits` | aoc_2019/day_04/day_04.py:6 | a natural number is written with at least one decimal digit and no leading zero |
| `Aoc2019Day04.DigitsValue` | aoc_2019/day_04/day_04.py:6 | the digits read back as the number |
| `Aoc2019Day04.Str` | aoc_2019/day_04/day_04.py:6 | `str(number)` is never empty |
| `Aoc2019Day04.IsNumberValidP1` | aoc_2019/day_04/day_04.py:4-11 | the loop accepts exactly the numbers whose characters never decrease and have two equal neighbours |
| `Aoc2019Day04.RunLength` | aoc_2019/day_04/day_04.py:20-29 | the run of equal pairs ending at character i is at most i long |
| `Aoc2019Day04.RunLengthOne` | aoc_2019/day_04/day_04.py:24-31 | a run of exactly one pair is a pair whose left neighbour differs |
| `Aoc2019Day04.IsNumberValidP2` | aoc_2019/day_04/day_04.py:18-32 | the loop accepts exactly the non-decreasing numbers with a pair that is not part of a larger group |
| `Aoc2019Day04.ValidP2ImpliesP1` | aoc_2019/day_04/day_04.py:4-32 | a number valid by the second rule is valid by the first |
| `Aoc2019Day04.NegativeLikePositive` | aoc_2019/day_04/day_04.py:6-31 | a minus sign sorts below every digit and equals none, so a negative number passes either rule exactly when its absolute value does |
| `Aoc2019Day04.MinusKeepsOrder` | aoc_2019/day_04/day_04.py:7 | a leading minus sign never makes the characters decrease |
| `Aoc2019Day04.MinusKeepsPairs` | aoc_2019/day_04/day_04.py:9 | a leading minus sign adds no equal pair |
| `Aoc2019Day04.MinusKeepsExactPairs` | aoc_2019/day_04/day_04.py:24-31 | a leading minus sign adds or removes no exact pair |
| `Aoc2019Day04.Count` | aoc_2019/day_04/day_04.py:15 | the count over start..end is zero for an empty range and at most its size |
| `Aoc2019Day04.CountIsPassing` | aoc_2019/day_04/day_04.py:15 | summing the test over start..end counts the set of numbers in that range that pass it |
| `Aoc2019Day04.PartOne` | aoc_2019/day_04/day_04.py:14-15 | part one is the number of integers in start..end that pass the first rule |
| `Aoc2019Day04.PartTwo` | aoc_2019/day_04/day_04.py:35-36 | part two is the number of integers in start..end that pass the second rule |
| `Aoc2019Day04.CountSplit` | aoc_2019/day_04/day_04.py:15 | counts add up over adjacent ranges |
| `Aoc2019Day04.CountMonotone` | aoc_2019/day_04/day_04.py:15-36 | a weaker test never counts fewer numbers |
| `Aoc2019Day04.PartTwoAtMostPartOne` | aoc_2019/day_04/day_04.py:14-36 | part two never counts more passwords than part one |
| `Intcode.Read` | aoc_2019/day_05/day_05.py:5 | `intcode[i]` succeeds exactly for -len ≤ i < len, indexing from the end for a negative i |
| `Intcode.Write` | aoc_2019/day_05/day_05.py:29 | `intcode[i] = v` succeeds on the same addresses, after which i reads v and every other cell is unchanged |
| `Aoc2019Day05.GetValue` | aoc_2019/day_05/day_05.py:4-9 | immediate mode 1 reads the parameter cell itself; every other mode reads the cell it points to; a parameter out of range raises |
| `Aoc2019Day05.DecodeDigits` | aoc_2019/day_05/day_05.py:18-20 | the opcode is two digits and each mode one digit, and together with the higher digits they rebuild the value |
| `Aoc2019Day05.ExecBinary` | aoc_2019/day_05/day_05.py:24-30 | add, multiply, less than and equals read two parameters and write the sum, product or 0/1 comparison at the address in the third, advancing by 4; any read or write out of range raises IndexError |
| `Aoc2019Day05.ExecInput` | aoc_2019/day_05/day_05.py:31-34 | input pops the last input value into the cell the parameter names and advances by 2; it raises exactly when there is no input or an address is out of range |
| `Aoc2019Day05.ExecOutput` | aoc_2019/day_05/day_05.py:35-38 | output appends the parameter's value and advances by 2, raising exactly when it cannot be read |
| `Aoc2019Day05.ExecJump` | aoc_2019/day_05/day_05.py:39-54 | jump if true (false) sets the pointer to the second parameter when the first is (is not) non-zero, and otherwise advances by 3, changing nothing else |
| `Aoc2019Day05.Step` | aoc_2019/day_05/day_05.py:16-67 | one pass raises IndexError when the pointer is out of range, halts exactly on 99, raises ValueError exactly on an unknown opcode, and keeps the memory's length |
| `Aoc2019Day05.Exec` | aoc_2019/day_05/day_05.py:16-67 | a halted run ends where the next pass halts |
| `Aoc2019Day05.Process` | aoc_2019/day_05/day_05.py:12-69 | a value is the last output of a halted run; an error is a raising run or a halted one without output |
| `Aoc2019Day05.BinaryInPlace` | aoc_2019/day_05/day_05.py:24-30 | the in-place binary instruction does what `ExecBinary` states |
| `Aoc2019Day05.InputInPlace` | aoc_2019/day_05/day_05.py:31-34 | the in-place input instruction does what `ExecInput` states |
| `Aoc2019Day05.JumpStatus` | aoc_2019/day_05/day_05.py:39-54 | the jump branch of the loop body ends as `ExecJump` states: the new pointer, or IndexError when a parameter cannot be read |
| `Aoc2019Day05.StepInPlace` | aoc_2019/day_05/day_05.py:17-67 | one pass on the array agrees with `Step` |
| `Aoc2019Day05.ProcessInPlace` | aoc_2019/day_05/day_05.py:12-69 | the in-place loop returns what `Process` states |
| `Aoc2019Day05.PartOne` | aoc_2019/day_05/day_05.py:72-73 | part one processes with input [1] |
| `Aoc2019Day05.PartTwo` | aoc_2019/day_05/day_05.py:76-77 | part two processes with input [5] |
| `Aoc2024Day01.ConsSorted` | aoc_2024/src/day_01/mod.rs:31 | a head no larger than the first element of a sorted tail keeps the list sorted |
| `Aoc2024Day01.Insert` | aoc_2024/src/day_01/mod.rs:31 | inserting into a sorted list keeps it sorted and adds exactly that value |
| `Aoc2024Day01.Sort` | aoc_2024/src/day_01/mod.rs:29-32 | `sorted()` returns the same values in ascending order |
| `Aoc2024Day01.SortedUnique` | aoc_2024/src/day_01/mod.rs:29-32 | two sorted arrangements of the same values are equal, so any sort gives the same list |
| `Aoc2024Day01.SortedHeadIsLeast` | aoc_2024/src/day_01/mod.rs:31 | the head of a sorted list is its least element |
| `Aoc2024Day01.DistanceSum` | aoc_2024/src/day_01/mod.rs:32-34 | the sum of absolute differences over the zipped pairs is never negative |
| `Aoc2024Day01.DistanceSumSymmetric` | aoc_2024/src/day_01/mod.rs:32-34 | the distance does not depend on which list is first |
| `Aoc2024Day01.DistanceSumZero` | aoc_2024/src/day_01/mod.rs:32-34 | lists of one length are at distance zero exactly when they are equal |
| `Aoc2024Day01.PartOneSymmetric` | aoc_2024/src/day_01/mod.rs:28-35 | swapping the columns does not change part one |
| `Aoc2024Day01.PartOneIgnoresOrder` | aoc_2024/src/day_01/mod.rs:28-35 | part one depends only on the values of each column, not their order |
| `Aoc2024Day01.PartOne` | aoc_2024/src/day_01/mod.rs:28-35 | the total distance is never negative, and columns of equal length give zero exactly when they hold the same values |
| `Aoc2024Day01.SimilarityAddRight` | aoc_2024/src/day_01/mod.rs:40-46 | one more right value x adds x once for every x on the left |
| `Aoc2024Day01.SimilarityEmptyRight` | aoc_2024/src/day_01/mod.rs:43-46 | with an empty right column every left value weighs zero |
| `Aoc2024Day01.SimilaritySymmetric` | aoc_2024/src/day_01/mod.rs:37-47 | the similarity score does not depend on which column is first |
| `Aoc2024Day01.WeightedSumIsSimilarity` | aoc_2024/src/day_01/mod.rs:43-46 | weighing the left values by the right column's occurrence table gives the similarity |
| `Aoc2024Day01.PartTwo` | aoc_2024/src/day_01/mod.rs:37-47 | counting into a table and then weighing computes the similarity |
| `Aoc2024Day02.IsValidReport` | aoc_2024/src/day_02/mod.rs:33-49 | the flag loop accepts exactly the reports whose adjacent levels differ by 1 to 3 and that never rise or never fall |
| `Aoc2024Day02.Remove` | aoc_2024/src/day_02/mod.rs:64-65 | removing one level shortens the report by one |
| `Aoc2024Day02.IsValidReportWithToleranceOfOne` | aoc_2024/src/day_02/mod.rs:58-71 | the dampener accepts exactly the reports that are safe, or safe with some single level removed |
| `Aoc2024Day02.ShortIsSafe` | aoc_2024/src/day_02/mod.rs:33-49 | a report with fewer than two levels is safe |
| `Aoc2024Day02.SafeWithoutFirst` | aoc_2024/src/day_02/mod.rs:58-71 | dropping the first level of a safe report leaves it safe, so the dampener's first check adds nothing for a non-empty report |
| `Aoc2024Day02.Reverse` | aoc_2024/src/day_02/mod.rs:33-49 | the reversed report has as many levels |
| `Aoc2024Day02.ReverseAt` | aoc_2024/src/day_02/mod.rs:33-49 | level k of the reversed report is level k from the end |
| `Aoc2024Day02.SafeReverse` | aoc_2024/src/day_02/mod.rs:33-49 | reading a report backwards does not change whether it is safe |
| `Aoc2024Day02.ReverseReverse` | aoc_2024/src/day_02/mod.rs:33-49 | reversing twice restores the report |
| `Aoc2024Day02.GradualReverse` | aoc_2024/src/day_02/mod.rs:43-46 | backwards the differences keep their sizes |
| `Aoc2024Day02.MonotoneReverse` | aoc_2024/src/day_02/mod.rs:37-42 | backwards a non-decreasing report is non-increasing |
| `Aoc2024Day02.PartOne` | aoc_2024/src/day_02/mod.rs:26-31 | at most one count per report; every report is counted exactly when all are safe, and none exactly when none is |
| `Aoc2024Day02.PartTwo` | aoc_2024/src/day_02/mod.rs:51-56 | at most one count per report; every report is counted exactly when all pass the dampener, and none exactly when none does |
| `Aoc2024Day02.PartOneAtMostPartTwo` | aoc_2024/src/day_02/mod.rs:26-56 | the dampener accepts at least the safe reports, and no more reports than there are |
| `Aoc2024Day04.CountXmasSamxMeaning` | aoc_2024/src/day_04/mod.rs:63-75 | a window counts once if it reads XMAS forwards and once backwards, never both, so at most once |
| `Aoc2024Day04.ReverseLength` | aoc_2024/src/day_04/mod.rs:66 | a reversed window has four letters still |
| `Aoc2024Day04.CountXmasMeaning` | aoc_2024/src/day_04/mod.rs:19-61 | each of the four helpers counts 1 exactly when its window fits inside the grid and reads XMAS or SAMX |
| `Aoc2024Day04.CellHasX` | aoc_2024/src/day_04/mod.rs:19-75 | every window that counts starts or ends on an X |
| `Aoc2024Day04.RowCountBound` | aoc_2024/src/day_04/mod.rs:83-88 | each cell adds at most 4, one per direction |
| `Aoc2024Day04.CountRow` | aoc_2024/src/day_04/mod.rs:83-88 | the inner loop sums the four helpers over the cells of one row |
| `Aoc2024Day04.PartOne` | aoc_2024/src/day_04/mod.rs:77-92 | the nested loops sum the four helpers over every cell |
| `Aoc2024Day04.MasPairMeaning` | aoc_2024/src/day_04/mod.rs:105-106 | a diagonal reads MS or SM exactly when it holds one M and one S |
| `Aoc2024Day04.CountXRow` | aoc_2024/src/day_04/mod.rs:100-111 | the inner loop counts the A cells of one row, off the border, whose two diagonals each hold an M and an S |
| `Aoc2024Day04.PartTwo` | aoc_2024/src/day_04/mod.rs:94-115 | the nested loops count those cells over every row off the border |
| `Aoc2024Day05.Position` | aoc_2024/src/day_05/mod.rs:45-46 | `position` finds the first index holding the page, and none exactly when the page is absent |
| `Aoc2024Day05.ValidIffNoBrokenRule` | aoc_2024/src/day_05/mod.rs:43-55 | an update is valid exactly when no rule has both pages present with the second first |
| `Aoc2024Day05.CompareMeaning` | aoc_2024/src/day_05/mod.rs:57-67 | Less only for a rule (a, b), Greater only for a rule (b, a), Equal exactly when no rule names the two pages |
| `Aoc2024Day05.CompareFlip` | aoc_2024/src/day_05/mod.rs:57-67 | swapping two different pages swaps Less and Greater and keeps Equal |
| `Aoc2024Day05.Insert` | aoc_2024/src/day_05/mod.rs:83 | one step of the stable sort adds one page |
| `Aoc2024Day05.SortBy` | aoc_2024/src/day_05/mod.rs:80-84 | sorting keeps the number of pages |
| `Aoc2024Day05.InsertPermutes` | aoc_2024/src/day_05/mod.rs:83 | one step of the sort adds exactly the page inserted |
| `Aoc2024Day05.SortPermutes` | aoc_2024/src/day_05/mod.rs:80-84 | sorting only reorders the pages of the update |
| `Aoc2024Day05.InsertOrdered` | aoc_2024/src/day_05/mod.rs:83 | one step keeps every adjacent pair in order |
| `Aoc2024Day05.SortOrdered` | aoc_2024/src/day_05/mod.rs:80-84 | when no rule names a page twice, no adjacent pair of the sorted update compares Greater |
| `Aoc2024Day05.ValidIsSorted` | aoc_2024/src/day_05/mod.rs:80-88 | a valid update with distinct pages comes out of the sort unchanged, so part two never counts it |
| `Aoc2024Day05.ValidInit` | aoc_2024/src/day_05/mod.rs:43-55 | dropping the last page of a valid update with distinct pages leaves a valid update with distinct pages |
| `Aoc2024Day05.LastTwoInOrder` | aoc_2024/src/day_05/mod.rs:43-67 | in a valid update the last page never compares Less to the page before it |
| `Aoc2024Day05.PositionAt` | aoc_2024/src/day_05/mod.rs:45-46 | with distinct pages, the position of the page at index i is i |
| `Aoc2024Day05.PositionPrefix` | aoc_2024/src/day_05/mod.rs:45-46 | positions before the last page are positions in the prefix |
| `Aoc2024Day05.PartOne` | aoc_2024/src/day_05/mod.rs:69-75 | part one panics (None) exactly when some valid update is empty, and is 0 when no update is valid |
| `Aoc2024Day05.PartTwoIgnoresValid` | aoc_2024/src/day_05/mod.rs:77-91 | when every update is valid with distinct pages, part two is 0 |
| `Aoc2024Day05.PartTwo` | aoc_2024/src/day_05/mod.rs:77-91 | the loop adds the middle page of each update the sort changed |
| `Aoc2024Day06.ClockwiseCycle` | aoc_2024/src/day_06/mod.rs:71-78 | `rotate_right` is a clockwise quarter turn on screen; four of them, and no fewer, come back to the start |
| `Aoc2024Day06.Ahead` | aoc_2024/src/day_06/mod.rs:25-67 | the cell in front of a guard not at the edge it faces is on the grid |
| `Aoc2024Day06.Step` | aoc_2024/src/day_06/mod.rs:25-69 | a step that succeeds leaves the guard on the grid (right edge at the last column, corrected; see Findings) |
| `Aoc2024Day06.StepMeaning` | aoc_2024/src/day_06/mod.rs:25-69 | a step fails exactly when the cell ahead is off the grid; an obstacle there turns the guard right where it stands; a free cell is where it goes, facing the same way |
| `Aoc2024Day06.StepAvoidsObstacles` | aoc_2024/src/day_06/mod.rs:25-69 | a guard not standing on an obstacle never steps onto one |
| `Aoc2024Day06.RightEdgeOutOfRange` | aoc_2024/src/day_06/mod.rs:57-66 | a guard in the last column facing right makes the code as written index out of range, where the walk should end |
| `Aoc2024Day06.AsWrittenAgreesElsewhere` | aoc_2024/src/day_06/mod.rs:25-69 | everywhere else the code as written does what the corrected step does |
| `Aoc2024Day06.VisitedHasStart` | aoc_2024/src/day_06/mod.rs:120-121 | the start cell is always counted |
| `Aoc2024Day06.VisitedCells` | aoc_2024/src/day_06/mod.rs:118-128 | every visited cell is on the grid, and none holds an obstacle when the start does not |
| `Aoc2024Day06.VisitedFuel` | aoc_2024/src/day_06/mod.rs:123-125 | a larger bound on the steps does not change a walk that ended |
| `Aoc2024Day06.CountVisited` | aoc_2024/src/day_06/mod.rs:127 | a walk that ends counts at least the start cell |
| `Aoc2024Day06.WalkStarts` | aoc_2024/src/day_06/mod.rs:121 | the walk's cells already include its start |
| `Aoc2024Day06.WalkGoesOn` | aoc_2024/src/day_06/mod.rs:123-124 | one more successful step adds the cell reached to the set |
| `Aoc2024Day06.WalkEnds` | aoc_2024/src/day_06/mod.rs:123 | a failing step ends the walk with the cells seen |
| `Aoc2024Day06.Guard.constructor` | aoc_2024/src/day_06/mod.rs:18-22 | a guard holds the direction and position it is given |
| `Aoc2024Day06.Guard.RotateRight` | aoc_2024/src/day_06/mod.rs:71-78 | the guard turns a quarter clockwise and stays where it is |
| `Aoc2024Day06.Guard.MoveOneStep` | aoc_2024/src/day_06/mod.rs:25-69 | the in-place step succeeds exactly when `Step` does and then reaches its state; a failed step changes nothing (right edge at the last column, corrected; see Findings) |
| `Aoc2024Day06.PartOne` | aoc_2024/src/day_06/mod.rs:118-128 | the loop counts the distinct cells the guard stands on until a step fails, as `CountVisited` states (right edge at the last column, corrected; see Findings) |
| `Aoc2024Day07.NumDigits` | aoc_2024/src/day_07/mod.rs:48 | `format!` writes b with r ≥ 1 digits: b is below 10^r and, for r > 1, at least 10^(r-1) |
| `Aoc2024Day07.ConcatSplits` | aoc_2024/src/day_07/mod.rs:48-49 | concatenation can be undone: dividing by 10 to the number of digits of b gives a back and the remainder gives b |
| `Aoc2024Day07.ConcatZero` | aoc_2024/src/day_07/mod.rs:48-49 | the leading "0" of the starting accumulator vanishes when parsed |
| `Aoc2024Day07.Concat` | aoc_2024/src/day_07/mod.rs:48-49 | the digits of b are written after those of a: for a ≥ 0 the result lies in [a·10^d, (a+1)·10^d), for a < 0 in ((a-1)·10^d, a·10^d], where d is the number of digits of b |
| `Aoc2024Day07.IsSolvable` | aoc_2024/src/day_07/mod.rs:38-54 | the search succeeds exactly when the target is one of the values a left-to-right evaluation can produce |
| `Aoc2024Day07.ConcatenationOnlyAdds` | aoc_2024/src/day_07/mod.rs:47-51 | allowing concatenation only adds results |
| `Aoc2024Day07.SolvableWithConcatenation` | aoc_2024/src/day_07/mod.rs:38-54 | an equation that holds with + and × still holds when concatenation is allowed |
| `Aoc2024Day07.FirstValue` | aoc_2024/src/day_07/mod.rs:38-54 | from an accumulator of 0, a single value gives either itself or 0 |
| `Aoc2024Day07.PartOne` | aoc_2024/src/day_07/mod.rs:56-62 | with non-negative targets the sum is non-negative, and it is 0 when no equation holds with + and × |
| `Aoc2024Day07.PartTwo` | aoc_2024/src/day_07/mod.rs:56-70 | with non-negative targets part two's sum is at least part one's |
| `Aoc2024Day08.GcdPositive` | aoc_2024/src/day_08/mod.rs:12-18 | the gcd of two absolute deltas that are not both zero is positive, so the divisions in `trace_line` are defined |
| `Aoc2024Day08.GcdDivides` | aoc_2024/src/day_08/mod.rs:12-18 | the Euclidean recursion returns a common divisor of both arguments |
| `Aoc2024Day08.GcdGreatest` | aoc_2024/src/day_08/mod.rs:12-18 | every common divisor divides the result, so it is the greatest one |
| `Aoc2024Day08.StepMeaning` | aoc_2024/src/day_08/mod.rs:28-34 | the step is the delta divided by the gcd: the gcd times the step is the delta, and the step is never zero |
| `Aoc2024Day08.AlongClosedForm` | aoc_2024/src/day_08/mod.rs:37-52 | after k steps the walk is at start + k·step |
| `Aoc2024Day08.LinePointsMeaning` | aoc_2024/src/day_08/mod.rs:24-73 | the line's points are exactly the grid points start + k·step for some integer k |
| `Aoc2024Day08.Convex` | aoc_2024/src/day_08/mod.rs:41-45 | once the walk leaves the grid it never comes back, so stopping at the first point off the grid loses nothing |
| `Aoc2024Day08.WalkForward` | aoc_2024/src/day_08/mod.rs:37-52 | the forward loop inserts start, start + step, … up to the first point off the grid, and inserts nothing when start is off the grid |
| `Aoc2024Day08.WalkBackward` | aoc_2024/src/day_08/mod.rs:54-70 | the backward loop inserts start − step, start − 2·step, … up to the first point off the grid, keeping what was inserted before |
| `Aoc2024Day08.BackStep` | aoc_2024/src/day_08/mod.rs:60-69 | one pass of the backward loop inserts a point of the line and keeps every point between the new index and start collected |
| `Aoc2024Day08.LineComplete` | aoc_2024/src/day_08/mod.rs:36-72 | the two loops together collect every grid point of the line |
| `Aoc2024Day08.TraceLine` | aoc_2024/src/day_08/mod.rs:24-73 | `trace_line` returns only grid points of the line through start and end, and, when start is on the grid, all of them |
| `Aoc2024Day08.MirroredPoint` | aoc_2024/src/day_08/mod.rs:75-87 | a returned mirrored point lies on the grid |
| `Aoc2024Day08.MirroredMeaning` | aoc_2024/src/day_08/mod.rs:75-87 | the mirrored point p satisfies p − a = a − b, and it is missing exactly when 2a − b is off the grid |
| `Aoc2024Day08.MirroredOnLine` | aoc_2024/src/day_08/mod.rs:127-152 | each part-one antinode of a pair is a part-two antinode of the same pair |
| `Aoc2024Day08.CollectedHas` | aoc_2024/src/day_08/mod.rs:127-152 | every antinode of a pair of antennas of one frequency is collected |
| `Aoc2024Day08.CollectedFrom` | aoc_2024/src/day_08/mod.rs:127-152 | only antinodes of pairs of antennas of one frequency are collected |
| `Aoc2024Day08.PartOneWithinPartTwo` | aoc_2024/src/day_08/mod.rs:127-152 | the part-one antinodes are a subset of the part-two antinodes |
| `Aoc2024Day08.PairAntinodes` | aoc_2024/src/day_08/mod.rs:131-136 | the body of the pair loop inserts exactly the antinodes of that pair |
| `Aoc2024Day08.AddRow` | aoc_2024/src/day_08/mod.rs:130-137 | the pairs with first antenna i add exactly their antinodes to the set |
| `Aoc2024Day08.CollectAntinodes` | aoc_2024/src/day_08/mod.rs:128-138 | the loops over frequencies and pairs collect exactly the antinodes of all same-frequency pairs |
| `Aoc2024Day08.PartOne` | aoc_2024/src/day_08/mod.rs:127-140 | `part_one` counts the distinct mirrored antinodes |
| `Aoc2024Day08.PartTwo` | aoc_2024/src/day_08/mod.rs:142-152 | `part_two` counts the distinct grid points on a line through two antennas of one frequency |
| `Aoc2024Day09.ExpandShape` | aoc_2024/src/day_09/mod.rs:30-48 | every block of the expanded disk map comes from one digit: file id i/2 for the even digit i, free space for an odd one |
| `Aoc2024Day09.GetInput` | aoc_2024/src/day_09/mod.rs:30-48 | `get_input` pushes, digit by digit, that many file blocks carrying the next id (even positions) or free blocks (odd positions) |
| `Aoc2024Day09.HasGapsBetweenFileBlocks` | aoc_2024/src/day_09/mod.rs:50-63 | the answer is true exactly when a file block follows a free block |
| `Aoc2024Day09.LastFile` | aoc_2024/src/day_09/mod.rs:69-74 | the backward search finds the last file block, or reports that there is none |
| `Aoc2024Day09.FirstFree` | aoc_2024/src/day_09/mod.rs:75-80 | the forward search finds the first free block, or reports that there is none |
| `Aoc2024Day09.GapsAtEnds` | aoc_2024/src/day_09/mod.rs:50-82 | a gap exists exactly when the first free block comes before the last file block, so both unwraps succeed while part one loops |
| `Aoc2024Day09.GetBlocksToSwap` | aoc_2024/src/day_09/mod.rs:65-82 | while a gap exists it returns the last file block and the first free block, the free one first |
| `Aoc2024Day09.SwapShrinks` | aoc_2024/src/day_09/mod.rs:87-90 | each swap moves the end of the files strictly left, so part one's loop terminates |
| `Aoc2024Day09.CompactIsCompact` | aoc_2024/src/day_09/mod.rs:84-91 | after the loop no gap remains and the blocks are a permutation of the input |
| `Aoc2024Day09.PartOne` | aoc_2024/src/day_09/mod.rs:84-102 | `part_one` returns the checksum (position times file id, summed) of the compacted disk |
| `Aoc2024Day09.SwapUntilCompact` | aoc_2024/src/day_09/mod.rs:87-90 | swapping the last file block into the first free block while a gap lies between file blocks leaves a disk without gaps and does not change what it compacts to |
| `Aoc2024Day09.DiskChecksum` | aoc_2024/src/day_09/mod.rs:91-101 | the sum over positions of position times file id, free blocks counting zero, is the checksum of the blocks |
| `Aoc2024Day09.AtomicInput` | aoc_2024/src/day_09/mod.rs:124-141 | `get_input_part_2` makes one span per digit: its length is the digit, file i/2 at even positions, free at odd ones |
| `Aoc2024Day09.AtomicInputLayout` | aoc_2024/src/day_09/mod.rs:30-141 | both readings of a disk map describe the same blocks |
| `Aoc2024Day09.HighestFileId` | aoc_2024/src/day_09/mod.rs:143-149 | the highest file id present, and none (where the source panics) when no span holds a file |
| `Aoc2024Day09.LastWithId` | aoc_2024/src/day_09/mod.rs:156-161 | the backward search finds the last span holding the file, or none |
| `Aoc2024Day09.FirstFit` | aoc_2024/src/day_09/mod.rs:166-171 | the forward search finds the leftmost free span before the file that is long enough, or none |
| `Aoc2024Day09.Swappable` | aoc_2024/src/day_09/mod.rs:151-177 | a returned pair is the file's span and a free span before it that can hold the file |
| `Aoc2024Day09.FindSwappableBlocks` | aoc_2024/src/day_09/mod.rs:151-177 | the two loops of `find_swappable_blocks` compute that pair |
| `Aoc2024Day09.MoveAtomicBlock` | aoc_2024/src/day_09/mod.rs:179-201 | the file lands at the free span's index with everything before it kept; when the file is shorter than the span, a free span of the difference follows it; the file's old slot becomes free space of the file's length; every other block is kept in order |
| `Aoc2024Day09.MoveKeepsLength` | aoc_2024/src/day_09/mod.rs:179-201 | moving a file keeps the total disk length |
| `Aoc2024Day09.Defrag` | aoc_2024/src/day_09/mod.rs:207-212 | trying every file from the highest id down keeps the total disk length |
| `Aoc2024Day09.ChecksumOfBlocks` | aoc_2024/src/day_09/mod.rs:214-226 | the final loop over spans computes the part-one checksum of their block-by-block layout |
| `Aoc2024Day09.PartTwo` | aoc_2024/src/day_09/mod.rs:203-227 | `part_two` fails exactly when no file exists, and otherwise returns the checksum of the defragmented layout |
| `Aoc2024Day11.DigitsBounds` | aoc_2024/src/day_11/mod.rs:26-28 | `checked_ilog10() + 1` is the digit count d of a positive stone: 10^(d-1) ≤ v < 10^d |
| `Aoc2024Day11.SplitHalves` | aoc_2024/src/day_11/mod.rs:28-38 | an even-digit stone splits into a left half with exactly half the digits and a right half below the divisor, which together give back the stone |
| `Aoc2024Day11.ChildrenCount` | aoc_2024/src/day_11/mod.rs:24-43 | each stone becomes one or two stones, and two exactly when it is non-zero with an even digit count |
| `Aoc2024Day11.BlinkLineGrows` | aoc_2024/src/day_11/mod.rs:22-45 | a blink never lowers the number of stones |
| `Aoc2024Day11.BlinkLineTimesAppend` | aoc_2024/src/day_11/mod.rs:22-45 | stones blink independently: after n blinks the line splits where it did before |
| `Aoc2024Day11.SpawnedIsLine` | aoc_2024/src/day_11/mod.rs:22-45 | counting stones by value agrees with blinking the line stone by stone |
| `Aoc2024Day11.SpawnedCopies` | aoc_2024/src/day_11/mod.rs:23-43 | n stones of one value blink into n copies of that value's children |
| `Aoc2024Day11.AddCount` | aoc_2024/src/day_11/mod.rs:25 | `entry(k).or_insert(0) += n` adds n stones of value k |
| `Aoc2024Day11.AddChildren` | aoc_2024/src/day_11/mod.rs:24-43 | the loop body adds n copies of the children of value v |
| `Aoc2024Day11.Blink` | aoc_2024/src/day_11/mod.rs:22-45 | `blink` into the cleared map yields the counts by value of all children |
| `Aoc2024Day11.SpawnedTimesIsLine` | aoc_2024/src/day_11/mod.rs:47-69 | after n blinks the counts by value are those of the line blinked n times |
| `Aoc2024Day11.CountAfter` | aoc_2024/src/day_11/mod.rs:49-56 | the loop of clear, blink and swap, then the sum, gives the number of stones after the given number of blinks from the starting counts |
| `Aoc2024Day11.PartOne` | aoc_2024/src/day_11/mod.rs:47-57 | `part_one` counts the stones after 25 blinks, starting from one stone per distinct value |
| `Aoc2024Day11.PartTwo` | aoc_2024/src/day_11/mod.rs:59-69 | `part_two` counts the stones after 75 blinks, starting from one stone per distinct value |
| `Aoc2024Day11.RepeatedStoneIgnored` | aoc_2024/src/day_11/mod.rs:48 | as written, collecting `(v, 1)` into a map counts a repeated stone value once |
| `Aoc2024Day11.CountStones` | aoc_2024/src/day_11/mod.rs:47-69 | the corrected count: every stone of the line blinked the given number of times, repeats included |
| `Aoc2024Day11.CountStonesAdds` | aoc_2024/src/day_11/mod.rs:47-69 | the corrected count adds up stone by stone and never drops below the line's length |
| `Aoc2024Day14.ElapseOneSecond` | aoc_2024/src/day_14/mod.rs:56-65 | one second moves the robot to a position on the grid (`rem_euclid` is never negative) and keeps its velocity |
| `Aoc2024Day14.ElapseClosedForm` | aoc_2024/src/day_14/mod.rs:56-65 | after n seconds a robot is at (p + n·v) mod size, with the same velocity |
| `Aoc2024Day14.QuadrantMeaning` | aoc_2024/src/day_14/mod.rs:68-88 | a robot on a centre line is skipped; any other robot is counted in exactly the quadrant its two comparisons with the centre name |
| `Aoc2024Day14.QuadrantCount` | aoc_2024/src/day_14/mod.rs:72-89 | no quadrant holds more robots than there are |
| `Aoc2024Day14.CountsCoverAll` | aoc_2024/src/day_14/mod.rs:72-89 | the four quadrant counts and the robots on the centre lines account for every robot exactly once |
| `Aoc2024Day14.CentreIgnored` | aoc_2024/src/day_14/mod.rs:76-78 | a robot on the centre row or column does not change the safety factor |
| `Aoc2024Day14.CountRobot` | aoc_2024/src/day_14/mod.rs:73-88 | the loop body adds one to the counter of the robot's quadrant, and nothing for a robot on a centre line |
| `Aoc2024Day14.CountQuadrants` | aoc_2024/src/day_14/mod.rs:70-89 | after the loop each of the four counters holds the number of robots in its quadrant |
| `Aoc2024Day14.GetSafetyFactor` | aoc_2024/src/day_14/mod.rs:67-91 | `get_safety_factor` is the product of the four quadrant counts |
| `Aoc2024Day14.ElapseAll` | aoc_2024/src/day_14/mod.rs:95-100 | every robot is moved independently for the given number of seconds, in order |
| `Aoc2024Day14.PartOne` | aoc_2024/src/day_14/mod.rs:93-102 | `part_one` is the safety factor after 100 seconds |
| `Aoc2024Day15.GetNewPoint` | aoc_2024/src/day_15/mod.rs:19-40 | one step in a direction is the next point along that direction's line, and never the point itself |
| `Aoc2024Day15.ShiftInjective` | aoc_2024/src/day_15/mod.rs:19-40 | repeated steps in one direction never revisit a point |
| `Aoc2024Day15.ChainLength` | aoc_2024/src/day_15/mod.rs:63-71 | the boxes the scan collects form the row of consecutive boxes directly ahead of the robot, ending at the first cell that is not a box |
| `Aoc2024Day15.ChainUnique` | aoc_2024/src/day_15/mod.rs:63-71 | that row has only one length |
| `Aoc2024Day15.MoveKeepsCount` | aoc_2024/src/day_15/mod.rs:57-92 | a move never changes the number of boxes |
| `Aoc2024Day15.MoveKeepsApart` | aoc_2024/src/day_15/mod.rs:57-92 | a move never pushes a box into a wall |
| `Aoc2024Day15.Map.constructor` | aoc_2024/src/day_15/mod.rs:42-46 | a map holds its walls and boxes, which are disjoint |
| `Aoc2024Day15.Map.MoveRobot` | aoc_2024/src/day_15/mod.rs:57-92 | `move_robot` keeps the walls, returns None when a wall ends the row ahead, and otherwise returns the next cell and moves the row of boxes one step (the first box cell is freed, the cell after the last is filled) |
| `Aoc2024Day15.Map.CollectBoxes` | aoc_2024/src/day_15/mod.rs:58-71 | the scan collects the boxes one, two, ... steps ahead of the robot, in order, and stops at the cell just past the last of them, which holds no box |
| `Aoc2024Day15.Map.PushBoxes` | aoc_2024/src/day_15/mod.rs:79-89 | moving the collected boxes from the last to the first, each into the cell just freed, frees the first box cell and fills the cell after the last |
| `Aoc2024Day15.RunKeepsCount` | aoc_2024/src/day_15/mod.rs:152-156 | following any directions keeps the number of boxes |
| `Aoc2024Day15.GpsSumRemove` | aoc_2024/src/day_15/mod.rs:157 | the GPS sum does not depend on the order the hash set yields the boxes in |
| `Aoc2024Day15.PartOne` | aoc_2024/src/day_15/mod.rs:148-158 | `part_one` is the GPS sum (100·y + x) of the boxes after following every direction on a copy of the map |
| `Aoc2025Day01.Turn` | aoc_2025/day_01/day_01.py:5 | a rotation leaves the dial on one of 0..99 (Python's `%` by 100 is never negative) |
| `Aoc2025Day01.DialAfter` | aoc_2025/day_01/day_01.py:2-5 | after any rotations the dial still shows one of 0..99 |
| `Aoc2025Day01.DialAfterIsSum` | aoc_2025/day_01/day_01.py:2-5 | the dial shows 50 plus the sum of all rotations, modulo 100 |
| `Aoc2025Day01.ZeroStops` | aoc_2025/day_01/day_01.py:4-7 | at most one count per rotation |
| `Aoc2025Day01.PartOne` | aoc_2025/day_01/day_01.py:1-8 | `part_one` counts the rotations that stop on 0 |
| `Aoc2025Day01.Clicks` | aoc_2025/day_01/day_01.py:15-19 | clicking one step at a time ends where the whole rotation does and counts every click that lands on 0 |
| `Aoc2025Day01.PartTwo` | aoc_2025/day_01/day_01.py:11-20 | `part_two` counts every click, in every rotation, that lands on 0 |
| `Aoc2025Day01.HitsRight` | aoc_2025/day_01/day_01.py:15-19 | n clicks to the right land on 0 once per multiple of 100 in dial+1 .. dial+n |
| `Aoc2025Day01.HitsLeft` | aoc_2025/day_01/day_01.py:15-19 | n clicks to the left land on 0 once per multiple of 100 in dial−n .. dial−1 |
| `Aoc2025Day01.ZeroStopsAtMostZeroClicks` | aoc_2025/day_01/day_01.py:1-20 | without empty rotations part two counts at least what part one counts |
| `Aoc2025Day01.EmptyRotationOnZero` | aoc_2025/day_01/day_01.py:1-20 | after any document that leaves the dial on 0, one more empty rotation adds one to part one and nothing to part two |
| `Aoc2025Day03.SeqMax` | aoc_2025/day_03/day_03.py:6 | `max` of a non-empty slice is one of its values and at least every value |
| `Aoc2025Day03.IndexOf` | aoc_2025/day_03/day_03.py:7 | `index` finds the first position holding the value |
| `Aoc2025Day03.Pick` | aoc_2025/day_03/day_03.py:6-7 | the leftmost of the largest digits of a window |
| `Aoc2025Day03.PickIsIndexOfMax` | aoc_2025/day_03/day_03.py:6-7 | the offset plus the `index` of the `max` of the slice is that leftmost largest digit |
| `Aoc2025Day03.Greedy` | aoc_2025/day_03/day_03.py:5-9 | the greedy choice takes exactly the number of digits asked for |
| `Aoc2025Day03.GreedyUnfold` | aoc_2025/day_03/day_03.py:5-8 | the greedy choice is the leftmost largest digit that leaves enough digits after it, then the greedy choice to its right |
| `Aoc2025Day03.FoldIsVal` | aoc_2025/day_03/day_03.py:8-9 | `(joltage + value) * 10` per round reads the chosen digits as a decimal number |
| `Aoc2025Day03.RoundsUnfold` | aoc_2025/day_03/day_03.py:5-8 | a round with digits still to pick adds the leftmost largest digit of its window and goes on just after it |
| `Aoc2025Day03.GreedyRoundStep` | aoc_2025/day_03/day_03.py:5-8 | one round and one greedy digit advance together: both take the same digit and continue from the same offset |
| `Aoc2025Day03.RoundsAreGreedy` | aoc_2025/day_03/day_03.py:5-9 | from a joltage of ten times acc, the remaining rounds accumulate the greedy digits onto acc |
| `Aoc2025Day03.RoundStep` | aoc_2025/day_03/day_03.py:5-8 | one round takes the `max` of the window and moves one past its first `index` |
| `Aoc2025Day03.RoundLast` | aoc_2025/day_03/day_03.py:9 | the last digit is `max(bank[offset:])`, which raises on an empty slice |
| `Aoc2025Day03.RoundsComputeJoltage` | aoc_2025/day_03/day_03.py:1-9 | the rounds compute the number the greedy choice reads, and raise exactly when the bank is shorter than the digits asked for |
| `Aoc2025Day03.GetLargestJoltage` | aoc_2025/day_03/day_03.py:1-9 | `get_largest_joltage` returns that joltage |
| `Aoc2025Day03.ValBound` | aoc_2025/day_03/day_03.py:8-9 | m decimal digits read as a number below 10^m |
| `Aoc2025Day03.LeadingDigitDecides` | aoc_2025/day_03/day_03.py:6-8 | among numbers with the same count of digits a larger leading digit wins, which is why the greedy round may take the largest first |
| `Aoc2025Day03.GreedyIsBest` | aoc_2025/day_03/day_03.py:1-9 | no in-order choice of the same number of batteries beats the greedy one |
| `Aoc2025Day03.GreedyIsChosen` | aoc_2025/day_03/day_03.py:1-9 | the greedy digits are themselves an in-order choice of batteries |
| `Aoc2025Day03.JoltageIsLargest` | aoc_2025/day_03/day_03.py:1-9 | the joltage found is at least the number any in-order choice of that many batteries reads |
| `Aoc2025Day03.TotalJoltage` | aoc_2025/day_03/day_03.py:12-17 | the sum over the banks succeeds exactly when every bank has at least as many batteries as asked for |
| `Aoc2025Day04.NeighbourStep` | aoc_2025/day_04/day_04.py:13-19 | each step of the offset loops adds the cell at that offset, 0 off the grid, and skips the roll's own cell |
| `Aoc2025Day04.NeighbourSumIsBlock` | aoc_2025/day_04/day_04.py:11-19 | the total is that of the three-by-three block around the roll less the roll's own cell, whatever the order of the loops |
| `Aoc2025Day04.AccessibleMeaning` | aoc_2025/day_04/day_04.py:10-20 | on a grid of rolls (1) and floor (0), a roll is accessible exactly when fewer than four of its eight neighbours are rolls |
| `Aoc2025Day04.AddColumn` | aoc_2025/day_04/day_04.py:14-19 | the inner loop adds the three offsets of one column to the running total |
| `Aoc2025Day04.IsAccessible` | aoc_2025/day_04/day_04.py:10-20 | `is_accessible` compares the neighbour total with 4 |
| `Aoc2025Day04.AccessibleInRowMeaning` | aoc_2025/day_04/day_04.py:26-30 | one row's pass lists exactly that row's accessible rolls, left to right |
| `Aoc2025Day04.AccessibleRollsMeaning` | aoc_2025/day_04/day_04.py:23-31 | `get_accessible_rolls` lists exactly the accessible rolls, each once, in reading order |
| `Aoc2025Day04.AccessibleRow` | aoc_2025/day_04/day_04.py:26-30 | the inner loop appends the accessible rolls of one row |
| `Aoc2025Day04.GetAccessibleRolls` | aoc_2025/day_04/day_04.py:23-31 | `get_accessible_rolls` returns the accessible rolls in reading order |
| `Aoc2025Day04.PartOne` | aoc_2025/day_04/day_04.py:34-35 | `part_one` counts the accessible rolls |
| `Aoc2025Day04.Cleared` | aoc_2025/day_04/day_04.py:42-43 | one round of part two keeps the grid's shape |
| `Aoc2025Day04.ClearedRolls` | aoc_2025/day_04/day_04.py:40-43 | a round of part two removes exactly as many rolls as it lists |
| `Aoc2025Day04.ZeroPoints` | aoc_2025/day_04/day_04.py:42-43 | the inner loop sets each listed point to 0 in place and leaves every other cell alone |
| `Aoc2025Day04.ClearListed` | aoc_2025/day_04/day_04.py:40-43 | one round leaves the grid with every accessible roll cleared |
| `Aoc2025Day04.Final` | aoc_2025/day_04/day_04.py:38-44 | the grid part two stops on is rectangular, with as many rows and columns as the grid it starts from |
| `Aoc2025Day04.RemovedMeaning` | aoc_2025/day_04/day_04.py:38-44 | part two's count is the number of rolls gone between the start and the grid it stops on, where no roll is accessible and every cell is as it was or cleared |
| `Aoc2025Day04.PartTwo` | aoc_2025/day_04/day_04.py:38-44 | `part_two` clears the grid in place, round by round, and returns the number of rolls removed |
| `Aoc2025Day05.IsFresh` | aoc_2025/day_05/day_05.py:6-7 | an id is fresh exactly when some range contains it, both ends included |
| `Aoc2025Day05.PartOne` | aoc_2025/day_05/day_05.py:10-11 | the count is at most the number of ingredients, 0 exactly when none is fresh and all of them exactly when every one is |
| `Aoc2025Day05.FreshWithinBounds` | aoc_2025/day_05/day_05.py:14-26 | every fresh id lies between the lowest start and the highest end, the window part two counts over |
| `Aoc2025Day05.Insert` | aoc_2025/day_05/day_05.py:15 | inserting into a sorted list keeps it sorted and adds exactly the one range |
| `Aoc2025Day05.SortRanges` | aoc_2025/day_05/day_05.py:15 | `sorted` returns the ranges in lexicographic order, as a permutation of the input |
| `Aoc2025Day05.SameElementsSameFresh` | aoc_2025/day_05/day_05.py:15 | sorting does not change which ids are fresh |
| `Aoc2025Day05.FreshAppend` | aoc_2025/day_05/day_05.py:19-24 | one more range adds exactly the ids it contains |
| `Aoc2025Day05.CountStep` | aoc_2025/day_05/day_05.py:20-24 | a range ending at or below the highest end so far adds no fresh id; one ending above it adds the ids above the old end (or from its own start when it starts past that end) |
| `Aoc2025Day05.PartTwoStep` | aoc_2025/day_05/day_05.py:19-24 | one iteration of the loop on the sorted list adds exactly the new fresh ids of range i |
| `Aoc2025Day05.Sweep` | aoc_2025/day_05/day_05.py:16-26 | the loop leaves as its end the end of one of the ranges, on well-formed ranges the highest end of all, and the count equals the number of fresh ids from the lowest start up to that end |
| `Aoc2025Day05.SweepStep` | aoc_2025/day_05/day_05.py:20-24 | one iteration keeps the loop's state: the end still belongs to one of the ranges seen, is the highest of their ends, and the count still equals the fresh ids up to it |
| `Aoc2025Day05.PartTwoDone` | aoc_2025/day_05/day_05.py:14-26 | after the loop, the count over the sorted list's window is the number of distinct fresh ids of the input |
| `Aoc2025Day05.PartTwo` | aoc_2025/day_05/day_05.py:14-26 | `part_two` fails exactly on an empty list, and on well-formed ranges returns the number of distinct fresh ids |
| `Aoc2025Day05.UnionIgnoresContained` | aoc_2025/day_05/day_05.py:20-21 | a range whose ids are all fresh already adds nothing, whatever the order of the list |
| `Aoc2025Day10.XorBits` | aoc_2025/day_10/day_10.py:17 | a press flips exactly the lights the button's mask has set |
| `Aoc2025Day10.XorTwice` | aoc_2025/day_10/day_10.py:17 | pressing the same button twice leaves the lights as they were |
| `Aoc2025Day10.XorBelow` | aoc_2025/day_10/day_10.py:17 | presses never reach a light outside the machine's masks, so the states the search visits are finitely many |
| `Aoc2025Day10.LightBits` | aoc_2025/day_10/day_10.py:48-49 | reversing the pattern before reading it in base two makes light i, counted from the left, bit i of the mask |
| `Aoc2025Day10.PossibleStates` | aoc_2025/day_10/day_10.py:15-17 | one possible state per button, and each leads back to the current one with the same button |
| `Aoc2025Day10.FewestUnique` | aoc_2025/day_10/day_10.py:20-32 | the fewest number of presses, or -1 when no presses light the pattern, is unique |
| `Aoc2025Day10.FewestOfWalk` | aoc_2025/day_10/day_10.py:20-32 | the fewest presses of the search's step function are the fewest presses of the machine's buttons |
| `Aoc2025Day10.SearchStarts` | aoc_2025/day_10/day_10.py:21-22 | the search invariant holds for the queue `[(0, 0)]` and the visited set `{0}` |
| `Aoc2025Day10.FoundFewest` | aoc_2025/day_10/day_10.py:25-27 | the first time the pattern comes off the queue, its depth is the fewest number of presses |
| `Aoc2025Day10.SearchExhausted` | aoc_2025/day_10/day_10.py:24-32 | when the queue runs dry no presses light the pattern, so -1 is right |
| `Aoc2025Day10.Visit` | aoc_2025/day_10/day_10.py:29-31 | the state button j leads to (the state xor the button) is added to the visited set and appended to the queue one press further when it was not yet visited; otherwise both are unchanged |
| `Aoc2025Day10.Expand` | aoc_2025/day_10/day_10.py:28-31 | after the loop over the possible states the current state is processed and the search invariant still holds |
| `Aoc2025Day10.Advance` | aoc_2025/day_10/day_10.py:25-31 | a turn of the `while` loop keeps the search invariant and either grows the visited set or shortens the queue, so the search ends |
| `Aoc2025Day10.GetFewerPresses` | aoc_2025/day_10/day_10.py:20-32 | `get_fewer_presses` returns the fewest presses that light the pattern, or -1 when no presses do |
| `Aoc2025Day10.PartOne` | aoc_2025/day_10/day_10.py:35-36 | `part_one` is the sum over the machines of their fewest presses (-1 for an unreachable pattern) |

## Left out

- Reading the puzzle input: every `parse_input`/`get_input` that reads a file, and every `main` that prints. The models take the parsed values as parameters. The parsing that is part of the puzzle logic is modelled: the 2016 day 7 address split, the 2018 day 7 dependency dictionary, the 2024 day 9 disk maps and the 2025 day 10 light pattern.
- The answers the test suites expect on their example inputs: the example input files are not part of this model.
- Fixed-width integers: every integer is unbounded. No input reaches the overflow of the Rust sources' `i16`, `i32`, `i64`, `u64` and `usize` values, so its panic or wrap-around is not modelled.
- Aoc2024Day09.HighestFileId: file ids are unbounded here, where the source stores them as `u16` and would overflow beyond 65 535 files.
- Aoc2024Day15.GetNewPoint: coordinates are unbounded integers. The source's `usize` subtraction would underflow at column or row 0, which a map surrounded by walls never reaches.
- Aoc2024Day07.IsSolvable: with concatenation allowed, the values must be non-negative. The source panics when it concatenates a negative value, and that panic is not modelled.
- Aoc2016Day12.Exec, Aoc2016Day23.Exec, Aoc2016Day25.RunOutcome, Aoc2016Day10.Run, Aoc2018Day07.Run, Aoc2019Day05.Exec, Aoc2024Day06.Visited: these loops may run forever in the source. They take a `fuel` bound on the number of steps, and running out of fuel is reported as its own outcome. What a run does beyond that bound is not modelled.
- Aoc2018Day07.PartOne: returns None when no step is ready, where the source would loop forever.
- Aoc2018Day13.PartOne: states only that a reported crash square is shared by two of the carts. That it is the first crash of the ticks is stated by `SimulateStep` for each tick, not for the whole loop.
- Aoc2018Day13.PartTwo: states only that the reported square is that of one of the carts. That it is the last survivor is stated by `SimulateStepWithRemoval` for each tick, not for the whole loop.
- Aoc2018Day13: the answer strings `"x,y"` and the timeout messages are outcome constructors here. The in-place `sort` of the carts is modelled as a permutation of indices that orders the carts by position.
- Aoc2016Day20.PartOne: that the answer is allowed and follows a blocked run from the least start is stated only for ranges whose start is at most their end. For reversed ranges the contract says only that the answer lies past the end of the range with the least start. The input never holds a reversed range.
- Aoc2016Day20.PartTwo: the count of allowed addresses is stated only for ranges whose start is at most their end and whose end is at most 4294967295. For other ranges the contract gives only the span from the first chunk minus the lengths of the merged chunks.
- Aoc2025Day05.PartTwo: the count is stated only for ranges whose start is at most their end. The input never holds a reversed range.
- Aoc2024Day05.SortBy: an insertion sort stands for Rust's stable `sorted_by` (aoc_2024/src/day_05/mod.rs:83). The two agree when `custom_compare` is a total order on the update's pages. Otherwise Rust's order is unspecified and may differ from the model's.
- Aoc2016Day09.IsDigit: only '0' to '9' are digits. Python's `\d` also matches the other Unicode decimal digits, which the puzzle input never holds.
- Aoc2016Day21: each scrambling operation returns the new password instead of changing the deque in place.
- Aoc2016Day10: the bots and outputs are values in a dictionary of the factory object, not separate objects. The chip count is proved to be kept by each turn, not stated for a whole run.
- Aoc2024Day04: grids are rectangular and non-empty, as the source's use of the first row's length assumes.
- Aoc2024Day06.Step: the grid is assumed rectangular (`Rectangular`). The source bounds the guard by the first row's length (aoc_2024/src/day_06/mod.rs:58), so on a later row shorter than the first it panics indexing past that row (aoc_2024/src/day_06/mod.rs:61). That panic is not modelled.
- Aoc2024Day08.PartTwo: every antenna is assumed on the grid (`WellPlaced`). `get_input` takes the width from the first line only (aoc_2024/src/day_08/mod.rs:112), so an antenna on a longer later line lies past that width. `trace_line` accepts such a start without panicking (aoc_2024/src/day_08/mod.rs:41-70), but that input is not modelled.
- Aoc2025Day04: the grid is an `array2`, so every row has the first row's length. The source bounds x by `len(rolls[0])` (aoc_2025/day_04/day_04.py:18) and raises IndexError on a shorter row (aoc_2025/day_04/day_04.py:19). That error is not modelled.
- `part_two` of 2016 day 8: it renders the screen as text, which is not modelled.
- `part_two` of 2024 day 14: it draws frames on the terminal and returns a constant.
- `part_two` of 2024 day 6 and of 2025 day 10 have empty bodies in the source. The buttons and joltages of the 2025 day 10 input lines are parsed by the left-out reader.
- Hash-set and dictionary iteration order: sums and counts over Rust `HashSet`/`HashMap` and Python dicts are modelled as sums over sets and multisets, which do not depend on that order.

## Findings

| source | as written | input that shows it | evidently intended | confidence | as-written member | corrected member |
|---|---|---|---|---|---|---|
| aoc_2016/day_01/day_01.py:51 | part one returns the signed sum `y + x` of the end point | the walk "L3" ends three blocks away at x = -3 and reports -3 | the blocks distance \|y\| + \|x\| | not executed | `Aoc2016Day01.SignedSumLeft` | `Aoc2016Day01.BlocksAway` |
| aoc_2016/day_20/day_20.py:37-38 | part one returns one past the end of the first merged chunk | the blacklist 5-8 gives 9, although address 0 is allowed | 0 when the first chunk starts above 0 | not executed | `Aoc2016Day20.PartOneMissesLowAddresses` | `Aoc2016Day20.LowestAllowed` |
| aoc_2016/day_25/day_25.py:103-119 | the signature `(ip, a, b, c, d)` leaves out the last output | `out a; jnz 1 -1` with a = 0 prints 0 twice and stops, yet `run` reports a clock signal | the last output is part of the recorded state | not executed | `Aoc2016Day25.SignatureMissesLastOutput` | `Aoc2016Day25.ClockRunSound` |
| aoc_2018/day_14/day_14.py:38-61 | the tail is compared only after an appended score, so the two starting scores are never searched | recipes number 37: its digits appear at index 0 | the search also covers the starting board | not executed | `Aoc2018Day14.StartingScoresMissed` | `Aoc2018Day14.SearchStart` |
| aoc_2024/src/day_06/mod.rs:57-66 | the right edge test compares the column with the row length | a guard in the last column facing right indexes past the end of its row | the walk ends at the right edge as at the other three | not executed | `Aoc2024Day06.RightEdgeOutOfRange` | `Aoc2024Day06.StepMeaning` |
| aoc_2024/src/day_11/mod.rs:48 | the initial stones are collected into a map with count 1 each, so a repeated value counts once | the stones `0 0` blink into two stones, counted as one | every stone counted, repeats included | not executed | `Aoc2024Day11.RepeatedStoneIgnored` | `Aoc2024Day11.CountStonesAdds` |
