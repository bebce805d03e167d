/** Bathroom security (2016, day 2): a finger starts on the "5" key of a
    keypad and follows one line of U/D/L/R moves per code character,
    ignoring any move that would leave the keypad; the key under the finger
    at the end of each line is the next character of the code. */
module Aoc2016Day02 {
  import opened Common

  /** A keypad: rows of keys, None where the grid has no key. */
  type Keypad = seq<seq<Option<char>>>

  datatype Pos = Pos(y: int, x: int)

  /** Every row as long as the first, and at least one row. */
  predicate Rectangular(keypad: Keypad)
  {
    |keypad| > 0 && forall y :: 0 <= y < |keypad| ==> |keypad[y]| == |keypad[0]|
  }

  const Keypad1: Keypad := [
    [Some('1'), Some('2'), Some('3')],
    [Some('4'), Some('5'), Some('6')],
    [Some('7'), Some('8'), Some('9')]
  ]

  const Keypad2: Keypad := [
    [None, None, Some('1'), None, None],
    [None, Some('2'), Some('3'), Some('4'), None],
    [Some('5'), Some('6'), Some('7'), Some('8'), Some('9')],
    [None, Some('A'), Some('B'), Some('C'), None],
    [None, None, Some('D'), None, None]
  ]

  /** `get_value`: the key at (y, x), None off the grid or on a gap. */
  function GetValue(keypad: Keypad, p: Pos): (r: Option<char>)
    requires Rectangular(keypad)
    ensures r.Some? ==> 0 <= p.y < |keypad| && 0 <= p.x < |keypad[p.y]|
  {
    if 0 <= p.y < |keypad| && 0 <= p.x < |keypad[0]| then keypad[p.y][p.x] else None
  }

  predicate OnKey(keypad: Keypad, p: Pos)
    requires Rectangular(keypad)
  {
    GetValue(keypad, p).Some?
  }

  /** `DIRECTIONS[char]` as (dy, dx); None where the dictionary raises
      KeyError. */
  function Delta(c: char): Option<(int, int)>
  {
    if c == 'U' then Some((-1, 0))
    else if c == 'D' then Some((1, 0))
    else if c == 'L' then Some((0, -1))
    else if c == 'R' then Some((0, 1))
    else None
  }

  /** One move: taken only when it lands on a key. */
  function Step(keypad: Keypad, p: Pos, c: char): (r: Option<Pos>)
    requires Rectangular(keypad) && OnKey(keypad, p)
    ensures r.Some? <==> Delta(c).Some?
    ensures r.Some? ==> OnKey(keypad, r.value)
  {
    match Delta(c)
    case None => None
    case Some((dy, dx)) =>
      var q := Pos(p.y + dy, p.x + dx);
      if GetValue(keypad, q).Some? then Some(q) else Some(p)
  }

  /** The finger after the moves of a line. */
  function FollowLine(keypad: Keypad, p: Pos, line: string): (r: Option<Pos>)
    requires Rectangular(keypad) && OnKey(keypad, p)
    ensures r.Some? ==> OnKey(keypad, r.value)
  {
    if line == [] then Some(p)
    else
      match FollowLine(keypad, p, line[..|line| - 1])
      case None => None
      case Some(q) => Step(keypad, q, line[|line| - 1])
  }

  /** The characters `str.strip` removes: those Python's `str.isspace`
      accepts. */
  predicate IsSpace(c: char)
  {
    '\t' <= c <= '\r' || '\U{001C}' <= c <= ' ' || c == '\U{0085}' || c == '\U{00A0}' || c == '\U{1680}'
    || '\U{2000}' <= c <= '\U{200A}' || c == '\U{2028}' || c == '\U{2029}' || c == '\U{202F}'
    || c == '\U{205F}' || c == '\U{3000}'
  }

  function StripLeft(s: string): (r: string)
    ensures |r| <= |s| && r == s[|s| - |r|..]
    ensures r == [] || !IsSpace(r[0])
  {
    if s != [] && IsSpace(s[0]) then StripLeft(s[1..]) else s
  }

  function StripRight(s: string): (r: string)
    ensures |r| <= |s| && r == s[..|r|]
    ensures r == [] || !IsSpace(r[|r| - 1])
  {
    if s != [] && IsSpace(s[|s| - 1]) then StripRight(s[..|s| - 1]) else s
  }

  /** `line.strip()`. */
  function Strip(s: string): string
  {
    StripRight(StripLeft(s))
  }

  datatype Typed = Typed(code: string, finger: Pos)

  /** The code typed for the lines so far and where the finger is. */
  function Code(keypad: Keypad, lines: seq<string>, start: Pos): (r: Option<Typed>)
    requires Rectangular(keypad) && OnKey(keypad, start)
    ensures r.Some? ==> OnKey(keypad, r.value.finger) && |r.value.code| == |lines|
  {
    if lines == [] then Some(Typed("", start))
    else
      match Code(keypad, lines[..|lines| - 1], start)
      case None => None
      case Some(t) =>
        match FollowLine(keypad, t.finger, Strip(lines[|lines| - 1]))
        case None => None
        case Some(q) => Some(Typed(t.code + [GetValue(keypad, q).value], q))
  }

  /** The code character for each line is the key the finger rests on. */
  lemma {:induction false} CodeIsKeys(keypad: Keypad, lines: seq<string>, start: Pos, i: nat)
    requires Rectangular(keypad) && OnKey(keypad, start)
    requires Code(keypad, lines, start).Some? && i < |lines|
    ensures exists y, x :: 0 <= y < |keypad| && 0 <= x < |keypad[y]| && keypad[y][x] == Some(Code(keypad, lines, start).value.code[i])
  {
    var init := lines[..|lines| - 1];
    var t := Code(keypad, init, start).value;
    var q := FollowLine(keypad, t.finger, Strip(lines[|lines| - 1])).value;
    if i < |lines| - 1 {
      CodeIsKeys(keypad, init, start, i);
      assert Code(keypad, lines, start).value.code[i] == t.code[i];
    } else {
      assert keypad[q.y][q.x] == Some(Code(keypad, lines, start).value.code[i]);
    }
  }

  /** `get_code`: one code character per line, after following its moves;
      None where a character is not a move and the source raises KeyError. */
  method GetCode(keypad: Keypad, instructions: seq<string>, y0: int, x0: int) returns (r: Option<string>)
    requires Rectangular(keypad) && OnKey(keypad, Pos(y0, x0))
    ensures r.Some? <==> Code(keypad, instructions, Pos(y0, x0)).Some?
    ensures r.Some? ==> r.value == Code(keypad, instructions, Pos(y0, x0)).value.code
  {
    var code := "";
    var y, x := y0, x0;
    for i := 0 to |instructions|
      invariant Code(keypad, instructions[..i], Pos(y0, x0)) == Some(Typed(code, Pos(y, x)))
    {
      assert instructions[..i + 1][..i] == instructions[..i];
      var ok;
      ok, y, x := FollowMoves(keypad, Strip(instructions[i]), y, x);
      if !ok {
        CodeFails(keypad, instructions, Pos(y0, x0), i);
        return None;
      }
      code := code + [keypad[y][x].value];
    }
    assert instructions[..|instructions|] == instructions;
    return Some(code);
  }

  /** The inner loop of `get_code`: the moves of one stripped line; `ok` is
      false where a character is not a move. */
  method FollowMoves(keypad: Keypad, line: string, y0: int, x0: int) returns (ok: bool, y: int, x: int)
    requires Rectangular(keypad) && OnKey(keypad, Pos(y0, x0))
    ensures ok <==> FollowLine(keypad, Pos(y0, x0), line).Some?
    ensures ok ==> FollowLine(keypad, Pos(y0, x0), line) == Some(Pos(y, x))
  {
    y, x := y0, x0;
    for k := 0 to |line|
      invariant FollowLine(keypad, Pos(y0, x0), line[..k]) == Some(Pos(y, x))
    {
      assert line[..k + 1][..k] == line[..k];
      var delta := Delta(line[k]);
      if delta.None? {
        NoMoveFails(keypad, Pos(y0, x0), line, k);
        return false, y, x;
      }
      var (dy, dx) := delta.value;
      var newY, newX := y + dy, x + dx;
      if GetValue(keypad, Pos(newY, newX)).Some? {
        y, x := newY, newX;
      }
    }
    assert line[..|line|] == line;
    ok := true;
  }

  /** A character that is not a move makes the whole line fail. */
  lemma {:induction false} NoMoveFails(keypad: Keypad, p: Pos, line: string, k: nat)
    requires Rectangular(keypad) && OnKey(keypad, p)
    requires k < |line| && Delta(line[k]).None? && FollowLine(keypad, p, line[..k]).Some?
    ensures FollowLine(keypad, p, line).None?
    decreases |line|
  {
    if k < |line| - 1 {
      assert line[..|line| - 1][..k] == line[..k];
      NoMoveFails(keypad, p, line[..|line| - 1], k);
    } else {
      assert line[..|line| - 1] == line[..k];
    }
  }

  /** A failing line makes the whole code fail. */
  lemma {:induction false} CodeFails(keypad: Keypad, lines: seq<string>, start: Pos, i: nat)
    requires Rectangular(keypad) && OnKey(keypad, start) && i < |lines|
    requires Code(keypad, lines[..i], start).Some?
    requires FollowLine(keypad, Code(keypad, lines[..i], start).value.finger, Strip(lines[i])).None?
    ensures Code(keypad, lines, start).None?
    decreases |lines|
  {
    var init := lines[..|lines| - 1];
    if i < |lines| - 1 {
      assert init[..i] == lines[..i] && init[i] == lines[i];
      CodeFails(keypad, init, start, i);
    } else {
      assert init == lines[..i];
    }
  }

  /** Both keypads start on "5". */
  lemma StartOnFive()
    ensures Rectangular(Keypad1) && GetValue(Keypad1, Pos(1, 1)) == Some('5')
    ensures Rectangular(Keypad2) && GetValue(Keypad2, Pos(2, 0)) == Some('5')
  {
  }

  function Clamp(v: int): int
  {
    if v < 0 then 0 else if v > 2 then 2 else v
  }

  /** On the square keypad of part one a move is a step clamped to the
      3 x 3 grid. */
  lemma SquareKeypadClamps(p: Pos, c: char)
    requires 0 <= p.y < 3 && 0 <= p.x < 3 && Delta(c).Some?
    ensures Rectangular(Keypad1) && OnKey(Keypad1, p)
    ensures Step(Keypad1, p, c) == Some(Pos(Clamp(p.y + Delta(c).value.0), Clamp(p.x + Delta(c).value.1)))
  {
  }

  /** `part_one`. */
  method PartOne(instructions: seq<string>) returns (r: Option<string>)
    ensures r.Some? <==> Code(Keypad1, instructions, Pos(1, 1)).Some?
    ensures r.Some? ==> r.value == Code(Keypad1, instructions, Pos(1, 1)).value.code
  {
    StartOnFive();
    r := GetCode(Keypad1, instructions, 1, 1);
  }

  /** `part_two`. */
  method PartTwo(instructions: seq<string>) returns (r: Option<string>)
    ensures r.Some? <==> Code(Keypad2, instructions, Pos(2, 0)).Some?
    ensures r.Some? ==> r.value == Code(Keypad2, instructions, Pos(2, 0)).value.code
  {
    StartOnFive();
    r := GetCode(Keypad2, instructions, 2, 0);
  }
}
