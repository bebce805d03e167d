/** The extended Intcode machine (2019, day 5): parameter modes, input and
    output, conditional jumps and comparisons. The run returns the last
    value output. */
module Aoc2019Day05 {
  import opened Common
  import opened Intcode

  /** `get_value`: the parameter cell itself in immediate mode 1, the cell
      it points to in every other mode. */
  function GetValue(mem: seq<int>, mode: int, parameter: int): (r: Option<int>)
    ensures mode == 1 ==> r == Read(mem, parameter)
    ensures mode != 1 && Read(mem, parameter).Some? ==> r == Read(mem, Read(mem, parameter).value)
    ensures Read(mem, parameter).None? ==> r.None?
  {
    match Read(mem, parameter)
    case None => None
    case Some(val) => if mode == 1 then Some(val) else Read(mem, val)
  }

  /** The decoding of an instruction value: two opcode digits, then one
      mode digit per parameter (Python floor division, which agrees with
      Dafny's for a positive divisor). */
  function Opcode(value: int): int { value % 100 }
  function ModeA(value: int): int { value / 100 % 10 }
  function ModeB(value: int): int { value / 1000 % 10 }

  /** The decoding loses nothing: the digits rebuild the value. */
  lemma DecodeDigits(value: int)
    ensures 0 <= Opcode(value) < 100 && 0 <= ModeA(value) < 10 && 0 <= ModeB(value) < 10
    ensures value == Opcode(value) + 100 * ModeA(value) + 1000 * ModeB(value) + 10000 * (value / 10000)
  {
    var q1 := value / 100;
    assert value == 100 * q1 + value % 100;
    var q2 := q1 / 10;
    assert q1 == 10 * q2 + q1 % 10;
    assert value / 1000 == q2 by {
      assert value == 1000 * q2 + (100 * (q1 % 10) + value % 100);
      assert 0 <= 100 * (q1 % 10) + value % 100 < 1000;
    }
    var q3 := q2 / 10;
    assert q2 == 10 * q3 + q2 % 10;
    assert value / 10000 == q3 by {
      assert value == 10000 * q3 + (1000 * (q2 % 10) + 100 * (q1 % 10) + value % 100);
      assert 0 <= 1000 * (q2 % 10) + 100 * (q1 % 10) + value % 100 < 10000;
    }
  }

  /** The machine: memory, instruction pointer, the input list (popped from
      its end) and the outputs so far. */
  datatype Machine = Machine(mem: seq<int>, ip: int, input: seq<int>, output: seq<int>)

  datatype StepResult = Halt | Next(m: Machine) | Fail(error: Error)

  /** `intcode[intcode[ip + 3]] = v` as a step result. */
  function Store(m: Machine, at: int, v: int, advance: int): StepResult
  {
    match Read(m.mem, at)
    case None => Fail(IndexError)
    case Some(target) =>
      match Write(m.mem, target, v)
      case None => Fail(IndexError)
      case Some(mem') => Next(m.(mem := mem', ip := m.ip + advance))
  }

  /** The value opcodes 1 (add), 2 (multiply), 7 (less than) and 8
      (equals) compute from their two parameters. */
  function Combine(op: int, a: int, b: int): int
  {
    if op == 1 then a + b else if op == 2 then a * b
    else if (if op == 7 then a < b else a == b) then 1 else 0
  }

  /** Opcodes 1, 2, 7 and 8: combine two parameters, store the result
      at the address in the third, advance 4. */
  function ExecBinary(m: Machine, value: int): (r: StepResult)
    requires Opcode(value) in {1, 2, 7, 8}
    ensures r.Next? || r == Fail(IndexError)
    ensures r.Next? ==>
      var op := Opcode(value);
      var a := GetValue(m.mem, ModeA(value), m.ip + 1);
      var b := GetValue(m.mem, ModeB(value), m.ip + 2);
      var target := Read(m.mem, m.ip + 3);
      a.Some? && b.Some? && target.Some? &&
      |r.m.mem| == |m.mem| && r.m.ip == m.ip + 4 && r.m.input == m.input && r.m.output == m.output &&
      var written := Read(r.m.mem, target.value);
      written.Some? &&
      (op == 1 ==> written.value == a.value + b.value) &&
      (op == 2 ==> written.value == a.value * b.value) &&
      (op == 7 ==> written.value in {0, 1} && (written.value == 1 <==> a.value < b.value)) &&
      (op == 8 ==> written.value in {0, 1} && (written.value == 1 <==> a.value == b.value))
  {
    var op := Opcode(value);
    match (GetValue(m.mem, ModeA(value), m.ip + 1), GetValue(m.mem, ModeB(value), m.ip + 2))
    case (Some(a), Some(b)) => Store(m, m.ip + 3, Combine(op, a, b), 4)
    case _ => Fail(IndexError)
  }

  /** Opcode 3: pop the last input into the address in the parameter. */
  function ExecInput(m: Machine): (r: StepResult)
    ensures r.Next? || r == Fail(IndexError)
    ensures r.Fail? <==> |m.input| == 0 || Read(m.mem, m.ip + 1).None? ||
                         Read(m.mem, Read(m.mem, m.ip + 1).value).None?
    ensures r.Next? ==>
      r.m.ip == m.ip + 2 && r.m.input == m.input[..|m.input| - 1] && r.m.output == m.output &&
      Some(r.m.mem) == Write(m.mem, Read(m.mem, m.ip + 1).value, m.input[|m.input| - 1])
  {
    match Read(m.mem, m.ip + 1)
    case None => Fail(IndexError)
    case Some(posA) =>
      if |m.input| == 0 then Fail(IndexError)
      else
        match Write(m.mem, posA, m.input[|m.input| - 1])
        case None => Fail(IndexError)
        case Some(mem') => Next(m.(mem := mem', ip := m.ip + 2, input := m.input[..|m.input| - 1]))
  }

  /** Opcode 4: append the parameter's value to the outputs. */
  function ExecOutput(m: Machine, modeA: int): (r: StepResult)
    ensures r.Next? || r == Fail(IndexError)
    ensures r.Next? <==> GetValue(m.mem, modeA, m.ip + 1).Some?
    ensures r.Next? ==>
      r.m == m.(ip := m.ip + 2, output := m.output + [GetValue(m.mem, modeA, m.ip + 1).value])
  {
    match GetValue(m.mem, modeA, m.ip + 1)
    case None => Fail(IndexError)
    case Some(a) => Next(m.(ip := m.ip + 2, output := m.output + [a]))
  }

  /** Opcodes 5 (jump if true) and 6 (jump if false). */
  function ExecJump(m: Machine, value: int): (r: StepResult)
    requires Opcode(value) in {5, 6}
    ensures r.Next? || r == Fail(IndexError)
    ensures r.Next? ==>
      var cond := GetValue(m.mem, ModeA(value), m.ip + 1);
      cond.Some? && r.m.mem == m.mem && r.m.input == m.input && r.m.output == m.output &&
      ((Opcode(value) == 5) == (cond.value != 0) ==> Some(r.m.ip) == GetValue(m.mem, ModeB(value), m.ip + 2)) &&
      ((Opcode(value) == 5) != (cond.value != 0) ==> r.m.ip == m.ip + 3)
  {
    match GetValue(m.mem, ModeA(value), m.ip + 1)
    case None => Fail(IndexError)
    case Some(a) =>
      if (Opcode(value) == 5) == (a != 0) then
        match GetValue(m.mem, ModeB(value), m.ip + 2)
        case None => Fail(IndexError)
        case Some(b) => Next(m.(ip := b))
      else Next(m.(ip := m.ip + 3))
  }

  /** One pass of the `process` loop body. */
  function Step(m: Machine): (r: StepResult)
    ensures Read(m.mem, m.ip).None? ==> r == Fail(IndexError)
    ensures Read(m.mem, m.ip).Some? ==>
      var op := Opcode(Read(m.mem, m.ip).value);
      (op == 99 <==> r.Halt?) &&
      (op !in {1, 2, 3, 4, 5, 6, 7, 8, 99} <==> r == Fail(ValueError))
    ensures r.Next? ==> |r.m.mem| == |m.mem|
  {
    match Read(m.mem, m.ip)
    case None => Fail(IndexError)
    case Some(value) =>
      var op := Opcode(value);
      if op in {1, 2, 7, 8} then ExecBinary(m, value)
      else if op == 3 then ExecInput(m)
      else if op == 4 then ExecOutput(m, ModeA(value))
      else if op in {5, 6} then ExecJump(m, value)
      else if op == 99 then Halt
      else Fail(ValueError)
  }

  datatype Outcome = Halted(m: Machine) | Failed(error: Error) | OutOfFuel

  /** The `process` loop for at most `fuel` steps (jumps can loop forever). */
  function Exec(m: Machine, fuel: nat): (r: Outcome)
    ensures r.Halted? ==> Step(r.m).Halt? && |r.m.mem| == |m.mem|
    decreases fuel
  {
    match Step(m)
    case Halt => Halted(m)
    case Fail(e) => Failed(e)
    case Next(m') => if fuel == 0 then OutOfFuel else Exec(m', fuel - 1)
  }

  /** `process(intcode, input)`: the last output of a halted run; an empty
      output list makes `process_output[-1]` raise IndexError. */
  function Process(mem: seq<int>, input: seq<int>, fuel: nat): (r: Result)
    ensures r.Value? ==> var o := Exec(Machine(mem, 0, input, []), fuel);
      o.Halted? && |o.m.output| > 0 && r.value == o.m.output[|o.m.output| - 1]
    ensures r.Error? ==> var o := Exec(Machine(mem, 0, input, []), fuel);
      o.Failed? || (o.Halted? && o.m.output == [])
  {
    match Exec(Machine(mem, 0, input, []), fuel)
    case Halted(m) => if |m.output| == 0 then Error(IndexError) else Value(m.output[|m.output| - 1])
    case Failed(e) => Error(e)
    case OutOfFuel => NotFinished
  }

  datatype Result = Value(value: int) | Error(error: Error) | NotFinished

  /** How one pass of the loop body ended, the memory being the array. */
  datatype Status = Go(ip: int, input: seq<int>, output: seq<int>) | Stop | Crash(error: Error)

  /** Whether `status` and the array's contents are the step result `r`. */
  ghost predicate Agrees(status: Status, mem: seq<int>, r: StepResult)
  {
    match status
    case Go(ip, input, output) => r == Next(Machine(mem, ip, input, output))
    case Stop => r == Halt
    case Crash(e) => r == Fail(e)
  }

  method BinaryInPlace(intcode: array<int>, ip: int, value: int) returns (ok: bool)
    requires Opcode(value) in {1, 2, 7, 8}
    modifies intcode
    ensures forall input, output :: var r := ExecBinary(Machine(old(intcode[..]), ip, input, output), value);
      (ok <==> r.Next?) && (ok ==> r.m == Machine(intcode[..], ip + 4, input, output))
  {
    var op := Opcode(value);
    var posA := GetValue(intcode[..], ModeA(value), ip + 1);
    var posB := GetValue(intcode[..], ModeB(value), ip + 2);
    if posA.None? || posB.None? {
      return false;
    }
    var outputAt := PyIndex(intcode.Length, ip + 3);
    if outputAt.None? {
      return false;
    }
    var output := PyIndex(intcode.Length, intcode[outputAt.value]);
    if output.None? {
      return false;
    }
    ghost var before := intcode[..];
    intcode[output.value] := Combine(op, posA.value, posB.value);
    assert intcode[..] == before[output.value := Combine(op, posA.value, posB.value)];
    return true;
  }

  method InputInPlace(intcode: array<int>, ip: int, input: seq<int>) returns (ok: bool)
    modifies intcode
    ensures forall output :: var r := ExecInput(Machine(old(intcode[..]), ip, input, output));
      (ok <==> r.Next?) && (ok ==> r.m == Machine(intcode[..], ip + 2, input[..|input| - 1], output))
  {
    var posAAt := PyIndex(intcode.Length, ip + 1);
    if posAAt.None? || |input| == 0 {
      return false;
    }
    var posA := PyIndex(intcode.Length, intcode[posAAt.value]);
    if posA.None? {
      return false;
    }
    intcode[posA.value] := input[|input| - 1];
    return true;
  }

  /** One pass of the loop body on the array. */
  method StepInPlace(intcode: array<int>, ip: int, input: seq<int>, output: seq<int>) returns (status: Status)
    modifies intcode
    ensures Agrees(status, intcode[..], Step(Machine(old(intcode[..]), ip, input, output)))
  {
    var at := PyIndex(intcode.Length, ip);
    if at.None? {
      return Crash(IndexError);
    }
    var value := intcode[at.value];
    var modeA, modeB, op := ModeA(value), ModeB(value), Opcode(value);
    if op in {1, 2, 7, 8} {
      var ok := BinaryInPlace(intcode, ip, value);
      return if ok then Go(ip + 4, input, output) else Crash(IndexError);
    } else if op == 3 {
      var ok := InputInPlace(intcode, ip, input);
      return if ok then Go(ip + 2, input[..|input| - 1], output) else Crash(IndexError);
    } else if op == 4 {
      var posA := GetValue(intcode[..], modeA, ip + 1);
      if posA.None? {
        return Crash(IndexError);
      }
      return Go(ip + 2, input, output + [posA.value]);
    } else if op in {5, 6} {
      status := JumpStatus(intcode[..], ip, value, input, output);
      return;
    } else if op == 99 {
      return Stop;
    }
    return Crash(ValueError);
  }

  /** Opcodes 5 and 6 in the loop body: read the condition, then jump to
      the second parameter's value or move on by three. */
  method JumpStatus(mem: seq<int>, ip: int, value: int, input: seq<int>, output: seq<int>) returns (status: Status)
    requires Opcode(value) in {5, 6}
    ensures Agrees(status, mem, ExecJump(Machine(mem, ip, input, output), value))
  {
    var op := Opcode(value);
    var posA := GetValue(mem, ModeA(value), ip + 1);
    if posA.None? {
      return Crash(IndexError);
    }
    if (op == 5) == (posA.value != 0) {
      var target := GetValue(mem, ModeB(value), ip + 2);
      if target.None? {
        return Crash(IndexError);
      }
      return Go(target.value, input, output);
    }
    return Go(ip + 3, input, output);
  }

  /** `process`, writing into the memory array in place. */
  method ProcessInPlace(intcode: array<int>, processInput: seq<int>, fuel: nat) returns (r: Result)
    modifies intcode
    ensures r == Process(old(intcode[..]), processInput, fuel)
  {
    var instructionPtr := 0;
    var input := processInput;
    var processOutput: seq<int> := [];
    var left := fuel;
    while true
      invariant Exec(Machine(intcode[..], instructionPtr, input, processOutput), left)
             == Exec(Machine(old(intcode[..]), 0, processInput, []), fuel)
      decreases left
    {
      var status := StepInPlace(intcode, instructionPtr, input, processOutput);
      match status {
        case Stop =>
          if |processOutput| == 0 {
            return Error(IndexError);
          }
          return Value(processOutput[|processOutput| - 1]);
        case Crash(e) =>
          return Error(e);
        case Go(ip, inp, out) =>
          if left == 0 {
            return NotFinished;
          }
          instructionPtr, input, processOutput := ip, inp, out;
          left := left - 1;
      }
    }
  }

  /** `part_one`: input [1]. */
  method PartOne(intcode: array<int>, fuel: nat) returns (r: Result)
    modifies intcode
    ensures r == Process(old(intcode[..]), [1], fuel)
  {
    r := ProcessInPlace(intcode, [1], fuel);
  }

  /** `part_two`: input [5]. */
  method PartTwo(intcode: array<int>, fuel: nat) returns (r: Result)
    modifies intcode
    ensures r == Process(old(intcode[..]), [5], fuel)
  {
    r := ProcessInPlace(intcode, [5], fuel);
  }
}
