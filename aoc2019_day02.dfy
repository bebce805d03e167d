/** The first Intcode machine (2019, day 2): opcodes 1 (add), 2 (multiply)
    and 99 (halt) in four-cell instructions, run in place on the memory. */
module Aoc2019Day02 {
  import opened Common
  import opened Intcode

  /** What one instruction at `ip` does. */
  datatype StepResult = Halt | Continue(mem: seq<int>) | Fail(error: Error)

  /** The value an add or multiply stores: opcode 1 adds, opcode 2 multiplies. */
  function Combine(opcode: int, a: int, b: int): int
  {
    if opcode == 1 then a + b else a * b
  }

  /** One pass of the `process` loop body. */
  function StepAt(mem: seq<int>, ip: nat): (r: StepResult)
    ensures ip >= |mem| ==> r == Fail(IndexError)
    ensures ip < |mem| && mem[ip] == 99 ==> r == Halt
    ensures ip < |mem| && mem[ip] != 1 && mem[ip] != 2 && mem[ip] != 99 ==> r == Fail(ValueError)
    ensures r.Continue? ==>
      ip + 3 < |mem| && (mem[ip] == 1 || mem[ip] == 2) &&
      Read(mem, mem[ip + 1]).Some? && Read(mem, mem[ip + 2]).Some? &&
      Some(r.mem) == Write(mem, mem[ip + 3], Combine(mem[ip], Read(mem, mem[ip + 1]).value, Read(mem, mem[ip + 2]).value))
    ensures ip < |mem| && (mem[ip] == 1 || mem[ip] == 2) && !r.Continue? ==> r == Fail(IndexError)
  {
    if ip >= |mem| then Fail(IndexError)
    else
      var value := mem[ip];
      if value == 99 then Halt
      else if value != 1 && value != 2 then Fail(ValueError)
      else if ip + 3 >= |mem| then Fail(IndexError)
      else
        match (Read(mem, mem[ip + 1]), Read(mem, mem[ip + 2]))
        case (Some(a), Some(b)) =>
          (match Write(mem, mem[ip + 3], Combine(value, a, b))
           case Some(m) => Continue(m)
           case None => Fail(IndexError))
        case _ => Fail(IndexError)
  }

  /** `process` from instruction pointer ip: the final memory, or the
      exception that ends it. The pointer only grows, so the loop ends. */
  function Process(mem: seq<int>, ip: nat): (r: Result)
    ensures r.Done? ==> |r.mem| == |mem|
    decreases |mem| - ip
  {
    match StepAt(mem, ip)
    case Halt => Done(mem)
    case Fail(e) => Failed(e)
    case Continue(m) => Process(m, ip + 4)
  }

  datatype Result = Done(mem: seq<int>) | Failed(error: Error)

  /** `process`, run in place on the array. */
  method ProcessInPlace(intcode: array<int>) returns (error: Option<Error>)
    modifies intcode
    ensures var r := Process(old(intcode[..]), 0);
      (r.Done? ==> error.None? && intcode[..] == r.mem) && (r.Failed? ==> error == Some(r.error))
  {
    var instructionPtr: nat := 0;
    while true
      invariant Process(intcode[..], instructionPtr) == Process(old(intcode[..]), 0)
      decreases intcode.Length - instructionPtr
    {
      if instructionPtr >= intcode.Length {
        return Some(IndexError);
      }
      var value := intcode[instructionPtr];
      if value == 99 {
        return None;
      }
      if value != 1 && value != 2 {
        return Some(ValueError);
      }
      if instructionPtr + 3 >= intcode.Length {
        return Some(IndexError);
      }
      var posA := PyIndex(intcode.Length, intcode[instructionPtr + 1]);
      var posB := PyIndex(intcode.Length, intcode[instructionPtr + 2]);
      var output := PyIndex(intcode.Length, intcode[instructionPtr + 3]);
      if posA.None? || posB.None? || output.None? {
        return Some(IndexError);
      }
      ghost var before := intcode[..];
      intcode[output.value] := Combine(value, intcode[posA.value], intcode[posB.value]);
      assert StepAt(before, instructionPtr) == Continue(intcode[..]);
      instructionPtr := instructionPtr + 4;
    }
  }

  /** What `part_one` ends with: cell 0 after the run, `None` where it
      catches an error from the run, or the IndexError it does not catch
      when the list has no cells 1 and 2 to restore. */
  datatype PartOneResult = Answer(value: Option<int>) | ShortList

  /** `part_one`: restore the alarm state (noun 12, verb 2), run, read cell
      0; None where the source catches an error. A list without cells 1
      and 2 raises on the restore, outside the `try`. */
  method PartOne(intcode: array<int>) returns (r: PartOneResult)
    modifies intcode
    ensures r.ShortList? <==> intcode.Length < 3
    ensures intcode.Length < 2 ==> intcode[..] == old(intcode[..])
    ensures intcode.Length == 2 ==> intcode[..] == old(intcode[..])[1 := 12]
    ensures intcode.Length >= 3 ==>
      var res := Process(old(intcode[..])[1 := 12][2 := 2], 0);
      (res.Done? ==> r == Answer(Some(res.mem[0])) && intcode[..] == res.mem) && (res.Failed? ==> r == Answer(None))
  {
    if intcode.Length < 2 {
      return ShortList;
    }
    intcode[1] := 12;
    if intcode.Length < 3 {
      return ShortList;
    }
    intcode[2] := 2;
    var error := ProcessInPlace(intcode);
    if error.Some? {
      return Answer(None);
    }
    return Answer(Some(intcode[0]));
  }

  const Target := 19690720

  /** The run for one (noun, verb) pair on a fresh copy of the memory. */
  function RunWith(mem: seq<int>, noun: int, verb: int): Result
    requires |mem| >= 3
  {
    Process(mem[1 := noun][2 := verb], 0)
  }

  /** A pair in the search order that neither fails nor hits the target. */
  ghost predicate Passed(mem: seq<int>, k: int)
    requires |mem| >= 3 && 0 <= k < 10000
  {
    var res := RunWith(mem, k / 100, k % 100);
    res.Done? && res.mem[0] != Target
  }

  /** The body of the inner loop of `part_two`: a fresh copy of the
      memory with noun and verb set, run in place; either the run fails, or
      cell 0 of the memory it leaves is returned. */
  method TryPair(intcode: array<int>, noun: int, verb: int) returns (failed: bool, first: int)
    requires intcode.Length >= 3
    ensures var res := RunWith(intcode[..], noun, verb);
      (failed <==> res.Failed?) && (res.Done? ==> first == res.mem[0])
  {
    var copy := new int[intcode.Length](i reads intcode requires 0 <= i < intcode.Length => intcode[i]);
    copy[1] := noun;
    copy[2] := verb;
    assert copy[..] == intcode[..][1 := noun][2 := verb];
    var error := ProcessInPlace(copy);
    failed, first := error.Some?, copy[0];
  }

  datatype PartTwoResult = Found(answer: int) | ProcessFailed | NoSolution | ShortCopy

  /** `part_two`: the pairs are tried in the order noun-major, verb-minor;
      the first failing run ends the search with None (ProcessFailed) and
      the first hit gives 100 * noun + verb. A list without cells 1 and 2
      raises IndexError on the first copy's noun or verb (ShortCopy). */
  method PartTwo(intcode: array<int>) returns (r: PartTwoResult)
    ensures intcode[..] == old(intcode[..])
    ensures r.ShortCopy? <==> intcode.Length < 3
    ensures r.Found? ==>
      0 <= r.answer < 10000 && (forall k :: 0 <= k < r.answer ==> Passed(intcode[..], k)) &&
      var res := RunWith(intcode[..], r.answer / 100, r.answer % 100);
      res.Done? && res.mem[0] == Target
    ensures r.ProcessFailed? ==>
      exists k :: 0 <= k < 10000 && (forall j :: 0 <= j < k ==> Passed(intcode[..], j)) &&
        RunWith(intcode[..], k / 100, k % 100).Failed?
    ensures r.NoSolution? ==> forall k :: 0 <= k < 10000 ==> Passed(intcode[..], k)
  {
    if intcode.Length < 3 {
      return ShortCopy;
    }
    var noun := 0;
    while noun < 100
      invariant 0 <= noun <= 100
      invariant forall k :: 0 <= k < 100 * noun ==> Passed(intcode[..], k)
    {
      var verb := 0;
      while verb < 100
        invariant 0 <= verb <= 100
        invariant forall k :: 0 <= k < 100 * noun + verb ==> Passed(intcode[..], k)
      {
        var failed, first := TryPair(intcode, noun, verb);
        var k := 100 * noun + verb;
        ModUnique(k, 100, noun, verb);
        if failed {
          return ProcessFailed;
        }
        if first == Target {
          return Found(k);
        }
        verb := verb + 1;
      }
      noun := noun + 1;
    }
    return NoSolution;
  }
}
