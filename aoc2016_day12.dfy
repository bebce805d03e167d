/** Assembunny register machine (2016, day 12): four registers a..d, the
    instructions cpy, inc, dec and jnz, and a run loop that stops when the
    instruction pointer no longer indexes the program. */
module Aoc2016Day12 {
  import opened Common
  import opened Assembunny

  datatype Instruction =
    | Copy(src: Operand, dst: Reg)
    | Inc(reg: Reg)
    | Dec(reg: Reg)
    | JumpIfNotZero(cond: Operand, offset: int)

  /** `instructions[ip]` in Python; None when it raises IndexError. */
  function Fetch(prog: seq<Instruction>, ip: int): (r: Option<Instruction>)
    ensures r.Some? <==> -|prog| <= ip < |prog|
    ensures 0 <= ip < |prog| ==> r == Some(prog[ip])
    ensures -|prog| <= ip < 0 ==> r == Some(prog[|prog| + ip])
  {
    match PyIndex(|prog|, ip)
    case None => None
    case Some(k) => Some(prog[k])
  }

  datatype State = State(regs: Registers, ip: int)

  /** One turn of the run loop: None when the fetch fails and the loop breaks. */
  function Step(prog: seq<Instruction>, s: State): (r: Option<State>)
    ensures r.None? <==> !(-|prog| <= s.ip < |prog|)
    ensures r.Some? ==>
      match Fetch(prog, s.ip).value
      case Copy(x, y) =>
        Get(r.value.regs, y) == Value(s.regs, x) && r.value.ip == s.ip + 1 &&
        (forall o: Reg :: o != y ==> Get(r.value.regs, o) == Get(s.regs, o))
      case Inc(x) =>
        Get(r.value.regs, x) == Get(s.regs, x) + 1 && r.value.ip == s.ip + 1 &&
        (forall o: Reg :: o != x ==> Get(r.value.regs, o) == Get(s.regs, o))
      case Dec(x) =>
        Get(r.value.regs, x) == Get(s.regs, x) - 1 && r.value.ip == s.ip + 1 &&
        (forall o: Reg :: o != x ==> Get(r.value.regs, o) == Get(s.regs, o))
      case JumpIfNotZero(x, y) =>
        r.value.regs == s.regs &&
        (Value(s.regs, x) != 0 ==> r.value.ip == s.ip + y) &&
        (Value(s.regs, x) == 0 ==> r.value.ip == s.ip + 1)
  {
    match Fetch(prog, s.ip)
    case None => None
    case Some(instr) =>
      match instr
      case Copy(x, y) => Some(State(Set(s.regs, y, Value(s.regs, x)), s.ip + 1))
      case Inc(x) => Some(State(Set(s.regs, x, Get(s.regs, x) + 1), s.ip + 1))
      case Dec(x) => Some(State(Set(s.regs, x, Get(s.regs, x) - 1), s.ip + 1))
      case JumpIfNotZero(x, y) =>
        Some(State(s.regs, if Value(s.regs, x) != 0 then s.ip + y else s.ip + 1))
  }

  /** The run loop with at most `fuel` executed instructions: (true, s) when
      the loop broke in state s, (false, s) when the fuel ran out first. */
  function Exec(prog: seq<Instruction>, s: State, fuel: nat): (r: (bool, State))
    ensures r.0 <==> Step(prog, r.1).None?
    decreases fuel
  {
    match Step(prog, s)
    case None => (true, s)
    case Some(t) => if fuel == 0 then (false, s) else Exec(prog, t, fuel - 1)
  }

  /** Once the program halts within some fuel, more fuel changes nothing. */
  lemma {:induction false} ExecMoreFuel(prog: seq<Instruction>, s: State, fuel: nat, extra: nat)
    requires Exec(prog, s, fuel).0
    ensures Exec(prog, s, fuel + extra) == Exec(prog, s, fuel)
    decreases fuel
  {
    match Step(prog, s)
    case None =>
    case Some(t) =>
      if fuel > 0 {
        ExecMoreFuel(prog, t, fuel - 1, extra);
      }
  }

  /** The value left in register a by a halted run, None when the fuel ran out. */
  function RegisterAAfterRun(prog: seq<Instruction>, init: Registers, fuel: nat): (r: Option<int>)
    ensures r.Some? <==> Exec(prog, State(init, 0), fuel).0
  {
    var (halted, s) := Exec(prog, State(init, 0), fuel);
    if halted then Some(s.regs.a) else None
  }

  class ProgramState {
    var registers: Registers
    var instructionPointer: int

    constructor ()
      ensures registers == Zero && instructionPointer == 0
    {
      registers := Zero;
      instructionPointer := 0;
    }

    /** Python's `run`, executing at most `fuel` instructions; `halted` is
        false when the fuel ran out before the loop broke. */
    method Run(prog: seq<Instruction>, fuel: nat) returns (halted: bool)
      modifies this
      ensures (halted, State(registers, instructionPointer))
           == Exec(prog, old(State(registers, instructionPointer)), fuel)
    {
      var steps := 0;
      while true
        invariant 0 <= steps <= fuel
        invariant Exec(prog, State(registers, instructionPointer), fuel - steps)
               == Exec(prog, old(State(registers, instructionPointer)), fuel)
        decreases fuel - steps
      {
        var k := PyIndex(|prog|, instructionPointer);
        if k.None? {
          return true;
        }
        if steps == fuel {
          return false;
        }
        ghost var before := State(registers, instructionPointer);
        match prog[k.value] {
          case Copy(x, y) =>
            registers := Set(registers, y, Value(registers, x));
            instructionPointer := instructionPointer + 1;
          case Inc(x) =>
            registers := Set(registers, x, Get(registers, x) + 1);
            instructionPointer := instructionPointer + 1;
          case Dec(x) =>
            registers := Set(registers, x, Get(registers, x) - 1);
            instructionPointer := instructionPointer + 1;
          case JumpIfNotZero(x, y) =>
            if Value(registers, x) != 0 {
              instructionPointer := instructionPointer + y;
            } else {
              instructionPointer := instructionPointer + 1;
            }
        }
        assert Step(prog, before) == Some(State(registers, instructionPointer));
        steps := steps + 1;
      }
    }
  }

  /** part_one: run from all-zero registers and report register a. */
  method PartOne(prog: seq<Instruction>, fuel: nat) returns (r: Option<int>)
    ensures r == RegisterAAfterRun(prog, Zero, fuel)
  {
    var program := new ProgramState();
    var halted := program.Run(prog, fuel);
    r := if halted then Some(program.registers.a) else None;
  }

  /** part_two: the same run with register c set to 1 first. */
  method PartTwo(prog: seq<Instruction>, fuel: nat) returns (r: Option<int>)
    ensures r == RegisterAAfterRun(prog, Zero.(c := 1), fuel)
  {
    var program := new ProgramState();
    program.registers := program.registers.(c := 1);
    var halted := program.Run(prog, fuel);
    r := if halted then Some(program.registers.a) else None;
  }
}
