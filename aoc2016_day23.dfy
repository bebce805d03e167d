/** Assembunny with self-modifying code (2016, day 23): day 12's machine
    plus `tgl`, which rewrites an instruction of the program, and a
    shortcut that recognises a six-instruction multiplication loop and
    performs it in one step. */
module Aoc2016Day23 {
  import opened Common
  import opened Assembunny

  /** The parser only produces register operands for inc, dec and tgl, and
      toggling keeps operands, so those three carry a register. Copy's
      destination and jnz's offset can be literals (after a toggle). */
  datatype Instruction =
    | Copy(src: Operand, dst: Operand)
    | Inc(reg: Reg)
    | Dec(reg: Reg)
    | JumpIfNotZero(cond: Operand, offset: Operand)
    | Toggle(reg: Reg)

  /** `toggle_at`: the instruction that replaces `i` when it is toggled. */
  function Toggled(i: Instruction): (t: Instruction)
    ensures i.Inc? ==> t == Dec(i.reg)
    ensures i.Dec? ==> t == Inc(i.reg)
    ensures i.Toggle? ==> t == Inc(i.reg)
    ensures i.Copy? ==> t == JumpIfNotZero(i.src, i.dst)
    ensures i.JumpIfNotZero? ==> t == Copy(i.cond, i.offset)
  {
    match i
    case Inc(x) => Dec(x)
    case Dec(x) => Inc(x)
    case Toggle(x) => Inc(x)
    case Copy(x, y) => JumpIfNotZero(x, y)
    case JumpIfNotZero(x, y) => Copy(x, y)
  }

  /** Toggling twice restores every instruction except tgl, which becomes dec. */
  lemma ToggleTwice(i: Instruction)
    ensures !i.Toggle? ==> Toggled(Toggled(i)) == i
    ensures i.Toggle? ==> Toggled(Toggled(i)) == Dec(i.reg)
  {
  }

  /** The registers a recognised multiplication loop names. */
  datatype MulBlock = MulBlock(productDst: Reg, factorA: Operand, factorB: Reg, bufferA: Reg, bufferB: Operand)

  /** Python truthiness of a register-or-literal value in `all([...])`:
      register names are non-empty strings, a literal is falsy iff 0. */
  predicate Truthy(x: Operand)
  {
    x.Register? || x.n != 0
  }

  /** The pattern test of `detect_mul`: the six instructions from ip are
      cpy fa bb; inc/dec in either order; jnz _ -2; dec fb; jnz _ -5. */
  function MulPattern(prog: seq<Instruction>, ip: int): (r: Option<MulBlock>)
    ensures r.Some? ==> 0 <= ip && ip + 5 < |prog|
    ensures r.Some? ==>
      prog[ip] == Copy(r.value.factorA, r.value.bufferB) &&
      {prog[ip + 1], prog[ip + 2]} == {Inc(r.value.productDst), Dec(r.value.bufferA)} &&
      prog[ip + 3].JumpIfNotZero? && prog[ip + 3].offset == Literal(-2) &&
      prog[ip + 4] == Dec(r.value.factorB) &&
      prog[ip + 5].JumpIfNotZero? && prog[ip + 5].offset == Literal(-5) &&
      Truthy(r.value.factorA)
    ensures 0 <= ip && ip + 5 < |prog| && prog[ip].Copy? && Truthy(prog[ip].src) &&
            prog[ip + 1].Inc? && prog[ip + 2].Dec? &&
            prog[ip + 3].JumpIfNotZero? && prog[ip + 3].offset == Literal(-2) &&
            prog[ip + 4].Dec? &&
            prog[ip + 5].JumpIfNotZero? && prog[ip + 5].offset == Literal(-5)
            ==> r == Some(MulBlock(prog[ip + 1].reg, prog[ip].src, prog[ip + 4].reg, prog[ip + 2].reg, prog[ip].dst))
  {
    if !(0 <= ip + 5 < |prog|) || ip < 0 then None
    else
      var op1, op2, op3, op4, op5, op6 :=
        prog[ip], prog[ip + 1], prog[ip + 2], prog[ip + 3], prog[ip + 4], prog[ip + 5];
      if !op1.Copy? then None
      else if !((op2.Inc? && op3.Dec?) || (op2.Dec? && op3.Inc?)) then None
      else if !(op4.JumpIfNotZero? && op4.offset == Literal(-2)) then None
      else if !op5.Dec? then None
      else if !(op6.JumpIfNotZero? && op6.offset == Literal(-5)) then None
      else if !Truthy(op1.src) then None
      else
        var productDst := if op2.Inc? then op2.reg else op3.reg;
        var bufferA := if op2.Dec? then op2.reg else op3.reg;
        Some(MulBlock(productDst, op1.src, op5.reg, bufferA, op1.dst))
  }

  /** `self.registers[bb] = 0`; a literal key only adds an unused entry. */
  function ClearOperand(regs: Registers, x: Operand): (q: Registers)
    ensures x.Register? ==> q == Set(regs, x.r, 0)
    ensures x.Literal? ==> q == regs
  {
    if x.Register? then Set(regs, x.r, 0) else regs
  }

  /** The register effect of a matched multiplication, in the source's order. */
  function ApplyMul(regs: Registers, m: MulBlock): (q: Registers)
    ensures Get(q, m.bufferA) == 0 && Get(q, m.factorB) == 0
    ensures m.bufferB.Register? ==> Get(q, m.bufferB.r) == 0
    ensures m.productDst != m.bufferA && m.productDst != m.factorB &&
            m.bufferB != Register(m.productDst) ==>
      Get(q, m.productDst) == Get(regs, m.productDst) + Value(regs, m.factorA) * Get(regs, m.factorB)
    ensures forall o: Reg ::
      o != m.productDst && o != m.bufferA && o != m.factorB && m.bufferB != Register(o) ==>
        Get(q, o) == Get(regs, o)
  {
    var product := Get(regs, m.productDst) + Value(regs, m.factorA) * Get(regs, m.factorB);
    var r1 := Set(regs, m.productDst, product);
    var r2 := Set(r1, m.bufferA, 0);
    var r3 := ClearOperand(r2, m.bufferB);
    Set(r3, m.factorB, 0)
  }

  /** The whole machine: the program is part of the state, since tgl edits it. */
  datatype Config = Config(prog: seq<Instruction>, regs: Registers, ip: int)

  /** `in_bounds` */
  predicate InBounds(idx: int, prog: seq<Instruction>)
  {
    0 <= idx < |prog|
  }

  /** One of the op_* methods applied to the instruction at ip. */
  function Execute(c: Config, instr: Instruction): (r: Config)
    ensures |r.prog| == |c.prog|
    ensures !instr.Toggle? ==> r.prog == c.prog
    ensures !instr.JumpIfNotZero? ==> r.ip == c.ip + 1
    ensures instr.Copy? && instr.dst.Literal? ==> r == c.(ip := c.ip + 1)
    ensures instr.Copy? && instr.dst.Register? ==> r.regs == Set(c.regs, instr.dst.r, Value(c.regs, instr.src))
    ensures instr.Inc? ==> r.regs == Set(c.regs, instr.reg, Get(c.regs, instr.reg) + 1)
    ensures instr.Dec? ==> r.regs == Set(c.regs, instr.reg, Get(c.regs, instr.reg) - 1)
    ensures instr.JumpIfNotZero? ==>
      r.regs == c.regs &&
      r.ip == (if Value(c.regs, instr.cond) != 0 then c.ip + Value(c.regs, instr.offset) else c.ip + 1)
    ensures instr.Toggle? ==>
      var target := c.ip + Get(c.regs, instr.reg);
      r.regs == c.regs &&
      (InBounds(target, c.prog) ==> r.prog == c.prog[target := Toggled(c.prog[target])]) &&
      (!InBounds(target, c.prog) ==> r.prog == c.prog)
  {
    match instr
    case Copy(x, y) =>
      if y.Register? then c.(regs := Set(c.regs, y.r, Value(c.regs, x)), ip := c.ip + 1)
      else c.(ip := c.ip + 1)
    case Inc(x) => c.(regs := Set(c.regs, x, Get(c.regs, x) + 1), ip := c.ip + 1)
    case Dec(x) => c.(regs := Set(c.regs, x, Get(c.regs, x) - 1), ip := c.ip + 1)
    case JumpIfNotZero(x, y) =>
      if Value(c.regs, x) != 0 then c.(ip := c.ip + Value(c.regs, y)) else c.(ip := c.ip + 1)
    case Toggle(x) =>
      var target := c.ip + Get(c.regs, x);
      if InBounds(target, c.prog) then c.(prog := c.prog[target := Toggled(c.prog[target])], ip := c.ip + 1)
      else c.(ip := c.ip + 1)
  }

  /** `step`: None (the source's False) iff ip is outside [0, len); a matched
      multiplication loop runs in one step, otherwise one instruction runs. */
  function NextConfig(c: Config): (r: Option<Config>)
    ensures r.None? <==> !InBounds(c.ip, c.prog)
    ensures r.Some? ==> |r.value.prog| == |c.prog|
    ensures r.Some? && MulPattern(c.prog, c.ip).Some? ==>
      r.value == c.(regs := ApplyMul(c.regs, MulPattern(c.prog, c.ip).value), ip := c.ip + 6)
    ensures r.Some? && MulPattern(c.prog, c.ip).None? ==> r.value == Execute(c, c.prog[c.ip])
  {
    if !InBounds(c.ip, c.prog) then None
    else
      match MulPattern(c.prog, c.ip)
      case Some(m) => Some(c.(regs := ApplyMul(c.regs, m), ip := c.ip + 6))
      case None => Some(Execute(c, c.prog[c.ip]))
  }

  /** `run` with at most `fuel` steps: (true, c) when step returned False in
      configuration c, (false, c) when the fuel ran out first. */
  function Exec(c: Config, fuel: nat): (r: (bool, Config))
    ensures r.0 <==> NextConfig(r.1).None?
    ensures |r.1.prog| == |c.prog|
    decreases fuel
  {
    match NextConfig(c)
    case None => (true, c)
    case Some(d) => if fuel == 0 then (false, c) else Exec(d, fuel - 1)
  }

  /** Once the program halts within some fuel, more fuel changes nothing. */
  lemma {:induction false} ExecMoreFuel(c: Config, fuel: nat, extra: nat)
    requires Exec(c, fuel).0
    ensures Exec(c, fuel + extra) == Exec(c, fuel)
    decreases fuel
  {
    match NextConfig(c)
    case None =>
    case Some(d) =>
      if fuel > 0 {
        ExecMoreFuel(d, fuel - 1, extra);
      }
  }

  class ProgramState {
    var registers: Registers
    var instructionPointer: int

    constructor ()
      ensures registers == Zero && instructionPointer == 0
    {
      registers := Zero;
      instructionPointer := 0;
    }

    /** `detect_mul`: performs a recognised multiplication and reports it. */
    method DetectMul(instructions: array<Instruction>) returns (found: bool)
      modifies this
      ensures found == MulPattern(old(instructions[..]), old(instructionPointer)).Some?
      ensures found ==>
        registers == ApplyMul(old(registers), MulPattern(instructions[..], old(instructionPointer)).value) &&
        instructionPointer == old(instructionPointer) + 6
      ensures !found ==> registers == old(registers) && instructionPointer == old(instructionPointer)
    {
      var m := MulPattern(instructions[..], instructionPointer);
      if m.None? {
        return false;
      }
      var block := m.value;
      registers := Set(registers, block.productDst,
        Get(registers, block.productDst) + Value(registers, block.factorA) * Get(registers, block.factorB));
      registers := Set(registers, block.bufferA, 0);
      if block.bufferB.Register? {
        registers := Set(registers, block.bufferB.r, 0);
      }
      registers := Set(registers, block.factorB, 0);
      instructionPointer := instructionPointer + 6;
      return true;
    }

    /** `toggle_at` */
    method ToggleAt(idx: int, instructions: array<Instruction>)
      requires 0 <= idx < instructions.Length
      modifies instructions
      ensures instructions[..] == old(instructions[..])[idx := Toggled(old(instructions[idx]))]
    {
      instructions[idx] := Toggled(instructions[idx]);
    }

    /** `step`: one instruction (or one multiplication loop); false once ip
        has left the program. */
    method Step(instructions: array<Instruction>) returns (running: bool)
      modifies this, instructions
      ensures var r := NextConfig(old(Config(instructions[..], registers, instructionPointer)));
        running == r.Some? &&
        (r.Some? ==> r.value == Config(instructions[..], registers, instructionPointer)) &&
        (r.None? ==> unchanged(this) && instructions[..] == old(instructions[..]))
    {
      if !InBounds(instructionPointer, instructions[..]) {
        return false;
      }
      var instr := instructions[instructionPointer];
      var mul := DetectMul(instructions);
      if mul {
        return true;
      }
      match instr {
        case Copy(x, y) =>
          if y.Register? {
            registers := Set(registers, y.r, Value(registers, x));
          }
          instructionPointer := instructionPointer + 1;
        case Inc(x) =>
          registers := Set(registers, x, Get(registers, x) + 1);
          instructionPointer := instructionPointer + 1;
        case Dec(x) =>
          registers := Set(registers, x, Get(registers, x) - 1);
          instructionPointer := instructionPointer + 1;
        case JumpIfNotZero(x, y) =>
          if Value(registers, x) != 0 {
            instructionPointer := instructionPointer + Value(registers, y);
          } else {
            instructionPointer := instructionPointer + 1;
          }
        case Toggle(x) =>
          var nextIdx := instructionPointer + Get(registers, x);
          if InBounds(nextIdx, instructions[..]) {
            ToggleAt(nextIdx, instructions);
          }
          instructionPointer := instructionPointer + 1;
      }
      return true;
    }

    /** `run`: steps until step reports a halt, for at most `fuel` steps. */
    method Run(instructions: array<Instruction>, fuel: nat) returns (halted: bool)
      modifies this, instructions
      ensures (halted, Config(instructions[..], registers, instructionPointer))
           == Exec(old(Config(instructions[..], registers, instructionPointer)), fuel)
    {
      var steps := 0;
      while true
        invariant 0 <= steps <= fuel
        invariant Exec(Config(instructions[..], registers, instructionPointer), fuel - steps)
               == Exec(old(Config(instructions[..], registers, instructionPointer)), fuel)
        decreases fuel - steps
      {
        if steps == fuel {
          return NextConfig(Config(instructions[..], registers, instructionPointer)).None?;
        }
        var running := Step(instructions);
        if !running {
          return true;
        }
        steps := steps + 1;
      }
    }
  }

  /** Register a after a halted run from `a = start` on a copy of the program. */
  function RegisterAAfterRun(prog: seq<Instruction>, start: int, fuel: nat): (r: Option<int>)
    ensures r.Some? <==> Exec(Config(prog, Zero.(a := start), 0), fuel).0
  {
    var (halted, c) := Exec(Config(prog, Zero.(a := start), 0), fuel);
    if halted then Some(c.regs.a) else None
  }

  method RunWithA(prog: seq<Instruction>, start: int, fuel: nat) returns (r: Option<int>)
    ensures r == RegisterAAfterRun(prog, start, fuel)
  {
    var program := new ProgramState();
    program.registers := program.registers.(a := start);
    var instructions := new Instruction[|prog|](i requires 0 <= i < |prog| => prog[i]);
    assert instructions[..] == prog;
    var halted := program.Run(instructions, fuel);
    r := if halted then Some(program.registers.a) else None;
  }

  /** part_one: a = 7. */
  method PartOne(prog: seq<Instruction>, fuel: nat) returns (r: Option<int>)
    ensures r == RegisterAAfterRun(prog, 7, fuel)
  {
    r := RunWithA(prog, 7, fuel);
  }

  /** part_two: a = 12. */
  method PartTwo(prog: seq<Instruction>, fuel: nat) returns (r: Option<int>)
    ensures r == RegisterAAfterRun(prog, 12, fuel)
  {
    r := RunWithA(prog, 12, fuel);
  }
}
