/** Assembunny clock signal (2016, day 25): day 12's machine plus `out`.
    A run is accepted when the machine comes back to a state it has seen
    while its output keeps alternating; it is rejected when the program
    ends or an output repeats the previous one. */
module Aoc2016Day25 {
  import opened Common
  import opened Assembunny

  /** The parser gives cpy a register destination and inc/dec a register. */
  datatype Instruction =
    | Copy(src: Operand, dst: Reg)
    | Inc(reg: Reg)
    | Dec(reg: Reg)
    | JumpIfNotZero(cond: Operand, offset: Operand)
    | Out(x: Operand)

  /** Registers, instruction pointer and the last value sent by `out`. */
  datatype State = State(regs: Registers, ip: int, lastOutput: int)

  /** A fresh ProgramState with register a preset; last_output starts at 1. */
  function Initial(a: int): State
  {
    State(Zero.(a := a), 0, 1)
  }

  /** `step`: None (the source's False) when ip has left the program or an
      `out` sends the same value as the previous output. */
  function NextState(prog: seq<Instruction>, s: State): (r: Option<State>)
    ensures r.None? <==>
      !(0 <= s.ip < |prog|) || (prog[s.ip].Out? && Value(s.regs, prog[s.ip].x) == s.lastOutput)
    ensures r.Some? && prog[s.ip].Out? ==>
      r.value == s.(lastOutput := Value(s.regs, prog[s.ip].x), ip := s.ip + 1)
    ensures r.Some? && !prog[s.ip].Out? ==> r.value.lastOutput == s.lastOutput
    ensures r.Some? && prog[s.ip].Copy? ==>
      r.value.regs == Set(s.regs, prog[s.ip].dst, Value(s.regs, prog[s.ip].src)) && r.value.ip == s.ip + 1
    ensures r.Some? && prog[s.ip].Inc? ==>
      r.value.regs == Set(s.regs, prog[s.ip].reg, Get(s.regs, prog[s.ip].reg) + 1) && r.value.ip == s.ip + 1
    ensures r.Some? && prog[s.ip].Dec? ==>
      r.value.regs == Set(s.regs, prog[s.ip].reg, Get(s.regs, prog[s.ip].reg) - 1) && r.value.ip == s.ip + 1
    ensures r.Some? && prog[s.ip].JumpIfNotZero? ==>
      r.value.regs == s.regs &&
      r.value.ip == (if Value(s.regs, prog[s.ip].cond) != 0 then s.ip + Value(s.regs, prog[s.ip].offset) else s.ip + 1)
  {
    if !(0 <= s.ip < |prog|) then None
    else
      match prog[s.ip]
      case Copy(x, y) => Some(s.(regs := Set(s.regs, y, Value(s.regs, x)), ip := s.ip + 1))
      case Inc(x) => Some(s.(regs := Set(s.regs, x, Get(s.regs, x) + 1), ip := s.ip + 1))
      case Dec(x) => Some(s.(regs := Set(s.regs, x, Get(s.regs, x) - 1), ip := s.ip + 1))
      case JumpIfNotZero(x, y) =>
        Some(s.(ip := if Value(s.regs, x) != 0 then s.ip + Value(s.regs, y) else s.ip + 1))
      case Out(x) =>
        var v := Value(s.regs, x);
        if v == s.lastOutput then None else Some(s.(lastOutput := v, ip := s.ip + 1))
  }

  /** The state after n successful steps, None if a step returned False first. */
  function Iter(prog: seq<Instruction>, s: State, n: nat): Option<State>
  {
    if n == 0 then Some(s)
    else
      match Iter(prog, s, n - 1)
      case None => None
      case Some(u) => NextState(prog, u)
  }

  lemma {:induction false} IterAdd(prog: seq<Instruction>, s: State, m: nat, n: nat)
    requires Iter(prog, s, m).Some?
    ensures Iter(prog, s, m + n) == Iter(prog, Iter(prog, s, m).value, n)
    decreases n
  {
    if n > 0 {
      IterAdd(prog, s, m, n - 1);
    }
  }

  lemma {:induction false} IterPrefix(prog: seq<Instruction>, s: State, m: nat, n: nat)
    requires m <= n && Iter(prog, s, n).Some?
    ensures Iter(prog, s, m).Some?
    decreases n
  {
    if m < n {
      IterPrefix(prog, s, m, n - 1);
    }
  }

  /** The key `run` records per state: the source's `get_signature`. */
  datatype Signature = Signature(ip: int, a: int, b: int, c: int, d: int)

  function GetSignature(s: State): Signature
  {
    Signature(s.ip, s.regs.a, s.regs.b, s.regs.c, s.regs.d)
  }

  datatype Outcome = Repeats | Stops | OutOfFuel

  /** The loop of `run` with the set of keys seen so far, at most `fuel`
      further steps: Repeats is the source's True, Stops its False. */
  function RunFrom<K>(prog: seq<Instruction>, s: State, seen: set<K>, key: State -> K, fuel: nat): Outcome
    decreases fuel
  {
    match NextState(prog, s)
    case None => Stops
    case Some(t) =>
      if key(t) in seen then Repeats
      else if fuel == 0 then OutOfFuel
      else RunFrom(prog, t, seen + {key(t)}, key, fuel - 1)
  }

  /** `run` as written: the seen set holds signatures, which omit last_output. */
  function RunOutcome(prog: seq<Instruction>, s: State, fuel: nat): Outcome
  {
    RunFrom(prog, s, {GetSignature(s)}, GetSignature, fuel)
  }

  /** Every key in `seen` belongs to one of the first k + 1 states of the trace. */
  ghost predicate Witnessed<K>(prog: seq<Instruction>, s0: State, k: nat, seen: set<K>, key: State -> K)
  {
    forall x :: x in seen ==> exists i: nat :: i <= k && Iter(prog, s0, i).Some? && key(Iter(prog, s0, i).value) == x
  }

  /** Whatever the key, Repeats means two visited states at steps i < j
      share their key, and Stops means a step returned False. */
  lemma {:induction false} RunFromMeaning<K>(prog: seq<Instruction>, s0: State, k: nat, seen: set<K>,
                                             key: State -> K, fuel: nat)
    requires Iter(prog, s0, k).Some?
    requires Witnessed(prog, s0, k, seen, key)
    ensures RunFrom(prog, Iter(prog, s0, k).value, seen, key, fuel) == Repeats ==>
      exists i, j :: 0 <= i < j && Iter(prog, s0, j).Some? && Iter(prog, s0, i).Some? &&
        key(Iter(prog, s0, i).value) == key(Iter(prog, s0, j).value)
    ensures RunFrom(prog, Iter(prog, s0, k).value, seen, key, fuel) == Stops ==>
      exists n :: Iter(prog, s0, n).None?
    decreases fuel
  {
    var s := Iter(prog, s0, k).value;
    assert Iter(prog, s0, k + 1) == NextState(prog, s);
    match NextState(prog, s)
    case None =>
    case Some(t) =>
      if key(t) in seen {
        var i :| 0 <= i <= k && Iter(prog, s0, i).Some? && key(Iter(prog, s0, i).value) == key(t);
        assert Iter(prog, s0, k + 1) == Some(t);
      } else if fuel > 0 {
        forall x | x in seen + {key(t)}
          ensures exists i: nat :: i <= k + 1 && Iter(prog, s0, i).Some? && key(Iter(prog, s0, i).value) == x
        {
          if x in seen {
            var i :| 0 <= i <= k && Iter(prog, s0, i).Some? && key(Iter(prog, s0, i).value) == x;
          } else {
            assert key(Iter(prog, s0, k + 1).value) == x;
          }
        }
        var seen' := seen + {key(t)};
        assert Iter(prog, s0, k + 1).Some?;
        assert Witnessed(prog, s0, k + 1, seen', key);
        assert RunFrom(prog, s, seen, key, fuel) == RunFrom(prog, t, seen', key, fuel - 1);
        RunFromMeaning(prog, s0, k + 1, seen', key, fuel - 1);
      }
  }

  /** `run` returns True only when a signature repeats along the trace, and
      False only when a step stops the machine. */
  lemma RunMeaning(prog: seq<Instruction>, s: State, fuel: nat)
    ensures RunOutcome(prog, s, fuel) == Repeats ==>
      exists i, j :: 0 <= i < j && Iter(prog, s, j).Some? && Iter(prog, s, i).Some? &&
        GetSignature(Iter(prog, s, i).value) == GetSignature(Iter(prog, s, j).value)
    ensures RunOutcome(prog, s, fuel) == Stops ==> exists n :: Iter(prog, s, n).None?
  {
    assert Iter(prog, s, 0) == Some(s);
    RunFromMeaning(prog, s, 0, {GetSignature(s)}, GetSignature, fuel);
  }

  /** The program `out a; jnz 1 -1` started with a = 0: `run` as written
      reports a clock signal, yet the machine prints 0 twice and stops. */
  lemma SignatureMissesLastOutput()
    ensures RunOutcome([Out(Register(A)), JumpIfNotZero(Literal(1), Literal(-1))], Initial(0), 5) == Repeats
    ensures Iter([Out(Register(A)), JumpIfNotZero(Literal(1), Literal(-1))], Initial(0), 3).None?
  {
    var prog := [Out(Register(A)), JumpIfNotZero(Literal(1), Literal(-1))];
    var s0 := Initial(0);
    var s1 := s0.(lastOutput := 0, ip := 1);
    var s2 := s1.(ip := 0);
    assert NextState(prog, s0) == Some(s1);
    assert NextState(prog, s1) == Some(s2);
    assert NextState(prog, s2) == None;
    assert Iter(prog, s0, 2) == Some(s2);
  }

  /** The evidently intended `run`: the recorded key is the whole state,
      last output included. */
  function ClockRun(prog: seq<Instruction>, s: State, fuel: nat): Outcome
  {
    RunFrom(prog, s, {s}, (u: State) => u, fuel)
  }

  /** A state that recurs makes the machine periodic: it never stops. */
  lemma {:induction false} RecurrenceNeverStops(prog: seq<Instruction>, s: State, i: nat, j: nat, n: nat)
    requires i < j && Iter(prog, s, j).Some? && Iter(prog, s, i) == Iter(prog, s, j)
    ensures Iter(prog, s, n).Some?
    decreases n
  {
    if n <= j {
      IterPrefix(prog, s, n, j);
    } else {
      var back := n - (j - i);
      RecurrenceNeverStops(prog, s, i, j, back);
      IterAdd(prog, s, j, n - j);
      IterPrefix(prog, s, i, j);
      IterAdd(prog, s, i, n - j);
      assert back == i + (n - j);
    }
  }

  /** With the whole state as key, an accepted run really is a clock that
      runs forever: no number of steps reaches a stop. */
  lemma ClockRunSound(prog: seq<Instruction>, s: State, fuel: nat, n: nat)
    requires ClockRun(prog, s, fuel) == Repeats
    ensures Iter(prog, s, n).Some?
  {
    var id := (u: State) => u;
    assert Iter(prog, s, 0) == Some(s);
    RunFromMeaning(prog, s, 0, {s}, id, fuel);
    var i, j :| 0 <= i < j && Iter(prog, s, j).Some? && Iter(prog, s, i).Some? &&
      id(Iter(prog, s, i).value) == id(Iter(prog, s, j).value);
    RecurrenceNeverStops(prog, s, i, j, n);
  }

  class ProgramState {
    var registers: Registers
    var instructionPointer: int
    var lastOutput: int

    constructor ()
      ensures registers == Zero && instructionPointer == 0 && lastOutput == 1
    {
      registers := Zero;
      instructionPointer := 0;
      lastOutput := 1;
    }

    function Current(): State
      reads this
    {
      State(registers, instructionPointer, lastOutput)
    }

    /** `step` */
    method Step(prog: seq<Instruction>) returns (running: bool)
      modifies this
      ensures running == NextState(prog, old(Current())).Some?
      ensures running ==> Current() == NextState(prog, old(Current())).value
    {
      if !(0 <= instructionPointer < |prog|) {
        return false;
      }
      match prog[instructionPointer] {
        case Copy(x, y) =>
          registers := Set(registers, y, Value(registers, x));
          instructionPointer := instructionPointer + 1;
        case Inc(x) =>
          registers := Set(registers, x, Get(registers, x) + 1);
          instructionPointer := instructionPointer + 1;
        case Dec(x) =>
          registers := Set(registers, x, Get(registers, x) - 1);
          instructionPointer := instructionPointer + 1;
        case JumpIfNotZero(x, y) =>
          if Value(registers, x) != 0 {
            instructionPointer := instructionPointer + Value(registers, y);
          } else {
            instructionPointer := instructionPointer + 1;
          }
        case Out(x) =>
          var outputBefore := lastOutput;
          lastOutput := Value(registers, x);
          instructionPointer := instructionPointer + 1;
          if outputBefore == lastOutput {
            return false;
          }
      }
      return true;
    }

    /** `run` with at most `fuel` steps after the first one. */
    method Run(prog: seq<Instruction>, fuel: nat) returns (r: Outcome)
      modifies this
      ensures r == RunOutcome(prog, old(Current()), fuel)
    {
      var states := {GetSignature(Current())};
      var left := fuel;
      while true
        invariant RunFrom(prog, Current(), states, GetSignature, left) == RunOutcome(prog, old(Current()), fuel)
        decreases left
      {
        var running := Step(prog);
        if !running {
          return Stops;
        }
        var newState := GetSignature(Current());
        if newState in states {
          return Repeats;
        }
        if left == 0 {
          return OutOfFuel;
        }
        states := states + {newState};
        left := left - 1;
      }
    }
  }

  /** `part_one`: the least a below 1_000_000 whose run reports a clock
      signal, each run bounded by `fuel`; None where the source raises. */
  method PartOne(prog: seq<Instruction>, fuel: nat) returns (r: Option<nat>)
    ensures r.Some? ==> r.value < 1_000_000 && RunOutcome(prog, Initial(r.value), fuel) == Repeats
    ensures r.Some? ==> forall a: nat :: a < r.value ==> RunOutcome(prog, Initial(a), fuel) != Repeats
    ensures r.None? ==> forall a: nat :: a < 1_000_000 ==> RunOutcome(prog, Initial(a), fuel) != Repeats
  {
    var aValue: nat := 0;
    while aValue < 1_000_000
      invariant aValue <= 1_000_000
      invariant forall a: nat :: a < aValue ==> RunOutcome(prog, Initial(a), fuel) != Repeats
    {
      var program := new ProgramState();
      program.registers := program.registers.(a := aValue);
      var outcome := program.Run(prog, fuel);
      if outcome == Repeats {
        return Some(aValue);
      }
      aValue := aValue + 1;
    }
    return None;
  }
}
