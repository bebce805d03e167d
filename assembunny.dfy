/** Register file shared by the assembunny machines of 2016 (days 12, 23
    and 25): the dictionary {a, b, c, d} of integer registers, and operands
    that are either a register name or an integer literal. */
module Assembunny {

  datatype Reg = A | B | C | D

  /** An operand is a register name or an integer literal. */
  datatype Operand = Register(r: Reg) | Literal(n: int)

  /** The register dictionary {a, b, c, d}: every key is always present. */
  datatype Registers = Registers(a: int, b: int, c: int, d: int)

  const Zero := Registers(0, 0, 0, 0)

  function Get(regs: Registers, r: Reg): int
  {
    match r
    case A => regs.a
    case B => regs.b
    case C => regs.c
    case D => regs.d
  }

  /** `regs[r] = v`: register r holds v afterwards and nothing else changes. */
  function Set(regs: Registers, r: Reg, v: int): (q: Registers)
    ensures Get(q, r) == v
    ensures forall o: Reg :: o != r ==> Get(q, o) == Get(regs, o)
  {
    match r
    case A => regs.(a := v)
    case B => regs.(b := v)
    case C => regs.(c := v)
    case D => regs.(d := v)
  }

  /** `get_value`: a register operand reads the register, a literal is itself. */
  function Value(regs: Registers, x: Operand): (v: int)
    ensures x.Register? ==> v == Get(regs, x.r)
    ensures x.Literal? ==> v == x.n
  {
    match x
    case Register(r) => Get(regs, r)
    case Literal(n) => n
  }
}
