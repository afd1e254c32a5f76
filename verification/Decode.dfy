/** A decoder for 64-bit register-direct instructions, after the Intel SDM Vol. 2, sections 2.1.3
(ModR/M) and 2.2.1 (REX), and the meaning of the decoded instructions. */
module Decode {
  import opened Wrappers
  import opened Bits
  import opened Ir

  /** `dst := dst op src`, or `dst := src` for Mov. */
  datatype MachineOp = Add | Or | And | Sub | Mov
  datatype Machine = Machine(op: MachineOp, dst: nat, src: nat)

  /** After the opcode map in appendix A of that volume; bit 1 is the direction. */
  function OpOf(opcode: bv8): Option<MachineOp>
  {
    if opcode & 0xfd == 0x01 then Some(Add)
    else if opcode & 0xfd == 0x09 then Some(Or)
    else if opcode & 0xfd == 0x21 then Some(And)
    else if opcode & 0xfd == 0x29 then Some(Sub)
    else if opcode & 0xfd == 0x89 then Some(Mov)
    else None
  }

  /** A four-bit register number. */
  function RegNumber(x: bv8): nat
  {
    if x == 0 then 0 else if x == 1 then 1 else if x == 2 then 2 else if x == 3 then 3
    else if x == 4 then 4 else if x == 5 then 5 else if x == 6 then 6 else if x == 7 then 7
    else if x == 8 then 8 else if x == 9 then 9 else if x == 10 then 10 else if x == 11 then 11
    else if x == 12 then 12 else if x == 13 then 13 else if x == 14 then 14 else 15
  }

  /** REX.R extends the reg field, REX.B the r/m field. */
  function RegField(rex: bv8, modrm: bv8): bv8
  {
    ((rex & 4) << 1) | ((modrm >> 3) & 7)
  }

  function RmField(rex: bv8, modrm: bv8): bv8
  {
    ((rex & 1) << 3) | (modrm & 7)
  }

  /** REX.W, an opcode byte and a register-direct ModRM byte. */
  function DecodeThree(rex: bv8, opcode: bv8, modrm: bv8): Option<Machine>
  {
    if rex & 0xf8 != 0x48 || modrm & 0xc0 != 0xc0 || OpOf(opcode).None? then None
    else
      var (reg, rm) := (RegNumber(RegField(rex, modrm)), RegNumber(RmField(rex, modrm)));
      Some(if opcode & 2 == 0 then Machine(OpOf(opcode).value, rm, reg)
           else Machine(OpOf(opcode).value, reg, rm))
  }

  /** Decodes a whole byte stream, or fails. */
  function DecodeAll(b: seq<bv8>): Option<seq<Machine>>
  {
    if b == [] then Some([])
    else if |b| < 3 || DecodeThree(b[0], b[1], b[2]).None? || DecodeAll(b[3..]).None? then None
    else Some([DecodeThree(b[0], b[1], b[2]).value] + DecodeAll(b[3..]).value)
  }

  // ---------------------------------------------------------------- meaning

  /** The sixteen general registers. */
  type HostRegs = r: seq<U64> | |r| == 16 witness seq(16, _ => 0)

  function MachineAlu(op: MachineOp, a: U64, b: U64): U64
  {
    match op
    case Add => Alu64(GROUP_ADD, a, b)
    case Or => Alu64(GROUP_OR, a, b)
    case And => Alu64(GROUP_AND, a, b)
    case Sub => Alu64(GROUP_SUB, a, b)
    case Mov => b
  }

  predicate InRange(m: Machine)
  {
    m.dst < 16 && m.src < 16
  }

  function MachineStep(m: Machine, r: HostRegs): HostRegs
    requires InRange(m)
  {
    r[m.dst := MachineAlu(m.op, r[m.dst], r[m.src])]
  }

  function MachineRun(ms: seq<Machine>, r: HostRegs): HostRegs
    requires forall m :: m in ms ==> InRange(m)
  {
    if ms == [] then r else MachineRun(ms[1..], MachineStep(ms[0], r))
  }
}
