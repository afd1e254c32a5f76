/** MIPS32 instruction words: field extraction, lifting to IR and what the words mean. */
module Mips {
  import opened Bits
  import opened Ir

  /** An instruction word. */
  type GuestWord = U32

  type RegId = g: nat | g < 32

  function Funct(w: GuestWord): nat { w % 64 }
  function Rd(w: GuestWord): RegId { w / 0x800 % 32 }
  function Rt(w: GuestWord): RegId { w / 0x1_0000 % 32 }
  function Rs(w: GuestWord): RegId { w / 0x20_0000 % 32 }
  function Opcode(w: GuestWord): nat { w / 0x400_0000 % 64 }

  datatype InstrType = R | I | J

  function TypeOf(w: GuestWord): InstrType
  {
    if Opcode(w) == 0 then R
    else if Opcode(w) != 2 && Opcode(w) != 3 then I
    else J
  }

  /** The function-field table of SPECIAL words. */
  function IrOpcode(funct: nat): bv16
  {
    if funct == 0x20 then ADD_I32
    else if funct == 0x25 then OR_I32
    else if funct == 0x24 then AND_I32
    else if funct == 0x22 then SUB_I32
    else INVALID_OPCODE
  }

  function RegOperand(id: RegId): Operand
  {
    Operand(Reg, id)
  }

  /** The operands of an R-type word in IR order: destination, first source, second source. */
  function WordOperands(w: GuestWord): OperandArray
  {
    OperandsOf(RegOperand(Rd(w)), RegOperand(Rs(w)), RegOperand(Rt(w)))
  }

  datatype Lifted = Lifted(instr: Instr) | NotImplemented

  /** I-type and J-type words run into an assertion that stops the program. */
  function ToIr(w: GuestWord): Lifted
  {
    if TypeOf(w) == R then
      Lifted.Lifted(Instr(IrOpcode(Funct(w)), WordOperands(w), 3))
    else
      NotImplemented
  }

  /** The operand set used by the liveness scan; every word is four bytes long. */
  function RegFetch(w: GuestWord): (OperandArray, OperandCount)
  {
    if TypeOf(w) == R && Funct(w) != 0 then
      (WordOperands(w), 3)
    else
      (OperandsOf(NO_OPERAND, NO_OPERAND, NO_OPERAND), 0)
  }

  // ---------------------------------------------------------------- meaning

  type GuestRegs = r: seq<U32> | |r| == 32 witness seq(32, _ => 0)

  /** A word the translator knows: SPECIAL add, or, and, sub. */
  predicate Supported(w: GuestWord)
  {
    TypeOf(w) == R && KnownFunct(Funct(w))
  }

  predicate KnownFunct(funct: nat)
  {
    funct == 0x20 || funct == 0x22 || funct == 0x24 || funct == 0x25
  }

  function Alu32(funct: nat, a: U32, b: U32): U32
  {
    BitwiseFits32(a, b);
    if funct == 0x20 then (a + b) % 0x1_0000_0000
    else if funct == 0x25 then BitOr(a, b)
    else if funct == 0x24 then BitAnd(a, b)
    else (a - b) % 0x1_0000_0000
  }

  /** Modulo 2^32 arithmetic without the overflow trap, and register 0 like any other. */
  function GuestStep(w: GuestWord, r: GuestRegs): GuestRegs
  {
    r[Rd(w) := Alu32(Funct(w), r[Rs(w)], r[Rt(w)])]
  }

  function GuestRun(ws: seq<GuestWord>, r: GuestRegs): GuestRegs
  {
    if ws == [] then r else GuestRun(ws[1..], GuestStep(ws[0], r))
  }

  // ---------------------------------------------------------------- words by their numbers

  /** Addition wraps once, and subtraction undoes it. */
  lemma AddAndSub(a: U32, b: U32)
    ensures Alu32(0x20, a, b) == if a + b < 0x1_0000_0000 then a + b else a + b - 0x1_0000_0000
    ensures Alu32(0x22, Alu32(0x20, a, b), b) == a
  {
    if a + b < 0x1_0000_0000 {
      ModUnique(a + b, 0x1_0000_0000, 0, a + b);
      ModUnique(a, 0x1_0000_0000, 0, a);
    } else {
      ModUnique(a + b, 0x1_0000_0000, 1, a + b - 0x1_0000_0000);
      ModUnique(a - 0x1_0000_0000, 0x1_0000_0000, -1, a);
    }
  }

  lemma AndOrBits(a: U32, b: U32, k: nat)
    ensures BitOf(Alu32(0x24, a, b), k) <==> BitOf(a, k) && BitOf(b, k)
    ensures BitOf(Alu32(0x25, a, b), k) <==> BitOf(a, k) || BitOf(b, k)
  {
    BitwiseBits(a, b, k);
  }

  /** The R-type words are those with six leading zeros; the J-type words have two opcodes. */
  lemma TypeExactly(w: GuestWord)
    ensures TypeOf(w) == R <==> w < 0x400_0000
    ensures TypeOf(w) == J <==> 0x800_0000 <= w < 0x1000_0000
  {
  }

  /** The translated words. */
  lemma SupportedExactly(w: GuestWord)
    ensures Supported(w) <==> w < 0x400_0000 && w % 64 in {0x20, 0x22, 0x24, 0x25}
    ensures Supported(w) <==> TypeOf(w) == R && IrOpcode(Funct(w)) != INVALID_OPCODE
  {
    TypeExactly(w);
    assert forall f :: KnownFunct(f) ==> IrOpcode(f) != INVALID_OPCODE;
  }

  /** An R-type word from its five fields. */
  function Assembled(rs: RegId, rt: RegId, rd: RegId, shift: nat, funct: nat): GuestWord
    requires shift < 32 && funct < 64
  {
    rs * 0x20_0000 + rt * 0x1_0000 + rd * 0x800 + shift * 64 + funct
  }

  /** Five bits above `low` others. */
  lemma FieldReadsBack(high: nat, field: nat, low: nat, p: nat, w: nat)
    requires p >= 1 && field < 32 && low < p && w == high * (32 * p) + field * p + low
    ensures w / p % 32 == field
  {
    assert w == p * (32 * high + field) + low;
    DivUnique(w, p, 32 * high + field, low);
    ModUnique(32 * high + field, 32, high, field);
  }

  lemma SourcesReadBack(rs: RegId, rt: RegId, low: nat, w: nat)
    requires low < 0x1_0000 && w == rs * 0x20_0000 + rt * 0x1_0000 + low
    ensures w / 0x20_0000 % 32 == rs && w / 0x1_0000 % 32 == rt
  {
    FieldReadsBack(0, rs, rt * 0x1_0000 + low, 0x20_0000, w);
    FieldReadsBack(rs, rt, low, 0x1_0000, w);
  }

  lemma RestReadsBack(top: nat, rd: RegId, shift: nat, funct: nat, w: nat)
    requires shift < 32 && funct < 64 && w == top * 0x1_0000 + rd * 0x800 + shift * 64 + funct
    ensures w / 0x800 % 32 == rd && w / 64 % 32 == shift && w % 64 == funct
  {
    FieldReadsBack(top, rd, shift * 64 + funct, 0x800, w);
    FieldReadsBack(top * 32 + rd, shift, funct, 64, w);
    ModUnique(w, 64, top * 0x400 + rd * 32 + shift, funct);
  }

  /** All fields of an assembled word read back. */
  lemma FieldsReadBack(rs: RegId, rt: RegId, rd: RegId, shift: nat, funct: nat)
    requires shift < 32 && funct < 64
    ensures var w := Assembled(rs, rt, rd, shift, funct);
      TypeOf(w) == R && Rs(w) == rs && Rt(w) == rt && Rd(w) == rd && w / 64 % 32 == shift && Funct(w) == funct
  {
    var w := Assembled(rs, rt, rd, shift, funct);
    TypeExactly(w);
    SourcesReadBack(rs, rt, rd * 0x800 + shift * 64 + funct, w);
    RestReadsBack(rs * 32 + rt, rd, shift, funct, w);
  }

  /** Taking the low half commutes with every operation of the table. */
  lemma Low32Homomorphism(funct: nat, a: U64, b: U64)
    requires KnownFunct(funct)
    ensures Low32(Alu64(Group(IrOpcode(funct)), a, b)) == Alu32(funct, Low32(a), Low32(b))
  {
    BitwiseLow32(a, b);
    WrapLow32(a, b);
    TableGroups();
  }

  lemma TableGroups()
    ensures Group(ADD_I32) == GROUP_ADD && Group(OR_I32) == GROUP_OR
    ensures Group(AND_I32) == GROUP_AND && Group(SUB_I32) == GROUP_SUB
  {
  }

  lemma SupportedIsAlu(funct: nat)
    requires KnownFunct(funct)
    ensures IsAlu(IrOpcode(funct)) && IrOpcode(funct) != INVALID_OPCODE
    ensures Width(IrOpcode(funct)) == WIDTH_32
  {
  }
}
