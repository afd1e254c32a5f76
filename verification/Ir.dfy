/** The intermediate representation: packed opcodes, operand sets and what they mean. */
module Ir {
  import opened Bits

  // ---------------------------------------------------------------- opcode packing

  const DEST_NEQ_SRC: bv16 := 4

  const WIDTH_8: bv16 := 0
  const WIDTH_32: bv16 := 2

  const GROUP_ADD: bv16 := 1
  const GROUP_OR: bv16 := 2
  const GROUP_AND: bv16 := 3
  const GROUP_SUB: bv16 := 4
  const GROUP_ALLOC: bv16 := (DEST_NEQ_SRC << 10) | (GROUP_SUB + 1)
  const GROUP_DEALLOC: bv16 := (DEST_NEQ_SRC << 10) | (GROUP_ALLOC + 1)
  const GROUP_MOV: bv16 := (DEST_NEQ_SRC << 10) | (GROUP_DEALLOC + 1)

  /** Return bit, two width bits, three flag bits and ten group bits. */
  function Pack(ret: bv16, width: bv16, group: bv16): bv16
  {
    ((ret & 1) << 15) | ((width & 3) << 13) | (group & 0x1fff)
  }

  const INVALID_OPCODE: bv16 := 0
  const ADD_I32: bv16 := Pack(1, WIDTH_32, GROUP_ADD)
  const OR_I32: bv16 := Pack(1, WIDTH_32, GROUP_OR)
  const AND_I32: bv16 := Pack(1, WIDTH_32, GROUP_AND)
  const SUB_I32: bv16 := Pack(1, WIDTH_32, GROUP_SUB)

  function Width(opcode: bv16): bv16
  {
    (opcode >> 13) & 3
  }

  function Flags(opcode: bv16): bv16
  {
    (opcode >> 10) & 7
  }

  function Group(opcode: bv16): bv16
  {
    opcode & 0x3ff
  }

  function SwapGroup(opcode: bv16, group: bv16): bv16
  {
    (opcode & 0xe000) | group
  }

  predicate DestMustDiffer(opcode: bv16)
  {
    Flags(opcode) & DEST_NEQ_SRC != 0
  }

  /** The fields of a packed opcode read back. */
  lemma PackReadsBack(ret: bv16, width: bv16, group: bv16)
    requires ret < 2 && width < 4 && group < 0x2000
    ensures var opcode := Pack(ret, width, group);
      && opcode >> 15 == ret && Width(opcode) == width
      && Flags(opcode) == group >> 10 && Group(opcode) == group % 0x400
  {
  }

  // ---------------------------------------------------------------- instructions

  datatype OperandKind = Reg | Mem | Imm

  datatype Operand = Operand(kind: OperandKind, id: U8)

  const NO_OPERAND: Operand := Operand(Reg, 0)

  type OperandArray = s: seq<Operand> | |s| == 6
    witness [NO_OPERAND, NO_OPERAND, NO_OPERAND, NO_OPERAND, NO_OPERAND, NO_OPERAND]

  type OperandCount = n: nat | n <= 6

  datatype Instr = Instr(opcode: bv16, ops: OperandArray, count: OperandCount)

  function OperandsOf(a: Operand, b: Operand, c: Operand): OperandArray
  {
    [a, b, c, NO_OPERAND, NO_OPERAND, NO_OPERAND]
  }

  // ---------------------------------------------------------------- meaning

  /** Register contents, indexed by operand id. */
  type RegFile = r: seq<U64> | |r| == 256 witness seq(256, _ => 0)

  predicate IsAluGroup(group: bv16)
  {
    group == GROUP_ADD || group == GROUP_OR || group == GROUP_AND || group == GROUP_SUB
  }

  predicate IsAlu(opcode: bv16)
  {
    IsAluGroup(Group(opcode)) && !DestMustDiffer(opcode)
  }

  predicate IsMov(opcode: bv16)
  {
    && Group(opcode) == Group(GROUP_MOV)
    && DestMustDiffer(opcode)
  }

  /** The host computes every operation at 64 bits, whatever width the opcode names. */
  function Alu64(group: bv16, a: U64, b: U64): U64
  {
    BitwiseFits(a, b);
    if group == GROUP_ADD then (a + b) % 0x1_0000_0000_0000_0000
    else if group == GROUP_OR then BitOr(a, b)
    else if group == GROUP_AND then BitAnd(a, b)
    else (a - b) % 0x1_0000_0000_0000_0000
  }

  /** `op[0] = op op[1], op[2]` or `op[0] = mov op[1]`; anything else has no effect here. */
  function Exec(i: Instr, r: RegFile): RegFile
  {
    if IsAlu(i.opcode) then
      r[i.ops[0].id := Alu64(Group(i.opcode), r[i.ops[1].id], r[i.ops[2].id])]
    else if IsMov(i.opcode) then
      r[i.ops[0].id := r[i.ops[1].id]]
    else
      r
  }

  function ExecAll(code: seq<Instr>, r: RegFile): RegFile
  {
    if code == [] then r else ExecAll(code[1..], Exec(code[0], r))
  }

  lemma {:induction false} ExecAllAppend(a: seq<Instr>, b: seq<Instr>, r: RegFile)
    ensures ExecAll(a + b, r) == ExecAll(b, ExecAll(a, r))
  {
    if a == [] {
      assert a + b == b;
    } else {
      assert (a + b)[1..] == a[1..] + b;
      ExecAllAppend(a[1..], b, Exec(a[0], r));
    }
  }

  /** Replacing the group by MOV keeps the width of the data and is a valid MOV opcode. */
  lemma SwapToMov(opcode: bv16)
    ensures var mov := SwapGroup(opcode, GROUP_MOV);
      IsMov(mov) && Width(mov) == Width(opcode) && mov & 0x8000 == opcode & 0x8000 && !IsAlu(mov)
  {
  }
}
