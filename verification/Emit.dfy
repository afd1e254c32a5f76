/** The x86-64 emitter: operand summary, prefixes, ModRM and SIB, and the final byte buffer. */
module Emit {

  // ---------------------------------------------------------------- operands and opcodes

  const MEM: bv8 := 0x01
  const REG: bv8 := 0x02
  const SIB: bv8 := 0x11
  const DISP8: bv8 := 0x41
  const DISP32: bv8 := 0x81

  const W16: bv8 := 4
  const W32: bv8 := 5
  const W64: bv8 := 6

  /** The id bit of the registers r8 to r15. */
  const OP_EXT: bv8 := 0x80

  datatype OperandDesc = OperandDesc(kind: bv8, width: bv8)

  /** `scale`, `index` and `disp` matter for memory operands only. */
  datatype HostOperand = HostOperand(desc: OperandDesc, id: bv8, scale: bv8, index: bv8, disp: bv32)

  const NO_OPERAND: HostOperand := HostOperand(OperandDesc(0, 0), 0, 0, 0, 0)

  type HostOperands = s: seq<HostOperand> | |s| == 4
    witness [NO_OPERAND, NO_OPERAND, NO_OPERAND, NO_OPERAND]

  const FLAG_REX: bv8 := 1
  const FLAG_MODRM: bv8 := 2
  const FLAG_LEGACY: bv8 := 4

  /** The form bit that says the first operand goes to the r/m field. */
  const FORM_RM_R: bv8 := 8
  const FORM_R_RM: bv8 := 1

  type DescList = s: seq<OperandDesc> | |s| == 4
    witness [OperandDesc(0, 0), OperandDesc(0, 0), OperandDesc(0, 0), OperandDesc(0, 0)]

  datatype OpcodeDesc = OpcodeDesc(ops: DescList, count: nat, flags: bv8, form: bv8)

  const UNUSED: OperandDesc := OperandDesc(0, 0)
  const REG_OR_MEM_64: OperandDesc := OperandDesc(REG | MEM, W64)
  const REG_64: OperandDesc := OperandDesc(REG, W64)

  const ADD_RM: bv8 := 0x01
  const OR_RM: bv8 := 0x09
  const AND_RM: bv8 := 0x21
  const SUB_RM: bv8 := 0x29
  const MOV_RM: bv8 := 0x89
  const ADD_R: bv8 := 0x03
  const OR_R: bv8 := 0x0b
  const AND_R: bv8 := 0x23
  const SUB_R: bv8 := 0x2b
  const MOV_R: bv8 := 0x8b

  predicate StoresToRm(opcode: bv8)
  {
    opcode == ADD_RM || opcode == OR_RM || opcode == AND_RM || opcode == SUB_RM || opcode == MOV_RM
  }

  predicate LoadsFromRm(opcode: bv8)
  {
    opcode == ADD_R || opcode == OR_R || opcode == AND_R || opcode == SUB_R || opcode == MOV_R
  }

  /** The rows of the opcode table for the 64-bit two-operand opcodes; other rows are not modelled. */
  function OpcodeMeta(opcode: bv8): OpcodeDesc
  {
    if StoresToRm(opcode) then
      OpcodeDesc([REG_OR_MEM_64, REG_64, UNUSED, UNUSED], 2,
                 if opcode == MOV_RM then FLAG_REX | FLAG_MODRM else FLAG_REX | FLAG_MODRM | FLAG_LEGACY,
                 FORM_RM_R)
    else if LoadsFromRm(opcode) then
      OpcodeDesc([REG_64, REG_OR_MEM_64, UNUSED, UNUSED], 2, FLAG_REX | FLAG_MODRM, FORM_R_RM)
    else
      OpcodeDesc([UNUSED, UNUSED, UNUSED, UNUSED], 0, 0, 0)
  }

  // ---------------------------------------------------------------- operand summary

  datatype Summary = Summary(width: bv8, operand: bv8)

  datatype Acc = Acc(w0: bv8, w1: bv8, w2: bv8, o0: bv8)

  function When(c: bool, bit: bv8): bv8
  {
    if c then bit else 0
  }

  /** What one operand adds to the width and addressing bits. */
  function AddOperand(a: Acc, op: HostOperand): Acc
  {
    var t, w := op.desc.kind, op.desc.width;
    Acc((a.w0 & (0xf7 | When(w == W64 || t & MEM != 0, 8)))
          | When(t & DISP32 == DISP32, 0x40) | When(t & DISP8 == DISP8, 0x20),
        a.w1 | When(w == W16, 1),
        a.w2 | When(t & MEM == MEM && w == W32, 0x10),
        a.o0 | When(t & SIB == SIB, 0x10) | When(t & SIB == SIB && op.id & OP_EXT == OP_EXT, 0x20)
          | When(t & MEM == MEM, 0x40))
  }

  function StartAcc(form: bv8): Acc
  {
    Acc(8, 0, 0, (form & 8) << 4)
  }

  function AccOf(form: bv8, ops: HostOperands, n: nat): Acc
    requires n <= 4
  {
    if n == 0 then StartAcc(form) else AddOperand(AccOf(form, ops, n - 1), ops[n - 1])
  }

  /** The extension bits of destination and source, exchanged for the r/m-first forms. */
  function ExtensionBits(form: bv8, t0: HostOperand, t1: HostOperand): bv8
  {
    var (dest, src) := if form & 8 != 0 then (t1, t0) else (t0, t1);
    var destMem, srcMem := dest.desc.kind & MEM != 0, src.desc.kind & MEM != 0;
    var destExt, srcExt := dest.id & OP_EXT != 0, src.id & OP_EXT != 0;
    When(destExt && !destMem, 8) | When(destExt && destMem, 4)
      | When(srcExt && !srcMem, 2) | When(srcExt && srcMem, 1)
  }

  function SummaryOf(desc: OpcodeDesc, ops: HostOperands): Summary
    requires desc.count <= 4
  {
    var a := AccOf(desc.form, ops, desc.count);
    Summary(a.w0 | a.w1 | a.w2, a.o0 | ExtensionBits(desc.form, ops[0], ops[1]))
  }

  method SumCalc(desc: OpcodeDesc, ops: HostOperands) returns (sum: Summary)
    requires desc.count <= 4
    ensures sum == SummaryOf(desc, ops)
  {
    var acc := StartAcc(desc.form);
    var i := 0;
    while i < desc.count
      invariant i <= desc.count
      invariant acc == AccOf(desc.form, ops, i)
    {
      acc := AddOperand(acc, ops[i]);
      i := i + 1;
    }
    sum := Summary(acc.w0 | acc.w1 | acc.w2, acc.o0 | ExtensionBits(desc.form, ops[0], ops[1]));
  }

  // ---------------------------------------------------------------- prefixes and addressing bytes

  /** The operands are exchanged a second time here. */
  function Rex(sum: Summary): bv8
  {
    var flip := sum.operand & 0x80 != 0;
    var dest := sum.operand & 0x08 != 0 || sum.operand & 0x04 != 0;
    var src := sum.operand & 0x02 != 0 || sum.operand & 0x01 != 0;
    var rex := 0x40 | When(sum.width & 8 != 0, 8) | When(if flip then src else dest, 4)
                    | When(sum.operand & 0x20 != 0, 2) | When(if flip then dest else src, 1);
    if rex == 0x40 then 0 else rex
  }

  function Legacy(sum: Summary): bv8
  {
    if sum.width & 0x10 != 0 && sum.width & 1 == 0 then 0x67
    else if sum.width & 0x10 == 0 && sum.width & 1 != 0 then 0x66
    else 0
  }

  const MOD_MAGIC: bv32 := 0x0088_4403

  function ModRm(op0: bv8, op1: bv8, sum: Summary): bv8
  {
    var modI: bv32 := (if sum.width & 0x40 != 0 then 8 else 0) | (if sum.width & 0x20 != 0 then 4 else 0)
                 | (if sum.operand & 0x10 != 0 then 2 else 0) | (if sum.operand & 0x40 != 0 then 1 else 0);
    var flip := sum.operand & 0x80 != 0;
    var (rmId, regId) := if flip then (op0, op1) else (op1, op0);
    var mod := ((MOD_MAGIC >> (modI << 1)) & 3) as bv8;
    var rm := if modI & 2 != 0 then 4 else rmId & 7;
    (mod << 6) | ((regId & 7) << 3) | rm
  }

  /** The operand whose memory part is used is always operand 0. */
  function SibByte(op: HostOperand, sum: Summary): bv8
  {
    if sum.operand & 0x10 == 0 then 0
    else ((op.index & 7) << 3) | (op.id & 7) | (((0xe4 as bv8) >> ((op.scale & 3) << 1)) << 6)
  }

  // ---------------------------------------------------------------- the byte buffer

  type Slots = s: seq<bv8> | |s| == 16 witness seq(16, _ => 0)
  type Presence = s: seq<bool> | |s| == 16 witness seq(16, _ => false)

  /** The bytes of the present slots below n, highest slot first. */
  function Compact(hold: Slots, present: Presence, n: nat): seq<bv8>
    requires n <= 16
  {
    if n == 0 then []
    else (if present[n - 1] then [hold[n - 1]] else []) + Compact(hold, present, n - 1)
  }

  /** Copies the present slots to the front of `buf`; an absent slot writes a zero that is overwritten. */
  method CompactInto(hold: Slots, present: Presence, buf: array<bv8>) returns (len: nat)
    requires buf.Length >= 16
    modifies buf
    ensures len <= 16 && buf[..len] == Compact(hold, present, 16)
  {
    var i := 16;
    len := 0;
    while i > 0
      invariant 0 <= i <= 16 && len <= 16 - i
      invariant buf[..len] + Compact(hold, present, i) == Compact(hold, present, 16)
    {
      i := i - 1;
      ghost var done, rest := buf[..len], Compact(hold, present, i);
      buf[len] := if present[i] then hold[i] else 0;
      assert buf[..len] == done;
      if present[i] {
        assert Compact(hold, present, i + 1) == [hold[i]] + rest;
        assert buf[..len + 1] + rest == done + ([hold[i]] + rest);
        len := len + 1;
      } else {
        assert Compact(hold, present, i + 1) == rest;
      }
    }
    assert buf[..len] + [] == buf[..len];
  }

  datatype Layout = Layout(hold: Slots, present: Presence)

  function DispByte(disp: bv32, shift: nat): bv8
    requires shift <= 24
  {
    ((disp >> shift) & 0xff) as bv8
  }

  /** The contents of the sixteen slots for an opcode of one byte. */
  function LayoutOf(opcode: bv8, desc: OpcodeDesc, sum: Summary, ops: HostOperands): Layout
  {
    var rex := if desc.flags & FLAG_REX != 0 then Rex(sum) else 0;
    var leg := if desc.flags & FLAG_LEGACY != 0 then Legacy(sum) else 0;
    var modrm := if desc.flags & FLAG_MODRM != 0 then ModRm(ops[0].id, ops[1].id, sum) else 0;
    var sib := SibByte(ops[0], sum);
    var mode := (sum.width >> 5) & 3;
    var disp := ops[0].disp;
    Layout(
      [DispByte(disp, 24), DispByte(disp, 16), DispByte(disp, 8), DispByte(disp, 0),
       sib, modrm, opcode, 0, 0, rex, leg, 0, 0, 0, 0, 0],
      [mode & 2 != 0, mode & 2 != 0, mode & 2 != 0, mode != 0,
       sib != 0, modrm != 0, true, false, false, rex != 0, leg != 0, false, false, false, false, false])
  }

  function EmittedBytes(opcode: bv8, ops: HostOperands): seq<bv8>
  {
    var desc := OpcodeMeta(opcode);
    var l := LayoutOf(opcode, desc, SummaryOf(desc, ops), ops);
    Compact(l.hold, l.present, 16)
  }

  method Emit64(opcode: bv8, ops: HostOperands, buf: array<bv8>) returns (len: nat)
    requires buf.Length >= 16
    modifies buf
    ensures len <= 16 && buf[..len] == EmittedBytes(opcode, ops)
  {
    var desc := OpcodeMeta(opcode);
    var sum := SumCalc(desc, ops);
    var layout := LayoutOf(opcode, desc, sum, ops);
    len := CompactInto(layout.hold, layout.present, buf);
  }
}
