/** Lowering an IR instruction with register operands to an opcode and host operands. */
module Lower {
  import opened Ir
  import opened Emit

  /** Register number to operand id; the upper eight carry the extension bit. */
  function RegToOperand(id: nat): bv8
    requires id < 16
  {
    if id == 0 then 0x00 else if id == 1 then 0x01 else if id == 2 then 0x02 else if id == 3 then 0x03
    else if id == 4 then 0x04 else if id == 5 then 0x05 else if id == 6 then 0x06 else if id == 7 then 0x07
    else if id == 8 then 0x88 else if id == 9 then 0x89 else if id == 10 then 0x8a else if id == 11 then 0x8b
    else if id == 12 then 0x8c else if id == 13 then 0x8d else if id == 14 then 0x8e else 0x8f
  }

  /** Register-register opcodes for the 16, 32 and 64 bit widths; 0 is an invalid opcode. */
  function RegRegOpcode(group: bv16): bv8
  {
    if group == GROUP_ADD then ADD_RM
    else if group == GROUP_OR then OR_RM
    else if group == GROUP_AND then AND_RM
    else if group == GROUP_SUB then SUB_RM
    else if group == Group(GROUP_MOV) then MOV_RM
    else 0
  }

  /** Two-operand instructions skip the repeated destination. */
  function FirstOperand(i: Instr): nat
  {
    if i.ops[0].id == i.ops[1].id then 1 else 0
  }

  /** The assertion on the operand order: a MOV onto itself stops the program. */
  predicate Rejected(i: Instr)
  {
    i.ops[0].id == i.ops[1].id && DestMustDiffer(i.opcode)
  }

  /** Register operands of the sixteen host registers, and an opcode of 16 to 64 bits. */
  predicate RegisterForm(i: Instr)
  {
    && FirstOperand(i) + 2 <= i.count <= 3
    && (forall k :: 0 <= k < i.count ==> i.ops[k].kind == Reg && i.ops[k].id < 16)
    && (IsAlu(i.opcode) || IsMov(i.opcode))
    && Width(i.opcode) != WIDTH_8
  }

  function HostOperandOf(id: nat, desc: OperandDesc): HostOperand
    requires id < 16
  {
    HostOperand(OperandDesc(desc.kind & REG, desc.width), RegToOperand(id), 0, 0, 0)
  }

  /** The first n operands after the skipped one, converted with the widths of the opcode table. */
  function LoweredOperands(i: Instr, desc: OpcodeDesc, n: nat): HostOperands
    requires RegisterForm(i) && FirstOperand(i) + n <= i.count
  {
    seq(4, k requires 0 <= k < 4 =>
      if k < n then HostOperandOf(i.ops[FirstOperand(i) + k].id, desc.ops[k]) else Emit.NO_OPERAND)
  }

  datatype HostInstr = HostInstr(opcode: bv8, operands: HostOperands)

  function Lowered(i: Instr): HostInstr
    requires RegisterForm(i)
  {
    var opcode := RegRegOpcode(Group(i.opcode));
    HostInstr(opcode, LoweredOperands(i, OpcodeMeta(opcode), i.count - FirstOperand(i)))
  }

  method OpcodeConv(i: Instr) returns (opcode: bv8, operands: HostOperands)
    requires RegisterForm(i)
    ensures HostInstr(opcode, operands) == Lowered(i)
  {
    var first := FirstOperand(i);
    opcode := RegRegOpcode(Group(i.opcode));
    var desc := OpcodeMeta(opcode);
    operands := [Emit.NO_OPERAND, Emit.NO_OPERAND, Emit.NO_OPERAND, Emit.NO_OPERAND];
    var k := first;
    while k < i.count
      invariant first <= k <= i.count
      invariant operands == LoweredOperands(i, desc, k - first)
    {
      operands := operands[k - first := HostOperandOf(i.ops[k].id, desc.ops[k - first])];
      k := k + 1;
    }
  }

  function InstrBytes(i: Instr): seq<bv8>
    requires RegisterForm(i)
  {
    EmittedBytes(Lowered(i).opcode, Lowered(i).operands)
  }

  /** Stops the program, reported as `ok == false`, on a rejected operand order. */
  method IrToRaw(i: Instr, buf: array<bv8>) returns (ok: bool, len: nat)
    requires RegisterForm(i) && buf.Length >= 16
    modifies buf
    ensures ok <==> !Rejected(i)
    ensures ok ==> len <= 16 && buf[..len] == InstrBytes(i)
  {
    if Rejected(i) {
      return false, 0;
    }
    var opcode, operands := OpcodeConv(i);
    len := Emit64(opcode, operands, buf);
    ok := true;
  }
}
