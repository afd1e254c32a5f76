/** Which instructions with a memory operand the emitter encodes so that a decoder recovers them. */
module MemoryForms {
  import opened Wrappers
  import opened Emit
  import opened Lower
  import opened Decode
  import opened Encoding

  // ---------------------------------------------------------------- decoding

  /** What a ModRM byte that is not register-direct addresses; a missing index has scale 0. */
  datatype Address =
    | Based(base: nat, index: Option<nat>, scale: bv8, disp: bv32)
    | Unbased(index: Option<nat>, scale: bv8, disp: bv32)
    | RipRelative(disp: bv32)

  /** `narrow` is the address-size prefix, `stores` the direction of the opcode. */
  datatype MemoryInstr = MemoryInstr(op: MachineOp, stores: bool, reg: nat, narrow: bool, address: Address)

  function SignExtended(b: bv8): bv32
  {
    if b & 0x80 != 0 then 0xffff_ff00 | (b as bv32) else b as bv32
  }

  /** Four bytes, the lowest first. */
  function Word(t: seq<bv8>): bv32
    requires |t| == 4
  {
    (t[0] as bv32) | ((t[1] as bv32) << 8) | ((t[2] as bv32) << 16) | ((t[3] as bv32) << 24)
  }

  /** The displacement that the mod field announces, which must be all that is left. */
  function DecodeDisp(mod: bv8, t: seq<bv8>): Option<bv32>
  {
    if mod == 0 && |t| == 0 then Some(0)
    else if mod == 1 && |t| == 1 then Some(SignExtended(t[0]))
    else if mod == 2 && |t| == 4 then Some(Word(t))
    else None
  }

  function IndexField(rex: bv8, sib: bv8): bv8
  {
    ((rex & 2) << 2) | ((sib >> 3) & 7)
  }

  function BaseField(rex: bv8, sib: bv8): bv8
  {
    ((rex & 1) << 3) | (sib & 7)
  }

  /** Index number 4 means that there is none. */
  function DecodeIndex(rex: bv8, sib: bv8): Option<nat>
  {
    if IndexField(rex, sib) == 4 then None else Some(RegNumber(IndexField(rex, sib)))
  }

  function DecodeScale(rex: bv8, sib: bv8): bv8
  {
    if IndexField(rex, sib) == 4 then 0 else sib >> 6
  }

  function DecodeSib(rex: bv8, mod: bv8, sib: bv8, t: seq<bv8>): Option<Address>
  {
    if sib & 7 == 5 && mod == 0 then
      if |t| == 4 then Some(Unbased(DecodeIndex(rex, sib), DecodeScale(rex, sib), Word(t))) else None
    else
      match DecodeDisp(mod, t)
      case None => None
      case Some(d) => Some(Based(RegNumber(BaseField(rex, sib)), DecodeIndex(rex, sib), DecodeScale(rex, sib), d))
  }

  /** Tables 2-2 and 2-3 of the Intel SDM Vol. 2, section 2.1.5. */
  function DecodeAddress(rex: bv8, modrm: bv8, t: seq<bv8>): Option<Address>
  {
    var mod, rm := modrm >> 6, modrm & 7;
    if rm == 4 then
      if |t| == 0 then None else DecodeSib(rex, mod, t[0], t[1..])
    else if rm == 5 && mod == 0 then
      if |t| == 4 then Some(RipRelative(Word(t))) else None
    else
      match DecodeDisp(mod, t)
      case None => None
      case Some(d) => Some(Based(RegNumber(RmField(rex, modrm)), None, 0, d))
  }

  /** REX.W, an opcode byte, a ModRM byte that addresses memory, and what belongs to it. */
  function DecodeWide(b: seq<bv8>, narrow: bool): Option<MemoryInstr>
  {
    if |b| < 3 || b[0] & 0xf8 != 0x48 || OpOf(b[1]).None? || b[2] & 0xc0 == 0xc0 then None
    else
      match DecodeAddress(b[0], b[2], b[3..])
      case None => None
      case Some(a) => Some(MemoryInstr(OpOf(b[1]).value, b[1] & 2 == 0, RegNumber(RegField(b[0], b[2])), narrow, a))
  }

  /** The bytes as one instruction. */
  function DecodeMemory(b: seq<bv8>): Option<MemoryInstr>
  {
    if |b| > 0 && b[0] == 0x67 then DecodeWide(b[1..], true) else DecodeWide(b, false)
  }

  // ---------------------------------------------------------------- memory operands

  datatype Size = NoDisp | Disp8 | Disp32

  /** `[base + index * 2^scale + disp]`, the index being absent unless `indexed`, with 64-bit registers
  if `wide` and 32-bit ones otherwise. */
  datatype Cell = Cell(base: nat, indexed: bool, index: nat, scale: bv8, size: Size, disp: bv32, wide: bool)

  predicate InCell(m: Cell)
  {
    m.base < 16 && m.index < 16 && m.scale < 4
  }

  function SizeBits(size: Size): bv8
  {
    match size
    case NoDisp => 0
    case Disp8 => DISP8
    case Disp32 => DISP32
  }

  function CellOperand(m: Cell): HostOperand
    requires InCell(m)
  {
    HostOperand(OperandDesc((if m.indexed then SIB else MEM) | SizeBits(m.size), if m.wide then W64 else W32),
                RegToOperand(m.base), m.scale, RegToOperand(m.index), m.disp)
  }

  function RegisterOperand(id: nat): HostOperand
    requires id < 16
  {
    HostOperand(OperandDesc(REG, W64), RegToOperand(id), 0, 0, 0)
  }

  /** The displacement that is meant. */
  function MeantDisp(m: Cell): bv32
  {
    if m.size == NoDisp then 0 else m.disp
  }

  function MeantAddress(m: Cell): Address
  {
    if m.indexed then Based(m.base, Some(m.index), m.scale, MeantDisp(m)) else Based(m.base, None, 0, MeantDisp(m))
  }

  // ---------------------------------------------------------------- the bytes

  function Opt(c: bool, b: bv8): seq<bv8>
  {
    if c then [b] else []
  }

  /** The displacement slots, the lowest byte first. */
  function DispBytes(hold: Slots, present: Presence): seq<bv8>
  {
    Opt(present[3], hold[3]) + (Opt(present[2], hold[2]) + (Opt(present[1], hold[1]) + Opt(present[0], hold[0])))
  }

  lemma CompactOne(hold: Slots, present: Presence, n: nat)
    requires n < 16
    ensures Compact(hold, present, n + 1) == Opt(present[n], hold[n]) + Compact(hold, present, n)
  {
  }

  lemma CompactDisp(hold: Slots, present: Presence)
    ensures Compact(hold, present, 4) == DispBytes(hold, present)
  {
    assert Compact(hold, present, 0) == [];
    CompactOne(hold, present, 0);
    CompactOne(hold, present, 1);
    CompactOne(hold, present, 2);
    CompactOne(hold, present, 3);
    assert Compact(hold, present, 1) == Opt(present[0], hold[0]);
  }

  lemma Skips(hold: Slots, present: Presence, n: nat)
    requires n < 16 && !present[n]
    ensures Compact(hold, present, n + 1) == Compact(hold, present, n)
  {
    CompactOne(hold, present, n);
    assert [] + Compact(hold, present, n) == Compact(hold, present, n);
  }

  /** Prefixes, opcode, ModRM, SIB and displacement, as far as they are present. */
  lemma CompactAll(hold: Slots, present: Presence)
    requires present[6] && !present[7] && !present[8] && forall k :: 11 <= k < 16 ==> !present[k]
    ensures Compact(hold, present, 16)
         == Opt(present[10], hold[10]) + (Opt(present[9], hold[9])
            + ([hold[6]] + (Opt(present[5], hold[5]) + (Opt(present[4], hold[4]) + DispBytes(hold, present)))))
  {
    CompactDisp(hold, present);
    CompactOne(hold, present, 4);
    CompactOne(hold, present, 5);
    CompactOne(hold, present, 6);
    Skips(hold, present, 7);
    Skips(hold, present, 8);
    CompactOne(hold, present, 9);
    CompactOne(hold, present, 10);
    Skips(hold, present, 11);
    Skips(hold, present, 12);
    Skips(hold, present, 13);
    Skips(hold, present, 14);
    Skips(hold, present, 15);
  }

  // ---------------------------------------------------------------- the summary of a memory operand

  function WidthByte(size: Size, wide: bool): bv8
  {
    8 | When(size == Disp32, 0x40) | When(size == Disp8, 0x20) | When(!wide, 0x10)
  }

  function CellByte(flip: bool, indexed: bool, eb: bool, er: bool): bv8
  {
    0x40 | When(flip, 0x80) | When(indexed, 0x10) | When(indexed && eb, 0x20)
      | When(er, 8) | When(eb, 1)
  }

  lemma KindBits(indexed: bool, size: Size)
    ensures var t := (if indexed then SIB else MEM) | SizeBits(size);
      && t & MEM == MEM && (t & SIB == SIB <==> indexed)
      && (t & DISP8 == DISP8 <==> size == Disp8) && (t & DISP32 == DISP32 <==> size == Disp32)
  {
  }

  lemma CellAcc(a: Acc, m: Cell)
    requires InCell(m)
    ensures AddOperand(a, CellOperand(m))
         == Acc(a.w0 | When(m.size == Disp32, 0x40) | When(m.size == Disp8, 0x20), a.w1,
                a.w2 | When(!m.wide, 0x10),
                a.o0 | When(m.indexed, 0x10) | When(m.indexed && Extended(m.base), 0x20) | 0x40)
  {
    RegisterId(m.base);
    KindBits(m.indexed, m.size);
    AllOnes(a);
  }

  lemma AllOnes(a: Acc)
    ensures a.w0 & (0xf7 | 8) == a.w0 && a.w1 | 0 == a.w1
  {
  }

  lemma RegisterAcc(a: Acc, id: nat)
    requires id < 16
    ensures AddOperand(a, RegisterOperand(id)) == a
  {
  }

  /** The operands in the order of the form: memory first where the opcode stores to r/m. */
  function Operands(opcode: bv8, m: Cell, id: nat): HostOperands
    requires InCell(m) && id < 16
  {
    if StoresToRm(opcode) then [CellOperand(m), RegisterOperand(id), Emit.NO_OPERAND, Emit.NO_OPERAND]
    else [RegisterOperand(id), CellOperand(m), Emit.NO_OPERAND, Emit.NO_OPERAND]
  }

  lemma CellSummary(opcode: bv8, m: Cell, id: nat)
    requires TwoOperandOpcode(opcode) && InCell(m) && id < 16
    ensures SummaryOf(OpcodeMeta(opcode), Operands(opcode, m, id))
         == Summary(WidthByte(m.size, m.wide), CellByte(StoresToRm(opcode), m.indexed, Extended(m.base), Extended(id)))
  {
    var ops, form := Operands(opcode, m, id), OpcodeMeta(opcode).form;
    RegisterId(m.base);
    RegisterId(id);
    assert AccOf(form, ops, 0) == StartAcc(form);
    if StoresToRm(opcode) {
      CellAcc(StartAcc(form), m);
      RegisterAcc(AccOf(form, ops, 1), id);
    } else {
      RegisterAcc(StartAcc(form), id);
      CellAcc(StartAcc(form), m);
    }
    assert AccOf(form, ops, 1) == AddOperand(AccOf(form, ops, 0), ops[0]);
    assert AccOf(form, ops, 2) == AddOperand(AccOf(form, ops, 1), ops[1]);
    CellExtensions(form, m, id, StoresToRm(opcode));
  }

  lemma CellExtensions(form: bv8, m: Cell, id: nat, flip: bool)
    requires InCell(m) && id < 16 && form == if flip then FORM_RM_R else FORM_R_RM
    ensures var (t0, t1) := if flip then (CellOperand(m), RegisterOperand(id))
                            else (RegisterOperand(id), CellOperand(m));
      ExtensionBits(form, t0, t1) == When(Extended(id), 8) | When(Extended(m.base), 1)
  {
    RegisterId(m.base);
    RegisterId(id);
    assert CellOperand(m).desc.kind & MEM != 0;
  }

  // The prefixes and addressing bytes.

  function ModOf(size: Size): bv8
  {
    match size
    case NoDisp => 0
    case Disp8 => 1
    case Disp32 => 2
  }

  function CellRex(flip: bool, indexed: bool, eb: bool, er: bool): bv8
  {
    0x48 | When(if flip then eb else er, 4) | When(indexed && eb, 2) | When(if flip then er else eb, 1)
  }

  lemma RexOfCell(size: Size, wide: bool, flip: bool, indexed: bool, eb: bool, er: bool)
    ensures Rex(Summary(WidthByte(size, wide), CellByte(flip, indexed, eb, er))) == CellRex(flip, indexed, eb, er)
  {
  }

  lemma LegacyOfCell(size: Size, wide: bool, operand: bv8)
    ensures Legacy(Summary(WidthByte(size, wide), operand)) == if wide then 0 else 0x67
    ensures (WidthByte(size, wide) >> 5) & 3 == match size
      case NoDisp => 0
      case Disp8 => 1
      case Disp32 => 2
  {
  }

  /** The r/m field is that of the cell, or says that a SIB byte follows. */
  function CellModRm(size: Size, indexed: bool, base: bv8, reg: bv8): bv8
  {
    (ModOf(size) << 6) | ((reg & 7) << 3) | (if indexed then 4 else base & 7)
  }

  lemma ModRmOfCell(size: Size, wide: bool, flip: bool, indexed: bool, eb: bool, er: bool, base: bv8, reg: bv8)
    ensures var (op0, op1) := if flip then (base, reg) else (reg, base);
      ModRm(op0, op1, Summary(WidthByte(size, wide), CellByte(flip, indexed, eb, er)))
      == CellModRm(size, indexed, base, reg)
  {
    var operand := CellByte(flip, indexed, eb, er);
    assert operand & 0x80 == When(flip, 0x80) && operand & 0x10 == When(indexed, 0x10) && operand & 0x40 == 0x40;
    var width := WidthByte(size, wide);
    assert width & 0x40 == When(size == Disp32, 0x40) && width & 0x20 == When(size == Disp8, 0x20);
  }

  function CellSib(scale: bv8, index: bv8, base: bv8): bv8
  {
    ((index & 7) << 3) | (base & 7) | ((scale & 3) << 6)
  }

  lemma SibOf(op: HostOperand, width: bv8, flip: bool, indexed: bool, eb: bool, er: bool)
    ensures SibByte(op, Summary(width, CellByte(flip, indexed, eb, er)))
         == if indexed then CellSib(op.scale, op.index, op.id) else 0
  {
    assert CellByte(flip, indexed, eb, er) & 0x10 == When(indexed, 0x10);
    assert ((0xe4 as bv8) >> ((op.scale & 3) << 1)) << 6 == (op.scale & 3) << 6;
  }

  // The whole instruction.

  function DispOf(size: Size, disp: bv32): seq<bv8>
  {
    match size
    case NoDisp => []
    case Disp8 => [DispByte(disp, 0)]
    case Disp32 => [DispByte(disp, 0), DispByte(disp, 8), DispByte(disp, 16), DispByte(disp, 24)]
  }

  /** ModRM, SIB and displacement; a byte that is zero is left out. */
  function Addressing(modrm: bv8, sib: bv8, size: Size, disp: bv32): seq<bv8>
  {
    Opt(modrm != 0, modrm) + (Opt(sib != 0, sib) + DispOf(size, disp))
  }

  predicate Narrowed(opcode: bv8, m: Cell)
  {
    !m.wide && OpcodeMeta(opcode).flags & FLAG_LEGACY != 0
  }

  lemma DispOfSlots(hold: Slots, present: Presence, size: Size, disp: bv32)
    requires present[3] == (size != NoDisp) && present[2] == present[1] == present[0] == (size == Disp32)
    requires hold[3] == DispByte(disp, 0) && hold[2] == DispByte(disp, 8)
    requires hold[1] == DispByte(disp, 16) && hold[0] == DispByte(disp, 24)
    ensures DispBytes(hold, present) == DispOf(size, disp)
  {
  }

  lemma ModeBits(mode: bv8)
    requires mode == 0 || mode == 1 || mode == 2
    ensures mode & 2 != 0 <==> mode == 2
  {
  }

  lemma DispSlots(l: Layout, opcode: bv8, desc: OpcodeDesc, sum: Summary, ops: HostOperands, size: Size)
    requires l == LayoutOf(opcode, desc, sum, ops)
    requires (sum.width >> 5) & 3 == match size
      case NoDisp => 0
      case Disp8 => 1
      case Disp32 => 2
    ensures DispBytes(l.hold, l.present) == DispOf(size, ops[0].disp)
  {
    ModeBits((sum.width >> 5) & 3);
    DispOfSlots(l.hold, l.present, size, ops[0].disp);
  }

  lemma Joined(leg: seq<bv8>, rex: bv8, opcode: bv8, rest: seq<bv8>)
    ensures leg + ([rex] + ([opcode] + rest)) == leg + ([rex, opcode] + rest)
  {
    assert [rex] + ([opcode] + rest) == [rex, opcode] + rest;
  }

  lemma LayoutBytes(opcode: bv8, desc: OpcodeDesc, sum: Summary, ops: HostOperands, size: Size, rex: bv8)
    requires desc.flags & FLAG_REX != 0 && desc.flags & FLAG_MODRM != 0 && Rex(sum) == rex && rex != 0
    requires (sum.width >> 5) & 3 == match size
      case NoDisp => 0
      case Disp8 => 1
      case Disp32 => 2
    ensures var l := LayoutOf(opcode, desc, sum, ops);
      var leg := if desc.flags & FLAG_LEGACY != 0 then Legacy(sum) else 0;
      Compact(l.hold, l.present, 16)
      == Opt(leg != 0, leg)
         + ([rex, opcode]
            + Addressing(ModRm(ops[0].id, ops[1].id, sum), SibByte(ops[0], sum), size, ops[0].disp))
  {
    var l := LayoutOf(opcode, desc, sum, ops);
    var leg := if desc.flags & FLAG_LEGACY != 0 then Legacy(sum) else 0;
    CompactAll(l.hold, l.present);
    DispSlots(l, opcode, desc, sum, ops, size);
    Joined(Opt(leg != 0, leg), rex, opcode,
           Addressing(ModRm(ops[0].id, ops[1].id, sum), SibByte(ops[0], sum), size, ops[0].disp));
  }

  lemma EmittedAs(opcode: bv8, desc: OpcodeDesc, sum: Summary, ops: HostOperands)
    requires desc == OpcodeMeta(opcode) && sum == SummaryOf(desc, ops)
    ensures var l := LayoutOf(opcode, desc, sum, ops); EmittedBytes(opcode, ops) == Compact(l.hold, l.present, 16)
  {
  }

  lemma RowFlags(opcode: bv8)
    requires TwoOperandOpcode(opcode)
    ensures OpcodeMeta(opcode).flags & FLAG_REX != 0 && OpcodeMeta(opcode).flags & FLAG_MODRM != 0
    ensures OpcodeMeta(opcode).flags & FLAG_LEGACY != 0 <==> StoresToRm(opcode) && opcode != MOV_RM
  {
  }

  lemma CellPrefix(opcode: bv8, m: Cell, operand: bv8)
    requires TwoOperandOpcode(opcode)
    ensures var sum := Summary(WidthByte(m.size, m.wide), operand);
      var leg := if OpcodeMeta(opcode).flags & FLAG_LEGACY != 0 then Legacy(sum) else 0;
      Opt(leg != 0, leg) == Opt(Narrowed(opcode, m), 0x67)
  {
    LegacyOfCell(m.size, m.wide, operand);
  }

  /** The bytes of an instruction with a memory operand. SIB byte and displacement are taken from operand 0,
  also where that is the register. */
  lemma CellBytes(opcode: bv8, m: Cell, id: nat)
    requires TwoOperandOpcode(opcode) && InCell(m) && id < 16
    ensures var flip, op := StoresToRm(opcode), Operands(opcode, m, id)[0];
      EmittedBytes(opcode, Operands(opcode, m, id))
      == Opt(Narrowed(opcode, m), 0x67)
         + ([CellRex(flip, m.indexed, Extended(m.base), Extended(id)), opcode]
            + Addressing(CellModRm(m.size, m.indexed, RegToOperand(m.base), RegToOperand(id)),
                         if m.indexed then CellSib(op.scale, op.index, op.id) else 0, m.size, op.disp))
  {
    var eb, er := Extended(m.base), Extended(id);
    CellSummary(opcode, m, id);
    RowFlags(opcode);
    SummaryBytes(opcode, m, id, SummaryOf(OpcodeMeta(opcode), Operands(opcode, m, id)),
                 CellByte(StoresToRm(opcode), m.indexed, eb, er));
  }

  lemma SummaryBytes(opcode: bv8, m: Cell, id: nat, sum: Summary, operand: bv8)
    requires TwoOperandOpcode(opcode) && InCell(m) && id < 16
    requires operand == CellByte(StoresToRm(opcode), m.indexed, Extended(m.base), Extended(id))
    requires sum == Summary(WidthByte(m.size, m.wide), operand)
    requires sum == SummaryOf(OpcodeMeta(opcode), Operands(opcode, m, id))
    requires OpcodeMeta(opcode).flags & FLAG_REX != 0 && OpcodeMeta(opcode).flags & FLAG_MODRM != 0
    ensures var flip, op := StoresToRm(opcode), Operands(opcode, m, id)[0];
      EmittedBytes(opcode, Operands(opcode, m, id))
      == Opt(Narrowed(opcode, m), 0x67)
         + ([CellRex(flip, m.indexed, Extended(m.base), Extended(id)), opcode]
            + Addressing(CellModRm(m.size, m.indexed, RegToOperand(m.base), RegToOperand(id)),
                         if m.indexed then CellSib(op.scale, op.index, op.id) else 0, m.size, op.disp))
  {
    var flip, ops, desc := StoresToRm(opcode), Operands(opcode, m, id), OpcodeMeta(opcode);
    var eb, er := Extended(m.base), Extended(id);
    RexOfCell(m.size, m.wide, flip, m.indexed, eb, er);
    RexShape(flip, m.indexed, eb, er);
    CellPrefix(opcode, m, operand);
    LegacyOfCell(m.size, m.wide, operand);
    ModRmOfCell(m.size, m.wide, flip, m.indexed, eb, er, RegToOperand(m.base), RegToOperand(id));
    SibOf(ops[0], sum.width, flip, m.indexed, eb, er);
    LayoutBytes(opcode, desc, sum, ops, m.size, CellRex(flip, m.indexed, eb, er));
    EmittedAs(opcode, desc, sum, ops);
  }

  // ---------------------------------------------------------------- what the decoder sees

  lemma ByteOf(disp: bv32, shift: nat)
    requires shift <= 24
    ensures DispByte(disp, shift) as bv32 == (disp >> shift) & 0xff
  {
  }

  lemma Reassembled(disp: bv32)
    ensures (disp & 0xff) | (((disp >> 8) & 0xff) << 8) | (((disp >> 16) & 0xff) << 16) | (((disp >> 24) & 0xff) << 24)
         == disp
  {
  }

  lemma WordOfBytes(disp: bv32)
    ensures Word([DispByte(disp, 0), DispByte(disp, 8), DispByte(disp, 16), DispByte(disp, 24)]) == disp
  {
    ByteOf(disp, 0);
    ByteOf(disp, 8);
    ByteOf(disp, 16);
    ByteOf(disp, 24);
    Reassembled(disp);
  }

  /** The displacement is a sign-extended byte. */
  predicate FitsByte(disp: bv32)
  {
    disp < 0x80 || disp >= 0xffff_ff80
  }

  lemma ByteExtends(disp: bv32)
    ensures SignExtended(DispByte(disp, 0)) == disp <==> FitsByte(disp)
  {
  }

  function SeenDisp(size: Size, disp: bv32): bv32
  {
    match size
    case NoDisp => 0
    case Disp8 => SignExtended(DispByte(disp, 0))
    case Disp32 => disp
  }

  lemma DispDecodes(size: Size, disp: bv32)
    ensures DecodeDisp(ModOf(size), DispOf(size, disp)) == Some(SeenDisp(size, disp))
  {
    WordOfBytes(disp);
  }

  lemma ModRmFields(size: Size, indexed: bool, base: bv8, reg: bv8)
    ensures var modrm := CellModRm(size, indexed, base, reg);
      && modrm >> 6 == ModOf(size) && (modrm >> 3) & 7 == reg & 7 && modrm & 7 == (if indexed then 4 else base & 7)
      && modrm & 0xc0 != 0xc0
      && (modrm == 0 <==> size == NoDisp && !indexed && base & 7 == 0 && reg & 7 == 0)
  {
  }

  /** A missing byte behind the ModRM byte is noticed by the length. */
  lemma TooShort(size: Size, disp: bv32)
    ensures var t := DispOf(size, disp); |t| > 0 ==> DecodeDisp(ModOf(size), t[1..]) == None
  {
  }

  /** Without a SIB byte. */
  lemma PlainDecodes(rex: bv8, size: Size, base: bv8, reg: bv8, disp: bv32)
    ensures var modrm := CellModRm(size, false, base, reg);
      DecodeAddress(rex, modrm, DispOf(size, disp))
      == if base & 7 == 4 || (base & 7 == 5 && size == NoDisp) then None
         else Some(Based(RegNumber(RmField(rex, modrm)), None, 0, SeenDisp(size, disp)))
  {
    ModRmFields(size, false, base, reg);
    DispDecodes(size, disp);
    TooShort(size, disp);
  }

  /** With one, unless it is zero and left out. */
  lemma SibDecodes(rex: bv8, size: Size, base: bv8, reg: bv8, sib: bv8, disp: bv32)
    ensures var modrm := CellModRm(size, true, base, reg);
      DecodeAddress(rex, modrm, Opt(sib != 0, sib) + DispOf(size, disp))
      == if sib == 0 || (sib & 7 == 5 && size == NoDisp) then None
         else Some(Based(RegNumber(BaseField(rex, sib)), DecodeIndex(rex, sib), DecodeScale(rex, sib),
                         SeenDisp(size, disp)))
  {
    ModRmFields(size, true, base, reg);
    DispDecodes(size, disp);
    TooShort(size, disp);
    if sib == 0 {
      assert [] + DispOf(size, disp) == DispOf(size, disp);
    } else {
      assert ([sib] + DispOf(size, disp))[1..] == DispOf(size, disp);
    }
  }

  /** What the decoder makes of rex, opcode, and the rest. */
  lemma WideDecodes(rex: bv8, opcode: bv8, modrm: bv8, t: seq<bv8>, narrow: bool)
    requires rex & 0xf8 == 0x48 && OpOf(opcode).Some? && modrm & 0xc0 != 0xc0
    ensures DecodeWide([rex, opcode] + ([modrm] + t), narrow)
         == match DecodeAddress(rex, modrm, t)
            case None => None
            case Some(a) => Some(MemoryInstr(OpOf(opcode).value, opcode & 2 == 0, RegNumber(RegField(rex, modrm)),
                                             narrow, a))
  {
    var b := [rex, opcode] + ([modrm] + t);
    assert b[0] == rex && b[1] == opcode && b[2] == modrm && b[3..] == t;
  }

  lemma PrefixDecodes(narrow: bool, rex: bv8, rest: seq<bv8>)
    requires rex & 0xf8 == 0x48
    ensures DecodeMemory(Opt(narrow, 0x67) + ([rex] + rest)) == DecodeWide([rex] + rest, narrow)
  {
    if narrow {
      assert ([0x67] + ([rex] + rest))[1..] == [rex] + rest;
    } else {
      assert [] + ([rex] + rest) == [rex] + rest;
    }
  }

  // ---------------------------------------------------------------- register numbers

  lemma FieldsSeen(size: Size, flip: bool, indexed: bool, eb: bool, er: bool, base: bv8, reg: bv8)
    ensures var rex, modrm := CellRex(flip, indexed, eb, er), CellModRm(size, indexed, base, reg);
      && RegField(rex, modrm) == When(if flip then eb else er, 8) | (reg & 7)
      && (!indexed ==> RmField(rex, modrm) == When(if flip then er else eb, 8) | (base & 7))
  {
    ModRmFields(size, indexed, base, reg);
  }

  lemma SibFieldsSeen(flip: bool, eb: bool, er: bool, scale: bv8, index: bv8, base: bv8)
    ensures var rex, sib := CellRex(flip, true, eb, er), CellSib(scale, index, base);
      && BaseField(rex, sib) == When(if flip then er else eb, 8) | (base & 7)
      && IndexField(rex, sib) == When(eb, 8) | (index & 7)
      && sib >> 6 == scale & 3 && sib & 7 == base & 7
      && (sib == 0 <==> scale & 3 == 0 && index & 7 == 0 && base & 7 == 0)
  {
  }

  /** The low three bits of an operand id as a number, and the index number that stands for none. */
  lemma LowBits(id: nat, high: bool)
    requires id < 16
    ensures RegToOperand(id) & 7 == 0 <==> id % 8 == 0
    ensures RegToOperand(id) & 7 == 4 <==> id % 8 == 4
    ensures RegToOperand(id) & 7 == 5 <==> id % 8 == 5
    ensures When(high, 8) | (RegToOperand(id) & 7) == 4 <==> !high && id % 8 == 4
  {
  }

  // ---------------------------------------------------------------- memory first

  /** The address that the decoder sees when memory is operand 0: base and register have exchanged their
  extension bits, and the index has that of the base. */
  function SeenStore(m: Cell, id: nat): Address
    requires InCell(m) && id < 16
  {
    var base, index := WithExtensionOf(m.base, id), WithExtensionOf(m.index, m.base);
    if !m.indexed then Based(base, None, 0, SeenDisp(m.size, m.disp))
    else if index == 4 then Based(base, None, 0, SeenDisp(m.size, m.disp))
    else Based(base, Some(index), m.scale, SeenDisp(m.size, m.disp))
  }

  /** The addressing bytes that are left out because they are zero, or that mean something else. */
  predicate Unseen(m: Cell, id: nat)
  {
    || (m.base % 8 == 5 && m.size == NoDisp)
    || (if m.indexed then m.scale == 0 && m.index % 8 == 0 && m.base % 8 == 0
        else m.base % 8 == 4 || (m.base % 8 == 0 && id % 8 == 0 && m.size == NoDisp))
  }

  lemma PlainStoreAddress(m: Cell, id: nat, rex: bv8, modrm: bv8)
    requires InCell(m) && id < 16 && !m.indexed && modrm != 0
    requires rex == CellRex(true, false, Extended(m.base), Extended(id))
    requires modrm == CellModRm(m.size, false, RegToOperand(m.base), RegToOperand(id))
    ensures DecodeAddress(rex, modrm, DispOf(m.size, m.disp))
         == if Unseen(m, id) then None else Some(SeenStore(m, id))
  {
    var base, reg := RegToOperand(m.base), RegToOperand(id);
    ModRmFields(m.size, false, base, reg);
    FieldsSeen(m.size, true, false, Extended(m.base), Extended(id), base, reg);
    LowBits(m.base, false);
    LowBits(id, false);
    JoinedNumber(Extended(id), m.base);
    PlainDecodes(rex, m.size, base, reg, m.disp);
  }

  lemma SibStoreAddress(m: Cell, id: nat, rex: bv8, modrm: bv8, sib: bv8)
    requires InCell(m) && id < 16 && m.indexed
    requires rex == CellRex(true, true, Extended(m.base), Extended(id))
    requires modrm == CellModRm(m.size, true, RegToOperand(m.base), RegToOperand(id))
    requires sib == CellSib(m.scale, RegToOperand(m.index), RegToOperand(m.base))
    ensures DecodeAddress(rex, modrm, Opt(sib != 0, sib) + DispOf(m.size, m.disp))
         == if Unseen(m, id) then None else Some(SeenStore(m, id))
  {
    var eb := Extended(m.base);
    SibFieldsSeen(true, eb, Extended(id), m.scale, RegToOperand(m.index), RegToOperand(m.base));
    LowBits(m.base, false);
    LowBits(m.index, eb);
    ScaleKept(m.scale);
    JoinedNumber(Extended(id), m.base);
    JoinedNumber(eb, m.index);
    SibDecodes(rex, m.size, RegToOperand(m.base), RegToOperand(id), sib, m.disp);
  }

  lemma ScaleKept(scale: bv8)
    requires scale < 4
    ensures scale & 3 == scale
  {
  }

  /** The decoder's view of the emitted bytes. */
  function SeenStoreInstr(opcode: bv8, m: Cell, id: nat): Option<MemoryInstr>
    requires TwoOperandOpcode(opcode) && InCell(m) && id < 16
  {
    if Unseen(m, id) then None
    else Some(MemoryInstr(OpOf(opcode).value, true, WithExtensionOf(id, m.base), Narrowed(opcode, m), SeenStore(m, id)))
  }

  lemma NoModRm(rex: bv8, opcode: bv8, narrow: bool)
    requires rex & 0xf8 == 0x48
    ensures DecodeMemory(Opt(narrow, 0x67) + ([rex, opcode] + [])) == None
  {
    assert [rex, opcode] + [] == [rex] + [opcode];
    PrefixDecodes(narrow, rex, [opcode]);
  }

  lemma OneInstr(narrow: bool, rex: bv8, opcode: bv8, modrm: bv8, t: seq<bv8>)
    requires rex & 0xf8 == 0x48 && OpOf(opcode).Some? && modrm & 0xc0 != 0xc0 && modrm != 0
    ensures DecodeMemory(Opt(narrow, 0x67) + ([rex, opcode] + (Opt(modrm != 0, modrm) + t)))
         == match DecodeAddress(rex, modrm, t)
            case None => None
            case Some(a) => Some(MemoryInstr(OpOf(opcode).value, opcode & 2 == 0, RegNumber(RegField(rex, modrm)),
                                             narrow, a))
  {
    assert [rex, opcode] + ([modrm] + t) == [rex] + ([opcode] + ([modrm] + t));
    PrefixDecodes(narrow, rex, [opcode] + ([modrm] + t));
    WideDecodes(rex, opcode, modrm, t, narrow);
  }

  lemma RexShape(flip: bool, indexed: bool, eb: bool, er: bool)
    ensures CellRex(flip, indexed, eb, er) & 0xf8 == 0x48
  {
  }

  /** The address bytes of a store, the ModRM byte apart. */
  function StoreTail(m: Cell): seq<bv8>
    requires InCell(m)
  {
    var sib := if m.indexed then CellSib(m.scale, RegToOperand(m.index), RegToOperand(m.base)) else 0;
    Opt(sib != 0, sib) + DispOf(m.size, m.disp)
  }

  lemma StoreTailDecodes(m: Cell, id: nat, rex: bv8, modrm: bv8)
    requires InCell(m) && id < 16 && modrm != 0
    requires rex == CellRex(true, m.indexed, Extended(m.base), Extended(id))
    requires modrm == CellModRm(m.size, m.indexed, RegToOperand(m.base), RegToOperand(id))
    ensures DecodeAddress(rex, modrm, StoreTail(m)) == if Unseen(m, id) then None else Some(SeenStore(m, id))
  {
    if m.indexed {
      SibStoreAddress(m, id, rex, modrm, CellSib(m.scale, RegToOperand(m.index), RegToOperand(m.base)));
    } else {
      assert StoreTail(m) == DispOf(m.size, m.disp);
      PlainStoreAddress(m, id, rex, modrm);
    }
  }

  /** A ModRM byte of zero is left out, and nothing follows it. */
  lemma ZeroModRm(m: Cell, id: nat)
    requires InCell(m) && id < 16
    ensures CellModRm(m.size, m.indexed, RegToOperand(m.base), RegToOperand(id)) == 0
       <==> m.size == NoDisp && !m.indexed && m.base % 8 == 0 && id % 8 == 0
  {
    ModRmFields(m.size, m.indexed, RegToOperand(m.base), RegToOperand(id));
    LowBits(m.base, false);
    LowBits(id, false);
  }

  lemma StoreRegister(m: Cell, id: nat, rex: bv8, modrm: bv8)
    requires InCell(m) && id < 16
    requires rex == CellRex(true, m.indexed, Extended(m.base), Extended(id))
    requires modrm == CellModRm(m.size, m.indexed, RegToOperand(m.base), RegToOperand(id))
    ensures RegNumber(RegField(rex, modrm)) == WithExtensionOf(id, m.base) && modrm & 0xc0 != 0xc0
  {
    ModRmFields(m.size, m.indexed, RegToOperand(m.base), RegToOperand(id));
    FieldsSeen(m.size, true, m.indexed, Extended(m.base), Extended(id), RegToOperand(m.base), RegToOperand(id));
    JoinedNumber(Extended(m.base), id);
  }

  lemma StoreBytes(opcode: bv8, m: Cell, id: nat, rex: bv8, modrm: bv8)
    requires StoresToRm(opcode) && InCell(m) && id < 16
    requires rex == CellRex(true, m.indexed, Extended(m.base), Extended(id))
    requires modrm == CellModRm(m.size, m.indexed, RegToOperand(m.base), RegToOperand(id))
    ensures EmittedBytes(opcode, Operands(opcode, m, id))
         == Opt(Narrowed(opcode, m), 0x67) + ([rex, opcode] + (Opt(modrm != 0, modrm) + StoreTail(m)))
  {
    CellBytes(opcode, m, id);
  }

  lemma StoreDecodes(opcode: bv8, m: Cell, id: nat)
    requires StoresToRm(opcode) && InCell(m) && id < 16
    ensures DecodeMemory(EmittedBytes(opcode, Operands(opcode, m, id))) == SeenStoreInstr(opcode, m, id)
  {
    var rex := CellRex(true, m.indexed, Extended(m.base), Extended(id));
    var modrm := CellModRm(m.size, m.indexed, RegToOperand(m.base), RegToOperand(id));
    StoreBytes(opcode, m, id, rex, modrm);
    RexShape(true, m.indexed, Extended(m.base), Extended(id));
    StoreOpcode(opcode);
    ZeroModRm(m, id);
    if modrm == 0 {
      assert Opt(modrm != 0, modrm) + StoreTail(m) == [];
      NoModRm(rex, opcode, Narrowed(opcode, m));
    } else {
      StoreTailDecodes(m, id, rex, modrm);
      StoreRegister(m, id, rex, modrm);
      OneInstr(Narrowed(opcode, m), rex, opcode, modrm, StoreTail(m));
    }
  }

  lemma StoreOpcode(opcode: bv8)
    requires StoresToRm(opcode)
    ensures OpOf(opcode).Some? && opcode & 2 == 0
  {
  }

  /** What an instruction with this memory operand and this register means. */
  function Meant(opcode: bv8, m: Cell, id: nat): MemoryInstr
    requires TwoOperandOpcode(opcode)
  {
    MemoryInstr(OpOf(opcode).value, StoresToRm(opcode), id, !m.wide, MeantAddress(m))
  }

  /** The decoder recovers what is meant. */
  predicate Recovered(opcode: bv8, m: Cell, id: nat)
    requires TwoOperandOpcode(opcode) && InCell(m) && id < 16
  {
    DecodeMemory(EmittedBytes(opcode, Operands(opcode, m, id))) == Some(Meant(opcode, m, id))
  }

  lemma DispSeen(m: Cell)
    ensures SeenDisp(m.size, m.disp) == MeantDisp(m) <==> (m.size == Disp8 ==> FitsByte(m.disp))
  {
    ByteExtends(m.disp);
  }

  lemma IndexSeen(index: nat, base: nat)
    requires index < 16 && base < 16
    ensures var seen := WithExtensionOf(index, base);
      seen != 4 && seen == index <==> (Extended(index) <==> Extended(base)) && index != 4
  {
    ExtensionKept(index, base);
  }

  lemma StoreSeenAsMeant(m: Cell, id: nat)
    requires InCell(m) && id < 16
    ensures SeenStore(m, id) == MeantAddress(m) <==>
      && (Extended(m.base) <==> Extended(id)) && (m.size == Disp8 ==> FitsByte(m.disp))
      && (m.indexed ==> (Extended(m.index) <==> Extended(m.base)) && m.index != 4)
  {
    DispSeen(m);
    ExtensionKept(m.base, id);
    IndexSeen(m.index, m.base);
    AddressesDiffer(WithExtensionOf(m.base, id), m.base, WithExtensionOf(m.index, m.base), m, SeenDisp(m.size, m.disp));
  }

  lemma AddressesDiffer(base: nat, meant: nat, index: nat, m: Cell, disp: bv32)
    requires meant == m.base
    ensures (if !m.indexed || index == 4 then Based(base, None, 0, disp) else Based(base, Some(index), m.scale, disp))
         == MeantAddress(m)
       <==> base == meant && disp == MeantDisp(m) && (m.indexed ==> index != 4 && index == m.index)
  {
  }

  predicate StoreFits(opcode: bv8, m: Cell, id: nat)
  {
    && (Extended(m.base) <==> Extended(id))
    && (m.indexed ==> (Extended(m.index) <==> Extended(m.base)) && m.index != 4)
    && (m.size == Disp8 ==> FitsByte(m.disp)) && (m.wide || opcode != MOV_RM) && !Unseen(m, id)
  }

  /** `op [base + index * 2^scale + disp], reg` is encoded so that a decoder recovers it exactly when base,
  register and index are all extended or none is, the index is not register 4, a one-byte displacement
  fits, 32-bit addressing is not asked of MOV, the base is not one that means something else (4 and 12
  without an index, 5 and 13 without a displacement), and neither the SIB byte nor the ModRM byte
  is zero. */
  lemma StoreEncodedExactly(opcode: bv8, m: Cell, id: nat)
    requires StoresToRm(opcode) && InCell(m) && id < 16
    ensures Recovered(opcode, m, id) <==> StoreFits(opcode, m, id)
  {
    StoreDecodes(opcode, m, id);
    RowFlags(opcode);
    StoreSeenAsMeant(m, id);
    ExtensionKept(id, m.base);
  }

  // ---------------------------------------------------------------- memory second

  /** The address that the decoder sees when memory is operand 1: without an index that of the operand,
  with one the register and the index and scale of operand 0, which are zero; the displacement is that
  of operand 0 as well. */
  function SeenLoad(m: Cell, id: nat): Address
    requires InCell(m) && id < 16
  {
    if m.indexed then Based(WithExtensionOf(id, m.base), Some(if Extended(m.base) then 8 else 0), 0, 0)
    else Based(m.base, None, 0, 0)
  }

  /** The addressing bytes of a load that are left out or mean something else. */
  predicate UnseenLoad(m: Cell, id: nat)
  {
    if m.indexed then id % 8 == 0 || (id % 8 == 5 && m.size == NoDisp)
    else m.base % 8 == 4 || (m.size == NoDisp && (m.base % 8 == 5 || (m.base % 8 == 0 && id % 8 == 0)))
  }

  lemma ZeroDisp(size: Size)
    ensures SeenDisp(size, 0) == 0
  {
  }

  lemma PlainLoadAddress(m: Cell, id: nat, rex: bv8, modrm: bv8)
    requires InCell(m) && id < 16 && !m.indexed && modrm != 0
    requires rex == CellRex(false, false, Extended(m.base), Extended(id))
    requires modrm == CellModRm(m.size, false, RegToOperand(m.base), RegToOperand(id))
    ensures DecodeAddress(rex, modrm, DispOf(m.size, 0))
         == if UnseenLoad(m, id) then None else Some(SeenLoad(m, id))
  {
    var base, reg := RegToOperand(m.base), RegToOperand(id);
    ModRmFields(m.size, false, base, reg);
    FieldsSeen(m.size, false, false, Extended(m.base), Extended(id), base, reg);
    LowBits(m.base, false);
    LowBits(id, false);
    JoinedNumber(Extended(m.base), m.base);
    ZeroDisp(m.size);
    PlainDecodes(rex, m.size, base, reg, 0);
  }

  lemma SibLoadAddress(m: Cell, id: nat, rex: bv8, modrm: bv8, sib: bv8)
    requires InCell(m) && id < 16 && m.indexed
    requires rex == CellRex(false, true, Extended(m.base), Extended(id))
    requires modrm == CellModRm(m.size, true, RegToOperand(m.base), RegToOperand(id))
    requires sib == CellSib(0, 0, RegToOperand(id))
    ensures DecodeAddress(rex, modrm, Opt(sib != 0, sib) + DispOf(m.size, 0))
         == if UnseenLoad(m, id) then None else Some(SeenLoad(m, id))
  {
    var eb := Extended(m.base);
    SibFieldsSeen(false, eb, Extended(id), 0, 0, RegToOperand(id));
    LowBits(id, false);
    JoinedNumber(eb, id);
    ZeroDisp(m.size);
    IndexZero(eb);
    SibDecodes(rex, m.size, RegToOperand(m.base), RegToOperand(id), sib, 0);
  }

  lemma IndexZero(eb: bool)
    ensures When(eb, 8) | (0 & 7) != 4 && RegNumber(When(eb, 8) | (0 & 7)) == if eb then 8 else 0
  {
  }

  /** The address bytes of a load, the ModRM byte apart. */
  function LoadTail(m: Cell, id: nat): seq<bv8>
    requires InCell(m) && id < 16
  {
    var sib := if m.indexed then CellSib(0, 0, RegToOperand(id)) else 0;
    Opt(sib != 0, sib) + DispOf(m.size, 0)
  }

  lemma LoadTailDecodes(m: Cell, id: nat, rex: bv8, modrm: bv8)
    requires InCell(m) && id < 16 && modrm != 0
    requires rex == CellRex(false, m.indexed, Extended(m.base), Extended(id))
    requires modrm == CellModRm(m.size, m.indexed, RegToOperand(m.base), RegToOperand(id))
    ensures DecodeAddress(rex, modrm, LoadTail(m, id)) == if UnseenLoad(m, id) then None else Some(SeenLoad(m, id))
  {
    if m.indexed {
      SibLoadAddress(m, id, rex, modrm, CellSib(0, 0, RegToOperand(id)));
    } else {
      assert LoadTail(m, id) == DispOf(m.size, 0);
      PlainLoadAddress(m, id, rex, modrm);
    }
  }

  lemma LoadRegister(m: Cell, id: nat, rex: bv8, modrm: bv8)
    requires InCell(m) && id < 16
    requires rex == CellRex(false, m.indexed, Extended(m.base), Extended(id))
    requires modrm == CellModRm(m.size, m.indexed, RegToOperand(m.base), RegToOperand(id))
    ensures RegNumber(RegField(rex, modrm)) == id && modrm & 0xc0 != 0xc0
  {
    ModRmFields(m.size, m.indexed, RegToOperand(m.base), RegToOperand(id));
    FieldsSeen(m.size, false, m.indexed, Extended(m.base), Extended(id), RegToOperand(m.base), RegToOperand(id));
    JoinedNumber(Extended(id), id);
  }

  lemma LoadOpcode(opcode: bv8)
    requires LoadsFromRm(opcode)
    ensures OpOf(opcode).Some? && opcode & 2 != 0 && !StoresToRm(opcode)
  {
  }

  lemma LoadBytes(opcode: bv8, m: Cell, id: nat, rex: bv8, modrm: bv8)
    requires LoadsFromRm(opcode) && InCell(m) && id < 16
    requires rex == CellRex(false, m.indexed, Extended(m.base), Extended(id))
    requires modrm == CellModRm(m.size, m.indexed, RegToOperand(m.base), RegToOperand(id))
    ensures EmittedBytes(opcode, Operands(opcode, m, id))
         == Opt(false, 0x67) + ([rex, opcode] + (Opt(modrm != 0, modrm) + LoadTail(m, id)))
  {
    LoadOpcode(opcode);
    RowFlags(opcode);
    CellBytes(opcode, m, id);
  }

  /** What the decoder makes of a load. */
  lemma LoadDecodes(opcode: bv8, m: Cell, id: nat)
    requires LoadsFromRm(opcode) && InCell(m) && id < 16
    ensures DecodeMemory(EmittedBytes(opcode, Operands(opcode, m, id)))
         == if UnseenLoad(m, id) then None
            else Some(MemoryInstr(OpOf(opcode).value, false, id, false, SeenLoad(m, id)))
  {
    var rex := CellRex(false, m.indexed, Extended(m.base), Extended(id));
    var modrm := CellModRm(m.size, m.indexed, RegToOperand(m.base), RegToOperand(id));
    LoadBytes(opcode, m, id, rex, modrm);
    RexShape(false, m.indexed, Extended(m.base), Extended(id));
    LoadOpcode(opcode);
    ZeroModRm(m, id);
    if modrm == 0 {
      assert Opt(modrm != 0, modrm) + LoadTail(m, id) == [];
      NoModRm(rex, opcode, false);
    } else {
      LoadTailDecodes(m, id, rex, modrm);
      LoadRegister(m, id, rex, modrm);
      OneInstr(false, rex, opcode, modrm, LoadTail(m, id));
    }
  }

  lemma SameLowBits(id: nat, base: nat)
    requires id < 16 && base < 16
    ensures WithExtensionOf(id, base) == base <==> id % 8 == base % 8
  {
  }

  lemma LoadSeenAsMeant(m: Cell, id: nat)
    requires InCell(m) && id < 16
    ensures SeenLoad(m, id) == MeantAddress(m) <==>
      && MeantDisp(m) == 0
      && (m.indexed ==> id % 8 == m.base % 8 && m.index == (if Extended(m.base) then 8 else 0) && m.scale == 0)
  {
    SameLowBits(id, m.base);
  }

  predicate LoadFits(m: Cell, id: nat)
  {
    && m.wide && MeantDisp(m) == 0 && !UnseenLoad(m, id)
    && (m.indexed ==> id % 8 == m.base % 8 && m.index == (if Extended(m.base) then 8 else 0) && m.scale == 0)
  }

  /** `op reg, [base + index * 2^scale + disp]` is encoded so that a decoder recovers it exactly when
  addressing is 64-bit, no other displacement than zero is asked for, no addressing byte is left out or
  means something else, and, if there is an index, it and the scale are the zero bits that operand 0 has
  and the register shares its low bits with the base. */
  lemma LoadEncodedExactly(opcode: bv8, m: Cell, id: nat)
    requires LoadsFromRm(opcode) && InCell(m) && id < 16
    ensures Recovered(opcode, m, id) <==> LoadFits(m, id)
  {
    LoadDecodes(opcode, m, id);
    LoadOpcode(opcode);
    LoadSeenAsMeant(m, id);
  }

  // ---------------------------------------------------------------- operands of the emitter's own suite

  /** `[base]` */
  function At(base: nat): Cell
  {
    Cell(base, false, 0, 0, NoDisp, 0, true)
  }

  /** `[base + index * 2^scale + disp]` */
  function AtIndex(base: nat, index: nat, scale: bv8, disp: bv32): Cell
  {
    Cell(base, true, index, scale, Disp32, disp, true)
  }

  lemma SuiteFits(op: bv8)
    requires op == ADD_RM
    ensures StoreFits(op, At(0), 1) && !StoreFits(op, At(2), 15)
    ensures !StoreFits(op, AtIndex(10, 9, 3, 0x1000), 0) && !StoreFits(op, AtIndex(3, 0, 1, 0xff), 10)
    ensures LoadFits(At(1), 0)
    ensures !LoadFits(AtIndex(10, 9, 3, 0x1000), 0) && !LoadFits(AtIndex(3, 0, 1, 0xff), 10)
  {
  }

  lemma StoreDecided(op: bv8, m: Cell, id: nat, fits: bool)
    requires op == ADD_RM && InCell(m) && id < 16 && fits == StoreFits(op, m, id)
    ensures Recovered(op, m, id) == fits
  {
    StoreEncodedExactly(op, m, id);
  }

  lemma LoadDecided(op: bv8, m: Cell, id: nat, fits: bool)
    requires op == ADD_R && InCell(m) && id < 16 && fits == LoadFits(m, id)
    ensures Recovered(op, m, id) == fits
  {
    LoadEncodedExactly(op, m, id);
  }

  /** `add [rax], rcx` is encoded rightly; `add [rdx], r15`, `add [r10 + r9*8 + 0x1000], rax` and
  `add [rbx + rax*2 + 0xff], r10` are not. */
  lemma SuiteStores(op: bv8, rax: Cell, rdx: Cell, m: Cell, k: Cell)
    requires op == ADD_RM && rax == At(0) && rdx == At(2)
    requires m == AtIndex(10, 9, 3, 0x1000) && k == AtIndex(3, 0, 1, 0xff)
    ensures Recovered(op, rax, 1) && !Recovered(op, rdx, 15) && !Recovered(op, m, 0) && !Recovered(op, k, 10)
  {
    SuiteFits(op);
    StoreDecided(op, rax, 1, true);
    StoreDecided(op, rdx, 15, false);
    StoreDecided(op, m, 0, false);
    StoreDecided(op, k, 10, false);
  }

  /** `add rax, [rcx]` is encoded rightly; `add rax, [r10 + r9*8 + 0x1000]` and
  `add r10, [rbx + rax*2 + 0xff]` are not. */
  lemma SuiteLoads(op: bv8, rcx: Cell, m: Cell, k: Cell)
    requires op == ADD_R && rcx == At(1) && m == AtIndex(10, 9, 3, 0x1000) && k == AtIndex(3, 0, 1, 0xff)
    ensures Recovered(op, rcx, 0) && !Recovered(op, m, 0) && !Recovered(op, k, 10)
  {
    SuiteFits(ADD_RM);
    LoadDecided(op, rcx, 0, true);
    LoadDecided(op, m, 0, false);
    LoadDecided(op, k, 10, false);
  }
}
