/** Which register-direct instructions the emitter encodes so that a decoder recovers them. */
module Encoding {
  import opened Wrappers
  import opened Ir
  import opened Emit
  import opened Lower
  import opened Decode

  // ---------------------------------------------------------------- the bytes of one instruction

  predicate Extended(id: nat)
  {
    id >= 8
  }

  predicate TwoOperandOpcode(opcode: bv8)
  {
    StoresToRm(opcode) || LoadsFromRm(opcode)
  }

  /** The first two operands are the 64-bit registers a and b. */
  predicate RegisterPair(opcode: bv8, ops: HostOperands, a: nat, b: nat)
    requires a < 16 && b < 16
  {
    && ops[0] == HostOperandOf(a, OpcodeMeta(opcode).ops[0])
    && ops[1] == HostOperandOf(b, OpcodeMeta(opcode).ops[1])
  }

  lemma RegisterId(id: nat)
    requires id < 16
    ensures RegToOperand(id) & OP_EXT == When(Extended(id), OP_EXT)
    ensures RegToOperand(id) & 7 < 8
  {
  }

  /** A register number put together from an extension bit and the low three bits of an id. */
  lemma JoinedNumber(high: bool, id: nat)
    requires id < 16
    ensures RegNumber(When(high, 8) | (RegToOperand(id) & 7)) == (if high then 8 else 0) + id % 8
  {
  }

  lemma RegisterSummary(opcode: bv8, ops: HostOperands, a: nat, b: nat)
    requires TwoOperandOpcode(opcode) && a < 16 && b < 16 && RegisterPair(opcode, ops, a, b)
    ensures var desc := OpcodeMeta(opcode);
      SummaryOf(desc, ops) == Summary(8, OperandByte(StoresToRm(opcode), Extended(a), Extended(b)))
  {
    RegisterId(a);
    RegisterId(b);
    var form := OpcodeMeta(opcode).form;
    assert AccOf(form, ops, 0) == StartAcc(form);
    assert AccOf(form, ops, 1) == Acc(8, 0, 0, (form & 8) << 4);
    assert AccOf(form, ops, 2) == Acc(8, 0, 0, (form & 8) << 4);
  }

  /** Only the prefix, opcode and ModRM slots are present. */
  lemma CompactThree(hold: Slots, present: Presence)
    requires forall k :: 0 <= k < 16 ==> (present[k] <==> k == 9 || k == 6 || k == 5)
    ensures Compact(hold, present, 16) == [hold[9], hold[6], hold[5]]
  {
    assert Compact(hold, present, 1) == [];
    assert Compact(hold, present, 2) == [];
    assert Compact(hold, present, 3) == [];
    assert Compact(hold, present, 4) == [];
    assert Compact(hold, present, 5) == [];
    assert Compact(hold, present, 6) == [hold[5]];
    assert Compact(hold, present, 7) == [hold[6], hold[5]];
    assert Compact(hold, present, 8) == [hold[6], hold[5]];
    assert Compact(hold, present, 9) == [hold[6], hold[5]];
    assert Compact(hold, present, 10) == [hold[9], hold[6], hold[5]];
    assert Compact(hold, present, 11) == [hold[9], hold[6], hold[5]];
    assert Compact(hold, present, 12) == [hold[9], hold[6], hold[5]];
    assert Compact(hold, present, 13) == [hold[9], hold[6], hold[5]];
    assert Compact(hold, present, 14) == [hold[9], hold[6], hold[5]];
    assert Compact(hold, present, 15) == [hold[9], hold[6], hold[5]];
  }

  /** REX.R follows operand 0 and REX.B operand 1 for both forms. */
  function RexByte(a: nat, b: nat): bv8
  {
    0x48 | When(Extended(a), 4) | When(Extended(b), 1)
  }

  /** The reg and r/m fields do follow the form. */
  function ModRmByte(opcode: bv8, a: nat, b: nat): bv8
    requires a < 16 && b < 16
  {
    var (rm, reg) := if StoresToRm(opcode) then (a, b) else (b, a);
    0xc0 | ((RegToOperand(reg) & 7) << 3) | (RegToOperand(rm) & 7)
  }

  /** The operand byte of the summary for two registers. */
  function OperandByte(flip: bool, ea: bool, eb: bool): bv8
  {
    if flip then 0x80 | When(eb, 8) | When(ea, 2) else When(ea, 8) | When(eb, 2)
  }

  lemma RexOfSummary(flip: bool, ea: bool, eb: bool)
    ensures Rex(Summary(8, OperandByte(flip, ea, eb))) == 0x48 | When(ea, 4) | When(eb, 1)
  {
  }

  lemma ModRmOfSummary(flip: bool, ea: bool, eb: bool, x: bv8, y: bv8)
    ensures var (rm, reg) := if flip then (x, y) else (y, x);
      ModRm(x, y, Summary(8, OperandByte(flip, ea, eb))) == 0xc0 | ((reg & 7) << 3) | (rm & 7)
  {
    var operand := OperandByte(flip, ea, eb);
    assert operand & 0x50 == 0;
    assert operand & 0x80 == When(flip, 0x80);
  }

  lemma OtherBytesOfSummary(flip: bool, ea: bool, eb: bool, op: HostOperand)
    ensures var sum := Summary(8, OperandByte(flip, ea, eb));
      Legacy(sum) == 0 && SibByte(op, sum) == 0 && (sum.width >> 5) & 3 == 0
  {
    assert OperandByte(flip, ea, eb) & 0x10 == 0;
  }

  lemma BytesOfLayout(opcode: bv8, desc: OpcodeDesc, sum: Summary, ops: HostOperands, rex: bv8, modrm: bv8)
    requires desc.flags & FLAG_REX != 0 && desc.flags & FLAG_MODRM != 0
    requires Rex(sum) == rex && rex != 0
    requires ModRm(ops[0].id, ops[1].id, sum) == modrm && modrm != 0
    requires Legacy(sum) == 0 && SibByte(ops[0], sum) == 0 && (sum.width >> 5) & 3 == 0
    ensures var l := LayoutOf(opcode, desc, sum, ops);
      Compact(l.hold, l.present, 16) == [rex, opcode, modrm]
  {
    var l := LayoutOf(opcode, desc, sum, ops);
    CompactThree(l.hold, l.present);
  }

  lemma RegisterBytes(opcode: bv8, ops: HostOperands, a: nat, b: nat)
    requires TwoOperandOpcode(opcode) && a < 16 && b < 16 && RegisterPair(opcode, ops, a, b)
    ensures EmittedBytes(opcode, ops) == [RexByte(a, b), opcode, ModRmByte(opcode, a, b)]
  {
    var desc := OpcodeMeta(opcode);
    var flip, ea, eb := StoresToRm(opcode), Extended(a), Extended(b);
    RegisterSummary(opcode, ops, a, b);
    RexOfSummary(flip, ea, eb);
    ModRmOfSummary(flip, ea, eb, ops[0].id, ops[1].id);
    OtherBytesOfSummary(flip, ea, eb, ops[0]);
    BytesOfLayout(opcode, desc, SummaryOf(desc, ops), ops, RexByte(a, b), ModRmByte(opcode, a, b));
  }

  // ---------------------------------------------------------------- what a decoder sees

  lemma DecodedFields(ea: bool, eb: bool, reg: bv8, rm: bv8)
    ensures var rex := 0x48 | When(ea, 4) | When(eb, 1);
      var modrm := 0xc0 | ((reg & 7) << 3) | (rm & 7);
      && rex & 0xf8 == 0x48 && modrm & 0xc0 == 0xc0
      && RegField(rex, modrm) == When(ea, 8) | (reg & 7)
      && RmField(rex, modrm) == When(eb, 8) | (rm & 7)
  {
  }

  /** The instruction that names a as destination and b as source, under either form. */
  function Intended(opcode: bv8, a: nat, b: nat): Machine
    requires TwoOperandOpcode(opcode)
  {
    Machine(OpOf(opcode).value, a, b)
  }

  /** A register whose extension bit has been replaced by that of another. */
  function WithExtensionOf(id: nat, other: nat): nat
  {
    (if Extended(other) then 8 else 0) + id % 8
  }

  lemma ExtensionKept(id: nat, other: nat)
    requires id < 16 && other < 16
    ensures WithExtensionOf(id, other) == id <==> (Extended(id) <==> Extended(other))
  {
  }

  function Decoded(opcode: bv8, a: nat, b: nat): Machine
    requires TwoOperandOpcode(opcode)
  {
    if StoresToRm(opcode) then Machine(OpOf(opcode).value, WithExtensionOf(a, b), WithExtensionOf(b, a))
    else Intended(opcode, a, b)
  }

  lemma DecodedNumbers(rex: bv8, modrm: bv8, a: nat, b: nat, reg: nat, rm: nat)
    requires a < 16 && b < 16 && reg < 16 && rm < 16
    requires rex == 0x48 | When(Extended(a), 4) | When(Extended(b), 1)
    requires modrm == 0xc0 | ((RegToOperand(reg) & 7) << 3) | (RegToOperand(rm) & 7)
    ensures rex & 0xf8 == 0x48 && modrm & 0xc0 == 0xc0
    ensures RegNumber(RegField(rex, modrm)) == WithExtensionOf(reg, a)
    ensures RegNumber(RmField(rex, modrm)) == WithExtensionOf(rm, b)
  {
    DecodedFields(Extended(a), Extended(b), RegToOperand(reg), RegToOperand(rm));
    JoinedNumber(Extended(a), reg);
    JoinedNumber(Extended(b), rm);
  }

  lemma DecodePair(opcode: bv8, a: nat, b: nat)
    requires TwoOperandOpcode(opcode) && a < 16 && b < 16
    ensures DecodeThree(RexByte(a, b), opcode, ModRmByte(opcode, a, b)) == Some(Decoded(opcode, a, b))
  {
    var rex, modrm := RexByte(a, b), ModRmByte(opcode, a, b);
    if StoresToRm(opcode) {
      DecodedNumbers(rex, modrm, a, b, b, a);
      DecodeByFields(rex, opcode, modrm, WithExtensionOf(b, a), WithExtensionOf(a, b));
    } else {
      ExtensionKept(a, a);
      ExtensionKept(b, b);
      DecodedNumbers(rex, modrm, a, b, a, b);
      DecodeByFields(rex, opcode, modrm, a, b);
    }
  }

  lemma DecodeByFields(rex: bv8, opcode: bv8, modrm: bv8, reg: nat, rm: nat)
    requires TwoOperandOpcode(opcode)
    requires rex & 0xf8 == 0x48 && modrm & 0xc0 == 0xc0
    requires RegNumber(RegField(rex, modrm)) == reg && RegNumber(RmField(rex, modrm)) == rm
    ensures DecodeThree(rex, opcode, modrm)
         == Some(if StoresToRm(opcode) then Machine(OpOf(opcode).value, rm, reg)
                 else Machine(OpOf(opcode).value, reg, rm))
  {
  }

  /** Decoding three bytes at the head of a stream. */
  lemma DecodeHead(b: seq<bv8>, m: Machine, rest: seq<bv8>)
    requires |b| == 3 && DecodeThree(b[0], b[1], b[2]) == Some(m)
    ensures DecodeAll(b + rest)
         == if DecodeAll(rest).None? then None else Some([m] + DecodeAll(rest).value)
  {
    assert (b + rest)[3..] == rest;
  }

  /** Register-direct encodings are exact always when the destination is in the reg field, and
  exactly for equally extended registers when it is in the r/m field. */
  lemma EncodingExact(opcode: bv8, ops: HostOperands, a: nat, b: nat)
    requires TwoOperandOpcode(opcode) && a < 16 && b < 16 && RegisterPair(opcode, ops, a, b)
    ensures |EmittedBytes(opcode, ops)| == 3
    ensures DecodeAll(EmittedBytes(opcode, ops)) == Some([Intended(opcode, a, b)])
       <==> LoadsFromRm(opcode) || (Extended(a) <==> Extended(b))
  {
    ExtensionKept(a, b);
    ExtensionKept(b, a);
    RegisterBytes(opcode, ops, a, b);
    DecodePair(opcode, a, b);
    var bytes := EmittedBytes(opcode, ops);
    DecodeHead(bytes, Decoded(opcode, a, b), []);
    assert bytes + [] == bytes;
    assert [Decoded(opcode, a, b)] + [] == [Decoded(opcode, a, b)];
  }

  // ---------------------------------------------------------------- streams of register pairs

  /** An opcode of either form with two registers. */
  datatype Pair = Pair(opcode: bv8, a: nat, b: nat)

  predicate Encodable(p: Pair)
  {
    TwoOperandOpcode(p.opcode) && p.a < 16 && p.b < 16
  }

  predicate AllEncodable(ps: seq<Pair>)
  {
    forall k :: 0 <= k < |ps| ==> Encodable(ps[k])
  }

  function PairBytes(p: Pair): seq<bv8>
    requires Encodable(p)
  {
    var desc := OpcodeMeta(p.opcode);
    EmittedBytes(p.opcode, [HostOperandOf(p.a, desc.ops[0]), HostOperandOf(p.b, desc.ops[1]),
                            Emit.NO_OPERAND, Emit.NO_OPERAND])
  }

  function StreamBytes(ps: seq<Pair>): seq<bv8>
    requires AllEncodable(ps)
  {
    if ps == [] then [] else PairBytes(ps[0]) + StreamBytes(ps[1..])
  }

  function StreamIntended(ps: seq<Pair>): seq<Machine>
    requires AllEncodable(ps)
  {
    if ps == [] then [] else [Intended(ps[0].opcode, ps[0].a, ps[0].b)] + StreamIntended(ps[1..])
  }

  function StreamDecoded(ps: seq<Pair>): seq<Machine>
    requires AllEncodable(ps)
  {
    if ps == [] then [] else [Decoded(ps[0].opcode, ps[0].a, ps[0].b)] + StreamDecoded(ps[1..])
  }

  predicate KeepsPair(p: Pair)
  {
    LoadsFromRm(p.opcode) || (Extended(p.a) <==> Extended(p.b))
  }

  lemma {:induction false} PairDecodes(p: Pair)
    requires Encodable(p)
    ensures var b := PairBytes(p);
      |b| == 3 && DecodeThree(b[0], b[1], b[2]) == Some(Decoded(p.opcode, p.a, p.b))
  {
    var desc := OpcodeMeta(p.opcode);
    RegisterBytes(p.opcode, [HostOperandOf(p.a, desc.ops[0]), HostOperandOf(p.b, desc.ops[1]),
                             Emit.NO_OPERAND, Emit.NO_OPERAND], p.a, p.b);
    DecodePair(p.opcode, p.a, p.b);
  }

  lemma {:induction false} PairKept(p: Pair)
    requires Encodable(p)
    ensures Decoded(p.opcode, p.a, p.b) == Intended(p.opcode, p.a, p.b) <==> KeepsPair(p)
  {
    ExtensionKept(p.a, p.b);
    ExtensionKept(p.b, p.a);
  }

  lemma {:induction false} PairStreamDecodes(ps: seq<Pair>)
    requires AllEncodable(ps)
    ensures DecodeAll(StreamBytes(ps)) == Some(StreamDecoded(ps))
    decreases |ps|
  {
    if ps != [] {
      PairDecodes(ps[0]);
      PairStreamDecodes(ps[1..]);
      DecodeHead(PairBytes(ps[0]), Decoded(ps[0].opcode, ps[0].a, ps[0].b), StreamBytes(ps[1..]));
    }
  }

  lemma {:induction false} PairsKept(ps: seq<Pair>)
    requires AllEncodable(ps)
    ensures StreamDecoded(ps) == StreamIntended(ps) <==> forall k :: 0 <= k < |ps| ==> KeepsPair(ps[k])
    decreases |ps|
  {
    if ps != [] {
      PairKept(ps[0]);
      PairsKept(ps[1..]);
      assert forall k :: 1 <= k < |ps| ==> ps[k] == ps[1..][k - 1];
      assert StreamDecoded(ps)[0] == Decoded(ps[0].opcode, ps[0].a, ps[0].b);
      assert StreamDecoded(ps)[1..] == StreamDecoded(ps[1..]);
      assert StreamIntended(ps)[0] == Intended(ps[0].opcode, ps[0].a, ps[0].b);
      assert StreamIntended(ps)[1..] == StreamIntended(ps[1..]);
    }
  }

  /** In a stream that mixes both forms freely, every register pair is recovered exactly when each
  instruction that stores to r/m has equally extended registers: no instruction disturbs the
  decoding of another. */
  lemma {:induction false} PairStreamExact(ps: seq<Pair>)
    requires AllEncodable(ps)
    ensures DecodeAll(StreamBytes(ps)) == Some(StreamIntended(ps)) <==> forall k :: 0 <= k < |ps| ==> KeepsPair(ps[k])
  {
    PairStreamDecodes(ps);
    PairsKept(ps);
  }

  // ---------------------------------------------------------------- whole code streams

  /** Output of the expansion: `op r0, r0, r2`, or a MOV between different registers. */
  predicate Expanded(i: Instr)
  {
    && (forall k :: 0 <= k < i.count ==> i.ops[k].kind == Reg && i.ops[k].id < 16)
    && Width(i.opcode) != WIDTH_8
    && ((IsAlu(i.opcode) && i.count == 3 && i.ops[0].id == i.ops[1].id)
        || (IsMov(i.opcode) && i.count == 2 && i.ops[0].id != i.ops[1].id))
  }

  function DestOf(i: Instr): nat
  {
    i.ops[0].id
  }

  function SourceOf(i: Instr): nat
  {
    i.ops[FirstOperand(i) + 1].id
  }

  function OpOfGroup(group: bv16): MachineOp
  {
    if group == GROUP_ADD then Add
    else if group == GROUP_OR then Or
    else if group == GROUP_AND then And
    else if group == GROUP_SUB then Sub
    else Mov
  }

  /** The host instruction that an expanded IR instruction stands for. */
  function MachineOf(i: Instr): Machine
  {
    Machine(OpOfGroup(Group(i.opcode)), DestOf(i), SourceOf(i))
  }

  function MachinesOf(code: seq<Instr>): seq<Machine>
  {
    if code == [] then [] else [MachineOf(code[0])] + MachinesOf(code[1..])
  }

  predicate SameExtension(i: Instr)
  {
    Extended(DestOf(i)) <==> Extended(SourceOf(i))
  }

  function CodeBytes(code: seq<Instr>): seq<bv8>
    requires forall i :: i in code ==> RegisterForm(i)
  {
    if code == [] then [] else InstrBytes(code[0]) + CodeBytes(code[1..])
  }

  lemma ExpandedIsRegisterForm(i: Instr)
    requires Expanded(i)
    ensures RegisterForm(i) && !Rejected(i)
  {
    if IsMov(i.opcode) {
      assert !IsAlu(i.opcode);
    }
  }

  lemma OpcodeOfGroup(i: Instr)
    requires IsAlu(i.opcode) || IsMov(i.opcode)
    ensures StoresToRm(RegRegOpcode(Group(i.opcode)))
    ensures OpOf(RegRegOpcode(Group(i.opcode))) == Some(OpOfGroup(Group(i.opcode)))
  {
  }

  /** What the decoder makes of an expanded instruction: each register takes the extension bit
  of the other. */
  function DecodedOf(i: Instr): Machine
  {
    Machine(MachineOf(i).op, WithExtensionOf(DestOf(i), SourceOf(i)), WithExtensionOf(SourceOf(i), DestOf(i)))
  }

  function AllDecodedOf(code: seq<Instr>): seq<Machine>
  {
    if code == [] then [] else [DecodedOf(code[0])] + AllDecodedOf(code[1..])
  }

  lemma InstrDecodes(i: Instr)
    requires Expanded(i)
    ensures RegisterForm(i)
    ensures var b := InstrBytes(i);
      |b| == 3 && DecodeThree(b[0], b[1], b[2]) == Some(DecodedOf(i))
    ensures DecodedOf(i) == MachineOf(i) <==> SameExtension(i)
  {
    ExpandedIsRegisterForm(i);
    OpcodeOfGroup(i);
    var h := Lowered(i);
    ExtensionKept(DestOf(i), SourceOf(i));
    ExtensionKept(SourceOf(i), DestOf(i));
    RegisterBytes(h.opcode, h.operands, DestOf(i), SourceOf(i));
    DecodePair(h.opcode, DestOf(i), SourceOf(i));
  }

  lemma AllRegisterForm(code: seq<Instr>)
    requires forall i :: i in code ==> Expanded(i)
    ensures forall i :: i in code ==> RegisterForm(i)
  {
    forall i | i in code ensures RegisterForm(i) {
      ExpandedIsRegisterForm(i);
    }
  }

  /** An instruction at the head of a stream. */
  lemma {:induction false} FirstDecodes(i: Instr, rest: seq<bv8>)
    requires Expanded(i)
    ensures RegisterForm(i) && |InstrBytes(i)| == 3
    ensures DecodeAll(InstrBytes(i) + rest)
         == if DecodeAll(rest).None? then None else Some([DecodedOf(i)] + DecodeAll(rest).value)
  {
    InstrDecodes(i);
    DecodeHead(InstrBytes(i), DecodedOf(i), rest);
  }

  lemma {:induction false} StreamDecodes(code: seq<Instr>)
    requires forall i :: i in code ==> Expanded(i)
    ensures forall i :: i in code ==> RegisterForm(i)
    ensures |CodeBytes(code)| == 3 * |code|
    ensures DecodeAll(CodeBytes(code)) == Some(AllDecodedOf(code))
    decreases |code|
  {
    AllRegisterForm(code);
    if code != [] {
      StreamDecodes(code[1..]);
      FirstDecodes(code[0], CodeBytes(code[1..]));
    }
  }

  lemma {:induction false} DecodedAsIntended(code: seq<Instr>)
    requires forall i :: i in code ==> Expanded(i)
    ensures AllDecodedOf(code) == MachinesOf(code) <==> forall i :: i in code ==> SameExtension(i)
    decreases |code|
  {
    if code != [] {
      InstrDecodes(code[0]);
      DecodedAsIntended(code[1..]);
      assert forall i :: i in code <==> i == code[0] || i in code[1..];
      assert AllDecodedOf(code)[0] == DecodedOf(code[0]) && AllDecodedOf(code)[1..] == AllDecodedOf(code[1..]);
      assert MachinesOf(code)[0] == MachineOf(code[0]) && MachinesOf(code)[1..] == MachinesOf(code[1..]);
    }
  }

  /** The byte stream of expanded code has three bytes an instruction, and decoding all of it
  gives back the operations and operands exactly when every register pair is equally extended. */
  lemma StreamRoundTrip(code: seq<Instr>)
    requires forall i :: i in code ==> Expanded(i)
    ensures forall i :: i in code ==> RegisterForm(i)
    ensures |CodeBytes(code)| == 3 * |code|
    ensures DecodeAll(CodeBytes(code)) == Some(MachinesOf(code)) <==> forall i :: i in code ==> SameExtension(i)
  {
    StreamDecodes(code);
    DecodedAsIntended(code);
  }
}
