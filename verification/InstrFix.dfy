/** The per-instruction steps of the guest-to-IR pass: associating guest registers with host
registers, renaming operands, expanding to two-operand form, and dropping dead associations. */
module InstrFix {
  import opened Bits
  import opened Words
  import opened Ir
  import opened Mips
  import opened Cpu
  import opened Alloc

  /** `flags` holds only the used and spilled bits; `id` is a host register or a spill slot. */
  datatype Assoc = Assoc(used: bool, spilled: bool, id: U16)

  const NO_ASSOC: Assoc := Assoc(false, false, 0)

  type Assocs = s: seq<Assoc> | |s| == 256 witness seq(256, _ => NO_ASSOC)

  const NO_FRAGMENTS: ByteMap := {}

  /** Per register, the fragments that use it; only fragments 0 to 7 fit. */
  type Liveness = s: seq<ByteMap> | |s| == 256 witness seq<ByteMap>(256, _ => NO_FRAGMENTS)

  /** The tables of a block that translation updates. */
  datatype Tables = Tables(assoc: Assocs, state: States, spills: U16)

  const FRESH: Tables := Tables(seq(256, _ => NO_ASSOC), seq(256, _ => Free), 0)

  /** The operands are guest registers. */
  predicate GuestOperands(i: Instr)
  {
    forall k :: 0 <= k < i.count ==> i.ops[k].id < 32
  }

  // ---------------------------------------------------------------- associating

  /** Gives `g` a host register of its role, or the next spill slot. */
  function Associate(t: Tables, g: RegId): Tables
  {
    var r := AllocResult(GuestRole(g), t.state);
    if r == SPILL then
      Tables(t.assoc[g := Assoc(true, true, t.spills)], t.state, (t.spills + 1) % 0x1_0000)
    else
      Tables(t.assoc[g := Assoc(true, false, r)], t.state[r := Occupied], t.spills)
  }

  /** Operands from position k on; the first one already associated ends the walk. */
  function FillFrom(t: Tables, i: Instr, k: nat): Tables
    requires GuestOperands(i) && k <= i.count
    decreases i.count - k
  {
    if k == i.count || t.assoc[i.ops[k].id].used then t
    else FillFrom(Associate(t, i.ops[k].id), i, k + 1)
  }

  function FillStart(i: Instr): nat
  {
    if i.ops[0].id == i.ops[1].id then 1 else 0
  }

  function Fill(t: Tables, i: Instr): Tables
    requires GuestOperands(i) && 1 <= i.count
  {
    FillFrom(t, i, FillStart(i))
  }

  /** The loop body of `FillAssoc`. */
  method AssociateOne(g: RegId, spillCnt: U16, assoc: array<Assoc>, state: array<RegState>)
    returns (spillCnt': U16)
    requires assoc.Length == 256 && state.Length == 256
    modifies assoc, state
    ensures assoc[..] == old(Associate(Tables(assoc[..], state[..], spillCnt), g).assoc)
    ensures state[..] == old(Associate(Tables(assoc[..], state[..], spillCnt), g).state)
    ensures spillCnt' == old(Associate(Tables(assoc[..], state[..], spillCnt), g).spills)
  {
    var alloc := AllocSpace(GuestRole(g), state);
    var isSpill := alloc / 0x100 != 0;
    assoc[g] := Assoc(true, isSpill, if isSpill then spillCnt else alloc % 0x100);
    spillCnt' := (spillCnt + if isSpill then 1 else 0) % 0x1_0000;
  }

  method FillAssoc(i: Instr, spillCnt: U16, assoc: array<Assoc>, state: array<RegState>)
    returns (spillCnt': U16)
    requires GuestOperands(i) && 1 <= i.count
    requires assoc.Length == 256 && state.Length == 256
    modifies assoc, state
    ensures Tables(assoc[..], state[..], spillCnt')
         == Fill(Tables(old(assoc[..]), old(state[..]), spillCnt), i)
  {
    spillCnt' := spillCnt;
    var k := if i.ops[0].id == i.ops[1].id then 1 else 0;
    while k < i.count
      invariant k <= i.count
      invariant FillFrom(Tables(assoc[..], state[..], spillCnt'), i, k)
             == Fill(Tables(old(assoc[..]), old(state[..]), spillCnt), i)
    {
      if assoc[i.ops[k].id].used {
        return;
      }
      ghost var before := Tables(assoc[..], state[..], spillCnt');
      spillCnt' := AssociateOne(i.ops[k].id, spillCnt', assoc, state);
      assert Tables(assoc[..], state[..], spillCnt') == Associate(before, i.ops[k].id);
      k := k + 1;
    }
  }

  // ---------------------------------------------------------------- renaming

  /** The host id is one byte; the spilled flag is not looked at. */
  function HostId(a: Assocs, g: U8): U8
  {
    a[g].id % 0x100
  }

  function Fix(a: Assocs, i: Instr): Instr
  {
    Instr(i.opcode, FixedOps(a, i.ops, i.count), i.count)
  }

  function FixedOps(a: Assocs, ops: OperandArray, count: OperandCount): OperandArray
  {
    seq(6, k requires 0 <= k < 6 => if k < count then Operand(ops[k].kind, HostId(a, ops[k].id)) else ops[k])
  }

  method FixInstr(i: Instr, assoc: array<Assoc>) returns (fixed: Instr)
    requires assoc.Length == 256
    ensures fixed == Fix(assoc[..], i)
  {
    fixed := i;
    var k := 0;
    while k < i.count
      invariant k <= i.count && fixed.opcode == i.opcode && fixed.count == i.count
      invariant fixed.ops == FixedOps(assoc[..], i.ops, k)
    {
      var hostId := assoc[fixed.ops[k].id].id % 0x100;
      fixed := fixed.(ops := fixed.ops[k := fixed.ops[k].(id := hostId)]);
      k := k + 1;
    }
  }

  // ---------------------------------------------------------------- expanding

  datatype IsaForm = TwoOp | ThreeOp

  /** Running out of buffer and an unsupported host form stop the program. */
  datatype Expansion = Written(code: seq<Instr>) | TooSmall | Unsupported

  predicate NeedsMov(i: Instr)
  {
    i.ops[0].id != i.ops[1].id && !DestMustDiffer(i.opcode)
  }

  /** `mov op[0], op[1]` at the width of the instruction. */
  function MovOf(i: Instr): Instr
  {
    Instr(SwapGroup(i.opcode, GROUP_MOV), OperandsOf(i.ops[0], i.ops[1], NO_OPERAND), 2)
  }

  /** `op[0] = op op[0], op[2]` */
  function Folded(i: Instr): Instr
  {
    i.(ops := i.ops[1 := i.ops[0]])
  }

  function TwoOperand(i: Instr): seq<Instr>
  {
    (if NeedsMov(i) then [MovOf(i)] else []) + [Folded(i)]
  }

  function Expand(guest: IsaForm, host: IsaForm, i: Instr, room: nat): Expansion
  {
    if room == 0 then Written([])
    else if guest == host then Written([i])
    else if host == ThreeOp then Unsupported
    else if room <= 1 then TooSmall
    else Written(TwoOperand(i))
  }

  /** Writes the expansion of `i` at index `at` of the IR buffer. */
  method ExpandInstr(guest: IsaForm, host: IsaForm, i: Instr, buf: array<Instr>, at: nat)
    returns (count: nat, ghost e: Expansion, ok: bool)
    requires at <= buf.Length
    modifies buf
    ensures e == Expand(guest, host, i, buf.Length - at) && ok == e.Written?
    ensures ok <==> at == buf.Length || guest == host || (host == TwoOp && at + 2 <= buf.Length)
    ensures ok ==> count == |e.code| && at + count <= buf.Length
    ensures ok ==> buf[..] == old(buf[..at]) + e.code + old(buf[at + |e.code|..])
    ensures !ok ==> buf[..] == old(buf[..])
  {
    e := Expand(guest, host, i, buf.Length - at);
    count := 0;
    if buf.Length - at == 0 {
      return 0, e, true;
    }
    if guest == host {
      buf[at] := i;
      return 1, e, true;
    }
    match host {
      case TwoOp =>
        if buf.Length - at <= 1 {
          return 0, e, false;
        }
        if i.ops[0].id != i.ops[1].id && Flags(i.opcode) & DEST_NEQ_SRC == 0 {
          buf[at] := Instr(SwapGroup(i.opcode, GROUP_MOV),
                           OperandsOf(i.ops[0], i.ops[1], NO_OPERAND), 2);
          count := 1;
        }
        buf[at + count] := Instr(i.opcode,
                                 [i.ops[0], i.ops[0], i.ops[2], i.ops[3], i.ops[4], i.ops[5]],
                                 i.count);
        assert buf[at + count] == Folded(i);
        count := count + 1;
        return count, e, true;
      case ThreeOp =>
        return 0, e, false;
    }
  }

  // ---------------------------------------------------------------- flushing

  /** The guest registers whose liveness has the bit of fragment b. */
  predicate Alive(live: Liveness, g: nat, b: nat)
    requires g < 256
  {
    b in live[g]
  }

  /** Dead guests lose their association, and the state entry with their own number is freed. */
  function Flush(t: Tables, live: Liveness, b: nat): Tables
  {
    FlushUpTo(t, live, b, 32)
  }

  function FlushUpTo(t: Tables, live: Liveness, b: nat, n: nat): Tables
  {
    Tables(KeepAlive(t.assoc, NO_ASSOC, live, b, n), KeepAlive(t.state, Free, live, b, n), t.spills)
  }

  /** `s` with the entries of the dead guests below n reset to `blank`. */
  function KeepAlive<T>(s: seq<T>, blank: T, live: Liveness, b: nat, n: nat): (r: seq<T>)
    requires |s| == 256
    ensures |r| == 256
    ensures forall g :: 0 <= g < 256 ==> r[g] == if g < n && !Alive(live, g, b) then blank else s[g]
  {
    seq(256, g requires 0 <= g < 256 => if g < n && !Alive(live, g, b) then blank else s[g])
  }

  method FlushByLiveness(b: nat, liveness: array<ByteMap>, assoc: array<Assoc>, state: array<RegState>,
                         ghost spills: U16)
    requires liveness.Length == 256 && assoc.Length == 256 && state.Length == 256
    modifies assoc, state
    ensures Tables(assoc[..], state[..], spills)
         == Flush(Tables(old(assoc[..]), old(state[..]), spills), old(liveness[..]), b)
    ensures liveness[..] == old(liveness[..])
  {
    ghost var t := Tables(assoc[..], state[..], spills);
    ghost var live := liveness[..];
    var i := 0;
    while i < 32
      invariant i <= 32 && liveness[..] == live
      invariant assoc[..] == FlushUpTo(t, live, b, i).assoc
      invariant state[..] == FlushUpTo(t, live, b, i).state
    {
      var alive := b in liveness[i];
      if !alive {
        assoc[i] := NO_ASSOC;
        state[i] := Free;
      }
      i := i + 1;
    }
  }
}
