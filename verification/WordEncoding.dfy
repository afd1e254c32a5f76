/** Exactly which words the emitted bytes compute: a machine that runs the decoded bytes of one word
against the guest that runs the word. */
module WordEncoding {
  import opened Wrappers
  import opened Bits
  import opened Ir
  import opened Mips
  import opened Cpu
  import opened Alloc
  import opened InstrFix
  import opened Passes
  import opened Expansion
  import opened AllocInvariant
  import opened Simulation
  import opened Correctness
  import opened Witnesses
  import opened Lower
  import opened Decode
  import opened Encoding
  import opened EndToEnd

  // ---------------------------------------------------------------- what the bytes of a word compute

  /** Machine code for `op d, s, x`, each register with the extension bit of its partner. */
  function SeenCode(op: MachineOp, d: nat, s: nat, x: nat): seq<Machine>
  {
    (if d != s then [Machine(Mov, WithExtensionOf(d, s), WithExtensionOf(s, d))] else [])
    + [Machine(op, WithExtensionOf(d, x), WithExtensionOf(x, d))]
  }

  lemma SeenInRange(op: MachineOp, d: nat, s: nat, x: nat)
    requires d < 16 && s < 16 && x < 16
    ensures forall m :: m in SeenCode(op, d, s, x) ==> InRange(m)
  {
  }

  function OpOfWord(w: GuestWord): MachineOp
  {
    OpOfGroup(Group(IrOpcode(Funct(w))))
  }

  lemma AllDecodedTwo(i: Instr, k: Instr)
    ensures AllDecodedOf([i]) == [DecodedOf(i)] && AllDecodedOf([i, k]) == [DecodedOf(i), DecodedOf(k)]
  {
    assert [i, k][1..] == [k] && [k][1..] == [] && [i][1..] == [];
  }

  lemma CodeDecodes(t: Tables, w: GuestWord)
    requires Sound(t) && SlotsLeft(t) && Clean(t, w)
    ensures forall i :: i in CodeOf(t, w) ==> RegisterForm(i)
    ensures DecodeAll(CodeBytes(CodeOf(t, w))) == Some(AllDecodedOf(CodeOf(t, w)))
  {
    CleanCodeIsExpanded(t, w);
    StreamDecodes(CodeOf(t, w));
  }

  /** The decoder sees this code in the bytes of a clean word. */
  lemma WordDecodes(t: Tables, w: GuestWord)
    requires Sound(t) && SlotsLeft(t) && Clean(t, w)
    ensures forall i :: i in CodeOf(t, w) ==> RegisterForm(i)
    ensures SeenIn(CodeBytes(CodeOf(t, w)), AfterWord(t, w).assoc, w)
  {
    CodeDecodes(t, w);
    WordCodeSeen(t, w);
  }

  predicate SeenIn(bytes: seq<bv8>, u: Assocs, w: GuestWord)
  {
    DecodeAll(bytes) == Some(SeenCode(OpOfWord(w), HostId(u, Rd(w)), HostId(u, Rs(w)), HostId(u, Rt(w))))
  }

  lemma MovSeen(i: Instr)
    requires NeedsMov(i)
    ensures DecodedOf(MovOf(i))
         == Machine(Mov, WithExtensionOf(i.ops[0].id, i.ops[1].id), WithExtensionOf(i.ops[1].id, i.ops[0].id))
  {
    SwapToMov(i.opcode);
    assert !IsAluGroup(Group(MovOf(i).opcode));
  }

  lemma WordCodeSeen(t: Tables, w: GuestWord)
    requires Supported(w)
    ensures var u := AfterWord(t, w).assoc;
      AllDecodedOf(CodeOf(t, w)) == SeenCode(OpOfWord(w), HostId(u, Rd(w)), HostId(u, Rs(w)), HostId(u, Rt(w)))
  {
    var u := AfterWord(t, w).assoc;
    SupportedIsAlu(Funct(w));
    RenamedInstr(u, w);
    var i := Renamed(u, w);
    AllDecodedTwo(Folded(i), Folded(i));
    if NeedsMov(i) {
      AllDecodedTwo(MovOf(i), Folded(i));
      MovSeen(i);
      assert TwoOperand(i) == [MovOf(i), Folded(i)];
    } else {
      assert TwoOperand(i) == [Folded(i)];
    }
  }

  /** What ends up in register d. */
  function SeenResult(op: MachineOp, d: nat, s: nat, x: nat, host: HostRegs): U64
    requires d < 16 && s < 16 && x < 16
  {
    SeenInRange(op, d, s, x);
    MachineRun(SeenCode(op, d, s, x), host)[d]
  }

  lemma MachineRunOne(m: Machine, r: HostRegs)
    requires InRange(m)
    ensures MachineRun([m], r) == MachineStep(m, r)
  {
    assert [m][1..] == [];
  }

  lemma MachineRunTwo(m: Machine, n: Machine, r: HostRegs)
    requires InRange(m) && InRange(n)
    ensures MachineRun([m, n], r) == MachineStep(n, MachineStep(m, r))
  {
    assert [m, n][1..] == [n];
    MachineRunOne(n, MachineStep(m, r));
  }

  lemma RunSeen(op: MachineOp, d: nat, s: nat, x: nat, host: HostRegs)
    requires d < 16 && s < 16 && x < 16
    ensures var mov := Machine(Mov, WithExtensionOf(d, s), WithExtensionOf(s, d));
      var last := Machine(op, WithExtensionOf(d, x), WithExtensionOf(x, d));
      InRange(mov) && InRange(last) &&
      SeenResult(op, d, s, x, host) == MachineStep(last, if d != s then MachineStep(mov, host) else host)[d]
  {
    var mov := Machine(Mov, WithExtensionOf(d, s), WithExtensionOf(s, d));
    var last := Machine(op, WithExtensionOf(d, x), WithExtensionOf(x, d));
    SeenInRange(op, d, s, x);
    if d != s {
      assert SeenCode(op, d, s, x) == [mov, last];
      MachineRunTwo(mov, last, host);
    } else {
      assert SeenCode(op, d, s, x) == [last];
      MachineRunOne(last, host);
    }
  }

  /** A result that goes astray leaves d as the first of the two instructions has left it. */
  lemma AstrayResult(op: MachineOp, d: nat, s: nat, x: nat, host: HostRegs)
    requires d < 16 && s < 16 && x < 16 && Extended(d) != Extended(x)
    ensures SeenResult(op, d, s, x, host) == host[if Extended(d) == Extended(s) then s else d]
  {
    RunSeen(op, d, s, x, host);
    ExtensionKept(d, x);
    ExtensionKept(d, s);
    ExtensionKept(s, d);
  }

  /** A copy that goes astray leaves the old contents of d as the first operand. */
  lemma AstrayCopy(op: MachineOp, d: nat, s: nat, x: nat, host: HostRegs)
    requires d < 16 && s < 16 && x < 16 && Extended(d) == Extended(x) && Extended(d) != Extended(s)
    ensures SeenResult(op, d, s, x, host) == MachineAlu(op, host[d], host[x])
  {
    RunSeen(op, d, s, x, host);
    ExtensionKept(d, x);
    ExtensionKept(x, d);
    ExtensionKept(d, s);
    ExtensionKept(x, s);
  }

  // ---------------------------------------------------------------- contents that show it

  /** Contents of the machine with which a pair of unequal extension shows in the result. */
  function Exposing(group: bv16, d: nat, s: nat, x: nat): HostRegs
    requires d < 16 && s < 16 && x < 16
  {
    var zeros: HostRegs := seq(16, _ => 0);
    if Extended(d) != Extended(s) then
      if Extended(d) == Extended(x) && group == GROUP_AND then zeros[d := 1][x := 1] else zeros[d := 1]
    else if group == GROUP_AND then zeros[s := 1]
    else zeros[x := 1]
  }

  lemma OpMeaning(w: GuestWord, a: U64, b: U64)
    requires Supported(w)
    ensures MachineAlu(OpOfWord(w), a, b) == Alu64(Group(IrOpcode(Funct(w))), a, b)
  {
    TableGroups();
  }

  lemma BitResults(w: GuestWord)
    requires Supported(w)
    ensures var g := Group(IrOpcode(Funct(w)));
      && Low32(Alu64(g, 0, 0)) == 0
      && (g != GROUP_AND ==> Low32(Alu64(g, 0, 1)) != 0 && Low32(Alu64(g, 1, 0)) == 1)
      && (g == GROUP_AND ==> Low32(Alu64(g, 1, 0)) == Low32(Alu64(g, 0, 1)) == 0 && Low32(Alu64(g, 1, 1)) == 1)
  {
    TableGroups();
    OneBitResults();
  }

  lemma ResultExposed(w: GuestWord, d: nat, s: nat, x: nat)
    requires Supported(w) && d < 16 && s < 16 && x < 16
    requires Extended(d) != Extended(x) || Extended(d) != Extended(s)
    requires d != s ==> d != x
    ensures var g := Group(IrOpcode(Funct(w)));
      var host := Exposing(g, d, s, x);
      Low32(SeenResult(OpOfWord(w), d, s, x, host)) != Low32(Alu64(g, host[s], host[x]))
  {
    var host := Exposing(Group(IrOpcode(Funct(w))), d, s, x);
    BitResults(w);
    if Extended(d) != Extended(x) {
      AstrayResult(OpOfWord(w), d, s, x, host);
    } else {
      AstrayCopy(OpOfWord(w), d, s, x, host);
      OpMeaning(w, host[d], host[x]);
    }
  }

  // ---------------------------------------------------------------- one word

  lemma SameExtensions(t: Tables, w: GuestWord)
    requires Supported(w)
    ensures var u := AfterWord(t, w).assoc;
      (forall i :: i in CodeOf(t, w) ==> SameExtension(i)) <==> EquallyExtended(u, w)
  {
    var u := AfterWord(t, w).assoc;
    SupportedIsAlu(Funct(w));
    RenamedInstr(u, w);
    var i := Renamed(u, w);
    assert Folded(i) in TwoOperand(i);
    assert SameExtension(Folded(i)) <==> Extended(i.ops[0].id) == Extended(i.ops[2].id);
    if NeedsMov(i) {
      assert TwoOperand(i) == [MovOf(i), Folded(i)];
      assert SameExtension(MovOf(i)) <==> Extended(i.ops[0].id) == Extended(i.ops[1].id);
    } else {
      assert TwoOperand(i) == [Folded(i)];
    }
  }

  lemma RunOfOne(t: Tables, w: GuestWord)
    requires Clean(t, w)
    ensures AllClean(t, [w]) && CodeOfWords(t, [w]) == CodeOf(t, w) && AfterWords(t, [w]) == AfterWord(t, w)
  {
    assert [w][1..] == [];
    assert CodeOfWords(AfterWord(t, w), []) == [];
    assert CodeOf(t, w) + [] == CodeOf(t, w);
  }

  lemma GuestRunOfOne(w: GuestWord, guest: GuestRegs)
    ensures GuestRun([w], guest) == GuestStep(w, guest)
  {
    assert [w][1..] == [];
  }

  predicate EquallyExtended(u: Assocs, w: GuestWord)
  {
    Extended(HostId(u, Rd(w))) == Extended(HostId(u, Rt(w))) == Extended(HostId(u, Rs(w)))
  }

  lemma UnequalResult(u: Assocs, w: GuestWord, d: nat, s: nat, x: nat, host: HostRegs)
    requires Supported(w) && d < 16 && s < 16 && x < 16 && (d != s ==> d != x)
    requires d == HostId(u, Rd(w)) && s == HostId(u, Rs(w)) && x == HostId(u, Rt(w)) && !EquallyExtended(u, w)
    requires host == Exposing(Group(IrOpcode(Funct(w))), d, s, x)
    ensures Low32(SeenResult(OpOfWord(w), d, s, x, host)) != GuestStep(w, View(u, Widen(host)))[Rd(w)]
  {
    ResultExposed(w, d, s, x);
    Low32Homomorphism(Funct(w), host[s], host[x]);
  }

  lemma DisagreementShows(u: Assocs, w: GuestWord, bytes: seq<bv8>, code: seq<Machine>, host: HostRegs,
                          guest: GuestRegs)
    requires DecodeAll(bytes) == Some(code) && forall m :: m in code ==> InRange(m)
    requires OnHost(u[Rd(w)]) && HostId(u, Rd(w)) < 16 && MachineAgrees(u, host, guest)
    requires Low32(MachineRun(code, host)[HostId(u, Rd(w))]) != GuestStep(w, guest)[Rd(w)]
    ensures !BytesSimulate(u, bytes, [w])
  {
    GuestRunOfOne(w, guest);
    var after := MachineRun(code, host);
    assert Widen(after)[HostId(u, Rd(w))] == after[HostId(u, Rd(w))];
    assert !MachineAgrees(u, after, GuestStep(w, guest));
  }

  lemma UnequalAt(u: Assocs, w: GuestWord, bytes: seq<bv8>, d: nat, s: nat, x: nat)
    requires Supported(w) && OnHost(u[Rd(w)]) && d < 16 && s < 16 && x < 16 && (d != s ==> d != x)
    requires d == HostId(u, Rd(w)) && s == HostId(u, Rs(w)) && x == HostId(u, Rt(w)) && !EquallyExtended(u, w)
    requires DecodeAll(bytes) == Some(SeenCode(OpOfWord(w), d, s, x))
    ensures !BytesSimulate(u, bytes, [w])
  {
    SeenInRange(OpOfWord(w), d, s, x);
    var host := Exposing(Group(IrOpcode(Funct(w))), d, s, x);
    ViewAgrees(u, Widen(host));
    UnequalResult(u, w, d, s, x, host);
    DisagreementShows(u, w, bytes, SeenCode(OpOfWord(w), d, s, x), host, View(u, Widen(host)));
  }

  lemma ThreeHosts(a: Assocs, d: RegId, s: RegId, x: RegId)
    requires Injective(a) && RolesKept(a) && OnHost(a[d]) && OnHost(a[s]) && OnHost(a[x]) && (d != x || d == s)
    ensures HostId(a, d) < 16 && HostId(a, s) < 16 && HostId(a, x) < 16
    ensures HostId(a, d) != HostId(a, s) ==> HostId(a, d) != HostId(a, x)
  {
    HostIdsDiffer(a, d, s);
    HostIdsDiffer(a, d, x);
  }

  /** The bytes of a clean word compute what the word does, for all register contents, exactly when the
  registers of every pair in its code are equally extended. */
  lemma WordEncodedExactly(t: Tables, w: GuestWord)
    requires Sound(t) && SlotsLeft(t) && Clean(t, w)
    ensures forall i :: i in CodeOf(t, w) ==> RegisterForm(i)
    ensures BytesSimulate(AfterWord(t, w).assoc, CodeBytes(CodeOf(t, w)), [w])
       <==> forall i :: i in CodeOf(t, w) ==> SameExtension(i)
  {
    WordDecodes(t, w);
    SameExtensions(t, w);
    RunOfOne(t, w);
    if forall i :: i in CodeOf(t, w) ==> SameExtension(i) {
      RunEndToEnd(t, [w]);
    } else {
      var u := AfterWord(t, w).assoc;
      AfterWordKeeps(t, w);
      ThreeHosts(u, Rd(w), Rs(w), Rt(w));
      UnequalAt(u, w, CodeBytes(CodeOf(t, w)), HostId(u, Rd(w)), HostId(u, Rs(w)), HostId(u, Rt(w)));
    }
  }

  // ---------------------------------------------------------------- a word that is encoded wrongly

  /** add $8, $8, $4 */
  const ADD_8_4: GuestWord := 0x0104_4020

  lemma MixedFields()
    ensures Supported(ADD_8_4) && Rd(ADD_8_4) == Rs(ADD_8_4) == 8 && Rt(ADD_8_4) == 4
  {
  }

  lemma FirstStack(state: States)
    requires state[1] == Free
    ensures AllocResult(Stack, state) == 1
  {
    assert 1 in FreeHosts(Stack, state);
  }

  /** A temporary and an argument register land on host registers 10 and 1. */
  lemma MixedTables(t: Tables)
    requires !t.assoc[8].used && !t.assoc[4].used && t.state[10] == Free && t.state[1] == Free
    ensures var u := AfterWord(t, ADD_8_4).assoc; u[8] == Assoc(true, false, 10) && u[4] == Assoc(true, false, 1)
  {
    MixedFields();
    SupportedIsAlu(Funct(ADD_8_4));
    var i, u := LiftedInstr(ADD_8_4), Associate(t, 8);
    assert FillStart(i) == 1;
    TempAssociated(t, 8, 10);
    FirstStack(u.state);
    FillTail(t, i, 1);
  }

  /** The first word of a block can already be encoded wrongly. */
  lemma MixedWordIsWrong(t: Tables)
    requires t == FRESH
    ensures Clean(t, ADD_8_4) && forall i :: i in CodeOf(t, ADD_8_4) ==> RegisterForm(i)
    ensures !BytesSimulate(AfterWord(t, ADD_8_4).assoc, CodeBytes(CodeOf(t, ADD_8_4)), [ADD_8_4])
  {
    MixedFields();
    FreshIsExact();
    MixedTables(t);
    SameExtensions(t, ADD_8_4);
    WordEncodedExactly(t, ADD_8_4);
  }
}
