/** From guest words to host bytes: decoding and running the bytes simulates the guest. */
module EndToEnd {
  import opened Wrappers
  import opened Bits
  import opened Ir
  import opened Mips
  import opened Cpu
  import opened InstrFix
  import opened Passes
  import opened AllocInvariant
  import opened Simulation
  import opened Fragments
  import opened Lower
  import opened Decode
  import opened Encoding

  // ---------------------------------------------------------------- machine code and IR agree

  /** The sixteen host registers as part of an IR register file. */
  function Widen(r: HostRegs): RegFile
  {
    r + seq(240, _ => 0)
  }

  lemma MachineMeaning(i: Instr, r: RegFile)
    requires Expanded(i)
    ensures InRange(MachineOf(i)) && Exec(i, r)[..16] == MachineStep(MachineOf(i), r[..16])
  {
    ExpandedIsRegisterForm(i);
    var d, s := DestOf(i), SourceOf(i);
    assert r[d := Exec(i, r)[d]][..16] == r[..16][d := Exec(i, r)[d]];
  }

  lemma {:induction false} MachineCodeMeaning(code: seq<Instr>, r: RegFile)
    requires forall i :: i in code ==> Expanded(i)
    ensures forall m :: m in MachinesOf(code) ==> InRange(m)
    ensures ExecAll(code, r)[..16] == MachineRun(MachinesOf(code), r[..16])
    decreases |code|
  {
    if code != [] {
      MachineMeaning(code[0], r);
      MachineCodeMeaning(code[1..], Exec(code[0], r));
      var ms := MachinesOf(code);
      assert ms[0] == MachineOf(code[0]) && ms[1..] == MachinesOf(code[1..]);
      assert forall m :: m in ms <==> m == ms[0] || m in ms[1..];
    }
  }

  // ---------------------------------------------------------------- emitted code is in expanded form

  lemma TwoOperandIsExpanded(i: Instr)
    requires IsAlu(i.opcode) && Width(i.opcode) == WIDTH_32 && i.count == 3
    requires forall k :: 0 <= k < 3 ==> i.ops[k].kind == Reg && i.ops[k].id < 16
    ensures forall e :: e in TwoOperand(i) ==> Expanded(e)
  {
    SwapToMov(i.opcode);
    assert Expanded(Folded(i));
    assert NeedsMov(i) ==> Expanded(MovOf(i));
  }

  lemma CleanCodeIsExpanded(t: Tables, w: GuestWord)
    requires Sound(t) && SlotsLeft(t) && Clean(t, w)
    ensures forall i :: i in CodeOf(t, w) ==> Expanded(i)
  {
    AfterWordKeeps(t, w);
    RenamedInRange(AfterWord(t, w).assoc, w);
    TwoOperandIsExpanded(Renamed(AfterWord(t, w).assoc, w));
    SupportedIsAlu(Funct(w));
    assert CodeOf(t, w) == TwoOperand(Renamed(AfterWord(t, w).assoc, w));
  }

  lemma OnSixteen(a: Assocs, g: RegId)
    requires Injective(a) && RolesKept(a) && OnHost(a[g])
    ensures HostId(a, g) < 16
  {
    HostIdsDiffer(a, g, g);
  }

  lemma RenamedOperands(a: Assocs, w: GuestWord)
    requires Injective(a) && RolesKept(a) && OperandsOnHost(a, w)
    ensures forall k :: 0 <= k < 3 ==> Renamed(a, w).ops[k].kind == Reg && Renamed(a, w).ops[k].id < 16
  {
    RenamedInstr(a, w);
    OnSixteen(a, Rd(w));
    OnSixteen(a, Rs(w));
    OnSixteen(a, Rt(w));
  }

  lemma RenamedInRange(a: Assocs, w: GuestWord)
    requires Supported(w) && Injective(a) && RolesKept(a) && OperandsOnHost(a, w)
    ensures var i := Renamed(a, w);
      && IsAlu(i.opcode) && Width(i.opcode) == WIDTH_32 && i.count == 3
      && forall k :: 0 <= k < 3 ==> i.ops[k].kind == Reg && i.ops[k].id < 16
  {
    SupportedIsAlu(Funct(w));
    RenamedOperands(a, w);
  }

  lemma {:induction false} CleanRunIsExpanded(t: Tables, ws: seq<GuestWord>)
    requires Sound(t) && SlotsLeft(t) && AllClean(t, ws)
    ensures forall i :: i in CodeOfWords(t, ws) ==> Expanded(i)
    decreases |ws|
  {
    if ws != [] {
      AfterWordKeeps(t, ws[0]);
      CleanCodeIsExpanded(t, ws[0]);
      CleanRunIsExpanded(AfterWord(t, ws[0]), ws[1..]);
    }
  }

  // ---------------------------------------------------------------- the whole way

  /** Agreement with the sixteen registers of the machine. */
  ghost predicate MachineAgrees(a: Assocs, host: HostRegs, guest: GuestRegs)
  {
    Agree(a, Widen(host), guest)
  }

  lemma AgreeOnLowRegisters(a: Assocs, r: RegFile, s: RegFile, guest: GuestRegs)
    requires Injective(a) && RolesKept(a) && Agree(a, r, guest) && r[..16] == s[..16]
    ensures Agree(a, s, guest)
  {
    forall g: RegId | OnHost(a[g]) ensures Low32(s[HostId(a, g)]) == guest[g] {
      HostIdsDiffer(a, g, g);
      assert r[..16][HostId(a, g)] == s[..16][HostId(a, g)];
    }
  }

  /** The bytes decode as a whole, and running them simulates the guest words whatever the
  register contents are. */
  ghost predicate BytesSimulate(a: Assocs, bytes: seq<bv8>, ws: seq<GuestWord>)
  {
    && DecodeAll(bytes).Some?
    && (forall m :: m in DecodeAll(bytes).value ==> InRange(m))
    && forall host: HostRegs, guest: GuestRegs :: MachineAgrees(a, host, guest) ==>
         MachineAgrees(a, MachineRun(DecodeAll(bytes).value, host), GuestRun(ws, guest))
  }

  lemma IntendedCodeSimulates(t: Tables, ws: seq<GuestWord>, host: HostRegs, guest: GuestRegs)
    requires Sound(t) && SlotsLeft(t) && AllClean(t, ws)
    requires MachineAgrees(AfterWords(t, ws).assoc, host, guest)
    requires forall i :: i in CodeOfWords(t, ws) ==> Expanded(i)
    ensures forall m :: m in MachinesOf(CodeOfWords(t, ws)) ==> InRange(m)
    ensures var after := MachineRun(MachinesOf(CodeOfWords(t, ws)), host);
      MachineAgrees(AfterWords(t, ws).assoc, after, GuestRun(ws, guest))
  {
    var code, a := CodeOfWords(t, ws), AfterWords(t, ws).assoc;
    RunKeeps(t, ws);
    MachineCodeMeaning(code, Widen(host));
    assert Widen(host)[..16] == host;
    RunSimulates(t, ws, Widen(host), guest);
    var after := MachineRun(MachinesOf(code), host);
    assert Widen(after)[..16] == after;
    AgreeOnLowRegisters(a, ExecAll(code, Widen(host)), Widen(after), GuestRun(ws, guest));
  }

  /** The bytes of a clean flush-free run decode to the intended machine code exactly when every
  register pair is equally extended, and then they simulate the guest words. */
  lemma {:induction false} RunEndToEnd(t: Tables, ws: seq<GuestWord>)
    requires Sound(t) && SlotsLeft(t) && AllClean(t, ws)
    ensures var code := CodeOfWords(t, ws);
      && (forall i :: i in code ==> RegisterForm(i))
      && (DecodeAll(CodeBytes(code)) == Some(MachinesOf(code)) <==> forall i :: i in code ==> SameExtension(i))
      && ((forall i :: i in code ==> SameExtension(i)) ==> BytesSimulate(AfterWords(t, ws).assoc, CodeBytes(code), ws))
  {
    var code, a := CodeOfWords(t, ws), AfterWords(t, ws).assoc;
    CleanRunIsExpanded(t, ws);
    StreamRoundTrip(code);
    MachineCodeMeaning(code, seq(256, _ => 0));
    if forall i :: i in code ==> SameExtension(i) {
      forall host: HostRegs, guest: GuestRegs | MachineAgrees(a, host, guest)
        ensures MachineAgrees(a, MachineRun(DecodeAll(CodeBytes(code)).value, host), GuestRun(ws, guest))
      {
        IntendedCodeSimulates(t, ws, host, guest);
      }
    }
  }

  /** The pass appends, for fragment b of a block, code whose bytes simulate the words of the
  fragment, whenever the tables are sound at its start, its words are clean and the register
  pairs of the code are equally extended. */
  lemma {:induction false} FragmentEndToEnd(kind: BlockKind, live: Liveness, words: seq<GuestWord>,
                                            start: Progress, b: nat)
    requires (b + 1) * FragWords(kind) <= |words|
    requires AllRType(words) && |start.code| + 2 * |words| <= IR_CAPACITY
    ensures var before, after := Pass(kind, live, words, b * FragWords(kind), start),
                                 Pass(kind, live, words, (b + 1) * FragWords(kind), start);
      && before.Running? && after.Running?
      && var t, ws := before.p.t, FragmentWords(kind, words, b);
         var code := CodeOfWords(t, ws);
         && after.p.code == before.p.code + code
         && (Sound(t) && SlotsLeft(t) && AllClean(t, ws)
             && (forall i :: i in code ==> SameExtension(i))
             ==> (forall i :: i in code ==> RegisterForm(i))
                 && BytesSimulate(AfterWords(t, ws).assoc, CodeBytes(code), ws))
  {
    FragmentIsRun(kind, live, words, start, b);
    var t, ws := Pass(kind, live, words, b * FragWords(kind), start).p.t, FragmentWords(kind, words, b);
    if Sound(t) && SlotsLeft(t) && AllClean(t, ws) {
      RunEndToEnd(t, ws);
    }
  }

  // ---------------------------------------------------------------- words over the temporaries

  predicate NamesTemporaries(w: GuestWord)
  {
    GuestRole(Rd(w)) == Temp && GuestRole(Rs(w)) == Temp && GuestRole(Rt(w)) == Temp
  }

  lemma TemporaryIsExtended(a: Assocs, g: RegId)
    requires RolesKept(a) && OnHost(a[g]) && GuestRole(g) == Temp
    ensures Extended(HostId(a, g))
  {
  }

  /** Both temporaries of the host are extended registers. */
  lemma TemporariesEncode(t: Tables, w: GuestWord)
    requires Sound(t) && SlotsLeft(t) && Clean(t, w) && NamesTemporaries(w)
    ensures forall i :: i in CodeOf(t, w) ==> SameExtension(i)
  {
    var u := AfterWord(t, w).assoc;
    AfterWordKeeps(t, w);
    RenamedInstr(u, w);
    TemporaryIsExtended(u, Rd(w));
    TemporaryIsExtended(u, Rs(w));
    TemporaryIsExtended(u, Rt(w));
  }

  /** Clean words over the guest temporaries are compiled correctly down to the bytes. */
  lemma {:induction false} TemporaryRunEncodes(t: Tables, ws: seq<GuestWord>)
    requires Sound(t) && SlotsLeft(t) && AllClean(t, ws)
    requires forall w :: w in ws ==> NamesTemporaries(w)
    ensures forall i :: i in CodeOfWords(t, ws) ==> SameExtension(i)
    decreases |ws|
  {
    if ws != [] {
      AfterWordKeeps(t, ws[0]);
      TemporariesEncode(t, ws[0]);
      TemporaryRunEncodes(AfterWord(t, ws[0]), ws[1..]);
    }
  }

  lemma {:induction false} TemporaryRunEndToEnd(t: Tables, ws: seq<GuestWord>)
    requires Sound(t) && SlotsLeft(t) && AllClean(t, ws)
    requires forall w :: w in ws ==> NamesTemporaries(w)
    ensures forall i :: i in CodeOfWords(t, ws) ==> RegisterForm(i)
    ensures BytesSimulate(AfterWords(t, ws).assoc, CodeBytes(CodeOfWords(t, ws)), ws)
  {
    TemporaryRunEncodes(t, ws);
    RunEndToEnd(t, ws);
  }
}
