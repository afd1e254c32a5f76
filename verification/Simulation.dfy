/** Running the translated code on the host simulates the guest words. */
module Simulation {
  import opened Bits
  import opened Ir
  import opened Mips
  import opened Cpu
  import opened InstrFix
  import opened Passes
  import opened Expansion
  import opened AllocInvariant

  /** The low half of every associated host register holds the guest register. */
  ghost predicate Agree(a: Assocs, host: RegFile, guest: GuestRegs)
  {
    forall g: RegId :: OnHost(a[g]) ==> Low32(host[HostId(a, g)]) == guest[g]
  }

  predicate OperandsOnHost(a: Assocs, w: GuestWord)
  {
    OnHost(a[Rd(w)]) && OnHost(a[Rs(w)]) && OnHost(a[Rt(w)])
  }

  /** The destination is not also the second source, unless it is the first source too. */
  predicate NoOverwrite(w: GuestWord)
  {
    Rd(w) != Rt(w) || Rd(w) == Rs(w)
  }

  /** The word is known, its operands get host registers, and it does not overwrite a source. */
  predicate Clean(t: Tables, w: GuestWord)
  {
    && Supported(w)
    && OperandsOnHost(AfterWord(t, w).assoc, w)
    && NoOverwrite(w)
  }

  predicate AllClean(t: Tables, ws: seq<GuestWord>)
    decreases |ws|
  {
    ws == [] || (Clean(t, ws[0]) && AllClean(AfterWord(t, ws[0]), ws[1..]))
  }

  lemma HostIdsDiffer(a: Assocs, g: RegId, h: RegId)
    requires Injective(a) && RolesKept(a) && OnHost(a[g]) && OnHost(a[h])
    ensures HostId(a, g) == a[g].id < 16
    ensures HostId(a, g) == HostId(a, h) <==> g == h
  {
    HostMasksAreDisjoint(GuestRole(g), GuestRole(g), a[g].id);
    HostMasksAreDisjoint(GuestRole(h), GuestRole(h), a[h].id);
  }

  /** The renamed instruction of a supported word. */
  function Renamed(a: Assocs, w: GuestWord): Instr
  {
    Fix(a, LiftedInstr(w))
  }

  lemma RenamedInstr(a: Assocs, w: GuestWord)
    ensures var i := Renamed(a, w);
      && i.opcode == IrOpcode(Funct(w)) && i.count == 3
      && i.ops[0] == Operand(Reg, HostId(a, Rd(w)))
      && i.ops[1] == Operand(Reg, HostId(a, Rs(w)))
      && i.ops[2] == Operand(Reg, HostId(a, Rt(w)))
  {
  }

  /** The emitted code puts the 64-bit result into the register of rd and changes nothing else. */
  lemma CodeEffect(t: Tables, w: GuestWord, host: RegFile)
    requires Sound(t) && SlotsLeft(t) && Clean(t, w)
    ensures var u := AfterWord(t, w).assoc;
      ExecAll(CodeOf(t, w), host)
      == host[HostId(u, Rd(w)) :=
           Alu64(Group(IrOpcode(Funct(w))), host[HostId(u, Rs(w))], host[HostId(u, Rt(w))])]
  {
    var u := AfterWord(t, w).assoc;
    AfterWordKeeps(t, w);
    SupportedIsAlu(Funct(w));
    RenamedInstr(u, w);
    HostIdsDiffer(u, Rd(w), Rt(w));
    HostIdsDiffer(u, Rd(w), Rs(w));
    ExpansionPreserves(Renamed(u, w), host);
  }

  /** One word, seen from any later association table. */
  lemma WordSimulates(t: Tables, w: GuestWord, a: Assocs, host: RegFile, guest: GuestRegs)
    requires Sound(t) && SlotsLeft(t) && Clean(t, w)
    requires Extends(AfterWord(t, w).assoc, a) && Injective(a) && RolesKept(a)
    requires Agree(a, host, guest)
    ensures Agree(a, ExecAll(CodeOf(t, w), host), GuestStep(w, guest))
  {
    CodeEffect(t, w, host);
    Low32Homomorphism(Funct(w), host[HostId(a, Rs(w))], host[HostId(a, Rt(w))]);
    forall g: RegId | OnHost(a[g])
      ensures Low32(ExecAll(CodeOf(t, w), host)[HostId(a, g)]) == GuestStep(w, guest)[g]
    {
      HostIdsDiffer(a, g, Rd(w));
    }
  }

  lemma {:induction false} RunSimulatesFrom(t: Tables, ws: seq<GuestWord>, a: Assocs, host: RegFile, guest: GuestRegs)
    requires Sound(t) && SlotsLeft(t) && AllClean(t, ws)
    requires Extends(AfterWords(t, ws).assoc, a) && Injective(a) && RolesKept(a)
    requires Agree(a, host, guest)
    ensures Agree(a, ExecAll(CodeOfWords(t, ws), host), GuestRun(ws, guest))
    decreases |ws|
  {
    if ws != [] {
      var u := AfterWord(t, ws[0]);
      AfterWordKeeps(t, ws[0]);
      RunKeeps(u, ws[1..]);
      WordSimulates(t, ws[0], a, host, guest);
      ExecAllAppend(CodeOf(t, ws[0]), CodeOfWords(u, ws[1..]), host);
      RunSimulatesFrom(u, ws[1..], a, ExecAll(CodeOf(t, ws[0]), host), GuestStep(ws[0], guest));
    }
  }

  /** Translation simulation. From any sound tables, the code of a clean flush-free run keeps every
  guest register of the final association in the low half of its host register, whatever the
  register contents. */
  lemma {:induction false} RunSimulates(t: Tables, ws: seq<GuestWord>, host: RegFile, guest: GuestRegs)
    requires Sound(t) && SlotsLeft(t) && AllClean(t, ws)
    requires Agree(AfterWords(t, ws).assoc, host, guest)
    ensures Agree(AfterWords(t, ws).assoc, ExecAll(CodeOfWords(t, ws), host), GuestRun(ws, guest))
  {
    RunKeeps(t, ws);
    RunSimulatesFrom(t, ws, AfterWords(t, ws).assoc, host, guest);
  }
}
