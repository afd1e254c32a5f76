/** Exactly which words are translated correctly, whatever their operands are associated with: a guest
on a host register lives there, and so does a spilled one, in the register with the low byte of its
slot number. */
module Correctness {
  import opened Bits
  import opened Ir
  import opened Mips
  import opened InstrFix
  import opened Passes
  import opened Expansion
  import opened AllocInvariant
  import opened Simulation

  // ---------------------------------------------------------------- what the code of a word computes

  /** The value that the code of a word writes, and the register it writes it to. A source that is not
  on a host register is read from the register with the low byte of its id. */
  function Written(u: Assocs, w: GuestWord, host: RegFile): U64
  {
    var d, s, x := HostId(u, Rd(w)), HostId(u, Rs(w)), HostId(u, Rt(w));
    Alu64(Group(IrOpcode(Funct(w))), host[s], if d != s && x == d then host[s] else host[x])
  }

  lemma AnyCodeEffect(t: Tables, w: GuestWord, host: RegFile)
    requires Supported(w)
    ensures var u := AfterWord(t, w).assoc;
      ExecAll(CodeOf(t, w), host) == host[HostId(u, Rd(w)) := Written(u, w, host)]
  {
    var u := AfterWord(t, w).assoc;
    SupportedIsAlu(Funct(w));
    RenamedInstr(u, w);
    var i := Renamed(u, w);
    TwoOperandRuns(i, host);
    var d, s := i.ops[0].id, i.ops[1].id;
    assert NeedsMov(i) ==> host[d := host[s]][d := Written(u, w, host)] == host[d := Written(u, w, host)];
  }

  /** Guest contents that agree with the host. */
  function View(a: Assocs, host: RegFile): GuestRegs
  {
    seq(32, g requires 0 <= g < 32 => Low32(host[HostId(a, g)]))
  }

  lemma ViewAgrees(a: Assocs, host: RegFile)
    ensures Agree(a, host, View(a, host))
  {
  }

  // ---------------------------------------------------------------- agreement, spilled guests included

  /** Each of these guests is in the low half of the register that its id names. */
  ghost predicate AgreeOn(a: Assocs, known: set<RegId>, host: RegFile, guest: GuestRegs)
  {
    forall g :: g in known ==> Low32(host[HostId(a, g)]) == guest[g]
  }

  function Associated(a: Assocs): set<RegId>
  {
    set g: RegId | a[g].used
  }

  /** Every associated guest, spilled or not, is where its id says. */
  ghost predicate Tracks(a: Assocs, host: RegFile, guest: GuestRegs)
  {
    AgreeOn(a, Associated(a), host, guest)
  }

  lemma ViewAgreesOn(a: Assocs, known: set<RegId>, host: RegFile)
    ensures AgreeOn(a, known, host, View(a, host))
  {
  }

  /** Associating operands never changes an association, and always covers the destination. */
  lemma {:induction false} FillExtends(t: Tables, i: Instr, k: nat)
    requires GuestOperands(i) && k <= i.count
    ensures Extends(t.assoc, FillFrom(t, i, k).assoc)
    ensures k < i.count ==> FillFrom(t, i, k).assoc[i.ops[k].id].used
    decreases i.count - k
  {
    if k < i.count && !t.assoc[i.ops[k].id].used {
      FillExtends(Associate(t, i.ops[k].id), i, k + 1);
    }
  }

  lemma WordExtends(t: Tables, w: GuestWord)
    ensures Extends(t.assoc, AfterWord(t, w).assoc)
    ensures Supported(w) ==> AfterWord(t, w).assoc[Rd(w)].used
  {
    if IrOpcode(Funct(w)) != INVALID_OPCODE {
      var i := LiftedInstr(w);
      FillExtends(t, i, FillStart(i));
    }
    if Supported(w) {
      SupportedIsAlu(Funct(w));
    }
  }

  lemma {:induction false} RunExtendsAssocs(t: Tables, ws: seq<GuestWord>)
    ensures Extends(t.assoc, AfterWords(t, ws).assoc)
    decreases |ws|
  {
    if ws != [] {
      WordExtends(t, ws[0]);
      RunExtendsAssocs(AfterWord(t, ws[0]), ws[1..]);
    }
  }

  // ---------------------------------------------------------------- whole runs

  /** The word is known, both sources are associated when it is renamed, and it overwrites none. */
  predicate Traceable(t: Tables, w: GuestWord)
  {
    && Supported(w) && NoOverwrite(w)
    && AfterWord(t, w).assoc[Rs(w)].used && AfterWord(t, w).assoc[Rt(w)].used
  }

  predicate AllTraceable(t: Tables, ws: seq<GuestWord>)
    decreases |ws|
  {
    ws == [] || (Traceable(t, ws[0]) && AllTraceable(AfterWord(t, ws[0]), ws[1..]))
  }

  /** No two associated guests have ids with the same low byte. */
  ghost predicate DistinctIds(a: Assocs)
  {
    forall g: RegId, h: RegId :: g != h && a[g].used && a[h].used ==> HostId(a, g) != HostId(a, h)
  }

  /** The code of a word depends only on the associations of its three operands. */
  lemma LaterIds(t: Tables, w: GuestWord, a: Assocs)
    requires Traceable(t, w) && Extends(AfterWord(t, w).assoc, a)
    ensures var u := AfterWord(t, w).assoc;
      && a[Rd(w)] == u[Rd(w)] && a[Rs(w)] == u[Rs(w)] && a[Rt(w)] == u[Rt(w)]
      && a[Rd(w)].used && a[Rs(w)].used && a[Rt(w)].used
  {
    WordExtends(t, w);
  }

  /** The value written is the one intended when only the destination has the destination's id. */
  lemma WrittenAsIntended(u: Assocs, w: GuestWord, host: RegFile)
    requires NoOverwrite(w) && (Rt(w) != Rd(w) ==> HostId(u, Rt(w)) != HostId(u, Rd(w)))
    ensures Written(u, w, host)
         == Alu64(Group(IrOpcode(Funct(w))), host[HostId(u, Rs(w))], host[HostId(u, Rt(w))])
  {
  }

  /** A guest untouched by the word keeps its register, and the destination gets the result. */
  lemma TrackedResult(u: Assocs, w: GuestWord, host: RegFile, guest: GuestRegs, d: RegId, s: RegId, x: RegId)
    requires Supported(w) && d == Rd(w) && s == Rs(w) && x == Rt(w)
    requires Low32(host[HostId(u, s)]) == guest[s] && Low32(host[HostId(u, x)]) == guest[x]
    requires Written(u, w, host) == Alu64(Group(IrOpcode(Funct(w))), host[HostId(u, s)], host[HostId(u, x)])
    ensures Low32(Written(u, w, host)) == GuestStep(w, guest)[d]
    ensures forall g: RegId :: g != d ==> GuestStep(w, guest)[g] == guest[g]
  {
    Low32Homomorphism(Funct(w), host[HostId(u, s)], host[HostId(u, x)]);
  }

  lemma WordTracksLater(t: Tables, w: GuestWord, a: Assocs, host: RegFile, guest: GuestRegs)
    requires Traceable(t, w) && Extends(AfterWord(t, w).assoc, a) && DistinctIds(a) && Tracks(a, host, guest)
    ensures Tracks(a, ExecAll(CodeOf(t, w), host), GuestStep(w, guest))
  {
    var u := AfterWord(t, w).assoc;
    LaterIds(t, w, a);
    AnyCodeEffect(t, w, host);
    WrittenAsIntended(u, w, host);
    TrackedResult(u, w, host, guest, Rd(w), Rs(w), Rt(w));
    TracksAfterWrite(a, Rd(w), host, guest, Written(u, w, host), GuestStep(w, guest));
  }

  lemma TracksAfterWrite(a: Assocs, d: RegId, host: RegFile, guest: GuestRegs, v: U64, after: GuestRegs)
    requires a[d].used && DistinctIds(a) && Tracks(a, host, guest) && Low32(v) == after[d]
    requires forall g: RegId :: g != d ==> after[g] == guest[g]
    ensures Tracks(a, host[HostId(a, d) := v], after)
  {
    AgreeAfterWrite(a, Associated(a), d, host, guest, v, after);
    assert Associated(a) + {d} == Associated(a);
  }

  lemma AgreeAfterWrite(a: Assocs, known: set<RegId>, d: RegId, host: RegFile, guest: GuestRegs, v: U64,
                        after: GuestRegs)
    requires AgreeOn(a, known, host, guest) && Low32(v) == after[d]
    requires forall g :: g in known && g != d ==> HostId(a, g) != HostId(a, d)
    requires forall g: RegId :: g != d ==> after[g] == guest[g]
    ensures AgreeOn(a, known + {d}, host[HostId(a, d) := v], after)
  {
  }

  lemma {:induction false} RunTracksLater(t: Tables, ws: seq<GuestWord>, a: Assocs, host: RegFile, guest: GuestRegs)
    requires AllTraceable(t, ws) && Extends(AfterWords(t, ws).assoc, a) && DistinctIds(a) && Tracks(a, host, guest)
    ensures Tracks(a, ExecAll(CodeOfWords(t, ws), host), GuestRun(ws, guest))
    decreases |ws|
  {
    if ws != [] {
      var u := AfterWord(t, ws[0]);
      RunExtendsAssocs(u, ws[1..]);
      WordTracksLater(t, ws[0], a, host, guest);
      ExecAllAppend(CodeOf(t, ws[0]), CodeOfWords(u, ws[1..]), host);
      RunTracksLater(u, ws[1..], a, ExecAll(CodeOf(t, ws[0]), host), GuestStep(ws[0], guest));
    }
  }

  /** From any tables: the code of a flush-free run whose operands are all associated, spilled or not,
  and that overwrites no source keeps every guest of the final association where its id says, for
  all register contents, provided that the ids of the associated guests differ in their low bytes. */
  lemma RunTracks(t: Tables, ws: seq<GuestWord>, host: RegFile, guest: GuestRegs)
    requires AllTraceable(t, ws) && DistinctIds(AfterWords(t, ws).assoc)
    requires Tracks(AfterWords(t, ws).assoc, host, guest)
    ensures Tracks(AfterWords(t, ws).assoc, ExecAll(CodeOfWords(t, ws), host), GuestRun(ws, guest))
  {
    RunTracksLater(t, ws, AfterWords(t, ws).assoc, host, guest);
  }

  /** In sound tables with at most 256 slots in use, the ids differ exactly when no slot in use has the
  number of a host register in use. */
  lemma DistinctExactly(t: Tables)
    requires Sound(t) && t.spills <= 0x100
    ensures DistinctIds(t.assoc)
       <==> forall g: RegId, h: RegId :: OnHost(t.assoc[g]) && OnSlot(t.assoc[h]) ==> t.assoc[g].id != t.assoc[h].id
  {
    var a := t.assoc;
    forall g: RegId | a[g].used ensures HostId(a, g) == a[g].id {
      if OnHost(a[g]) {
        HostIdsDiffer(a, g, g);
      }
    }
  }

  // ---------------------------------------------------------------- one word, exactly

  /** Whatever the registers contain: if these guests agree before the word, they and its destination agree
  after it. */
  ghost predicate WordKeeps(t: Tables, w: GuestWord, known: set<RegId>)
  {
    var u := AfterWord(t, w).assoc;
    forall host: RegFile, guest: GuestRegs ::
      AgreeOn(u, known, host, guest) ==> AgreeOn(u, known + {Rd(w)}, ExecAll(CodeOf(t, w), host), GuestStep(w, guest))
  }

  /** The same for all associated guests. */
  ghost predicate WordIsCorrect(t: Tables, w: GuestWord)
  {
    var u := AfterWord(t, w).assoc;
    forall host: RegFile, guest: GuestRegs ::
      Tracks(u, host, guest) ==> Tracks(u, ExecAll(CodeOf(t, w), host), GuestStep(w, guest))
  }

  predicate SharedWith(u: Assocs, known: set<RegId>, d: RegId, g: RegId)
  {
    g in known && g != d && HostId(u, g) == HostId(u, d)
  }

  /** One of these guests, other than the destination, has an id with the low byte of the destination's. */
  ghost predicate SharesId(u: Assocs, known: set<RegId>, d: RegId)
  {
    exists g: RegId :: SharedWith(u, known, d, g)
  }

  /** A word that subtracts a register from itself: the only one whose sources do not matter. */
  predicate Cancels(w: GuestWord)
  {
    Funct(w) == 0x22 && Rs(w) == Rt(w)
  }

  predicate SourcesIn(known: set<RegId>, w: GuestWord)
  {
    Rs(w) in known && Rt(w) in known
  }

  /** AND or OR of one register with itself, written back to that register. */
  predicate Repeats(u: Assocs, w: GuestWord)
  {
    (Funct(w) == 0x24 || Funct(w) == 0x25) && HostId(u, Rs(w)) == HostId(u, Rt(w)) == HostId(u, Rd(w))
  }

  /** What makes a word right: nobody else lives where it writes, and it cancels or reads known sources of
  which it overwrites none; or it writes back what several guests hold there. */
  ghost predicate Right(u: Assocs, known: set<RegId>, w: GuestWord)
  {
    if SharesId(u, known, Rd(w)) then Repeats(u, w) && SourcesIn(known, w)
    else Cancels(w) || (SourcesIn(known, w) && NoOverwrite(w))
  }

  // The words that are right.

  lemma CancelWrites(u: Assocs, w: GuestWord, host: RegFile, guest: GuestRegs)
    requires Supported(w) && Cancels(w)
    ensures Written(u, w, host) == 0 && GuestStep(w, guest)[Rd(w)] == 0
  {
    TableGroups();
  }

  lemma {:induction false} SameTwice(x: nat)
    ensures BitAnd(x, x) == x && BitOr(x, x) == x
  {
    if x != 0 {
      SameTwice(x / 2);
    }
  }

  lemma RepeatWrites(u: Assocs, known: set<RegId>, w: GuestWord, host: RegFile, guest: GuestRegs)
    requires Supported(w) && Repeats(u, w) && SourcesIn(known, w) && AgreeOn(u, known, host, guest)
    ensures var d := HostId(u, Rd(w));
      Written(u, w, host) == host[d] && GuestStep(w, guest) == guest[Rd(w) := Low32(host[d])]
  {
    TableGroups();
    SameTwice(host[HostId(u, Rd(w))]);
    SameTwice(guest[Rs(w)]);
    assert guest[Rs(w)] == guest[Rt(w)];
  }

  lemma RightKeeps(t: Tables, w: GuestWord, known: set<RegId>, host: RegFile, guest: GuestRegs)
    requires Supported(w) && Right(AfterWord(t, w).assoc, known, w)
    requires AgreeOn(AfterWord(t, w).assoc, known, host, guest)
    ensures AgreeOn(AfterWord(t, w).assoc, known + {Rd(w)}, ExecAll(CodeOf(t, w), host), GuestStep(w, guest))
  {
    var u := AfterWord(t, w).assoc;
    AnyCodeEffect(t, w, host);
    var d, v := HostId(u, Rd(w)), Written(u, w, host);
    if SharesId(u, known, Rd(w)) {
      RepeatWrites(u, known, w, host, guest);
      assert host[d := v] == host;
    } else {
      assert forall g :: g in known && g != Rd(w) ==> !SharedWith(u, known, Rd(w), g);
      if Cancels(w) {
        CancelWrites(u, w, host, guest);
      } else {
        WrittenAsIntended(u, w, host);
        TrackedResult(u, w, host, guest, Rd(w), Rs(w), Rt(w));
      }
      AgreeAfterWrite(u, known, Rd(w), host, guest, v, GuestStep(w, guest));
    }
  }

  // The words that are not.

  /** The contents with which a changed source shows in the result. */
  function Neutral(funct: nat): U32
  {
    if funct == 0x24 then 1 else 0
  }

  lemma ChangedSourceShows(funct: nat)
    requires KnownFunct(funct)
    ensures Alu32(funct, 0, Neutral(funct)) != Alu32(funct, 1, Neutral(funct))
    ensures Alu32(funct, Neutral(funct), 0) != Alu32(funct, Neutral(funct), 1)
    ensures funct != 0x22 ==> Alu32(funct, 0, 0) != Alu32(funct, 1, 1)
  {
    assert BitAnd(1, 1) == 1 && BitOr(1, 1) == 1;
  }

  lemma TwoGuests(w: GuestWord, z: RegId)
    requires Supported(w) && !Cancels(w) && (z == Rs(w) || z == Rt(w))
    ensures var base: GuestRegs := seq(32, _ => Neutral(Funct(w)));
      GuestStep(w, base[z := 0])[Rd(w)] != GuestStep(w, base[z := 1])[Rd(w)]
  {
    ChangedSourceShows(Funct(w));
  }

  lemma UnseenGuest(u: Assocs, known: set<RegId>, z: RegId, c: U32, v: U32, host: RegFile)
    requires z !in known && host == seq(256, _ => c)
    ensures var base: GuestRegs := seq(32, _ => c); AgreeOn(u, known, host, base[z := v])
  {
  }

  lemma OneOfTwoDisagrees(u: Assocs, known: set<RegId>, d: RegId, after: RegFile, g: GuestRegs, h: GuestRegs)
    requires d in known && g[d] != h[d]
    ensures !AgreeOn(u, known, after, g) || !AgreeOn(u, known, after, h)
  {
  }

  /** Two guests that differ in an unknown source look the same to the host. */
  lemma LostSourceIsWrong(t: Tables, w: GuestWord, known: set<RegId>, z: RegId)
    requires Supported(w) && !Cancels(w) && (z == Rs(w) || z == Rt(w)) && z !in known
    ensures !WordKeeps(t, w, known)
  {
    var u, c := AfterWord(t, w).assoc, Neutral(Funct(w));
    var host: RegFile := seq(256, _ => c);
    var base: GuestRegs := seq(32, _ => c);
    TwoGuests(w, z);
    UnseenGuest(u, known, z, c, 0, host);
    UnseenGuest(u, known, z, c, 1, host);
    OneOfTwoDisagrees(u, known + {Rd(w)}, Rd(w), ExecAll(CodeOf(t, w), host),
                      GuestStep(w, base[z := 0]), GuestStep(w, base[z := 1]));
  }

  /** Contents of the host that show a write to register d. */
  function Telling(group: bv16, d: U8, s: U8, x: U8): RegFile
  {
    var zeros: RegFile := seq(256, _ => 0);
    if d != s || x == d || group == GROUP_AND then zeros[d := 1] else zeros[x := 1]
  }

  lemma OtherResults()
    ensures Alu64(GROUP_ADD, 1, 1) == 2 && Alu64(GROUP_SUB, 1, 1) == 0 && Alu64(GROUP_AND, 0, 0) == 0
    ensures Low32(Alu64(GROUP_SUB, 0, 1)) == 0xffff_ffff
  {
  }

  lemma WriteShows(u: Assocs, w: GuestWord)
    requires Supported(w) && !Repeats(u, w)
    ensures var d := HostId(u, Rd(w));
      var host := Telling(Group(IrOpcode(Funct(w))), d, HostId(u, Rs(w)), HostId(u, Rt(w)));
      Low32(Written(u, w, host)) != Low32(host[d])
  {
    TableGroups();
    OneBitResults();
    OtherResults();
  }

  /** A guest that shares the destination's register is changed. */
  lemma SharedIsWrong(t: Tables, w: GuestWord, known: set<RegId>, g: RegId)
    requires Supported(w) && SharedWith(AfterWord(t, w).assoc, known, Rd(w), g) && !Repeats(AfterWord(t, w).assoc, w)
    ensures !WordKeeps(t, w, known)
  {
    var u := AfterWord(t, w).assoc;
    var d := HostId(u, Rd(w));
    var host := Telling(Group(IrOpcode(Funct(w))), d, HostId(u, Rs(w)), HostId(u, Rt(w)));
    WriteShows(u, w);
    ViewAgreesOn(u, known, host);
    AnyCodeEffect(t, w, host);
    GuestMissed(u, known + {Rd(w)}, g, host[d := Written(u, w, host)], GuestStep(w, View(u, host)));
  }

  lemma GuestMissed(u: Assocs, known: set<RegId>, g: RegId, after: RegFile, stepped: GuestRegs)
    requires g in known && Low32(after[HostId(u, g)]) != stepped[g]
    ensures !AgreeOn(u, known, after, stepped)
  {
  }

  /** On the revealing contents, even the low halves of the two results differ. */
  lemma RevealingLow(i: Instr)
    requires IsAlu(i.opcode) && !Expandable(i)
    ensures var r, d, s, g := Revealing(i), i.ops[0].id, i.ops[1].id, Group(i.opcode);
      Low32(Alu64(g, r[s], r[s])) != Low32(Alu64(g, r[s], r[d]))
  {
    OneBitResults();
  }

  /** The second source is the destination, and the first one lives elsewhere. */
  lemma OverwriteIsWrong(t: Tables, w: GuestWord, known: set<RegId>)
    requires Supported(w) && Rt(w) == Rd(w)
    requires var u := AfterWord(t, w).assoc; HostId(u, Rs(w)) != HostId(u, Rd(w))
    ensures !WordKeeps(t, w, known)
  {
    var u := AfterWord(t, w).assoc;
    SupportedIsAlu(Funct(w));
    RenamedInstr(u, w);
    var i := Renamed(u, w);
    var host := Revealing(i);
    var s, d := HostId(u, Rs(w)), HostId(u, Rd(w));
    ViewAgreesOn(u, known, host);
    AnyCodeEffect(t, w, host);
    Low32Homomorphism(Funct(w), host[s], host[d]);
    RevealingLow(i);
    GuestMissed(u, known + {Rd(w)}, Rd(w), host[d := Written(u, w, host)], GuestStep(w, View(u, host)));
  }

  lemma NotRightIsWrong(t: Tables, w: GuestWord, known: set<RegId>)
    requires Supported(w) && !Right(AfterWord(t, w).assoc, known, w)
    ensures !WordKeeps(t, w, known)
  {
    var u := AfterWord(t, w).assoc;
    if !Cancels(w) && Rs(w) !in known {
      LostSourceIsWrong(t, w, known, Rs(w));
    } else if !Cancels(w) && Rt(w) !in known {
      LostSourceIsWrong(t, w, known, Rt(w));
    } else if SharesId(u, known, Rd(w)) {
      var g: RegId :| SharedWith(u, known, Rd(w), g);
      SharedIsWrong(t, w, known, g);
    } else {
      assert !SharedWith(u, known, Rd(w), Rs(w));
      OverwriteIsWrong(t, w, known);
    }
  }

  /** From any tables and for any set of guests that agree before it, a supported word is translated
  correctly for all register contents exactly when it is right: it fails by a source that is not among
  them, by overwriting its second source, and by writing where one of them lives. */
  lemma WordKeepsExactly(t: Tables, w: GuestWord, known: set<RegId>)
    requires Supported(w)
    ensures WordKeeps(t, w, known) <==> Right(AfterWord(t, w).assoc, known, w)
  {
    var u := AfterWord(t, w).assoc;
    if Right(u, known, w) {
      forall host: RegFile, guest: GuestRegs | AgreeOn(u, known, host, guest)
        ensures AgreeOn(u, known + {Rd(w)}, ExecAll(CodeOf(t, w), host), GuestStep(w, guest))
      {
        RightKeeps(t, w, known, host, guest);
      }
    } else {
      NotRightIsWrong(t, w, known);
    }
  }

  /** For the set of all associated guests, spilled or not: the failing cases are a source that was never
  associated, an overwritten second source, and a write to an id shared with another guest. */
  lemma WordCorrectExactly(t: Tables, w: GuestWord)
    requires Supported(w)
    ensures var u := AfterWord(t, w).assoc; WordIsCorrect(t, w) <==> Right(u, Associated(u), w)
  {
    var u := AfterWord(t, w).assoc;
    WordExtends(t, w);
    assert Associated(u) + {Rd(w)} == Associated(u);
    WordKeepsExactly(t, w, Associated(u));
  }
}
