/** Concrete blocks of two words: spilled guests that lose their value or cost another guest its own, one
that keeps it, and a source that the association walk never reaches. */
module WordWitnesses {
  import opened Ir
  import opened Mips
  import opened Cpu
  import opened Alloc
  import opened InstrFix
  import opened Passes
  import opened AllocInvariant
  import opened Correctness
  import opened Witnesses

  /** add $2, $2, $2 */
  const ADD_2: GuestWord := 0x0042_1020

  /** add $30, $2, $2 */
  const ADD_30_2: GuestWord := 0x0042_f020

  /** add $30, $4, $4 */
  const ADD_30_4: GuestWord := 0x0084_f020

  /** add $2, $4, $4 */
  const ADD_2_4: GuestWord := 0x0084_1020

  /** add $5, $30, $30 */
  const ADD_5_30: GuestWord := 0x03de_2820

  /** add $8, $9, $9 */
  const ADD_8_9: GuestWord := 0x0129_4020

  /** The word is `add d, s, s`. */
  predicate IsAdd(w: GuestWord, d: RegId, s: RegId)
  {
    Supported(w) && Funct(w) == 0x20 && Rd(w) == d && Rs(w) == s && Rt(w) == s
  }

  lemma SpillFields()
    ensures IsAdd(ADD_2, 2, 2) && IsAdd(ADD_30_2, 30, 2) && IsAdd(ADD_30_4, 30, 4)
  {
  }

  lemma OtherFields()
    ensures IsAdd(ADD_2_4, 2, 4) && IsAdd(ADD_5_30, 5, 30) && IsAdd(ADD_8, 8, 8) && IsAdd(ADD_8_9, 8, 9)
  {
  }

  // ---------------------------------------------------------------- tables after such words

  function AssociateIfNew(t: Tables, g: RegId): Tables
  {
    if t.assoc[g].used then t else Associate(t, g)
  }

  /** The walk over `add d, s, s`. */
  lemma AddTables(t: Tables, w: GuestWord, d: RegId, s: RegId)
    requires IsAdd(w, d, s) && d != s
    ensures AfterWord(t, w) == if t.assoc[d].used then t else AssociateIfNew(Associate(t, d), s)
  {
    SupportedIsAlu(Funct(w));
    var i := LiftedInstr(w);
    if !t.assoc[d].used {
      assert FillFrom(t, i, 0) == FillFrom(Associate(t, d), i, 1);
      FillTail(Associate(t, d), i, 1);
    }
  }

  lemma Lowest(role: Role, state: States, h: nat)
    requires h in HostMask(role) && h < 16 && state[h] == Free
    requires forall k :: k in HostMask(role) && k < h ==> state[k] == Occupied
    ensures AllocResult(role, state) == h
  {
    AllocGivesFree(role, state);
    assert h in FreeHosts(role, state);
  }

  lemma OnLowest(t: Tables, g: RegId, h: nat)
    requires h in HostMask(GuestRole(g)) && h < 16 && t.state[h] == Free
    requires forall k :: k in HostMask(GuestRole(g)) && k < h ==> t.state[k] == Occupied
    ensures Associate(t, g) == Tables(t.assoc[g := Assoc(true, false, h)], t.state[h := Occupied], t.spills)
  {
    Lowest(GuestRole(g), t.state, h);
  }

  /** Guest 30 has no host register of its role. */
  lemma OnNextSlot(t: Tables)
    ensures Associate(t, 30) == Tables(t.assoc[30 := Assoc(true, true, t.spills)], t.state, (t.spills + 1) % 0x1_0000)
  {
    SpillMeansNoneFree(GuestRole(30), t.state);
  }

  /** Guest 30 on slot 0 and guest 4 on host register 1. */
  lemma SlotAndHost(t: Tables)
    requires !t.assoc[30].used && !t.assoc[4].used && t.spills == 0 && t.state[1] == Free
    ensures AfterWord(t, ADD_30_4)
         == Tables(t.assoc[30 := Assoc(true, true, 0)][4 := Assoc(true, false, 1)], t.state[1 := Occupied], 1)
  {
    SpillFields();
    AddTables(t, ADD_30_4, 30, 4);
    OnNextSlot(t);
    OnLowest(Associate(t, 30), 4, 1);
  }

  // ---------------------------------------------------------------- what becomes of them

  lemma AddWrites(t: Tables, w: GuestWord, d: RegId, s: RegId, host: RegFile)
    requires IsAdd(w, d, s)
    ensures var u := AfterWord(t, w).assoc;
      ExecAll(CodeOf(t, w), host)
      == host[HostId(u, d) := Alu64(GROUP_ADD, host[HostId(u, s)], host[HostId(u, s)])]
  {
    TableGroups();
    AnyCodeEffect(t, w, host);
  }

  lemma SharedAddIsWrong(t: Tables, w: GuestWord, d: RegId, s: RegId, g: RegId)
    requires IsAdd(w, d, s) && AfterWord(t, w).assoc[g].used
    requires g != d && HostId(AfterWord(t, w).assoc, g) == HostId(AfterWord(t, w).assoc, d)
    ensures !WordIsCorrect(t, w)
  {
    var u := AfterWord(t, w).assoc;
    assert SharedWith(u, Associated(u), d, g);
    WordCorrectExactly(t, w);
  }

  /** Guest 2 on host register 0, guest 30 on slot 0. */
  predicate BothOnZero(u: Assocs)
  {
    u[2] == Assoc(true, false, 0) && u[30] == Assoc(true, true, 0)
  }

  lemma FirstGuest(t: Tables)
    requires t == AfterWord(FRESH, ADD_2)
    ensures t.assoc[2] == Assoc(true, false, 0) && !t.assoc[30].used && t.spills == 0
  {
    SpillFields();
    OneRegisterWord(FRESH, ADD_2, 2);
    OnLowest(FRESH, 2, 0);
  }

  lemma SlotBehindHost(t: Tables)
    requires t.assoc[2] == Assoc(true, false, 0) && !t.assoc[30].used && t.spills == 0
    ensures BothOnZero(AfterWord(t, ADD_30_2).assoc)
  {
    SpillFields();
    AddTables(t, ADD_30_2, 30, 2);
    OnNextSlot(t);
  }

  /** The first word puts guest 2 on host register 0. The second one writes to slot 0 of a spilled guest,
  which the renaming takes for host register 0: guest 2 is doubled. */
  lemma SpillOverwritesGuest(t: Tables, host: RegFile)
    requires t == AfterWord(FRESH, ADD_2)
    ensures BothOnZero(AfterWord(t, ADD_30_2).assoc)
    ensures ExecAll(CodeOf(t, ADD_30_2), host) == host[0 := Alu64(GROUP_ADD, host[0], host[0])]
    ensures !WordIsCorrect(t, ADD_30_2)
  {
    SpillFields();
    FirstGuest(t);
    SlotBehindHost(t);
    AddWrites(t, ADD_30_2, 30, 2, host);
    SharedAddIsWrong(t, ADD_30_2, 30, 2, 2);
  }

  lemma FirstSlot(t: Tables)
    requires t == AfterWord(FRESH, ADD_30_4)
    ensures t.assoc[30] == Assoc(true, true, 0) && t.assoc[4] == Assoc(true, false, 1)
    ensures forall g: RegId :: t.assoc[g].used <==> g == 30 || g == 4
    ensures t.state[0] == Free && t.state[1] == Occupied && t.state[2] == Free
  {
    SlotAndHost(FRESH);
  }

  lemma HostBehindSlot(t: Tables)
    requires t.assoc[30] == Assoc(true, true, 0) && t.assoc[4] == Assoc(true, false, 1)
    requires !t.assoc[2].used && t.state[0] == Free
    ensures var u := AfterWord(t, ADD_2_4).assoc; BothOnZero(u) && u[4] == Assoc(true, false, 1)
  {
    OtherFields();
    AddTables(t, ADD_2_4, 2, 4);
    OnLowest(t, 2, 0);
  }

  /** The other way round: the first word leaves guest 30 in the register of its slot 0, and the second one
  puts guest 2 on host register 0. The only copy of guest 30 is gone. */
  lemma GuestOverwritesSpill(t: Tables, host: RegFile)
    requires t == AfterWord(FRESH, ADD_30_4)
    ensures BothOnZero(AfterWord(t, ADD_2_4).assoc)
    ensures ExecAll(CodeOf(t, ADD_2_4), host) == host[0 := Alu64(GROUP_ADD, host[1], host[1])]
    ensures !WordIsCorrect(t, ADD_2_4)
  {
    OtherFields();
    FirstSlot(t);
    HostBehindSlot(t);
    AddWrites(t, ADD_2_4, 2, 4, host);
    SharedAddIsWrong(t, ADD_2_4, 2, 4, 30);
  }

  /** Guests 30, 4 and 5 on slot 0 and host registers 1 and 2. */
  lemma ThreePlaces(t: Tables)
    requires t.assoc[30] == Assoc(true, true, 0) && t.assoc[4] == Assoc(true, false, 1)
    requires forall g: RegId :: t.assoc[g].used <==> g == 30 || g == 4
    requires t.state[1] == Occupied && t.state[2] == Free
    ensures var a := AfterWord(t, ADD_5_30).assoc;
      && a[30] == Assoc(true, true, 0) && a[4] == Assoc(true, false, 1) && a[5] == Assoc(true, false, 2)
      && forall g: RegId :: a[g].used <==> g == 30 || g == 4 || g == 5
  {
    OtherFields();
    AddTables(t, ADD_5_30, 5, 30);
    OnLowest(t, 5, 2);
  }

  lemma RunOfTwo(t: Tables, v: GuestWord, w: GuestWord)
    ensures AfterWords(t, [v, w]) == AfterWord(AfterWord(t, v), w)
    ensures AllTraceable(t, [v, w]) <==> Traceable(t, v) && Traceable(AfterWord(t, v), w)
  {
    assert [v, w][1..] == [w] && [w][1..] == [];
    assert AfterWords(AfterWord(t, v), [w]) == AfterWords(AfterWord(AfterWord(t, v), w), []);
    assert AllTraceable(AfterWord(AfterWord(t, v), w), []);
  }

  lemma ThreeApart(a: Assocs)
    requires a[30] == Assoc(true, true, 0) && a[4] == Assoc(true, false, 1) && a[5] == Assoc(true, false, 2)
    requires forall g: RegId :: a[g].used <==> g == 30 || g == 4 || g == 5
    ensures DistinctIds(a)
  {
  }

  lemma BothTraceable(t: Tables)
    requires t == FRESH
    ensures AllTraceable(t, [ADD_30_4, ADD_5_30])
    ensures var a := AfterWords(t, [ADD_30_4, ADD_5_30]).assoc; OnSlot(a[30]) && OnHost(a[4]) && OnHost(a[5])
    ensures DistinctIds(AfterWords(t, [ADD_30_4, ADD_5_30]).assoc)
  {
    SpillFields();
    OtherFields();
    FirstSlot(AfterWord(t, ADD_30_4));
    ThreePlaces(AfterWord(t, ADD_30_4));
    RunOfTwo(t, ADD_30_4, ADD_5_30);
    ThreeApart(AfterWord(AfterWord(t, ADD_30_4), ADD_5_30).assoc);
  }

  /** A spill can also be harmless: nobody else has id 0 here, and guest 30 arrives in guest 5. */
  lemma SpillKeepsValue(t: Tables, host: RegFile, guest: GuestRegs)
    requires t == FRESH && Tracks(AfterWords(t, [ADD_30_4, ADD_5_30]).assoc, host, guest)
    ensures var words := [ADD_30_4, ADD_5_30];
      var a := AfterWords(t, words).assoc;
      && OnSlot(a[30]) && OnHost(a[4]) && OnHost(a[5])
      && Tracks(a, ExecAll(CodeOfWords(t, words), host), GuestRun(words, guest))
  {
    BothTraceable(t);
    RunTracks(t, [ADD_30_4, ADD_5_30], host, guest);
  }

  lemma FirstTemporary(t: Tables)
    requires t == AfterWord(FRESH, ADD_8)
    ensures t.assoc[8].used && !t.assoc[9].used
  {
    OtherFields();
    OneRegisterWord(FRESH, ADD_8, 8);
  }

  /** The walk over the second word ends at guest 8, so guest 9 is read without ever being associated. */
  lemma WalkEndsEarly(t: Tables)
    requires t == AfterWord(FRESH, ADD_8)
    ensures !FillCovers(t, LiftedInstr(ADD_8_9)) && !AfterWord(t, ADD_8_9).assoc[9].used
    ensures !WordIsCorrect(t, ADD_8_9)
  {
    OtherFields();
    FirstTemporary(t);
    AddTables(t, ADD_8_9, 8, 9);
    WordCorrectExactly(t, ADD_8_9);
  }
}
