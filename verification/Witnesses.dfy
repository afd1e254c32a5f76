/** Concrete blocks: one that fills the IR buffer, and one whose flush lets two guests collide. */
module Witnesses {
  import opened Mips
  import opened Cpu
  import opened Alloc
  import opened InstrFix
  import opened Passes
  import opened AllocInvariant
  import opened Fragments
  import opened Flushing

  /** add $9, $9, $9 */
  const ADD_9: GuestWord := 0x0129_4820

  /** add $8, $8, $8 */
  const ADD_8: GuestWord := 0x0108_4020

  /** add $9, $10, $10 */
  const ADD_9_10: GuestWord := 0x014a_4820

  lemma WordFields()
    ensures Supported(ADD_9) && Rd(ADD_9) == Rs(ADD_9) == Rt(ADD_9) == 9
    ensures Supported(ADD_8) && Rd(ADD_8) == Rs(ADD_8) == Rt(ADD_8) == 8
    ensures Supported(ADD_9_10) && Rd(ADD_9_10) == 9 && Rs(ADD_9_10) == Rt(ADD_9_10) == 10
  {
  }

  lemma FirstTemp(state: States)
    ensures state[10] == Free ==> AllocResult(Temp, state) == 10
    ensures state[10] == Occupied && state[11] == Free ==> AllocResult(Temp, state) == 11
  {
    var free := FreeHosts(Temp, state);
    if state[10] == Free {
      assert 10 in free;
    } else if state[11] == Free {
      assert 11 in free;
    }
  }

  lemma TempAssociated(t: Tables, g: RegId, h: nat)
    requires GuestRole(g) == Temp
    requires (h == 10 && t.state[10] == Free) || (h == 11 && t.state[10] == Occupied && t.state[11] == Free)
    ensures Associate(t, g) == Tables(t.assoc[g := Assoc(true, false, h)], t.state[h := Occupied], t.spills)
  {
    FirstTemp(t.state);
  }

  /** A word that names one unassociated register associates it. */
  lemma OneRegisterWord(t: Tables, w: GuestWord, g: RegId)
    requires Supported(w) && Rd(w) == Rs(w) == Rt(w) == g
    ensures AfterWord(t, w) == if t.assoc[g].used then t else Associate(t, g)
  {
    SupportedIsAlu(Funct(w));
    var i := LiftedInstr(w);
    assert FillStart(i) == 1;
    if !t.assoc[g].used {
      assert FillFrom(t, i, 1) == FillFrom(Associate(t, g), i, 2);
    }
  }

  // ---------------------------------------------------------------- two guests on one host register

  lemma {:induction false} RepeatedWord(t: Tables, ws: seq<GuestWord>)
    requires forall k :: 0 <= k < |ws| ==> ws[k] == ADD_9
    ensures AfterWords(t, ws) == if ws == [] || t.assoc[9].used then t else Associate(t, 9)
    decreases |ws|
  {
    WordFields();
    if ws != [] {
      OneRegisterWord(t, ws[0], 9);
      RepeatedWord(AfterWord(t, ws[0]), ws[1..]);
    }
  }

  lemma {:induction false} CollidingTables(live: Liveness)
    requires Alive(live, 9, 0) && !Alive(live, 8, 0) && !Alive(live, 10, 0)
    ensures var v := AfterWord(Flush(Associate(FRESH, 9), live, 0), ADD_8);
      OnHost(v.assoc[9]) && OnHost(v.assoc[8]) && v.assoc[9].id == v.assoc[8].id == 10
  {
    WordFields();
    TempAssociated(FRESH, 9, 10);
    var u := Flush(Associate(FRESH, 9), live, 0);
    OneRegisterWord(u, ADD_8, 8);
    TempAssociated(u, 8, 10);
  }

  lemma FirstWords(words: seq<GuestWord>)
    requires |words| == BlockWords(Big) && forall k :: 0 <= k < 8 ==> words[k] == ADD_9
    ensures |FragmentWords(Big, words, 0)| == 8
    ensures forall k :: 0 <= k < 8 ==> FragmentWords(Big, words, 0)[k] == ADD_9
  {
  }

  lemma {:induction false} FirstFragment(words: seq<GuestWord>, live: Liveness)
    requires |words| == BlockWords(Big) && AllRType(words)
    requires forall k :: 0 <= k < 8 ==> words[k] == ADD_9
    ensures var o := Pass(Big, live, words, 8, Progress(FRESH, []));
      o.Running? && o.p.t == Flush(Associate(FRESH, 9), live, 0)
  {
    FragmentIsRun(Big, live, words, Progress(FRESH, []), 0);
    FirstWords(words);
    RepeatedWord(FRESH, FragmentWords(Big, words, 0));
  }

  /** Eight words naming register 9 give it host register 10. Leaving the fragment frees the state
  entry of the dead guest 10, and the next word gives host register 10 to guest 8 as well. */
  lemma {:induction false} FlushCollision(words: seq<GuestWord>, live: Liveness)
    requires |words| == BlockWords(Big) && AllRType(words)
    requires (forall k :: 0 <= k < 8 ==> words[k] == ADD_9) && words[8] == ADD_8
    requires IsScan(Big, words, |words|, NOTHING_LIVE, live)
    ensures var o := Pass(Big, live, words, 9, Progress(FRESH, []));
      && o.Running?
      && OnHost(o.p.t.assoc[9]) && OnHost(o.p.t.assoc[8]) && o.p.t.assoc[9].id == o.p.t.assoc[8].id == 10
      && !Injective(o.p.t.assoc)
  {
    FirstFragment(words, live);
    LiveInFirst(words, live);
    CollidingTables(live);
    WordEightStays();
    PlainStep(Big, live, words, 8, Progress(FRESH, []));
    var a := Pass(Big, live, words, 9, Progress(FRESH, [])).p.t.assoc;
    SharedHost(a, 8, 9);
  }

  lemma WordEightStays()
    ensures !Crosses(Big, 8)
  {
  }

  lemma SharedHost(a: Assocs, g: RegId, h: RegId)
    requires g != h && OnHost(a[g]) && OnHost(a[h]) && a[g].id == a[h].id
    ensures !Injective(a)
  {
  }

  lemma {:induction false} LiveInFirst(words: seq<GuestWord>, live: Liveness)
    requires |words| == BlockWords(Big)
    requires forall k :: 0 <= k < 8 ==> words[k] == ADD_9
    requires IsScan(Big, words, |words|, NOTHING_LIVE, live)
    ensures Alive(live, 9, 0) && forall g :: 0 <= g < 32 && g != 9 ==> !Alive(live, g, 0)
  {
    WordFields();
    NamedGuests(ADD_9, 9);
    FragmentOfWord(Big, 0, 0);
    assert FragOf(Big, 0) == 0 && Names(words[0], 9);
    assert UsedIn(Big, words, |words|, 9, 0);
    forall g | 0 <= g < 32 && g != 9 ensures !Alive(live, g, 0) {
      forall k | 0 <= k < |words| && FragOf(Big, k) == 0 ensures !Names(words[k], g) {
        NamedGuests(words[k], g);
      }
    }
  }

  // ---------------------------------------------------------------- a full IR buffer

  /** Registers 9 and 10 sit on different host registers, or nowhere with theirs still free. */
  predicate ReadyForTwo(t: Tables)
  {
    || (t.assoc[9] == Assoc(true, false, 10) && t.assoc[10] == Assoc(true, false, 11))
    || (!t.assoc[9].used && !t.assoc[10].used && t.state[10] == Free && t.state[11] == Free)
  }

  lemma {:induction false} TwoRegisterFill(t: Tables)
    requires ReadyForTwo(t)
    ensures var u := AfterWord(t, ADD_9_10);
      u.assoc[9] == Assoc(true, false, 10) && u.assoc[10] == Assoc(true, false, 11)
  {
    WordFields();
    SupportedIsAlu(Funct(ADD_9_10));
    var i := LiftedInstr(ADD_9_10);
    assert FillStart(i) == 0;
    if !t.assoc[9].used {
      var u := Associate(t, 9);
      TempAssociated(t, 9, 10);
      TempAssociated(u, 10, 11);
      FillTail(u, i, 1);
      assert FillFrom(t, i, 0) == FillFrom(u, i, 1);
    }
  }

  lemma {:induction false} TwoRegisterWord(t: Tables)
    requires ReadyForTwo(t)
    ensures var u := AfterWord(t, ADD_9_10);
      u.assoc[9] == Assoc(true, false, 10) && u.assoc[10] == Assoc(true, false, 11)
    ensures |CodeOf(t, ADD_9_10)| == 2
  {
    WordFields();
    SupportedIsAlu(Funct(ADD_9_10));
    TwoRegisterFill(t);
    var fixed := Fix(AfterWord(t, ADD_9_10).assoc, LiftedInstr(ADD_9_10));
    assert fixed.ops[0].id == 10 && fixed.ops[1].id == 11;
  }

  lemma ReadyAfterCross(t: Tables, live: Liveness, k: nat)
    requires t.assoc[9] == Assoc(true, false, 10) && t.assoc[10] == Assoc(true, false, 11)
    requires var b := FragOf(Big, k);
      || (Alive(live, 9, b) && Alive(live, 10, b))
      || (forall g :: 0 <= g < 32 ==> !Alive(live, g, b))
    ensures ReadyForTwo(Cross(Big, live, t, k))
  {
    var b := FragOf(Big, k);
    assert !(Alive(live, 9, b) && Alive(live, 10, b)) ==> !Alive(live, 9, b) && !Alive(live, 11, b);
  }

  lemma {:induction false} TwoEntriesEachWord(words: seq<GuestWord>, live: Liveness, n: nat)
    requires n <= |words| == BlockWords(Big) && AllRType(words)
    requires forall k :: 0 <= k < |words| ==> words[k] == ADD_9_10
    requires IsScan(Big, words, |words|, NOTHING_LIVE, live)
    ensures var o := Pass(Big, live, words, n, Progress(FRESH, []));
      o.Running? && |o.p.code| == 2 * n && ReadyForTwo(o.p.t)
  {
    if n > 0 {
      var k := n - 1;
      var start := Progress(FRESH, []);
      TwoEntriesEachWord(words, live, k);
      PassStep(Big, live, words, k, start);
      var t := Pass(Big, live, words, k, start).p.t;
      TwoRegisterWord(t);
      BothOrNone(words, live, k);
      ReadyAfterCross(AfterWord(t, words[k]), live, k);
    }
  }

  lemma {:induction false} BothOrNone(words: seq<GuestWord>, live: Liveness, k: nat)
    requires k < |words| == BlockWords(Big)
    requires forall k :: 0 <= k < |words| ==> words[k] == ADD_9_10
    requires IsScan(Big, words, |words|, NOTHING_LIVE, live)
    ensures var b := FragOf(Big, k);
      || (Alive(live, 9, b) && Alive(live, 10, b))
      || (forall g :: 0 <= g < 32 ==> !Alive(live, g, b))
  {
    WordFields();
    NamedGuests(ADD_9_10, 9);
    NamedGuests(ADD_9_10, 10);
    assert words[k] == ADD_9_10;
    assert UsedIn(Big, words, |words|, 9, FragOf(Big, k));
    assert UsedIn(Big, words, |words|, 10, FragOf(Big, k));
  }

  lemma AllKnown(words: seq<GuestWord>)
    requires forall k :: 0 <= k < |words| ==> words[k] == ADD_9_10
    ensures AllRType(words)
  {
    WordFields();
  }

  /** The bound of two entries a word is reached: 128 words fill all 256 entries. */
  lemma {:induction false} BufferBoundIsTight(words: seq<GuestWord>, live: Liveness)
    requires |words| == BlockWords(Big)
    requires forall k :: 0 <= k < |words| ==> words[k] == ADD_9_10
    requires IsScan(Big, words, |words|, NOTHING_LIVE, live)
    ensures var o := Pass(Big, live, words, |words|, Progress(FRESH, []));
      o.Running? && |o.p.code| == IR_CAPACITY
  {
    AllKnown(words);
    TwoEntriesEachWord(words, live, |words|);
  }
}
