/** A block that loses a value between two fragments, although every flush is safe. */
module ValueLoss {
  import opened Bits
  import opened Ir
  import opened Mips
  import opened Alloc
  import opened InstrFix
  import opened Passes
  import opened Correctness
  import opened Fragments
  import opened Flushing
  import opened Witnesses
  import opened WordWitnesses
  import opened Blocks

  /** sub $10, $10, $10 */
  const SUB_10: GuestWord := 0x014a_5022

  /** add $3, $0, $0 */
  const ADD_3_0: GuestWord := 0x0000_1820

  /** add $11, $10, $10 */
  const ADD_11_10: GuestWord := 0x014a_5820

  /** One fragment clears guest 10, the next does not name it, and the word behind them reads it. */
  predicate Losing(words: seq<GuestWord>)
  {
    && |words| == BlockWords(Big) && AllRType(words)
    && (forall k :: 0 <= k < 8 ==> words[k] == SUB_10)
    && (forall k :: 8 <= k < 16 ==> words[k] == ADD_3_0)
    && words[16] == ADD_11_10
  }

  lemma LosingFields()
    ensures Supported(SUB_10) && Cancels(SUB_10) && Rd(SUB_10) == Rs(SUB_10) == Rt(SUB_10) == 10
    ensures IsAdd(ADD_3_0, 3, 0) && IsAdd(ADD_11_10, 11, 10)
  {
  }

  // ---------------------------------------------------------------- a fragment of one repeated word

  /** The word is repeated: the first one associates what there is to associate, and all write to one register. */
  lemma {:induction false} RepeatedWrites(t: Tables, ws: seq<GuestWord>, w: GuestWord, host: RegFile, r: U8)
    requires Supported(w) && AfterWord(AfterWord(t, w), w) == AfterWord(t, w)
    requires (forall k :: 0 <= k < |ws| ==> ws[k] == w) && r != HostId(AfterWord(t, w).assoc, Rd(w))
    ensures AfterWords(t, ws) == if ws == [] then t else AfterWord(t, w)
    ensures ExecAll(CodeOfWords(t, ws), host)[r] == host[r]
    decreases |ws|
  {
    if ws != [] {
      var u := AfterWord(t, w);
      AnyCodeEffect(t, w, host);
      ExecAllAppend(CodeOf(t, w), CodeOfWords(u, ws[1..]), host);
      RepeatedWrites(u, ws[1..], w, ExecAll(CodeOf(t, w), host), r);
    }
  }

  lemma FragmentOf(words: seq<GuestWord>, b: nat, w: GuestWord)
    requires |words| == BlockWords(Big) && b < 2 && forall k :: 8 * b <= k < 8 * b + 8 ==> words[k] == w
    ensures var ws := FragmentWords(Big, words, b); |ws| == 8 && forall k :: 0 <= k < 8 ==> ws[k] == w
  {
  }

  lemma {:induction false} LiveInFragment(words: seq<GuestWord>, live: Liveness, b: nat, w: GuestWord)
    requires |words| == BlockWords(Big) && b < 2 && forall k :: 8 * b <= k < 8 * b + 8 ==> words[k] == w
    requires Supported(w) && IsScan(Big, words, |words|, NOTHING_LIVE, live)
    ensures forall g: RegId :: Alive(live, g, b) <==> g == Rd(w) || g == Rs(w) || g == Rt(w)
  {
    FragmentOfWord(Big, b, 0);
    forall g: RegId ensures Alive(live, g, b) <==> g == Rd(w) || g == Rs(w) || g == Rt(w) {
      NamedGuests(w, g);
      assert FragOf(Big, 8 * b) == b && words[8 * b] == w;
      forall k | 0 <= k < |words| && FragOf(Big, k) == b ensures words[k] == w {
      }
      assert Alive(live, g, b) <==> UsedIn(Big, words, |words|, g, b);
    }
  }

  // ---------------------------------------------------------------- the tables on the way

  /** Guest 10 on host register 10, nothing else. */
  predicate OnlyTen(t: Tables)
  {
    && t.assoc[10] == Assoc(true, false, 10) && (forall g: RegId :: g != 10 ==> !t.assoc[g].used)
    && forall h :: 0 <= h < 16 ==> t.state[h] == if h == 10 then Occupied else Free
  }

  lemma ClearedTables(t: Tables)
    requires t == FRESH
    ensures OnlyTen(AfterWord(t, SUB_10)) && AfterWord(AfterWord(t, SUB_10), SUB_10) == AfterWord(t, SUB_10)
  {
    LosingFields();
    OneRegisterWord(t, SUB_10, 10);
    OnLowest(t, 10, 10);
    OneRegisterWord(AfterWord(t, SUB_10), SUB_10, 10);
  }

  lemma FirstFlush(u: Tables, live: Liveness)
    requires OnlyTen(u) && forall g: RegId :: Alive(live, g, 0) <==> g == 10
    ensures OnlyTen(Flush(u, live, 0)) && FlushSafe(u, live, 0)
  {
  }

  /** Guests 0 and 3 on host registers 3 and 0, and guest 10 as before. */
  predicate ThreeInPlace(u: Tables)
  {
    && u.assoc[3] == Assoc(true, false, 0) && u.assoc[0] == Assoc(true, false, 3)
    && u.assoc[10] == Assoc(true, false, 10) && forall g: RegId :: u.assoc[g].used ==> g == 0 || g == 3 || g == 10
  }

  lemma OtherTables(t: Tables)
    requires OnlyTen(t)
    ensures ThreeInPlace(AfterWord(t, ADD_3_0)) && AfterWord(AfterWord(t, ADD_3_0), ADD_3_0) == AfterWord(t, ADD_3_0)
  {
    LosingFields();
    AddTables(t, ADD_3_0, 3, 0);
    OnLowest(t, 3, 0);
    OnLowest(Associate(t, 3), 0, 3);
    AddTables(AfterWord(t, ADD_3_0), ADD_3_0, 3, 0);
  }

  lemma SecondFlush(u: Tables, live: Liveness)
    requires ThreeInPlace(u) && forall g: RegId :: Alive(live, g, 1) <==> g == 0 || g == 3
    ensures FlushSafe(u, live, 1)
    ensures var t := Flush(u, live, 1);
      !t.assoc[10].used && !t.assoc[11].used && t.state[10] == Free && t.state[11] == Free
  {
    assert !Alive(live, 10, 1) && !Alive(live, 11, 1);
  }

  lemma LastTables(t: Tables)
    requires !t.assoc[10].used && !t.assoc[11].used && t.state[10] == Free && t.state[11] == Free
    ensures var a := AfterWord(t, ADD_11_10).assoc;
      a[11] == Assoc(true, false, 10) && a[10] == Assoc(true, false, 11)
  {
    LosingFields();
    AddTables(t, ADD_11_10, 11, 10);
    OnLowest(t, 11, 10);
    OnLowest(Associate(t, 11), 10, 11);
  }

  // ---------------------------------------------------------------- the code on the way

  /** The flush that ends fragment b, entered with outcome o, is safe. */
  ghost predicate SafeFlush(words: seq<GuestWord>, live: Liveness, o: Outcome, b: nat)
    requires |words| == BlockWords(Big) && b < 2
  {
    o.Running? && FlushSafe(AfterWords(o.p.t, FragmentWords(Big, words, b)), live, b)
  }

  /** From one outcome to the next the pass translates one fragment, leaving register r alone. */
  ghost predicate FragmentDone(o: Outcome, next: Outcome, u: Tables, live: Liveness, b: nat, r: U8, host: RegFile)
  {
    && o.Running? && next.Running? && next.p.t == Flush(u, live, b)
    && ExecAll(next.p.code, host)[r] == ExecAll(o.p.code, host)[r]
  }

  lemma EightWords(b: nat, n: nat)
    requires b < 2 && n == 8 * b + 8
    ensures b * FragWords(Big) == n - 8 && (b + 1) * FragWords(Big) == n
  {
  }

  lemma {:induction false} FragmentOutcome(words: seq<GuestWord>, live: Liveness, start: Progress, b: nat,
                                           os: seq<Outcome>, n: nat)
    requires |words| == BlockWords(Big) && AllRType(words) && start.code == [] && b < 2 && n == 8 * b + 8
    requires os == Outcomes(Big, live, words, 17, start)
    ensures os[n - 8].Running? && os[n].Running?
    ensures var run := AppendRun(os[n - 8].p, FragmentWords(Big, words, b));
      os[n].p == Progress(Flush(run.t, live, b), run.code)
  {
    EightWords(b, n);
    FragmentIsRun(Big, live, words, start, b);
    assert os[n - 8] == Pass(Big, live, words, b * FragWords(Big), start);
    assert os[n] == Pass(Big, live, words, (b + 1) * FragWords(Big), start);
  }

  lemma FragmentRuns(words: seq<GuestWord>, live: Liveness, b: nat, w: GuestWord, r: U8, host: RegFile, o: Outcome,
                     next: Outcome)
    requires |words| == BlockWords(Big) && b < 2 && forall k :: 8 * b <= k < 8 * b + 8 ==> words[k] == w
    requires o.Running? && next.Running? && Supported(w)
    requires var run := AppendRun(o.p, FragmentWords(Big, words, b));
      next.p == Progress(Flush(run.t, live, b), run.code)
    requires var u := AfterWord(o.p.t, w); AfterWord(u, w) == u && HostId(u.assoc, Rd(w)) != r
    ensures AfterWords(o.p.t, FragmentWords(Big, words, b)) == AfterWord(o.p.t, w)
    ensures FragmentDone(o, next, AfterWord(o.p.t, w), live, b, r, host)
  {
    FragmentOf(words, b, w);
    var ws := FragmentWords(Big, words, b);
    RepeatedWrites(o.p.t, ws, w, ExecAll(o.p.code, host), r);
    ExecAllAppend(o.p.code, CodeOfWords(o.p.t, ws), host);
  }

  /** The outcomes of the pass over the first words of such a block. */
  ghost predicate PassOver(words: seq<GuestWord>, live: Liveness, start: Progress, os: seq<Outcome>)
  {
    Losing(words) && start.code == [] && os == Outcomes(Big, live, words, 17, start)
  }

  lemma {:induction false} AfterFirst(words: seq<GuestWord>, live: Liveness, start: Progress, os: seq<Outcome>,
                                      host: RegFile)
    requires PassOver(words, live, start, os) && IsScan(Big, words, |words|, NOTHING_LIVE, live)
    requires start.t == FRESH
    ensures os[8].Running? && OnlyTen(os[8].p.t) && ExecAll(os[8].p.code, host)[11] == host[11]
    ensures SafeFlush(words, live, os[0], 0)
  {
    LosingFields();
    LiveInFragment(words, live, 0, SUB_10);
    ClearedTables(start.t);
    FragmentOutcome(words, live, start, 0, os, 8);
    assert os[0] == Running(start);
    FragmentRuns(words, live, 0, SUB_10, 11, host, os[0], os[8]);
    FirstFlush(AfterWord(start.t, SUB_10), live);
  }

  /** What the first sixteen words leave: no trace of guest 10, and host register 11 as it was. */
  predicate Lost(o: Outcome, host: RegFile)
  {
    && o.Running? && !o.p.t.assoc[10].used && !o.p.t.assoc[11].used
    && o.p.t.state[10] == Free && o.p.t.state[11] == Free
    && ExecAll(o.p.code, host)[11] == host[11]
  }

  lemma {:induction false} AfterSecond(words: seq<GuestWord>, live: Liveness, start: Progress, os: seq<Outcome>,
                                       host: RegFile)
    requires PassOver(words, live, start, os) && IsScan(Big, words, |words|, NOTHING_LIVE, live)
    requires os[8].Running? && OnlyTen(os[8].p.t) && ExecAll(os[8].p.code, host)[11] == host[11]
    ensures Lost(os[16], host) && SafeFlush(words, live, os[8], 1)
  {
    LosingFields();
    LiveInFragment(words, live, 1, ADD_3_0);
    OtherTables(os[8].p.t);
    FragmentOutcome(words, live, start, 1, os, 16);
    FragmentRuns(words, live, 1, ADD_3_0, 11, host, os[8], os[16]);
    SecondFlush(AfterWord(os[8].p.t, ADD_3_0), live);
  }

  // ---------------------------------------------------------------- the guest on the way

  lemma {:induction false} StaysZero(words: seq<GuestWord>, n: nat, guest: GuestRegs)
    requires Losing(words) && 1 <= n <= 16
    ensures GuestRun(words[..n], guest)[10] == 0
    decreases n
  {
    LosingFields();
    var m := n - 1;
    assert words[..n] == words[..m] + [words[m]];
    GuestRunAppend(words[..m], words[m], guest);
    if m > 0 {
      StaysZero(words, m, guest);
    }
  }

  lemma DoublesZero(words: seq<GuestWord>, guest: GuestRegs)
    requires Losing(words)
    ensures GuestRun(words[..17], guest)[11] == 0
  {
    LosingFields();
    StaysZero(words, 16, guest);
    assert words[..17] == words[..16] + [words[16]];
    GuestRunAppend(words[..16], words[16], guest);
  }

  // ---------------------------------------------------------------- the loss

  lemma SixteenStays()
    ensures !Crosses(Big, 16)
  {
    FragmentOfWord(Big, 2, 0);
  }

  lemma {:induction false} LastOutcome(words: seq<GuestWord>, live: Liveness, start: Progress, os: seq<Outcome>,
                                       n: nat)
    requires PassOver(words, live, start, os) && n == 16
    ensures os[n].Running? && os[n + 1] == Running(AppendWord(os[n].p, words[n]))
  {
    SixteenStays();
    PlainStep(Big, live, words, n, start);
  }

  /** Guest 11 on host register 10 and guest 10 on host register 11, which has been doubled into the other. */
  predicate Doubled(o: Outcome, host: RegFile)
  {
    && o.Running? && o.p.t.assoc[11] == Assoc(true, false, 10) && o.p.t.assoc[10] == Assoc(true, false, 11)
    && ExecAll(o.p.code, host)[10] == Alu64(GROUP_ADD, host[11], host[11])
  }

  lemma AfterLast(p: Progress, host: RegFile)
    requires Lost(Running(p), host)
    ensures Doubled(Running(AppendWord(p, ADD_11_10)), host)
  {
    LosingFields();
    LastTables(p.t);
    AddWrites(p.t, ADD_11_10, 11, 10, ExecAll(p.code, host));
    ExecAllAppend(p.code, CodeOf(p.t, ADD_11_10), host);
  }

  /** The flushes behind both fragments are safe. The guest ends with zero in register 11, being twice the
  zero that it put into register 10. The code doubles host register 11 instead, where nothing was put:
  guest 10 was on host register 10 before, and after its association was dropped it got another. */
  lemma {:induction false} LosesValue(words: seq<GuestWord>, live: Liveness, start: Progress, os: seq<Outcome>,
                                      host: RegFile, guest: GuestRegs)
    requires PassOver(words, live, start, os) && IsScan(Big, words, |words|, NOTHING_LIVE, live)
    requires start.t == FRESH
    ensures SafeFlush(words, live, os[0], 0) && SafeFlush(words, live, os[8], 1)
    ensures GuestRun(words[..17], guest)[11] == 0
    ensures Doubled(os[17], host)
  {
    DoublesZero(words, guest);
    AfterFirst(words, live, start, os, host);
    AfterSecond(words, live, start, os, host);
    LastOutcome(words, live, start, os, 16);
    AfterLast(os[16].p, host);
  }
}
