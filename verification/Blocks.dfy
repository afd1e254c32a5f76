/** Values across fragments: which guests a whole block, flushes included, still computes correctly. */
module Blocks {
  import opened Bits
  import opened Ir
  import opened Mips
  import opened InstrFix
  import opened Passes
  import opened AllocInvariant
  import opened Simulation
  import opened Correctness
  import opened Flushing
  import opened Lower
  import opened Decode
  import opened Encoding
  import opened EndToEnd

  // ---------------------------------------------------------------- guests with a known value

  /** The known guests after word k: its destination joins them, and a crossing keeps the live ones. */
  function KnownNext(kind: BlockKind, live: Liveness, known: set<RegId>, w: GuestWord, k: nat): set<RegId>
  {
    if Crosses(kind, k) then set g: RegId | g in known + {Rd(w)} && Alive(live, g, FragOf(kind, k))
    else known + {Rd(w)}
  }

  /** The known guests after n words. */
  function Known(kind: BlockKind, live: Liveness, words: seq<GuestWord>, n: nat, known: set<RegId>): set<RegId>
    requires n <= |words|
  {
    if n == 0 then known
    else KnownNext(kind, live, Known(kind, live, words, n - 1, known), words[n - 1], n - 1)
  }

  /** Leaving one of the first eight fragments keeps the guests that its words name; leaving a later one
  keeps none. */
  lemma KnownFollowsScan(kind: BlockKind, live: Liveness, words: seq<GuestWord>, known: set<RegId>, k: nat, g: RegId)
    requires k < |words| && IsScan(kind, words, |words|, NOTHING_LIVE, live)
    ensures g in KnownNext(kind, live, known, words[k], k) <==>
      && (g in known || g == Rd(words[k]))
      && (Crosses(kind, k) ==> FragOf(kind, k) < 8 && UsedIn(kind, words, |words|, g, FragOf(kind, k)))
  {
    var b := FragOf(kind, k);
    assert Alive(live, g, b) <==> b < 8 && UsedIn(kind, words, |words|, g, b);
  }

  // ---------------------------------------------------------------- one word of a block

  /** The known guests are associated, and the code so far has left their values where their ids say. */
  ghost predicate HoldsKnown(o: Outcome, known: set<RegId>, host: RegFile, guest: GuestRegs)
  {
    o.Running? && known <= Associated(o.p.t.assoc) && AgreeOn(o.p.t.assoc, known, ExecAll(o.p.code, host), guest)
  }

  /** The word is known and right for the known guests. */
  ghost predicate RightAfter(o: Outcome, known: set<RegId>, w: GuestWord)
  {
    o.Running? && Supported(w) && Right(AfterWord(o.p.t, w).assoc, known, w)
  }

  lemma SameIds(a: Assocs, b: Assocs, known: set<RegId>, host: RegFile, guest: GuestRegs)
    requires known <= Associated(a) && Extends(a, b) && AgreeOn(a, known, host, guest)
    ensures AgreeOn(b, known, host, guest)
  {
    forall g | g in known ensures Low32(host[HostId(b, g)]) == guest[g] {
      assert g in Associated(a);
    }
  }

  lemma CrossedKnown(kind: BlockKind, live: Liveness, u: Tables, known: set<RegId>, w: GuestWord, k: nat,
                     host: RegFile, guest: GuestRegs)
    requires known + {Rd(w)} <= Associated(u.assoc) && AgreeOn(u.assoc, known + {Rd(w)}, host, guest)
    ensures var a, after := Cross(kind, live, u, k).assoc, KnownNext(kind, live, known, w, k);
      after <= Associated(a) && AgreeOn(a, after, host, guest)
  {
    var a, after := Cross(kind, live, u, k).assoc, KnownNext(kind, live, known, w, k);
    forall g | g in after ensures a[g] == u.assoc[g] && a[g].used {
      assert g in Associated(u.assoc);
    }
  }

  lemma StepHoldsKnown(kind: BlockKind, live: Liveness, o: Outcome, next: Outcome, w: GuestWord, k: nat,
                       known: set<RegId>, host: RegFile, guest: GuestRegs)
    requires HoldsKnown(o, known, host, guest) && RightAfter(o, known, w) && Stepped(kind, live, o, next, w, k)
    ensures HoldsKnown(next, KnownNext(kind, live, known, w, k), host, GuestStep(w, guest))
  {
    var t, now := o.p.t, ExecAll(o.p.code, host);
    var u := AfterWord(t, w);
    WordExtends(t, w);
    SameIds(t.assoc, u.assoc, known, now, guest);
    RightKeeps(t, w, known, now, guest);
    ExecAllAppend(o.p.code, CodeOf(t, w), host);
    forall g | g in known + {Rd(w)} ensures g in Associated(u.assoc) {
      assert g in known ==> g in Associated(t.assoc);
    }
    CrossedKnown(kind, live, u, known, w, k, ExecAll(CodeOf(t, w), now), GuestStep(w, guest));
  }

  // ---------------------------------------------------------------- a whole block

  lemma {:induction false} GuestRunAppend(ws: seq<GuestWord>, w: GuestWord, guest: GuestRegs)
    ensures GuestRun(ws + [w], guest) == GuestStep(w, GuestRun(ws, guest))
    decreases |ws|
  {
    if ws == [] {
      assert ([] + [w])[1..] == [];
    } else {
      assert (ws + [w])[1..] == ws[1..] + [w];
      GuestRunAppend(ws[1..], w, GuestStep(ws[0], guest));
    }
  }

  /** The known guests after each number of words up to n. */
  function Knowns(kind: BlockKind, live: Liveness, words: seq<GuestWord>, n: nat, known: set<RegId>):
    (ks: seq<set<RegId>>)
    requires n <= |words|
    ensures |ks| == n + 1 && forall k :: 0 <= k <= n ==> ks[k] == Known(kind, live, words, k, known)
  {
    seq(n + 1, k requires 0 <= k <= n => Known(kind, live, words, k, known))
  }

  lemma {:induction false} OutcomesHoldKnown(kind: BlockKind, live: Liveness, words: seq<GuestWord>, n: nat,
                                             os: seq<Outcome>, ks: seq<set<RegId>>, host: RegFile, guest: GuestRegs)
    requires n <= |words| && |os| > n && |ks| > n && HoldsKnown(os[0], ks[0], host, guest)
    requires forall k :: 0 <= k < n ==> Stepped(kind, live, os[k], os[k + 1], words[k], k)
    requires forall k :: 0 <= k < n ==> ks[k + 1] == KnownNext(kind, live, ks[k], words[k], k)
    requires forall k :: 0 <= k < n ==> RightAfter(os[k], ks[k], words[k])
    ensures HoldsKnown(os[n], ks[n], host, GuestRun(words[..n], guest))
  {
    if n == 0 {
      assert words[..0] == [];
    } else {
      var m := n - 1;
      OutcomesHoldKnown(kind, live, words, m, os, ks, host, guest);
      assert words[..n] == words[..m] + [words[m]];
      GuestRunAppend(words[..m], words[m], guest);
      StepHoldsKnown(kind, live, os[m], os[n], words[m], m, ks[m], host, GuestRun(words[..m], guest));
    }
  }

  /** Every word among the first n is right for the guests known before it. */
  ghost predicate AllRight(kind: BlockKind, live: Liveness, words: seq<GuestWord>, n: nat, t: Tables,
                           known: set<RegId>)
    requires n <= |words|
  {
    forall k :: 0 <= k < n ==>
      RightAfter(Pass(kind, live, words, k, Progress(t, [])), Known(kind, live, words, k, known), words[k])
  }

  /** From any tables, across any number of fragments and flushes: while every word is right for the
  guests known before it, the code of the pass keeps every known guest where its id says, for all
  register contents that agree on the guests known at the start. */
  lemma {:induction false} BlockHoldsKnown(kind: BlockKind, live: Liveness, words: seq<GuestWord>, n: nat, t: Tables,
                                           known: set<RegId>, host: RegFile, guest: GuestRegs)
    requires n <= |words| && AllRType(words) && 2 * |words| <= IR_CAPACITY
    requires known <= Associated(t.assoc) && AgreeOn(t.assoc, known, host, guest)
    requires AllRight(kind, live, words, n, t, known)
    ensures HoldsKnown(Pass(kind, live, words, n, Progress(t, [])), Known(kind, live, words, n, known), host,
                       GuestRun(words[..n], guest))
  {
    var start := Progress(t, []);
    var os, ks := Outcomes(kind, live, words, n, start), Knowns(kind, live, words, n, known);
    assert os[0] == Running(start);
    forall k | 0 <= k < n ensures Stepped(kind, live, os[k], os[k + 1], words[k], k) {
      OutcomesStep(kind, live, words, n, start, k);
    }
    OutcomesHoldKnown(kind, live, words, n, os, ks, host, guest);
  }

  // ---------------------------------------------------------------- clean blocks with safe crossings

  /** The known guests are on host registers. */
  predicate Housed(t: Tables, known: set<RegId>)
  {
    forall g :: g in known ==> OnHost(t.assoc[g])
  }

  /** A clean word that cancels or reads known guests only. */
  predicate CleanAfter(o: Outcome, known: set<RegId>, w: GuestWord)
  {
    o.Running? && Clean(o.p.t, w) && (Cancels(w) || SourcesIn(known, w))
  }

  lemma HousedAfterWord(t: Tables, w: GuestWord, known: set<RegId>)
    requires Housed(t, known) && Clean(t, w)
    ensures Housed(AfterWord(t, w), known + {Rd(w)})
  {
    WordExtends(t, w);
  }

  lemma CleanIsRight(o: Outcome, known: set<RegId>, w: GuestWord)
    requires CleanAfter(o, known, w) && Sound(o.p.t) && SlotsLeft(o.p.t) && Housed(o.p.t, known)
    ensures RightAfter(o, known, w)
  {
    var u := AfterWord(o.p.t, w);
    AfterWordKeeps(o.p.t, w);
    HousedAfterWord(o.p.t, w, known);
    forall g: RegId ensures !SharedWith(u.assoc, known, Rd(w), g) {
      if g in known {
        assert g in known + {Rd(w)};
        HostIdsDiffer(u.assoc, g, Rd(w));
      }
    }
  }

  lemma HousedAfterCrossing(kind: BlockKind, live: Liveness, u: Tables, known: set<RegId>, w: GuestWord, k: nat)
    requires Housed(u, known + {Rd(w)})
    ensures Housed(Cross(kind, live, u, k), KnownNext(kind, live, known, w, k))
  {
  }

  /** What one word of a clean block keeps: known guests on host registers and code in expanded form. */
  ghost predicate Orderly(o: Outcome, known: set<RegId>)
  {
    o.Running? && Housed(o.p.t, known) && forall i :: i in o.p.code ==> Expanded(i)
  }

  lemma StepOrderly(kind: BlockKind, live: Liveness, o: Outcome, next: Outcome, w: GuestWord, k: nat,
                    known: set<RegId>)
    requires Orderly(o, known) && CleanAfter(o, known, w) && Sound(o.p.t) && SlotsLeft(o.p.t)
    requires Stepped(kind, live, o, next, w, k)
    ensures Orderly(next, KnownNext(kind, live, known, w, k))
  {
    HousedAfterWord(o.p.t, w, known);
    HousedAfterCrossing(kind, live, AfterWord(o.p.t, w), known, w, k);
    CleanCodeIsExpanded(o.p.t, w);
  }

  /** Every word among the first n is clean, and cancels or reads known guests only. */
  ghost predicate AllCleanAfter(kind: BlockKind, live: Liveness, words: seq<GuestWord>, n: nat, t: Tables,
                                known: set<RegId>)
    requires n <= |words| && 2 * |words| <= IR_CAPACITY
  {
    forall k :: 0 <= k < n ==>
      CleanAfter(Pass(kind, live, words, k, Progress(t, [])), Known(kind, live, words, k, known), words[k])
  }

  /** Sound tables, slots to spare, safe crossings and clean words that read known guests. */
  ghost predicate CleanBlock(kind: BlockKind, live: Liveness, words: seq<GuestWord>, n: nat, t: Tables,
                             known: set<RegId>)
    requires n <= |words| && 2 * |words| <= IR_CAPACITY
  {
    && AllRType(words) && Sound(t) && t.spills + 3 * n + 32 <= 0xffff && Housed(t, known)
    && SafeCrossings(kind, live, words, n, Progress(t, []))
    && AllCleanAfter(kind, live, words, n, t, known)
  }

  lemma {:induction false} SoundBefore(kind: BlockKind, live: Liveness, words: seq<GuestWord>, n: nat, t: Tables,
                                       known: set<RegId>, k: nat)
    requires k <= n <= |words| && 2 * |words| <= IR_CAPACITY && CleanBlock(kind, live, words, n, t, known)
    ensures var o := Pass(kind, live, words, k, Progress(t, [])); o.Running? && Sound(o.p.t) && SlotsLeft(o.p.t)
  {
    PassStaysSound(kind, live, words, k, Progress(t, []));
    EnoughSlots(Pass(kind, live, words, k, Progress(t, [])).p.t);
  }

  lemma {:induction false} OutcomesOrderly(kind: BlockKind, live: Liveness, words: seq<GuestWord>, n: nat,
                                           os: seq<Outcome>, ks: seq<set<RegId>>)
    requires n <= |words| && |os| > n && |ks| > n && Orderly(os[0], ks[0])
    requires forall k :: 0 <= k < n ==> Stepped(kind, live, os[k], os[k + 1], words[k], k)
    requires forall k :: 0 <= k < n ==> ks[k + 1] == KnownNext(kind, live, ks[k], words[k], k)
    requires forall k :: 0 <= k < n ==>
      CleanAfter(os[k], ks[k], words[k]) && Sound(os[k].p.t) && SlotsLeft(os[k].p.t)
    ensures forall k :: 0 <= k <= n ==> Orderly(os[k], ks[k])
  {
    if n > 0 {
      OutcomesOrderly(kind, live, words, n - 1, os, ks);
      StepOrderly(kind, live, os[n - 1], os[n], words[n - 1], n - 1, ks[n - 1]);
    }
  }

  lemma {:induction false} BlockOrderly(kind: BlockKind, live: Liveness, words: seq<GuestWord>, n: nat, t: Tables,
                                        known: set<RegId>, k: nat)
    requires k <= n <= |words| && 2 * |words| <= IR_CAPACITY && CleanBlock(kind, live, words, n, t, known)
    ensures Orderly(Pass(kind, live, words, k, Progress(t, [])), Known(kind, live, words, k, known))
  {
    var start := Progress(t, []);
    var os, ks := Outcomes(kind, live, words, n, start), Knowns(kind, live, words, n, known);
    assert os[0] == Running(start);
    forall k | 0 <= k < n ensures Stepped(kind, live, os[k], os[k + 1], words[k], k) {
      OutcomesStep(kind, live, words, n, start, k);
    }
    forall k | 0 <= k < n
      ensures CleanAfter(os[k], ks[k], words[k]) && Sound(os[k].p.t) && SlotsLeft(os[k].p.t)
    {
      SoundBefore(kind, live, words, n, t, known, k);
    }
    OutcomesOrderly(kind, live, words, n, os, ks);
  }

  lemma {:induction false} CleanBlockIsRight(kind: BlockKind, live: Liveness, words: seq<GuestWord>, n: nat,
                                             t: Tables, known: set<RegId>)
    requires n <= |words| && 2 * |words| <= IR_CAPACITY && CleanBlock(kind, live, words, n, t, known)
    ensures AllRight(kind, live, words, n, t, known)
  {
    forall k | 0 <= k < n
      ensures RightAfter(Pass(kind, live, words, k, Progress(t, [])), Known(kind, live, words, k, known), words[k])
    {
      SoundBefore(kind, live, words, n, t, known, k);
      BlockOrderly(kind, live, words, n, t, known, k);
      CleanIsRight(Pass(kind, live, words, k, Progress(t, [])), Known(kind, live, words, k, known), words[k]);
    }
  }

  // ---------------------------------------------------------------- down to the bytes

  /** The known guests are in the sixteen registers of the machine. */
  ghost predicate MachineHolds(a: Assocs, known: set<RegId>, host: HostRegs, guest: GuestRegs)
  {
    AgreeOn(a, known, Widen(host), guest)
  }

  lemma HoldsOnLowRegisters(t: Tables, known: set<RegId>, r: RegFile, s: RegFile, guest: GuestRegs)
    requires Sound(t) && Housed(t, known) && AgreeOn(t.assoc, known, r, guest) && r[..16] == s[..16]
    ensures AgreeOn(t.assoc, known, s, guest)
  {
    forall g | g in known ensures Low32(s[HostId(t.assoc, g)]) == guest[g] {
      HostIdsDiffer(t.assoc, g, g);
      assert r[..16][HostId(t.assoc, g)] == s[..16][HostId(t.assoc, g)];
    }
  }

  lemma {:induction false} MachineBlock(kind: BlockKind, live: Liveness, words: seq<GuestWord>, n: nat, t: Tables,
                                        known: set<RegId>, host: HostRegs, guest: GuestRegs)
    requires n <= |words| && 2 * |words| <= IR_CAPACITY && CleanBlock(kind, live, words, n, t, known)
    requires MachineHolds(t.assoc, known, host, guest)
    ensures var o := Pass(kind, live, words, n, Progress(t, []));
      && o.Running? && (forall m :: m in MachinesOf(o.p.code) ==> InRange(m))
      && MachineHolds(o.p.t.assoc, Known(kind, live, words, n, known), MachineRun(MachinesOf(o.p.code), host),
                      GuestRun(words[..n], guest))
  {
    CleanBlockIsRight(kind, live, words, n, t, known);
    BlockHoldsKnown(kind, live, words, n, t, known, Widen(host), guest);
    BlockOrderly(kind, live, words, n, t, known, n);
    SoundBefore(kind, live, words, n, t, known, n);
    var o, after := Pass(kind, live, words, n, Progress(t, [])), Known(kind, live, words, n, known);
    MachineCodeMeaning(o.p.code, Widen(host));
    assert Widen(host)[..16] == host;
    var end := MachineRun(MachinesOf(o.p.code), host);
    assert Widen(end)[..16] == end;
    HoldsOnLowRegisters(o.p.t, after, ExecAll(o.p.code, Widen(host)), Widen(end), GuestRun(words[..n], guest));
  }

  /** The whole way, across fragments. The bytes of a clean block with safe crossings whose register pairs
  are equally extended decode as a whole, and running them keeps every known guest in its host register. */
  lemma {:induction false} BlockEndToEnd(kind: BlockKind, live: Liveness, words: seq<GuestWord>, n: nat, t: Tables,
                                         known: set<RegId>, host: HostRegs, guest: GuestRegs)
    requires n <= |words| && 2 * |words| <= IR_CAPACITY && CleanBlock(kind, live, words, n, t, known)
    requires MachineHolds(t.assoc, known, host, guest)
    ensures var o := Pass(kind, live, words, n, Progress(t, []));
      && o.Running? && (forall i :: i in o.p.code ==> RegisterForm(i))
      && ((forall i :: i in o.p.code ==> SameExtension(i)) ==>
           && DecodeAll(CodeBytes(o.p.code)).Some?
           && var code := DecodeAll(CodeBytes(o.p.code)).value;
              && (forall m :: m in code ==> InRange(m))
              && MachineHolds(o.p.t.assoc, Known(kind, live, words, n, known), MachineRun(code, host),
                              GuestRun(words[..n], guest)))
  {
    BlockOrderly(kind, live, words, n, t, known, n);
    MachineBlock(kind, live, words, n, t, known, host, guest);
    StreamRoundTrip(Pass(kind, live, words, n, Progress(t, [])).p.code);
  }
}
