/** What a flush at a fragment boundary keeps, when it keeps the allocation sound, and how the
liveness scan and the flush fit together. */
module Flushing {
  import opened Words
  import opened Mips
  import opened Cpu
  import opened Alloc
  import opened InstrFix
  import opened Passes
  import opened AllocInvariant
  import opened Fragments

  // ---------------------------------------------------------------- liveness and flush agree

  /** The scan counts the operands of R-type words with a non-zero function field. */
  lemma NamedGuests(w: GuestWord, g: nat)
    ensures Names(w, g) <==> TypeOf(w) == R && Funct(w) != 0 && (g == Rd(w) || g == Rs(w) || g == Rt(w))
  {
    var (ops, count) := RegFetch(w);
    if TypeOf(w) == R && Funct(w) != 0 {
      assert ops[0].id == Rd(w) && ops[1].id == Rs(w) && ops[2].id == Rt(w);
    }
  }

  const NOTHING_LIVE: Liveness := seq<ByteMap>(256, _ => NO_FRAGMENTS)

  /** Leaving one of the first eight fragments keeps exactly the associations of the guests that
  the words of that fragment name; leaving any later fragment keeps none. */
  lemma FlushFollowsScan(kind: BlockKind, words: seq<GuestWord>, live: Liveness, t: Tables, b: nat, g: RegId)
    requires IsScan(kind, words, |words|, NOTHING_LIVE, live)
    ensures Flush(t, live, b).assoc[g]
         == if b < 8 && UsedIn(kind, words, |words|, g, b) then t.assoc[g] else NO_ASSOC
  {
    assert Alive(live, g, b) <==> b < 8 && UsedIn(kind, words, |words|, g, b);
  }

  // ---------------------------------------------------------------- soundness across a flush

  /** Each surviving guest sits on a host register whose number is also that of a live guest. */
  ghost predicate FlushSafe(t: Tables, live: Liveness, b: nat)
  {
    forall g: RegId :: OnHost(t.assoc[g]) && Alive(live, g, b) ==>
      t.assoc[g].id < 32 && Alive(live, t.assoc[g].id, b)
  }

  lemma AssociatedHost(t: Tables, g: RegId)
    requires Sound(t) && OnHost(t.assoc[g])
    ensures t.assoc[g].id < 16 && t.state[t.assoc[g].id] == Occupied
  {
    HostMasksAreDisjoint(GuestRole(g), GuestRole(g), t.assoc[g].id);
  }

  lemma FlushKeepsShape(t: Tables, live: Liveness, b: nat)
    requires Sound(t)
    ensures var u := Flush(t, live, b);
      Injective(u.assoc) && RolesKept(u.assoc) && SlotsDistinct(u)
  {
    var u := Flush(t, live, b);
    assert forall g :: 0 <= g < 256 ==> u.assoc[g] == t.assoc[g] || u.assoc[g] == NO_ASSOC;
  }

  /** A flush frees the state entry of each dead guest's own number, so it keeps the surviving
  associations on occupied registers exactly when it is safe in this sense. */
  lemma FlushSoundExactly(t: Tables, live: Liveness, b: nat)
    requires Sound(t)
    ensures Sound(Flush(t, live, b)) <==> FlushSafe(t, live, b)
  {
    var u := Flush(t, live, b);
    FlushKeepsShape(t, live, b);
    if FlushSafe(t, live, b) {
      forall g: RegId | OnHost(u.assoc[g]) ensures u.assoc[g].id < 256 && u.state[u.assoc[g].id] == Occupied {
        AssociatedHost(t, g);
        assert Alive(live, g, b);
      }
    }
    if Held(u) {
      forall g: RegId | OnHost(t.assoc[g]) && Alive(live, g, b)
        ensures t.assoc[g].id < 32 && Alive(live, t.assoc[g].id, b)
      {
        AssociatedHost(t, g);
        assert u.assoc[g] == t.assoc[g];
      }
    }
  }

  /** Occupied and associated registers still coincide after a flush exactly when every
  associated guest and the guest with the number of its host register live or die together. */
  lemma FlushExactExactly(t: Tables, live: Liveness, b: nat)
    requires Exact(t)
    ensures Exact(Flush(t, live, b)) <==>
      forall g: RegId :: OnHost(t.assoc[g]) ==>
        t.assoc[g].id < 32 && (Alive(live, g, b) <==> Alive(live, t.assoc[g].id, b))
  {
    var u := Flush(t, live, b);
    FlushSoundExactly(t, live, b);
    if Exact(u) {
      forall g: RegId | OnHost(t.assoc[g])
        ensures t.assoc[g].id < 32 && (Alive(live, g, b) <==> Alive(live, t.assoc[g].id, b))
      {
        AssociatedHost(t, g);
        var h := t.assoc[g].id;
        if Alive(live, h, b) {
          assert u.state[h] == Occupied;
          var g': RegId :| HolderOf(u.assoc, g', h);
          assert HolderOf(t.assoc, g', h);
        }
      }
    } else if forall g: RegId :: OnHost(t.assoc[g]) ==>
        t.assoc[g].id < 32 && (Alive(live, g, b) <==> Alive(live, t.assoc[g].id, b)) {
      assert FlushSafe(t, live, b);
      forall h | 0 <= h < 256 && u.state[h] == Occupied ensures HeldBySome(u.assoc, h) {
        var g: RegId :| HolderOf(t.assoc, g, h);
        AssociatedHost(t, g);
        assert HolderOf(u.assoc, g, h);
      }
    }
  }

  // ---------------------------------------------------------------- whole multi-fragment runs

  /** If the flush behind word w is due, it is safe. */
  ghost predicate CrossesSafely(kind: BlockKind, live: Liveness, o: Outcome, w: GuestWord, k: nat)
  {
    o.Running? && Crosses(kind, k) ==> FlushSafe(AfterWord(o.p.t, w), live, FragOf(kind, k))
  }

  /** Every crossing among the first n words is safe. */
  ghost predicate SafeCrossings(kind: BlockKind, live: Liveness, words: seq<GuestWord>, n: nat, start: Progress)
    requires n <= |words| && |start.code| <= IR_CAPACITY
  {
    forall k :: 0 <= k < n ==> CrossesSafely(kind, live, Pass(kind, live, words, k, start), words[k], k)
  }

  /** From one outcome to the next the pass translates word w. */
  predicate Stepped(kind: BlockKind, live: Liveness, o: Outcome, next: Outcome, w: GuestWord, k: nat)
  {
    o.Running? && next.Running? && next.p == Crossed(kind, live, AppendWord(o.p, w), k)
  }

  /** The pass is running with sound tables and has used up at most m slots. */
  ghost predicate SoundOutcome(o: Outcome, m: nat)
  {
    o.Running? && Sound(o.p.t) && o.p.t.spills <= m
  }

  lemma OutcomeStaysSound(kind: BlockKind, live: Liveness, o: Outcome, next: Outcome, w: GuestWord, k: nat, m: nat)
    requires SoundOutcome(o, m) && m <= 0xffff - 32
    requires Stepped(kind, live, o, next, w, k) && CrossesSafely(kind, live, o, w, k)
    ensures SoundOutcome(next, m + 3)
  {
    EnoughSlots(o.p.t);
    AfterWordKeeps(o.p.t, w);
    if Crosses(kind, k) {
      FlushSoundExactly(AfterWord(o.p.t, w), live, FragOf(kind, k));
    }
  }

  lemma OutcomesStep(kind: BlockKind, live: Liveness, words: seq<GuestWord>, n: nat, start: Progress, k: nat)
    requires k < n <= |words| && AllRType(words) && |start.code| + 2 * |words| <= IR_CAPACITY
    ensures var os := Outcomes(kind, live, words, n, start); Stepped(kind, live, os[k], os[k + 1], words[k], k)
  {
    PassStep(kind, live, words, k, start);
  }

  lemma {:induction false} OutcomesStaySound(kind: BlockKind, live: Liveness, words: seq<GuestWord>, os: seq<Outcome>,
                                             n: nat, m: nat)
    requires n <= |words| && |os| > n && SoundOutcome(os[0], m) && m + 3 * n + 32 <= 0xffff
    requires forall k :: 0 <= k < n ==> Stepped(kind, live, os[k], os[k + 1], words[k], k)
    requires forall k :: 0 <= k < n ==> CrossesSafely(kind, live, os[k], words[k], k)
    ensures SoundOutcome(os[n], m + 3 * n)
  {
    if n > 0 {
      OutcomesStaySound(kind, live, words, os, n - 1, m);
      OutcomeStaysSound(kind, live, os[n - 1], os[n], words[n - 1], n - 1, m + 3 * (n - 1));
    }
  }

  /** While every crossing is safe, the tables stay sound over the whole block: no two guests
  share a host register, roles and spill slots included. */
  lemma {:induction false} PassStaysSound(kind: BlockKind, live: Liveness, words: seq<GuestWord>, n: nat,
                                          start: Progress)
    requires n <= |words| && AllRType(words) && |start.code| + 2 * |words| <= IR_CAPACITY
    requires Sound(start.t) && start.t.spills + 3 * n + 32 <= 0xffff
    requires SafeCrossings(kind, live, words, n, start)
    ensures SoundOutcome(Pass(kind, live, words, n, start), start.t.spills + 3 * n)
  {
    var os := Outcomes(kind, live, words, n, start);
    assert os[0] == Running(start);
    forall k | 0 <= k < n ensures Stepped(kind, live, os[k], os[k + 1], words[k], k) {
      OutcomesStep(kind, live, words, n, start, k);
    }
    OutcomesStaySound(kind, live, words, os, n, start.t.spills);
  }
}
