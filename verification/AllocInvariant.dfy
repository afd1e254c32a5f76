/** The invariant of the allocation tables, and when an allocation spills. */
module AllocInvariant {
  import opened Words
  import opened Ir
  import opened Mips
  import opened Cpu
  import opened Alloc
  import opened InstrFix
  import opened Passes

  predicate OnHost(a: Assoc)
  {
    a.used && !a.spilled
  }

  predicate OnSlot(a: Assoc)
  {
    a.used && a.spilled
  }

  /** No two guests share a host register. */
  ghost predicate Injective(a: Assocs)
  {
    forall g, h :: 0 <= g < 256 && 0 <= h < 256 && g != h && OnHost(a[g]) && OnHost(a[h]) ==> a[g].id != a[h].id
  }

  /** Only the 32 guest registers are associated, each with a host register of its role. */
  ghost predicate RolesKept(a: Assocs)
  {
    && (forall g :: 32 <= g < 256 ==> !a[g].used)
    && (forall g: RegId :: OnHost(a[g]) ==> a[g].id in HostMask(GuestRole(g)))
  }

  /** Associated host registers are marked occupied. */
  ghost predicate Held(t: Tables)
  {
    forall g: RegId :: OnHost(t.assoc[g]) ==> t.assoc[g].id < 256 && t.state[t.assoc[g].id] == Occupied
  }

  predicate HolderOf(a: Assocs, g: RegId, h: nat)
  {
    OnHost(a[g]) && a[g].id == h
  }

  ghost predicate HeldBySome(a: Assocs, h: nat)
  {
    exists g: RegId :: HolderOf(a, g, h)
  }

  /** Occupied host registers are associated. */
  ghost predicate NoLeak(t: Tables)
  {
    forall h :: 0 <= h < 256 && t.state[h] == Occupied ==> HeldBySome(t.assoc, h)
  }

  ghost predicate SlotsDistinct(t: Tables)
  {
    && (forall g :: 0 <= g < 256 && OnSlot(t.assoc[g]) ==> t.assoc[g].id < t.spills)
    && (forall g, h :: 0 <= g < 256 && 0 <= h < 256 && g != h && OnSlot(t.assoc[g]) && OnSlot(t.assoc[h])
          ==> t.assoc[g].id != t.assoc[h].id)
  }

  /** What translation needs of the tables at every moment. */
  ghost predicate Sound(t: Tables)
  {
    Injective(t.assoc) && RolesKept(t.assoc) && Held(t) && SlotsDistinct(t)
  }

  /** What holds between flushes: occupied exactly when associated. */
  ghost predicate Exact(t: Tables)
  {
    Sound(t) && NoLeak(t)
  }

  /** Associations are never changed, only added. */
  ghost predicate Extends(old_: Assocs, new_: Assocs)
  {
    forall g :: 0 <= g < 256 && old_[g].used ==> new_[g] == old_[g]
  }

  ghost function Unassociated(a: Assocs): set<RegId>
  {
    set g: RegId | !a[g].used
  }

  /** The 16-bit slot numbers last for every register that may still be spilled. */
  ghost predicate SlotsLeft(t: Tables)
  {
    t.spills + |Unassociated(t.assoc)| <= 0xffff
  }

  lemma {:induction false} GuestsBelow(guests: set<RegId>, n: nat)
    requires forall g :: g in guests ==> g < n
    ensures |guests| <= n
    decreases n
  {
    if n == 0 {
      assert guests == {};
    } else if n - 1 < 32 {
      var last: RegId := n - 1;
      GuestsBelow(guests - {last}, n - 1);
      assert guests <= (guests - {last}) + {last};
    } else {
      GuestsBelow(guests, n - 1);
    }
  }

  /** All but the last 32 slot numbers can have been used up. */
  lemma EnoughSlots(t: Tables)
    requires t.spills <= 0xffff - 32
    ensures SlotsLeft(t)
  {
    GuestsBelow(Unassociated(t.assoc), 32);
  }

  lemma FreshIsExact()
    ensures Exact(FRESH) && SlotsLeft(FRESH)
  {
    EnoughSlots(FRESH);
  }

  // ---------------------------------------------------------------- every step keeps it

  lemma AllocGivesFree(role: Role, state: States)
    ensures var r := AllocResult(role, state);
      r != SPILL ==> r in HostMask(role) && r < 16 && state[r] == Free
  {
    var free := FreeHosts(role, state);
    if free != {} {
      assert CountTrailingZeros(free) in free;
    }
  }

  lemma SlotForOne(t: Tables, g: RegId)
    requires !t.assoc[g].used && SlotsLeft(t)
    ensures t.spills < 0xffff && SlotsLeft(Associate(t, g))
  {
    assert g in Unassociated(t.assoc);
    assert Unassociated(Associate(t, g).assoc) == Unassociated(t.assoc) - {g};
  }

  lemma AssociateSound(t: Tables, g: RegId)
    requires Sound(t) && !t.assoc[g].used && t.spills < 0xffff
    ensures var u := Associate(t, g);
      && Sound(u) && Extends(t.assoc, u.assoc) && u.assoc[g].used
      && t.spills <= u.spills <= t.spills + 1
  {
    AllocGivesFree(GuestRole(g), t.state);
  }

  lemma AssociateLeaksNothing(t: Tables, g: RegId)
    requires NoLeak(t) && !t.assoc[g].used
    ensures NoLeak(Associate(t, g))
  {
    AllocGivesFree(GuestRole(g), t.state);
    var u := Associate(t, g);
    forall h | 0 <= h < 256 && u.state[h] == Occupied ensures HeldBySome(u.assoc, h) {
      if t.state[h] == Occupied {
        var g': RegId :| HolderOf(t.assoc, g', h);
        assert HolderOf(u.assoc, g', h);
      } else {
        assert HolderOf(u.assoc, g, h);
      }
    }
  }

  lemma AssociateKeeps(t: Tables, g: RegId)
    requires Sound(t) && !t.assoc[g].used && SlotsLeft(t)
    ensures var u := Associate(t, g);
      && Sound(u) && Extends(t.assoc, u.assoc) && u.assoc[g].used && SlotsLeft(u)
      && t.spills <= u.spills <= t.spills + 1
      && (NoLeak(t) ==> NoLeak(u))
  {
    SlotForOne(t, g);
    AssociateSound(t, g);
    if NoLeak(t) {
      AssociateLeaksNothing(t, g);
    }
  }

  lemma {:induction false} FillFromKeeps(t: Tables, i: Instr, k: nat)
    requires GuestOperands(i) && k <= i.count
    requires Sound(t) && SlotsLeft(t)
    ensures var u := FillFrom(t, i, k);
      && Sound(u) && SlotsLeft(u) && Extends(t.assoc, u.assoc) && t.spills <= u.spills <= t.spills + (i.count - k)
      && (NoLeak(t) ==> NoLeak(u))
    decreases i.count - k
  {
    if k < i.count && !t.assoc[i.ops[k].id].used {
      AssociateKeeps(t, i.ops[k].id);
      FillFromKeeps(Associate(t, i.ops[k].id), i, k + 1);
    }
  }

  lemma AfterWordKeeps(t: Tables, w: GuestWord)
    requires Sound(t) && SlotsLeft(t)
    ensures var u := AfterWord(t, w);
      && Sound(u) && SlotsLeft(u) && Extends(t.assoc, u.assoc) && t.spills <= u.spills <= t.spills + 3
      && (NoLeak(t) ==> NoLeak(u))
  {
    if IrOpcode(Funct(w)) != INVALID_OPCODE {
      var i := LiftedInstr(w);
      FillFromKeeps(t, i, FillStart(i));
    }
  }

  /** Over every flush-free run the tables stay exact, roles and slots included, and associations
  only grow. */
  lemma {:induction false} RunKeeps(t: Tables, ws: seq<GuestWord>)
    requires Sound(t) && SlotsLeft(t)
    ensures var u := AfterWords(t, ws);
      && Sound(u) && SlotsLeft(u) && Extends(t.assoc, u.assoc)
      && (Exact(t) ==> Exact(u))
    decreases |ws|
  {
    if ws != [] {
      AfterWordKeeps(t, ws[0]);
      RunKeeps(AfterWord(t, ws[0]), ws[1..]);
    }
  }

  /** From a new block, every flush-free run keeps the tables exact and never runs out of slot numbers. */
  lemma NewBlockRunKeeps(ws: seq<GuestWord>)
    ensures Exact(AfterWords(FRESH, ws)) && SlotsLeft(AfterWords(FRESH, ws))
  {
    FreshIsExact();
    RunKeeps(FRESH, ws);
  }

  // ---------------------------------------------------------------- which operands get associated

  /** Because the walk ends at the first associated operand, later ones must be associated already. */
  predicate FillCovers(t: Tables, i: Instr)
    requires i.count == 3
  {
    var a, b, c := i.ops[0].id, i.ops[1].id, i.ops[2].id;
    if a == b then !t.assoc[b].used || t.assoc[c].used
    else if t.assoc[a].used then t.assoc[b].used && t.assoc[c].used
    else t.assoc[b].used ==> t.assoc[c].used || c == a
  }

  predicate AllAssociated(a: Assocs, i: Instr)
  {
    forall k :: 0 <= k < i.count ==> a[i.ops[k].id].used
  }

  lemma AssociateUses(t: Tables, g: RegId, h: RegId)
    ensures Associate(t, g).assoc[h].used <==> g == h || t.assoc[h].used
  {
  }

  lemma UsedThree(u: Assocs, i: Instr)
    requires GuestOperands(i) && i.count == 3
    ensures AllAssociated(u, i) <==> u[i.ops[0].id].used && u[i.ops[1].id].used && u[i.ops[2].id].used
  {
  }

  /** What the walk from position 1 associates. */
  lemma TailUses(t: Tables, i: Instr, g: RegId)
    requires GuestOperands(i) && i.count == 3
    ensures var b, c := i.ops[1].id, i.ops[2].id;
      FillFrom(t, i, 1).assoc[g].used <==>
        t.assoc[g].used || (!t.assoc[b].used && (g == b || g == c))
  {
    var b, c := i.ops[1].id, i.ops[2].id;
    FillTail(t, i, 1);
    AssociateUses(t, b, g);
    AssociateUses(t, b, c);
    AssociateUses(Associate(t, b), c, g);
  }

  /** What the whole walk associates. */
  lemma WalkUses(t: Tables, i: Instr, g: RegId)
    requires GuestOperands(i) && i.count == 3
    ensures var a, b, c := i.ops[0].id, i.ops[1].id, i.ops[2].id;
      Fill(t, i).assoc[g].used <==>
        || t.assoc[g].used
        || (a == b && !t.assoc[b].used && (g == b || g == c))
        || (a != b && !t.assoc[a].used && (g == a || (!t.assoc[b].used && (g == b || g == c))))
  {
    var a, b := i.ops[0].id, i.ops[1].id;
    if a == b {
      TailUses(t, i, g);
    } else if !t.assoc[a].used {
      AssociateUses(t, a, g);
      AssociateUses(t, a, b);
      TailUses(Associate(t, a), i, g);
    }
  }

  /** All operands of a three-operand instruction are associated after the walk exactly when the
  ones behind the first associated operand were associated before it. */
  lemma FillCoversExactly(t: Tables, i: Instr)
    requires GuestOperands(i) && i.count == 3
    ensures AllAssociated(Fill(t, i).assoc, i) <==> FillCovers(t, i)
  {
    UsedThree(Fill(t, i).assoc, i);
    WalkUses(t, i, i.ops[0].id);
    WalkUses(t, i, i.ops[1].id);
    WalkUses(t, i, i.ops[2].id);
  }

  /** The walk from position 1. */
  lemma FillTail(t: Tables, i: Instr, k: nat)
    requires GuestOperands(i) && i.count == 3 && k == 1
    ensures var b, c := i.ops[1].id, i.ops[2].id;
      FillFrom(t, i, k) ==
        if t.assoc[b].used then t
        else if Associate(t, b).assoc[c].used then Associate(t, b)
        else Associate(Associate(t, b), c)
  {
    var b, c := i.ops[1].id, i.ops[2].id;
    if !t.assoc[b].used {
      var u := Associate(t, b);
      assert FillFrom(t, i, 1) == FillFrom(u, i, 2);
      if !u.assoc[c].used {
        assert FillFrom(u, i, 2) == FillFrom(Associate(u, c), i, 3);
      }
    }
  }

  // ---------------------------------------------------------------- when an allocation spills

  /** The guests of a role that have a host register. */
  ghost function GuestsOnHost(t: Tables, role: Role): set<RegId>
  {
    set g: RegId | OnHost(t.assoc[g]) && GuestRole(g) == role
  }

  ghost function HostsOf(t: Tables, guests: set<RegId>): set<nat>
  {
    set g | g in guests :: t.assoc[g].id as nat
  }

  lemma {:induction false} DistinctHosts(t: Tables, guests: set<RegId>)
    requires Injective(t.assoc) && forall g :: g in guests ==> OnHost(t.assoc[g])
    ensures |HostsOf(t, guests)| == |guests|
    decreases |guests|
  {
    if guests != {} {
      var g :| g in guests;
      DistinctHosts(t, guests - {g});
      assert HostsOf(t, guests) == HostsOf(t, guests - {g}) + {t.assoc[g].id};
      assert t.assoc[g].id !in HostsOf(t, guests - {g});
    }
  }

  lemma SubsetOfSameSize<T>(a: set<T>, b: set<T>)
    requires a <= b && |a| == |b|
    ensures a == b
  {
    assert |b - a| == |b| - |a|;
    assert b == a + (b - a);
  }

  lemma HostsWithinMask(t: Tables, role: Role)
    requires Exact(t)
    ensures var hosts := HostsOf(t, GuestsOnHost(t, role));
      hosts <= HostMask(role) && forall h :: h in HostMask(role) && t.state[h] == Occupied ==> h in hosts
  {
    var guests := GuestsOnHost(t, role);
    forall h | h in HostMask(role) && t.state[h] == Occupied ensures h in HostsOf(t, guests) {
      HostMasksAreDisjoint(role, role, h);
      var g: RegId :| HolderOf(t.assoc, g, h);
      HostMasksAreDisjoint(role, GuestRole(g), h);
      assert g in guests;
    }
  }

  /** An allocation spills exactly when the guests of that role already hold as many host
  registers as the role has. */
  lemma SpillsExactlyWhenFull(t: Tables, g: RegId)
    requires Exact(t)
    ensures var role := GuestRole(g);
      && |GuestsOnHost(t, role)| <= |HostMask(role)|
      && (Associate(t, g).assoc[g].spilled <==> |GuestsOnHost(t, role)| == |HostMask(role)|)
  {
    var role := GuestRole(g);
    var mask, hosts := HostMask(role), HostsOf(t, GuestsOnHost(t, role));
    HostsWithinMask(t, role);
    DistinctHosts(t, GuestsOnHost(t, role));
    assert |mask - hosts| == |mask| - |hosts|;
    SpillMeansNoneFree(role, t.state);
    if |hosts| == |mask| {
      SubsetOfSameSize(hosts, mask);
      forall h | h in mask ensures t.state[h] == Occupied {
        HostMasksAreDisjoint(role, role, h);
        var g: RegId :| g in GuestsOnHost(t, role) && t.assoc[g].id == h;
      }
    }
  }

  lemma SpillMeansNoneFree(role: Role, state: States)
    ensures AllocResult(role, state) == SPILL <==> forall h :: h in HostMask(role) ==> state[h] == Occupied
  {
    AllocGivesFree(role, state);
    if AllocResult(role, state) == SPILL {
      forall h | h in HostMask(role) ensures state[h] == Occupied {
        assert h !in FreeHosts(role, state);
      }
    }
  }
}
