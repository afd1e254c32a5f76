/** Role-specific host register allocation. */
module Alloc {
  import opened Words
  import opened Cpu

  datatype RegState = Free | Occupied

  /** The 256 state bytes of a block, indexed by register number. */
  type States = s: seq<RegState> | |s| == 256 witness seq(256, _ => Free)

  /** The encoding of a spill in the result; smaller values are host register ids. */
  const SPILL: nat := 0x100

  /** The host registers of a role that are still free. */
  function FreeHosts(role: Role, state: States): Word
  {
    set h | h in HostMask(role) && state[h] == Free
  }

  /** The lowest free register of the role, or a spill. */
  function AllocResult(role: Role, state: States): (r: nat)
    ensures r == SPILL || r < 16
  {
    var free := FreeHosts(role, state);
    if free == {} then SPILL else CountTrailingZeros(free)
  }

  function AllocState(role: Role, state: States): States
  {
    var r := AllocResult(role, state);
    if r == SPILL then state else state[r := Occupied]
  }

  /** `__builtin_ctz` on a mask of the sixteen host registers. */
  function LowestBit(mask: Word): (i: nat)
    requires |mask| > 0
    requires forall h :: h in mask ==> h < 16
    ensures i < 16 && i in mask && i % 16 == i
    ensures forall h :: h in mask ==> i <= h
  {
    assert mask != {};
    CountTrailingZeros(mask)
  }

  /** Walks over a role mask from its lowest bit, dropping occupied registers. */
  method FirstFree(hosts: Word, state: array<RegState>) returns (found: bool, idx: nat)
    requires state.Length == 256
    requires forall h :: h in hosts ==> h < 16
    ensures found <==> exists h :: h in hosts && state[h] == Free
    ensures found ==> idx in hosts && state[idx] == Free
    ensures found ==> forall h :: h in hosts && state[h] == Free ==> idx <= h
  {
    var mask := hosts;
    var n := |mask|;
    var count := 0;
    idx := 0;
    while count < n
      invariant count <= n && |mask| == n - count
      invariant mask <= hosts
      invariant forall h :: h in hosts && h !in mask ==> state[h] == Occupied
    {
      var low := LowestBit(mask);
      idx := low % 16;
      count := count + 1;
      if state[idx] != Free {
        mask := mask - {idx};
        continue;
      }
      return true, idx;
    }
    assert mask == {};
    return false, idx;
  }

  method AllocSpace(role: Role, state: array<RegState>) returns (alloc: nat)
    requires state.Length == 256
    modifies state
    ensures alloc == AllocResult(role, old(state[..]))
    ensures state[..] == AllocState(role, old(state[..]))
  {
    var found, idx := FirstFree(HostMask(role), state);
    ghost var free := FreeHosts(role, state[..]);
    assert found ==> idx in free;
    if !found {
      assert free == {};
      return SPILL;
    }
    state[idx] := Occupied;
    return idx;
  }
}
