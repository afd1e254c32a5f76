/** Register maps of the guest and of the host. */
module Cpu {
  import opened Words
  import opened Mips

  datatype Role = Return | Temp | Preserve | Stack | StackPtr | FramePtr | MemPtr

  /** The role of each of the 32 guest registers. */
  function GuestRole(g: RegId): Role
  {
    if g in {2, 3, 31} then Return
    else if 4 <= g <= 7 then Stack
    else if g == 1 || 8 <= g <= 15 || g == 24 || g == 25 then Temp
    else if g == 28 then FramePtr
    else if g == 29 then StackPtr
    else if g == 30 then MemPtr
    else Preserve
  }

  /** The host registers that serve a role; no host register serves two. */
  function HostMask(role: Role): Word
  {
    match role
    case Return => {0}
    case Stack => {1, 2, 6, 7, 8, 9}
    case Preserve => {3, 12, 13, 14, 15}
    case StackPtr => {4}
    case FramePtr => {5}
    case Temp => {10, 11}
    case MemPtr => {}
  }

  // ---------------------------------------------------------------- tables and masks

  /** The role of each of the 16 host registers. */
  function HostRole(h: nat): Role
    requires h < 16
  {
    if h == 0 then Return
    else if h == 3 || h >= 12 then Preserve
    else if h == 4 then StackPtr
    else if h == 5 then FramePtr
    else if h >= 10 then Temp
    else Stack
  }

  /** The masks that the allocation searches follow the register table of the host. */
  lemma HostTable(h: nat, role: Role)
    requires h < 16
    ensures h in HostMask(role) <==> HostRole(h) == role
  {
  }

  /** The one bits of the role masks of the guest, which nothing reads. */
  function GuestMask(role: Role): Word
  {
    match role
    case Preserve => {0, 16, 17, 18, 19, 20, 21, 22, 23, 26, 27}
    case Temp => {1, 9, 10, 11, 12, 13, 14, 15, 24, 25}
    case Return => {2, 3, 31}
    case Stack => {4, 5, 6, 7}
    case FramePtr => {28}
    case StackPtr => {29}
    case MemPtr => {30}
  }

  /** They say what the register table of the guest says, except that register 8 has no bit. */
  lemma GuestTable(g: RegId, role: Role)
    ensures g in GuestMask(role) <==> GuestRole(g) == role && g != 8
  {
  }

  lemma HostMasksAreDisjoint(a: Role, b: Role, h: nat)
    requires h in HostMask(a) && h in HostMask(b)
    ensures a == b && h < 16
  {
  }
}
