/** Machine words that the program uses as bitmaps.

A word is represented by the set of the positions of its one bits, so that `&`, `|` and
`& ~` are set intersection, union and difference, and a population count is a cardinality. */
module Words {

  /** A `u64` used as a bitmap. */
  type Word = w: set<nat> | forall i :: i in w ==> i < 64

  /** A `u8` used as a bitmap. */
  type ByteMap = b: set<nat> | forall i :: i in b ==> i < 8

  predicate AtLeast(i: nat, from: nat)
  {
    from <= i
  }

  /** `~0ULL << from` */
  function OnesFrom(from: nat): (w: Word)
    ensures forall i: nat :: i in w <==> from <= i < 64
  {
    set i: nat | i < 64 && AtLeast(i, from)
  }

  /** `~w` */
  function Complement(w: Word): (c: Word)
    ensures forall i: nat :: i in c <==> i < 64 && i !in w
  {
    OnesFrom(0) - w
  }

  /** `__builtin_ctzll`, which is undefined for zero. */
  function CountTrailingZeros(w: Word): (i: nat)
    requires w != {}
    ensures i in w
    ensures forall j :: j in w ==> i <= j
  {
    assert exists j :: j in w && 0 <= j;
    LowestFrom(w, 0)
  }

  /** The lowest one bit of `w` at or above `from`. */
  function LowestFrom(w: Word, from: nat): (i: nat)
    requires exists j :: j in w && from <= j
    ensures i in w && from <= i
    ensures forall j :: j in w && from <= j ==> i <= j
    decreases 64 - from
  {
    if from in w then from else LowestFrom(w, from + 1)
  }
}
