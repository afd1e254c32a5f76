/** The shared bitmap: searching for and flipping the first clear or set bit of a range. */
module SyncMap {
  import opened Wrappers
  import opened Words

  // ---------------------------------------------------------------- the flat bit sequence

  /** The flat positions of the one bits of a map of words. */
  function Flat(map_: seq<Word>): set<nat>
  {
    set j: nat | j < 64 * |map_| && BitAt(map_, j)
  }

  predicate BitAt(map_: seq<Word>, j: nat)
  {
    j / 64 < |map_| && j % 64 in map_[j / 64]
  }

  /** The least clear position of [lo, hi). */
  function FirstClear(bits: set<nat>, lo: nat, hi: nat): (r: Option<nat>)
    ensures r.None? ==> forall j :: lo <= j < hi ==> j in bits
    ensures r.Some? ==> lo <= r.value < hi && r.value !in bits && forall j :: lo <= j < r.value ==> j in bits
    decreases hi - lo
  {
    if lo >= hi then None
    else if lo !in bits then Some(lo)
    else FirstClear(bits, lo + 1, hi)
  }

  /** The least set position of [lo, hi). */
  function FirstSet(bits: set<nat>, lo: nat, hi: nat): (r: Option<nat>)
    ensures r.None? ==> forall j :: lo <= j < hi ==> j !in bits
    ensures r.Some? ==> lo <= r.value < hi && r.value in bits && forall j :: lo <= j < r.value ==> j !in bits
    decreases hi - lo
  {
    if lo >= hi then None
    else if lo in bits then Some(lo)
    else FirstSet(bits, lo + 1, hi)
  }

  function Min(a: nat, b: nat): nat
  {
    if a < b then a else b
  }

  /** The bit cleared by the unsignal search: the least set one, except that a first word that is
  all ones from the start bit upward is passed over. */
  function UnsigTarget(bits: set<nat>, n: nat, lo: nat, hi: nat): Option<nat>
  {
    UnsigFrom(bits, n, lo, 64 * (lo / 64 + 1), hi)
  }

  /** The same with the start of the second word given. */
  function UnsigFrom(bits: set<nat>, n: nat, lo: nat, next: nat, hi: nat): Option<nat>
  {
    if lo >= n then None
    else if FirstClear(bits, lo, next).None? then FirstSet(bits, next, Min(hi, n))
    else FirstSet(bits, lo, Min(hi, n))
  }

  // ---------------------------------------------------------------- words and positions

  lemma FlatAt(map_: seq<Word>, q: nat, i: nat)
    requires q < |map_| && i < 64
    ensures 64 * q + i in Flat(map_) <==> i in map_[q]
    ensures (64 * q + i) / 64 == q && (64 * q + i) % 64 == i
  {
  }

  /** Every position of word q is 64 * q plus a bit number. */
  lemma PositionInWord(map_: seq<Word>, q: nat, j: nat)
    requires q < |map_| && 64 * q <= j < 64 * (q + 1)
    ensures j in Flat(map_) <==> j - 64 * q in map_[q]
  {
    FlatAt(map_, q, j - 64 * q);
  }

  lemma FlatAfterSet(map_: seq<Word>, q: nat, i: nat)
    requires q < |map_| && i < 64
    ensures Flat(map_[q := map_[q] + {i}]) == Flat(map_) + {64 * q + i}
  {
    var after := map_[q := map_[q] + {i}];
    FlatAt(map_, q, i);
    FlatAt(after, q, i);
    forall j: nat ensures j in Flat(after) <==> j in Flat(map_) + {64 * q + i} {
      assert j == 64 * (j / 64) + j % 64;
    }
  }

  lemma FlatAfterClear(map_: seq<Word>, q: nat, i: nat)
    requires q < |map_| && i < 64
    ensures Flat(map_[q := map_[q] - {i}]) == Flat(map_) - {64 * q + i}
  {
    var after := map_[q := map_[q] - {i}];
    FlatAt(map_, q, i);
    FlatAt(after, q, i);
    forall j: nat ensures j in Flat(after) <==> j in Flat(map_) - {64 * q + i} {
      assert j == 64 * (j / 64) + j % 64;
    }
  }

  /** Word q agrees with the flat bits at and above bit i. */
  lemma WordPositions(map_: seq<Word>, q: nat, i: nat)
    requires q < |map_| && i < 64
    ensures forall k :: 64 * q + i <= k < 64 * (q + 1) ==> (k in Flat(map_) <==> k - 64 * q in map_[q])
  {
    forall k | 64 * q + i <= k < 64 * (q + 1) ensures k in Flat(map_) <==> k - 64 * q in map_[q] {
      PositionInWord(map_, q, k);
    }
  }

  // ---------------------------------------------------------------- the searches

  predicate AllSet(bits: set<nat>, lo: nat, hi: nat)
  {
    forall k :: lo <= k < hi ==> k in bits
  }

  predicate NoneSet(bits: set<nat>, lo: nat, hi: nat)
  {
    forall k :: lo <= k < hi ==> k !in bits
  }

  /** A word without clear bits from bit i upward. */
  lemma FullTail(map_: seq<Word>, q: nat, i: nat)
    requires q < |map_| && i < 64
    ensures map_[q] * OnesFrom(i) == OnesFrom(i) <==> Complement(map_[q]) * OnesFrom(i) == {}
    ensures Complement(map_[q]) * OnesFrom(i) == {} ==> AllSet(Flat(map_), 64 * q + i, 64 * (q + 1))
  {
    var rest := Complement(map_[q]) * OnesFrom(i);
    if rest == {} {
      forall j | i <= j < 64 ensures j in map_[q] {
        assert j !in rest;
      }
      assert map_[q] * OnesFrom(i) == OnesFrom(i);
      WordPositions(map_, q, i);
    } else {
      var j :| j in rest;
      assert j in OnesFrom(i) && j !in map_[q] * OnesFrom(i);
    }
  }

  /** The lowest clear bit of a word from bit i upward. */
  lemma LowestClear(map_: seq<Word>, q: nat, i: nat, j: nat)
    requires q < |map_| && i < 64 && Complement(map_[q]) * OnesFrom(i) != {}
    requires j == CountTrailingZeros(Complement(map_[q]) * OnesFrom(i))
    ensures i <= j < 64 && 64 * q + j !in Flat(map_) && AllSet(Flat(map_), 64 * q + i, 64 * q + j)
  {
    var rest := Complement(map_[q]) * OnesFrom(i);
    FlatAt(map_, q, j);
    WordPositions(map_, q, i);
    forall k | 64 * q + i <= k < 64 * q + j ensures k in Flat(map_) {
      assert k - 64 * q !in rest;
    }
  }

  /** A word without set bits from bit i upward. */
  lemma EmptyTail(map_: seq<Word>, q: nat, i: nat)
    requires q < |map_| && i < 64 && map_[q] * OnesFrom(i) == {}
    ensures NoneSet(Flat(map_), 64 * q + i, 64 * (q + 1))
  {
    WordPositions(map_, q, i);
    forall k | 64 * q + i <= k < 64 * (q + 1) ensures k !in Flat(map_) {
      assert k - 64 * q !in map_[q] * OnesFrom(i);
    }
  }

  /** The lowest set bit of a word from bit i upward. */
  lemma LowestSet(map_: seq<Word>, q: nat, i: nat, j: nat)
    requires q < |map_| && i < 64 && map_[q] * OnesFrom(i) != {}
    requires j == CountTrailingZeros(map_[q] * OnesFrom(i))
    ensures i <= j < 64 && 64 * q + j in Flat(map_) && NoneSet(Flat(map_), 64 * q + i, 64 * q + j)
  {
    FlatAt(map_, q, j);
    WordPositions(map_, q, i);
    forall k | 64 * q + i <= k < 64 * q + j ensures k !in Flat(map_) {
      assert k - 64 * q !in map_[q] * OnesFrom(i);
    }
  }

  /** The load of a whole word is the masked load from bit 0. */
  lemma WholeWord(w: Word)
    ensures w * OnesFrom(0) == w && Complement(w) * OnesFrom(0) == Complement(w)
  {
  }

  lemma ClearTarget(bits: set<nat>, lo: nat, hi: nat, n: nat, des: nat)
    requires lo <= des < n && des !in bits && AllSet(bits, lo, des)
    ensures FirstClear(bits, lo, Min(hi, n)) == if des >= hi then None else Some(des)
  {
  }

  lemma SetTarget(bits: set<nat>, lo: nat, hi: nat, n: nat, des: nat)
    requires lo <= des < n && des in bits && NoneSet(bits, lo, des)
    ensures FirstSet(bits, lo, Min(hi, n)) == if des >= hi then None else Some(des)
  {
  }

  /** `atomic_fetch_or` of one bit. */
  method SetBit(map_: array<Word>, q: nat, i: nat)
    requires q < map_.Length && i < 64
    modifies map_
    ensures Flat(map_[..]) == old(Flat(map_[..])) + {64 * q + i}
  {
    FlatAfterSet(map_[..], q, i);
    ghost var before := map_[..];
    map_[q] := map_[q] + {i};
    assert map_[..] == before[q := before[q] + {i}];
  }

  /** `atomic_fetch_and` with the complement of one bit. */
  method ClearBit(map_: array<Word>, q: nat, i: nat)
    requires q < map_.Length && i < 64
    modifies map_
    ensures Flat(map_[..]) == old(Flat(map_[..])) - {64 * q + i}
  {
    FlatAfterClear(map_[..], q, i);
    ghost var before := map_[..];
    map_[q] := map_[q] - {i};
    assert map_[..] == before[q := before[q] - {i}];
  }

  /** Signals the first clear bit of [lo, hi), if there is one. */
  method SigFirst(lo: nat, hi: nat, map_: array<Word>) returns (ok: bool, index: nat)
    modifies map_
    ensures var bits := old(Flat(map_[..]));
      var target := FirstClear(bits, lo, Min(hi, 64 * map_.Length));
      && ok == target.Some?
      && (ok ==> index == target.value && Flat(map_[..]) == bits + {index})
      && (!ok ==> map_[..] == old(map_[..]))
  {
    if lo / 64 >= map_.Length {
      return false, 0;
    }
    ok, index := SigFromBit(lo / 64, lo % 64, lo, hi, map_);
  }

  /** The search from bit i of word q on. */
  method SigFromBit(q: nat, i: nat, lo: nat, hi: nat, map_: array<Word>) returns (ok: bool, index: nat)
    requires q < map_.Length && i < 64 && lo == 64 * q + i
    modifies map_
    ensures var bits := old(Flat(map_[..]));
      var target := FirstClear(bits, lo, Min(hi, 64 * map_.Length));
      && ok == target.Some?
      && (ok ==> index == target.value && Flat(map_[..]) == bits + {index})
      && (!ok ==> map_[..] == old(map_[..]))
  {
    var mask := OnesFrom(i);
    var val: Word := map_[q] * mask;
    FullTail(map_[..], q, i);
    if val != mask {
      assert Complement(val) * mask == Complement(map_[q]) * mask;
      var sig := CountTrailingZeros(Complement(val) * mask);
      LowestClear(map_[..], q, i, sig);
      ClearTarget(Flat(map_[..]), lo, hi, 64 * map_.Length, sig + 64 * q);
      if sig + 64 * q >= hi {
        return false, 0;
      }
      SetBit(map_, q, sig);
      return true, sig + 64 * q;
    }
    ok, index := SigSubsequent(lo, hi, map_, q + 1);
  }

  /** The search through the words behind the first. */
  method SigSubsequent(lo: nat, hi: nat, map_: array<Word>, start: nat) returns (ok: bool, index: nat)
    requires lo < 64 * start && start <= map_.Length
    requires AllSet(Flat(map_[..]), lo, 64 * start)
    modifies map_
    ensures var bits := old(Flat(map_[..]));
      var target := FirstClear(bits, lo, Min(hi, 64 * map_.Length));
      && ok == target.Some?
      && (ok ==> index == target.value && Flat(map_[..]) == bits + {index})
      && (!ok ==> map_[..] == old(map_[..]))
  {
    ghost var bits, n := Flat(map_[..]), 64 * map_.Length;
    var q := start;
    while q < map_.Length
      invariant start <= q <= map_.Length && map_[..] == old(map_[..])
      invariant AllSet(bits, lo, 64 * q)
    {
      var val := map_[q];
      FullTail(map_[..], q, 0);
      WholeWord(val);
      if Complement(val) != {} {
        var sig := CountTrailingZeros(Complement(val));
        LowestClear(map_[..], q, 0, sig);
        var des := sig + 64 * q;
        ClearTarget(bits, lo, hi, n, des);
        if des >= hi {
          return false, 0;
        }
        SetBit(map_, q, sig);
        return true, des;
      }
      q := q + 1;
    }
    return false, 0;
  }

  /** The first word, seen from bit i, is full exactly when there is no clear position in it. */
  lemma {:induction false} FullFrom(map_: seq<Word>, q: nat, i: nat)
    requires q < |map_| && i < 64
    ensures FirstClear(Flat(map_), 64 * q + i, 64 * (q + 1)).None? <==> map_[q] * OnesFrom(i) == OnesFrom(i)
  {
    FullTail(map_, q, i);
    var rest := Complement(map_[q]) * OnesFrom(i);
    if rest != {} {
      LowestClear(map_, q, i, CountTrailingZeros(rest));
    }
  }

  /** What the first word, seen from bit i, decides about the unsignal search. */
  lemma {:induction false} FirstWordAt(map_: seq<Word>, q: nat, i: nat, hi: nat, target: Option<nat>)
    requires q < |map_| && i < 64
    requires target == UnsigFrom(Flat(map_), 64 * |map_|, 64 * q + i, 64 * (q + 1), hi)
    ensures var bits, n, lo, next, val := Flat(map_), 64 * |map_|, 64 * q + i, 64 * (q + 1), map_[q] * OnesFrom(i);
      target == if val == OnesFrom(i) then FirstSet(bits, next, Min(hi, n)) else FirstSet(bits, lo, Min(hi, n))
  {
    FullFrom(map_, q, i);
  }

  /** The bit that the first word offers, when it is neither full nor empty from bit i upward. */
  lemma {:induction false} FirstWordOffers(map_: seq<Word>, q: nat, i: nat, hi: nat, sig: nat)
    requires q < |map_| && i < 64 && map_[q] * OnesFrom(i) != {} && sig == CountTrailingZeros(map_[q] * OnesFrom(i))
    ensures sig < 64
    ensures FirstSet(Flat(map_), 64 * q + i, Min(hi, 64 * |map_|))
         == if sig + 64 * q >= hi then None else Some(sig + 64 * q)
  {
    LowestSet(map_, q, i, sig);
    SetTarget(Flat(map_), 64 * q + i, hi, 64 * |map_|, sig + 64 * q);
  }

  /** Clears the first set bit of [lo, hi), passing over a first word that is full from lo upward. */
  method UnsigFirst(lo: nat, hi: nat, map_: array<Word>) returns (ok: bool, index: nat)
    modifies map_
    ensures var bits := old(Flat(map_[..]));
      var target := UnsigTarget(bits, 64 * map_.Length, lo, hi);
      && ok == target.Some?
      && (ok ==> index == target.value && Flat(map_[..]) == bits - {index})
      && (!ok ==> map_[..] == old(map_[..]))
  {
    if lo / 64 >= map_.Length {
      return false, 0;
    }
    ok, index := UnsigFromBit(lo / 64, lo % 64, lo, hi, map_);
  }

  /** The search from bit i of word q on. */
  method UnsigFromBit(q: nat, i: nat, lo: nat, hi: nat, map_: array<Word>) returns (ok: bool, index: nat)
    requires q < map_.Length && i < 64 && lo == 64 * q + i
    modifies map_
    ensures var bits := old(Flat(map_[..]));
      var target := UnsigFrom(bits, 64 * map_.Length, lo, 64 * (q + 1), hi);
      && ok == target.Some?
      && (ok ==> index == target.value && Flat(map_[..]) == bits - {index})
      && (!ok ==> map_[..] == old(map_[..]))
  {
    var mask := OnesFrom(i);
    var val: Word := map_[q] * mask;
    FirstWordAt(map_[..], q, i, hi, UnsigFrom(Flat(map_[..]), 64 * map_.Length, lo, 64 * (q + 1), hi));
    if val != mask && val != {} {
      var sig := CountTrailingZeros(val);
      FirstWordOffers(map_[..], q, i, hi, sig);
      if sig + 64 * q >= hi {
        return false, 0;
      }
      ClearBit(map_, q, sig);
      return true, sig + 64 * q;
    }
    if val == {} {
      EmptyTail(map_[..], q, i);
    }
    ok, index := UnsigSubsequent(if val == mask then 64 * (q + 1) else lo, hi, map_, q + 1);
  }

  /** The search through the words behind the first; everything from lo up to them is clear. */
  method UnsigSubsequent(ghost lo: nat, hi: nat, map_: array<Word>, start: nat) returns (ok: bool, index: nat)
    requires lo <= 64 * start && start <= map_.Length
    requires NoneSet(Flat(map_[..]), lo, 64 * start)
    modifies map_
    ensures var bits := old(Flat(map_[..]));
      var target := FirstSet(bits, lo, Min(hi, 64 * map_.Length));
      && ok == target.Some?
      && (ok ==> index == target.value && Flat(map_[..]) == bits - {index})
      && (!ok ==> map_[..] == old(map_[..]))
  {
    ghost var bits, n := Flat(map_[..]), 64 * map_.Length;
    var q := start;
    while q < map_.Length
      invariant start <= q <= map_.Length && map_[..] == old(map_[..])
      invariant NoneSet(bits, lo, 64 * q)
    {
      var val := map_[q];
      WholeWord(val);
      if val == {} {
        EmptyTail(map_[..], q, 0);
      } else {
        var sig := CountTrailingZeros(val);
        LowestSet(map_[..], q, 0, sig);
        var des := sig + 64 * q;
        SetTarget(bits, lo, hi, n, des);
        if des >= hi {
          return false, 0;
        }
        ClearBit(map_, q, sig);
        return true, des;
      }
      q := q + 1;
    }
    return false, 0;
  }
}
