/** Partition of the queue positions into four priority ranges by percentages. */
module Ranges {
  import opened Bits

  /** `size` positions from `first` on; `perLow` pops for each pop of the lowest range. */
  datatype Range = Range(size: nat, first: U32, perLow: nat)

  type RangeTable = s: seq<Range> | |s| == 4
    witness [Range(0, 0, 0), Range(0, 0, 0), Range(0, 0, 0), Range(0, 0, 0)]

  type Percentages = s: seq<U8> | |s| == 4 witness [0, 0, 0, 0]

  type Sizes = s: seq<nat> | |s| == 4 witness [0, 0, 0, 0]

  const DEFAULT: Percentages := [10, 15, 25, 50]
  const OFFLOAD: Percentages := [0, 10, 20, 70]

  function Sum(p: Percentages): nat
  {
    p[0] as nat + p[1] as nat + p[2] as nat + p[3] as nat
  }

  /** Percentages over 100 in total, or a lowest priority that is not the largest, are refused. */
  predicate Accepted(p: Percentages)
  {
    Sum(p) <= 100 && p[3] >= p[0] && p[3] >= p[1] && p[3] >= p[2]
  }

  /** `round` of a non-negative number: half away from zero. */
  function Round(x: real): int
  {
    (x + 0.5).Floor
  }

  /** The exact value that is rounded. */
  function Share(percent: nat, n: nat): real
  {
    ((percent as real) / 100.0) * (n as real)
  }

  lemma RoundedShare(percent: nat, n: nat)
    ensures Round(Share(percent, n)) == (percent * n + 50) / 100
  {
    var m := percent * n;
    assert Share(percent, n) == (m as real) / 100.0;
    var q, r := (m + 50) / 100, (m + 50) % 100;
    assert (m as real) / 100.0 + 0.5 == (q as real) + (r as real) / 100.0;
  }

  function Size(percent: nat, n: nat): nat
  {
    RoundedShare(percent, n);
    Round(Share(percent, n))
  }

  function SizesOf(p: Percentages, n: nat): Sizes
  {
    [Size(p[0], n), Size(p[1], n), Size(p[2], n), Size(p[3], n)]
  }

  /** The total of the first i sizes. */
  function Taken(s: Sizes, i: nat): nat
    requires i <= 4
  {
    if i == 0 then 0 else Taken(s, i - 1) + s[i - 1]
  }

  /** Ranges are laid out from the top; the unsigned subtraction may wrap. */
  function First(s: Sizes, n: U32, i: nat): U32
    requires i < 4
  {
    (n - Taken(s, i + 1)) % 0x1_0000_0000
  }

  predicate NoneEmpty(s: Sizes)
  {
    s[0] != 0 && s[1] != 0 && s[2] != 0
  }

  /** How often the size of range i fits into that of the lowest range. */
  function PerLow(s: Sizes, i: nat): nat
    requires i < 4 && s[i] != 0
  {
    s[3] / s[i]
  }

  function Place(s: Sizes, n: U32, i: nat): Range
    requires NoneEmpty(s) && i < 4
  {
    Range(s[i], First(s, n, i), if i == 3 then 1 else PerLow(s, i))
  }

  function Layout(s: Sizes, n: U32): RangeTable
    requires NoneEmpty(s)
  {
    [Place(s, n, 0), Place(s, n, 1), Place(s, n, 2), Place(s, n, 3)]
  }

  /** The division by the size of an empty range stops the program. */
  datatype Populated = InvalidData | DivisionByZero | Filled(ranges: RangeTable)

  function Populate(p: Percentages, n: U32): Populated
  {
    if !Accepted(p) then InvalidData
    else if !NoneEmpty(SizesOf(p, n)) then DivisionByZero
    else Filled(Layout(SizesOf(p, n), n))
  }

  predicate LaidOut(r: seq<Range>, s: Sizes, n: U32, i: nat)
    requires i <= 4 && |r| == 4
  {
    forall k :: 0 <= k < i ==> r[k].size == s[k] && r[k].first == First(s, n, k)
  }

  /** The first loop: sizes and first positions, from the highest priority down. */
  method LayOut(p: Percentages, n: U32, buf: array<Range>)
    requires Accepted(p) && buf.Length == 4
    modifies buf
    ensures LaidOut(buf[..], SizesOf(p, n), n, 4)
  {
    var taken, i := 0, 0;
    while i < 4
      invariant i <= 4 && taken == Taken(SizesOf(p, n), i) && LaidOut(buf[..], SizesOf(p, n), n, i)
    {
      RoundedShare(p[i], n);
      var size := Round(((p[i] as real) / 100.0) * (n as real));
      assert size == SizesOf(p, n)[i];
      buf[i] := Range(size, (n - size - taken) % 0x1_0000_0000, 0);
      taken := taken + size;
      i := i + 1;
    }
  }

  method DisposeOne(ghost s: Sizes, ghost n: U32, buf: array<Range>, i: nat)
    requires buf.Length == 4 && LaidOut(buf[..], s, n, 4) && i < 3 && s[i] != 0
    modifies buf
    ensures buf[..] == old(buf[..])[i := Range(s[i], First(s, n, i), PerLow(s, i))]
  {
    buf[i] := buf[i].(perLow := buf[3].size / buf[i].size);
  }

  /** The second loop: pops for each low pop. It stops at an empty range. */
  method Dispose(ghost s: Sizes, ghost n: U32, buf: array<Range>) returns (ok: bool)
    requires buf.Length == 4 && LaidOut(buf[..], s, n, 4)
    modifies buf
    ensures ok <==> NoneEmpty(s)
    ensures ok ==> buf[..] == Layout(s, n)
  {
    var i := 0;
    while i < 3
      invariant i <= 3 && LaidOut(buf[..], s, n, 4)
      invariant forall k :: 0 <= k < i ==> s[k] != 0
      invariant forall k :: 0 <= k < i ==> buf[..][k].perLow == PerLow(s, k)
    {
      if buf[i].size == 0 {
        return false;
      }
      DisposeOne(s, n, buf, i);
      i := i + 1;
    }
    buf[3] := buf[3].(perLow := 1);
    return true;
  }

  method RangePopulate(words: nat, p: Percentages, buf: array<Range>) returns (r: Populated)
    requires 64 * words < 0x1_0000_0000 && buf.Length == 4
    modifies buf
    ensures r == Populate(p, 64 * words)
    ensures r.Filled? ==> buf[..] == r.ranges
  {
    var sum := p[0] as nat + p[1] as nat + p[2] as nat + p[3] as nat;
    if sum > 100 {
      return InvalidData;
    }
    if p[3] < p[0] || p[3] < p[1] || p[3] < p[2] {
      return InvalidData;
    }
    LayOut(p, 64 * words, buf);
    var ok := Dispose(SizesOf(p, 64 * words), 64 * words, buf);
    r := if ok then Filled(buf[..]) else DivisionByZero;
  }

  // ---------------------------------------------------------------- rounding

  lemma RoundedError(m: nat)
    requires m % 4 == 0
    ensures -48 <= 100 * ((m + 50) / 100) - m <= 48
    ensures m % 100 != 50
  {
    assert 100 * ((m + 50) / 100) == m + 50 - (m + 50) % 100;
  }

  /** With positions in multiples of 64 the exact share is never half way between two integers,
  and rounding moves it by at most 12/25. */
  lemma RoundingError(percent: nat, n: nat)
    requires n % 64 == 0
    ensures -48 <= 100 * Size(percent, n) - percent * n <= 48
    ensures (percent * n) % 100 != 50
  {
    RoundedShare(percent, n);
    var k := n / 64;
    assert percent * n == 4 * (16 * (percent * k));
    RoundedError(percent * n);
  }

  lemma SharesTotal(a: nat, b: nat, c: nat, d: nat, n: nat)
    requires a + b + c + d <= 100
    ensures a * n + b * n + c * n + d * n <= 100 * n
  {
    assert a * n + b * n + c * n + d * n == (a + b + c + d) * n;
  }

  lemma TakenIs(s: Sizes)
    ensures Taken(s, 1) == s[0] && Taken(s, 2) == s[0] + s[1]
    ensures Taken(s, 3) == s[0] + s[1] + s[2] && Taken(s, 4) == s[0] + s[1] + s[2] + s[3]
  {
    assert Taken(s, 0) == 0;
    assert Taken(s, 2) == Taken(s, 1) + s[1];
    assert Taken(s, 3) == Taken(s, 2) + s[2];
  }

  /** Four rounded sizes exceed the positions by at most one. */
  lemma TotalAtMostOneOver(p: Percentages, n: nat)
    requires n % 64 == 0 && Accepted(p)
    ensures Taken(SizesOf(p, n), 4) <= n + 1
  {
    RoundingError(p[0], n);
    RoundingError(p[1], n);
    RoundingError(p[2], n);
    RoundingError(p[3], n);
    TakenIs(SizesOf(p, n));
    SharesTotal(p[0], p[1], p[2], p[3], n);
  }

  // ---------------------------------------------------------------- tiling

  function End(r: Range): nat
  {
    r.first + r.size
  }

  /** The ranges lie one under the other from position n downward. */
  predicate Tiles(r: RangeTable, n: nat)
  {
    End(r[0]) == n && End(r[1]) == r[0].first && End(r[2]) == r[1].first && End(r[3]) == r[2].first
  }

  /** A total of at most the positions is subtracted without wrapping, one more wraps to the top. */
  lemma FirstIs(s: Sizes, n: U32, i: nat)
    requires i < 4
    ensures Taken(s, i + 1) <= n ==> First(s, n, i) == n - Taken(s, i + 1)
    ensures Taken(s, i + 1) == n + 1 ==> First(s, n, i) == 0xffff_ffff
  {
  }

  lemma {:induction false} LayoutTiles(s: Sizes, n: U32)
    requires NoneEmpty(s) && Taken(s, 4) <= n + 1
    ensures Tiles(Layout(s, n), n) <==> Taken(s, 4) <= n
    ensures Taken(s, 4) <= n ==> Layout(s, n)[3].first == n - Taken(s, 4)
  {
    TakenIs(s);
    FirstIs(s, n, 0);
    FirstIs(s, n, 1);
    FirstIs(s, n, 2);
    FirstIs(s, n, 3);
  }

  /** The populated ranges tile a top segment of the positions exactly when their sizes total at
  most the number of positions. */
  lemma {:induction false} TilesExactly(p: Percentages, n: U32)
    requires n % 64 == 0 && Populate(p, n).Filled?
    ensures Tiles(Populate(p, n).ranges, n) <==> Taken(SizesOf(p, n), 4) <= n
  {
    TotalAtMostOneOver(p, n);
    LayoutTiles(SizesOf(p, n), n);
  }

  /** Accepted percentages whose rounded sizes total 65 of 64 positions: the lowest range starts
  at the largest unsigned number. */
  lemma RangesCanWrap()
    ensures var r := Populate([20, 20, 20, 40], 64);
      r.Filled? && !Tiles(r.ranges, 64) && r.ranges[3].first == 0xffff_ffff
  {
    RoundedShare(20, 64);
    RoundedShare(40, 64);
    var s: Sizes := [13, 13, 13, 26];
    assert SizesOf([20, 20, 20, 40], 64) == s;
    TakenIs(s);
    LayoutTiles(s, 64);
  }

  lemma TwoFifths(k: nat)
    requires k > 0
    ensures (640 * k + 50) / 100 + (960 * k + 50) / 100 == 16 * k
    ensures (640 * k + 50) / 100 > 0 && (960 * k + 50) / 100 > 0
  {
  }

  lemma SizeIs(percent: nat, k: nat, size: nat)
    requires (64 * percent * k + 50) / 100 == size
    ensures Size(percent, 64 * k) == size
  {
    RoundedShare(percent, 64 * k);
    assert percent * (64 * k) == 64 * percent * k;
  }

  lemma DefaultSizes(k: nat)
    requires k > 0
    ensures var s := SizesOf(DEFAULT, 64 * k); NoneEmpty(s) && s[0] + s[1] + s[2] + s[3] == 64 * k
  {
    TwoFifths(k);
    SizeIs(10, k, (640 * k + 50) / 100);
    SizeIs(15, k, (960 * k + 50) / 100);
    SizeIs(25, k, 16 * k);
    SizeIs(50, k, 32 * k);
  }

  /** The default percentages tile all positions, for every number of positions. */
  lemma {:induction false} DefaultTilesAll(n: U32)
    requires n % 64 == 0 && n > 0
    ensures var r := Populate(DEFAULT, n);
      r.Filled? && Tiles(r.ranges, n) && r.ranges[3].first == 0
  {
    DefaultSizes(n / 64);
    TakenIs(SizesOf(DEFAULT, n));
    LayoutTiles(SizesOf(DEFAULT, n), n);
  }

  // ---------------------------------------------------------------- pops per low pop

  lemma SizeOrder(a: nat, b: nat, n: nat)
    requires n >= 64 && a <= b
    ensures Size(a, n) <= Size(b, n)
    ensures Size(a, n) == 0 <==> a == 0
  {
    RoundedShare(a, n);
    RoundedShare(b, n);
    assert a * n <= b * n;
    assert a >= 1 ==> a * n >= 64;
  }

  lemma PerLowOf(s: Sizes, n: U32)
    requires NoneEmpty(s) && s[0] <= s[3] && s[1] <= s[3] && s[2] <= s[3]
    ensures forall i :: 0 <= i < 4 ==> Layout(s, n)[i].perLow >= 1 && Layout(s, n)[i].size >= 1
  {
  }

  /** Population stops on a division by zero exactly when one of the first three accepted
  percentages is zero; otherwise every range is allowed at least one pop for each low pop. */
  lemma {:induction false} PerLowAtLeastOne(p: Percentages, n: U32)
    requires n % 64 == 0 && n > 0 && Accepted(p)
    ensures Populate(p, n) == DivisionByZero <==> p[0] == 0 || p[1] == 0 || p[2] == 0
    ensures Populate(p, n).Filled? ==> forall i :: 0 <= i < 4 ==>
      Populate(p, n).ranges[i].perLow >= 1 && Populate(p, n).ranges[i].size >= 1
  {
    SizeOrder(p[0], p[3], n);
    SizeOrder(p[1], p[3], n);
    SizeOrder(p[2], p[3], n);
    if NoneEmpty(SizesOf(p, n)) {
      PerLowOf(SizesOf(p, n), n);
    }
  }

  /** What the offload preset asks of 64 positions. */
  lemma {:induction false} OffloadSizesAt64(n: U32)
    requires n == 64
    ensures SizesOf(OFFLOAD, n) == [0, 6, 13, 45] && Sum(OFFLOAD) == 100
  {
    RoundedShare(0, n);
    RoundedShare(10, n);
    RoundedShare(20, n);
    RoundedShare(70, n);
  }

  /** The offload preset is accepted and then divides by zero. */
  lemma OffloadDividesByZero(n: U32)
    requires n % 64 == 0 && n > 0
    ensures Populate(OFFLOAD, n) == DivisionByZero
  {
    PerLowAtLeastOne(OFFLOAD, n);
  }

  // ---------------------------------------------------------------- what each range gets

  /** The size of each range is its own percentage of the positions, rounded, and its pops for each low
  pop are as many as its size fits into that of the lowest range. */
  lemma EachRange(p: Percentages, n: U32)
    requires Populate(p, n).Filled?
    ensures forall i :: 0 <= i < 4 ==> Populate(p, n).ranges[i].size == (p[i] * n + 50) / 100
    ensures forall i :: 0 <= i < 3 ==> FitsTimes(Populate(p, n).ranges, i)
    ensures Populate(p, n).ranges[3].perLow == 1
  {
    RoundedShare(p[0], n);
    RoundedShare(p[1], n);
    RoundedShare(p[2], n);
    RoundedShare(p[3], n);
    var s := SizesOf(p, n);
    FitsPerLow(s, 0);
    FitsPerLow(s, 1);
    FitsPerLow(s, 2);
  }

  predicate FitsTimes(r: RangeTable, i: nat)
    requires i < 3
  {
    r[i].size * r[i].perLow <= r[3].size < r[i].size * (r[i].perLow + 1)
  }

  lemma FitsPerLow(s: Sizes, i: nat)
    requires i < 3 && s[i] != 0
    ensures s[i] * PerLow(s, i) <= s[3] < s[i] * (PerLow(s, i) + 1)
  {
    assert s[3] == s[i] * (s[3] / s[i]) + s[3] % s[i];
  }

  lemma {:induction false} DefaultSizesAt64(n: U32)
    requires n == 64
    ensures SizesOf(DEFAULT, n) == [6, 10, 16, 32]
  {
    RoundedShare(10, n);
    RoundedShare(15, n);
    RoundedShare(25, n);
    RoundedShare(50, n);
  }

  lemma LaidOutAs(s: Sizes, n: U32)
    requires n == 64 && s == [6, 10, 16, 32]
    ensures Layout(s, n) == [Range(6, 58, 5), Range(10, 48, 3), Range(16, 32, 2), Range(32, 0, 1)]
  {
    TakenIs(s);
  }

  /** The scheduler's own ranges: 6, 10, 16 and 32 positions, and 5, 3, 2 and 1 pops. */
  lemma {:induction false} DefaultRanges(n: U32)
    requires n == 64
    ensures Populate(DEFAULT, n)
         == Filled([Range(6, 58, 5), Range(10, 48, 3), Range(16, 32, 2), Range(32, 0, 1)])
  {
    DefaultSizesAt64(n);
    LaidOutAs(SizesOf(DEFAULT, n), n);
  }
}
