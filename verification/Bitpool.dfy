/** The shared bucket pool: a bitmap, four presence counters and the buckets they guard. */
module Bitpool {
  import opened Wrappers
  import opened Bits
  import opened Words
  import opened Ranges
  import opened SyncMap
  import opened PriorityQueue

  /** What one unload attempt reports; the bucket index is kept in eight bits. */
  datatype Unloaded = Nothing | Bucket(lane: nat, told: nat)

  class Pool {
    const smap: array<Word>
    const presence: array<U32>
    const buckets: array<Payload>
    const ranges: RangeTable

    ghost predicate Valid()
    {
      presence.Length == 4 && buckets.Length == 64 * smap.Length < 0x1_0000_0000
    }

    ghost function Contents(): Queue
      requires Valid()
      reads smap, presence, buckets
    {
      Queue(Flat(smap[..]), presence[..], buckets[..])
    }

    /** An empty pool over ranges that `RangePopulate` has accepted; memory starts out zeroed. */
    constructor (words: nat, ranges: RangeTable, blank: Payload)
      requires 64 * words < 0x1_0000_0000
      ensures Valid() && fresh(smap) && fresh(presence) && fresh(buckets) && this.ranges == ranges
      ensures smap.Length == words
      ensures Contents() == Queue({}, [0, 0, 0, 0], seq(64 * words, _ => blank))
    {
      this.ranges := ranges;
      smap := new Word[words](_ => {});
      presence := new U32[4](_ => 0);
      buckets := new Payload[64 * words](_ => blank);
    }

    /** One turn of the blocking load: signal a clear bit of the priority's range, fill the bucket
    it guards, count it. */
    method PriorLoad(bucket: Payload, prior: Prior) returns (r: LoadResult)
      requires Valid()
      modifies smap, presence, buckets
      ensures Valid() && r == LoadTarget(old(Contents()), ranges, prior)
      ensures Contents() == Load(old(Contents()), ranges, bucket, prior)
    {
      ghost var q := Contents();
      var lane := Lane(prior);
      if lane.None? {
        return Aborted;
      }
      var range := ranges[lane.value];
      if range.size == 0 {
        return InvalidRange;
      }
      var ok, index := SigFirst(range.first, Upper(range), smap);
      if !ok {
        return Full;
      }
      buckets[index] := bucket;
      presence[lane.value] := Up(presence[lane.value]);
      assert Contents() == Fill(q, lane.value, index, bucket);
      return Loaded(index);
    }

    /** The search for the range of an index. */
    method IndexToPresence(index: nat) returns (lane: Option<nat>)
      ensures lane == LaneOf(ranges, index, 0)
    {
      var i := 0;
      while i < 4
        invariant i <= 4
        invariant LaneOf(ranges, index, 0) == LaneOf(ranges, index, i)
      {
        if ranges[i].size > 0 && index >= ranges[i].first {
          return Some(i);
        }
        i := i + 1;
      }
      return None;
    }

    /** Clears the bit of a bucket and takes it from the count of its range; false when no range
    holds the index, which stops the program. */
    method PriorUnload(index: nat) returns (ok: bool)
      requires Valid()
      modifies smap, presence
      ensures Valid() && Contents() == Unload(old(Contents()), ranges, index)
      ensures ok == (index >= buckets.Length || LaneOf(ranges, index, 0).Some?)
    {
      ghost var q := Contents();
      if buckets.Length <= index {
        return true;
      }
      ClearBit(smap, index / 64, index % 64);
      var lane := IndexToPresence(index);
      if lane.None? {
        return false;
      }
      presence[lane.value] := Down(presence[lane.value]);
      assert Contents() == Empty(q, lane.value, index);
      return true;
    }

    /** Picks a range by presence and dispositions and clears the first bit found in it. */
    method PriorUnloadDisp(disp: array<U32>) returns (r: Unloaded)
      requires Valid() && disp.Length == 4 && disp != presence
      modifies smap, disp
      ensures Valid()
      ensures var q := old(Contents());
        var c := Choose(q.presence, ranges, old(disp[..]), 0);
        var target := UnloadTarget(q, ranges, c.lane);
        && disp[..] == c.disp
        && Contents() == (if target.Some? then q.(bits := q.bits - {target.value}) else q)
        && r == (if target.Some? then Bucket(c.lane, Told(target.value)) else Nothing)
    {
      ghost var q := Contents();
      ghost var c := Choose(q.presence, ranges, disp[..], 0);
      var i := 0;
      while i < 3
        invariant i <= 3 && presence[..] == q.presence && smap[..] == old(smap[..])
        invariant Choose(q.presence, ranges, disp[..], i) == c
      {
        if presence[i] > 0 {
          if disp[i] < ranges[i].perLow {
            break;
          }
          disp[i] := 0;
        }
        i := i + 1;
      }
      assert c == Choice(i, disp[..]);
      var range := ranges[i];
      var ok, index := UnsigFirst(range.first, Upper(range), smap);
      if !ok {
        return Nothing;
      }
      return Bucket(i, Told(index));
    }
  }

  datatype CreateCode = Success | InvalidArgument | InvalidData | DividedByZero

  /** What creation reports: the bucket count must be a positive multiple of 64 and the
  percentages acceptable. */
  function CreateOutcome(count: U32, perc: Percentages): CreateCode
  {
    if count == 0 || count % 64 != 0 then InvalidArgument
    else
      match Populate(perc, count)
      case InvalidData => CreateCode.InvalidData
      case DivisionByZero => DividedByZero
      case Filled(_) => Success
  }

  method Create(count: U32, perc: Percentages, blank: Payload) returns (code: CreateCode, pool: Pool?)
    ensures code == CreateOutcome(count, perc) && (code.Success? <==> pool != null)
    ensures pool != null ==>
      && fresh(pool) && fresh(pool.smap) && fresh(pool.presence) && fresh(pool.buckets)
      && pool.Valid() && pool.ranges == Populate(perc, count).ranges
      && pool.Contents() == Queue({}, [0, 0, 0, 0], seq(count, _ => blank))
  {
    if count == 0 || count % 64 != 0 {
      return InvalidArgument, null;
    }
    var buf := new Range[4](_ => Range(0, 0, 0));
    var r := RangePopulate(count / 64, perc, buf);
    match r
    case InvalidData => return CreateCode.InvalidData, null;
    case DivisionByZero => return DividedByZero, null;
    case Filled(ranges) =>
      var made := new Pool(count / 64, ranges, blank);
      return Success, made;
  }

  /** A pool is created exactly for a positive multiple of 64 buckets and percentages that total at most
  100, each of the first three lying between 1 and the last. */
  lemma CreateSucceedsExactly(count: U32, perc: Percentages)
    ensures CreateOutcome(count, perc).Success? <==>
      && count > 0 && count % 64 == 0
      && perc[0] as nat + perc[1] as nat + perc[2] as nat + perc[3] as nat <= 100
      && 1 <= perc[0] <= perc[3] && 1 <= perc[1] <= perc[3] && 1 <= perc[2] <= perc[3]
  {
    if count > 0 && count % 64 == 0 && Accepted(perc) {
      PerLowAtLeastOne(perc, count);
    }
  }

  /** Which of the three refusals it is otherwise. */
  lemma CreateRefuses(count: U32, perc: Percentages)
    ensures CreateOutcome(count, perc) == InvalidArgument <==> count == 0 || count % 64 != 0
    ensures CreateOutcome(count, perc) == CreateCode.InvalidData <==>
      && count > 0 && count % 64 == 0
      && (perc[0] as nat + perc[1] as nat + perc[2] as nat + perc[3] as nat > 100
          || perc[3] < perc[0] || perc[3] < perc[1] || perc[3] < perc[2])
    ensures CreateOutcome(count, perc) == DividedByZero ==> 0 in perc[..3]
  {
    if count > 0 && count % 64 == 0 && Accepted(perc) {
      PerLowAtLeastOne(perc, count);
    }
  }
}
