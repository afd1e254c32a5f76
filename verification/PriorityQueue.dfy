/** The priority queue as a value: what loading, unloading and one scheduler cycle do to it. */
module PriorityQueue {
  import opened Wrappers
  import opened Bits
  import opened Ranges
  import opened SyncMap

  datatype Prior = MteMin | Min | Low | Mod | Med | High | VeryHigh | Real | Max | MteMax

  /** A 64-byte payload; only its priority is looked at by the queue. */
  datatype Payload = Payload(priority: Prior, bytes: seq<U8>)

  type Lanes = s: seq<U32> | |s| == 4 witness [0, 0, 0, 0]

  /** The set bits of the map, the active buckets counted for each range, and the buckets. */
  datatype Queue = Queue(bits: set<nat>, presence: Lanes, bucket: seq<Payload>)

  /** The range of a priority, 0 being the most urgent; the two end markers stop the program. */
  function Lane(prior: Prior): (lane: Option<nat>)
    ensures lane.Some? ==> lane.value < 4
  {
    match prior
    case Min | Low => Some(3)
    case Mod | Med => Some(2)
    case High | VeryHigh => Some(1)
    case Real | Max => Some(0)
    case MteMin | MteMax => None
  }

  /** The value of a priority in the order of its declaration; a larger one is more urgent. */
  function Rank(prior: Prior): nat
  {
    match prior
    case MteMin => 0
    case Min => 1
    case Low => 2
    case Mod => 3
    case Med => 4
    case High => 5
    case VeryHigh => 6
    case Real => 7
    case Max => 8
    case MteMax => 9
  }

  /** Between the end markers two neighbouring priorities share a range, from the lowest range up. */
  lemma LaneFollowsRank(prior: Prior)
    ensures Lane(prior).Some? <==> 1 <= Rank(prior) <= 8
    ensures Lane(prior).Some? ==> Lane(prior).value == (8 - Rank(prior)) / 2
  {
  }

  /** A more urgent priority never has a lower range, and a range has exactly two priorities. */
  lemma LanesAreOrdered(a: Prior, b: Prior)
    requires Lane(a).Some? && Lane(b).Some?
    ensures Rank(a) >= Rank(b) ==> Lane(a).value <= Lane(b).value
    ensures Lane(a) == Lane(b) <==> (Rank(a) + 1) / 2 == (Rank(b) + 1) / 2
    ensures a == b <==> Rank(a) == Rank(b)
  {
  }

  /** The end of a range as the callers of the searches compute it, in 32 bits. */
  function Upper(r: Range): U32
  {
    (r.first + r.size) % 0x1_0000_0000
  }

  function Total(presence: Lanes): nat
  {
    presence[0] as nat + presence[1] as nat + presence[2] as nat + presence[3] as nat
  }

  function Up(x: U32): U32
  {
    (x + 1) % 0x1_0000_0000
  }

  function Down(x: U32): U32
  {
    (x - 1) % 0x1_0000_0000
  }

  // ---------------------------------------------------------------- loading

  /** `Full` is one turn of the blocking loop that finds no clear bit. */
  datatype LoadResult = Aborted | InvalidRange | Full | Loaded(index: nat)

  function LoadTarget(q: Queue, ranges: RangeTable, prior: Prior): LoadResult
  {
    match Lane(prior)
    case None => Aborted
    case Some(lane) =>
      if ranges[lane].size == 0 then InvalidRange
      else
        match FirstClear(q.bits, ranges[lane].first, SyncMap.Min(Upper(ranges[lane]), |q.bucket|))
        case None => Full
        case Some(index) => Loaded(index)
  }

  function Load(q: Queue, ranges: RangeTable, payload: Payload, prior: Prior): Queue
  {
    match LoadTarget(q, ranges, prior)
    case Loaded(index) => Fill(q, Lane(prior).value, index, payload)
    case _ => q
  }

  function Fill(q: Queue, lane: nat, index: nat, payload: Payload): Queue
    requires lane < 4 && index < |q.bucket|
  {
    Queue(q.bits + {index}, q.presence[lane := Up(q.presence[lane])], q.bucket[index := payload])
  }

  /** What decides a load, for any queue and any ranges: an end marker stops the program, an empty range
  is invalid, and otherwise the lowest clear position of the range below both its end and that of the
  map is taken, unless there is none. */
  lemma LoadDecides(q: Queue, ranges: RangeTable, prior: Prior)
    ensures var r := LoadTarget(q, ranges, prior);
      && (r == Aborted <==> prior == MteMin || prior == MteMax)
      && (r != Aborted ==>
           var range := ranges[(8 - Rank(prior)) / 2];
           && (r == InvalidRange <==> range.size == 0)
           && (r == Full <==> range.size != 0 && forall j :: CanTake(q, range, j) ==> j in q.bits)
           && (r.Loaded? ==>
                && CanTake(q, range, r.index) && r.index !in q.bits
                && forall j :: CanTake(q, range, j) && j !in q.bits ==> r.index <= j))
  {
    LaneFollowsRank(prior);
  }

  /** A position that a load into the range may take. */
  predicate CanTake(q: Queue, range: Range, j: nat)
  {
    range.first <= j < |q.bucket| && j < (range.first + range.size) % 0x1_0000_0000
  }

  // ---------------------------------------------------------------- unloading

  /** The first range that starts at or below the index; none stops the program. */
  function LaneOf(ranges: RangeTable, index: nat, i: nat): (lane: Option<nat>)
    requires i <= 4
    ensures lane.Some? ==> i <= lane.value < 4
    decreases 4 - i
  {
    if i == 4 then None
    else if ranges[i].size > 0 && index >= ranges[i].first then Some(i)
    else LaneOf(ranges, index, i + 1)
  }

  function Unload(q: Queue, ranges: RangeTable, index: nat): Queue
  {
    if index >= |q.bucket| then q
    else
      match LaneOf(ranges, index, 0)
      case None => q.(bits := q.bits - {index})
      case Some(lane) => Empty(q, lane, index)
  }

  function Empty(q: Queue, lane: nat, index: nat): Queue
    requires lane < 4
  {
    q.(bits := q.bits - {index}, presence := q.presence[lane := Down(q.presence[lane])])
  }

  /** Atomic subtraction of one in 32 bits. */
  function OneLess(x: U32): U32
  {
    if x == 0 then 0xffff_ffff else x - 1
  }

  /** What giving a bucket back does to any queue: nothing behind the last bucket, and otherwise the bit
  and one of the count of the range of the index are taken away, and nothing else. */
  lemma UnloadDecides(q: Queue, ranges: RangeTable, index: nat)
    ensures var u := Unload(q, ranges, index);
      && u.bucket == q.bucket
      && (index >= |q.bucket| ==> u == q)
      && (index < |q.bucket| ==>
           && index !in u.bits && (forall j :: j != index ==> (j in u.bits <==> j in q.bits))
           && forall i :: 0 <= i < 4 ==>
                u.presence[i] == if LaneOf(ranges, index, 0) == Some(i) then OneLess(q.presence[i]) else q.presence[i])
  {
  }

  /** The range to unload from, and the dispositions used up so far. */
  datatype Choice = Choice(lane: nat, disp: Lanes)

  function Choose(presence: Lanes, ranges: RangeTable, disp: Lanes, i: nat): (c: Choice)
    requires i <= 3
    ensures i <= c.lane <= 3
    decreases 3 - i
  {
    if i == 3 then Choice(3, disp)
    else if presence[i] > 0 && disp[i] < ranges[i].perLow then Choice(i, disp)
    else Choose(presence, ranges, if presence[i] > 0 then disp[i := 0] else disp, i + 1)
  }

  /** Range i counts something and has not used up its pops. */
  predicate Eligible(presence: Lanes, ranges: RangeTable, disp: Lanes, i: nat)
    requires i < 4
  {
    presence[i] > 0 && disp[i] < ranges[i].perLow
  }

  /** The choice is the first eligible one of the upper three ranges, or else the lowest range, whatever
  it counts; the ranges passed over that count something get their pops back. */
  lemma {:induction false} ChooseExactly(presence: Lanes, ranges: RangeTable, disp: Lanes, i: nat)
    requires i <= 3
    ensures var c := Choose(presence, ranges, disp, i);
      && (c.lane < 3 ==> Eligible(presence, ranges, disp, c.lane))
      && (forall k :: i <= k < c.lane ==> !Eligible(presence, ranges, disp, k))
      && forall k :: 0 <= k < 4 ==> c.disp[k] == if i <= k < c.lane && presence[k] > 0 then 0 else disp[k]
    decreases 3 - i
  {
    if i < 3 && !Eligible(presence, ranges, disp, i) {
      ChooseExactly(presence, ranges, if presence[i] > 0 then disp[i := 0] else disp, i + 1);
    }
  }

  /** The bucket that the unsignal search takes from a range. */
  function UnloadTarget(q: Queue, ranges: RangeTable, lane: nat): (index: Option<nat>)
    requires lane < 4
    ensures index.Some? ==> index.value < |q.bucket| && index.value in q.bits
  {
    UnsigTarget(q.bits, |q.bucket|, ranges[lane].first, Upper(ranges[lane]))
  }

  // ---------------------------------------------------------------- one scheduler cycle

  predicate AnyPresence(presence: Lanes)
  {
    presence[0] != 0 || presence[1] != 0 || presence[2] != 0 || presence[3] != 0
  }

  /** The queue, the dispositions and what was handed to a worker. */
  datatype Cycle = Cycle(queue: Queue, disp: Lanes, delivered: Option<Payload>)

  /** The index that the scheduler is told is kept in eight bits. */
  function Told(index: nat): nat
  {
    index % 0x100
  }

  function Pop(q: Queue, ranges: RangeTable, disp: Lanes): Cycle
  {
    if !AnyPresence(q.presence) then Cycle(q, disp, None)
    else
      var c := Choose(q.presence, ranges, disp, 0);
      match UnloadTarget(q, ranges, c.lane)
      case None => Cycle(q, c.disp, None)
      case Some(index) =>
        var taken := q.(bits := q.bits - {index});
        Cycle(Unload(taken, ranges, Told(index)), c.disp, Some(q.bucket[Told(index)]))
  }
}
