/** Runs of the priority queue in which each push and each scheduler cycle is one atomic step. */
module QueueRuns {
  import opened Wrappers
  import opened Ranges
  import opened PriorityQueue

  predicate In(r: Range, j: nat)
  {
    r.first <= j < End(r)
  }

  /** The set bits that lie in a range. */
  function Within(bits: set<nat>, r: Range): set<nat>
  {
    set j | j in bits && In(r, j)
  }

  /** Ranges that tile, with room and a disposition in each. */
  predicate Ready(ranges: RangeTable, n: nat)
  {
    0 < n < 0x1_0000_0000 && n % 64 == 0 && Tiles(ranges, n) && forall i :: 0 <= i < 4 ==> Roomy(ranges[i])
  }

  predicate Roomy(r: Range)
  {
    r.size >= 1 && r.perLow >= 1
  }

  // ---------------------------------------------------------------- positions and ranges

  /** In any tiling an index is given the one range that contains it, and an index below all ranges
  is given none. */
  lemma LaneOfExact(ranges: RangeTable, n: nat, j: nat)
    requires Tiles(ranges, n) && j < n
    ensures LaneOf(ranges, j, 0).Some? <==> ranges[3].first <= j
    ensures forall i :: 0 <= i < 4 ==> (In(ranges[i], j) <==> LaneOf(ranges, j, 0) == Some(i))
  {
    var lane := LaneOf(ranges, j, 0);
    assert LaneOf(ranges, j, 4) == None;
    assert LaneOf(ranges, j, 3) == if ranges[3].size > 0 && j >= ranges[3].first then Some(3) else None;
    assert LaneOf(ranges, j, 2) == if ranges[2].size > 0 && j >= ranges[2].first then Some(2) else LaneOf(ranges, j, 3);
    assert LaneOf(ranges, j, 1) == if ranges[1].size > 0 && j >= ranges[1].first then Some(1) else LaneOf(ranges, j, 2);
  }

  /** A range below 2^32 ends where the searches believe it does. */
  lemma UpperIsEnd(ranges: RangeTable, n: nat, i: nat)
    requires Ready(ranges, n) && i < 4
    ensures Upper(ranges[i]) == End(ranges[i]) <= n
  {
  }

  lemma {:induction false} FitsInRange(bits: set<nat>, first: nat, size: nat)
    requires forall j :: j in bits ==> first <= j < first + size
    ensures |bits| <= size
    decreases size
  {
    if size == 0 {
      assert bits == {};
    } else {
      var last := first + size - 1;
      FitsInRange(bits - {last}, first, size - 1);
      if last in bits {
        assert bits == (bits - {last}) + {last};
      } else {
        assert bits == bits - {last};
      }
    }
  }

  lemma WithinFits(bits: set<nat>, r: Range)
    ensures |Within(bits, r)| <= r.size
  {
    FitsInRange(Within(bits, r), r.first, r.size);
  }

  lemma WithinFill(bits: set<nat>, r: Range, j: nat)
    requires j !in bits
    ensures |Within(bits + {j}, r)| == |Within(bits, r)| + if In(r, j) then 1 else 0
  {
    if In(r, j) {
      assert Within(bits + {j}, r) == Within(bits, r) + {j};
    } else {
      assert Within(bits + {j}, r) == Within(bits, r);
    }
  }

  lemma WithinEmpty(bits: set<nat>, r: Range, j: nat)
    requires j in bits
    ensures |Within(bits, r)| == |Within(bits - {j}, r)| + if In(r, j) then 1 else 0
  {
    WithinFill(bits - {j}, r, j);
    assert bits - {j} + {j} == bits;
  }

  // ---------------------------------------------------------------- what a queue keeps

  /** Every counter is the number of set bits in its range. */
  predicate Counted(q: Queue, ranges: RangeTable)
  {
    forall i :: 0 <= i < 4 ==> q.presence[i] == |Within(q.bits, ranges[i])|
  }

  /** Every set bit lies in some range, and its bucket has a priority of that range. */
  predicate Sorted(q: Queue, ranges: RangeTable)
  {
    forall j :: j in q.bits ==>
      j < |q.bucket| && LaneOf(ranges, j, 0).Some? && Lane(q.bucket[j].priority) == LaneOf(ranges, j, 0)
  }

  predicate Good(q: Queue, ranges: RangeTable)
  {
    Ready(ranges, |q.bucket|) && Counted(q, ranges) && Sorted(q, ranges)
  }

  /** j lies in range `lane` and in no other. */
  predicate OnlyIn(ranges: RangeTable, lane: nat, j: nat)
  {
    forall i :: 0 <= i < 4 ==> (In(ranges[i], j) <==> i == lane)
  }

  lemma FillCounts(q: Queue, ranges: RangeTable, lane: nat, j: nat, p: Payload)
    requires Counted(q, ranges) && lane < 4 && j < |q.bucket| && j !in q.bits
    requires OnlyIn(ranges, lane, j) && q.presence[lane] < 0xffff_ffff
    ensures Counted(Fill(q, lane, j, p), ranges)
  {
    forall i | 0 <= i < 4
      ensures Fill(q, lane, j, p).presence[i] == |Within(q.bits + {j}, ranges[i])|
    {
      WithinFill(q.bits, ranges[i], j);
    }
  }

  lemma EmptyCounts(q: Queue, ranges: RangeTable, lane: nat, j: nat)
    requires Counted(q, ranges) && lane < 4 && j in q.bits && OnlyIn(ranges, lane, j)
    ensures Counted(Empty(q, lane, j), ranges)
    ensures Empty(q, lane, j).presence[lane] == q.presence[lane] - 1
  {
    forall i | 0 <= i < 4
      ensures Empty(q, lane, j).presence[i] == |Within(q.bits - {j}, ranges[i])|
    {
      WithinEmpty(q.bits, ranges[i], j);
    }
  }

  lemma OnlyRange(ranges: RangeTable, n: nat, lane: nat, j: nat)
    requires Tiles(ranges, n) && lane < 4 && j < n && In(ranges[lane], j)
    ensures OnlyIn(ranges, lane, j) && LaneOf(ranges, j, 0) == Some(lane)
  {
    LaneOfExact(ranges, n, j);
  }

  lemma FillSorts(q: Queue, ranges: RangeTable, lane: nat, j: nat, p: Payload)
    requires Sorted(q, ranges) && lane < 4 && j < |q.bucket|
    requires LaneOf(ranges, j, 0) == Some(lane) && Lane(p.priority) == Some(lane)
    ensures Sorted(Fill(q, lane, j, p), ranges)
  {
  }

  lemma FillKeeps(q: Queue, ranges: RangeTable, lane: nat, j: nat, p: Payload)
    requires Good(q, ranges) && lane < 4 && j < |q.bucket| && j !in q.bits
    requires In(ranges[lane], j) && Lane(p.priority) == Some(lane)
    ensures Good(Fill(q, lane, j, p), ranges)
  {
    OnlyRange(ranges, |q.bucket|, lane, j);
    SmallCount(q, ranges, lane);
    FillCounts(q, ranges, lane, j, p);
    FillSorts(q, ranges, lane, j, p);
  }

  lemma SmallCount(q: Queue, ranges: RangeTable, lane: nat)
    requires Ready(ranges, |q.bucket|) && Counted(q, ranges) && lane < 4
    ensures q.presence[lane] <= |q.bucket| < 0xffff_ffff
  {
    UpperIsEnd(ranges, |q.bucket|, lane);
    WithinFits(q.bits, ranges[lane]);
  }

  lemma EmptyKeeps(q: Queue, ranges: RangeTable, lane: nat, j: nat)
    requires Good(q, ranges) && lane < 4 && j in q.bits && In(ranges[lane], j)
    ensures Good(Empty(q, lane, j), ranges)
    ensures Empty(q, lane, j).presence[lane] == q.presence[lane] - 1
  {
    LaneOfExact(ranges, |q.bucket|, j);
    EmptyCounts(q, ranges, lane, j);
  }

  // ---------------------------------------------------------------- what is queued

  /** The payloads in the filled buckets below m. */
  function Queued(bits: set<nat>, bucket: seq<Payload>, m: nat): multiset<Payload>
    requires m <= |bucket|
  {
    if m == 0 then multiset{}
    else Queued(bits, bucket, m - 1) + if m - 1 in bits then multiset{bucket[m - 1]} else multiset{}
  }

  lemma {:induction false} QueuedBelow(bits: set<nat>, bucket: seq<Payload>, m: nat, j: nat, p: Payload)
    requires m <= j < |bucket|
    ensures Queued(bits + {j}, bucket[j := p], m) == Queued(bits, bucket, m)
  {
    if m != 0 {
      QueuedBelow(bits, bucket, m - 1, j, p);
    }
  }

  lemma Exchange(a: multiset<Payload>, b: multiset<Payload>, c: multiset<Payload>)
    ensures a + b + c == a + c + b
  {
  }

  lemma {:induction false} QueuedFill(bits: set<nat>, bucket: seq<Payload>, m: nat, j: nat, p: Payload)
    requires m <= |bucket| && j < |bucket| && j !in bits
    ensures Queued(bits + {j}, bucket[j := p], m)
         == Queued(bits, bucket, m) + if j < m then multiset{p} else multiset{}
  {
    if m <= j {
      QueuedBelow(bits, bucket, m, j, p);
    } else if m == j + 1 {
      QueuedBelow(bits, bucket, j, j, p);
    } else {
      QueuedFill(bits, bucket, m - 1, j, p);
      Exchange(Queued(bits, bucket, m - 1), multiset{p}, if m - 1 in bits then multiset{bucket[m - 1]} else multiset{});
    }
  }

  lemma QueuedEmpty(bits: set<nat>, bucket: seq<Payload>, j: nat)
    requires j < |bucket| && j in bits
    ensures Queued(bits, bucket, |bucket|) == Queued(bits - {j}, bucket, |bucket|) + multiset{bucket[j]}
  {
    QueuedFill(bits - {j}, bucket, |bucket|, j, bucket[j]);
    assert bits - {j} + {j} == bits && bucket[j := bucket[j]] == bucket;
  }

  function Content(q: Queue): multiset<Payload>
  {
    Queued(q.bits, q.bucket, |q.bucket|)
  }

  // ---------------------------------------------------------------- pushes

  /** What a push does to a good queue: it is refused for a bad priority, blocks on a full range,
  and otherwise takes the lowest free bucket of its range. */
  lemma PushEffect(q: Queue, ranges: RangeTable, p: Payload)
    requires Good(q, ranges)
    ensures var r, after := LoadTarget(q, ranges, p.priority), Load(q, ranges, p, p.priority);
      && Good(after, ranges) && |after.bucket| == |q.bucket|
      && (r == Aborted <==> Lane(p.priority).None?) && !r.InvalidRange?
      && (r.Full? <==> Lane(p.priority).Some? && forall j :: In(ranges[Lane(p.priority).value], j) ==> j in q.bits)
      && (r.Loaded? ==>
           && In(ranges[Lane(p.priority).value], r.index) && r.index !in q.bits
           && after.bits == q.bits + {r.index} && Content(after) == Content(q) + multiset{p})
      && (!r.Loaded? ==> after == q)
  {
    var r := LoadTarget(q, ranges, p.priority);
    if Lane(p.priority).Some? {
      var lane := Lane(p.priority).value;
      UpperIsEnd(ranges, |q.bucket|, lane);
      assert Roomy(ranges[lane]);
      if r.Loaded? {
        FillKeeps(q, ranges, lane, r.index, p);
        QueuedFill(q.bits, q.bucket, |q.bucket|, r.index, p);
      }
    }
  }

  // ---------------------------------------------------------------- cycles

  const NONE_USED: Lanes := [0, 0, 0, 0]

  /** The most urgent range that is not empty. */
  predicate MostUrgent(presence: Lanes, lane: nat)
  {
    lane < 4 && presence[lane] > 0 && forall i :: 0 <= i < lane ==> presence[i] == 0
  }

  /** With no disposition used up, the choice is the most urgent range and uses none up. */
  lemma ChoosesMostUrgent(presence: Lanes, ranges: RangeTable)
    requires AnyPresence(presence) && forall i :: 0 <= i < 4 ==> Roomy(ranges[i])
    ensures var c := Choose(presence, ranges, NONE_USED, 0); c.disp == NONE_USED && MostUrgent(presence, c.lane)
  {
    assert Roomy(ranges[0]) && Roomy(ranges[1]) && Roomy(ranges[2]);
    var c3 := Choose(presence, ranges, NONE_USED, 3);
    var c2 := Choose(presence, ranges, NONE_USED, 2);
    assert c2 == if presence[2] > 0 then Choice(2, NONE_USED) else c3;
    var c1 := Choose(presence, ranges, NONE_USED, 1);
    assert c1 == if presence[1] > 0 then Choice(1, NONE_USED) else c2;
  }

  /** The bucket a cycle takes, if it takes one. */
  function PopTarget(q: Queue, ranges: RangeTable): Option<nat>
  {
    if AnyPresence(q.presence) then UnloadTarget(q, ranges, Choose(q.presence, ranges, NONE_USED, 0).lane) else None
  }

  lemma TargetInRange(q: Queue, ranges: RangeTable, lane: nat)
    requires Good(q, ranges) && lane < 4
    ensures var j := UnloadTarget(q, ranges, lane); j.Some? ==> In(ranges[lane], j.value)
  {
    UpperIsEnd(ranges, |q.bucket|, lane);
  }

  /** Eight bits can name the bucket that a cycle takes. */
  predicate Named(q: Queue, ranges: RangeTable)
  {
    PopTarget(q, ranges).Some? ==> PopTarget(q, ranges).value < 256
  }

  /** What a cycle does to a good queue: the counters and the bitmap change together, and what is
  delivered left the queue from its most urgent range. */
  lemma PopEffect(q: Queue, ranges: RangeTable)
    requires Good(q, ranges) && Named(q, ranges)
    ensures var c := Pop(q, ranges, NONE_USED);
      && Good(c.queue, ranges) && c.disp == NONE_USED && c.queue.bucket == q.bucket
      && (c.delivered.Some? <==> PopTarget(q, ranges).Some?)
      && (c.delivered.None? ==> c.queue == q)
      && (c.delivered.Some? ==>
           var j := PopTarget(q, ranges).value;
           && j in q.bits && c.delivered == Some(q.bucket[j]) && c.queue.bits == q.bits - {j}
           && LaneOf(ranges, j, 0).Some? && MostUrgent(q.presence, LaneOf(ranges, j, 0).value)
           && Content(q) == Content(c.queue) + multiset{c.delivered.value})
  {
    if AnyPresence(q.presence) {
      ChoosesMostUrgent(q.presence, ranges);
      var lane := Choose(q.presence, ranges, NONE_USED, 0).lane;
      var target := UnloadTarget(q, ranges, lane);
      TargetInRange(q, ranges, lane);
      if target.Some? {
        var j := target.value;
        LaneOfExact(ranges, |q.bucket|, j);
        PopTakes(q, ranges, lane, j);
        EmptyKeeps(q, ranges, lane, j);
        QueuedEmpty(q.bits, q.bucket, j);
      }
    }
  }

  /** The cycle clears the bit twice and names the bucket in eight bits; nothing is lost by that. */
  lemma PopTakes(q: Queue, ranges: RangeTable, lane: nat, j: nat)
    requires lane < 4 && j < |q.bucket| && j < 256 && LaneOf(ranges, j, 0) == Some(lane)
    requires AnyPresence(q.presence) && Choose(q.presence, ranges, NONE_USED, 0) == Choice(lane, NONE_USED)
    requires UnloadTarget(q, ranges, lane) == Some(j)
    ensures Pop(q, ranges, NONE_USED) == Cycle(Empty(q, lane, j), NONE_USED, Some(q.bucket[j]))
  {
    assert Told(j) == j;
    assert q.bits - {j} - {j} == q.bits - {j};
  }

  // ---------------------------------------------------------------- runs

  datatype Event = Push(payload: Payload) | PopCycle

  datatype System = System(queue: Queue, disp: Lanes, pushed: multiset<Payload>, delivered: seq<Payload>)

  function Initial(n: nat, blank: Payload): System
  {
    System(Queue({}, NONE_USED, seq(n, _ => blank)), NONE_USED, multiset{}, [])
  }

  function Step(s: System, ranges: RangeTable, e: Event): System
  {
    match e
    case Push(p) =>
      if LoadTarget(s.queue, ranges, p.priority).Loaded?
      then s.(queue := Load(s.queue, ranges, p, p.priority), pushed := s.pushed + multiset{p})
      else s
    case PopCycle =>
      var c := Pop(s.queue, ranges, s.disp);
      System(c.queue, c.disp, s.pushed,
             if c.delivered.Some? then s.delivered + [c.delivered.value] else s.delivered)
  }

  function Run(s: System, ranges: RangeTable, events: seq<Event>): System
    decreases |events|
  {
    if events == [] then s else Run(Step(s, ranges, events[0]), ranges, events[1..])
  }

  predicate Inv(s: System, ranges: RangeTable)
  {
    && Good(s.queue, ranges) && s.disp == NONE_USED
    && s.pushed == Content(s.queue) + multiset(s.delivered)
  }

  lemma {:induction false} NothingQueued(bucket: seq<Payload>, m: nat)
    requires m <= |bucket|
    ensures Queued({}, bucket, m) == multiset{}
  {
    if m != 0 {
      NothingQueued(bucket, m - 1);
    }
  }

  lemma InitialInv(ranges: RangeTable, n: nat, blank: Payload)
    requires Ready(ranges, n)
    ensures Inv(Initial(n, blank), ranges)
  {
    var q := Initial(n, blank).queue;
    NothingQueued(q.bucket, n);
    forall i | 0 <= i < 4 ensures |Within(q.bits, ranges[i])| == 0 {
      assert Within(q.bits, ranges[i]) == {};
    }
  }

  lemma StepKeeps(s: System, ranges: RangeTable, e: Event)
    requires Inv(s, ranges) && (e.PopCycle? ==> Named(s.queue, ranges))
    ensures Inv(Step(s, ranges, e), ranges) && |Step(s, ranges, e).queue.bucket| == |s.queue.bucket|
  {
    match e
    case Push(p) =>
      PushEffect(s.queue, ranges, p);
    case PopCycle =>
      PopEffect(s.queue, ranges);
      var c := Pop(s.queue, ranges, NONE_USED);
      if c.delivered.Some? {
        assert multiset(s.delivered + [c.delivered.value]) == multiset(s.delivered) + multiset{c.delivered.value};
      }
  }

  lemma {:induction false} RunKeeps(s: System, ranges: RangeTable, events: seq<Event>)
    requires Inv(s, ranges) && |s.queue.bucket| <= 256
    ensures Inv(Run(s, ranges, events), ranges) && |Run(s, ranges, events).queue.bucket| == |s.queue.bucket|
    decreases |events|
  {
    if events != [] {
      StepKeeps(s, ranges, events[0]);
      RunKeeps(Step(s, ranges, events[0]), ranges, events[1..]);
    }
  }

  /** After any run every counter is the number of filled buckets of its range, every pushed payload
  is queued or delivered exactly once, and no disposition has been used up. */
  lemma RunConserves(ranges: RangeTable, n: nat, blank: Payload, events: seq<Event>)
    requires Ready(ranges, n) && n <= 256
    ensures var s := Run(Initial(n, blank), ranges, events);
      && (forall i :: 0 <= i < 4 ==> s.queue.presence[i] == |Within(s.queue.bits, ranges[i])|)
      && |s.queue.bucket| == n && s.pushed == Queued(s.queue.bits, s.queue.bucket, n) + multiset(s.delivered)
      && s.disp == [0, 0, 0, 0]
  {
    InitialInv(ranges, n, blank);
    RunKeeps(Initial(n, blank), ranges, events);
  }

  /** No queued payload is more urgent than p, but for the other priority of p's range. */
  predicate NothingBefore(p: Payload, q: Queue)
  {
    forall j :: j in q.bits && j < |q.bucket| ==> NotAfter(p.priority, q.bucket[j].priority)
  }

  /** a is at least as urgent as b, but for two neighbours that share a range. */
  predicate NotAfter(a: Prior, b: Prior)
  {
    Rank(b) <= Rank(a) || (Rank(b) == Rank(a) + 1 && Rank(b) % 2 == 0)
  }

  lemma LowerRangeIsNotAfter(a: Prior, b: Prior)
    requires Lane(a).Some? && Lane(b).Some? && Lane(a).value <= Lane(b).value
    ensures NotAfter(a, b)
  {
    LaneFollowsRank(a);
    LaneFollowsRank(b);
  }

  /** The range of a queued payload counts something. */
  lemma QueuedIsCounted(q: Queue, ranges: RangeTable, j: nat)
    requires Good(q, ranges) && j in q.bits
    ensures j < |q.bucket| && Lane(q.bucket[j].priority).Some?
    ensures Lane(q.bucket[j].priority) == LaneOf(ranges, j, 0)
    ensures q.presence[Lane(q.bucket[j].priority).value] > 0
  {
    var lane := LaneOf(ranges, j, 0).value;
    LaneOfExact(ranges, |q.bucket|, j);
    assert j in Within(q.bits, ranges[lane]);
  }

  lemma PopsMostUrgent(q: Queue, ranges: RangeTable)
    requires Good(q, ranges) && Named(q, ranges) && Pop(q, ranges, NONE_USED).delivered.Some?
    ensures NothingBefore(Pop(q, ranges, NONE_USED).delivered.value, q)
  {
    PopEffect(q, ranges);
    var p := Pop(q, ranges, NONE_USED).delivered.value;
    forall j | j in q.bits && j < |q.bucket| ensures NotAfter(p.priority, q.bucket[j].priority) {
      QueuedIsCounted(q, ranges, j);
      LowerRangeIsNotAfter(p.priority, q.bucket[j].priority);
    }
  }

  /** After any run what a cycle delivers ranks at least as high as everything queued, up to the two
  priorities that share a range. */
  lemma {:induction false} StrictPriority(ranges: RangeTable, n: nat, blank: Payload, events: seq<Event>)
    requires Ready(ranges, n) && n <= 256
    ensures var s := Run(Initial(n, blank), ranges, events);
      var c := Pop(s.queue, ranges, s.disp);
      c.delivered.Some? ==> NothingBefore(c.delivered.value, s.queue)
  {
    InitialInv(ranges, n, blank);
    RunKeeps(Initial(n, blank), ranges, events);
    var q := Run(Initial(n, blank), ranges, events).queue;
    if Pop(q, ranges, NONE_USED).delivered.Some? {
      PopsMostUrgent(q, ranges);
    }
  }
}
