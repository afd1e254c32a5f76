/** Draining the 64-bucket queue: when cycles succeed, and how many empty it. */
module Drain {
  import opened Wrappers
  import opened Bits
  import opened Ranges
  import opened SyncMap
  import opened PriorityQueue
  import opened QueueRuns

  /** Every bucket of the most urgent range is filled. */
  ghost predicate UrgentFull(q: Queue, ranges: RangeTable)
  {
    forall j :: In(ranges[0], j) ==> j in q.bits
  }

  predicate Small(s: System, ranges: RangeTable)
  {
    Inv(s, ranges) && |s.queue.bucket| == 64
  }

  // ---------------------------------------------------------------- one cycle

  /** A counted range holds a set bit exactly when its counter is not zero. */
  lemma SomeBit(q: Queue, ranges: RangeTable, lane: nat)
    requires Counted(q, ranges) && lane < 4
    ensures q.presence[lane] > 0 <==> exists j :: j in q.bits && In(ranges[lane], j)
  {
    if q.presence[lane] > 0 {
      var j :| j in Within(q.bits, ranges[lane]);
      assert j in q.bits && In(ranges[lane], j);
    } else {
      assert Within(q.bits, ranges[lane]) == {};
      assert forall j :: j in q.bits && In(ranges[lane], j) ==> j in Within(q.bits, ranges[lane]);
    }
  }

  /** With one word, the unsignal search of a range that holds a set bit fails exactly when all
  positions from its first one upward are set. */
  lemma SearchFails(q: Queue, ranges: RangeTable, lane: nat)
    requires Ready(ranges, 64) && |q.bucket| == 64 && lane < 4
    requires exists j :: j in q.bits && In(ranges[lane], j)
    ensures UnloadTarget(q, ranges, lane).None? <==> forall j :: ranges[lane].first <= j < 64 ==> j in q.bits
  {
    UpperIsEnd(ranges, 64, lane);
    var j :| j in q.bits && In(ranges[lane], j);
    assert ranges[lane].first / 64 == 0;
    assert FirstSet(q.bits, ranges[lane].first, End(ranges[lane])).Some?;
  }

  /** A most urgent range other than the first is empty above itself. */
  lemma EmptyAbove(q: Queue, ranges: RangeTable, lane: nat)
    requires Good(q, ranges) && |q.bucket| == 64 && MostUrgent(q.presence, lane)
    ensures (forall j :: ranges[lane].first <= j < 64 ==> j in q.bits) <==> UrgentFull(q, ranges)
    ensures lane != 0 ==> !UrgentFull(q, ranges)
  {
    var top := ranges[0].first;
    assert Roomy(ranges[0]);
    assert In(ranges[0], top);
    if lane != 0 {
      SomeBit(q, ranges, 0);
      assert top !in q.bits;
    } else {
      assert forall j :: ranges[0].first <= j < 64 <==> In(ranges[0], j);
    }
  }

  /** A cycle on the 64-bucket queue delivers exactly when something is queued and the most urgent
  range is not full. */
  lemma {:induction false} PopSucceedsExactly(q: Queue, ranges: RangeTable)
    requires Good(q, ranges) && |q.bucket| == 64
    ensures Pop(q, ranges, NONE_USED).delivered.Some? <==> Total(q.presence) > 0 && !UrgentFull(q, ranges)
  {
    PopEffect(q, ranges);
    if AnyPresence(q.presence) {
      ChoosesMostUrgent(q.presence, ranges);
      var lane := Choose(q.presence, ranges, NONE_USED, 0).lane;
      SomeBit(q, ranges, lane);
      SearchFails(q, ranges, lane);
      EmptyAbove(q, ranges, lane);
    }
  }

  /** A delivery takes one from the total and leaves room in the most urgent range. */
  lemma {:induction false} PopTakesOne(q: Queue, ranges: RangeTable)
    requires Good(q, ranges) && |q.bucket| == 64 && Pop(q, ranges, NONE_USED).delivered.Some?
    ensures var after := Pop(q, ranges, NONE_USED).queue;
      Total(after.presence) == Total(q.presence) - 1 && (!UrgentFull(q, ranges) ==> !UrgentFull(after, ranges))
  {
    PopEffect(q, ranges);
    var after := Pop(q, ranges, NONE_USED).queue;
    var j := PopTarget(q, ranges).value;
    LaneOfExact(ranges, |q.bucket|, j);
    forall i | 0 <= i < 4
      ensures q.presence[i] as nat == after.presence[i] as nat + if In(ranges[i], j) then 1 else 0
    {
      WithinEmpty(q.bits, ranges[i], j);
    }
  }

  // ---------------------------------------------------------------- draining

  function Cycles(k: nat): (events: seq<Event>)
    ensures |events| == k && forall i :: 0 <= i < k ==> events[i] == PopCycle
  {
    seq(k, _ => PopCycle)
  }

  /** While the most urgent range is not full, each of the first total-presence cycles delivers. */
  lemma {:induction false} EachCycleDelivers(s: System, ranges: RangeTable, k: nat)
    requires Small(s, ranges) && !UrgentFull(s.queue, ranges) && k <= Total(s.queue.presence)
    ensures var after := Run(s, ranges, Cycles(k));
      && Small(after, ranges) && Total(after.queue.presence) == Total(s.queue.presence) - k
      && |after.delivered| == |s.delivered| + k && after.pushed == s.pushed
    decreases k
  {
    if k != 0 {
      PopSucceedsExactly(s.queue, ranges);
      PopTakesOne(s.queue, ranges);
      StepKeeps(s, ranges, PopCycle);
      assert Cycles(k)[1..] == Cycles(k - 1);
      EachCycleDelivers(Step(s, ranges, PopCycle), ranges, k - 1);
    }
  }

  /** A queue that counts nothing holds nothing. */
  lemma CountsNothing(q: Queue, ranges: RangeTable)
    requires Good(q, ranges) && Total(q.presence) == 0
    ensures q.bits == {} && Content(q) == multiset{}
  {
    forall j | j in q.bits ensures false {
      LaneOfExact(ranges, |q.bucket|, j);
      SomeBit(q, ranges, LaneOf(ranges, j, 0).value);
    }
    assert q.bits == {};
    NothingQueued(q.bucket, |q.bucket|);
  }

  /** A reachable queue whose most urgent range is not full is emptied by exactly as many cycles as
  its counters total, each of them delivering, and everything pushed has then been delivered. */
  lemma {:induction false} Drains(s: System, ranges: RangeTable)
    requires Small(s, ranges) && !UrgentFull(s.queue, ranges)
    ensures var total := Total(s.queue.presence);
      var after := Run(s, ranges, Cycles(total));
      && after.queue.bits == {} && |after.delivered| == |s.delivered| + total
      && after.pushed == s.pushed == multiset(after.delivered)
  {
    EachCycleDelivers(s, ranges, Total(s.queue.presence));
    CountsNothing(Run(s, ranges, Cycles(Total(s.queue.presence))).queue, ranges);
  }

  // ---------------------------------------------------------------- stuck

  lemma {:induction false} StuckStep(s: System, ranges: RangeTable, e: Event)
    requires Small(s, ranges) && UrgentFull(s.queue, ranges)
    ensures var after := Step(s, ranges, e);
      Small(after, ranges) && UrgentFull(after.queue, ranges) && after.delivered == s.delivered
  {
    StepKeeps(s, ranges, e);
    match e
    case Push(p) =>
      PushEffect(s.queue, ranges, p);
    case PopCycle =>
      PopSucceedsExactly(s.queue, ranges);
      PopEffect(s.queue, ranges);
  }

  /** Once the most urgent range of the 64-bucket queue is full, nothing is ever delivered again,
  whatever is pushed and however often the scheduler tries. */
  lemma {:induction false} StuckForever(s: System, ranges: RangeTable, events: seq<Event>)
    requires Small(s, ranges) && UrgentFull(s.queue, ranges)
    ensures var after := Run(s, ranges, events);
      UrgentFull(after.queue, ranges) && after.delivered == s.delivered
    decreases |events|
  {
    if events != [] {
      StuckStep(s, ranges, events[0]);
      StuckForever(Step(s, ranges, events[0]), ranges, events[1..]);
    }
  }

  /** A range that counts as many bits as it has positions is full. */
  lemma FullWhenCounted(q: Queue, ranges: RangeTable)
    requires Counted(q, ranges) && q.presence[0] as nat >= ranges[0].size
    ensures UrgentFull(q, ranges)
  {
    forall j | In(ranges[0], j) ensures j in q.bits {
      if j !in q.bits {
        WithinFill(q.bits, ranges[0], j);
        WithinFits(q.bits + {j}, ranges[0]);
      }
    }
  }

  /** A most urgent push fills the range further, or finds it full. */
  lemma {:induction false} UrgentPush(s: System, ranges: RangeTable, p: Payload)
    requires Small(s, ranges) && Lane(p.priority) == Some(0)
    ensures var after := Step(s, ranges, Push(p));
      && Small(after, ranges) && after.delivered == s.delivered
      && (UrgentFull(after.queue, ranges) || after.queue.presence[0] as nat == s.queue.presence[0] as nat + 1)
  {
    StepKeeps(s, ranges, Push(p));
    PushEffect(s.queue, ranges, p);
    var r := LoadTarget(s.queue, ranges, p.priority);
    if r.Loaded? {
      WithinFill(s.queue.bits, ranges[0], r.index);
    }
  }

  function Pushes(ps: seq<Payload>): (events: seq<Event>)
    ensures |events| == |ps| && forall i :: 0 <= i < |ps| ==> events[i] == Push(ps[i])
  {
    seq(|ps|, i requires 0 <= i < |ps| => Push(ps[i]))
  }

  predicate AllUrgent(ps: seq<Payload>)
  {
    forall i :: 0 <= i < |ps| ==> Lane(ps[i].priority) == Some(0)
  }

  lemma {:induction false} UrgentPushesFill(s: System, ranges: RangeTable, ps: seq<Payload>)
    requires Small(s, ranges) && AllUrgent(ps)
    requires UrgentFull(s.queue, ranges) || s.queue.presence[0] as nat + |ps| >= ranges[0].size
    ensures var after := Run(s, ranges, Pushes(ps));
      Small(after, ranges) && UrgentFull(after.queue, ranges) && after.delivered == s.delivered
    decreases |ps|
  {
    if ps == [] {
      if !UrgentFull(s.queue, ranges) {
        FullWhenCounted(s.queue, ranges);
      }
    } else {
      UrgentPush(s, ranges, ps[0]);
      if UrgentFull(s.queue, ranges) {
        StuckStep(s, ranges, Push(ps[0]));
      }
      assert Pushes(ps)[1..] == Pushes(ps[1..]);
      UrgentPushesFill(Step(s, ranges, Push(ps[0])), ranges, ps[1..]);
    }
  }

  /** As many most urgent pushes as that range has buckets, with no cycle between them, stop the
  64-bucket queue for good. */
  lemma UrgentBurstSticks(ranges: RangeTable, blank: Payload, ps: seq<Payload>, later: seq<Event>)
    requires Ready(ranges, 64) && AllUrgent(ps) && |ps| >= ranges[0].size
    ensures Run(Run(Initial(64, blank), ranges, Pushes(ps)), ranges, later).delivered == []
  {
    InitialInv(ranges, 64, blank);
    UrgentPushesFill(Initial(64, blank), ranges, ps);
    StuckForever(Run(Initial(64, blank), ranges, Pushes(ps)), ranges, later);
  }

  // ---------------------------------------------------------------- the queue that is created

  /** The default percentages make a queue of any size that is created ready. */
  lemma {:induction false} DefaultReady(n: U32)
    requires 0 < n && n % 64 == 0
    ensures Populate(DEFAULT, n).Filled? && Ready(Populate(DEFAULT, n).ranges, n)
  {
    DefaultTilesAll(n);
    PerLowAtLeastOne(DEFAULT, n);
    var ranges := Populate(DEFAULT, n).ranges;
    forall i | 0 <= i < 4 ensures Roomy(ranges[i]) {
      assert ranges[i].perLow >= 1 && ranges[i].size >= 1;
    }
  }

  /** The ranges of the scheduler's queue. */
  function SchedulerRanges(): (ranges: RangeTable)
    ensures Ready(ranges, 64)
  {
    DefaultReady(64);
    Populate(DEFAULT, 64).ranges
  }

  /** The scheduler's own queue, after any run: it can be drained, with as many cycles as its
  counters total, or it never delivers again. */
  lemma {:induction false} DefaultQueueDrainsOrSticks(blank: Payload, before: seq<Event>, later: seq<Event>)
    ensures var ranges := SchedulerRanges();
      var s := Run(Initial(64, blank), ranges, before);
      var drained := Run(s, ranges, Cycles(Total(s.queue.presence)));
      if UrgentFull(s.queue, ranges)
      then Run(s, ranges, later).delivered == s.delivered
      else drained.queue.bits == {} && multiset(drained.delivered) == s.pushed
  {
    var ranges := SchedulerRanges();
    InitialInv(ranges, 64, blank);
    RunKeeps(Initial(64, blank), ranges, before);
    var s := Run(Initial(64, blank), ranges, before);
    if UrgentFull(s.queue, ranges) {
      StuckForever(s, ranges, later);
    } else {
      Drains(s, ranges);
    }
  }
}
