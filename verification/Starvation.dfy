/** The lasting effect of a collision: the count that no bit backs keeps the scheduler from everything
less urgent. */
module Starvation {
  import opened Wrappers
  import opened Ranges
  import opened PriorityQueue
  import opened QueueRuns
  import opened Producers
  import opened Races

  // ---------------------------------------------------------------- what the buckets hold

  /** A bucket holds a payload of its own range, or still its first contents. */
  predicate Filed(s: Threads, ranges: RangeTable, blank: Payload)
  {
    forall j :: 0 <= j < |s.ledger.bucket| ==> FiledAt(s.ledger.bucket, ranges, blank, j)
  }

  predicate FiledAt(bucket: seq<Payload>, ranges: RangeTable, blank: Payload, j: nat)
    requires j < |bucket|
  {
    bucket[j] == blank || (LaneOf(ranges, j, 0).Some? && Lane(bucket[j].priority) == LaneOf(ranges, j, 0))
  }

  lemma NextProducers(s: Threads, ranges: RangeTable, e: Access)
    requires ProducersInv(s, ranges)
    ensures ProducersInv(Next(s, ranges, e), ranges)
  {
  }

  lemma NextFiled(s: Threads, ranges: RangeTable, n: nat, blank: Payload, e: Access)
    requires Ready(ranges, n) && ProducersInv(s, ranges) && Filed(s, ranges, blank)
    ensures Filed(Next(s, ranges, e), ranges, blank)
  {
    if e.Copy? && e.p < |s.producers| && s.producers[e.p].Marked? {
      assert ProducerInv(s.producers[e.p], ranges);
      InOne(ranges, n, s.producers[e.p].lane, s.producers[e.p].j);
      var bucket := Next(s, ranges, e).ledger.bucket;
      forall j | 0 <= j < |bucket| ensures FiledAt(bucket, ranges, blank, j) {
        assert FiledAt(s.ledger.bucket, ranges, blank, j);
      }
    }
  }

  lemma {:induction false} RunFiled(s: Threads, ranges: RangeTable, n: nat, blank: Payload, accesses: seq<Access>)
    requires Ready(ranges, n) && ProducersInv(s, ranges) && Filed(s, ranges, blank)
    ensures Filed(Producers.Run(s, ranges, accesses), ranges, blank)
    decreases |accesses|
  {
    if accesses != [] {
      NextProducers(s, ranges, accesses[0]);
      NextFiled(s, ranges, n, blank, accesses[0]);
      RunFiled(Next(s, ranges, accesses[0]), ranges, n, blank, accesses[1..]);
    }
  }

  // ---------------------------------------------------------------- a range that counts and is empty

  /** Nobody is pushing into the range. */
  predicate NoneEntering(s: Threads, ranges: RangeTable, lane: nat)
  {
    ProducersInv(s, ranges)
    && forall p :: 0 <= p < |s.producers| ==> s.producers[p].Idle? || s.producers[p].lane != lane
  }

  /** The scheduler has not got past the range, nor to a bucket of it. */
  predicate NotPast(c: Scheduler, ranges: RangeTable, lane: nat)
    requires lane < 4
  {
    match c
    case Resting => true
    case Reading(i) => i <= lane
    case Chosen(l) => l <= lane
    case Spotted(l, j) => l < lane && In(ranges[l], j)
    case Cleared(l, j) => l < lane && In(ranges[l], j)
    case Taken(l, j) => l < lane && In(ranges[l], j)
    case Released(l, j) => l < lane && In(ranges[l], j)
  }

  /** The range counts something and has no set bit. */
  predicate Phantom(s: Threads, ranges: RangeTable, lane: nat)
    requires lane < 4
  {
    s.presence[lane] > 0 && forall j :: j in s.bits ==> !In(ranges[lane], j)
  }

  predicate Barren(s: Threads, ranges: RangeTable, lane: nat)
    requires lane < 4
  {
    s.disp == NONE_USED && Phantom(s, ranges, lane) && NoneEntering(s, ranges, lane) && NotPast(s.sched, ranges, lane)
  }

  /** A push into the range. */
  predicate Enters(e: Access, lane: nat)
  {
    e.Find? && Lane(e.payload.priority) == Some(lane)
  }

  lemma ProducerLeavesBarren(s: Threads, ranges: RangeTable, n: nat, lane: nat, e: Access)
    requires Ready(ranges, n) && lane < 4 && Barren(s, ranges, lane)
    requires ByProducer(e) && e.p < |s.producers| && !Enters(e, lane)
    ensures Barren(Next(s, ranges, e), ranges, lane)
  {
    NextProducers(s, ranges, e);
    assert ProducerInv(s.producers[e.p], ranges);
    if e.Mark? && s.producers[e.p].Found? {
      InOne(ranges, n, s.producers[e.p].lane, s.producers[e.p].j);
    }
  }

  lemma ChoosingLeavesBarren(s: Threads, ranges: RangeTable, n: nat, lane: nat, e: Access)
    requires Ready(ranges, n) && lane < 4 && Barren(s, ranges, lane) && !ByProducer(e)
    requires s.sched.Resting? || s.sched.Reading? || s.sched.Chosen?
    ensures Barren(Next(s, ranges, e), ranges, lane)
  {
    assert forall i :: 0 <= i < 4 ==> Roomy(ranges[i]);
  }

  lemma UnloadingLeavesBarren(s: Threads, ranges: RangeTable, n: nat, lane: nat, e: Access)
    requires Ready(ranges, n) && n <= 256 && lane < 4 && Barren(s, ranges, lane) && !ByProducer(e)
    requires s.sched.Spotted? || s.sched.Cleared? || s.sched.Taken? || s.sched.Released?
    ensures Barren(Next(s, ranges, e), ranges, lane)
  {
    InOne(ranges, n, s.sched.lane, s.sched.j);
  }

  lemma SchedulerLeavesBarren(s: Threads, ranges: RangeTable, n: nat, lane: nat, e: Access)
    requires Ready(ranges, n) && n <= 256 && lane < 4 && Barren(s, ranges, lane) && !ByProducer(e)
    ensures Barren(Next(s, ranges, e), ranges, lane)
  {
    if s.sched.Resting? || s.sched.Reading? || s.sched.Chosen? {
      ChoosingLeavesBarren(s, ranges, n, lane, e);
    } else {
      UnloadingLeavesBarren(s, ranges, n, lane, e);
    }
  }

  /** What a step delivers. */
  predicate DeliversBefore(old_: seq<Payload>, new_: seq<Payload>, blank: Payload, lane: nat)
  {
    && |old_| <= |new_| && new_[..|old_|] == old_
    && forall k :: |old_| <= k < |new_| ==> new_[k] == blank || MoreUrgent(new_[k], lane)
  }

  predicate MoreUrgent(p: Payload, lane: nat)
  {
    Lane(p.priority).Some? && Lane(p.priority).value < lane
  }

  lemma StepDelivers(s: Threads, ranges: RangeTable, n: nat, blank: Payload, lane: nat, e: Access)
    requires Ready(ranges, n) && lane < 4 && Barren(s, ranges, lane) && Filed(s, ranges, blank)
    ensures DeliversBefore(s.ledger.delivered, Next(s, ranges, e).ledger.delivered, blank, lane)
  {
    if e.Take? && s.sched.Cleared? {
      InOne(ranges, n, s.sched.lane, s.sched.j);
      assert s.sched.j < |s.ledger.bucket| ==> FiledAt(s.ledger.bucket, ranges, blank, s.sched.j);
    }
  }

  lemma DeliversOn(a: seq<Payload>, b: seq<Payload>, c: seq<Payload>, blank: Payload, lane: nat)
    requires DeliversBefore(a, b, blank, lane) && DeliversBefore(b, c, blank, lane)
    ensures DeliversBefore(a, c, blank, lane)
  {
    assert c[..|a|] == c[..|b|][..|a|];
    forall k | |a| <= k < |c| ensures c[k] == blank || MoreUrgent(c[k], lane) {
      if k < |b| {
        assert c[k] == c[..|b|][k] == b[k];
      }
    }
  }

  /** While a range counts something and has no set bit, and nobody pushes into it, no payload of that
  range or a less urgent one is delivered, whatever the other threads do. */
  lemma {:induction false} Starves(s: Threads, ranges: RangeTable, n: nat, blank: Payload, lane: nat,
                                   accesses: seq<Access>)
    requires Ready(ranges, n) && n <= 256 && lane < 4 && Barren(s, ranges, lane) && Filed(s, ranges, blank)
    requires forall e :: e in accesses ==> !Enters(e, lane)
    ensures var after := Producers.Run(s, ranges, accesses);
      Barren(after, ranges, lane) && DeliversBefore(s.ledger.delivered, after.ledger.delivered, blank, lane)
    decreases |accesses|
  {
    if accesses != [] {
      var e := accesses[0];
      var t := Next(s, ranges, e);
      if !ByProducer(e) {
        SchedulerLeavesBarren(s, ranges, n, lane, e);
      } else if e.p < |s.producers| {
        ProducerLeavesBarren(s, ranges, n, lane, e);
      }
      StepDelivers(s, ranges, n, blank, lane, e);
      NextFiled(s, ranges, n, blank, e);
      Starves(t, ranges, n, blank, lane, accesses[1..]);
      DeliversOn(s.ledger.delivered, t.ledger.delivered, Producers.Run(t, ranges, accesses[1..]).ledger.delivered,
                 blank, lane);
    }
  }

  // ---------------------------------------------------------------- every collision does it

  lemma ReachedFiled(s: Threads, ranges: RangeTable, n: nat, blank: Payload, producers: nat, accesses: seq<Access>)
    requires Reached(s, ranges, n, blank, producers, accesses)
    ensures Filed(s, ranges, blank)
  {
    RunFiled(Start(n, blank, producers), ranges, n, blank, accesses);
  }

  /** A range that is empty between operations counts something exactly when it has had a collision. */
  lemma CollisionIsPhantom(s: Threads, ranges: RangeTable, n: nat, blank: Payload, producers: nat,
                           accesses: seq<Access>, lane: nat)
    requires Reached(s, ranges, n, blank, producers, accesses) && lane < 4 && Quiet(s)
    requires forall j :: j in s.bits ==> !In(ranges[lane], j)
    ensures Barren(s, ranges, lane) <==> s.collisions[lane] > 0
  {
    assert Within(s.bits, ranges[lane]) == {};
    QuietCountsExactly(s, ranges, n, blank, producers, accesses, lane);
    ReachedInv(s, ranges, n, blank, producers, accesses);
  }

  /** One collision is enough. Once its range is empty between operations, only what is more urgent is
  ever delivered, in every interleaving, until somebody pushes into that range again. */
  lemma CollisionStarves(s: Threads, ranges: RangeTable, n: nat, blank: Payload, producers: nat,
                         accesses: seq<Access>, lane: nat, later: seq<Access>)
    requires Reached(s, ranges, n, blank, producers, accesses) && lane < 4 && Quiet(s) && s.collisions[lane] > 0
    requires forall j :: j in s.bits ==> !In(ranges[lane], j)
    requires forall e :: e in later ==> !Enters(e, lane)
    ensures DeliversBefore(s.ledger.delivered, Producers.Run(s, ranges, later).ledger.delivered, blank, lane)
  {
    CollisionIsPhantom(s, ranges, n, blank, producers, accesses, lane);
    ReachedFiled(s, ranges, n, blank, producers, accesses);
    Starves(s, ranges, n, blank, lane, later);
  }

  /** After the race of two producers for one bucket nothing less urgent than their payloads is ever
  delivered, until somebody pushes into their range again. */
  lemma {:induction false} RaceStarves(ranges: RangeTable, n: nat, lane: nat, blank: Payload, j: nat, a: Payload,
                                       b: Payload, later: seq<Access>)
    requires Bucket(ranges, n, lane, j) && OfLane(lane, a) && OfLane(lane, b)
    requires forall e :: e in later ==> !Enters(e, lane)
    ensures var raced := BothFindOne(a, b, j) + Unloading(lane, j);
      DeliversBefore([b], Producers.Run(Start(n, blank, 2), ranges, raced + later).ledger.delivered, blank, lane)
  {
    var raced := BothFindOne(a, b, j) + Unloading(lane, j);
    var s := Producers.Run(Start(n, blank, 2), ranges, raced);
    ProducersRace(ranges, n, lane, blank, j, a, b);
    RunOn(Start(n, blank, 2), ranges, raced, later);
    CollisionStarves(s, ranges, n, blank, 2, raced, lane, later);
  }
}
