/** Runs in which producers and the scheduler get in each other's way and a payload is lost. */
module Races {
  import opened Wrappers
  import opened Ranges
  import opened PriorityQueue
  import opened QueueRuns
  import opened Producers

  lemma {:induction false} RunOn(s: Threads, ranges: RangeTable, a: seq<Access>, b: seq<Access>)
    ensures Producers.Run(s, ranges, a + b) == Producers.Run(Producers.Run(s, ranges, a), ranges, b)
    decreases |a|
  {
    if a == [] {
      assert a + b == b;
    } else {
      assert (a + b)[1..] == a[1..] + b;
      RunOn(Next(s, ranges, a[0]), ranges, a[1..], b);
    }
  }

  lemma RunSingle(s: Threads, ranges: RangeTable, x: Access)
    ensures Producers.Run(s, ranges, [x]) == Next(s, ranges, x)
  {
    assert [x][1..] == [];
  }

  lemma {:induction false} RunPair(s: Threads, ranges: RangeTable, x: Access, y: Access)
    ensures Producers.Run(s, ranges, [x, y]) == Next(Next(s, ranges, x), ranges, y)
  {
    assert [x, y][1..] == [y];
    RunSingle(Next(s, ranges, x), ranges, y);
  }

  // ---------------------------------------------------------------- undisturbed operations

  function Enter(p: nat, payload: Payload, j: nat): seq<Access>
  {
    [Find(p, payload, j), Mark(p)]
  }

  function Leave(p: nat): seq<Access>
  {
    [Copy(p), Count(p)]
  }

  /** A payload of range `lane` on its way into a clear bucket of that range. */
  predicate CanEnter(s: Threads, ranges: RangeTable, lane: nat, p: nat, payload: Payload, j: nat)
  {
    && p < |s.producers| && s.producers[p] == Idle && Lane(payload.priority) == Some(lane)
    && In(ranges[lane], j) && j !in s.bits
  }

  lemma {:induction false} EnterRun(s: Threads, ranges: RangeTable, lane: nat, p: nat, payload: Payload, j: nat)
    requires CanEnter(s, ranges, lane, p, payload, j)
    ensures Producers.Run(s, ranges, Enter(p, payload, j))
         == s.(bits := s.bits + {j}, producers := s.producers[p := Marked(lane, j, payload)])
  {
    RunPair(s, ranges, Find(p, payload, j), Mark(p));
    var found := s.(producers := s.producers[p := Found(lane, j, payload)]);
    assert Next(s, ranges, Find(p, payload, j)) == found;
    assert found.producers[p := Marked(lane, j, payload)] == s.producers[p := Marked(lane, j, payload)];
  }

  lemma {:induction false} LeaveRun(s: Threads, ranges: RangeTable, lane: nat, p: nat, payload: Payload, j: nat)
    requires lane < 4 && p < |s.producers| && s.producers[p] == Marked(lane, j, payload) && j < |s.ledger.bucket|
    ensures Producers.Run(s, ranges, Leave(p))
         == s.(presence := s.presence[lane := Up(s.presence[lane])], producers := s.producers[p := Idle],
               ledger := StoreIn(s.ledger, j, payload))
  {
    RunPair(s, ranges, Copy(p), Count(p));
    var copied := s.(producers := s.producers[p := Copied(lane, j)], ledger := StoreIn(s.ledger, j, payload));
    assert Next(s, ranges, Copy(p)) == copied;
    assert copied.producers[p := Idle] == s.producers[p := Idle];
  }

  function Reads(k: nat): (accesses: seq<Access>)
    ensures |accesses| == k
  {
    seq(k, _ => Read)
  }

  /** The scheduler comes to range `lane` and clears the bit of bucket j. */
  function Approach(lane: nat, j: nat): seq<Access>
  {
    [Test] + (Reads(lane + 1) + [Spot(j), Clear])
  }

  /** No range before `lane` counts anything. */
  predicate FirstCounted(presence: Lanes, lane: nat)
  {
    lane < 4 && presence[lane] > 0 && forall i :: 0 <= i < lane ==> presence[i] == 0
  }

  /** No range before `lane` counts anything, and bit j of that range is set. */
  predicate CanApproach(s: Threads, ranges: RangeTable, lane: nat, j: nat)
  {
    && s.sched == Resting && s.disp == NONE_USED && FirstCounted(s.presence, lane)
    && ranges[lane].perLow >= 1 && In(ranges[lane], j) && j in s.bits && j < 256
  }

  lemma {:induction false} ReadsChoose(s: Threads, ranges: RangeTable, lane: nat, i: nat)
    requires s.disp == NONE_USED && FirstCounted(s.presence, lane) && ranges[lane].perLow >= 1
    requires i <= lane && s.sched == Reading(i)
    ensures Producers.Run(s, ranges, Reads(lane + 1 - i)) == s.(sched := Chosen(lane))
    decreases lane - i
  {
    assert Reads(lane + 1 - i)[1..] == Reads(lane - i);
    if i < lane {
      ReadsChoose(s.(sched := Reading(i + 1)), ranges, lane, i + 1);
    } else {
      assert Next(s, ranges, Read) == s.(sched := Chosen(lane));
    }
  }

  lemma {:induction false} SpotAndClear(s: Threads, ranges: RangeTable, lane: nat, j: nat)
    requires s.sched == Chosen(lane) && lane < 4 && In(ranges[lane], j) && j in s.bits && j < 256
    ensures Producers.Run(s, ranges, [Spot(j), Clear]) == s.(bits := s.bits - {j}, sched := Cleared(lane, j))
  {
    RunPair(s, ranges, Spot(j), Clear);
  }

  lemma {:induction false} ApproachRun(s: Threads, ranges: RangeTable, lane: nat, j: nat)
    requires CanApproach(s, ranges, lane, j)
    ensures Producers.Run(s, ranges, Approach(lane, j)) == s.(bits := s.bits - {j}, sched := Cleared(lane, j))
  {
    RunOn(s, ranges, [Test], Reads(lane + 1) + [Spot(j), Clear]);
    RunSingle(s, ranges, Test);
    RunOn(s.(sched := Reading(0)), ranges, Reads(lane + 1), [Spot(j), Clear]);
    ReadsChoose(s.(sched := Reading(0)), ranges, lane, 0);
    SpotAndClear(s.(sched := Chosen(lane)), ranges, lane, j);
  }

  lemma {:induction false} TakeRun(s: Threads, ranges: RangeTable, lane: nat, j: nat)
    requires s.sched == Cleared(lane, j)
    ensures Producers.Run(s, ranges, [Take])
         == s.(sched := Taken(lane, j), ledger := TakeFrom(s.ledger, j, Unfilled(s.producers, j)))
  {
    RunSingle(s, ranges, Take);
  }

  lemma {:induction false} DismissRun(s: Threads, ranges: RangeTable, lane: nat, j: nat)
    requires s.sched == Taken(lane, j) && LaneOf(ranges, j, 0) == Some(lane) && s.presence[lane] > 0
    ensures Producers.Run(s, ranges, [Release, Discount])
         == s.(bits := s.bits - {j}, sched := Resting, presence := s.presence[lane := s.presence[lane] - 1],
               collisions := if j in s.bits then Collide(s, lane) else s.collisions)
  {
    RunPair(s, ranges, Release, Discount);
  }

  /** A whole push. */
  function Pushing(p: nat, payload: Payload, j: nat): seq<Access>
  {
    Enter(p, payload, j) + Leave(p)
  }

  lemma {:induction false} PushRun(s: Threads, ranges: RangeTable, lane: nat, p: nat, payload: Payload, j: nat)
    requires CanEnter(s, ranges, lane, p, payload, j) && j < |s.ledger.bucket|
    ensures Producers.Run(s, ranges, Pushing(p, payload, j))
         == s.(bits := s.bits + {j}, presence := s.presence[lane := Up(s.presence[lane])],
               ledger := StoreIn(s.ledger, j, payload))
  {
    RunOn(s, ranges, Enter(p, payload, j), Leave(p));
    EnterRun(s, ranges, lane, p, payload, j);
    var marked := s.(bits := s.bits + {j}, producers := s.producers[p := Marked(lane, j, payload)]);
    LeaveRun(marked, ranges, lane, p, payload, j);
    assert marked.producers[p := Idle] == s.producers;
  }

  /** A whole cycle of the scheduler. */
  function Unloading(lane: nat, j: nat): seq<Access>
  {
    Approach(lane, j) + ([Take] + [Release, Discount])
  }

  lemma {:induction false} UnloadRun(s: Threads, ranges: RangeTable, lane: nat, j: nat)
    requires CanApproach(s, ranges, lane, j) && LaneOf(ranges, j, 0) == Some(lane)
    ensures Producers.Run(s, ranges, Unloading(lane, j))
         == s.(bits := s.bits - {j}, presence := s.presence[lane := s.presence[lane] - 1],
               ledger := TakeFrom(s.ledger, j, Unfilled(s.producers, j)))
  {
    RunOn(s, ranges, Approach(lane, j), [Take] + [Release, Discount]);
    ApproachRun(s, ranges, lane, j);
    var cleared := s.(bits := s.bits - {j}, sched := Cleared(lane, j));
    var l := TakeFrom(s.ledger, j, Unfilled(s.producers, j));
    RunOn(cleared, ranges, [Take], [Release, Discount]);
    TakeRun(cleared, ranges, lane, j);
    DismissRun(cleared.(sched := Taken(lane, j), ledger := l), ranges, lane, j);
    assert s.bits - {j} - {j} == s.bits - {j};
  }

  // ---------------------------------------------------------------- three races

  const NO_CLASH: Tally := [0, 0, 0, 0]

  /** Two producers and a scheduler between operations, or with a bucket marked, on one range. */
  function State(lane: nat, bits: set<nat>, count: nat, ps: seq<Producer>, sched: Scheduler, clashes: nat,
                 l: Ledger): Threads
    requires lane < 4 && count < 10
  {
    Threads(bits, NONE_USED[lane := count], NONE_USED, ps, sched, NO_CLASH[lane := clashes], l)
  }

  /** A bucket of the range in a queue that eight bits can index. */
  predicate Bucket(ranges: RangeTable, n: nat, lane: nat, j: nat)
  {
    lane < 4 && Ready(ranges, n) && n <= 256 && In(ranges[lane], j)
  }

  predicate OfLane(lane: nat, p: Payload)
  {
    Lane(p.priority) == Some(lane)
  }

  function NewLedger(n: nat, blank: Payload): Ledger
  {
    Ledger(seq(n, _ => blank), multiset{}, [], 0)
  }

  lemma StartState(lane: nat, n: nat, blank: Payload)
    requires lane < 4
    ensures Start(n, blank, 2) == State(lane, {}, 0, [Idle, Idle], Resting, 0, NewLedger(n, blank))
  {
    assert Start(n, blank, 2).producers == [Idle, Idle];
  }

  /** Both producers find the bit before either sets it. */
  function BothFindOne(a: Payload, b: Payload, j: nat): seq<Access>
  {
    [Find(0, a, j), Find(1, b, j)] + ([Mark(0), Mark(1)] + ([Copy(0), Copy(1)] + [Count(0), Count(1)]))
  }

  lemma {:induction false} BothMark(ranges: RangeTable, lane: nat, j: nat, a: Payload, b: Payload, l: Ledger)
    requires OfLane(lane, a) && OfLane(lane, b) && In(ranges[lane], j)
    ensures Producers.Run(State(lane, {}, 0, [Idle, Idle], Resting, 0, l), ranges, [Find(0, a, j), Find(1, b, j)])
         == State(lane, {}, 0, [Found(lane, j, a), Found(lane, j, b)], Resting, 0, l)
    ensures Producers.Run(State(lane, {}, 0, [Found(lane, j, a), Found(lane, j, b)], Resting, 0, l), ranges,
                          [Mark(0), Mark(1)])
         == State(lane, {j}, 0, [Marked(lane, j, a), Marked(lane, j, b)], Resting, 1, l)
  {
    RunPair(State(lane, {}, 0, [Idle, Idle], Resting, 0, l), ranges, Find(0, a, j), Find(1, b, j));
    RunPair(State(lane, {}, 0, [Found(lane, j, a), Found(lane, j, b)], Resting, 0, l), ranges, Mark(0), Mark(1));
  }

  lemma {:induction false} BothLeave(ranges: RangeTable, lane: nat, j: nat, a: Payload, b: Payload, l: Ledger)
    requires lane < 4
    ensures Producers.Run(State(lane, {j}, 0, [Marked(lane, j, a), Marked(lane, j, b)], Resting, 1, l), ranges,
                          [Copy(0), Copy(1)])
         == State(lane, {j}, 0, [Copied(lane, j), Copied(lane, j)], Resting, 1, StoreIn(StoreIn(l, j, a), j, b))
    ensures Producers.Run(State(lane, {j}, 0, [Copied(lane, j), Copied(lane, j)], Resting, 1, l), ranges,
                          [Count(0), Count(1)])
         == State(lane, {j}, 2, [Idle, Idle], Resting, 1, l)
  {
    RunPair(State(lane, {j}, 0, [Marked(lane, j, a), Marked(lane, j, b)], Resting, 1, l), ranges, Copy(0), Copy(1));
    RunPair(State(lane, {j}, 0, [Copied(lane, j), Copied(lane, j)], Resting, 1, l), ranges, Count(0), Count(1));
  }

  lemma {:induction false} BothEnd(ranges: RangeTable, lane: nat, j: nat, a: Payload, b: Payload, l: Ledger)
    requires OfLane(lane, a) && OfLane(lane, b) && In(ranges[lane], j)
    ensures Producers.Run(State(lane, {}, 0, [Idle, Idle], Resting, 0, l), ranges, BothFindOne(a, b, j))
         == State(lane, {j}, 2, [Idle, Idle], Resting, 1, StoreIn(StoreIn(l, j, a), j, b))
  {
    var stored := StoreIn(StoreIn(l, j, a), j, b);
    BothMark(ranges, lane, j, a, b, l);
    BothLeave(ranges, lane, j, a, b, l);
    BothLeave(ranges, lane, j, a, b, stored);
    RunOn(State(lane, {}, 0, [Idle, Idle], Resting, 0, l), ranges, [Find(0, a, j), Find(1, b, j)],
          [Mark(0), Mark(1)] + ([Copy(0), Copy(1)] + [Count(0), Count(1)]));
    RunOn(State(lane, {}, 0, [Found(lane, j, a), Found(lane, j, b)], Resting, 0, l), ranges, [Mark(0), Mark(1)],
          [Copy(0), Copy(1)] + [Count(0), Count(1)]);
    RunOn(State(lane, {j}, 0, [Marked(lane, j, a), Marked(lane, j, b)], Resting, 1, l), ranges, [Copy(0), Copy(1)],
          [Count(0), Count(1)]);
  }

  lemma NobodyMarks(ps: seq<Producer>, j: nat)
    requires forall p :: 0 <= p < |ps| ==> !MarkedAt(ps[p], j)
    ensures !Unfilled(ps, j)
  {
  }

  /** Two producers race for one bucket: the queue ends empty with a counter that says one, and the
  payload stored first is lost. */
  lemma {:induction false} ProducersRace(ranges: RangeTable, n: nat, lane: nat, blank: Payload, j: nat, a: Payload,
                                         b: Payload)
    requires Bucket(ranges, n, lane, j) && OfLane(lane, a) && OfLane(lane, b)
    ensures var s := Producers.Run(Start(n, blank, 2), ranges, BothFindOne(a, b, j) + Unloading(lane, j));
      && Quiet(s) && s.bits == {} && s.presence == NONE_USED[lane := 1] && s.collisions == NO_CLASH[lane := 1]
      && s.ledger.pushed == multiset{a, b} && s.ledger.delivered == [b]
  {
    var l := NewLedger(n, blank);
    InOne(ranges, n, lane, j);
    StartState(lane, n, blank);
    BothEnd(ranges, lane, j, a, b, l);
    RunOn(Start(n, blank, 2), ranges, BothFindOne(a, b, j), Unloading(lane, j));
    var s := State(lane, {j}, 2, [Idle, Idle], Resting, 1, StoreIn(StoreIn(l, j, a), j, b));
    NobodyMarks(s.producers, j);
    UnloadRun(s, ranges, lane, j);
    assert {j} - {j} == {};
  }

  // The operations on such a state.

  lemma {:induction false} PushState(ranges: RangeTable, n: nat, lane: nat, bits: set<nat>, count: nat, l: Ledger,
                                     a: Payload, j: nat)
    requires Bucket(ranges, n, lane, j) && OfLane(lane, a) && j !in bits && count < 9 && |l.bucket| == n
    ensures Producers.Run(State(lane, bits, count, [Idle, Idle], Resting, 0, l), ranges, Pushing(0, a, j))
         == State(lane, bits + {j}, count + 1, [Idle, Idle], Resting, 0, StoreIn(l, j, a))
  {
    InOne(ranges, n, lane, j);
    PushRun(State(lane, bits, count, [Idle, Idle], Resting, 0, l), ranges, lane, 0, a, j);
  }

  lemma {:induction false} UnloadState(ranges: RangeTable, n: nat, lane: nat, bits: set<nat>, count: nat,
                                       ps: seq<Producer>, l: Ledger, j: nat)
    requires Bucket(ranges, n, lane, j) && j in bits && 0 < count < 10
    ensures Producers.Run(State(lane, bits, count, ps, Resting, 0, l), ranges, Unloading(lane, j))
         == State(lane, bits - {j}, count - 1, ps, Resting, 0, TakeFrom(l, j, Unfilled(ps, j)))
  {
    InOne(ranges, n, lane, j);
    UnloadRun(State(lane, bits, count, ps, Resting, 0, l), ranges, lane, j);
  }

  lemma {:induction false} ApproachState(ranges: RangeTable, n: nat, lane: nat, bits: set<nat>, count: nat,
                                         ps: seq<Producer>, l: Ledger, j: nat)
    requires Bucket(ranges, n, lane, j) && j in bits && 0 < count < 10
    ensures Producers.Run(State(lane, bits, count, ps, Resting, 0, l), ranges, Approach(lane, j))
         == State(lane, bits - {j}, count, ps, Cleared(lane, j), 0, l)
  {
    InOne(ranges, n, lane, j);
    ApproachRun(State(lane, bits, count, ps, Resting, 0, l), ranges, lane, j);
  }

  lemma {:induction false} EnterState(ranges: RangeTable, lane: nat, bits: set<nat>, count: nat, sched: Scheduler,
                                      l: Ledger, b: Payload, j: nat)
    requires OfLane(lane, b) && In(ranges[lane], j) && j !in bits && count < 10
    ensures Producers.Run(State(lane, bits, count, [Idle, Idle], sched, 0, l), ranges, Enter(1, b, j))
         == State(lane, bits + {j}, count, [Idle, Marked(lane, j, b)], sched, 0, l)
  {
    EnterRun(State(lane, bits, count, [Idle, Idle], sched, 0, l), ranges, lane, 1, b, j);
    assert [Idle, Idle][1 := Marked(lane, j, b)] == [Idle, Marked(lane, j, b)];
  }

  lemma {:induction false} LeaveState(ranges: RangeTable, lane: nat, bits: set<nat>, count: nat, clashes: nat,
                                      l: Ledger, b: Payload, j: nat)
    requires lane < 4 && count < 9 && j < |l.bucket|
    ensures Producers.Run(State(lane, bits, count, [Idle, Marked(lane, j, b)], Resting, clashes, l), ranges, Leave(1))
         == State(lane, bits, count + 1, [Idle, Idle], Resting, clashes, StoreIn(l, j, b))
  {
    LeaveRun(State(lane, bits, count, [Idle, Marked(lane, j, b)], Resting, clashes, l), ranges, lane, 1, b, j);
    assert [Idle, Marked(lane, j, b)][1 := Idle] == [Idle, Idle];
  }

  lemma {:induction false} DismissState(ranges: RangeTable, lane: nat, bits: set<nat>, count: nat,
                                        ps: seq<Producer>, l: Ledger, j: nat)
    requires LaneOf(ranges, j, 0) == Some(lane) && j in bits && 0 < count < 10
    ensures Producers.Run(State(lane, bits, count, ps, Taken(lane, j), 0, l), ranges, [Release, Discount])
         == State(lane, bits - {j}, count - 1, ps, Resting, 1, l)
  {
    DismissRun(State(lane, bits, count, ps, Taken(lane, j), 0, l), ranges, lane, j);
  }

  // ---------------------------------------------------------------- the scheduler races with a producer

  function Refilling(lane: nat, a: Payload, b: Payload, j: nat): seq<Access>
  {
    Pushing(0, a, j) + (Approach(lane, j) + ([Take] + Reentering(b, j)))
  }

  function Reentering(b: Payload, j: nat): seq<Access>
  {
    Enter(1, b, j) + ([Release, Discount] + Leave(1))
  }

  lemma {:induction false} DismissAndLeave(ranges: RangeTable, lane: nat, l: Ledger, b: Payload, j: nat)
    requires LaneOf(ranges, j, 0) == Some(lane) && j < |l.bucket|
    ensures Producers.Run(State(lane, {j}, 1, [Idle, Marked(lane, j, b)], Taken(lane, j), 0, l), ranges,
                          [Release, Discount] + Leave(1))
         == State(lane, {}, 1, [Idle, Idle], Resting, 1, StoreIn(l, j, b))
  {
    var m := [Idle, Marked(lane, j, b)];
    RunOn(State(lane, {j}, 1, m, Taken(lane, j), 0, l), ranges, [Release, Discount], Leave(1));
    DismissState(ranges, lane, {j}, 1, m, l, j);
    assert {j} - {j} == {};
    LeaveState(ranges, lane, {}, 0, 1, l, b, j);
  }

  lemma {:induction false} ReenteringEnds(ranges: RangeTable, lane: nat, l: Ledger, b: Payload, j: nat)
    requires LaneOf(ranges, j, 0) == Some(lane) && In(ranges[lane], j) && OfLane(lane, b) && j < |l.bucket|
    ensures Producers.Run(State(lane, {}, 1, [Idle, Idle], Taken(lane, j), 0, l), ranges, Reentering(b, j))
         == State(lane, {}, 1, [Idle, Idle], Resting, 1, StoreIn(l, j, b))
  {
    RunOn(State(lane, {}, 1, [Idle, Idle], Taken(lane, j), 0, l), ranges, Enter(1, b, j),
          [Release, Discount] + Leave(1));
    EnterState(ranges, lane, {}, 1, Taken(lane, j), l, b, j);
    assert {} + {j} == {j};
    DismissAndLeave(ranges, lane, l, b, j);
  }

  lemma {:induction false} RefillingEnds(ranges: RangeTable, n: nat, lane: nat, l: Ledger, a: Payload, b: Payload,
                                         j: nat)
    requires Bucket(ranges, n, lane, j) && OfLane(lane, a) && OfLane(lane, b) && |l.bucket| == n
    ensures Producers.Run(State(lane, {}, 0, [Idle, Idle], Resting, 0, l), ranges, Refilling(lane, a, b, j))
         == State(lane, {}, 1, [Idle, Idle], Resting, 1, StoreIn(TakeFrom(StoreIn(l, j, a), j, false), j, b))
  {
    var stored := StoreIn(l, j, a);
    var taken := TakeFrom(stored, j, false);
    assert {} + {j} == {j} && {j} - {j} == {};
    RunOn(State(lane, {}, 0, [Idle, Idle], Resting, 0, l), ranges, Pushing(0, a, j),
          Approach(lane, j) + ([Take] + Reentering(b, j)));
    PushState(ranges, n, lane, {}, 0, l, a, j);
    RunOn(State(lane, {j}, 1, [Idle, Idle], Resting, 0, stored), ranges, Approach(lane, j), [Take] + Reentering(b, j));
    ApproachState(ranges, n, lane, {j}, 1, [Idle, Idle], stored, j);
    var cleared := State(lane, {}, 1, [Idle, Idle], Cleared(lane, j), 0, stored);
    RunOn(cleared, ranges, [Take], Reentering(b, j));
    TakeRun(cleared, ranges, lane, j);
    NobodyMarks([Idle, Idle], j);
    InOne(ranges, n, lane, j);
    ReenteringEnds(ranges, lane, taken, b, j);
  }

  /** A producer refills the bucket between the two clearings of its bit: the queue ends empty with a
  counter that says one, and the second payload is lost. */
  lemma {:induction false} RefillRace(ranges: RangeTable, n: nat, lane: nat, blank: Payload, j: nat, a: Payload,
                                      b: Payload)
    requires Bucket(ranges, n, lane, j) && OfLane(lane, a) && OfLane(lane, b)
    ensures var s := Producers.Run(Start(n, blank, 2), ranges, Refilling(lane, a, b, j));
      && Quiet(s) && s.bits == {} && s.presence == NONE_USED[lane := 1] && s.collisions == NO_CLASH[lane := 1]
      && s.ledger.pushed == multiset{a, b} && s.ledger.delivered == [a]
  {
    InOne(ranges, n, lane, j);
    StartState(lane, n, blank);
    RefillingEnds(ranges, n, lane, NewLedger(n, blank), a, b, j);
  }

  function TakingEarly(lane: nat, b: Payload, j: nat): seq<Access>
  {
    Enter(1, b, j) + (Unloading(lane, j) + Leave(1))
  }

  function PushingTwo(a: Payload, c: Payload, j: nat, k: nat): seq<Access>
  {
    Pushing(0, a, j) + Pushing(0, c, k)
  }

  function TakingTwice(lane: nat, b: Payload, j: nat): seq<Access>
  {
    Unloading(lane, j) + TakingEarly(lane, b, j)
  }

  function Overtaking(lane: nat, a: Payload, b: Payload, c: Payload, j: nat, k: nat): seq<Access>
  {
    PushingTwo(a, c, j, k) + TakingTwice(lane, b, j)
  }

  lemma {:induction false} TakingEarlyEnds(ranges: RangeTable, n: nat, lane: nat, l: Ledger, b: Payload, j: nat,
                                           k: nat)
    requires Bucket(ranges, n, lane, j) && OfLane(lane, b) && j != k && |l.bucket| == n
    ensures Producers.Run(State(lane, {k}, 1, [Idle, Idle], Resting, 0, l), ranges, TakingEarly(lane, b, j))
         == State(lane, {k}, 1, [Idle, Idle], Resting, 0, StoreIn(TakeFrom(l, j, true), j, b))
  {
    InOne(ranges, n, lane, j);
    var m := [Idle, Marked(lane, j, b)];
    assert {k} + {j} - {j} == {k};
    RunOn(State(lane, {k}, 1, [Idle, Idle], Resting, 0, l), ranges, Enter(1, b, j), Unloading(lane, j) + Leave(1));
    EnterState(ranges, lane, {k}, 1, Resting, l, b, j);
    RunOn(State(lane, {k} + {j}, 1, m, Resting, 0, l), ranges, Unloading(lane, j), Leave(1));
    UnloadState(ranges, n, lane, {k} + {j}, 1, m, l, j);
    assert MarkedAt(m[1], j);
    LeaveState(ranges, lane, {k}, 0, 0, TakeFrom(l, j, true), b, j);
  }

  lemma {:induction false} TakingTwiceEnds(ranges: RangeTable, n: nat, lane: nat, l: Ledger, b: Payload, j: nat,
                                           k: nat)
    requires Bucket(ranges, n, lane, j) && OfLane(lane, b) && j != k && |l.bucket| == n
    ensures Producers.Run(State(lane, {j} + {k}, 2, [Idle, Idle], Resting, 0, l), ranges, TakingTwice(lane, b, j))
         == State(lane, {k}, 1, [Idle, Idle], Resting, 0,
                  StoreIn(TakeFrom(TakeFrom(l, j, false), j, true), j, b))
  {
    RunOn(State(lane, {j} + {k}, 2, [Idle, Idle], Resting, 0, l), ranges, Unloading(lane, j),
          TakingEarly(lane, b, j));
    UnloadState(ranges, n, lane, {j} + {k}, 2, [Idle, Idle], l, j);
    assert {j} + {k} - {j} == {k};
    NobodyMarks([Idle, Idle], j);
    TakingEarlyEnds(ranges, n, lane, TakeFrom(l, j, false), b, j, k);
  }

  lemma {:induction false} PushTwo(ranges: RangeTable, n: nat, lane: nat, l: Ledger, a: Payload, c: Payload, j: nat,
                                   k: nat)
    requires Bucket(ranges, n, lane, j) && Bucket(ranges, n, lane, k) && j != k && |l.bucket| == n
    requires OfLane(lane, a) && OfLane(lane, c)
    ensures Producers.Run(State(lane, {}, 0, [Idle, Idle], Resting, 0, l), ranges, PushingTwo(a, c, j, k))
         == State(lane, {j} + {k}, 2, [Idle, Idle], Resting, 0, StoreIn(StoreIn(l, j, a), k, c))
  {
    assert {} + {j} == {j};
    RunOn(State(lane, {}, 0, [Idle, Idle], Resting, 0, l), ranges, Pushing(0, a, j), Pushing(0, c, k));
    PushState(ranges, n, lane, {}, 0, l, a, j);
    PushState(ranges, n, lane, {j}, 1, StoreIn(l, j, a), c, k);
  }

  lemma {:induction false} OvertakingEnds(ranges: RangeTable, n: nat, lane: nat, l: Ledger, a: Payload, b: Payload,
                                          c: Payload, j: nat, k: nat)
    requires Bucket(ranges, n, lane, j) && Bucket(ranges, n, lane, k) && j != k && |l.bucket| == n
    requires OfLane(lane, a) && OfLane(lane, b) && OfLane(lane, c)
    ensures Producers.Run(State(lane, {}, 0, [Idle, Idle], Resting, 0, l), ranges, Overtaking(lane, a, b, c, j, k))
         == State(lane, {k}, 1, [Idle, Idle], Resting, 0,
                  StoreIn(TakeFrom(TakeFrom(StoreIn(StoreIn(l, j, a), k, c), j, false), j, true), j, b))
  {
    RunOn(State(lane, {}, 0, [Idle, Idle], Resting, 0, l), ranges, PushingTwo(a, c, j, k), TakingTwice(lane, b, j));
    PushTwo(ranges, n, lane, l, a, c, j, k);
    TakingTwiceEnds(ranges, n, lane, StoreIn(StoreIn(l, j, a), k, c), b, j, k);
  }

  lemma {:induction false} StoredLedger(n: nat, blank: Payload, a: Payload, c: Payload, j: nat, k: nat)
    requires j < n && k < n && j != k
    ensures var l := StoreIn(StoreIn(NewLedger(n, blank), j, a), k, c);
      && l.pushed == multiset{a, c} && l.delivered == [] && l.early == 0
      && |l.bucket| == n && l.bucket[j] == a && l.bucket[k] == c
  {
  }

  lemma {:induction false} OvertakenLedger(l: Ledger, a: Payload, b: Payload, c: Payload, j: nat, k: nat)
    requires j < |l.bucket| && k < |l.bucket| && j != k && l.bucket[j] == a && l.bucket[k] == c
    requires l.pushed == multiset{a, c} && l.delivered == [] && l.early == 0
    ensures var m := StoreIn(TakeFrom(TakeFrom(l, j, false), j, true), j, b);
      && m.pushed == multiset{a, c, b} && m.delivered == [a, a] && m.early == 1
      && |m.bucket| == |l.bucket| && m.bucket[k] == c
  {
  }

  /** A bucket is taken while its producer has set the bit and not filled it: without any collision, what
  was taken from the bucket before is delivered a second time and the new payload never. */
  lemma {:induction false} EarlyTake(ranges: RangeTable, n: nat, lane: nat, blank: Payload, a: Payload, b: Payload,
                                     c: Payload, j: nat, k: nat)
    requires Bucket(ranges, n, lane, j) && Bucket(ranges, n, lane, k) && j != k
    requires OfLane(lane, a) && OfLane(lane, b) && OfLane(lane, c)
    ensures var s := Producers.Run(Start(n, blank, 2), ranges, Overtaking(lane, a, b, c, j, k));
      && Quiet(s) && s.bits == {k} && s.presence == NONE_USED[lane := 1] && s.collisions == NO_CLASH
      && s.ledger.pushed == multiset{a, c, b} && s.ledger.delivered == [a, a] && s.ledger.early == 1
      && |s.ledger.bucket| == n && k < n && s.ledger.bucket[k] == c
  {
    InOne(ranges, n, lane, j);
    InOne(ranges, n, lane, k);
    StartState(lane, n, blank);
    OvertakingEnds(ranges, n, lane, NewLedger(n, blank), a, b, c, j, k);
    StoredLedger(n, blank, a, c, j, k);
    OvertakenLedger(StoreIn(StoreIn(NewLedger(n, blank), j, a), k, c), a, b, c, j, k);
  }
}
