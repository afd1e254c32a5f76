/** Any number of producers and the scheduler on one queue, one atomic memory access at a time. */
module Producers {
  import opened Wrappers
  import opened Ranges
  import opened PriorityQueue
  import opened QueueRuns

  /** A producer has found a clear bit of its payload's range, has set it, has filled the bucket;
  counting the bucket makes it idle again. */
  datatype Producer =
    | Idle
    | Found(lane: nat, j: nat, payload: Payload)
    | Marked(lane: nat, j: nat, payload: Payload)
    | Copied(lane: nat, j: nat)

  /** The scheduler reads the counters from the most urgent on, has chosen a range, has spotted a set
  bit of it, has cleared the bit, has taken the payload, has cleared the bit again; taking the
  bucket from the count ends the cycle. */
  datatype Scheduler =
    | Resting
    | Reading(i: nat)
    | Chosen(lane: nat)
    | Spotted(lane: nat, j: nat)
    | Cleared(lane: nat, j: nat)
    | Taken(lane: nat, j: nat)
    | Released(lane: nat, j: nat)

  type Tally = s: seq<nat> | |s| == 4 witness [0, 0, 0, 0]

  /** The buckets, what producers have stored, what the scheduler has taken, and how often it took a
  bucket whose producer had not filled it yet. */
  datatype Ledger = Ledger(bucket: seq<Payload>, pushed: multiset<Payload>, delivered: seq<Payload>, early: nat)

  /** The shared memory, the threads, and for each range how often a bit was set that was set
  already, or cleared again after a producer had set it anew. */
  datatype Threads = Threads(
    bits: set<nat>, presence: Lanes, disp: Lanes,
    producers: seq<Producer>, sched: Scheduler, collisions: Tally, ledger: Ledger)

  datatype Access =
    | Find(p: nat, payload: Payload, j: nat) | Mark(p: nat) | Copy(p: nat) | Count(p: nat)
    | Test | GiveUp | Read | Spot(j: nat) | SpotNone | Clear | Take | Release | Discount

  // ---------------------------------------------------------------- steps

  function Collide(s: Threads, lane: nat): Tally
    requires lane < 4
  {
    s.collisions[lane := s.collisions[lane] + 1]
  }

  function MarkStep(s: Threads, p: nat, lane: nat, j: nat, payload: Payload): Threads
    requires p < |s.producers| && lane < 4
  {
    s.(bits := s.bits + {j}, producers := s.producers[p := Marked(lane, j, payload)],
       collisions := if j in s.bits then Collide(s, lane) else s.collisions)
  }

  function ReleaseStep(s: Threads, lane: nat, j: nat): Threads
    requires lane < 4
  {
    s.(bits := s.bits - {j}, sched := Released(lane, j),
       collisions := if j in s.bits then Collide(s, lane) else s.collisions)
  }

  function ReadStep(s: Threads, ranges: RangeTable, i: nat): Threads
  {
    if i >= 3 then s.(sched := Chosen(3))
    else if s.presence[i] == 0 then s.(sched := Reading(i + 1))
    else if s.disp[i] < ranges[i].perLow then s.(sched := Chosen(i))
    else s.(disp := s.disp[i := 0], sched := Reading(i + 1))
  }

  /** The count is taken from the range of the index; outside all ranges the program stops. */
  function DiscountStep(s: Threads, ranges: RangeTable, j: nat): Threads
  {
    match LaneOf(ranges, j, 0)
    case None => s
    case Some(k) => s.(presence := s.presence[k := Down(s.presence[k])], sched := Resting)
  }

  /** Some producer has set the bit of bucket j and not filled the bucket yet. */
  predicate Unfilled(ps: seq<Producer>, j: nat)
  {
    exists p :: 0 <= p < |ps| && MarkedAt(ps[p], j)
  }

  predicate MarkedAt(p: Producer, j: nat)
  {
    p.Marked? && p.j == j
  }

  function StoreIn(l: Ledger, j: nat, payload: Payload): Ledger
  {
    if j < |l.bucket| then l.(bucket := l.bucket[j := payload], pushed := l.pushed + multiset{payload}) else l
  }

  function TakeFrom(l: Ledger, j: nat, unfilled: bool): Ledger
  {
    if j < |l.bucket|
    then l.(delivered := l.delivered + [l.bucket[j]], early := l.early + if unfilled then 1 else 0)
    else l
  }

  function ProducerStep(s: Threads, ranges: RangeTable, e: Access): Threads
    requires (e.Find? || e.Mark? || e.Copy? || e.Count?) && e.p < |s.producers|
  {
    match (s.producers[e.p], e)
    case (Idle, Find(p, payload, j)) =>
      (match Lane(payload.priority)
       case Some(lane) =>
         if In(ranges[lane], j) && j !in s.bits
         then s.(producers := s.producers[p := Found(lane, j, payload)])
         else s
       case None => s)
    case (Found(lane, j, payload), Mark(p)) => if lane < 4 then MarkStep(s, p, lane, j, payload) else s
    case (Marked(lane, j, payload), Copy(p)) =>
      s.(producers := s.producers[p := Copied(lane, j)], ledger := StoreIn(s.ledger, j, payload))
    case (Copied(lane, j), Count(p)) =>
      if lane < 4
      then s.(presence := s.presence[lane := Up(s.presence[lane])], producers := s.producers[p := Idle])
      else s
    case _ => s
  }

  /** From the clearing on, the scheduler knows the bucket by an index of eight bits. */
  function SchedulerStep(s: Threads, ranges: RangeTable, e: Access): Threads
  {
    match (s.sched, e)
    case (Resting, Test) => if AnyPresence(s.presence) then s.(sched := Reading(0)) else s
    case (Reading(i), GiveUp) => if i == 0 then s.(sched := Resting) else s
    case (Reading(i), Read) => ReadStep(s, ranges, i)
    case (Chosen(lane), SpotNone) => s.(sched := Resting)
    case (Chosen(lane), Spot(j)) =>
      if lane < 4 && In(ranges[lane], j) && j in s.bits then s.(sched := Spotted(lane, j)) else s
    case (Spotted(lane, j), Clear) => s.(bits := s.bits - {j}, sched := Cleared(lane, Told(j)))
    case (Cleared(lane, j), Take) =>
      s.(sched := Taken(lane, j), ledger := TakeFrom(s.ledger, j, Unfilled(s.producers, j)))
    case (Taken(lane, j), Release) => if lane < 4 then ReleaseStep(s, lane, j) else s
    case (Released(lane, j), Discount) => DiscountStep(s, ranges, j)
    case _ => s
  }

  predicate ByProducer(e: Access)
  {
    e.Find? || e.Mark? || e.Copy? || e.Count?
  }

  /** Events that cannot happen leave the system as it is. */
  function Next(s: Threads, ranges: RangeTable, e: Access): Threads
  {
    if ByProducer(e)
    then if e.p < |s.producers| then ProducerStep(s, ranges, e) else s
    else SchedulerStep(s, ranges, e)
  }

  function Run(s: Threads, ranges: RangeTable, accesses: seq<Access>): Threads
    decreases |accesses|
  {
    if accesses == [] then s
    else Run(Next(s, ranges, accesses[0]), ranges, accesses[1..])
  }

  function Start(n: nat, blank: Payload, producers: nat): Threads
  {
    Threads({}, NONE_USED, NONE_USED, seq(producers, _ => Idle), Resting, [0, 0, 0, 0],
            Ledger(seq(n, _ => blank), multiset{}, [], 0))
  }

  // ---------------------------------------------------------------- the invariant

  /** One if the producer has set a bit of the range that it has not yet counted. */
  function Owed(p: Producer, lane: nat): nat
  {
    if (p.Marked? || p.Copied?) && p.lane == lane then 1 else 0
  }

  function Pending(ps: seq<Producer>, lane: nat): nat
  {
    if ps == [] then 0 else Pending(ps[..|ps| - 1], lane) + Owed(ps[|ps| - 1], lane)
  }

  /** One if the scheduler has cleared a bit of the range that it has not yet taken from the count. */
  function Held(c: Scheduler, lane: nat): nat
  {
    if (c.Cleared? || c.Taken? || c.Released?) && c.lane == lane then 1 else 0
  }

  lemma {:induction false} PendingUpdate(ps: seq<Producer>, p: nat, x: Producer, lane: nat)
    requires p < |ps|
    ensures Pending(ps[p := x], lane) + Owed(ps[p], lane) == Pending(ps, lane) + Owed(x, lane)
  {
    var last := |ps| - 1;
    if p < last {
      assert ps[p := x][..last] == ps[..last][p := x];
      PendingUpdate(ps[..last], p, x, lane);
    } else {
      assert ps[p := x][..last] == ps[..last];
    }
  }

  /** The conservation law of one range: what the counter still misses and what it counts. */
  predicate Balanced(s: Threads, ranges: RangeTable, lane: nat)
    requires lane < 4
  {
    |Within(s.bits, ranges[lane])| + Held(s.sched, lane) + s.collisions[lane]
    == s.presence[lane] as nat + Pending(s.producers, lane)
  }

  predicate ProducerInv(p: Producer, ranges: RangeTable)
  {
    && (!p.Idle? ==> p.lane < 4 && In(ranges[p.lane], p.j))
    && (p.Found? || p.Marked? ==> Lane(p.payload.priority) == Some(p.lane))
  }

  predicate SomeFrom(presence: Lanes, i: nat)
  {
    exists k :: i <= k < 4 && presence[k] > 0
  }

  /** While the scheduler reads, some counter ahead of it is not zero; the counter of the range it
  has chosen is not zero either. */
  predicate SchedulerInv(s: Threads, ranges: RangeTable)
  {
    match s.sched
    case Resting => true
    case Reading(i) => i <= 3 && SomeFrom(s.presence, i)
    case Chosen(lane) => lane < 4 && s.presence[lane] > 0
    case Spotted(lane, j) => lane < 4 && s.presence[lane] > 0 && In(ranges[lane], j) && j in s.bits
    case Cleared(lane, j) => lane < 4 && s.presence[lane] > 0 && In(ranges[lane], j)
    case Taken(lane, j) => lane < 4 && s.presence[lane] > 0 && In(ranges[lane], j)
    case Released(lane, j) => lane < 4 && s.presence[lane] > 0 && In(ranges[lane], j)
  }

  predicate ProducersInv(s: Threads, ranges: RangeTable)
  {
    forall p :: 0 <= p < |s.producers| ==> ProducerInv(s.producers[p], ranges)
  }

  predicate Balance(s: Threads, ranges: RangeTable)
  {
    forall lane :: 0 <= lane < 4 ==> Balanced(s, ranges, lane)
  }

  predicate Inv(s: Threads, ranges: RangeTable)
  {
    && s.disp == NONE_USED
    && ProducersInv(s, ranges) && SchedulerInv(s, ranges) && Balance(s, ranges)
  }

  // ---------------------------------------------------------------- each step keeps it

  lemma InOne(ranges: RangeTable, n: nat, lane: nat, j: nat)
    requires Ready(ranges, n) && lane < 4 && In(ranges[lane], j)
    ensures OnlyIn(ranges, lane, j) && LaneOf(ranges, j, 0) == Some(lane) && j < n
  {
    UpperIsEnd(ranges, n, lane);
    OnlyRange(ranges, n, lane, j);
  }

  lemma MarkKeeps(s: Threads, ranges: RangeTable, p: nat)
    requires Inv(s, ranges) && p < |s.producers| && s.producers[p].Found?
    requires OnlyIn(ranges, s.producers[p].lane, s.producers[p].j)
    ensures Inv(MarkStep(s, p, s.producers[p].lane, s.producers[p].j, s.producers[p].payload), ranges)
  {
    var lane, j, payload := s.producers[p].lane, s.producers[p].j, s.producers[p].payload;
    var after := MarkStep(s, p, lane, j, payload);
    forall i | 0 <= i < 4 ensures Balanced(after, ranges, i) {
      assert Balanced(s, ranges, i);
      PendingUpdate(s.producers, p, Marked(lane, j, payload), i);
      if j in s.bits {
        assert s.bits + {j} == s.bits;
      } else {
        WithinFill(s.bits, ranges[i], j);
      }
    }
  }

  lemma CountingHelps(s: Threads, ranges: RangeTable, lane: nat, ps: seq<Producer>)
    requires SchedulerInv(s, ranges) && lane < 4 && s.presence[lane] < 0xffff_ffff
    ensures SchedulerInv(s.(presence := s.presence[lane := Up(s.presence[lane])], producers := ps), ranges)
  {
    if s.sched.Reading? {
      var k :| s.sched.i <= k < 4 && s.presence[k] > 0;
      var after := s.presence[lane := Up(s.presence[lane])];
      assert after[k] > 0;
    }
  }

  lemma CountKeeps(s: Threads, ranges: RangeTable, p: nat)
    requires Inv(s, ranges) && p < |s.producers| && s.producers[p].Copied?
    requires s.producers[p].lane < 4 && s.presence[s.producers[p].lane] < 0xffff_ffff
    ensures Inv(Next(s, ranges, Count(p)), ranges)
  {
    var lane := s.producers[p].lane;
    var after := Next(s, ranges, Count(p));
    CountingHelps(s, ranges, lane, after.producers);
    forall i | 0 <= i < 4 ensures Balanced(after, ranges, i) {
      assert Balanced(s, ranges, i);
      PendingUpdate(s.producers, p, Idle, i);
    }
  }

  /** A producer that moves on without touching counters or bits. */
  lemma MoveKeeps(s: Threads, ranges: RangeTable, p: nat, x: Producer, l: Ledger)
    requires Inv(s, ranges) && p < |s.producers| && ProducerInv(x, ranges)
    requires forall i :: 0 <= i < 4 ==> Owed(x, i) == Owed(s.producers[p], i)
    ensures Inv(s.(producers := s.producers[p := x], ledger := l), ranges)
  {
    var after := s.(producers := s.producers[p := x], ledger := l);
    forall i | 0 <= i < 4 ensures Balanced(after, ranges, i) {
      assert Balanced(s, ranges, i);
      PendingUpdate(s.producers, p, x, i);
    }
  }

  /** The counters have 32 bits, and what collisions add to them is never taken away again. */
  predicate Fits(s: Threads)
  {
    forall lane :: 0 <= lane < 4 ==> s.collisions[lane] < 0xffff_ffff - 0x101
  }

  lemma CountersFit(s: Threads, ranges: RangeTable, n: nat, lane: nat)
    requires Ready(ranges, n) && n <= 256 && Inv(s, ranges) && Fits(s) && lane < 4
    ensures s.presence[lane] < 0xffff_ffff
  {
    assert Balanced(s, ranges, lane);
    UpperIsEnd(ranges, n, lane);
    WithinFits(s.bits, ranges[lane]);
  }

  lemma ProducerKeeps(s: Threads, ranges: RangeTable, n: nat, e: Access)
    requires Ready(ranges, n) && n <= 256 && Inv(s, ranges) && Fits(s)
    requires ByProducer(e) && e.p < |s.producers|
    ensures Inv(Next(s, ranges, e), ranges)
  {
    var p := e.p;
    assert ProducerInv(s.producers[p], ranges);
    match (s.producers[p], e)
    case (Idle, Find(_, payload, j)) =>
      if Lane(payload.priority).Some? && In(ranges[Lane(payload.priority).value], j) {
        MoveKeeps(s, ranges, p, Found(Lane(payload.priority).value, j, payload), s.ledger);
      }
    case (Found(lane, j, payload), Mark(_)) =>
      InOne(ranges, n, lane, j);
      MarkKeeps(s, ranges, p);
    case (Marked(lane, j, payload), Copy(_)) =>
      MoveKeeps(s, ranges, p, Copied(lane, j), StoreIn(s.ledger, j, payload));
    case (Copied(lane, j), Count(_)) =>
      CountersFit(s, ranges, n, lane);
      CountKeeps(s, ranges, p);
    case _ =>
  }

  /** The scheduler clears the bit it has spotted, or clears it a second time. */
  lemma ClearKeeps(s: Threads, ranges: RangeTable, after: Threads)
    requires Inv(s, ranges) && (s.sched.Spotted? || s.sched.Taken?)
    requires OnlyIn(ranges, s.sched.lane, s.sched.j)
    requires s.sched.Spotted? ==> after == s.(bits := s.bits - {s.sched.j}, sched := Cleared(s.sched.lane, s.sched.j))
    requires s.sched.Taken? ==> after == ReleaseStep(s, s.sched.lane, s.sched.j)
    ensures Inv(after, ranges)
  {
    var j := s.sched.j;
    forall i | 0 <= i < 4 ensures Balanced(after, ranges, i) {
      assert Balanced(s, ranges, i);
      if j in s.bits {
        WithinEmpty(s.bits, ranges[i], j);
      } else {
        assert s.bits - {j} == s.bits;
      }
    }
  }

  lemma DiscountKeeps(s: Threads, ranges: RangeTable)
    requires Inv(s, ranges) && s.sched.Released?
    requires LaneOf(ranges, s.sched.j, 0) == Some(s.sched.lane)
    ensures Inv(DiscountStep(s, ranges, s.sched.j), ranges)
  {
    var after := DiscountStep(s, ranges, s.sched.j);
    forall i | 0 <= i < 4 ensures Balanced(after, ranges, i) {
      assert Balanced(s, ranges, i);
    }
  }

  /** A scheduler that moves on without touching counters or bits. */
  lemma TurnKeeps(s: Threads, ranges: RangeTable, c: Scheduler, l: Ledger)
    requires Inv(s, ranges) && SchedulerInv(s.(sched := c), ranges)
    requires forall i :: 0 <= i < 4 ==> Held(c, i) == Held(s.sched, i)
    ensures Inv(s.(sched := c, ledger := l), ranges)
  {
    forall i | 0 <= i < 4 ensures Balanced(s.(sched := c, ledger := l), ranges, i) {
      assert Balanced(s, ranges, i);
    }
  }

  lemma ReadKeeps(s: Threads, ranges: RangeTable, n: nat)
    requires Ready(ranges, n) && Inv(s, ranges) && s.sched.Reading?
    ensures Inv(ReadStep(s, ranges, s.sched.i), ranges)
  {
    var i := s.sched.i;
    assert Roomy(ranges[i]);
    if i < 3 && s.presence[i] == 0 {
      var k :| i <= k < 4 && s.presence[k] > 0;
      assert SomeFrom(s.presence, i + 1);
      TurnKeeps(s, ranges, Reading(i + 1), s.ledger);
    } else {
      TurnKeeps(s, ranges, Chosen(i), s.ledger);
    }
  }

  /** The scheduler up to the choice of a bucket. */
  lemma ChoiceKeeps(s: Threads, ranges: RangeTable, n: nat, e: Access)
    requires Ready(ranges, n) && Inv(s, ranges) && !ByProducer(e)
    requires s.sched.Resting? || s.sched.Reading? || s.sched.Chosen?
    ensures Inv(Next(s, ranges, e), ranges)
  {
    match (s.sched, e)
    case (Resting, Test) =>
      if AnyPresence(s.presence) {
        TurnKeeps(s, ranges, Reading(0), s.ledger);
      }
    case (Reading(i), GiveUp) =>
      TurnKeeps(s, ranges, Resting, s.ledger);
    case (Reading(i), Read) =>
      ReadKeeps(s, ranges, n);
    case (Chosen(lane), SpotNone) =>
      TurnKeeps(s, ranges, Resting, s.ledger);
    case (Chosen(lane), Spot(j)) =>
      if In(ranges[lane], j) && j in s.bits {
        TurnKeeps(s, ranges, Spotted(lane, j), s.ledger);
      }
    case _ =>
  }

  /** The scheduler with a bucket. */
  lemma UnloadKeeps(s: Threads, ranges: RangeTable, e: Access)
    requires Inv(s, ranges) && !ByProducer(e)
    requires s.sched.Spotted? || s.sched.Cleared? || s.sched.Taken? || s.sched.Released?
    requires s.sched.lane < 4 && s.sched.j < 256 && OnlyIn(ranges, s.sched.lane, s.sched.j)
    requires LaneOf(ranges, s.sched.j, 0) == Some(s.sched.lane)
    ensures Inv(Next(s, ranges, e), ranges)
  {
    match (s.sched, e)
    case (Spotted(lane, j), Clear) =>
      ClearKeeps(s, ranges, Next(s, ranges, e));
    case (Cleared(lane, j), Take) =>
      TurnKeeps(s, ranges, Taken(lane, j), TakeFrom(s.ledger, j, Unfilled(s.producers, j)));
    case (Taken(lane, j), Release) =>
      ClearKeeps(s, ranges, Next(s, ranges, e));
    case (Released(lane, j), Discount) =>
      DiscountKeeps(s, ranges);
    case _ =>
  }

  lemma SchedulerKeeps(s: Threads, ranges: RangeTable, n: nat, e: Access)
    requires Ready(ranges, n) && n <= 256 && Inv(s, ranges) && !ByProducer(e)
    ensures Inv(Next(s, ranges, e), ranges)
  {
    if s.sched.Resting? || s.sched.Reading? || s.sched.Chosen? {
      ChoiceKeeps(s, ranges, n, e);
    } else {
      InOne(ranges, n, s.sched.lane, s.sched.j);
      UnloadKeeps(s, ranges, e);
    }
  }

  lemma NextKeeps(s: Threads, ranges: RangeTable, n: nat, e: Access)
    requires Ready(ranges, n) && n <= 256 && Inv(s, ranges) && Fits(s)
    ensures Inv(Next(s, ranges, e), ranges)
  {
    if ByProducer(e) {
      if e.p < |s.producers| {
        ProducerKeeps(s, ranges, n, e);
      }
    } else {
      SchedulerKeeps(s, ranges, n, e);
    }
  }

  lemma CollisionsGrow(s: Threads, ranges: RangeTable, e: Access, lane: nat)
    requires lane < 4
    ensures s.collisions[lane] <= Next(s, ranges, e).collisions[lane]
  {
  }

  lemma {:induction false} CollisionsOnlyGrow(s: Threads, ranges: RangeTable, accesses: seq<Access>, lane: nat)
    requires lane < 4
    ensures s.collisions[lane] <= Run(s, ranges, accesses).collisions[lane]
    decreases |accesses|
  {
    if accesses != [] {
      CollisionsGrow(s, ranges, accesses[0], lane);
      CollisionsOnlyGrow(Next(s, ranges, accesses[0]), ranges, accesses[1..], lane);
    }
  }

  lemma {:induction false} FitsBefore(s: Threads, ranges: RangeTable, accesses: seq<Access>)
    requires Fits(Run(s, ranges, accesses))
    ensures Fits(s)
  {
    forall lane | 0 <= lane < 4 ensures s.collisions[lane] < 0xffff_ffff - 0x101 {
      CollisionsOnlyGrow(s, ranges, accesses, lane);
    }
  }

  lemma {:induction false} RunKeeps(s: Threads, ranges: RangeTable, n: nat, accesses: seq<Access>)
    requires Ready(ranges, n) && n <= 256 && Inv(s, ranges) && Fits(Run(s, ranges, accesses))
    ensures Inv(Run(s, ranges, accesses), ranges)
    decreases |accesses|
  {
    if accesses != [] {
      FitsBefore(s, ranges, accesses);
      NextKeeps(s, ranges, n, accesses[0]);
      RunKeeps(Next(s, ranges, accesses[0]), ranges, n, accesses[1..]);
    }
  }

  lemma {:induction false} NonePending(m: nat, lane: nat)
    ensures Pending(seq(m, _ => Idle), lane) == 0
  {
    if m != 0 {
      assert seq(m, _ => Idle)[..m - 1] == seq(m - 1, _ => Idle);
      NonePending(m - 1, lane);
    }
  }

  lemma StartInv(ranges: RangeTable, n: nat, blank: Payload, producers: nat)
    ensures Inv(Start(n, blank, producers), ranges)
  {
    forall i | 0 <= i < 4 ensures Balanced(Start(n, blank, producers), ranges, i) {
      NonePending(producers, i);
      assert Within({}, ranges[i]) == {};
    }
  }

  // ---------------------------------------------------------------- every interleaving

  /** A system that any number of producers and the scheduler have reached from an empty queue, in any
  number of steps, without so many collisions that a counter could wrap. */
  predicate Reached(s: Threads, ranges: RangeTable, n: nat, blank: Payload, producers: nat, accesses: seq<Access>)
  {
    Ready(ranges, n) && n <= 256 && s == Run(Start(n, blank, producers), ranges, accesses) && Fits(s)
  }

  lemma ReachedInv(s: Threads, ranges: RangeTable, n: nat, blank: Payload, producers: nat, accesses: seq<Access>)
    requires Reached(s, ranges, n, blank, producers, accesses)
    ensures Inv(s, ranges)
  {
    StartInv(ranges, n, blank, producers);
    RunKeeps(Start(n, blank, producers), ranges, n, accesses);
  }

  /** No counter is ever taken below zero: the index leads back to the range it was chosen from,
  whose counter has been seen not zero and that nobody else decrements. */
  lemma NeverUnderflows(s: Threads, ranges: RangeTable, n: nat, blank: Payload, producers: nat, accesses: seq<Access>)
    requires Reached(s, ranges, n, blank, producers, accesses) && s.sched.Released?
    ensures LaneOf(ranges, s.sched.j, 0) == Some(s.sched.lane) && s.sched.lane < 4
    ensures s.presence[s.sched.lane] >= 1
    ensures Next(s, ranges, Discount).presence == s.presence[s.sched.lane := s.presence[s.sched.lane] - 1]
  {
    ReachedInv(s, ranges, n, blank, producers, accesses);
    InOne(ranges, n, s.sched.lane, s.sched.j);
  }

  /** A range chosen without a look at its own counter, or because of it, is not empty of counts. */
  lemma ChosenIsCounted(s: Threads, ranges: RangeTable, n: nat, blank: Payload, producers: nat, accesses: seq<Access>)
    requires Reached(s, ranges, n, blank, producers, accesses) && s.sched.Chosen?
    ensures s.sched.lane < 4 && s.presence[s.sched.lane] >= 1
  {
    ReachedInv(s, ranges, n, blank, producers, accesses);
  }

  /** In every range: set bits, bits being unloaded and collisions together are the count and the
  buckets still to be counted. */
  lemma CountsBalance(s: Threads, ranges: RangeTable, n: nat, blank: Payload, producers: nat, accesses: seq<Access>,
                      lane: nat)
    requires Reached(s, ranges, n, blank, producers, accesses) && lane < 4
    ensures |Within(s.bits, ranges[lane])| + Held(s.sched, lane) + s.collisions[lane]
         == s.presence[lane] as nat + Pending(s.producers, lane)
  {
    ReachedInv(s, ranges, n, blank, producers, accesses);
    assert Balanced(s, ranges, lane);
  }

  predicate Quiet(s: Threads)
  {
    s.sched.Resting? && forall p :: 0 <= p < |s.producers| ==> s.producers[p].Idle?
  }

  lemma {:induction false} NoneOwed(ps: seq<Producer>, lane: nat)
    requires forall p :: 0 <= p < |ps| ==> ps[p].Idle?
    ensures Pending(ps, lane) == 0
    decreases |ps|
  {
    if ps != [] {
      NoneOwed(ps[..|ps| - 1], lane);
    }
  }

  /** When all threads are between operations, a counter equals the number of set bits of its range
  exactly when the range has had no collision, and otherwise exceeds it by the collisions. */
  lemma QuietCountsExactly(s: Threads, ranges: RangeTable, n: nat, blank: Payload, producers: nat,
                           accesses: seq<Access>, lane: nat)
    requires Reached(s, ranges, n, blank, producers, accesses) && lane < 4 && Quiet(s)
    ensures s.presence[lane] as nat == |Within(s.bits, ranges[lane])| + s.collisions[lane]
    ensures s.presence[lane] as nat == |Within(s.bits, ranges[lane])| <==> s.collisions[lane] == 0
  {
    CountsBalance(s, ranges, n, blank, producers, accesses, lane);
    NoneOwed(s.producers, lane);
  }
}
