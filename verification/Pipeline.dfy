/** The whole pipeline: producers, the scheduler and the vrow workers on one queue, one atomic memory access
at a time. The scheduler's turn joins the two systems: what it takes from the queue it loads into the
vrow it has claimed. */
module Pipeline {
  import opened Ranges
  import opened PriorityQueue
  import opened QueueRuns
  import Producers
  import Ledgers
  import Races
  import Handshake
  import Handover

  type Access = Producers.Access
  type Event = Handshake.Event

  datatype Joint = Joint(threads: Producers.Threads, system: Handshake.System)

  /** An access to the queue, an access to vrows or to their map, or the copy of the payload that the
  scheduler takes from its bucket for the vrow. */
  datatype Step = OnQueue(access: Access) | OnVrows(event: Event) | Transfer

  // ---------------------------------------------------------------- steps

  /** The scheduler's accesses to the queue in its turn: it tests the counters, gives up when it finds no
  free vrow, looks for a bucket for the vrow it has claimed, and gives the bucket back when the vrow
  is loaded. */
  predicate QueueInTurn(a: Access, d: Handshake.Sched)
  {
    if a.Test? || a.GiveUp? || a.Release? || a.Discount? then d.Scanning?
    else d.Claimed? && !a.Take?
  }

  /** Its accesses to the vrows: it claims one when it has seen counters, undoes the claim when it has found
  no bucket, and loads the vrow when it has taken one. */
  predicate VrowsInTurn(e: Event, c: Producers.Scheduler)
  {
    if e.Scan? || e.Claim? then c == Producers.Reading(0)
    else if e.Miss? then c.Resting?
    else c.Taken? && !e.Take?
  }

  predicate CanTransfer(j: Joint)
  {
    && j.threads.sched.Cleared? && j.threads.sched.j < |j.threads.ledger.bucket|
    && j.system.sched.Claimed?
  }

  /** What a step is for the queue; a step out of turn is nothing. */
  function QueuePart(j: Joint, x: Step): seq<Access>
  {
    match x
    case OnQueue(a) => if Producers.ByProducer(a) || QueueInTurn(a, j.system.sched) then [a] else []
    case OnVrows(_) => []
    case Transfer => if CanTransfer(j) then [Producers.Take] else []
  }

  /** What it is for the vrows. */
  function VrowPart(j: Joint, x: Step): seq<Event>
  {
    match x
    case OnQueue(_) => []
    case OnVrows(e) => if e.Work? || VrowsInTurn(e, j.threads.sched) then [e] else []
    case Transfer =>
      if CanTransfer(j) then [Handshake.Take(j.threads.ledger.bucket[j.threads.sched.j])] else []
  }

  function Next(convert: Payload -> Payload, ranges: RangeTable, j: Joint, x: Step): Joint
  {
    Joint(Producers.Run(j.threads, ranges, QueuePart(j, x)), Handshake.Run(convert, j.system, VrowPart(j, x)))
  }

  function Run(convert: Payload -> Payload, ranges: RangeTable, j: Joint, steps: seq<Step>): Joint
    decreases |steps|
  {
    if steps == [] then j else Run(convert, ranges, Next(convert, ranges, j, steps[0]), steps[1..])
  }

  // ---------------------------------------------------------------- the two halves

  function QueueParts(convert: Payload -> Payload, ranges: RangeTable, j: Joint, steps: seq<Step>): seq<Access>
    decreases |steps|
  {
    if steps == [] then []
    else QueuePart(j, steps[0]) + QueueParts(convert, ranges, Next(convert, ranges, j, steps[0]), steps[1..])
  }

  function VrowParts(convert: Payload -> Payload, ranges: RangeTable, j: Joint, steps: seq<Step>): seq<Event>
    decreases |steps|
  {
    if steps == [] then []
    else VrowPart(j, steps[0]) + VrowParts(convert, ranges, Next(convert, ranges, j, steps[0]), steps[1..])
  }

  lemma {:induction false} VrowsRunOn(convert: Payload -> Payload, s: Handshake.System, a: seq<Event>, b: seq<Event>)
    ensures Handshake.Run(convert, s, a + b) == Handshake.Run(convert, Handshake.Run(convert, s, a), b)
    decreases |a|
  {
    if a == [] {
      assert a + b == b;
    } else {
      assert (a + b)[1..] == a[1..] + b;
      VrowsRunOn(convert, Handshake.Next(convert, s, a[0]), a[1..], b);
    }
  }

  /** Each half of a joint run is a run of its own system. */
  lemma {:induction false} Halves(convert: Payload -> Payload, ranges: RangeTable, j: Joint, steps: seq<Step>)
    ensures var after := Run(convert, ranges, j, steps);
      && after.threads == Producers.Run(j.threads, ranges, QueueParts(convert, ranges, j, steps))
      && after.system == Handshake.Run(convert, j.system, VrowParts(convert, ranges, j, steps))
    decreases |steps|
  {
    if steps != [] {
      var next := Next(convert, ranges, j, steps[0]);
      Halves(convert, ranges, next, steps[1..]);
      Races.RunOn(j.threads, ranges, QueuePart(j, steps[0]), QueueParts(convert, ranges, next, steps[1..]));
      VrowsRunOn(convert, j.system, VrowPart(j, steps[0]), VrowParts(convert, ranges, next, steps[1..]));
    }
  }

  // ---------------------------------------------------------------- what is between queue and vrows

  /** Everything loaded into the vrows. */
  function Loaded(ws: seq<Handshake.Worker>): multiset<Payload>
  {
    if ws == [] then multiset{} else Loaded(ws[..|ws| - 1]) + multiset(ws[|ws| - 1].loaded)
  }

  predicate Carrying(d: Handshake.Sched)
  {
    d.Holding? || d.FoundEmpty? || d.Stored?
  }

  /** The payload that the scheduler has taken from the queue and not yet handed over. */
  function InHand(d: Handshake.Sched): multiset<Payload>
  {
    if Carrying(d) then multiset{d.payload} else multiset{}
  }

  /** What was delivered by the queue is loaded or in hand. */
  predicate PassedOn(j: Joint)
  {
    multiset(j.threads.ledger.delivered) == Loaded(j.system.workers) + InHand(j.system.sched)
  }

  lemma Rearrange(a: multiset<Payload>, b: multiset<Payload>, c: multiset<Payload>)
    ensures a + b + c == a + c + b
  {
  }

  lemma {:induction false} LoadedMore(ws: seq<Handshake.Worker>, v: nat, w: Handshake.Worker, more: seq<Payload>)
    requires v < |ws| && w.loaded == ws[v].loaded + more
    ensures Loaded(ws[v := w]) == Loaded(ws) + multiset(more)
    decreases |ws|
  {
    var last := |ws| - 1;
    if v < last {
      assert ws[v := w][..last] == ws[..last][v := w];
      LoadedMore(ws[..last], v, w, more);
      Rearrange(Loaded(ws[..last]), multiset(more), multiset(ws[last].loaded));
    } else {
      assert ws[v := w][..last] == ws[..last];
      assert multiset(ws[last].loaded + more) == multiset(ws[last].loaded) + multiset(more);
    }
  }

  lemma LoadedSame(ws: seq<Handshake.Worker>, v: nat, w: Handshake.Worker)
    requires v < |ws| && w.loaded == ws[v].loaded
    ensures Loaded(ws[v := w]) == Loaded(ws)
  {
    assert w.loaded == ws[v].loaded + [];
    LoadedMore(ws, v, w, []);
  }

  lemma OneAccess(s: Producers.Threads, ranges: RangeTable, a: Access)
    ensures Producers.Run(s, ranges, [a]) == Producers.Next(s, ranges, a)
    ensures Producers.Run(s, ranges, []) == s
  {
    Races.RunSingle(s, ranges, a);
  }

  lemma OneEvent(convert: Payload -> Payload, s: Handshake.System, e: Event)
    ensures Handshake.Run(convert, s, [e]) == Handshake.Next(convert, s, e)
    ensures Handshake.Run(convert, s, []) == s
  {
    assert [e][1..] == [];
  }

  /** A queue access other than the taking delivers nothing. */
  lemma QueuePassesOn(convert: Payload -> Payload, ranges: RangeTable, j: Joint, a: Access)
    requires PassedOn(j)
    ensures PassedOn(Next(convert, ranges, j, OnQueue(a)))
  {
    OneAccess(j.threads, ranges, a);
    if QueuePart(j, OnQueue(a)) != [] {
      Ledgers.OnlyTakeDelivers(j.threads, ranges, a);
    }
  }

  /** What the scheduler's next access hands over. */
  function HandedOver(d: Handshake.Sched, e: Event): seq<Payload>
  {
    if d.Stored? && e.Switch? then [d.payload] else []
  }

  lemma SchedulerLoads(w: Handshake.Worker, d: Handshake.Sched, e: Event)
    requires !e.Take?
    ensures Handshake.SchedStep(w, d, e).0.loaded == w.loaded + HandedOver(d, e)
  {
    if HandedOver(d, e) == [] {
      assert w.loaded + [] == w.loaded;
    }
  }

  lemma SchedulerKeepsHold(w: Handshake.Worker, d: Handshake.Sched, e: Event)
    requires !e.Take?
    ensures var next := Handshake.SchedStep(w, d, e).1;
      multiset(HandedOver(d, e)) + InHand(next) == InHand(d)
  {
    var next := Handshake.SchedStep(w, d, e).1;
    if d.Stored? && e.Switch? {
      assert next.Scanning?;
    } else {
      assert Carrying(next) <==> Carrying(d);
      assert Carrying(d) ==> next.payload == d.payload;
    }
  }

  lemma Together(a: multiset<Payload>, b: multiset<Payload>, c: multiset<Payload>, d: multiset<Payload>)
    requires b + c == d
    ensures a + b + c == a + d
  {
  }

  lemma ClaimedAccess(ws: seq<Handshake.Worker>, d: Handshake.Sched, e: Event)
    requires !d.Scanning? && d.v < |ws| && !e.Take?
    ensures var (w, next) := Handshake.SchedStep(ws[d.v], d, e);
      Loaded(ws[d.v := w]) + InHand(next) == Loaded(ws) + InHand(d)
  {
    var (w, next) := Handshake.SchedStep(ws[d.v], d, e);
    SchedulerLoads(ws[d.v], d, e);
    SchedulerKeepsHold(ws[d.v], d, e);
    LoadedMore(ws, d.v, w, HandedOver(d, e));
    Together(Loaded(ws), multiset(HandedOver(d, e)), InHand(next), InHand(d));
  }

  lemma WorkerAccess(convert: Payload -> Payload, w: Handshake.Worker)
    ensures Handshake.WorkerStep(convert, w).loaded == w.loaded
  {
  }

  lemma VrowAccess(convert: Payload -> Payload, s: Handshake.System, e: Event)
    requires !e.Take?
    ensures var t := Handshake.Next(convert, s, e);
      Loaded(t.workers) + InHand(t.sched) == Loaded(s.workers) + InHand(s.sched)
  {
    if e.Work? {
      if e.v < |s.workers| {
        WorkerAccess(convert, s.workers[e.v]);
        LoadedSame(s.workers, e.v, Handshake.WorkerStep(convert, s.workers[e.v]));
      }
    } else if !e.Scan? && !s.sched.Scanning? && s.sched.v < |s.workers| {
      ClaimedAccess(s.workers, s.sched, e);
    }
  }

  lemma VrowsPassOn(convert: Payload -> Payload, ranges: RangeTable, j: Joint, e: Event)
    requires PassedOn(j)
    ensures PassedOn(Next(convert, ranges, j, OnVrows(e)))
  {
    OneAccess(j.threads, ranges, Producers.Test);
    OneEvent(convert, j.system, e);
    if VrowPart(j, OnVrows(e)) != [] {
      VrowAccess(convert, j.system, e);
    }
  }

  lemma Transferred(convert: Payload -> Payload, ranges: RangeTable, j: Joint, p: Payload, v: nat)
    requires CanTransfer(j) && v == j.system.sched.v < |j.system.workers|
    requires p == j.threads.ledger.bucket[j.threads.sched.j]
    ensures var after := Next(convert, ranges, j, Transfer);
      && after.threads.ledger.delivered == j.threads.ledger.delivered + [p]
      && after.system == Handshake.System(j.system.workers, Handshake.Holding(v, p))
  {
    OneAccess(j.threads, ranges, Producers.Take);
    OneEvent(convert, j.system, Handshake.Take(p));
    assert j.system.workers[v := j.system.workers[v]] == j.system.workers;
  }

  lemma TransferPassesOn(convert: Payload -> Payload, ranges: RangeTable, j: Joint)
    requires PassedOn(j) && Handshake.Inv(convert, j.system)
    ensures PassedOn(Next(convert, ranges, j, Transfer))
  {
    if CanTransfer(j) {
      var p, v := j.threads.ledger.bucket[j.threads.sched.j], j.system.sched.v;
      Transferred(convert, ranges, j, p, v);
      assert multiset(j.threads.ledger.delivered + [p]) == multiset(j.threads.ledger.delivered) + multiset{p};
    }
  }

  lemma NextPassesOn(convert: Payload -> Payload, ranges: RangeTable, j: Joint, x: Step)
    requires PassedOn(j) && Handshake.Inv(convert, j.system)
    ensures PassedOn(Next(convert, ranges, j, x)) && Handshake.Inv(convert, Next(convert, ranges, j, x).system)
  {
    Handshake.RunKeeps(convert, j.system, VrowPart(j, x));
    match x
    case OnQueue(a) => QueuePassesOn(convert, ranges, j, a);
    case OnVrows(e) => VrowsPassOn(convert, ranges, j, e);
    case Transfer => TransferPassesOn(convert, ranges, j);
  }

  lemma {:induction false} RunPassesOn(convert: Payload -> Payload, ranges: RangeTable, j: Joint, steps: seq<Step>)
    requires PassedOn(j) && Handshake.Inv(convert, j.system)
    ensures PassedOn(Run(convert, ranges, j, steps))
    decreases |steps|
  {
    if steps != [] {
      NextPassesOn(convert, ranges, j, steps[0]);
      RunPassesOn(convert, ranges, Next(convert, ranges, j, steps[0]), steps[1..]);
    }
  }

  // ---------------------------------------------------------------- the scheduler's turn

  /** Where the scheduler is with the queue and with the vrows at the same time. */
  predicate InStep(c: Producers.Scheduler, d: Handshake.Sched)
  {
    if d.Scanning? then c.Resting? || c == Producers.Reading(0) || c.Taken? || c.Released?
    else if d.Saw? then c == Producers.Reading(0)
    else if d.Claimed? then c.Resting? || c.Reading? || c.Chosen? || c.Spotted? || c.Cleared?
    else c.Taken?
  }

  lemma QueueInStep(s: Producers.Threads, ranges: RangeTable, a: Access, d: Handshake.Sched)
    requires InStep(s.sched, d) && (Producers.ByProducer(a) || QueueInTurn(a, d))
    ensures InStep(Producers.Next(s, ranges, a).sched, d)
  {
  }

  lemma VrowsInStep(convert: Payload -> Payload, s: Handshake.System, e: Event, c: Producers.Scheduler)
    requires InStep(c, s.sched) && (e.Work? || VrowsInTurn(e, c))
    ensures InStep(c, Handshake.Next(convert, s, e).sched)
  {
  }

  lemma NextInStep(convert: Payload -> Payload, ranges: RangeTable, j: Joint, x: Step)
    requires InStep(j.threads.sched, j.system.sched) && Handshake.Inv(convert, j.system)
    ensures var after := Next(convert, ranges, j, x); InStep(after.threads.sched, after.system.sched)
  {
    match x
    case OnQueue(a) =>
      OneAccess(j.threads, ranges, a);
      if QueuePart(j, x) != [] {
        QueueInStep(j.threads, ranges, a, j.system.sched);
      }
    case OnVrows(e) =>
      OneEvent(convert, j.system, e);
      if VrowPart(j, x) != [] {
        VrowsInStep(convert, j.system, e, j.threads.sched);
      }
    case Transfer =>
      OneAccess(j.threads, ranges, Producers.Take);
      if CanTransfer(j) {
        OneEvent(convert, j.system, Handshake.Take(j.threads.ledger.bucket[j.threads.sched.j]));
      }
  }

  lemma {:induction false} RunInStep(convert: Payload -> Payload, ranges: RangeTable, j: Joint, steps: seq<Step>)
    requires InStep(j.threads.sched, j.system.sched) && Handshake.Inv(convert, j.system)
    ensures var after := Run(convert, ranges, j, steps); InStep(after.threads.sched, after.system.sched)
    decreases |steps|
  {
    if steps != [] {
      NextInStep(convert, ranges, j, steps[0]);
      Handshake.RunKeeps(convert, j.system, VrowPart(j, steps[0]));
      RunInStep(convert, ranges, Next(convert, ranges, j, steps[0]), steps[1..]);
    }
  }

  // ---------------------------------------------------------------- every pushed payload

  /** An empty queue, idle producers and new vrows. */
  predicate AtStart(j: Joint, n: nat, blank: Payload, producers: nat)
  {
    j.threads == Producers.Start(n, blank, producers) && Handshake.Fresh(j.system)
  }

  /** A pipeline that has come about in any number of steps, without so many collisions that a counter
  could wrap. */
  predicate Reached(convert: Payload -> Payload, ranges: RangeTable, n: nat, blank: Payload, producers: nat,
                    start: Joint, steps: seq<Step>, j: Joint)
  {
    && Ready(ranges, n) && n <= 256 && AtStart(start, n, blank, producers)
    && j == Run(convert, ranges, start, steps) && Producers.Fits(j.threads)
  }

  lemma {:induction false} NothingLoaded(ws: seq<Handshake.Worker>)
    requires forall v :: 0 <= v < |ws| ==> ws[v].loaded == []
    ensures Loaded(ws) == multiset{}
    decreases |ws|
  {
    if ws != [] {
      NothingLoaded(ws[..|ws| - 1]);
    }
  }

  lemma ReachedPassesOn(convert: Payload -> Payload, ranges: RangeTable, n: nat, blank: Payload, producers: nat,
                        start: Joint, steps: seq<Step>, j: Joint)
    requires Reached(convert, ranges, n, blank, producers, start, steps, j)
    ensures PassedOn(j) && InStep(j.threads.sched, j.system.sched)
  {
    NothingLoaded(start.system.workers);
    Handshake.FreshInv(convert, start.system);
    RunPassesOn(convert, ranges, start, steps);
    RunInStep(convert, ranges, start, steps);
  }

  /** The two systems have been reached as such. */
  lemma ReachedHalves(convert: Payload -> Payload, ranges: RangeTable, n: nat, blank: Payload, producers: nat,
                      start: Joint, steps: seq<Step>, j: Joint)
    requires Reached(convert, ranges, n, blank, producers, start, steps, j)
    ensures Producers.Reached(j.threads, ranges, n, blank, producers, QueueParts(convert, ranges, start, steps))
    ensures Handover.Reached(convert, start.system, VrowParts(convert, ranges, start, steps), j.system)
  {
    Halves(convert, ranges, start, steps);
  }

  /** With the bit of a bucket cleared the scheduler always has a vrow, bucket and vrow exist, and while it
  loads the vrow it holds on to the bucket. */
  lemma TakesForItsVrow(convert: Payload -> Payload, ranges: RangeTable, n: nat, blank: Payload, producers: nat,
                        start: Joint, steps: seq<Step>, j: Joint)
    requires Reached(convert, ranges, n, blank, producers, start, steps, j)
    ensures j.threads.sched.Cleared? ==> CanTransfer(j) && j.system.sched.v < |j.system.workers|
    ensures Carrying(j.system.sched) ==> j.threads.sched.Taken? && j.system.sched.v < |j.system.workers|
  {
    ReachedHalves(convert, ranges, n, blank, producers, start, steps, j);
    ReachedPassesOn(convert, ranges, n, blank, producers, start, steps, j);
    Handover.ClaimFlips(convert, start.system, VrowParts(convert, ranges, start, steps), j.system);
    var accesses := QueueParts(convert, ranges, start, steps);
    Ledgers.ReachedAccounts(j.threads, ranges, n, blank, producers, accesses);
    if j.threads.sched.Cleared? {
      Producers.InOne(ranges, n, j.threads.sched.lane, j.threads.sched.j);
    }
  }

  /** The vrow has finished all that was loaded into it, once each and in order, but for at most one. */
  predicate InOrder(convert: Payload -> Payload, w: Handshake.Worker)
  {
    && |w.processed| <= |w.loaded| <= |w.processed| + 1
    && w.processed == Handshake.Map(convert, w.loaded[..|w.processed|])
  }

  lemma ReachedInOrder(convert: Payload -> Payload, ranges: RangeTable, n: nat, blank: Payload, producers: nat,
                       start: Joint, steps: seq<Step>, j: Joint)
    requires Reached(convert, ranges, n, blank, producers, start, steps, j)
    ensures forall v :: 0 <= v < |j.system.workers| ==> InOrder(convert, j.system.workers[v])
  {
    ReachedHalves(convert, ranges, n, blank, producers, start, steps, j);
    forall v | 0 <= v < |j.system.workers| ensures InOrder(convert, j.system.workers[v]) {
      Handover.ExactlyOnce(convert, start.system, VrowParts(convert, ranges, start, steps), j.system, v);
    }
  }

  /** At any moment of any interleaving without a collision and without a bucket taken before it was
  filled: every pushed payload is in a filled bucket, in the scheduler's hand or loaded into a vrow,
  exactly once, and each vrow has finished all that was loaded into it but for at most one. */
  lemma EveryPayload(convert: Payload -> Payload, ranges: RangeTable, n: nat, blank: Payload, producers: nat,
                     start: Joint, steps: seq<Step>, j: Joint)
    requires Reached(convert, ranges, n, blank, producers, start, steps, j) && Ledgers.Clean(j.threads)
    ensures var l := j.threads.ledger;
      l.pushed
      == Queued(Ledgers.Live(j.threads), l.bucket, |l.bucket|)
         + (Loaded(j.system.workers) + InHand(j.system.sched))
    ensures forall v :: 0 <= v < |j.system.workers| ==> InOrder(convert, j.system.workers[v])
  {
    ReachedHalves(convert, ranges, n, blank, producers, start, steps, j);
    ReachedPassesOn(convert, ranges, n, blank, producers, start, steps, j);
    ReachedInOrder(convert, ranges, n, blank, producers, start, steps, j);
    Ledgers.ReachedAccounts(j.threads, ranges, n, blank, producers, QueueParts(convert, ranges, start, steps));
  }

  /** For payloads that can be told apart, between operations: every pushed payload is queued or loaded into
  one vrow, exactly once, if and only if there has been no collision and no bucket was taken before
  it was filled. */
  lemma EveryPayloadExactly(convert: Payload -> Payload, ranges: RangeTable, n: nat, blank: Payload, producers: nat,
                            start: Joint, steps: seq<Step>, j: Joint)
    requires Reached(convert, ranges, n, blank, producers, start, steps, j) && Producers.Quiet(j.threads)
    requires Ledgers.AllDistinct(j.threads.ledger.pushed, blank)
    ensures var l := j.threads.ledger;
      l.pushed == Queued(j.threads.bits, l.bucket, |l.bucket|) + Loaded(j.system.workers)
      <==> j.threads.collisions == [0, 0, 0, 0] && l.early == 0
  {
    ReachedHalves(convert, ranges, n, blank, producers, start, steps, j);
    ReachedPassesOn(convert, ranges, n, blank, producers, start, steps, j);
    Ledgers.QuietConservesExactly(j.threads, ranges, n, blank, producers, QueueParts(convert, ranges, start, steps));
    assert multiset(j.threads.ledger.delivered) == Loaded(j.system.workers);
  }

  /** Everything at rest and nothing queued. */
  predicate RunDry(j: Joint)
  {
    && Producers.Quiet(j.threads) && j.threads.bits == {}
    && forall v :: 0 <= v < |j.system.workers| ==> Handshake.Resting(j.system.workers[v])
  }

  lemma RestingHasFinished(convert: Payload -> Payload, ranges: RangeTable, n: nat, blank: Payload, producers: nat,
                           start: Joint, steps: seq<Step>, j: Joint, v: nat)
    requires Reached(convert, ranges, n, blank, producers, start, steps, j)
    requires v < |j.system.workers| && Handshake.Resting(j.system.workers[v])
    ensures j.system.workers[v].processed == Handshake.Map(convert, j.system.workers[v].loaded)
  {
    ReachedHalves(convert, ranges, n, blank, producers, start, steps, j);
    Handover.ReachedInv(convert, start.system, VrowParts(convert, ranges, start, steps), j.system);
    assert Handshake.WorkerInv(convert, j.system.workers[v], Handshake.SeenBy(j.system.sched, v));
  }

  /** A clean pipeline that has run dry has finished every pushed payload exactly once. */
  lemma AllFinished(convert: Payload -> Payload, ranges: RangeTable, n: nat, blank: Payload, producers: nat,
                    start: Joint, steps: seq<Step>, j: Joint)
    requires Reached(convert, ranges, n, blank, producers, start, steps, j) && RunDry(j)
    requires j.threads.collisions == [0, 0, 0, 0] && j.threads.ledger.early == 0
    ensures j.threads.ledger.pushed == Loaded(j.system.workers)
    ensures forall v :: 0 <= v < |j.system.workers| ==>
      j.system.workers[v].processed == Handshake.Map(convert, j.system.workers[v].loaded)
  {
    Ledgers.QuietIsSettled(j.threads);
    EveryPayload(convert, ranges, n, blank, producers, start, steps, j);
    NothingQueued(j.threads.ledger.bucket, |j.threads.ledger.bucket|);
    ReachedPassesOn(convert, ranges, n, blank, producers, start, steps, j);
    forall v | 0 <= v < |j.system.workers|
      ensures j.system.workers[v].processed == Handshake.Map(convert, j.system.workers[v].loaded)
    {
      RestingHasFinished(convert, ranges, n, blank, producers, start, steps, j, v);
    }
  }
}
