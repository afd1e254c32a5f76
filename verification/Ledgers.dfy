/** Where pushed payloads are, in every interleaving of the producers with the scheduler. */
module Ledgers {
  import opened Ranges
  import opened PriorityQueue
  import opened QueueRuns
  import opened Producers

  /** A bit that the scheduler has cleared and not yet cleared again has been set anew: the second
  clearing will collide. */
  predicate ResetPending(s: Threads)
  {
    (s.sched.Cleared? || s.sched.Taken?) && s.sched.j in s.bits
  }

  predicate NoClash(s: Threads)
  {
    s.collisions == [0, 0, 0, 0] && !ResetPending(s)
  }

  /** No collision so far, and no bucket taken before it was filled. */
  predicate Clean(s: Threads)
  {
    NoClash(s) && s.ledger.early == 0
  }

  // ---------------------------------------------------------------- what a clean system keeps

  /** The buckets whose payload is still to be taken. */
  function Open(s: Threads): set<nat>
  {
    s.bits + if s.sched.Cleared? then {s.sched.j} else {}
  }

  /** Those of them that their producers have filled. */
  function Live(s: Threads): set<nat>
  {
    set j | j in Open(s) && !Unfilled(s.producers, j)
  }

  predicate Kept(s: Threads)
  {
    s.ledger.pushed
    == Queued(Live(s), s.ledger.bucket, |s.ledger.bucket|) + multiset(s.ledger.delivered)
  }

  /** The other buckets hold what has been taken from them, or nothing yet. */
  predicate Stale(s: Threads, blank: Payload)
  {
    forall j :: 0 <= j < |s.ledger.bucket| && j !in Live(s) ==>
      s.ledger.bucket[j] == blank || s.ledger.bucket[j] in s.ledger.delivered
  }

  /** Producers that have set a bit and not filled the bucket hold different open buckets. */
  predicate Owners(s: Threads)
  {
    && (forall p :: 0 <= p < |s.producers| && s.producers[p].Marked? ==> s.producers[p].j in Open(s))
    && forall p, q :: 0 <= p < q < |s.producers| && s.producers[p].Marked? && s.producers[q].Marked? ==>
         s.producers[p].j != s.producers[q].j
  }

  predicate Whole(s: Threads, blank: Payload)
  {
    Kept(s) && Stale(s, blank) && Owners(s)
  }

  // ---------------------------------------------------------------- who is still to fill what

  lemma SameUnfilled(ps: seq<Producer>, p: nat, x: Producer)
    requires p < |ps| && !ps[p].Marked? && !x.Marked?
    ensures forall k :: Unfilled(ps[p := x], k) == Unfilled(ps, k)
  {
    forall k ensures Unfilled(ps[p := x], k) == Unfilled(ps, k) {
      if Unfilled(ps, k) {
        var q :| 0 <= q < |ps| && MarkedAt(ps[q], k);
        assert MarkedAt(ps[p := x][q], k);
      }
    }
  }

  lemma MoreUnfilled(ps: seq<Producer>, p: nat, x: Producer)
    requires p < |ps| && !ps[p].Marked? && x.Marked?
    ensures forall k :: Unfilled(ps[p := x], k) <==> Unfilled(ps, k) || k == x.j
  {
    forall k ensures Unfilled(ps[p := x], k) <==> Unfilled(ps, k) || k == x.j {
      if Unfilled(ps, k) {
        var q :| 0 <= q < |ps| && MarkedAt(ps[q], k);
        assert MarkedAt(ps[p := x][q], k);
      }
      if k == x.j {
        assert MarkedAt(ps[p := x][p], k);
      }
    }
  }

  lemma LessUnfilled(ps: seq<Producer>, p: nat, x: Producer)
    requires p < |ps| && ps[p].Marked? && !x.Marked?
    requires forall q :: 0 <= q < |ps| && q != p && ps[q].Marked? ==> ps[q].j != ps[p].j
    ensures forall k :: Unfilled(ps[p := x], k) <==> Unfilled(ps, k) && k != ps[p].j
  {
    forall k ensures Unfilled(ps[p := x], k) <==> Unfilled(ps, k) && k != ps[p].j {
      if Unfilled(ps, k) && k != ps[p].j {
        var q :| 0 <= q < |ps| && MarkedAt(ps[q], k);
        assert MarkedAt(ps[p := x][q], k);
      }
      if Unfilled(ps[p := x], k) {
        var q :| 0 <= q < |ps| && MarkedAt(ps[p := x][q], k);
        assert MarkedAt(ps[q], k);
      }
    }
  }

  // ---------------------------------------------------------------- each step of a clean system

  /** A step that leaves the live buckets and the ledger alone. */
  lemma SameWhole(s: Threads, t: Threads, blank: Payload)
    requires Whole(s, blank) && Owners(t) && t.ledger == s.ledger && Live(t) == Live(s)
    ensures Whole(t, blank)
  {
  }

  /** A producer finds a bit or counts a bucket. */
  lemma MoveWhole(s: Threads, t: Threads, blank: Payload, p: nat, x: Producer)
    requires Whole(s, blank) && p < |s.producers| && !s.producers[p].Marked? && !x.Marked?
    requires t.producers == s.producers[p := x] && t.bits == s.bits && t.sched == s.sched && t.ledger == s.ledger
    ensures Whole(t, blank)
  {
    SameUnfilled(s.producers, p, x);
    assert Live(t) == Live(s);
    SameWhole(s, t, blank);
  }

  lemma MarkWhole(s: Threads, blank: Payload, p: nat)
    requires Whole(s, blank) && p < |s.producers| && s.producers[p].Found? && s.producers[p].lane < 4
    requires var x := s.producers[p]; Clean(s) && Clean(MarkStep(s, p, x.lane, x.j, x.payload))
    ensures var x := s.producers[p]; Whole(MarkStep(s, p, x.lane, x.j, x.payload), blank)
  {
    var x := s.producers[p];
    var t := MarkStep(s, p, x.lane, x.j, x.payload);
    assert x.j !in s.bits;
    MoreUnfilled(s.producers, p, Marked(x.lane, x.j, x.payload));
    assert x.j !in Open(s) && Open(t) == Open(s) + {x.j};
    forall k ensures k in Live(t) <==> k in Live(s) {
      assert Unfilled(t.producers, k) <==> Unfilled(s.producers, k) || k == x.j;
    }
    assert Live(t) == Live(s);
    SameWhole(s, t, blank);
  }

  lemma CopyLive(s: Threads, p: nat, t: Threads)
    requires Owners(s) && p < |s.producers| && s.producers[p].Marked?
    requires t.producers == s.producers[p := Copied(s.producers[p].lane, s.producers[p].j)]
    requires t.bits == s.bits && t.sched == s.sched
    ensures s.producers[p].j !in Live(s) && Live(t) == Live(s) + {s.producers[p].j} && Owners(t)
  {
    var x := s.producers[p];
    LessUnfilled(s.producers, p, Copied(x.lane, x.j));
    assert MarkedAt(x, x.j);
  }

  lemma CopyWhole(s: Threads, ranges: RangeTable, blank: Payload, p: nat)
    requires Whole(s, blank) && p < |s.producers| && s.producers[p].Marked?
    requires s.producers[p].j < |s.ledger.bucket|
    ensures Whole(Next(s, ranges, Copy(p)), blank)
  {
    var x, t := s.producers[p], Next(s, ranges, Copy(p));
    CopyLive(s, p, t);
    QueuedFill(Live(s), s.ledger.bucket, |s.ledger.bucket|, x.j, x.payload);
  }

  /** A step of the scheduler that leaves the open buckets and the ledger alone. */
  lemma TurnWhole(s: Threads, t: Threads, blank: Payload)
    requires Whole(s, blank) && t.producers == s.producers && Open(t) == Open(s) && t.ledger == s.ledger
    ensures Whole(t, blank)
  {
    assert Live(t) == Live(s);
    SameWhole(s, t, blank);
  }

  lemma TakeWhole(s: Threads, ranges: RangeTable, blank: Payload)
    requires Whole(s, blank) && s.sched.Cleared? && s.sched.j < |s.ledger.bucket|
    requires Clean(s) && Clean(Next(s, ranges, Take))
    ensures Whole(Next(s, ranges, Take), blank)
  {
    var j, t := s.sched.j, Next(s, ranges, Take);
    assert !Unfilled(s.producers, j);
    assert forall p :: 0 <= p < |s.producers| && s.producers[p].Marked? ==> MarkedAt(s.producers[p], s.producers[p].j);
    assert Live(t) == Live(s) - {j};
    QueuedEmpty(Live(s), s.ledger.bucket, j);
  }

  lemma SchedulerWhole(s: Threads, ranges: RangeTable, n: nat, blank: Payload, e: Access)
    requires Ready(ranges, n) && n <= 256 && Producers.Inv(s, ranges) && |s.ledger.bucket| == n && !ByProducer(e)
    requires Whole(s, blank) && Clean(s) && Clean(Next(s, ranges, e))
    ensures Whole(Next(s, ranges, e), blank)
  {
    if s.sched.Cleared? && e.Take? {
      InOne(ranges, n, s.sched.lane, s.sched.j);
      TakeWhole(s, ranges, blank);
    } else {
      if s.sched.Spotted? {
        InOne(ranges, n, s.sched.lane, s.sched.j);
      }
      assert Open(Next(s, ranges, e)) == Open(s);
      TurnWhole(s, Next(s, ranges, e), blank);
    }
  }

  lemma ProducerWhole(s: Threads, ranges: RangeTable, n: nat, blank: Payload, e: Access)
    requires Ready(ranges, n) && Producers.Inv(s, ranges) && |s.ledger.bucket| == n && ByProducer(e)
    requires e.p < |s.producers| && Whole(s, blank) && Clean(s) && Clean(Next(s, ranges, e))
    ensures Whole(Next(s, ranges, e), blank)
  {
    var p, t := e.p, Next(s, ranges, e);
    assert ProducerInv(s.producers[p], ranges);
    match (s.producers[p], e)
    case (Found(lane, j, payload), Mark(_)) =>
      MarkWhole(s, blank, p);
    case (Marked(lane, j, payload), Copy(_)) =>
      InOne(ranges, n, lane, j);
      CopyWhole(s, ranges, blank, p);
    case (Idle, Find(_, _, _)) =>
      assert t.producers == s.producers[p := t.producers[p]];
      MoveWhole(s, t, blank, p, t.producers[p]);
    case (Copied(_, _), Count(_)) =>
      MoveWhole(s, t, blank, p, Idle);
    case _ =>
  }

  /** A system that is clean after a step was clean before it. */
  lemma CleanBefore(s: Threads, ranges: RangeTable, e: Access)
    requires Producers.Inv(s, ranges)
    ensures NoClash(Next(s, ranges, e)) ==> NoClash(s)
    ensures s.ledger.early <= Next(s, ranges, e).ledger.early
  {
    forall lane | 0 <= lane < 4 ensures s.collisions[lane] <= Next(s, ranges, e).collisions[lane] {
      CollisionsGrow(s, ranges, e, lane);
    }
  }

  lemma NextWhole(s: Threads, ranges: RangeTable, n: nat, blank: Payload, e: Access)
    requires Ready(ranges, n) && n <= 256 && Producers.Inv(s, ranges) && |s.ledger.bucket| == n
    requires Clean(s) ==> Whole(s, blank)
    ensures Clean(Next(s, ranges, e)) ==> Whole(Next(s, ranges, e), blank)
  {
    CleanBefore(s, ranges, e);
    if Clean(Next(s, ranges, e)) {
      if !ByProducer(e) {
        SchedulerWhole(s, ranges, n, blank, e);
      } else if e.p < |s.producers| {
        ProducerWhole(s, ranges, n, blank, e);
      }
    }
  }

  // ---------------------------------------------------------------- a bucket taken too early

  /** Something delivered was never pushed, or was delivered twice. */
  predicate Spoilt(delivered: seq<Payload>, blank: Payload)
  {
    blank in delivered || exists k, l :: 0 <= k < l < |delivered| && delivered[k] == delivered[l]
  }

  lemma SpoiltStays(delivered: seq<Payload>, blank: Payload, x: Payload)
    requires Spoilt(delivered, blank)
    ensures Spoilt(delivered + [x], blank)
  {
    var more := delivered + [x];
    if blank !in delivered {
      var k, l :| 0 <= k < l < |delivered| && delivered[k] == delivered[l];
      assert more[k] == more[l];
    } else {
      var k :| 0 <= k < |delivered| && delivered[k] == blank;
      assert more[k] == blank;
    }
  }

  lemma StaleSpoils(delivered: seq<Payload>, blank: Payload, x: Payload)
    requires x == blank || x in delivered
    ensures Spoilt(delivered + [x], blank)
  {
    var more := delivered + [x];
    assert more[|delivered|] == x;
    if x != blank {
      var k :| 0 <= k < |delivered| && delivered[k] == x;
      assert more[k] == more[|delivered|];
    }
  }

  predicate SpoiltWhenEarly(s: Threads, blank: Payload)
  {
    NoClash(s) && s.ledger.early > 0 ==> Spoilt(s.ledger.delivered, blank)
  }

  lemma TakeSpoils(s: Threads, ranges: RangeTable, blank: Payload)
    requires s.sched.Cleared? && s.sched.j < |s.ledger.bucket|
    requires (Clean(s) ==> Whole(s, blank)) && SpoiltWhenEarly(s, blank) && NoClash(s)
    ensures SpoiltWhenEarly(Next(s, ranges, Take), blank)
  {
    var j := s.sched.j;
    if s.ledger.early > 0 {
      SpoiltStays(s.ledger.delivered, blank, s.ledger.bucket[j]);
    } else if Unfilled(s.producers, j) {
      assert j !in Live(s);
      StaleSpoils(s.ledger.delivered, blank, s.ledger.bucket[j]);
    }
  }

  lemma OnlyTakeDelivers(s: Threads, ranges: RangeTable, e: Access)
    requires !(s.sched.Cleared? && e.Take?)
    ensures Next(s, ranges, e).ledger.delivered == s.ledger.delivered
    ensures Next(s, ranges, e).ledger.early == s.ledger.early
  {
  }

  lemma NextSpoilt(s: Threads, ranges: RangeTable, n: nat, blank: Payload, e: Access)
    requires Ready(ranges, n) && Producers.Inv(s, ranges) && |s.ledger.bucket| == n
    requires (Clean(s) ==> Whole(s, blank)) && SpoiltWhenEarly(s, blank)
    ensures SpoiltWhenEarly(Next(s, ranges, e), blank)
  {
    CleanBefore(s, ranges, e);
    if s.sched.Cleared? && e.Take? {
      if NoClash(s) {
        InOne(ranges, n, s.sched.lane, s.sched.j);
        TakeSpoils(s, ranges, blank);
      }
    } else {
      OnlyTakeDelivers(s, ranges, e);
    }
  }

  // ---------------------------------------------------------------- how many

  /** Producers that have filled a bucket and not counted it. */
  function Uncounted(ps: seq<Producer>): nat
  {
    if ps == [] then 0 else Uncounted(ps[..|ps| - 1]) + if ps[|ps| - 1].Copied? then 1 else 0
  }

  lemma {:induction false} UncountedUpdate(ps: seq<Producer>, p: nat, x: Producer)
    requires p < |ps|
    ensures Uncounted(ps[p := x]) + (if ps[p].Copied? then 1 else 0)
         == Uncounted(ps) + (if x.Copied? then 1 else 0)
  {
    var last := |ps| - 1;
    if p < last {
      assert ps[p := x][..last] == ps[..last][p := x];
      UncountedUpdate(ps[..last], p, x);
    } else {
      assert ps[p := x][..last] == ps[..last];
    }
  }

  /** The counters are what is pushed and not delivered, but for operations under way. */
  predicate Tallied(s: Threads)
  {
    Total(s.presence) + |s.ledger.delivered| + Uncounted(s.producers)
    == |s.ledger.pushed| + if s.sched.Taken? || s.sched.Released? then 1 else 0
  }

  lemma TotalUp(presence: Lanes, lane: nat)
    requires lane < 4 && presence[lane] < 0xffff_ffff
    ensures Total(presence[lane := Up(presence[lane])]) == Total(presence) + 1
  {
  }

  lemma TotalDown(presence: Lanes, lane: nat)
    requires lane < 4 && presence[lane] > 0
    ensures Total(presence[lane := Down(presence[lane])]) == Total(presence) - 1
  {
  }

  lemma ProducerTallied(s: Threads, ranges: RangeTable, n: nat, e: Access)
    requires Ready(ranges, n) && n <= 256 && Producers.Inv(s, ranges) && Fits(s) && |s.ledger.bucket| == n
    requires ByProducer(e) && e.p < |s.producers| && Tallied(s)
    ensures Tallied(Next(s, ranges, e))
  {
    var p, t := e.p, Next(s, ranges, e);
    assert ProducerInv(s.producers[p], ranges);
    UncountedUpdate(s.producers, p, t.producers[p]);
    assert t.producers == s.producers[p := t.producers[p]];
    match (s.producers[p], e)
    case (Marked(lane, j, payload), Copy(_)) =>
      InOne(ranges, n, lane, j);
    case (Copied(lane, j), Count(_)) =>
      CountersFit(s, ranges, n, lane);
      TotalUp(s.presence, lane);
    case _ =>
  }

  lemma NextTallied(s: Threads, ranges: RangeTable, n: nat, e: Access)
    requires Ready(ranges, n) && n <= 256 && Producers.Inv(s, ranges) && Fits(s) && |s.ledger.bucket| == n
    requires Tallied(s)
    ensures Tallied(Next(s, ranges, e))
  {
    if ByProducer(e) {
      if e.p < |s.producers| {
        ProducerTallied(s, ranges, n, e);
      }
    } else if s.sched.Cleared? || s.sched.Released? {
      InOne(ranges, n, s.sched.lane, s.sched.j);
      TotalDown(s.presence, s.sched.lane);
    }
  }

  /** Every set bit lies in a range. */
  predicate Placed(s: Threads, ranges: RangeTable, n: nat)
  {
    forall j :: j in s.bits ==> j < n && LaneOf(ranges, j, 0).Some?
  }

  lemma NextPlaced(s: Threads, ranges: RangeTable, n: nat, e: Access)
    requires Ready(ranges, n) && Producers.Inv(s, ranges) && Placed(s, ranges, n)
    ensures Placed(Next(s, ranges, e), ranges, n)
  {
    if e.Mark? && e.p < |s.producers| && s.producers[e.p].Found? {
      assert ProducerInv(s.producers[e.p], ranges);
      InOne(ranges, n, s.producers[e.p].lane, s.producers[e.p].j);
    }
  }

  /** The ranges share out the set bits. */
  lemma WithinTotal(bits: set<nat>, ranges: RangeTable, n: nat)
    requires Tiles(ranges, n) && forall j :: j in bits ==> j < n && LaneOf(ranges, j, 0).Some?
    ensures |bits| == |Within(bits, ranges[0])| + |Within(bits, ranges[1])|
                    + |Within(bits, ranges[2])| + |Within(bits, ranges[3])|
  {
    var a, b := Within(bits, ranges[0]), Within(bits, ranges[1]);
    var c, d := Within(bits, ranges[2]), Within(bits, ranges[3]);
    forall j | j in bits ensures j in a + b + c + d {
      LaneOfExact(ranges, n, j);
    }
    assert bits == a + b + c + d;
    assert a !! b && (a + b) !! c && (a + b + c) !! d;
  }

  lemma {:induction false} QueuedSize(bits: set<nat>, bucket: seq<Payload>, m: nat)
    requires m <= |bucket| && forall j :: j in bits ==> j < m
    ensures |Queued(bits, bucket, m)| == |bits|
  {
    if m == 0 {
      assert bits == {};
    } else {
      QueuedSize(bits - {m - 1}, bucket, m - 1);
      QueuedUpTo(bits, bucket, m - 1);
      if m - 1 in bits {
        assert bits == (bits - {m - 1}) + {m - 1};
      } else {
        assert bits == bits - {m - 1};
      }
    }
  }

  lemma {:induction false} QueuedUpTo(bits: set<nat>, bucket: seq<Payload>, m: nat)
    requires m < |bucket|
    ensures forall k :: m <= k ==> Queued(bits - {k}, bucket, m) == Queued(bits, bucket, m)
  {
    if m != 0 {
      QueuedUpTo(bits, bucket, m - 1);
    }
  }

  // ---------------------------------------------------------------- over every run

  predicate Accounts(s: Threads, ranges: RangeTable, n: nat, blank: Payload)
  {
    && |s.ledger.bucket| == n && Producers.Inv(s, ranges) && Placed(s, ranges, n) && Tallied(s)
    && (Clean(s) ==> Whole(s, blank)) && SpoiltWhenEarly(s, blank)
  }

  lemma BucketsStay(s: Threads, ranges: RangeTable, e: Access)
    ensures |Next(s, ranges, e).ledger.bucket| == |s.ledger.bucket|
  {
  }

  lemma NextAccounts(s: Threads, ranges: RangeTable, n: nat, blank: Payload, e: Access)
    requires Ready(ranges, n) && n <= 256 && Fits(s) && Accounts(s, ranges, n, blank)
    ensures Accounts(Next(s, ranges, e), ranges, n, blank)
  {
    BucketsStay(s, ranges, e);
    Producers.NextKeeps(s, ranges, n, e);
    NextPlaced(s, ranges, n, e);
    NextTallied(s, ranges, n, e);
    NextWhole(s, ranges, n, blank, e);
    NextSpoilt(s, ranges, n, blank, e);
  }

  lemma {:induction false} RunAccounts(s: Threads, ranges: RangeTable, n: nat, blank: Payload, accesses: seq<Access>)
    requires Ready(ranges, n) && n <= 256 && Accounts(s, ranges, n, blank)
    requires Fits(Producers.Run(s, ranges, accesses))
    ensures Accounts(Producers.Run(s, ranges, accesses), ranges, n, blank)
    decreases |accesses|
  {
    if accesses != [] {
      FitsBefore(s, ranges, accesses);
      NextAccounts(s, ranges, n, blank, accesses[0]);
      RunAccounts(Next(s, ranges, accesses[0]), ranges, n, blank, accesses[1..]);
    }
  }

  lemma {:induction false} NoneUncounted(m: nat)
    ensures Uncounted(seq(m, _ => Idle)) == 0
  {
    if m != 0 {
      assert seq(m, _ => Idle)[..m - 1] == seq(m - 1, _ => Idle);
      NoneUncounted(m - 1);
    }
  }

  lemma StartAccounts(ranges: RangeTable, n: nat, blank: Payload, producers: nat)
    ensures Accounts(Start(n, blank, producers), ranges, n, blank)
  {
    var s := Start(n, blank, producers);
    Producers.StartInv(ranges, n, blank, producers);
    NoneUncounted(producers);
    assert Live(s) == {};
    NothingQueued(s.ledger.bucket, n);
  }

  lemma ReachedAccounts(s: Threads, ranges: RangeTable, n: nat, blank: Payload, producers: nat, accesses: seq<Access>)
    requires Reached(s, ranges, n, blank, producers, accesses)
    ensures Accounts(s, ranges, n, blank)
  {
    StartAccounts(ranges, n, blank, producers);
    RunAccounts(Start(n, blank, producers), ranges, n, blank, accesses);
  }

  // ---------------------------------------------------------------- between operations

  /** Everything pushed is queued or delivered, exactly once. */
  predicate Conserved(s: Threads)
  {
    s.ledger.pushed
    == Queued(s.bits, s.ledger.bucket, |s.ledger.bucket|) + multiset(s.ledger.delivered)
  }

  lemma QuietIsSettled(s: Threads)
    requires Quiet(s)
    ensures Live(s) == s.bits && !ResetPending(s) && Uncounted(s.producers) == 0
  {
    NoUncounted(s.producers);
  }

  lemma {:induction false} NoUncounted(ps: seq<Producer>)
    requires forall p :: 0 <= p < |ps| ==> ps[p].Idle?
    ensures Uncounted(ps) == 0
    decreases |ps|
  {
    if ps != [] {
      NoUncounted(ps[..|ps| - 1]);
    }
  }

  /** Between operations nothing is lost or doubled when there has been no collision and no bucket was
  taken before it was filled. */
  lemma QuietConserves(s: Threads, ranges: RangeTable, n: nat, blank: Payload, producers: nat, accesses: seq<Access>)
    requires Reached(s, ranges, n, blank, producers, accesses) && Quiet(s)
    requires s.collisions == [0, 0, 0, 0] && s.ledger.early == 0
    ensures Conserved(s)
  {
    ReachedAccounts(s, ranges, n, blank, producers, accesses);
    QuietIsSettled(s);
  }

  function Clashes(s: Threads): nat
  {
    s.collisions[0] + s.collisions[1] + s.collisions[2] + s.collisions[3]
  }

  /** Between operations as many payloads are lost as there have been collisions. */
  lemma QuietLosesExactly(s: Threads, ranges: RangeTable, n: nat, blank: Payload, producers: nat,
                          accesses: seq<Access>)
    requires Reached(s, ranges, n, blank, producers, accesses) && Quiet(s)
    ensures |s.ledger.pushed| == |s.bits| + |s.ledger.delivered| + Clashes(s)
    ensures |s.ledger.bucket| == n && |Queued(s.bits, s.ledger.bucket, n)| == |s.bits|
  {
    ReachedAccounts(s, ranges, n, blank, producers, accesses);
    QuietIsSettled(s);
    WithinTotal(s.bits, ranges, n);
    QueuedSize(s.bits, s.ledger.bucket, n);
    forall lane | 0 <= lane < 4
      ensures s.presence[lane] as nat == |Within(s.bits, ranges[lane])| + s.collisions[lane]
    {
      QuietCountsExactly(s, ranges, n, blank, producers, accesses, lane);
    }
  }

  /** The payloads pushed differ from each other and from what the buckets held at first. */
  ghost predicate AllDistinct(pushed: multiset<Payload>, blank: Payload)
  {
    blank !in pushed && forall x :: pushed[x] <= 1
  }

  lemma SpoiltIsNotPushed(pushed: multiset<Payload>, rest: multiset<Payload>, delivered: seq<Payload>, blank: Payload)
    requires AllDistinct(pushed, blank) && Spoilt(delivered, blank)
    ensures pushed != rest + multiset(delivered)
  {
    if blank in delivered {
      assert multiset(delivered)[blank] > 0;
      assert pushed[blank] == 0;
    } else {
      var k, l :| 0 <= k < l < |delivered| && delivered[k] == delivered[l];
      assert delivered == delivered[..l] + [delivered[l]] + delivered[l + 1..];
      assert delivered[l] in delivered[..l];
      assert multiset(delivered)[delivered[l]] >= 2;
      assert pushed[delivered[l]] <= 1;
    }
  }

  /** For payloads that can be told apart: between operations everything pushed is queued or delivered
  exactly once if and only if there has been no collision and no bucket was taken before it was
  filled. */
  lemma QuietConservesExactly(s: Threads, ranges: RangeTable, n: nat, blank: Payload, producers: nat,
                              accesses: seq<Access>)
    requires Reached(s, ranges, n, blank, producers, accesses) && Quiet(s)
    requires AllDistinct(s.ledger.pushed, blank)
    ensures Conserved(s) <==> s.collisions == [0, 0, 0, 0] && s.ledger.early == 0
  {
    if s.collisions == [0, 0, 0, 0] && s.ledger.early == 0 {
      QuietConserves(s, ranges, n, blank, producers, accesses);
    }
    if Conserved(s) {
      QuietLosesExactly(s, ranges, n, blank, producers, accesses);
      assert s.collisions == [0, 0, 0, 0];
      ReachedAccounts(s, ranges, n, blank, producers, accesses);
      if s.ledger.early > 0 {
        SpoiltIsNotPushed(s.ledger.pushed, Queued(s.bits, s.ledger.bucket, n), s.ledger.delivered, blank);
      }
    }
  }
}
