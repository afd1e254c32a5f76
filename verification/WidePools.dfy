/** Pools of more than 256 buckets: the scheduler is told a bucket index in eight bits. */
module WidePools {
  import opened Wrappers
  import opened Ranges
  import opened SyncMap
  import opened PriorityQueue
  import opened QueueRuns

  /** Every pushed payload is queued or delivered exactly once. */
  predicate Conserved(s: System)
  {
    s.pushed == Content(s.queue) + multiset(s.delivered)
  }

  // ---------------------------------------------------------------- a stocked range

  /** The range that is stocked: the most urgent one with a bucket besides the last of the pool. */
  function StockLane(ranges: RangeTable): nat
  {
    if ranges[0].size >= 2 then 0 else 1
  }

  function StockPrior(ranges: RangeTable): Prior
  {
    if ranges[0].size >= 2 then Real else High
  }

  /** Payloads that differ from each other and from the blank one. */
  function Item(ranges: RangeTable, blank: Payload, k: nat): Payload
  {
    Payload(StockPrior(ranges), seq(|blank.bytes| + 1 + k, _ => 0))
  }

  /** The buckets from the first of the range up to k further ones hold the items. */
  predicate Shelved(q: Queue, ranges: RangeTable, blank: Payload, k: nat)
  {
    var f := ranges[StockLane(ranges)].first;
    forall x :: 0 <= x < |q.bucket| ==>
      q.bucket[x] == if f <= x < f + k then Item(ranges, blank, x - f) else blank
  }

  ghost predicate Interval(bits: set<nat>, lo: nat, hi: nat)
  {
    forall x :: x in bits <==> lo <= x < hi
  }

  lemma IntervalGrows(bits: set<nat>, lo: nat, hi: nat)
    requires lo <= hi && Interval(bits, lo, hi)
    ensures Interval(bits + {hi}, lo, hi + 1)
  {
  }

  ghost predicate Stocked(s: System, ranges: RangeTable, blank: Payload, k: nat)
  {
    var f := ranges[StockLane(ranges)].first;
    Inv(s, ranges) && Shelved(s.queue, ranges, blank, k) && Interval(s.queue.bits, f, f + k)
  }

  /** The stocked range reaches to the last bucket but one. */
  lemma StockRange(ranges: RangeTable, n: nat)
    requires Ready(ranges, n)
    ensures var r := ranges[StockLane(ranges)]; r.first <= n - 2 < End(r) <= n
    ensures Lane(StockPrior(ranges)) == Some(StockLane(ranges))
  {
    assert Roomy(ranges[0]) && Roomy(ranges[1]);
  }

  lemma {:induction false} StockTarget(s: System, ranges: RangeTable, blank: Payload, k: nat)
    requires Stocked(s, ranges, blank, k)
    requires ranges[StockLane(ranges)].first + k <= |s.queue.bucket| - 2
    ensures LoadTarget(s.queue, ranges, StockPrior(ranges)) == Loaded(ranges[StockLane(ranges)].first + k)
  {
    var n, lane := |s.queue.bucket|, StockLane(ranges);
    var next := ranges[lane].first + k;
    StockRange(ranges, n);
    UpperIsEnd(ranges, n, lane);
    assert Roomy(ranges[lane]);
    assert next !in s.queue.bits;
  }

  lemma {:induction false} StockOne(s: System, ranges: RangeTable, blank: Payload, k: nat)
    requires k > 0 && Stocked(s, ranges, blank, k - 1)
    requires ranges[StockLane(ranges)].first + k <= |s.queue.bucket| - 1
    ensures var after := Step(s, ranges, Push(Item(ranges, blank, k - 1)));
      Stocked(after, ranges, blank, k) && |after.queue.bucket| == |s.queue.bucket|
  {
    var p, next := Item(ranges, blank, k - 1), ranges[StockLane(ranges)].first + k - 1;
    StockTarget(s, ranges, blank, k - 1);
    StockRange(ranges, |s.queue.bucket|);
    StepKeeps(s, ranges, Push(p));
    StepLoads(s, ranges, p, next);
    ShelveOne(s.queue, ranges, blank, k, p);
    IntervalGrows(s.queue.bits, ranges[StockLane(ranges)].first, next);
  }

  lemma StepLoads(s: System, ranges: RangeTable, p: Payload, j: nat)
    requires LoadTarget(s.queue, ranges, p.priority) == Loaded(j)
    ensures var after := Step(s, ranges, Push(p)).queue;
      after.bits == s.queue.bits + {j} && after.bucket == s.queue.bucket[j := p]
  {
  }

  lemma {:induction false} ShelveOne(q: Queue, ranges: RangeTable, blank: Payload, k: nat, p: Payload)
    requires k > 0 && Shelved(q, ranges, blank, k - 1) && p == Item(ranges, blank, k - 1)
    requires ranges[StockLane(ranges)].first + k <= |q.bucket| - 1
    ensures Shelved(q.(bucket := q.bucket[ranges[StockLane(ranges)].first + k - 1 := p]), ranges, blank, k)
  {
  }

  lemma {:induction false} RunOn(s: System, ranges: RangeTable, a: seq<Event>, b: seq<Event>)
    ensures Run(s, ranges, a + b) == Run(Run(s, ranges, a), ranges, b)
    decreases |a|
  {
    if a == [] {
      assert a + b == b;
    } else {
      assert (a + b)[1..] == a[1..] + b;
      RunOn(Step(s, ranges, a[0]), ranges, a[1..], b);
    }
  }

  lemma {:induction false} RunLast(s: System, ranges: RangeTable, a: seq<Event>, e: Event)
    ensures Run(s, ranges, a + [e]) == Step(Run(s, ranges, a), ranges, e)
  {
    RunOn(s, ranges, a, [e]);
    RunOne(Run(s, ranges, a), ranges, e);
  }

  lemma RunOne(s: System, ranges: RangeTable, e: Event)
    ensures Run(s, ranges, [e]) == Step(s, ranges, e)
  {
  }

  lemma {:induction false} StockStarts(ranges: RangeTable, n: nat, blank: Payload)
    requires Ready(ranges, n)
    ensures Stocked(Initial(n, blank), ranges, blank, 0)
  {
    InitialInv(ranges, n, blank);
  }

  function Stocking(ranges: RangeTable, blank: Payload, k: nat): seq<Event>
  {
    if k == 0 then [] else Stocking(ranges, blank, k - 1) + [Push(Item(ranges, blank, k - 1))]
  }

  /** The states after each number of items up to k. */
  function StockStates(s: System, ranges: RangeTable, blank: Payload, k: nat): (ss: seq<System>)
    ensures |ss| == k + 1
    ensures forall i :: 0 <= i <= k ==> ss[i] == Run(s, ranges, Stocking(ranges, blank, i))
  {
    seq(k + 1, i requires 0 <= i <= k => Run(s, ranges, Stocking(ranges, blank, i)))
  }

  lemma {:induction false} StockStatesStep(s: System, ranges: RangeTable, blank: Payload, k: nat, i: nat)
    requires i < k
    ensures var ss := StockStates(s, ranges, blank, k); ss[i + 1] == Step(ss[i], ranges, Push(Item(ranges, blank, i)))
  {
    RunLast(s, ranges, Stocking(ranges, blank, i), Push(Item(ranges, blank, i)));
  }

  lemma {:induction false} StockAll(ss: seq<System>, ranges: RangeTable, blank: Payload, k: nat)
    requires |ss| > k && Stocked(ss[0], ranges, blank, 0)
    requires ranges[StockLane(ranges)].first + k <= |ss[0].queue.bucket| - 1
    requires forall i :: 0 <= i < k ==> ss[i + 1] == Step(ss[i], ranges, Push(Item(ranges, blank, i)))
    ensures Stocked(ss[k], ranges, blank, k) && |ss[k].queue.bucket| == |ss[0].queue.bucket|
  {
    if k != 0 {
      StockAll(ss, ranges, blank, k - 1);
      StockOne(ss[k - 1], ranges, blank, k);
    }
  }

  lemma {:induction false} Stock(s: System, ranges: RangeTable, blank: Payload, k: nat)
    requires Stocked(s, ranges, blank, 0) && ranges[StockLane(ranges)].first + k <= |s.queue.bucket| - 1
    ensures Stocked(Run(s, ranges, Stocking(ranges, blank, k)), ranges, blank, k)
    ensures |Run(s, ranges, Stocking(ranges, blank, k)).queue.bucket| == |s.queue.bucket|
  {
    var ss := StockStates(s, ranges, blank, k);
    assert ss[0] == s;
    forall i | 0 <= i < k ensures ss[i + 1] == Step(ss[i], ranges, Push(Item(ranges, blank, i))) {
      StockStatesStep(s, ranges, blank, k, i);
    }
    StockAll(ss, ranges, blank, k);
  }

  // ---------------------------------------------------------------- selling out

  /** Part of the stock is still queued, the last bucket but one included; the last one is free. */
  ghost predicate Selling(s: System, ranges: RangeTable, blank: Payload)
  {
    var f, n := ranges[StockLane(ranges)].first, |s.queue.bucket|;
    && n > 256 && Inv(s, ranges) && f <= n - 2 && Shelved(s.queue, ranges, blank, n - 1 - f)
    && n - 2 in s.queue.bits && forall x :: x in s.queue.bits ==> f <= x <= n - 2
  }

  /** Only the stocked range counts anything. */
  lemma {:induction false} StockIsUrgent(s: System, ranges: RangeTable, blank: Payload)
    requires Selling(s, ranges, blank)
    ensures AnyPresence(s.queue.presence)
    ensures Choose(s.queue.presence, ranges, NONE_USED, 0).lane == StockLane(ranges)
  {
    var q, n, lane := s.queue, |s.queue.bucket|, StockLane(ranges);
    StockRange(ranges, n);
    assert n - 2 in Within(q.bits, ranges[lane]);
    if lane == 1 {
      assert Within(q.bits, ranges[0]) == {};
    }
    ChoosesMostUrgent(q.presence, ranges);
  }

  /** The search finds something: a first word full from the range's start lies below the last. */
  lemma {:induction false} StockIsFound(s: System, ranges: RangeTable, blank: Payload)
    requires Selling(s, ranges, blank)
    ensures PopTarget(s.queue, ranges).Some?
  {
    var q, n, lane := s.queue, |s.queue.bucket|, StockLane(ranges);
    StockRange(ranges, n);
    UpperIsEnd(ranges, n, lane);
    StockIsUrgent(s, ranges, blank);
    var f := ranges[lane].first;
    WordsEnd(f, n);
    if FirstClear(q.bits, f, 64 * (f / 64 + 1)).None? {
      assert n - 1 !in q.bits;
      assert 64 * (f / 64 + 1) <= n - 2;
    }
  }

  lemma WordsEnd(f: nat, n: nat)
    requires f < n && n % 64 == 0
    ensures 64 * (f / 64 + 1) == n || 64 * (f / 64 + 1) <= n - 64
  {
  }

  lemma {:induction false} SellTakes(s: System, ranges: RangeTable, blank: Payload)
    requires Selling(s, ranges, blank) && Named(s.queue, ranges)
    ensures PopTarget(s.queue, ranges).Some?
    ensures var j, after := PopTarget(s.queue, ranges).value, Step(s, ranges, PopCycle);
      && j in s.queue.bits && j < 256
      && after.queue.bits == s.queue.bits - {j} && after.queue.bucket == s.queue.bucket
  {
    StockIsFound(s, ranges, blank);
    PopEffect(s.queue, ranges);
  }

  lemma {:induction false} SellOne(s: System, ranges: RangeTable, blank: Payload)
    requires Selling(s, ranges, blank) && Named(s.queue, ranges)
    ensures var after := Step(s, ranges, PopCycle);
      Selling(after, ranges, blank) && |after.queue.bits| < |s.queue.bits|
  {
    SellTakes(s, ranges, blank);
    StepKeeps(s, ranges, PopCycle);
    SameShelves(s.queue, Step(s, ranges, PopCycle).queue, ranges, blank);
    StillSelling(s, Step(s, ranges, PopCycle), ranges, blank, PopTarget(s.queue, ranges).value);
  }

  lemma {:induction false} StillSelling(s: System, t: System, ranges: RangeTable, blank: Payload, j: nat)
    requires Selling(s, ranges, blank) && Inv(t, ranges) && |t.queue.bucket| == |s.queue.bucket|
    requires j < 256 && t.queue.bits == s.queue.bits - {j}
    requires forall k :: Shelved(s.queue, ranges, blank, k) == Shelved(t.queue, ranges, blank, k)
    ensures Selling(t, ranges, blank)
  {
    assert |s.queue.bucket| >= 320;
  }

  lemma SameShelves(q: Queue, r: Queue, ranges: RangeTable, blank: Payload)
    requires q.bucket == r.bucket
    ensures forall k :: Shelved(q, ranges, blank, k) == Shelved(r, ranges, blank, k)
  {
  }

  lemma TakenTwice(c: multiset<Payload>, d: multiset<Payload>, x: Payload, y: Payload)
    ensures c + multiset{x} + multiset{y} + d != c + (d + multiset{x})
  {
    assert (c + multiset{x} + multiset{y} + d)[y] == (c + (d + multiset{x}))[y] + 1;
  }

  lemma Swapped(c: multiset<Payload>, d: multiset<Payload>, x: Payload, y: Payload)
    requires x != y
    ensures c + multiset{y} + d != c + (d + multiset{x})
  {
    assert (c + multiset{y} + d)[y] == (c + (d + multiset{x}))[y] + 1;
  }

  /** Taking one bucket off the map and delivering another one, which is taken off too. */
  lemma {:induction false} Unbalanced(bits: set<nat>, bucket: seq<Payload>, d: multiset<Payload>, j: nat, t: nat)
    requires j < |bucket| && t < |bucket| && j in bits && j != t && bucket[j] != bucket[t]
    ensures var n := |bucket|;
      Queued(bits, bucket, n) + d != Queued(bits - {j} - {t}, bucket, n) + (d + multiset{bucket[t]})
  {
    var rest := Queued(bits - {j} - {t}, bucket, |bucket|);
    QueuedEmpty(bits, bucket, j);
    if t in bits {
      QueuedEmpty(bits - {j}, bucket, t);
      TakenTwice(rest, d, bucket[t], bucket[j]);
    } else {
      assert bits - {j} - {t} == bits - {j};
      Swapped(rest, d, bucket[t], bucket[j]);
    }
  }

  lemma {:induction false} ItemsDiffer(q: Queue, ranges: RangeTable, blank: Payload, k: nat, j: nat, t: nat)
    requires Shelved(q, ranges, blank, k) && j < |q.bucket| && t < |q.bucket| && j != t
    requires ranges[StockLane(ranges)].first <= j < ranges[StockLane(ranges)].first + k
    ensures q.bucket[j] != q.bucket[t]
  {
    assert |q.bucket[j].bytes| != |q.bucket[t].bytes|;
  }

  lemma {:induction false} WrongTaken(s: System, ranges: RangeTable, blank: Payload, j: nat)
    requires Selling(s, ranges, blank) && PopTarget(s.queue, ranges) == Some(j)
    ensures var q, t, after := s.queue, Told(j), Step(s, ranges, PopCycle);
      && t < |q.bucket| && j < |q.bucket| && j in q.bits
      && after.queue.bits == q.bits - {j} - {t} && after.queue.bucket == q.bucket
      && after.delivered == s.delivered + [q.bucket[t]] && after.pushed == s.pushed
  {
    StockIsUrgent(s, ranges, blank);
    ChoosesMostUrgent(s.queue.presence, ranges);
  }

  /** The bucket of another payload is handed over and given back: what is delivered is not what was
  taken off the map. */
  lemma {:induction false} WrongBucket(s: System, ranges: RangeTable, blank: Payload)
    requires Selling(s, ranges, blank) && !Named(s.queue, ranges)
    ensures !Conserved(Step(s, ranges, PopCycle))
  {
    var q, j, f := s.queue, PopTarget(s.queue, ranges).value, ranges[StockLane(ranges)].first;
    var t, after := Told(j), Step(s, ranges, PopCycle);
    WrongTaken(s, ranges, blank, j);
    ItemsDiffer(q, ranges, blank, |q.bucket| - 1 - f, j, t);
    Unbalanced(q.bits, q.bucket, multiset(s.delivered), j, t);
    assert multiset(after.delivered) == multiset(s.delivered) + multiset{q.bucket[t]};
  }

  lemma {:induction false} SellOut(s: System, ranges: RangeTable, blank: Payload) returns (events: seq<Event>)
    requires Selling(s, ranges, blank)
    ensures !Conserved(Run(s, ranges, events))
    decreases |s.queue.bits|
  {
    if Named(s.queue, ranges) {
      SellOne(s, ranges, blank);
      var rest := SellOut(Step(s, ranges, PopCycle), ranges, blank);
      events := [PopCycle] + rest;
      RunOn(s, ranges, [PopCycle], rest);
      RunOne(s, ranges, PopCycle);
    } else {
      WrongBucket(s, ranges, blank);
      events := [PopCycle];
      RunOne(s, ranges, PopCycle);
    }
  }

  // ---------------------------------------------------------------- the exact size

  lemma {:induction false} StockSells(s: System, ranges: RangeTable, blank: Payload, k: nat)
    requires |s.queue.bucket| > 256 && k > 0 && ranges[StockLane(ranges)].first + k == |s.queue.bucket| - 1
    requires Stocked(s, ranges, blank, k)
    ensures Selling(s, ranges, blank)
  {
  }

  lemma {:induction false} WideLosesFrom(s: System, ranges: RangeTable, blank: Payload, k: nat)
    returns (events: seq<Event>)
    requires |s.queue.bucket| > 256 && k > 0 && ranges[StockLane(ranges)].first + k == |s.queue.bucket| - 1
    requires Stocked(s, ranges, blank, 0)
    ensures !Conserved(Run(s, ranges, events))
  {
    var fill := Stocking(ranges, blank, k);
    Stock(s, ranges, blank, k);
    var full := Run(s, ranges, fill);
    StockSells(full, ranges, blank, k);
    var rest := SellOut(full, ranges, blank);
    events := fill + rest;
    RunOn(s, ranges, fill, rest);
  }

  lemma {:induction false} WideLoses(ranges: RangeTable, n: nat, blank: Payload) returns (events: seq<Event>)
    requires Ready(ranges, n) && n > 256
    ensures !Conserved(Run(Initial(n, blank), ranges, events))
  {
    StockRange(ranges, n);
    StockStarts(ranges, n, blank);
    events := WideLosesFrom(Initial(n, blank), ranges, blank, n - 1 - ranges[StockLane(ranges)].first);
  }

  /** Whatever the ranges are, every run conserves the payloads exactly when the pool has at most 256
  buckets. */
  lemma {:induction false} ConservesExactly(ranges: RangeTable, n: nat, blank: Payload)
    requires Ready(ranges, n)
    ensures (forall events: seq<Event> :: Conserved(Run(Initial(n, blank), ranges, events))) <==> n <= 256
  {
    if n <= 256 {
      forall events: seq<Event> ensures Conserved(Run(Initial(n, blank), ranges, events)) {
        RunConserves(ranges, n, blank, events);
      }
    } else {
      var events := WideLoses(ranges, n, blank);
    }
  }
}
