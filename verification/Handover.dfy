/** What holds in every interleaving of one scheduler with any number of vrow workers. */
module Handover {
  import opened Words
  import opened PriorityQueue
  import opened Vrow
  import opened Handshake

  predicate Reached(convert: Payload -> Payload, start: System, events: seq<Event>, s: System)
  {
    Fresh(start) && s == Run(convert, start, events)
  }

  lemma ReachedInv(convert: Payload -> Payload, start: System, events: seq<Event>, s: System)
    requires Reached(convert, start, events, s)
    ensures Inv(convert, s)
  {
    FreshInv(convert, start);
    RunKeeps(convert, start, events);
  }

  /** A clear busy bit means an empty bank 0 and a worker that is only looking at it, everything
  loaded being finished. */
  lemma ClearMeansIdle(convert: Payload -> Payload, start: System, events: seq<Event>, s: System, v: nat)
    requires Reached(convert, start, events, s) && v < |s.workers| && !s.workers[v].memory.busy
    ensures var w := s.workers[v];
      FillBit(0) !in w.memory.states && w.pc == 0 && w.processed == Map(convert, w.loaded)
  {
    ReachedInv(convert, start, events, s);
  }

  /** The busy bit that the scheduler has seen clear is still clear when it sets it, and from then on
  the vrow is the scheduler's alone until it hands a payload over. */
  lemma ClaimFlips(convert: Payload -> Payload, start: System, events: seq<Event>, s: System)
    requires Reached(convert, start, events, s)
    ensures s.sched.Saw? ==>
      s.sched.v < |s.workers| && !s.workers[s.sched.v].memory.busy
    ensures Owns(s.sched) ==>
      s.sched.v < |s.workers| && s.workers[s.sched.v].pc == 0 &&
      FillBit(0) !in s.workers[s.sched.v].memory.states
  {
    ReachedInv(convert, start, events, s);
    if !s.sched.Scanning? {
      assert WorkerInv(convert, s.workers[s.sched.v], s.sched);
    }
  }

  /** The load never waits: its first look finds bank 0 empty. */
  lemma LoadNeverWaits(convert: Payload -> Payload, start: System, events: seq<Event>, s: System)
    requires Reached(convert, start, events, s) && s.sched.Holding?
    ensures Next(convert, s, Look).sched == FoundEmpty(s.sched.v, s.sched.payload)
  {
    ClaimFlips(convert, start, events, s);
  }

  /** Every payload loaded into a vrow is finished exactly once and in order, with at most one on
  its way. */
  lemma ExactlyOnce(convert: Payload -> Payload, start: System, events: seq<Event>, s: System, v: nat)
    requires Reached(convert, start, events, s) && v < |s.workers|
    ensures var w := s.workers[v];
      && |w.processed| <= |w.loaded| <= |w.processed| + 1
      && w.processed == Map(convert, w.loaded[..|w.processed|])
  {
    ReachedInv(convert, start, events, s);
    var w := s.workers[v];
    assert WorkerInv(convert, w, SeenBy(s.sched, v));
    if Resting(w) {
      assert w.loaded[..|w.processed|] == w.loaded;
    }
  }

  /** Between payloads the state byte tells only the parity of their number: the worker is active at
  bank 0, and after an odd number also marked active and filled at bank 2, so that the byte is 2 or
  50. */
  lemma StatesBetweenPayloads(convert: Payload -> Payload, start: System, events: seq<Event>, s: System, v: nat)
    requires Reached(convert, start, events, s) && v < |s.workers|
    requires s.workers[v].pc == 0 && FillBit(0) !in s.workers[v].memory.states
    ensures s.workers[v].memory.states
         == if Odd(|s.workers[v].loaded|) then {1, 4, 5} else {1}
  {
    ReachedInv(convert, start, events, s);
    var w := s.workers[v];
    assert WorkerInv(convert, w, SeenBy(s.sched, v));
    EveryBit(w.memory.states);
  }

  lemma EveryBit(states: ByteMap)
    ensures forall b :: b in states ==>
      b == FillBit(0) || b == ActiveBit(0) || b == FillBit(1) || b == ActiveBit(1) ||
      b == FillBit(2) || b == ActiveBit(2) || b == FillBit(3) || b == ActiveBit(3)
  {
  }

  /** On the fill bit of bank 0 the toggles act as a set by the scheduler and a clear by the worker. */
  lemma TogglesSetAndClear(convert: Payload -> Payload, start: System, events: seq<Event>, s: System, v: nat)
    requires Reached(convert, start, events, s) && v < |s.workers|
    ensures s.sched.Stored? && s.sched.v == v ==>
      FillBit(0) !in s.workers[v].memory.states &&
      FillBit(0) in Next(convert, s, Switch).workers[v].memory.states
    ensures s.workers[v].pc == 8 ==>
      FillBit(0) in s.workers[v].memory.states &&
      FillBit(0) !in Next(convert, s, Work(v)).workers[v].memory.states
  {
    ReachedInv(convert, start, events, s);
    assert WorkerInv(convert, s.workers[v], SeenBy(s.sched, v));
  }

  // ---------------------------------------------------------------- finishing

  /** The steps of its own that a worker needs to finish what it has been given. */
  function Remaining(w: Worker): nat
  {
    if w.pc == 0 then if FillBit(0) in w.memory.states then 17 else 0
    else if w.pc <= 16 then 17 - w.pc
    else 0
  }

  function Turns(events: seq<Event>, v: nat): nat
  {
    if events == [] then 0 else (if events[0] == Work(v) then 1 else 0) + Turns(events[1..], v)
  }

  /** Nobody else touches a vrow that has something left to do. */
  lemma LeftAlone(convert: Payload -> Payload, s: System, e: Event, v: nat)
    requires Inv(convert, s) && v < |s.workers| && Remaining(s.workers[v]) > 0 && e != Work(v)
    ensures Next(convert, s, e).workers[v] == s.workers[v]
  {
    assert WorkerInv(convert, s.workers[v], SeenBy(s.sched, v));
  }

  lemma OneTurn(convert: Payload -> Payload, s: System, v: nat)
    requires Inv(convert, s) && v < |s.workers| && Remaining(s.workers[v]) > 0
    ensures var after := Next(convert, s, Work(v)).workers[v];
      Remaining(after) == Remaining(s.workers[v]) - 1 && after.loaded == s.workers[v].loaded
  {
    assert WorkerInv(convert, s.workers[v], SeenBy(s.sched, v));
    NextKeeps(convert, s, Work(v));
    assert WorkerInv(convert, WorkerStep(convert, s.workers[v]), SeenBy(s.sched, v));
  }

  lemma {:induction false} TurnsCountDown(convert: Payload -> Payload, s: System, events: seq<Event>, v: nat)
    requires Inv(convert, s) && v < |s.workers| && Turns(events, v) < Remaining(s.workers[v])
    ensures var after := Run(convert, s, events);
      && Inv(convert, after) && |after.workers| == |s.workers|
      && Remaining(after.workers[v]) == Remaining(s.workers[v]) - Turns(events, v)
      && after.workers[v].loaded == s.workers[v].loaded
    decreases |events|
  {
    if events != [] {
      NextKeeps(convert, s, events[0]);
      if events[0] == Work(v) {
        OneTurn(convert, s, v);
      } else {
        LeftAlone(convert, s, events[0], v);
      }
      TurnsCountDown(convert, Next(convert, s, events[0]), events[1..], v);
    }
  }

  /** Whatever the others do in between, a worker that has been handed a payload finishes it with its
  remaining steps, seventeen from the look that finds it. */
  lemma {:induction false} Finishes(convert: Payload -> Payload, s: System, events: seq<Event>, v: nat)
    requires Inv(convert, s) && v < |s.workers|
    requires Turns(events, v) + 1 == Remaining(s.workers[v])
    ensures var after := Next(convert, Run(convert, s, events), Work(v));
      v < |after.workers| && after.workers[v].loaded == s.workers[v].loaded
      && after.workers[v].processed == Map(convert, s.workers[v].loaded) && Resting(after.workers[v])
  {
    TurnsCountDown(convert, s, events, v);
    var before := Run(convert, s, events);
    OneTurn(convert, before, v);
    NextKeeps(convert, before, Work(v));
    assert WorkerInv(convert, WorkerStep(convert, before.workers[v]), SeenBy(before.sched, v));
  }

  // ---------------------------------------------------------------- the worker's own loop

  function WorkerSteps(convert: Payload -> Payload, w: Worker, n: nat): Worker
  {
    if n == 0 then w else WorkerStep(convert, WorkerSteps(convert, w, n - 1))
  }

  lemma ResultUnused(action: nat, p: Payload, q: Payload, m: Memory)
    requires action != 3
    ensures Act(action, p, m) == Act(action, q, m)
  {
  }

  lemma BanksUntouched(p: Payload, m: Memory)
    ensures Acts(2, p, m).banks == m.banks
  {
    assert Acts(1, p, m) == Act(1, p, m);
  }

  lemma StepActs(convert: Payload -> Payload, w: Worker)
    requires 1 <= w.pc <= 16
    ensures WorkerStep(convert, w).memory == Act(w.pc, convert(w.memory.banks[0]), w.memory)
    ensures WorkerStep(convert, w).pc == if w.pc == 16 then 0 else w.pc + 1
  {
  }

  /** The interleaved worker's steps, taken without interruption, are the actions of the worker's
  loop turn in order. */
  lemma {:induction false} StepsAreActs(convert: Payload -> Payload, w: Worker, n: nat)
    requires w.pc == 1 && n <= 16
    ensures WorkerSteps(convert, w, n).memory == Acts(n, convert(w.memory.banks[0]), w.memory)
    ensures WorkerSteps(convert, w, n).pc == if n == 16 then 0 else n + 1
    decreases n
  {
    if n != 0 {
      var p, before := convert(w.memory.banks[0]), WorkerSteps(convert, w, n - 1);
      StepsAreActs(convert, w, n - 1);
      StepActs(convert, before);
      if n == 3 {
        BanksUntouched(p, w.memory);
      } else {
        ResultUnused(n, p, convert(before.memory.banks[0]), before.memory);
      }
    }
  }
}
