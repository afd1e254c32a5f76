/** The scheduler and any number of vrow workers, one atomic memory access at a time. */
module Handshake {
  import opened Words
  import opened PriorityQueue
  import opened Vrow

  /** A vrow with the action its worker performs next (0 is the look at bank 0), the payloads loaded
  into it and the payloads its worker has finished. */
  datatype Worker = Worker(memory: Memory, pc: nat, loaded: seq<Payload>, processed: seq<Payload>)

  /** Where the scheduler is: it has seen a clear busy bit, has set it, has a payload for the vrow,
  has found bank 0 empty, has stored the payload there. */
  datatype Sched =
    | Scanning
    | Saw(v: nat)
    | Claimed(v: nat)
    | Holding(v: nat, payload: Payload)
    | FoundEmpty(v: nat, payload: Payload)
    | Stored(v: nat, payload: Payload)

  datatype System = System(workers: seq<Worker>, sched: Sched)

  datatype Event = Work(v: nat) | Scan(v: nat) | Claim | Miss | Take(payload: Payload) | Look | Store | Switch

  // ---------------------------------------------------------------- steps

  function WorkerStep(convert: Payload -> Payload, w: Worker): Worker
  {
    var after := Act(w.pc, convert(w.memory.banks[0]), w.memory);
    if w.pc == 0 then w.(pc := if FillBit(0) in w.memory.states then 1 else 0)
    else if w.pc == 15 then w.(memory := after, pc := 16, processed := w.processed + [w.memory.banks[2]])
    else if w.pc < 16 then w.(memory := after, pc := w.pc + 1)
    else w.(memory := after, pc := 0)
  }

  /** The scheduler's accesses to the vrow it deals with; `e` is what it does next. */
  function SchedStep(w: Worker, sched: Sched, e: Event): (Worker, Sched)
  {
    match (sched, e)
    case (Saw(v), Claim) => (w.(memory := w.memory.(busy := true)), Claimed(v))
    case (Claimed(v), Miss) => (w.(memory := w.memory.(busy := false)), Scanning)
    case (Claimed(v), Take(p)) => (w, Holding(v, p))
    case (Holding(v, p), Look) => (w, if FillBit(0) in w.memory.states then sched else FoundEmpty(v, p))
    case (FoundEmpty(v, p), Store) =>
      (w.(memory := w.memory.(banks := w.memory.banks[0 := p])), Stored(v, p))
    case (Stored(v, p), Switch) =>
      (w.(memory := Toggled(w.memory, FillBit(0)), loaded := w.loaded + [p]), Scanning)
    case _ => (w, sched)
  }

  /** Events that cannot happen leave the system as it is. */
  function Next(convert: Payload -> Payload, s: System, e: Event): System
  {
    match e
    case Work(v) =>
      if v < |s.workers| then s.(workers := s.workers[v := WorkerStep(convert, s.workers[v])]) else s
    case Scan(v) =>
      if s.sched.Scanning? && v < |s.workers| && !s.workers[v].memory.busy then s.(sched := Saw(v)) else s
    case _ =>
      if s.sched.Scanning? || s.sched.v >= |s.workers| then s
      else
        var (w, sched) := SchedStep(s.workers[s.sched.v], s.sched, e);
        System(s.workers[s.sched.v := w], sched)
  }

  function Run(convert: Payload -> Payload, s: System, events: seq<Event>): System
    decreases |events|
  {
    if events == [] then s else Run(convert, Next(convert, s, events[0]), events[1..])
  }

  /** New vrows: empty banks, workers about to look at bank 0, all busy bits clear. */
  function NewWorker(banks: Banks): Worker
  {
    Worker(Memory({ActiveBit(0)}, banks, false), 0, [], [])
  }

  predicate Fresh(s: System)
  {
    s.sched == Scanning && forall v :: 0 <= v < |s.workers| ==> s.workers[v] == NewWorker(s.workers[v].memory.banks)
  }

  // ---------------------------------------------------------------- the invariant

  predicate Odd(n: nat)
  {
    n % 2 == 1
  }

  /** The state byte is determined by the worker's position and the number of finished payloads,
  except for the fill bit of bank 0 while the worker looks at it. */
  predicate StatesMatch(states: ByteMap, pc: nat, odd: bool)
  {
    && (ActiveBit(0) in states <==> pc <= 1 || pc >= 6)
    && (ActiveBit(1) in states <==> 5 <= pc <= 11)
    && (ActiveBit(2) in states <==> odd != (11 <= pc <= 15))
    && (pc != 0 ==> (FillBit(0) in states <==> pc <= 8))
    && (FillBit(1) in states <==> 7 <= pc <= 14)
    && (FillBit(2) in states <==> odd != (13 <= pc <= 15))
    && FillBit(3) !in states && ActiveBit(3) !in states
  }

  /** No payload is on its way through the banks. */
  predicate Resting(w: Worker)
  {
    w.pc == 16 || (w.pc == 0 && FillBit(0) !in w.memory.states)
  }

  function Map(convert: Payload -> Payload, ps: seq<Payload>): seq<Payload>
  {
    seq(|ps|, i requires 0 <= i < |ps| => convert(ps[i]))
  }

  /** Where payload p is while it is on its way. */
  predicate Carries(convert: Payload -> Payload, m: Memory, pc: nat, p: Payload)
  {
    if pc <= 3 then m.banks[0] == p
    else if pc <= 7 then m.banks[0] == convert(p)
    else if pc <= 13 then m.banks[1] == convert(p)
    else m.banks[2] == convert(p)
  }

  /** What was loaded is finished, in order, except for the payload on its way. */
  predicate Flows(convert: Payload -> Payload, w: Worker)
  {
    if Resting(w) then w.processed == Map(convert, w.loaded)
    else
      && |w.loaded| == |w.processed| + 1
      && w.processed == Map(convert, w.loaded[..|w.processed|])
      && Carries(convert, w.memory, w.pc, w.loaded[|w.processed|])
  }

  /** The scheduler owns the vrow: it has set the busy bit and not yet handed a payload over. */
  predicate Owns(sched: Sched)
  {
    !sched.Scanning? && !sched.Saw?
  }

  predicate BusyMatches(w: Worker, sched: Sched)
  {
    && (Owns(sched) ==> w.memory.busy && w.pc == 0 && FillBit(0) !in w.memory.states)
    && (!Owns(sched) ==> (w.memory.busy <==> w.pc != 0 || FillBit(0) in w.memory.states))
    && (sched.Saw? ==> !w.memory.busy)
    && (sched.Stored? ==> w.memory.banks[0] == sched.payload)
  }

  predicate WorkerInv(convert: Payload -> Payload, w: Worker, sched: Sched)
  {
    && w.pc <= 16
    && StatesMatch(w.memory.states, w.pc, Odd(|w.processed|))
    && BusyMatches(w, sched)
    && Flows(convert, w)
  }

  /** The scheduler as vrow v sees it. */
  function SeenBy(sched: Sched, v: nat): Sched
  {
    if !sched.Scanning? && sched.v == v then sched else Scanning
  }

  predicate Inv(convert: Payload -> Payload, s: System)
  {
    && (!s.sched.Scanning? ==> s.sched.v < |s.workers|)
    && forall v :: 0 <= v < |s.workers| ==> WorkerInv(convert, s.workers[v], SeenBy(s.sched, v))
  }

  // ---------------------------------------------------------------- each step keeps it

  lemma StatesStep(states: ByteMap, pc: nat, odd: bool)
    requires pc <= 16 && StatesMatch(states, pc, odd)
    ensures forall p, m: Memory :: m.states == states && 1 <= pc ==>
      StatesMatch(Act(pc, p, m).states, if pc == 16 then 0 else pc + 1, if pc == 15 then !odd else odd)
    ensures pc == 0 && FillBit(0) in states ==> StatesMatch(states, 1, odd)
  {
  }

  lemma OneMore(convert: Payload -> Payload, ps: seq<Payload>, k: nat)
    requires |ps| == k + 1
    ensures Map(convert, ps) == Map(convert, ps[..k]) + [convert(ps[k])]
  {
  }

  lemma FlowStep(convert: Payload -> Payload, w: Worker)
    requires w.pc <= 16 && Flows(convert, w)
    requires StatesMatch(w.memory.states, w.pc, Odd(|w.processed|))
    ensures Flows(convert, WorkerStep(convert, w))
  {
    if w.pc == 15 {
      OneMore(convert, w.loaded, |w.processed|);
    }
  }

  lemma WorkerKeeps(convert: Payload -> Payload, w: Worker, sched: Sched)
    requires WorkerInv(convert, w, sched)
    ensures WorkerInv(convert, WorkerStep(convert, w), sched)
  {
    StatesStep(w.memory.states, w.pc, Odd(|w.processed|));
    FlowStep(convert, w);
  }

  lemma SchedKeeps(convert: Payload -> Payload, w: Worker, sched: Sched, e: Event)
    requires WorkerInv(convert, w, sched)
    ensures var (after, next) := SchedStep(w, sched, e); WorkerInv(convert, after, next)
  {
    if sched.Stored? && e.Switch? {
      assert (w.loaded + [sched.payload])[..|w.loaded|] == w.loaded;
    }
  }

  lemma NextKeeps(convert: Payload -> Payload, s: System, e: Event)
    requires Inv(convert, s)
    ensures Inv(convert, Next(convert, s, e)) && |Next(convert, s, e).workers| == |s.workers|
  {
    match e
    case Work(v) =>
      if v < |s.workers| {
        WorkerKeeps(convert, s.workers[v], SeenBy(s.sched, v));
      }
    case Scan(v) =>
    case _ =>
      if !s.sched.Scanning? {
        SchedKeeps(convert, s.workers[s.sched.v], s.sched, e);
      }
  }

  lemma FreshInv(convert: Payload -> Payload, s: System)
    requires Fresh(s)
    ensures Inv(convert, s)
  {
  }

  lemma {:induction false} RunKeeps(convert: Payload -> Payload, s: System, events: seq<Event>)
    requires Inv(convert, s)
    ensures Inv(convert, Run(convert, s, events)) && |Run(convert, s, events).workers| == |s.workers|
    decreases |events|
  {
    if events != [] {
      NextKeeps(convert, s, events[0]);
      RunKeeps(convert, Next(convert, s, events[0]), events[1..]);
    }
  }
}
