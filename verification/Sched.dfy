/** The scheduler: pushes into the queue, and the loop that moves payloads from it to free vrows. */
module Sched {
  import opened Wrappers
  import opened Bits
  import opened Words
  import opened SyncMap
  import opened PriorityQueue
  import opened Bitpool
  import opened Vrow

  /** How a pop ends: refused indices, a look at a bank that is still filled (the load would look
  again), an index outside all ranges (the program stops), or done. */
  datatype PopResult = Refused | Waits | Stops | Popped

  /** How one turn of the scheduler's loop ends. */
  datatype Turn = NothingQueued | NoVrow | NothingFound | Handed(v: nat, result: PopResult)

  class SchedContext {
    const queue: Pool
    const vrowMap: array<Word>
    const vrows: seq<VrowDesc>

    ghost predicate Valid()
    {
      && queue.Valid() && 0 < |vrows| < 0x100 && |vrows| <= 64 * vrowMap.Length && vrowMap != queue.smap
      && forall i :: 0 <= i < |vrows| ==> VrowAt(i)
    }

    ghost predicate VrowAt(i: nat)
      requires i < |vrows|
    {
      && vrows[i].Valid() && vrows[i].smap == vrowMap && vrows[i].member == i
      && vrows[i].banks != queue.buckets
    }

    /** Two vrows with their own memory. */
    ghost predicate Apart(i: nat, k: nat)
      requires i < |vrows| && k < |vrows|
    {
      vrows[i] != vrows[k] && vrows[i].banks != vrows[k].banks
    }

    constructor (queue: Pool, vrowMap: array<Word>, vrows: seq<VrowDesc>)
      ensures this.queue == queue && this.vrowMap == vrowMap && this.vrows == vrows
    {
      this.queue := queue;
      this.vrowMap := vrowMap;
      this.vrows := vrows;
    }

    /** One turn of the blocking push. */
    method Push(payload: Payload) returns (r: LoadResult)
      requires Valid()
      modifies queue.smap, queue.presence, queue.buckets
      ensures r == LoadTarget(old(queue.Contents()), queue.ranges, payload.priority)
      ensures queue.Contents() == Load(old(queue.Contents()), queue.ranges, payload, payload.priority)
    {
      r := queue.PriorLoad(payload, payload.priority);
    }

    /** Hands the payload of a bucket to bank 0 of a vrow and gives the bucket back. */
    method Pop(vrowIndex: nat, queueIndex: nat) returns (r: PopResult)
      requires queue.Valid() && (vrowIndex < |vrows| ==> VrowAt(vrowIndex))
      modifies queue.smap, queue.presence
      modifies if vrowIndex < |vrows| then {vrows[vrowIndex], vrows[vrowIndex].banks} else {}
      ensures r == Refused <==> vrowIndex >= |vrows| || queueIndex >= queue.buckets.Length
      ensures r == Waits <==>
        vrowIndex < |vrows| && queueIndex < queue.buckets.Length && FillBit(0) in old(vrows[vrowIndex].states)
      ensures r == Refused || r == Waits ==> queue.Contents() == old(queue.Contents())
      ensures r == Waits ==>
        vrows[vrowIndex].states == old(vrows[vrowIndex].states) &&
        vrows[vrowIndex].banks[..] == old(vrows[vrowIndex].banks[..])
      ensures r == Popped || r == Stops ==>
        && (r == Popped <==> LaneOf(queue.ranges, queueIndex, 0).Some?)
        && queue.Contents() == Unload(old(queue.Contents()), queue.ranges, queueIndex)
        && vrows[vrowIndex].states == Toggle(old(vrows[vrowIndex].states), FillBit(0))
        && VrowAt(vrowIndex)
        && vrows[vrowIndex].banks[..]
        == old(vrows[vrowIndex].banks[..])[0 := old(queue.buckets[queueIndex])]
    {
      if vrowIndex >= |vrows| || queueIndex >= queue.buckets.Length {
        return Refused;
      }
      ghost var m := vrows[vrowIndex].Contents();
      var loaded := vrows[vrowIndex].BankLoad(0, queue.buckets[queueIndex]);
      assert vrows[vrowIndex].Contents().states == vrows[vrowIndex].states;
      if !loaded {
        return Waits;
      }
      var ok := queue.PriorUnload(queueIndex);
      return if ok then Popped else Stops;
    }

    /** The pop of a turn that has found bucket `told`: the cycle is completed as `after` and `payload`. */
    method HandOver(v: nat, told: nat, ghost after: Queue, ghost payload: Payload) returns (r: PopResult)
      requires queue.Valid() && v < |vrows| && VrowAt(v) && told < queue.buckets.Length
      requires after == Unload(queue.Contents(), queue.ranges, told) && payload == queue.buckets[told]
      modifies queue.smap, queue.presence, vrows[v], vrows[v].banks
      ensures r != Refused && (r == Waits <==> FillBit(0) in old(vrows[v].states))
      ensures r == Waits ==>
        vrows[v].states == old(vrows[v].states) && vrows[v].banks[..] == old(vrows[v].banks[..])
      ensures r != Waits ==>
        && queue.Contents() == after
        && vrows[v].states == Toggle(old(vrows[v].states), FillBit(0))
        && vrows[v].banks[..] == old(vrows[v].banks[..])[0 := payload]
    {
      r := Pop(v, told);
    }

    /** The second half of a turn: vrow v has been claimed. */
    method Dispatch(v: nat, disp: array<U32>) returns (turn: Turn)
      requires queue.Valid() && vrowMap != queue.smap && v < |vrows| && VrowAt(v)
      requires disp.Length == 4 && disp != queue.presence && AnyPresence(queue.Contents().presence)
      modifies queue.smap, queue.presence, vrowMap, disp, vrows[v], vrows[v].banks
      ensures var q := old(queue.Contents());
        var c := PriorityQueue.Pop(q, queue.ranges, old(disp[..]));
        && disp[..] == c.disp
        && (c.delivered.None? ==>
             turn == NothingFound && queue.Contents() == c.queue && Flat(vrowMap[..]) == old(Flat(vrowMap[..])) - {v})
        && (c.delivered.Some? ==>
             && turn.Handed? && turn.v == v && vrowMap[..] == old(vrowMap[..])
             && (turn.result == Waits <==> FillBit(0) in old(vrows[v].states))
             && (turn.result != Waits ==>
                  && queue.Contents() == c.queue && turn.result != Refused
                  && vrows[v].states == Toggle(old(vrows[v].states), FillBit(0))
                  && vrows[v].banks[..] == old(vrows[v].banks[..])[0 := c.delivered.value]))
      ensures turn == NothingFound || (turn.Handed? && turn.result == Waits) ==>
        vrows[v].states == old(vrows[v].states) && vrows[v].banks[..] == old(vrows[v].banks[..])
    {
      ghost var q, d := queue.Contents(), disp[..];
      var taken := queue.PriorUnloadDisp(disp);
      if taken == Nothing {
        ClearBit(vrowMap, v / 64, v % 64);
        return NothingFound;
      }
      ghost var c := PriorityQueue.Pop(q, queue.ranges, d);
      var r := HandOver(v, taken.told, c.queue, c.delivered.value);
      return Handed(v, r);
    }

    /** One turn of the scheduler's loop, no other thread interfering. */
    method MainTurn(disp: array<U32>) returns (turn: Turn)
      requires Valid() && disp.Length == 4 && disp != queue.presence
      modifies queue.smap, queue.presence, vrowMap, disp
      modifies set w | w in vrows, set w | w in vrows :: w.banks
      ensures var q := old(queue.Contents());
        !AnyPresence(q.presence) ==>
          turn == NothingQueued && queue.Contents() == q && vrowMap[..] == old(vrowMap[..]) &&
          disp[..] == old(disp[..])
      ensures var q := old(queue.Contents());
        AnyPresence(q.presence) && FirstClear(old(Flat(vrowMap[..])), 0, |vrows|).None? ==>
          turn == NoVrow && queue.Contents() == q && vrowMap[..] == old(vrowMap[..]) &&
          disp[..] == old(disp[..])
      ensures Dispatched(old(queue.Contents()), old(disp[..]), old(Flat(vrowMap[..])), turn, disp[..])
      ensures turn.Handed? && turn.result != Waits ==>
        && turn.v < |vrows| && VrowAt(turn.v)
        && vrows[turn.v].states == Toggle(old(vrows[turn.v].states), FillBit(0))
        && PriorityQueue.Pop(old(queue.Contents()), queue.ranges, old(disp[..])).delivered
        == Some(vrows[turn.v].banks[0])
      ensures turn.Handed? ==> turn.v < |vrows|
      ensures forall i :: 0 <= i < |vrows| && (turn.Handed? && turn.result != Waits ==> Apart(i, turn.v)) ==>
        vrows[i].states == old(vrows[i].states) && vrows[i].banks[..] == old(vrows[i].banks[..])
    {
      if queue.presence[0] == 0 && queue.presence[1] == 0 && queue.presence[2] == 0 && queue.presence[3] == 0 {
        return NothingQueued;
      }
      var found, v := SigFirst(0, |vrows|, vrowMap);
      if !found {
        return NoVrow;
      }
      assert VrowAt(v);
      turn := Dispatch(v, disp);
    }

    /** The new state of queue, dispositions and vrow map after a turn that found a free vrow. */
    ghost predicate Dispatched(q: Queue, d: Lanes, busy: set<nat>, turn: Turn, used: Lanes)
      requires Valid()
      reads queue.smap, queue.presence, queue.buckets, vrowMap
    {
      var free := FirstClear(busy, 0, |vrows|);
      var c := PriorityQueue.Pop(q, queue.ranges, d);
      AnyPresence(q.presence) && free.Some? ==>
        && used == c.disp
        && (c.delivered.None? ==>
             turn == NothingFound && queue.Contents() == c.queue && Flat(vrowMap[..]) == busy)
        && (c.delivered.Some? ==>
             && turn.Handed? && turn.v == free.value && Flat(vrowMap[..]) == busy + {free.value}
             && (turn.result != Waits ==> queue.Contents() == c.queue))
    }
  }
}
