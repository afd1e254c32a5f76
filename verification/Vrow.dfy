/** A vrow: four payload banks, the state byte of toggled bits, and the worker that moves a payload
from bank 0 to bank 2. */
module Vrow {
  import opened Wrappers
  import opened Words
  import opened SyncMap
  import opened PriorityQueue

  type Banks = s: seq<Payload> | |s| == 4
    witness [Payload(MteMin, []), Payload(MteMin, []), Payload(MteMin, []), Payload(MteMin, [])]

  /** The state byte, the banks, and the vrow's bit of the shared map. */
  datatype Memory = Memory(states: ByteMap, banks: Banks, busy: bool)

  /** The bit that tells whether a payload is present in a bank. */
  function FillBit(bank: nat): nat
  {
    2 * bank
  }

  /** The bit that tells whether the worker is at a bank. */
  function ActiveBit(bank: nat): nat
  {
    2 * bank + 1
  }

  /** `atomic_fetch_xor` of one bit. */
  function Toggle(states: ByteMap, bit: nat): ByteMap
    requires bit < 8
  {
    if bit in states then states - {bit} else states + {bit}
  }

  function Toggled(m: Memory, bit: nat): Memory
    requires bit < 8
  {
    m.(states := Toggle(m.states, bit))
  }

  function Copied(m: Memory, source: nat, dest: nat): Memory
    requires source < 4 && dest < 4
  {
    m.(banks := m.banks[dest := m.banks[source]])
  }

  /** The worker's actions on one payload, in order; `result` is what bank 0 processing yields.
  The processing of banks 1 and 2 (actions 9 and 15) leaves memory alone. */
  function Act(action: nat, result: Payload, m: Memory): Memory
  {
    match action
    case 1 => Toggled(m, ActiveBit(0))
    case 2 => m.(busy := true)
    case 3 => m.(banks := m.banks[0 := result])
    case 4 => Toggled(m, ActiveBit(1))
    case 5 => Toggled(m, ActiveBit(0))
    case 6 => Toggled(m, FillBit(1))
    case 7 => Copied(m, 0, 1)
    case 8 => Toggled(m, FillBit(0))
    case 10 => Toggled(m, ActiveBit(2))
    case 11 => Toggled(m, ActiveBit(1))
    case 12 => Toggled(m, FillBit(2))
    case 13 => Copied(m, 1, 2)
    case 14 => Toggled(m, FillBit(1))
    case 16 => m.(busy := false)
    case _ => m
  }

  /** Actions 1 to n. */
  function Acts(n: nat, result: Payload, m: Memory): Memory
  {
    if n == 0 then m else Act(n, result, Acts(n - 1, result, m))
  }

  /** What one turn of the worker's loop ends with. */
  datatype Turn = Idle | Finished | Exited

  /** A zeroed bank. */
  const BLANK: Payload := Payload(MteMin, seq(62, _ => 0))

  class VrowDesc {
    var states: ByteMap
    const banks: array<Payload>
    const smap: array<Word>
    const member: nat

    ghost predicate Valid()
    {
      banks.Length == 4 && member < 64 * smap.Length
    }

    ghost function Contents(): Memory
      requires Valid()
      reads this, banks, smap
    {
      Memory(states, banks[..], member in Flat(smap[..]))
    }

    /** The bits of the shared map that belong to others. */
    ghost function Others(): set<nat>
      reads smap
    {
      Flat(smap[..]) - {member}
    }

    /** A new vrow: no payload, and the worker sitting at bank 0 before its thread starts. */
    constructor (smap: array<Word>, member: nat)
      requires member < 64 * smap.Length
      ensures Valid() && fresh(banks) && this.smap == smap && this.member == member
      ensures states == {ActiveBit(0)}
    {
      banks := new Payload[4](_ => BLANK);
      this.smap := smap;
      this.member := member;
      states := Toggle({}, ActiveBit(0));
    }

    /** One look at bank 0 by the blocking load, and the load when the bank is empty. */
    method BankLoad(bank: nat, payload: Payload) returns (loaded: bool)
      requires Valid() && bank < 4
      modifies this`states, banks
      ensures loaded == (FillBit(bank) !in old(states))
      ensures Contents() == if loaded
        then Toggled(old(Contents()).(banks := old(banks[..])[bank := payload]), FillBit(bank))
        else old(Contents())
    {
      if FillBit(bank) in states {
        return false;
      }
      banks[bank] := payload;
      states := Toggle(states, FillBit(bank));
      return true;
    }

    method BankSwap(source: nat, dest: nat)
      requires Valid() && source < 4 && dest < 4
      modifies this`states, banks
      ensures Contents() == Toggled(Copied(Toggled(old(Contents()), FillBit(dest)), source, dest), FillBit(source))
    {
      states := Toggle(states, FillBit(dest));
      banks[dest] := banks[source];
      states := Toggle(states, FillBit(source));
    }

    method SigOn()
      requires Valid()
      modifies smap
      ensures Contents() == old(Contents()).(busy := true) && Others() == old(Others())
    {
      SetBit(smap, member / 64, member % 64);
    }

    method SigOff()
      requires Valid()
      modifies smap
      ensures Contents() == old(Contents()).(busy := false) && Others() == old(Others())
    {
      ClearBit(smap, member / 64, member % 64);
    }

    /** All banks and states back to zero. */
    method ForceFlush()
      requires Valid()
      modifies this`states, banks
      ensures Contents() == Memory({}, [BLANK, BLANK, BLANK, BLANK], old(Contents()).busy)
    {
      banks[0], banks[1], banks[2], banks[3] := BLANK, BLANK, BLANK, BLANK;
      states := {};
    }

    /** The first half of a payload's way: processing in bank 0, move to bank 1. False when the
    processing fails. */
    method ToBank1(convert: Payload -> Option<Payload>) returns (ok: bool)
      requires Valid()
      modifies this`states, banks, smap
      ensures Others() == old(Others()) && ok == convert(old(banks[0])).Some?
      ensures ok ==> Contents() == Acts(8, convert(old(banks[0])).value, old(Contents()))
    {
      ghost var m, p := Contents(), convert(banks[0]);
      states := Toggle(states, ActiveBit(0));
      assert p.Some? ==> Contents() == Acts(1, p.value, m);
      SigOn();
      var result := convert(banks[0]);
      if result.None? {
        return false;
      }
      assert Contents() == Acts(2, p.value, m);
      banks[0] := result.value;
      assert Contents() == Acts(3, p.value, m);
      states := Toggle(states, ActiveBit(1));
      states := Toggle(states, ActiveBit(0));
      assert Contents() == Acts(5, p.value, m);
      BankSwap(0, 1);
      assert Acts(6, p.value, m) == Toggled(Acts(5, p.value, m), FillBit(1));
      assert Acts(7, p.value, m) == Copied(Acts(6, p.value, m), 0, 1);
      return true;
    }

    /** The second half: the move to bank 2 and the clearing of the busy bit. */
    method ToBank2(ghost m: Memory, ghost result: Payload)
      requires Valid() && Contents() == Acts(8, result, m)
      modifies this`states, banks, smap
      ensures Others() == old(Others()) && Contents() == Acts(16, result, m)
    {
      assert Contents() == Acts(9, result, m);
      states := Toggle(states, ActiveBit(2));
      assert Contents() == Acts(10, result, m);
      states := Toggle(states, ActiveBit(1));
      assert Contents() == Acts(11, result, m);
      BankSwap(1, 2);
      assert Acts(12, result, m) == Toggled(Acts(11, result, m), FillBit(2));
      assert Acts(13, result, m) == Copied(Acts(12, result, m), 1, 2);
      assert Contents() == Acts(14, result, m);
      assert Contents() == Acts(15, result, m);
      SigOff();
    }

    /** One turn of the worker's loop, no other thread interfering: the sixteen actions in order, or
    the exit of the thread when the processing of bank 0 fails. */
    method MainTurn(convert: Payload -> Option<Payload>) returns (turn: Turn)
      requires Valid()
      modifies this`states, banks, smap
      ensures Others() == old(Others())
      ensures turn == (if FillBit(0) !in old(states) then Idle
                       else if convert(old(banks[0])).Some? then Finished else Exited)
      ensures turn == Idle ==> Contents() == old(Contents())
      ensures turn == Finished ==> Contents() == Acts(16, convert(old(banks[0])).value, old(Contents()))
      ensures turn == Exited ==> Contents() == Memory({}, [BLANK, BLANK, BLANK, BLANK], false)
    {
      if FillBit(0) !in states {
        return Idle;
      }
      ghost var m, p := Contents(), convert(banks[0]);
      var ok := ToBank1(convert);
      if !ok {
        SigOff();
        ForceFlush();
        return Exited;
      }
      ToBank2(m, p.value);
      return Finished;
    }
  }
}
