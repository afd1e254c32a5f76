/** The translation block and its three passes. */
module Tblock {
  import opened Bits
  import opened Words
  import opened Ir
  import opened Mips
  import opened Alloc
  import opened InstrFix
  import opened Passes
  import opened Fragments
  import opened Lower
  import opened Encoding

  datatype Status = Done | StoppedOnWord | StoppedOnBuffer | StoppedOnOperandOrder

  function StatusOf(o: Outcome): Status
  {
    match o
    case Running(_) => Done
    case WordNotImplemented => StoppedOnWord
    case BufferTooSmall => StoppedOnBuffer
  }

  /** One scanned word adds its fragment to the registers it names. */
  lemma ScanStep(kind: BlockKind, words: seq<GuestWord>, n: nat, before: Liveness, mid: Liveness, after: Liveness)
    requires n < |words| && IsScan(kind, words, n, before, mid)
    requires forall g, b: nat :: 0 <= g < 256 ==>
      (b in after[g] <==> b in mid[g] || (b == FragOf(kind, n) && b < 8 && Names(words[n], g)))
    ensures IsScan(kind, words, n + 1, before, after)
  {
    forall g, b: nat | 0 <= g < 256
      ensures UsedIn(kind, words, n + 1, g, b)
         <==> UsedIn(kind, words, n, g, b) || (b == FragOf(kind, n) && Names(words[n], g))
    {
    }
  }

  /** Outcome k + 1 is that of word k, and is the last one if the pass has stopped. */
  ghost predicate OutcomeStep(kind: BlockKind, live: Liveness, words: seq<GuestWord>, os: seq<Outcome>, k: nat)
    requires k < |words| && k + 1 < |os|
  {
    && (os[k].Running? ==> |os[k].p.code| <= IR_CAPACITY)
    && os[k + 1] == StepWord(kind, live, os[k], words[k], k)
    && (!os[k + 1].Running? ==> os[|os| - 1] == os[k + 1])
  }

  lemma OutcomesGoOn(kind: BlockKind, live: Liveness, words: seq<GuestWord>, n: nat, start: Progress, k: nat)
    requires k < n <= |words| && |start.code| <= IR_CAPACITY
    ensures var os := Outcomes(kind, live, words, n, start);
      (os[k].Running? ==> |os[k].p.code| <= IR_CAPACITY) && os[k + 1] == StepWord(kind, live, os[k], words[k], k)
  {
  }

  lemma OutcomesStop(kind: BlockKind, live: Liveness, words: seq<GuestWord>, n: nat, start: Progress, k: nat)
    requires k <= n <= |words| && |start.code| <= IR_CAPACITY
    ensures var os := Outcomes(kind, live, words, n, start); !os[k].Running? ==> os[n] == os[k]
  {
    if !Pass(kind, live, words, k, start).Running? {
      StopsForGood(kind, live, words, k, n, start);
    }
  }

  /** A pass that has stopped stays stopped. */
  lemma {:induction false} StopsForGood(kind: BlockKind, live: Liveness, words: seq<GuestWord>, n: nat, m: nat,
                                        start: Progress)
    requires n <= m <= |words| && |start.code| <= IR_CAPACITY
    requires !Pass(kind, live, words, n, start).Running?
    ensures Pass(kind, live, words, m, start) == Pass(kind, live, words, n, start)
    decreases m
  {
    if n < m {
      StopsForGood(kind, live, words, n, m - 1, start);
    }
  }

  lemma BytesAssociate(a: seq<bv8>, b: seq<bv8>, c: seq<bv8>)
    ensures (a + b) + c == a + (b + c)
  {
  }

  lemma CodeBytesHead(i: Instr, code: seq<Instr>)
    requires RegisterForm(i) && forall c :: c in code ==> RegisterForm(c)
    ensures CodeBytes([i] + code) == InstrBytes(i) + CodeBytes(code)
  {
    assert ([i] + code)[1..] == code;
  }

  lemma {:induction false} CodeBytesAppend(code: seq<Instr>, i: Instr)
    requires (forall c :: c in code ==> RegisterForm(c)) && RegisterForm(i)
    ensures CodeBytes(code + [i]) == CodeBytes(code) + InstrBytes(i)
    decreases |code|
  {
    if code == [] {
      assert code + [i] == [i] + code;
      CodeBytesHead(i, code);
    } else {
      var head, tail := code[0], code[1..];
      assert code + [i] == [head] + (tail + [i]);
      assert code == [head] + tail;
      CodeBytesHead(head, tail + [i]);
      CodeBytesHead(head, tail);
      CodeBytesAppend(tail, i);
      BytesAssociate(InstrBytes(head), CodeBytes(tail), InstrBytes(i));
    }
  }

  lemma CodeBytesGrows(code: seq<Instr>, n: nat)
    requires n < |code| && forall c :: c in code ==> RegisterForm(c)
    ensures CodeBytes(code[..n + 1]) == CodeBytes(code[..n]) + InstrBytes(code[n])
  {
    assert code[..n + 1] == code[..n] + [code[n]];
    CodeBytesAppend(code[..n], code[n]);
  }

  /** `memcpy(&to[at], from, len)` */
  method CopyBytes(from: array<bv8>, len: nat, to: array<bv8>, at: nat)
    requires from != to && len <= from.Length && at + len <= to.Length
    modifies to
    ensures to[..at + len] == old(to[..at]) + from[..len]
  {
    forall k | 0 <= k < len {
      to[at + k] := from[k];
    }
  }

  /** Lowers one instruction and copies its bytes behind the first `size` host bytes. */
  method EmitNext(i: Instr, payload: array<bv8>, host: array<bv8>, size: nat) returns (ok: bool, len: nat)
    requires RegisterForm(i) && payload != host && payload.Length == 60 && size + 16 <= host.Length
    modifies payload, host
    ensures ok <==> !Rejected(i)
    ensures !ok ==> host[..] == old(host[..])
    ensures ok ==> len <= 16 && host[..size + len] == old(host[..size]) + InstrBytes(i)
  {
    ok, len := Lower.IrToRaw(i, payload);
    if ok {
      CopyBytes(payload, len, host, size);
    }
  }

  /** No instruction has a rejected operand order. */
  ghost predicate AllAccepted(code: seq<Instr>)
  {
    forall c :: c in code ==> !Rejected(c)
  }

  /** The first n instructions are emitted: none was refused, and these are their bytes. */
  ghost predicate EmittedTo(code: seq<Instr>, n: nat, bytes: seq<bv8>)
    requires n <= |code| && forall c :: c in code ==> RegisterForm(c)
  {
    (forall k :: 0 <= k < n ==> !Rejected(code[k])) && bytes == CodeBytes(code[..n])
  }

  lemma EmittedNext(code: seq<Instr>, n: nat, bytes: seq<bv8>)
    requires n < |code| && (forall c :: c in code ==> RegisterForm(c)) && EmittedTo(code, n, bytes)
    requires !Rejected(code[n])
    ensures EmittedTo(code, n + 1, bytes + InstrBytes(code[n]))
  {
    CodeBytesGrows(code, n);
  }

  lemma EmittedAll(code: seq<Instr>, bytes: seq<bv8>)
    requires (forall c :: c in code ==> RegisterForm(c)) && EmittedTo(code, |code|, bytes)
    ensures AllAccepted(code) && bytes == CodeBytes(code)
  {
    assert code[..|code|] == code;
  }

  /** `EmitNext` for instruction n of the code, everything before it being emitted. */
  method EmitAt(ghost code: seq<Instr>, ghost n: nat, i: Instr, payload: array<bv8>, host: array<bv8>, size: nat)
    returns (ok: bool, len: nat)
    requires n < |code| && i == code[n] && forall c :: c in code ==> RegisterForm(c)
    requires payload != host && payload.Length == 60 && size + 16 <= host.Length
    requires EmittedTo(code, n, host[..size])
    modifies payload, host
    ensures !ok ==> !AllAccepted(code)
    ensures ok ==> len <= 16 && EmittedTo(code, n + 1, host[..size + len])
  {
    ghost var bytes := host[..size];
    ok, len := EmitNext(i, payload, host, size);
    if ok {
      EmittedNext(code, n, bytes);
    } else {
      assert code[n] in code;
    }
  }

  /** The loop over the instructions; it stops at the first one with a rejected operand order. */
  method EmitCode(code: seq<Instr>, host: array<bv8>) returns (ok: bool, size: nat)
    requires host.Length >= 16 * |code| && forall i :: i in code ==> RegisterForm(i)
    modifies host
    ensures ok <==> AllAccepted(code)
    ensures ok ==> size <= host.Length && host[..size] == CodeBytes(code)
  {
    var payload := new bv8[60](_ => 0);
    var idx := 0;
    size := 0;
    while idx < |code|
      invariant idx <= |code| && size <= 16 * idx && fresh(payload)
      invariant EmittedTo(code, idx, host[..size])
    {
      var len;
      ok, len := EmitAt(code, idx, code[idx], payload, host, size);
      if !ok {
        return false, size;
      }
      size := size + len;
      idx := idx + 1;
    }
    EmittedAll(code, host[..size]);
    ok := true;
  }

  /** A zeroed buffer entry. */
  const BLANK: Instr := Instr(INVALID_OPCODE, OperandsOf(Ir.NO_OPERAND, Ir.NO_OPERAND, Ir.NO_OPERAND), 0)

  class Block {
    const kind: BlockKind
    const irBuf: array<Instr>
    const liveness: array<ByteMap>
    const assoc: array<Assoc>
    const state: array<RegState>
    var irCnt: U16
    var spillCnt: U16

    ghost predicate Valid()
      reads this
    {
      && irBuf.Length == IR_CAPACITY && irCnt <= IR_CAPACITY
      && liveness.Length == 256 && assoc.Length == 256 && state.Length == 256
    }

    ghost function TablesNow(): Tables
      reads this, assoc, state
      requires Valid()
    {
      Tables(assoc[..], state[..], spillCnt)
    }

    ghost function ProgressNow(): Progress
      reads this, assoc, state, irBuf
      requires Valid()
    {
      Progress(TablesNow(), irBuf[..irCnt])
    }

    constructor (kind: BlockKind)
      ensures Valid() && this.kind == kind
      ensures ProgressNow() == Progress(FRESH, []) && liveness[..] == seq<ByteMap>(256, _ => NO_FRAGMENTS)
      ensures fresh(irBuf) && fresh(liveness) && fresh(assoc) && fresh(state)
    {
      this.kind := kind;
      irBuf := new Instr[IR_CAPACITY](_ => BLANK);
      liveness := new ByteMap[256](_ => NO_FRAGMENTS);
      assoc := new Assoc[256](_ => NO_ASSOC);
      state := new RegState[256](_ => Free);
      irCnt := 0;
      spillCnt := 0;
      new;
      assert assoc[..] == FRESH.assoc && state[..] == FRESH.state;
    }

    /** Marks the operands of one word live in fragment blk; a bit above 7 is lost. */
    method MarkLive(w: GuestWord, blk: nat)
      requires Valid()
      modifies liveness
      ensures forall g, b: nat :: 0 <= g < 256 ==>
        (b in liveness[g] <==> b in old(liveness[g]) || (b == blk && blk < 8 && Names(w, g)))
    {
      var (ops, count) := RegFetch(w);
      var i := 0;
      while i < count
        invariant i <= count
        invariant forall g, b: nat :: 0 <= g < 256 ==>
          (b in liveness[g] <==>
            b in old(liveness[g])
            || (b == blk && blk < 8 && exists k :: 0 <= k < i && ops[k].kind == Reg && ops[k].id == g))
      {
        var op := ops[i];
        if op.kind == Reg && blk < 8 {
          liveness[op.id] := liveness[op.id] + {blk};
        }
        i := i + 1;
      }
    }

    /** Walks over the guest words of the block by byte position. */
    method LivenessScan(guest: seq<GuestWord>) returns (count: nat)
      requires Valid() && |guest| >= BlockWords(kind)
      modifies liveness
      ensures count == BlockWords(kind)
      ensures IsScan(kind, guest, BlockWords(kind), old(liveness[..]), liveness[..])
    {
      ghost var before := liveness[..];
      var ptr, bytes, blk := 0, 0, 0;
      count := 0;
      while ptr < BlockBytes(kind)
        invariant ptr == bytes == 4 * count <= BlockBytes(kind)
        invariant blk == FragOf(kind, count)
        invariant IsScan(kind, guest, count, before, liveness[..])
      {
        ghost var prev := liveness[..];
        MarkLive(guest[ptr / 4], blk);
        ScanStep(kind, guest, count, before, prev, liveness[..]);
        bytes := bytes + 4;
        blk := bytes / FragBytes(kind);
        ptr := ptr + 4;
        count := count + 1;
      }
    }

    /** One word, and the flush behind it when the next word lies in another fragment. */
    method TranslateAndCross(w: GuestWord, blk: nat, nextBlk: nat, ghost k: nat) returns (status: Status)
      requires Valid() && blk == FragOf(kind, k) && nextBlk == FragOf(kind, k + 1)
      modifies this, irBuf, assoc, state
      ensures Valid() && liveness[..] == old(liveness[..])
      ensures var o := StepWord(kind, old(liveness[..]), Running(old(ProgressNow())), w, k);
        status == StatusOf(o) && (o.Running? ==> ProgressNow() == o.p)
    {
      status := TranslateNext(w);
      if status == Done && nextBlk != blk {
        FlushByLiveness(blk, liveness, assoc, state, spillCnt);
      }
    }

    /** Translates the guest words of the block, flushing whenever a fragment ends. */
    method RawToIr(guest: seq<GuestWord>) returns (status: Status)
      requires Valid() && |guest| >= BlockWords(kind)
      modifies this, irBuf, assoc, state
      ensures Valid() && liveness[..] == old(liveness[..])
      ensures var o := Pass(kind, old(liveness[..]), guest, BlockWords(kind), old(ProgressNow()));
        status == StatusOf(o) && (o.Running? ==> ProgressNow() == o.p)
      ensures old(irCnt) + 2 * BlockWords(kind) <= IR_CAPACITY ==>
        (status == Done || status == StoppedOnWord)
        && (status == Done <==> forall k :: 0 <= k < BlockWords(kind) ==> guest[k] < 0x400_0000)
    {
      if irCnt + 2 * BlockWords(kind) <= IR_CAPACITY {
        StopsOnWord(kind, liveness[..], guest, BlockWords(kind), ProgressNow());
      }
      ghost var os := Outcomes(kind, liveness[..], guest, BlockWords(kind), ProgressNow());
      forall k | 0 <= k < BlockWords(kind)
        ensures OutcomeStep(kind, liveness[..], guest, os, k)
      {
        OutcomesGoOn(kind, liveness[..], guest, BlockWords(kind), ProgressNow(), k);
        OutcomesStop(kind, liveness[..], guest, BlockWords(kind), ProgressNow(), k + 1);
      }
      status := TranslateAll(guest, os);
    }

    /** The loop of the pass, against the outcomes after each word. */
    method TranslateAll(guest: seq<GuestWord>, ghost os: seq<Outcome>) returns (status: Status)
      requires Valid() && |guest| >= BlockWords(kind) && |os| == BlockWords(kind) + 1
      requires os[0] == Running(ProgressNow())
      requires forall k :: 0 <= k < BlockWords(kind) ==> OutcomeStep(kind, liveness[..], guest, os, k)
      modifies this, irBuf, assoc, state
      ensures Valid() && liveness[..] == old(liveness[..])
      ensures status == StatusOf(os[BlockWords(kind)])
      ensures os[BlockWords(kind)].Running? ==> ProgressNow() == os[BlockWords(kind)].p
    {
      ghost var live := liveness[..];
      var ptr, bytes, blk := 0, 0, 0;
      ghost var n := 0;
      while ptr < BlockBytes(kind)
        invariant Valid() && liveness[..] == live
        invariant ptr == bytes == 4 * n <= BlockBytes(kind)
        invariant blk == FragOf(kind, n)
        invariant n <= BlockWords(kind) && os[n] == Running(ProgressNow())
      {
        assert OutcomeStep(kind, live, guest, os, n);
        bytes := bytes + 4;
        var nextBlk := bytes / FragBytes(kind);
        status := TranslateAndCross(guest[ptr / 4], blk, nextBlk, n);
        if status != Done {
          return;
        }
        blk := nextBlk;
        ptr := ptr + 4;
        n := n + 1;
      }
      status := Done;
    }

    /** One word of `RawToIr`: lift, associate, rename, expand. */
    method TranslateNext(w: GuestWord) returns (status: Status)
      requires Valid()
      modifies this, irBuf, assoc, state
      ensures Valid() && liveness[..] == old(liveness[..])
      ensures var o := TranslateWord(old(ProgressNow()), w);
        status == StatusOf(o) && (o.Running? ==> ProgressNow() == o.p)
    {
      match ToIr(w) {
        case NotImplemented =>
          return StoppedOnWord;
        case Lifted(i) =>
          if i.opcode == INVALID_OPCODE {
            return Done;
          }
          spillCnt := FillAssoc(i, spillCnt, assoc, state);
          var fixed := FixInstr(i, assoc);
          var count, e, ok := ExpandInstr(ThreeOp, TwoOp, fixed, irBuf, irCnt);
          if !ok {
            return StoppedOnBuffer;
          }
          irCnt := irCnt + count;
          return Done;
      }
    }

    /** Emits the host bytes of the translated code; the spill count is cleared first, so neither
    prologue nor epilogue emits anything. */
    method IrToRaw(host: array<bv8>) returns (status: Status, size: nat)
      requires Valid() && host.Length >= 16 * irCnt && host as object != irBuf as object
      requires forall i :: i in irBuf[..irCnt] ==> RegisterForm(i)
      modifies this`spillCnt, host
      ensures Valid() && spillCnt == 0 && irBuf[..irCnt] == old(irBuf[..irCnt])
      ensures status == Done <==> AllAccepted(old(irBuf[..irCnt]))
      ensures status == Done ==> size <= host.Length && host[..size] == CodeBytes(old(irBuf[..irCnt]))
    {
      spillCnt := 0;
      var ok;
      ok, size := EmitCode(irBuf[..irCnt], host);
      status := if ok then Done else StoppedOnOperandOrder;
    }
  }
}
