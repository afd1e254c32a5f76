/** What the liveness scan and the guest-to-IR pass compute, as functions of the guest words. */
module Passes {
  import opened Ir
  import opened Mips
  import opened InstrFix

  /** The shift applied to the 64-byte base size of a block. */
  datatype BlockKind = Small | Big

  function BlockBytes(kind: BlockKind): nat
  {
    if kind == Big then 512 else 128
  }

  function BlockWords(kind: BlockKind): nat
  {
    BlockBytes(kind) / 4
  }

  /** An IR instruction takes 16 bytes, so every block has 16 fragments. */
  function FragBytes(kind: BlockKind): nat
  {
    BlockBytes(kind) / 16
  }

  /** The fragment of word k. */
  function FragOf(kind: BlockKind, k: nat): nat
  {
    4 * k / FragBytes(kind)
  }

  /** Word k is the last of its fragment. */
  predicate Crosses(kind: BlockKind, k: nat)
  {
    FragOf(kind, k + 1) != FragOf(kind, k)
  }

  // ---------------------------------------------------------------- liveness

  predicate Names(w: GuestWord, g: nat)
  {
    var (ops, count) := RegFetch(w);
    exists k :: 0 <= k < count && ops[k].kind == Reg && ops[k].id == g
  }

  /** Some word in fragment b, among the first n words, names g. */
  predicate UsedIn(kind: BlockKind, words: seq<GuestWord>, n: nat, g: nat, b: nat)
    requires n <= |words|
  {
    exists k :: 0 <= k < n && FragOf(kind, k) == b && Names(words[k], g)
  }

  /** The liveness table after n words: bits above 7 are lost in the 8-bit entries. */
  ghost predicate IsScan(kind: BlockKind, words: seq<GuestWord>, n: nat, before: Liveness, after: Liveness)
    requires n <= |words|
  {
    forall g, b: nat :: 0 <= g < 256 ==>
      (b in after[g] <==> b in before[g] || (b < 8 && UsedIn(kind, words, n, g, b)))
  }

  // ---------------------------------------------------------------- translation

  const IR_CAPACITY: nat := 256

  datatype Progress = Progress(t: Tables, code: seq<Instr>)

  /** The pass can be stopped by an unimplemented word or by a full IR buffer. */
  datatype Outcome = Running(p: Progress) | WordNotImplemented | BufferTooSmall

  function LiftedInstr(w: GuestWord): Instr
  {
    Instr(IrOpcode(Funct(w)), WordOperands(w), 3)
  }

  /** One word: lift, associate, rename, expand, append. Unknown functions emit nothing. */
  function TranslateWord(p: Progress, w: GuestWord): Outcome
    requires |p.code| <= IR_CAPACITY
  {
    match ToIr(w)
    case NotImplemented => WordNotImplemented
    case Lifted(i) =>
      if i.opcode == INVALID_OPCODE then Running(p)
      else
        var t := Fill(p.t, i);
        match Expand(ThreeOp, TwoOp, Fix(t.assoc, i), IR_CAPACITY - |p.code|)
        case Written(code) => Running(Progress(t, p.code + code))
        case _ => BufferTooSmall
  }

  /** After word k, associations are flushed when the fragment ends. */
  function Cross(kind: BlockKind, live: Liveness, t: Tables, k: nat): Tables
  {
    if Crosses(kind, k) then Flush(t, live, FragOf(kind, k)) else t
  }

  function StepWord(kind: BlockKind, live: Liveness, o: Outcome, w: GuestWord, k: nat): (r: Outcome)
    requires o.Running? ==> |o.p.code| <= IR_CAPACITY
    ensures r.Running? ==> |r.p.code| <= IR_CAPACITY
  {
    match o
    case Running(p) =>
      (match TranslateWord(p, w)
       case Running(q) => Running(q.(t := Cross(kind, live, q.t, k)))
       case stopped => stopped)
    case stopped => stopped
  }

  /** The state of the pass after the first n words. */
  function Pass(kind: BlockKind, live: Liveness, words: seq<GuestWord>, n: nat, start: Progress): (r: Outcome)
    requires n <= |words| && |start.code| <= IR_CAPACITY
    ensures r.Running? ==> |r.p.code| <= IR_CAPACITY
  {
    if n == 0 then Running(start)
    else StepWord(kind, live, Pass(kind, live, words, n - 1, start), words[n - 1], n - 1)
  }

  /** The outcomes of the pass after each number of words up to n. */
  function Outcomes(kind: BlockKind, live: Liveness, words: seq<GuestWord>, n: nat, start: Progress): (os: seq<Outcome>)
    requires n <= |words| && |start.code| <= IR_CAPACITY
    ensures |os| == n + 1 && forall k :: 0 <= k <= n ==> os[k] == Pass(kind, live, words, k, start)
  {
    seq(n + 1, k requires 0 <= k <= n => Pass(kind, live, words, k, start))
  }

  // ---------------------------------------------------------------- runs without a flush

  predicate AllRType(ws: seq<GuestWord>)
  {
    forall w :: w in ws ==> TypeOf(w) == R
  }

  /** The tables after an R-type word. */
  function AfterWord(t: Tables, w: GuestWord): Tables
  {
    if IrOpcode(Funct(w)) == INVALID_OPCODE then t else Fill(t, LiftedInstr(w))
  }

  /** The code emitted for an R-type word. */
  function CodeOf(t: Tables, w: GuestWord): seq<Instr>
  {
    if IrOpcode(Funct(w)) == INVALID_OPCODE then []
    else TwoOperand(Fix(AfterWord(t, w).assoc, LiftedInstr(w)))
  }

  function AfterWords(t: Tables, ws: seq<GuestWord>): Tables
    decreases |ws|
  {
    if ws == [] then t else AfterWords(AfterWord(t, ws[0]), ws[1..])
  }

  function CodeOfWords(t: Tables, ws: seq<GuestWord>): seq<Instr>
    decreases |ws|
  {
    if ws == [] then [] else CodeOf(t, ws[0]) + CodeOfWords(AfterWord(t, ws[0]), ws[1..])
  }
}
