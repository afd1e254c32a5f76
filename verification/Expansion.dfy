/** When expanding to two-operand form preserves what the IR computes. */
module Expansion {
  import opened Bits
  import opened Ir
  import opened InstrFix
  import opened Lower

  /** The folded instruction reads operand 2 after the MOV may have overwritten it. */
  predicate Expandable(i: Instr)
  {
    i.ops[0].id != i.ops[2].id || i.ops[0].id == i.ops[1].id
  }

  lemma MovCopies(i: Instr, r: RegFile)
    ensures Exec(MovOf(i), r) == r[i.ops[0].id := r[i.ops[1].id]]
  {
    SwapToMov(i.opcode);
  }

  lemma ExecOne(i: Instr, r: RegFile)
    ensures ExecAll([i], r) == Exec(i, r)
  {
  }

  lemma ExecTwo(i: Instr, j: Instr, r: RegFile)
    ensures ExecAll([i, j], r) == Exec(j, Exec(i, r))
  {
    assert [i, j] == [i] + [j];
    ExecAllAppend([i], [j], r);
    ExecOne(i, r);
    ExecOne(j, Exec(i, r));
  }

  lemma TwoOperandRuns(i: Instr, r: RegFile)
    requires IsAlu(i.opcode)
    ensures ExecAll(TwoOperand(i), r)
         == if NeedsMov(i) then Exec(Folded(i), r[i.ops[0].id := r[i.ops[1].id]]) else Exec(Folded(i), r)
  {
    if NeedsMov(i) {
      assert TwoOperand(i) == [MovOf(i), Folded(i)];
      ExecTwo(MovOf(i), Folded(i), r);
      MovCopies(i, r);
    } else {
      assert TwoOperand(i) == [Folded(i)];
      ExecOne(Folded(i), r);
    }
  }

  /** An expandable instruction keeps its meaning. */
  lemma ExpansionPreserves(i: Instr, r: RegFile)
    requires IsAlu(i.opcode) && Expandable(i)
    ensures ExecAll(TwoOperand(i), r) == Exec(i, r)
  {
    TwoOperandRuns(i, r);
    var d := i.ops[0].id;
    if NeedsMov(i) {
      var x := Alu64(Group(i.opcode), r[i.ops[1].id], r[i.ops[2].id]);
      assert r[d := r[i.ops[1].id]][d := x] == r[d := x];
    }
  }

  /** Contents on which an instruction that overwrites its second source goes wrong. */
  function Revealing(i: Instr): RegFile
  {
    var zeros: RegFile := seq(256, _ => 0);
    if Group(i.opcode) == GROUP_AND then zeros[i.ops[1].id := 1]
    else zeros[i.ops[0].id := 1]
  }

  lemma OneBitResults()
    ensures Alu64(GROUP_ADD, 0, 1) == 1 && Alu64(GROUP_ADD, 0, 0) == 0
    ensures Alu64(GROUP_OR, 0, 1) == 1 && Alu64(GROUP_OR, 0, 0) == 0
    ensures Alu64(GROUP_AND, 1, 0) == 0 && Alu64(GROUP_AND, 1, 1) == 1
    ensures Alu64(GROUP_SUB, 0, 1) != 0 && Alu64(GROUP_SUB, 0, 0) == 0
  {
    assert BitAnd(1, 1) == 1;
  }

  lemma OverwriteShows(i: Instr)
    requires IsAlu(i.opcode) && !Expandable(i)
    ensures ExecAll(TwoOperand(i), Revealing(i)) != Exec(i, Revealing(i))
  {
    var r := Revealing(i);
    var d, s, g := i.ops[0].id, i.ops[1].id, Group(i.opcode);
    TwoOperandRuns(i, r);
    OneBitResults();
    assert ExecAll(TwoOperand(i), r)[d] == Alu64(g, r[s], r[s]);
    assert Exec(i, r)[d] == Alu64(g, r[s], r[d]);
  }

  /** Expansion preserves meaning on every register file exactly for expandable instructions. */
  lemma ExpansionExact(i: Instr)
    requires IsAlu(i.opcode)
    ensures Expandable(i) <==> forall r: RegFile :: ExecAll(TwoOperand(i), r) == Exec(i, r)
  {
    if Expandable(i) {
      forall r: RegFile ensures ExecAll(TwoOperand(i), r) == Exec(i, r) {
        ExpansionPreserves(i, r);
      }
    } else {
      OverwriteShows(i);
    }
  }

  // ---------------------------------------------------------------- instruction lists

  function ExpandAll(code: seq<Instr>): seq<Instr>
  {
    if code == [] then [] else TwoOperand(code[0]) + ExpandAll(code[1..])
  }

  lemma {:induction false} ListExpansionPreserves(code: seq<Instr>, r: RegFile)
    requires forall i :: i in code ==> IsAlu(i.opcode) && Expandable(i)
    ensures ExecAll(ExpandAll(code), r) == ExecAll(code, r)
    decreases |code|
  {
    if code != [] {
      ExpansionPreserves(code[0], r);
      ExecAllAppend(TwoOperand(code[0]), ExpandAll(code[1..]), r);
      ListExpansionPreserves(code[1..], Exec(code[0], r));
    }
  }

  /** The operand-order assertion of the emitter accepts the expansion of an instruction exactly
  when its opcode does not ask for a destination that differs from the source; the inserted MOV
  keeps the operand width. */
  lemma ExpansionAccepted(i: Instr)
    ensures (forall e :: e in TwoOperand(i) ==> !Rejected(e)) <==> !DestMustDiffer(i.opcode)
    ensures forall e :: e in TwoOperand(i) ==> Width(e.opcode) == Width(i.opcode)
    ensures NeedsMov(i) ==> IsMov(TwoOperand(i)[0].opcode)
  {
    SwapToMov(i.opcode);
    assert Folded(i) in TwoOperand(i);
    assert Folded(i).ops[0].id == Folded(i).ops[1].id;
    if NeedsMov(i) {
      assert TwoOperand(i) == [MovOf(i), Folded(i)];
    } else {
      assert TwoOperand(i) == [Folded(i)];
    }
  }
}
