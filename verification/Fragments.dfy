/** The guest-to-IR pass over a whole block: buffer use, and each fragment as a flush-free run. */
module Fragments {
  import opened Bits
  import opened Ir
  import opened Mips
  import opened InstrFix
  import opened Passes

  // ---------------------------------------------------------------- one word

  lemma CodeOfIsShort(t: Tables, w: GuestWord)
    ensures |CodeOf(t, w)| <= 2
  {
  }

  lemma TranslateWordRuns(p: Progress, w: GuestWord)
    requires |p.code| <= IR_CAPACITY && TypeOf(w) == R && |p.code| + 2 <= IR_CAPACITY
    ensures TranslateWord(p, w) == Running(Progress(AfterWord(p.t, w), p.code + CodeOf(p.t, w)))
  {
    if IrOpcode(Funct(w)) == INVALID_OPCODE {
      assert p.code + [] == p.code;
    }
  }

  /** The group that the last instruction of a translated word has. */
  function GroupOfFunct(funct: nat): bv16
  {
    if funct == 0x20 then GROUP_ADD
    else if funct == 0x22 then GROUP_SUB
    else if funct == 0x24 then GROUP_AND
    else GROUP_OR
  }

  /** A word with a non-zero opcode field stops the pass. */
  lemma OtherTypesStop(p: Progress, w: GuestWord)
    requires |p.code| <= IR_CAPACITY && w >= 0x400_0000
    ensures TranslateWord(p, w) == WordNotImplemented
  {
    TypeExactly(w);
  }

  /** Any other function emits nothing and touches no table. */
  lemma OtherFunctionsEmitNothing(p: Progress, w: GuestWord)
    requires |p.code| <= IR_CAPACITY && w < 0x400_0000 && w % 64 !in {0x20, 0x22, 0x24, 0x25}
    ensures TranslateWord(p, w) == Running(p)
  {
    TypeExactly(w);
  }

  /** Add, sub, and, or emit one or two entries, the last of which is the operation. */
  lemma FourFunctionsEmit(p: Progress, w: GuestWord)
    requires |p.code| + 2 <= IR_CAPACITY && w < 0x400_0000 && w % 64 in {0x20, 0x22, 0x24, 0x25}
    ensures var o := TranslateWord(p, w);
      && o.Running? && |p.code| + 1 <= |o.p.code| <= |p.code| + 2 && o.p.code[..|p.code|] == p.code
      && Group(o.p.code[|o.p.code| - 1].opcode) == GroupOfFunct(w % 64)
  {
    TypeExactly(w);
    SupportedExactly(w);
    TableGroups();
    TranslateWordRuns(p, w);
  }

  // ---------------------------------------------------------------- buffer bound

  /** Two entries a word are always enough room: the pass runs on, two slots stay free before each
  further word, and only other word types can stop it. */
  lemma {:induction false} PassBound(kind: BlockKind, live: Liveness, words: seq<GuestWord>, n: nat, start: Progress)
    requires n <= |words| && |start.code| + 2 * n <= IR_CAPACITY
    ensures Pass(kind, live, words, n, start) != BufferTooSmall
    ensures Pass(kind, live, words, n, start).Running? <==> AllRType(words[..n])
    ensures AllRType(words[..n]) ==> |Pass(kind, live, words, n, start).p.code| <= |start.code| + 2 * n
  {
    if n > 0 {
      PassBound(kind, live, words, n - 1, start);
      var w := words[n - 1];
      assert words[..n] == words[..n - 1] + [w];
      assert AllRType(words[..n]) <==> AllRType(words[..n - 1]) && TypeOf(w) == R;
      if AllRType(words[..n]) {
        var p := Pass(kind, live, words, n - 1, start).p;
        TranslateWordRuns(p, w);
        CodeOfIsShort(p.t, w);
      }
    }
  }

  lemma RTypeWords(ws: seq<GuestWord>)
    ensures AllRType(ws) <==> forall k :: 0 <= k < |ws| ==> ws[k] < 0x400_0000
  {
    forall k | 0 <= k < |ws| ensures TypeOf(ws[k]) == R <==> ws[k] < 0x400_0000 {
      TypeExactly(ws[k]);
    }
  }

  /** With room for two entries a word, the first n words are translated exactly when all of them have a
  zero opcode field; the first other one stops the program. */
  lemma StopsOnWord(kind: BlockKind, live: Liveness, words: seq<GuestWord>, n: nat, start: Progress)
    requires n <= |words| && |start.code| + 2 * n <= IR_CAPACITY
    ensures var r := Pass(kind, live, words, n, start);
      && (r.Running? <==> forall k :: 0 <= k < n ==> words[k] < 0x400_0000)
      && (!r.Running? ==> r == WordNotImplemented)
  {
    PassBound(kind, live, words, n, start);
    RTypeWords(words[..n]);
    assert forall k :: 0 <= k < n ==> words[..n][k] == words[k];
  }

  /** A block translated into an empty buffer is translated completely, into at most 256 entries,
  exactly when all its words are R-type, that is, have a zero opcode field; otherwise the first
  other word stops the program. */
  lemma {:induction false} BlockFits(kind: BlockKind, live: Liveness, words: seq<GuestWord>, t: Tables)
    requires |words| == BlockWords(kind)
    ensures var r := Pass(kind, live, words, |words|, Progress(t, []));
      && (r.Running? <==> AllRType(words))
      && (r.Running? <==> forall k :: 0 <= k < |words| ==> words[k] < 0x400_0000)
      && (!r.Running? ==> r == WordNotImplemented)
      && (r.Running? ==> |r.p.code| <= 2 * |words| <= IR_CAPACITY)
  {
    RTypeWords(words);
    PassBound(kind, live, words, |words|, Progress(t, []));
    assert words[..|words|] == words;
  }

  // ---------------------------------------------------------------- fragments

  function FragWords(kind: BlockKind): nat
  {
    FragBytes(kind) / 4
  }

  /** A big block has 128 words and a small one 32, in sixteen fragments of eight words or of two. */
  lemma BlockShape(kind: BlockKind)
    ensures BlockWords(Big) == 128 && BlockWords(Small) == 32
    ensures FragWords(Big) == 8 && FragWords(Small) == 2
    ensures BlockWords(kind) == 16 * FragWords(kind) && BlockBytes(kind) == 4 * BlockWords(kind)
  {
  }

  /** The words of a block lie in its sixteen fragments. */
  lemma WordPlace(kind: BlockKind, k: nat)
    requires k < BlockWords(kind)
    ensures FragOf(kind, k) == k / FragWords(kind) < 16
  {
    BlockShape(kind);
    FragmentOfWord(kind, k / FragWords(kind), k % FragWords(kind));
  }

  /** Word k lies in fragment k / FragWords, and the last word of a fragment crosses. */
  lemma {:induction false} FragmentOfWord(kind: BlockKind, b: nat, j: nat)
    requires j < FragWords(kind)
    ensures FragOf(kind, b * FragWords(kind) + j) == b
    ensures Crosses(kind, b * FragWords(kind) + j) <==> j == FragWords(kind) - 1
  {
    FragmentOfWordIn(32, 8, b, j);
    if kind == Small {
      FragmentOfWordIn(8, 2, b, j);
    }
  }

  lemma FragmentOfWordIn(bytes: nat, words: nat, b: nat, j: nat)
    requires bytes == 4 * words && words >= 1 && j < words
    ensures 4 * (b * words + j) / bytes == b
    ensures 4 * (b * words + j + 1) / bytes == if j == words - 1 then b + 1 else b
  {
    assert 4 * (b * words + j) == bytes * b + 4 * j;
    DivUnique(4 * (b * words + j), bytes, b, 4 * j);
    if j == words - 1 {
      assert 4 * (b * words + j + 1) == bytes * (b + 1) + 0;
      DivUnique(4 * (b * words + j + 1), bytes, b + 1, 0);
    } else {
      DivUnique(4 * (b * words + j + 1), bytes, b, 4 * (j + 1));
    }
  }

  lemma {:induction false} TablesAppend(t: Tables, ws: seq<GuestWord>, w: GuestWord)
    ensures AfterWords(t, ws + [w]) == AfterWord(AfterWords(t, ws), w)
    decreases |ws|
  {
    if ws == [] {
      assert ([] + [w])[1..] == [];
    } else {
      assert (ws + [w])[1..] == ws[1..] + [w];
      TablesAppend(AfterWord(t, ws[0]), ws[1..], w);
    }
  }

  lemma {:induction false} RunAppend(t: Tables, ws: seq<GuestWord>, w: GuestWord)
    ensures AfterWords(t, ws + [w]) == AfterWord(AfterWords(t, ws), w)
    ensures CodeOfWords(t, ws + [w]) == CodeOfWords(t, ws) + CodeOf(AfterWords(t, ws), w)
    decreases |ws|
  {
    TablesAppend(t, ws, w);
    if ws == [] {
      assert ([] + [w])[1..] == [];
      assert CodeOfWords(AfterWord(t, w), []) == [];
    } else {
      var u := AfterWord(t, ws[0]);
      assert (ws + [w])[1..] == ws[1..] + [w];
      RunAppend(u, ws[1..], w);
      AppendAssociates(CodeOf(t, ws[0]), CodeOfWords(u, ws[1..]), CodeOf(AfterWords(u, ws[1..]), w));
    }
  }

  /** The words of fragment b. */
  function FragmentWords(kind: BlockKind, words: seq<GuestWord>, b: nat): seq<GuestWord>
    requires (b + 1) * FragWords(kind) <= |words|
  {
    words[b * FragWords(kind)..(b + 1) * FragWords(kind)]
  }

  /** A word, or a flush-free run of words, appended to what the pass has done. */
  function AppendWord(p: Progress, w: GuestWord): Progress
  {
    Progress(AfterWord(p.t, w), p.code + CodeOf(p.t, w))
  }

  function AppendRun(p: Progress, ws: seq<GuestWord>): Progress
  {
    Progress(AfterWords(p.t, ws), p.code + CodeOfWords(p.t, ws))
  }

  lemma RunExtends(p: Progress, ws: seq<GuestWord>, w: GuestWord)
    ensures AppendRun(p, ws + [w]) == AppendWord(AppendRun(p, ws), w)
  {
    RunAppend(p.t, ws, w);
    AppendAssociates(p.code, CodeOfWords(p.t, ws), CodeOf(AfterWords(p.t, ws), w));
  }

  lemma EmptyRun(p: Progress)
    ensures AppendRun(p, []) == p
  {
  }

  lemma SliceGrows(s: seq<GuestWord>, n: nat, m: nat)
    requires n < m <= |s|
    ensures s[n..m] == s[n..m - 1] + [s[m - 1]]
  {
  }

  lemma AppendAssociates(a: seq<Instr>, b: seq<Instr>, c: seq<Instr>)
    ensures (a + b) + c == a + (b + c)
  {
  }

  function Crossed(kind: BlockKind, live: Liveness, p: Progress, k: nat): Progress
  {
    p.(t := Cross(kind, live, p.t, k))
  }

  /** The effect of one more R-type word on the pass. */
  lemma {:induction false} PassStep(kind: BlockKind, live: Liveness, words: seq<GuestWord>, n: nat, start: Progress)
    requires n < |words| && AllRType(words) && |start.code| + 2 * |words| <= IR_CAPACITY
    ensures var p, q := Pass(kind, live, words, n, start), Pass(kind, live, words, n + 1, start);
      p.Running? && q.Running? && q.p == Crossed(kind, live, AppendWord(p.p, words[n]), n)
  {
    PassBound(kind, live, words, n, start);
    TranslateWordRuns(Pass(kind, live, words, n, start).p, words[n]);
  }

  /** Without a crossing, one more word only appends. */
  lemma {:induction false} PlainStep(kind: BlockKind, live: Liveness, words: seq<GuestWord>, n: nat, start: Progress)
    requires n < |words| && AllRType(words) && |start.code| + 2 * |words| <= IR_CAPACITY
    requires !Crosses(kind, n)
    ensures var p, q := Pass(kind, live, words, n, start), Pass(kind, live, words, n + 1, start);
      p.Running? && q.Running? && q.p == AppendWord(p.p, words[n])
  {
    PassStep(kind, live, words, n, start);
  }

  /** Words n to m - 1, none of them crossing, form a flush-free run. */
  lemma {:induction false} Segment(kind: BlockKind, live: Liveness, words: seq<GuestWord>, start: Progress,
                                   n: nat, m: nat)
    requires n <= m <= |words| && AllRType(words) && |start.code| + 2 * |words| <= IR_CAPACITY
    requires forall k :: n <= k < m ==> !Crosses(kind, k)
    ensures var before, after := Pass(kind, live, words, n, start), Pass(kind, live, words, m, start);
      before.Running? && after.Running? && after.p == AppendRun(before.p, words[n..m])
    decreases m - n
  {
    var before := Pass(kind, live, words, n, start);
    if n == m {
      PassBound(kind, live, words, n, start);
      EmptyRun(before.p);
    } else {
      var last := m - 1;
      Segment(kind, live, words, start, n, last);
      PlainStep(kind, live, words, last, start);
      SliceGrows(words, n, m);
      RunExtends(before.p, words[n..last], words[last]);
    }
  }

  /** Over a whole fragment the pass appends the code of the flush-free run of its words, and then
  flushes the tables of that run with the liveness bit of the fragment. */
  lemma {:induction false} FragmentIsRun(kind: BlockKind, live: Liveness, words: seq<GuestWord>, start: Progress,
                                         b: nat)
    requires (b + 1) * FragWords(kind) <= |words|
    requires AllRType(words) && |start.code| + 2 * |words| <= IR_CAPACITY
    ensures var n0, n1 := b * FragWords(kind), (b + 1) * FragWords(kind);
      var before, after := Pass(kind, live, words, n0, start), Pass(kind, live, words, n1, start);
      && before.Running? && after.Running?
      && var run := AppendRun(before.p, FragmentWords(kind, words, b));
         after.p == Progress(Flush(run.t, live, b), run.code)
  {
    var n, last := b * FragWords(kind), (b + 1) * FragWords(kind) - 1;
    forall k | n <= k < last ensures !Crosses(kind, k) {
      FragmentOfWord(kind, b, k - n);
    }
    FragmentOfWord(kind, b, last - n);
    Segment(kind, live, words, start, n, last);
    PassStep(kind, live, words, last, start);
    SliceGrows(words, n, last + 1);
    RunExtends(Pass(kind, live, words, n, start).p, words[n..last], words[last]);
  }
}
