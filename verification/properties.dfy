/**
 * What the execution engine guarantees, stated on the functional semantics:
 * the effect of each instruction, the bracket jumps, the fetch-execute loop,
 * and a few whole programs.
 */
module Properties {
  import opened Instructions
  import opened Tape
  import opened Brackets
  import opened Semantics

  // ---------------------------------------------------------------------
  // Single instructions
  // ---------------------------------------------------------------------

  /**
   * Pointer moves stay on the tape, wrap around at both ends, touch nothing
   * but the pointer, and undo each other.
   */
  lemma PointerMoves(m: Machine)
    requires m.Valid()
    ensures var r := Exec(m, MvPtrRight);
      && r == m.(pointer := r.pointer)
      && r.pointer == (if m.pointer == |m.tape| - 1 then 0 else m.pointer + 1)
    ensures var l := Exec(m, MvPtrLeft);
      && l == m.(pointer := l.pointer)
      && l.pointer == (if m.pointer == 0 then |m.tape| - 1 else m.pointer - 1)
    ensures Exec(Exec(m, MvPtrRight), MvPtrLeft) == m
    ensures Exec(Exec(m, MvPtrLeft), MvPtrRight) == m
  {
  }

  /**
   * Add and Sub change the cell under the pointer by one modulo 256 and
   * nothing else; each undoes the other.
   */
  lemma CellArithmetic(m: Machine)
    requires m.Valid()
    ensures var a := Exec(m, Add);
      && a == m.(tape := a.tape)
      && a.tape[m.pointer] as int == (m.Cell() as int + 1) % 256
      && forall i :: 0 <= i < |m.tape| && i != m.pointer ==> a.tape[i] == m.tape[i]
    ensures var s := Exec(m, Sub);
      && s == m.(tape := s.tape)
      && s.tape[m.pointer] as int == (m.Cell() as int + 255) % 256
      && forall i :: 0 <= i < |m.tape| && i != m.pointer ==> s.tape[i] == m.tape[i]
    ensures Exec(Exec(m, Add), Sub) == m
    ensures Exec(Exec(m, Sub), Add) == m
  {
  }

  /** Replace (input) and Unknown do nothing; Print only appends the cell to the output. */
  lemma QuietInstructions(m: Machine)
    requires m.Valid()
    ensures Exec(m, Replace) == m
    ensures Exec(m, Unknown) == m
    ensures Exec(m, Print) == m.(output := m.output + [m.Cell()])
  {
  }

  /**
   * Loop-open: a non-zero cell changes nothing; a zero cell moves only the
   * counter, onto the matching `Close`, or to the program length when no
   * `Close` matches.
   */
  lemma OpenJumps(m: Machine)
    requires m.Valid()
    ensures m.Cell() != 0 ==> Exec(m, Open) == m
    ensures var r := Exec(m, Open);
      m.Cell() == 0 ==>
        && r == m.(pc := r.pc)
        && (r.pc < |m.file| <==> !NoForwardMatch(m.file, m.pc))
        && (r.pc < |m.file| ==> IsForwardMatch(m.file, m.pc, r.pc))
  {
    ScanForwardCorrect(m.file, m.pc);
  }

  /**
   * Loop-close, entered just past the `Close`: a zero cell changes nothing;
   * a non-zero cell moves only the counter, onto the matching `Open` before
   * the `Close`, or to the program length (halt) when no `Open` matches.
   */
  lemma CloseJumps(m: Machine)
    requires m.Valid() && 1 <= m.pc
    ensures m.Cell() == 0 ==> Exec(m, Close) == m
    ensures var r := Exec(m, Close);
      m.Cell() != 0 ==>
        && r == m.(pc := r.pc)
        && (r.pc < |m.file| <==> !NoBackwardMatch(m.file, m.pc - 2))
        && (r.pc < |m.file| ==> IsBackwardMatch(m.file, m.pc - 2, r.pc))
  {
    ScanBackwardCorrect(m.file, m.pc - 2);
  }

  /** In `[[-]]` each bracket of the outer pair matches the other, not an inner one. */
  lemma NestedBracketsMatch()
    ensures var file := Translate("[[-]]");
      ScanForward(file, 1, 0) == 4 && ScanBackward(file, 3, 0) == 0
  {
  }

  // ---------------------------------------------------------------------
  // The fetch-execute loop
  // ---------------------------------------------------------------------

  /** Running `a` turns and then `b` more is running `a + b` turns. */
  lemma {:induction false} RunAdditive(m: Machine, a: nat, b: nat)
    requires m.Valid()
    ensures Run(Run(m, a), b) == Run(m, a + b)
    decreases a
  {
    if a != 0 && !m.Halted() {
      var s := Step(m);
      RunAdditive(s, a - 1, b);
      RunUnfold(m, a);
      RunUnfold(m, a + b);
    }
  }

  /** Inert instructions: the ones that never touch the tape, the pointer or the output. */
  predicate Inert(i: Instr)
  {
    i == Unknown || i == Replace
  }

  /**
   * A program made only of inert instructions runs straight to its end, one
   * turn per remaining instruction, changing nothing but the counter.
   */
  lemma {:induction false} InertProgramRuns(m: Machine)
    requires m.Valid()
    requires forall i :: 0 <= i < |m.file| ==> Inert(m.file[i])
    ensures Run(m, |m.file| - m.pc) == m.(pc := |m.file|)
    decreases |m.file| - m.pc
  {
    if !m.Halted() {
      InertProgramRuns(Step(m));
    }
  }

  /**
   * Source text without opcode characters (a comment) halts after one turn
   * per character, with no output and the tape still all zero.
   */
  lemma CommentOnlySource(tapeSize: nat, source: string)
    requires 1 <= tapeSize
    requires forall i :: 0 <= i < |source| ==> source[i] !in Opcodes
    ensures var r := Run(Init(tapeSize, source), |source|);
      && r.Halted() && r.pc == |source|
      && r.output == [] && r.pointer == 0
      && forall i :: 0 <= i < tapeSize ==> r.tape[i] == 0
  {
    var m := Init(tapeSize, source);
    CommentIsInert(source);
    InertProgramRuns(m);
    assert Run(m, |source|) == m.(pc := |source|);
  }

  lemma CommentIsInert(source: string)
    requires forall i :: 0 <= i < |source| ==> source[i] !in Opcodes
    ensures forall i :: 0 <= i < |source| ==> Inert(Translate(source)[i])
  {
  }

  /**
   * A loop entered with a zero cell is skipped: two turns take the counter
   * from the `Open` to just past its matching `Close`, and nothing else
   * changes.
   */
  lemma ZeroCellSkipsLoop(m: Machine, j: nat)
    requires m.Valid() && m.pc < |m.file| && m.file[m.pc] == Open && m.Cell() == 0
    requires IsForwardMatch(m.file, m.pc + 1, j)
    ensures Run(m, 2) == m.(pc := j + 1)
  {
    ScanForwardCorrect(m.file, m.pc + 1);
    var m1 := Step(m);
    assert m1 == m.(pc := j);
    RunUnfold(m, 2);
    RunUnfold(m1, 1);
  }

  /**
   * A `[-]` loop at index `p` of any program, entered with a non-zero cell
   * `v`, runs its body exactly `v` times: after `3 * v` turns the counter is
   * just past the loop with the cell cleared, and one turn earlier it was
   * still on the loop's `Close`.
   */
  lemma {:induction false} ClearLoopRuns(m: Machine, p: nat)
    requires m.Valid() && p + 3 <= |m.file| && m.pc == p
    requires m.file[p] == Open && m.file[p + 1] == Sub && m.file[p + 2] == Close
    requires m.Cell() != 0
    ensures Run(m, 3 * m.Cell() as nat) == m.(pc := p + 3, tape := m.tape[m.pointer := 0])
    ensures Run(m, 3 * m.Cell() as nat - 1).pc == p + 2
    decreases m.Cell()
  {
    var v := m.Cell();
    var m1 := Step(m);
    assert m1 == m.(pc := p + 1);
    var m2 := Step(m1);
    assert m2 == m.(pc := p + 2, tape := m.tape[m.pointer := v - 1]);
    var m3 := Step(m2);
    RunUnfold(m, 3);
    RunUnfold(m1, 2);
    RunUnfold(m2, 1);
    assert Run(m, 3) == m3;
    if v == 1 {
      assert m3 == m.(pc := p + 3, tape := m.tape[m.pointer := 0]);
      assert Run(m, 2) == m2;
    } else {
      assert ScanBackward(m.file, p, 0) == p;
      assert ScanBackward(m.file, p + 1, 0) == p;
      assert m3 == m.(tape := m.tape[m.pointer := v - 1]);
      ClearLoopRuns(m3, p);
      assert m3.tape[m.pointer := 0] == m.tape[m.pointer := 0];
      RunAdditive(m, 3, 3 * (v - 1) as nat);
      RunAdditive(m, 3, 3 * (v - 1) as nat - 1);
    }
  }

  // ---------------------------------------------------------------------
  // Whole programs
  // ---------------------------------------------------------------------

  /** `++.` prints the byte 2 and halts after three turns, on a tape of any size. */
  lemma PrintTwo(tapeSize: nat)
    requires 1 <= tapeSize
    ensures var r := Run(Init(tapeSize, "++."), 3);
      r.Halted() && r.output == [2]
  {
  }

  /**
   * `+[-]` runs its loop once and halts after four turns with no output and
   * every cell zero.
   */
  lemma ClearAfterIncrement(tapeSize: nat)
    requires 1 <= tapeSize
    ensures var r := Run(Init(tapeSize, "+[-]"), 4);
      && r.Halted() && r.output == []
      && forall i :: 0 <= i < tapeSize ==> r.tape[i] == 0
  {
  }

  /**
   * `++[[-]]`: the inner loop runs twice, jumping back to the inner `Open`
   * in between; the run halts just past the outer `Close` with the cell
   * cleared and no output.
   */
  lemma NestedLoopExits(tapeSize: nat)
    requires 1 <= tapeSize
    ensures var r := Run(Init(tapeSize, "++[[-]]"), 10);
      && r.Halted() && r.pc == 7 && r.output == []
      && forall i :: 0 <= i < tapeSize ==> r.tape[i] == 0
  {
    var m0 := Init(tapeSize, "++[[-]]");
    assert m0.file == [Add, Add, Open, Open, Sub, Close, Close];
    var m1 := Step(m0);
    assert m1 == m0.(pc := 1, tape := m0.tape[0 := 1]);
    var m2 := Step(m1);
    assert m2 == m0.(pc := 2, tape := m0.tape[0 := 2]);
    var m3 := Step(m2);
    assert m3 == m2.(pc := 3);
    var m4 := Step(m3);
    assert m4 == m2.(pc := 4);
    var m5 := Step(m4);
    assert m5 == m1.(pc := 5);
    var m6 := Step(m5);
    assert ScanBackward(m0.file, 4, 0) == 3;
    assert m6 == m1.(pc := 3);
    var m7 := Step(m6);
    assert m7 == m1.(pc := 4);
    var m8 := Step(m7);
    assert m8 == m0.(pc := 5);
    var m9 := Step(m8);
    assert m9 == m0.(pc := 6);
    var m10 := Step(m9);
    assert m10 == m0.(pc := 7);
    RunUnfold(m0, 10); RunUnfold(m1, 9); RunUnfold(m2, 8); RunUnfold(m3, 7);
    RunUnfold(m4, 6); RunUnfold(m5, 5); RunUnfold(m6, 4); RunUnfold(m7, 3);
    RunUnfold(m8, 2); RunUnfold(m9, 1);
  }
}
