/**
 * The machine as a value, and the meaning of one instruction, one
 * fetch-execute step and a bounded run. The class in program.dfy is proved
 * to follow these definitions.
 */
module Semantics {
  import opened Instructions
  import opened Tape
  import opened Brackets

  /**
   * The whole machine state: the decoded program, the program counter, the
   * data pointer, the tape, and the bytes printed so far.
   */
  datatype Machine = Machine(
    file: seq<Instr>,
    pc: nat,
    pointer: nat,
    tape: seq<u8>,
    output: seq<u8>)
  {
    /** The tape is not empty, the pointer is on it, the counter at most one past the end. */
    predicate Valid()
    {
      1 <= |tape| && pointer < |tape| && pc <= |file|
    }

    /** The fetch-execute loop stops once the counter reaches the program length. */
    predicate Halted()
    {
      pc >= |file|
    }

    /** The cell under the data pointer. */
    function Cell(): u8
      requires Valid()
    {
      tape[pointer]
    }
  }

  /** The tape size the command-line driver uses (`2 << 16`). */
  const DefaultTapeSize: nat := 131072

  /** The machine as construction leaves it. */
  function Init(tapeSize: nat, source: string): (m: Machine)
    requires 1 <= tapeSize
    ensures m.Valid() && m.pc == 0 && m.pointer == 0 && m.output == []
    ensures |m.tape| == tapeSize && forall i :: 0 <= i < tapeSize ==> m.tape[i] == 0
    ensures |m.file| == |source| && forall i :: 0 <= i < |source| ==> m.file[i] == Decode(source[i])
  {
    Machine(Translate(source), 0, 0, seq(tapeSize, _ => 0), [])
  }

  /**
   * Executes one already fetched instruction; the counter already points
   * past it. Only the jumps move the counter, only Add and Sub change the
   * tape, only Print adds output.
   */
  function Exec(m: Machine, i: Instr): (r: Machine)
    requires m.Valid()
    ensures r.Valid()
    ensures r.file == m.file && |r.tape| == |m.tape|
  {
    match i
    case MvPtrLeft => m.(pointer := MoveLeft(m.pointer, |m.tape|))
    case MvPtrRight => m.(pointer := MoveRight(m.pointer, |m.tape|))
    case Add => m.(tape := m.tape[m.pointer := Inc(m.Cell())])
    case Sub => m.(tape := m.tape[m.pointer := Dec(m.Cell())])
    case Open =>
      if m.Cell() != 0 then m
      else m.(pc := ScanForward(m.file, m.pc, 0))
    case Close =>
      if m.Cell() == 0 then m
      else m.(pc := ScanBackward(m.file, m.pc - 2, 0))
    case Print => m.(output := m.output + [m.Cell()])
    case _ => m
  }

  /** One turn of the fetch-execute loop: fetch, advance the counter, execute. */
  function Step(m: Machine): (r: Machine)
    requires m.Valid() && !m.Halted()
    ensures r.Valid()
    ensures r.file == m.file && |r.tape| == |m.tape|
  {
    Exec(m.(pc := m.pc + 1), m.file[m.pc])
  }

  /** At most `fuel` turns of the fetch-execute loop; stops early once halted. */
  function Run(m: Machine, fuel: nat): (r: Machine)
    requires m.Valid()
    ensures r.Valid()
    ensures r.file == m.file && |r.tape| == |m.tape|
    ensures fuel == 0 || m.Halted() ==> r == m
    decreases fuel
  {
    if fuel == 0 || m.Halted() then m else Run(Step(m), fuel - 1)
  }

  /** A run that has fuel left and has not halted takes one step first. */
  lemma RunUnfold(m: Machine, fuel: nat)
    requires m.Valid() && !m.Halted() && 0 < fuel
    ensures Run(m, fuel) == Run(Step(m), fuel - 1)
  {
  }
}
