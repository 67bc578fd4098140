/**
 * The interpreter object: the decoded program, the program counter, the data
 * pointer and a fixed-size tape, updated in place instruction by instruction.
 * Every method is proved to do what the functional semantics says.
 */
module Interpreter {
  import opened Instructions
  import opened Tape
  import opened Brackets
  import opened Semantics

  class Program {
    var pc: nat
    var pointer: nat
    var tape: array<u8>
    var file: seq<Instr>
    /** The bytes printed so far, in order; stands for the writes to standard output. */
    var output: seq<u8>

    /** The machine state this object holds. */
    ghost function State(): Machine
      reads this, tape
    {
      Machine(file, pc, pointer, tape[..], output)
    }

    ghost predicate Valid()
      reads this, tape
    {
      State().Valid()
    }

    /**
     * A tape of `tapeSize` zeroed cells, counter and pointer at 0, and one
     * instruction per character of `source`, in source order.
     */
    constructor (tapeSize: nat, source: string)
      requires 1 <= tapeSize
      ensures Valid() && fresh(tape)
      ensures State() == Init(tapeSize, source)
    {
      pc := 0;
      pointer := 0;
      tape := new u8[tapeSize](_ => 0);
      file := [];
      output := [];
      new;
      for i := 0 to |source|
        invariant file == Translate(source[..i])
        invariant pc == 0 && pointer == 0 && output == []
        invariant fresh(tape) && tape.Length == tapeSize
        invariant forall j :: 0 <= j < tapeSize ==> tape[j] == 0
      {
        assert source[..i + 1][..i] == source[..i];
        file := file + [Decode(source[i])];
      }
      assert source[..|source|] == source;
      assert tape[..] == seq(tapeSize, _ => 0);
    }

    /** Executes one instruction that has just been fetched (the counter is past it). */
    method RunInstr(i: Instr)
      requires Valid() && 1 <= pc
      modifies this, tape
      ensures Valid() && tape == old(tape)
      ensures State() == Exec(old(State()), i)
    {
      match i
      case MvPtrLeft =>
        if pointer >= 1 {
          pointer := pointer - 1;
        } else {
          pointer := tape.Length - 1;
        }
      case MvPtrRight =>
        if pointer < tape.Length - 1 {
          pointer := pointer + 1;
        } else {
          pointer := 0;
        }
      case Add =>
        tape[pointer] := Inc(tape[pointer]);
      case Sub =>
        tape[pointer] := Dec(tape[pointer]);
      case Open =>
        JumpIfZero();
      case Close =>
        JumpIfNotZero();
      case Print =>
        output := output + [tape[pointer]];
      case _ =>
    }

    /**
     * Runs the fetch-execute loop for at most `fuel` turns: fetch the
     * instruction under the counter, advance the counter, execute it; stop
     * as soon as the counter reaches the program length.
     */
    method Start(fuel: nat)
      requires Valid()
      modifies this, tape
      ensures Valid() && tape == old(tape)
      ensures State() == Run(old(State()), fuel)
    {
      var steps := 0;
      ghost var m := State();
      while pc < |file| && steps < fuel
        invariant Valid() && tape == old(tape)
        invariant m == State() && steps <= fuel
        invariant Run(m, fuel - steps) == Run(old(State()), fuel)
        decreases fuel - steps
      {
        var instr := file[pc];
        pc := pc + 1;
        RunInstr(instr);
        RunUnfold(m, fuel - steps);
        m := Step(m);
        steps := steps + 1;
      }
    }

    /**
     * Loop-open: with a non-zero cell, nothing happens; with a zero cell the
     * counter moves forward onto the matching `Close`, or to the program
     * length when there is none.
     */
    method JumpIfZero()
      requires Valid()
      modifies this`pc
      ensures Valid()
      ensures tape[pointer] != 0 ==> pc == old(pc)
      ensures tape[pointer] == 0 ==> pc == ScanForward(file, old(pc), 0)
      ensures tape[pointer] == 0 ==>
        || (pc < |file| && IsForwardMatch(file, old(pc), pc))
        || (pc == |file| && NoForwardMatch(file, old(pc)))
    {
      if tape[pointer] != 0 {
        return;
      }
      var depth: nat := 0;
      while pc < |file|
        invariant old(pc) <= pc <= |file|
        invariant ScanForward(file, pc, depth) == ScanForward(file, old(pc), 0)
      {
        match file[pc] {
          case Open =>
            depth := depth + 1;
          case Close =>
            if depth == 0 {
              break;
            }
            depth := depth - 1;
          case _ =>
        }
        pc := pc + 1;
      }
      ScanForwardCorrect(file, old(pc));
    }

    /**
     * Loop-close: with a zero cell, nothing happens; otherwise the counter
     * goes back two places, to the instruction before the `Close`, and then
     * scans backward onto the matching `Open`. When the scan passes index 0
     * (the `usize` counter of src/main.rs wraps), the counter is set to the
     * program length, so the machine halts. The scan runs on a local `k: int`
     * and writes the counter once at the end, where src/main.rs decrements
     * the counter itself.
     */
    method JumpIfNotZero()
      requires Valid() && 1 <= pc
      modifies this`pc
      ensures Valid()
      ensures tape[pointer] == 0 ==> pc == old(pc)
      ensures tape[pointer] != 0 ==> pc == ScanBackward(file, old(pc) - 2, 0)
      ensures tape[pointer] != 0 ==>
        || (pc < |file| && IsBackwardMatch(file, old(pc) - 2, pc))
        || (pc == |file| && NoBackwardMatch(file, old(pc) - 2))
    {
      if tape[pointer] == 0 {
        return;
      }
      var depth: nat := 0;
      var k: int := pc - 2;
      while 0 <= k
        invariant -1 <= k < |file|
        invariant ScanBackward(file, k, depth) == ScanBackward(file, old(pc) - 2, 0)
      {
        match file[k] {
          case Close =>
            depth := depth + 1;
          case Open =>
            if depth == 0 {
              break;
            }
            depth := depth - 1;
          case _ =>
        }
        k := k - 1;
      }
      pc := if k < 0 then |file| else k;
      ScanBackwardCorrect(file, old(pc) - 2);
    }
  }
}
