# stainfuck execution engine in Dafny

A model of the interpreter in `src/main.rs` of stainfuck, a virtual machine for
the eight-instruction Brainfuck tape language. It has three parts:

- **Translator** (`instructions.dfy`): `instr` becomes `Instructions.Decode`, and
  the construction loop's pushes become `Instructions.Translate`. Every
  character maps to exactly one `Instr`. Characters that are not opcodes map to
  the no-op `Unknown` (the source spells it `Unknwon`).
- **Machine** (`semantics.dfy`, `program.dfy`): the struct `program` becomes the
  class `Interpreter.Program`. It has the fields `pc`, `pointer`,
  `tape: array<u8>` and `file: seq<Instr>`, plus `output: seq<u8>`, which
  stands for the bytes written to standard output. Its methods `constructor`,
  `RunInstr`, `Start`, `JumpIfZero` and `JumpIfNotZero` follow `new`,
  `run_intr`, `start`, `jump_if_zero` and `jump_if_not_zero` branch by
  branch; `JumpIfNotZero` differs in where it keeps the scan position (see
  below). Each is proved to compute what the functional semantics in
  `Semantics` says: `Init`, `Exec` (one instruction), `Step` (fetch, advance,
  execute) and `Run` (a bounded number of steps).
- **Bracket matching** (`brackets.dfy`): `ScanForward` and `ScanBackward`
  follow the two lazy depth-tracking scans. `IsForwardMatch` and
  `IsBackwardMatch` define the matching bracket independently, by counting
  opens and closes. `ScanForwardCorrect` and `ScanBackwardCorrect` prove the two
  definitions agree.

`tape.dfy` holds the cell type `u8` (0..255), wrapping increment and
decrement, and the circular pointer moves. `properties.dfy` states what the
engine guarantees, from single instructions up to whole programs.

Decisions where the code leaves something to the platform:

- **Backward-scan underflow.** `self.pc -= 2` and `self.pc -= 1`
  (src/main.rs:148, 166) make the unsigned counter wrap below 0. This happens
  when a `Close` sits at index 0, or when no `Open` matches. The wrapped value
  is at least the program length, so the fetch loop stops. The model makes
  this explicit: the scan uses an `int` index, and when it passes below 0 the
  counter is set to the program length, so the machine halts. For this the
  backward scan keeps its position in a local `k: int` and writes `pc` once
  after the loop, where src/main.rs decrements `self.pc` in place. (A debug
  build of src/main.rs panics on the wrap instead; the model follows the
  release build.)
- **Tape size 0.** `self.tape.len() - 1` (src/main.rs:67, 72) would underflow,
  so the constructor requires a tape size of at least 1.
- **Termination.** `start` loops until `pc >= file.len()`, and some programs
  never get there. `Program.Start` and `Semantics.Run` therefore take a
  `fuel` bound on the number of fetch-execute turns. Both stop early, exactly
  when the counter reaches the program length.

## Model

| member | source | states |
|---|---|---|
| Instructions.Decode | src/main.rs:15-29 | each of `> < + - . , [ ]` maps to its own opcode and nothing else does; every other character maps to `Unknown` (both directions of each equivalence) |
| Instructions.Translate | src/main.rs:53-55 | one instruction per source character, in source order: same length, and entry `i` is `Decode` of character `i` |
| Tape.Inc | src/main.rs:79-82 | the new cell is `(v + 1) mod 256` |
| Tape.Dec | src/main.rs:84-87 | the new cell is `(v + 255) mod 256` |
| Tape.IncDecInverse | src/main.rs:79-87 | wrapping increment and decrement undo each other in both orders |
| Tape.MoveRight | src/main.rs:71-77 | the pointer stays below the tape length and becomes `(p + 1) mod n`: the last cell wraps to 0 |
| Tape.MoveLeft | src/main.rs:63-69 | the pointer stays below the tape length and becomes `(p + n - 1) mod n`: cell 0 wraps to `n - 1` |
| Tape.MoveInverse | src/main.rs:63-77 | a move right then left, or left then right, restores the pointer |
| Tape.RightTimesAdvance | src/main.rs:71-77 | up to a full turn, `k` moves right advance the pointer by `k`, wrapping past the end at most once |
| Tape.RightTapeLengthTimes | src/main.rs:71-77 | moving right as many times as there are cells returns the pointer to where it started |
| Brackets.ScanForward | src/main.rs:120-139 | the forward scan ends at or after its start and at most at the program length; below the length it ends on a `Close` |
| Brackets.ScanForwardCorrect | src/main.rs:115-140 | the forward scan from the counter stops on the first `Close` with as many opens as closes before it, which is the only such index; it runs to the program length exactly when no `Close` matches |
| Brackets.ScanBackward | src/main.rs:147-167 | the backward scan ends on an `Open` at or before its start, or at the program length (halt) |
| Brackets.ScanBackwardCorrect | src/main.rs:142-168 | the backward scan from two before the counter stops on the nearest `Open` with as many opens as closes after it, which is the only such index; it halts exactly when no `Open` matches |
| Semantics.Init | src/main.rs:45-58 | after construction the tape has `tapeSize` zero cells, counter and pointer are 0, there is no output, and `file[i] == Decode(source[i])` for every `i` |
| Semantics.Exec | src/main.rs:60-102 | executing any instruction keeps the pointer on the tape and the counter at most the program length; the program and the tape length never change |
| Semantics.Step | src/main.rs:108-111 | one fetch-execute turn keeps the machine state valid and the program and tape length unchanged |
| Semantics.Run | src/main.rs:104-113 | a bounded run keeps the state valid; with no fuel, or once the counter has reached the program length, nothing changes |
| Interpreter.Program.constructor | src/main.rs:45-58 | the new object holds exactly the machine state `Init` describes, with a fresh tape |
| Interpreter.Program.RunInstr | src/main.rs:60-102 | the in-place update of counter, pointer, tape and output equals `Exec` of the old state |
| Interpreter.Program.Start | src/main.rs:104-113 | the object's new state equals `Run` of the old state for the given fuel |
| Interpreter.Program.JumpIfZero | src/main.rs:115-140 | a non-zero cell leaves the counter alone; a zero cell moves it onto the matching `Close`, or to the program length when there is none; only the counter changes |
| Interpreter.Program.JumpIfNotZero | src/main.rs:142-168 | a zero cell leaves the counter alone; otherwise it moves onto the `Open` matching the `Close` just executed, or to the program length (halt) when there is none; only the counter changes |
| Properties.PointerMoves | src/main.rs:63-77 | `>` and `<` change only the pointer, wrap at both ends, and undo each other |
| Properties.CellArithmetic | src/main.rs:79-87 | `+` and `-` change only the cell under the pointer, by one modulo 256, and undo each other |
| Properties.QuietInstructions | src/main.rs:97-100 | `,` and unknown characters change nothing; `.` only appends the current cell to the output |
| Properties.OpenJumps | src/main.rs:89-91 | loop-open changes nothing on a non-zero cell; on a zero cell it moves only the counter, onto the matching `Close` or to the end |
| Properties.CloseJumps | src/main.rs:93-95 | loop-close changes nothing on a zero cell; on a non-zero cell it moves only the counter, onto the matching `Open` or to the end |
| Properties.NestedBracketsMatch | src/main.rs:115-168 | in `[[-]]` the outer `[` is matched by the outer `]` and vice versa, not by the inner ones |
| Properties.RunAdditive | src/main.rs:104-113 | `a` turns followed by `b` turns equal `a + b` turns |
| Properties.InertProgramRuns | src/main.rs:104-113 | a program of only no-op instructions halts after one turn per remaining instruction, with only the counter changed |
| Properties.CommentOnlySource | src/main.rs:45-58 | a source without opcode characters halts after `|source|` turns, with no output, the pointer at 0 and the tape all zero |
| Properties.ZeroCellSkipsLoop | src/main.rs:115-140 | a loop entered with a zero cell is skipped: two turns take the counter to just past its matching `Close`, with nothing else changed |
| Properties.ClearLoopRuns | src/main.rs:104-168 | a `[-]` loop at any index `p` of any program, entered with cell value `v > 0`, leaves the counter just past the loop with the cell cleared after exactly `3 * v` turns (`v` iterations), and one turn earlier the counter is still on its `]` |
| Properties.PrintTwo | src/main.rs:79-113 | `++.` on a tape of any size prints the byte 2 and halts after three turns |
| Properties.ClearAfterIncrement | src/main.rs:79-140 | `+[-]` halts after four turns, with no output and an all-zero tape |
| Properties.NestedLoopExits | src/main.rs:79-168 | `++[[-]]` jumps back into the inner loop once and halts just past the outer `]`, with no output and an all-zero tape |

## Left out

- `main` (src/main.rs:178-192): argument checking and reading the source file
  are I/O. Only its tape size `2 << 16` is kept, as
  `Semantics.DefaultTapeSize` = 131072.
- The write to standard output in `print` (src/main.rs:32-34): each printed
  byte is appended to the `output` sequence instead. The conversion of the
  byte to a character is not modelled.
- `print_debug` (src/main.rs:170-175): debug printing only, and its call is
  commented out.
- Interpreter.Program.Start: runs at most `fuel` turns instead of looping
  until the program ends, because some programs never end. It is exact
  whenever the fuel is at least the number of turns the program takes.
- Interpreter.Program.JumpIfNotZero: does not reproduce the unsigned wrap of
  the counter below 0. It sets the counter to the program length, which
  halts the machine just as the wrapped value does in a release build.
- Brackets.ScanForward / Brackets.ScanBackward: the nesting depth is an
  unbounded `nat`. In src/main.rs:120 and 147 `depth` is an `i32`, which
  overflows after 2^31 - 1 unclosed brackets in one scan (a debug build
  panics at the 2^31-th unclosed bracket; a release build wraps modulo 2^32
  and still stops on the same bracket unless 2^32 brackets are open at
  once). The panic needs a program of more than 2 GiB, so the model leaves
  it out.
- The overflow flag of `overflowing_add` and `overflowing_sub` is discarded by
  the source, and the model does not carry it.
