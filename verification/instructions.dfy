/**
 * The translator: every character of the source text becomes one instruction.
 * The eight opcode characters map to the eight operations; every other
 * character (comments, whitespace, ...) becomes the no-op `Unknown`.
 */
module Instructions {

  /** The instruction set. The source spells the no-op variant `Unknwon`. */
  datatype Instr =
    | MvPtrRight
    | MvPtrLeft
    | Add
    | Sub
    | Print
    | Replace
    | Open
    | Close
    | Unknown

  /** The eight opcode characters, in the order of the variants above. */
  const Opcodes: string := "><+-.,[]"

  /** Translates one character; total, with no error path. */
  function Decode(c: char): (r: Instr)
    ensures r == MvPtrRight <==> c == '>'
    ensures r == MvPtrLeft <==> c == '<'
    ensures r == Add <==> c == '+'
    ensures r == Sub <==> c == '-'
    ensures r == Print <==> c == '.'
    ensures r == Replace <==> c == ','
    ensures r == Open <==> c == '['
    ensures r == Close <==> c == ']'
    ensures r == Unknown <==> c !in Opcodes
  {
    match c
    case '>' => MvPtrRight
    case '<' => MvPtrLeft
    case '+' => Add
    case '-' => Sub
    case '.' => Print
    case ',' => Replace
    case '[' => Open
    case ']' => Close
    case _ => Unknown
  }

  /**
   * Translates a whole source text, one instruction per character, in
   * source order; built by appending, as the construction loop does.
   */
  function Translate(source: string): (file: seq<Instr>)
    ensures |file| == |source|
    ensures forall i :: 0 <= i < |source| ==> file[i] == Decode(source[i])
  {
    if source == [] then []
    else Translate(source[..|source| - 1]) + [Decode(source[|source| - 1])]
  }
}
