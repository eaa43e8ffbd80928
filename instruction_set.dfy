/**
 * The 6-bit word format shared by both stack machines: a value 0..15 is a
 * number operand, 16..31 an instruction, 33 SPEAK, 34 a space, 36..61 a
 * letter, and every other value NOP.
 */
module InstructionSet {
  import opened Wrappers
  import opened Python

  datatype Instruction =
    | STP | DUP | DEL | SWP | ADD | SUB | MUL | DIV
    | EXP | MOD | SHL | SHR | HEX | FAC | NOT | XOR
    | NOP | SPEAK

  /** The instructions with codes 16..31, in code order. */
  const Coded: seq<Instruction> :=
    [STP, DUP, DEL, SWP, ADD, SUB, MUL, DIV, EXP, MOD, SHL, SHR, HEX, FAC, NOT, XOR]

  /** The enum value of an instruction; NOP's value is None. */
  function Code(op: Instruction): Option<int>
  {
    match op
    case NOP => None
    case SPEAK => Some(33)
    case _ => Some(16 + IndexOf(op))
  }

  function IndexOf(op: Instruction): (k: nat)
    requires op != NOP && op != SPEAK
    ensures k < |Coded| && Coded[k] == op
  {
    match op
    case STP => 0 case DUP => 1 case DEL => 2 case SWP => 3
    case ADD => 4 case SUB => 5 case MUL => 6 case DIV => 7
    case EXP => 8 case MOD => 9 case SHL => 10 case SHR => 11
    case HEX => 12 case FAC => 13 case NOT => 14 case XOR => 15
  }

  /** A decoded word: a number operand, an instruction, or a character operand. */
  datatype Word = Number(n: nat) | Instr(op: Instruction) | Text(c: char)

  /** Decoding of an int into a word, as parse_byte does it. */
  function ParseValue(v: int): (w: Word)
    ensures w.Number? <==> 0 <= v <= 15
    ensures w.Number? ==> w.n == v
    ensures 16 <= v <= 31 ==> w.Instr? && Code(w.op) == Some(v)
    ensures v == 33 <==> w == Instr(SPEAK)
    ensures w.Text? <==> v == 34 || 36 <= v <= 61
    ensures v == 34 ==> w == Text(' ')
    ensures 36 <= v <= 61 ==> w.Text? && w.c as int == 'A' as int + v - 36
    ensures w == Instr(NOP) <==> v < 0 || v == 32 || v == 35 || v >= 62
  {
    if 0 <= v <= 15 then Number(v)
    else if 16 <= v <= 31 then Instr(Coded[v - 16])
    else if 32 <= v <= 35 then
      if v == 33 then Instr(SPEAK)
      else if v == 34 then Text(' ')
      else Instr(NOP)
    else if 36 <= v <= 61 then Text(('A' as int + v - 36) as char)
    else Instr(NOP)
  }

  /** The value that encodes a word, if the word has one (NOP has none of its own). */
  function WordCode(w: Word): Option<int>
  {
    match w
    case Number(n) => if n <= 15 then Some(n) else None
    case Instr(op) => Code(op)
    case Text(c) =>
      if c == ' ' then Some(34)
      else if 'A' <= c <= 'Z' then Some(c as int - 'A' as int + 36)
      else None
  }

  /** Decoding is inverse to encoding: every word with a code decodes from it. */
  lemma WordCodeDecodes(w: Word)
    requires WordCode(w).Some?
    ensures ParseValue(WordCode(w).value) == w
  {
    if w.Instr? && w.op != NOP && w.op != SPEAK {
      var k := IndexOf(w.op);
      assert Coded[WordCode(w).value - 16] == Coded[k] == w.op;
    }
  }

  /** Every value that does not decode to NOP is the code of what it decodes to. */
  lemma ParseValueEncodes(v: int)
    requires ParseValue(v) != Instr(NOP)
    ensures WordCode(ParseValue(v)) == Some(v)
  {
    if 16 <= v <= 31 {
      var op := Coded[v - 16];
      assert IndexOf(op) == v - 16;
    }
  }

  /** The Python value an operand word stands for: an int, or a one-character str. */
  function Operand(w: Word): (v: Value)
    requires !w.Instr?
    ensures v.Int? <==> w.Number?
    ensures v.Int? ==> v.i == w.n
    ensures v.Str? ==> v.s == [w.c]
  {
    match w
    case Number(n) => Int(n)
    case Text(c) => Str([c])
  }
}
