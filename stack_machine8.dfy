/**
 * The 8-bit stack machine: 6-bit code words are either pushed as operands or
 * run as instructions; integers are kept on the stack as 8-bit tuples (most
 * significant bit first), characters as one-character strings; arithmetic
 * wraps modulo 256 and reports it in an overflow flag.
 *
 * Each instruction is specified by the pure function Exec over the stack and
 * the flag; the class StackMachine implements it step by step the way the
 * source does, and its methods are proved to agree with Exec and DoStep.
 */
module StackMachine8 {
  import opened Wrappers
  import opened Bits
  import opened Python
  import opened InstructionSet

  /** The return codes of `do`: RUNNING = 1, STOPPED = 0, ERROR = -1. */
  datatype SMState = Running | Stopped | Error {
    function Value(): int
    {
      match this
      case Running => 1
      case Stopped => 0
      case Error => -1
    }
  }

  const MaxInt := 255

  /** A stack entry: an int stored as a tuple of bits, or a one-character str. */
  datatype Entry = Tuple(bits: seq<Bit>) | Chr(c: char)

  /** Integers live on the stack as tuples of exactly eight bits. */
  ghost predicate ByteStack(stack: seq<Entry>)
  {
    forall k :: 0 <= k < |stack| && stack[k].Tuple? ==> |stack[k].bits| == 8
  }

  /** bin(n)[2:].zfill(8): the tuple that `_push` stores for a non-negative int. */
  function ByteBits(n: nat): (bs: seq<Bit>)
    ensures ToNat(bs) == n
    ensures |bs| >= 8
    ensures n <= MaxInt ==> |bs| == 8
  {
    BinaryValue(n);
    if n <= MaxInt then
      BinaryLength(n, 8);
      ZFill(Binary(n), 8)
    else
      ZFill(Binary(n), 8)
  }

  /** An 8-bit tuple is exactly the tuple its value is stored as. */
  lemma ByteBitsOfTuple(bs: seq<Bit>)
    requires |bs| == 8
    ensures ToNat(bs) <= MaxInt
    ensures ByteBits(ToNat(bs)) == bs
  {
    ToNatBound(bs);
    ToNatInjective(ByteBits(ToNat(bs)), bs);
  }

  /** The entry that `_push` appends for a value, or the ValueError it raises. */
  function Pushed(v: Value): (r: Result<Entry, PyError>)
    ensures r.Failure? <==> (v.Int? && v.i < 0) || (v.Str? && |v.s| != 1)
    ensures r.Failure? ==> r.error == ValueError
  {
    match v
    case Int(i) => if i < 0 then Failure(ValueError) else Success(Tuple(ByteBits(i)))
    case Str(s) => if |s| != 1 then Failure(ValueError) else Success(Chr(s[0]))
  }

  /** The operand the pop yields for an entry: a tuple is read back as an int. */
  function Read(e: Entry): (v: Value)
    ensures v.Int? ==> v.i >= 0
  {
    match e
    case Tuple(bs) => Int(ToNat(bs))
    case Chr(c) => Str([c])
  }

  /** Pushing an int of 0..255 stores eight bits; popping reads the value back. */
  lemma PushReadByte(i: int)
    requires 0 <= i <= MaxInt
    ensures Pushed(Int(i)).Success?
    ensures |Pushed(Int(i)).value.bits| == 8
    ensures Read(Pushed(Int(i)).value) == Int(i)
  {
  }

  /** Every value `_push` accepts is read back unchanged. */
  lemma PushReadRoundTrip(v: Value)
    requires Pushed(v).Success?
    ensures Read(Pushed(v).value) == v
  {
    if v.Str? {
      assert v.s == [v.s[0]];
    }
  }

  /** The operands that `_pop_operands_from_stack(n)` returns and the stack it leaves. */
  datatype Popped = Popped(ops: seq<Value>, rest: seq<Entry>)

  /** Popping n operands: IndexError on a stack with fewer, else the top n, top first. */
  function TopOperands(stack: seq<Entry>, n: nat): (r: Result<Popped, PyError>)
    ensures r.Failure? <==> |stack| < n
    ensures r.Failure? ==> r.error == IndexError
    ensures r.Success? ==> r.value.rest == stack[..|stack| - n] && |r.value.ops| == n
    ensures r.Success? ==>
      forall k :: 0 <= k < n ==> r.value.ops[k] == Read(stack[|stack| - 1 - k])
    decreases n
  {
    if |stack| < n then Failure(IndexError)
    else if n == 0 then Success(Popped([], stack))
    else
      var p := TopOperands(stack[..|stack| - 1], n - 1).value;
      Success(Popped([Read(stack[|stack| - 1])] + p.ops, p.rest))
  }

  /** The stack, the flag and what `_run_instruction` or `do` returns or raises. */
  datatype Step = Step(stack: seq<Entry>, overflow: bool, result: Result<SMState, PyError>)

  /** `_push(v)` followed by the `return 0` that ends `_run_instruction`. */
  function PushAndReturn(stack: seq<Entry>, overflow: bool, v: Value): Step
  {
    match Pushed(v)
    case Success(e) => Step(stack + [e], overflow, Success(Stopped))
    case Failure(err) => Step(stack, overflow, Failure(err))
  }

  /** The unwrapped result of `second op top` for ADD, SUB, MUL and EXP. */
  function Raw(op: Instruction, second: nat, top: nat): (r: int)
    requires op in {ADD, SUB, MUL, EXP}
    ensures op != SUB ==> r >= 0
    ensures op == SUB ==> 0 <= r + top && r <= second
  {
    if op == ADD then second + top
    else if op == SUB then second - top
    else if op == MUL then second * top
    else Pow(second, top)
  }

  /** The pushed result and the new flag: SUB adds 256 when negative, the others reduce above 255. */
  function Wrap(op: Instruction, raw: int): (int, bool)
  {
    if op == SUB then
      if raw < 0 then (MaxInt + 1 + raw, true) else (raw, false)
    else
      if raw > MaxInt then (raw % (MaxInt + 1), true) else (raw, false)
  }

  /** The instructions that only print and change nothing. */
  const Inert: set<Instruction> := {DEL, SWP, SHL, HEX, FAC, NOT, NOP, SPEAK}

  /** How many operands an instruction pops. */
  function Arity(op: Instruction): nat
  {
    if op == DUP then 1
    else if op in {ADD, SUB, MUL, DIV, EXP, MOD, SHR, XOR} then 2
    else 0
  }

  /** The effect of `_run_instruction(op)` on the stack and the flag. */
  function Exec(stack: seq<Entry>, overflow: bool, op: Instruction): Step
  {
    if op == STP then Step(stack, overflow, Success(Stopped))
    else if op == DUP then DupStep(stack, overflow)
    else if op in {ADD, SUB, MUL, EXP} then ArithmeticStep(stack, overflow, op)
    else if op == DIV then DivStep(stack, overflow)
    else if op in {MOD, SHR, XOR} then ClearingStep(stack, op)
    else Step(stack, overflow, Success(Stopped))
  }

  /** DUP: pop one operand and push it twice. */
  function DupStep(stack: seq<Entry>, overflow: bool): Step
  {
    match TopOperands(stack, 1)
    case Failure(e) => Step(stack, overflow, Failure(e))
    case Success(p) =>
      var first := PushAndReturn(p.rest, overflow, p.ops[0]);
      if first.result.Failure? then first else PushAndReturn(first.stack, overflow, p.ops[0])
  }

  /** ADD, SUB, MUL, EXP: pop two, push the wrapped result, set or clear the flag. */
  function ArithmeticStep(stack: seq<Entry>, overflow: bool, op: Instruction): Step
    requires op in {ADD, SUB, MUL, EXP}
  {
    match TopOperands(stack, 2)
    case Failure(e) => Step(stack, overflow, Failure(e))
    case Success(p) =>
      if p.ops[0].Str? || p.ops[1].Str? then Step(p.rest, overflow, Failure(TypeError))
      else
        var (v, wrapped) := Wrap(op, Raw(op, p.ops[1].i, p.ops[0].i));
        PushAndReturn(p.rest, wrapped, Int(v))
  }

  /** DIV: pop two, clear the flag, push the quotient. */
  function DivStep(stack: seq<Entry>, overflow: bool): Step
  {
    match TopOperands(stack, 2)
    case Failure(e) => Step(stack, overflow, Failure(e))
    case Success(p) =>
      if p.ops[0].Str? || p.ops[1].Str? then Step(p.rest, false, Failure(TypeError))
      else if p.ops[0].i == 0 then Step(p.rest, false, Failure(ZeroDivisionError))
      else PushAndReturn(p.rest, false, Int(p.ops[1].i / p.ops[0].i))
  }

  /** MOD, SHR, XOR: clear the flag, then pop two and push the result. */
  function ClearingStep(stack: seq<Entry>, op: Instruction): Step
    requires op in {MOD, SHR, XOR}
  {
    match TopOperands(stack, 2)
    case Failure(e) => Step(stack, false, Failure(e))
    case Success(p) =>
      var second, top := p.ops[1], p.ops[0];
      if top.Str? || second.Str? then Step(p.rest, false, Failure(StrOperandError(op == MOD, second)))
      else
        match ClearingValue(op, second.i, top.i)
        case Failure(e) => Step(p.rest, false, Failure(e))
        case Success(v) => PushAndReturn(p.rest, false, Int(v))
  }

  /** What MOD, SHR and XOR compute from two non-negative operands: MOD by zero raises ZeroDivisionError. */
  function ClearingValue(op: Instruction, second: int, top: int): (r: Result<int, PyError>)
    requires op in {MOD, SHR, XOR} && second >= 0 && top >= 0
    ensures r.Failure? <==> op == MOD && top == 0
    ensures r.Failure? ==> r.error == ZeroDivisionError
  {
    if op == MOD then
      if top == 0 then Failure(ZeroDivisionError) else Success(second % top)
    else if op == SHR then Success(ShiftRight(second, top))
    else Success(NatXor(second, top))
  }

  /** No instruction returns RUNNING: STP returns STOPPED and every other success returns 0, the same value. */
  lemma ExecNeverRunning(stack: seq<Entry>, overflow: bool, op: Instruction)
    ensures Exec(stack, overflow, op).result.Success? ==> Exec(stack, overflow, op).result.value == Stopped
  {
    if op == DUP {
      assert Exec(stack, overflow, op) == DupStep(stack, overflow);
    } else if op in {ADD, SUB, MUL, EXP} {
      assert Exec(stack, overflow, op) == ArithmeticStep(stack, overflow, op);
    } else if op == DIV {
      assert Exec(stack, overflow, op) == DivStep(stack, overflow);
    } else if op in {MOD, SHR, XOR} {
      assert Exec(stack, overflow, op) == ClearingStep(stack, op);
    }
  }

  /** DEL, SWP, SHL, HEX, FAC, NOT, NOP and SPEAK change neither the stack nor the flag. */
  lemma InertInstructions(stack: seq<Entry>, overflow: bool, op: Instruction)
    requires op in Inert
    ensures Exec(stack, overflow, op) == Step(stack, overflow, Success(Stopped))
  {
  }

  /**
   * Too few operands raise IndexError and leave the stack as it was; MOD, SHR
   * and XOR have cleared the flag before popping, the others leave it.
   */
  lemma Underflow(stack: seq<Entry>, overflow: bool, op: Instruction)
    ensures Exec(stack, overflow, op).result == Failure(IndexError) <==> |stack| < Arity(op)
    ensures |stack| < Arity(op) ==> Exec(stack, overflow, op).stack == stack
    ensures |stack| < Arity(op) ==>
      Exec(stack, overflow, op).overflow == (if op in {MOD, SHR, XOR} then false else overflow)
  {
    if op == DUP {
      assert Exec(stack, overflow, op) == DupStep(stack, overflow);
    } else if op in {ADD, SUB, MUL, EXP} {
      assert Exec(stack, overflow, op) == ArithmeticStep(stack, overflow, op);
    } else if op == DIV {
      assert Exec(stack, overflow, op) == DivStep(stack, overflow);
    } else if op in {MOD, SHR, XOR} {
      assert Exec(stack, overflow, op) == ClearingStep(stack, op);
    }
  }

  /** ADD, SUB, MUL and EXP pop two ints, push `second op top` modulo 256, and flag a wrap. */
  lemma ArithmeticWraps(stack: seq<Entry>, overflow: bool, op: Instruction)
    requires ByteStack(stack) && op in {ADD, SUB, MUL, EXP}
    requires |stack| >= 2 && stack[|stack| - 1].Tuple? && stack[|stack| - 2].Tuple?
    ensures
      var raw := Raw(op, ToNat(stack[|stack| - 2].bits), ToNat(stack[|stack| - 1].bits));
      Exec(stack, overflow, op)
        == Step(stack[..|stack| - 2] + [Tuple(ByteBits(raw % (MaxInt + 1)))], !(0 <= raw <= MaxInt), Success(Stopped))
  {
    var n := |stack|;
    var a, b := ToNat(stack[n - 2].bits), ToNat(stack[n - 1].bits);
    ByteBitsOfTuple(stack[n - 1].bits);
    ByteBitsOfTuple(stack[n - 2].bits);
    var raw := Raw(op, a, b);
    WrapIsModulo(op, raw);
    ArithmeticOnInts(stack, overflow, op);
  }

  /** On two int operands, ADD, SUB, MUL and EXP push the wrapped result and set the flag from Wrap. */
  lemma ArithmeticOnInts(stack: seq<Entry>, overflow: bool, op: Instruction)
    requires op in {ADD, SUB, MUL, EXP}
    requires |stack| >= 2 && stack[|stack| - 1].Tuple? && stack[|stack| - 2].Tuple?
    requires 0 <= Wrap(op, Raw(op, ToNat(stack[|stack| - 2].bits), ToNat(stack[|stack| - 1].bits))).0
    ensures
      var w := Wrap(op, Raw(op, ToNat(stack[|stack| - 2].bits), ToNat(stack[|stack| - 1].bits)));
      Exec(stack, overflow, op) == Step(stack[..|stack| - 2] + [Tuple(ByteBits(w.0))], w.1, Success(Stopped))
  {
    var n := |stack|;
    var a, b := ToNat(stack[n - 2].bits), ToNat(stack[n - 1].bits);
    var p := TopOperands(stack, 2).value;
    assert p.ops[1] == Int(a) && p.ops[0] == Int(b);
    var (v, wrapped) := Wrap(op, Raw(op, a, b));
    assert Exec(stack, overflow, op) == ArithmeticStep(stack, overflow, op);
    assert ArithmeticStep(stack, overflow, op) == PushAndReturn(p.rest, wrapped, Int(v));
  }

  /** Wrap reduces into 0..255 exactly when its argument lies outside. */
  lemma WrapIsModulo(op: Instruction, raw: int)
    requires op == SUB ==> -MaxInt <= raw <= MaxInt
    requires op != SUB ==> raw >= 0
    ensures Wrap(op, raw).0 == raw % (MaxInt + 1)
    ensures Wrap(op, raw).1 == !(0 <= raw <= MaxInt)
  {
  }

  /** DIV and MOD by zero raise after both operands are consumed; the flag is cleared. */
  lemma DivisionByZero(stack: seq<Entry>, overflow: bool, op: Instruction)
    requires op in {DIV, MOD}
    requires |stack| >= 2 && stack[|stack| - 1].Tuple? && stack[|stack| - 2].Tuple?
    requires ToNat(stack[|stack| - 1].bits) == 0
    ensures Exec(stack, overflow, op) == Step(stack[..|stack| - 2], false, Failure(ZeroDivisionError))
  {
  }

  /** DIV, MOD, SHR and XOR leave the flag cleared, whatever they raise. */
  lemma ClearsOverflow(stack: seq<Entry>, overflow: bool, op: Instruction)
    requires op in {DIV, MOD, SHR, XOR}
    ensures !Exec(stack, overflow, op).overflow || (op == DIV && |stack| < 2)
  {
  }

  /**
   * Arithmetic on a character operand consumes both operands and raises
   * TypeError, except MOD with '%' below the top: `'%' % x` is an incomplete
   * format string and raises ValueError.
   */
  lemma CharacterOperands(stack: seq<Entry>, overflow: bool, op: Instruction)
    requires Arity(op) == 2 && |stack| >= 2
    requires stack[|stack| - 1].Chr? || stack[|stack| - 2].Chr?
    ensures Exec(stack, overflow, op)
      == Step(stack[..|stack| - 2], if op in {ADD, SUB, MUL, EXP} then overflow else false,
              Failure(if op == MOD && stack[|stack| - 2] == Chr('%') then ValueError else TypeError))
  {
  }

  /** DUP replaces the top entry x by x, x. */
  lemma DupDuplicates(stack: seq<Entry>, overflow: bool)
    requires ByteStack(stack) && |stack| >= 1
    ensures Exec(stack, overflow, DUP) == Step(stack + [stack[|stack| - 1]], overflow, Success(Stopped))
  {
    var top := stack[|stack| - 1];
    if top.Tuple? {
      ByteBitsOfTuple(top.bits);
    }
    assert stack[..|stack| - 1] + [top] == stack;
  }

  /** The top n operands of a byte stack are ints of 0..255 or characters. */
  lemma ByteOperands(stack: seq<Entry>, n: nat)
    requires ByteStack(stack) && n <= |stack|
    ensures ByteStack(TopOperands(stack, n).value.rest)
    ensures forall k :: 0 <= k < n && TopOperands(stack, n).value.ops[k].Int? ==>
      TopOperands(stack, n).value.ops[k].i <= MaxInt
  {
    var p := TopOperands(stack, n).value;
    forall k | 0 <= k < n && p.ops[k].Int?
      ensures p.ops[k].i <= MaxInt
    {
      var e := stack[|stack| - 1 - k];
      assert p.ops[k] == Read(e);
      ByteBitsOfTuple(e.bits);
    }
  }

  /** Pushing an int of at most 255, or a character, keeps a byte stack. */
  lemma PushKeepsBytes(stack: seq<Entry>, overflow: bool, v: Value)
    requires ByteStack(stack) && (v.Int? ==> v.i <= MaxInt)
    ensures ByteStack(PushAndReturn(stack, overflow, v).stack)
  {
  }

  /** Every instruction keeps integers stored as 8-bit tuples. */
  lemma ExecKeepsBytes(stack: seq<Entry>, overflow: bool, op: Instruction)
    requires ByteStack(stack)
    ensures ByteStack(Exec(stack, overflow, op).stack)
  {
    if op == DUP {
      DupKeepsBytes(stack, overflow);
    } else if op in {ADD, SUB, MUL, EXP} {
      ArithmeticKeepsBytes(stack, overflow, op);
    } else if op == DIV {
      DivKeepsBytes(stack, overflow);
    } else if op in {MOD, SHR, XOR} {
      ClearingKeepsBytes(stack, op);
    }
  }

  lemma DupKeepsBytes(stack: seq<Entry>, overflow: bool)
    requires ByteStack(stack)
    ensures ByteStack(DupStep(stack, overflow).stack)
  {
    if |stack| >= 1 {
      ByteOperands(stack, 1);
      var p := TopOperands(stack, 1).value;
      var first := PushAndReturn(p.rest, overflow, p.ops[0]);
      PushKeepsBytes(p.rest, overflow, p.ops[0]);
      PushKeepsBytes(first.stack, overflow, p.ops[0]);
    }
  }

  lemma ArithmeticKeepsBytes(stack: seq<Entry>, overflow: bool, op: Instruction)
    requires ByteStack(stack) && op in {ADD, SUB, MUL, EXP}
    ensures ByteStack(ArithmeticStep(stack, overflow, op).stack)
  {
    if |stack| >= 2 {
      ByteOperands(stack, 2);
      var p := TopOperands(stack, 2).value;
      if p.ops[0].Int? && p.ops[1].Int? {
        var (v, wrapped) := Wrap(op, Raw(op, p.ops[1].i, p.ops[0].i));
        PushKeepsBytes(p.rest, wrapped, Int(v));
      }
    }
  }

  lemma DivKeepsBytes(stack: seq<Entry>, overflow: bool)
    requires ByteStack(stack)
    ensures ByteStack(DivStep(stack, overflow).stack)
  {
    if |stack| >= 2 {
      ByteOperands(stack, 2);
      var p := TopOperands(stack, 2).value;
      if p.ops[0].Int? && p.ops[1].Int? && p.ops[0].i != 0 {
        PushKeepsBytes(p.rest, false, Int(p.ops[1].i / p.ops[0].i));
      }
    }
  }

  lemma ClearingKeepsBytes(stack: seq<Entry>, op: Instruction)
    requires ByteStack(stack) && op in {MOD, SHR, XOR}
    ensures ByteStack(ClearingStep(stack, op).stack)
  {
    if |stack| >= 2 {
      ByteOperands(stack, 2);
      var p := TopOperands(stack, 2).value;
      if p.ops[0].Int? && p.ops[1].Int? {
        var a, b := p.ops[1].i, p.ops[0].i;
        if op == XOR {
          NatXorBound(a, b, 8);
          PushKeepsBytes(p.rest, false, Int(NatXor(a, b)));
        } else if op == SHR {
          PushKeepsBytes(p.rest, false, Int(ShiftRight(a, b)));
        } else if b != 0 {
          PushKeepsBytes(p.rest, false, Int(a % b));
        }
      }
    }
  }

  /** `_parse_byte`: read the bits as a binary number; int("", 2) raises ValueError. */
  function ParseByte(codeWord: seq<Bit>): (r: Option<Word>)
    ensures r.None? <==> codeWord == []
  {
    if codeWord == [] then None else Some(ParseValue(ToNat(codeWord)))
  }

  /** A 6-bit code word decodes to the word it encodes, whatever its leading zeros. */
  lemma ParseByteOfCode(w: Word, width: nat)
    requires WordCode(w).Some? && WordCode(w).value >= 0 && 1 <= width
    ensures ParseByte(ZFill(Binary(WordCode(w).value), width)) == Some(w)
  {
    BinaryValue(WordCode(w).value);
    WordCodeDecodes(w);
  }

  /** The effect of `do` on a code word: push an operand, or run an instruction and map any exception to ERROR. */
  function DoStep(stack: seq<Entry>, overflow: bool, codeWord: seq<Bit>): Step
  {
    match ParseByte(codeWord)
    case None => Step(stack, overflow, Failure(ValueError))
    case Some(w) =>
      if w.Instr? then
        var s := Exec(stack, overflow, w.op);
        if s.result.Failure? then Step(s.stack, s.overflow, Success(Error)) else s
      else Step(stack + [Pushed(Operand(w)).value], false, Success(Running))
  }

  /**
   * What `do` returns: only an empty code word escapes as ValueError; an operand
   * is pushed, clears the flag and gives RUNNING; an instruction gives STOPPED
   * (STP and every other success) or ERROR (any exception), never RUNNING.
   */
  lemma DoOutcomes(stack: seq<Entry>, overflow: bool, codeWord: seq<Bit>)
    ensures var s := DoStep(stack, overflow, codeWord);
      && (s.result.Failure? <==> codeWord == [])
      && (s.result.Failure? ==> s == Step(stack, overflow, Failure(ValueError)))
      && (s.result == Success(Running) <==> codeWord != [] && !ParseByte(codeWord).value.Instr?)
      && (s.result == Success(Running) ==>
            && s.stack[..|stack|] == stack && |s.stack| == |stack| + 1
            && Read(s.stack[|stack|]) == Operand(ParseByte(codeWord).value)
            && !s.overflow)
      && (s.result == Success(Error) <==>
            codeWord != [] && ParseByte(codeWord).value.Instr?
            && Exec(stack, overflow, ParseByte(codeWord).value.op).result.Failure?)
  {
    ExecNeverRunning(stack, overflow, if codeWord != [] && ParseByte(codeWord).value.Instr? then ParseByte(codeWord).value.op else STP);
    if codeWord != [] && !ParseByte(codeWord).value.Instr? {
      PushReadRoundTrip(Operand(ParseByte(codeWord).value));
    }
  }

  /** `do` keeps integers stored as 8-bit tuples. */
  lemma DoKeepsBytes(stack: seq<Entry>, overflow: bool, codeWord: seq<Bit>)
    requires ByteStack(stack)
    ensures ByteStack(DoStep(stack, overflow, codeWord).stack)
  {
    if codeWord != [] {
      var w := ParseByte(codeWord).value;
      if w.Instr? {
        ExecKeepsBytes(stack, overflow, w.op);
      } else {
        PushKeepsBytes(stack, overflow, Operand(w));
      }
    }
  }

  /** The 8-bit stack machine: the overflow flag and the stack, top last. */
  class StackMachine {
    var overflow: bool
    var stack: seq<Entry>

    /** Every int on the stack is an 8-bit tuple. */
    ghost predicate Valid()
      reads this
    {
      ByteStack(stack)
    }

    /** A new machine has an empty stack and no overflow. */
    constructor ()
      ensures Valid() && !overflow && stack == []
    {
      overflow := false;
      stack := [];
    }

    /** The top entry, or None on an empty stack. */
    function Top(): (r: Option<Entry>)
      reads this
      ensures r.None? <==> stack == []
      ensures r.Some? ==> r.value == stack[|stack| - 1]
    {
      if |stack| > 0 then Some(stack[|stack| - 1]) else None
    }

    /** `_push`: append the entry for v, or raise ValueError and leave the stack. */
    method Push(v: Value) returns (r: Result<(), PyError>)
      modifies this
      ensures overflow == old(overflow)
      ensures r.Success? <==> Pushed(v).Success?
      ensures r.Failure? ==> r.error == ValueError && stack == old(stack)
      ensures r.Success? ==> stack == old(stack) + [Pushed(v).value]
    {
      if v.Int? {
        if v.i < 0 {
          return Failure(ValueError);
        }
        stack := stack + [Tuple(ZFill(Binary(v.i), 8))];
      } else {
        if |v.s| != 1 {
          return Failure(ValueError);
        }
        stack := stack + [Chr(v.s[0])];
      }
      return Success(());
    }

    /** `_pop_operands_from_stack(n)`: IndexError if fewer than n entries, else pop n, top first. */
    method PopOperands(n: nat) returns (r: Result<seq<Value>, PyError>)
      modifies this
      ensures overflow == old(overflow)
      ensures TopOperands(old(stack), n)
        == if r.Success? then Success(Popped(r.value, stack)) else Failure(r.error)
      ensures r.Failure? ==> stack == old(stack)
    {
      if |stack| < n {
        return Failure(IndexError);
      }
      var ops: seq<Value> := [];
      var k := 0;
      while k < n
        invariant 0 <= k <= n && overflow == old(overflow)
        invariant stack == old(stack)[..|old(stack)| - k]
        invariant |ops| == k
        invariant forall j :: 0 <= j < k ==> ops[j] == Read(old(stack)[|old(stack)| - 1 - j])
      {
        var e := stack[|stack| - 1];
        stack := stack[..|stack| - 1];
        ops := ops + [Read(e)];
        k := k + 1;
      }
      ghost var p := TopOperands(old(stack), n).value;
      assert p.ops == ops;
      return Success(ops);
    }

    /** `_run_instruction`: the step by step version of Exec. */
    method RunInstruction(op: Instruction) returns (r: Result<SMState, PyError>)
      requires Valid()
      modifies this
      ensures Valid()
      ensures Step(stack, overflow, r) == Exec(old(stack), old(overflow), op)
    {
      ExecKeepsBytes(stack, overflow, op);
      if op == DUP {
        r := RunDup();
      } else if op in {ADD, SUB, MUL, EXP} {
        r := RunArithmetic(op);
      } else if op == DIV {
        r := RunDiv();
      } else if op in {MOD, SHR, XOR} {
        r := RunClearing(op);
      } else {
        r := Success(Stopped);
      }
    }

    /** The DUP branch of `_run_instruction`. */
    method RunDup() returns (r: Result<SMState, PyError>)
      modifies this
      ensures Step(stack, overflow, r) == DupStep(old(stack), old(overflow))
    {
      var ops :- PopOperands(1);
      PushReadRoundTrip(ops[0]);
      var _ := Push(ops[0]);
      var _ := Push(ops[0]);
      return Success(Stopped);
    }

    /** The ADD, SUB, MUL and EXP branches of `_run_instruction`. */
    method RunArithmetic(op: Instruction) returns (r: Result<SMState, PyError>)
      requires Valid() && op in {ADD, SUB, MUL, EXP}
      modifies this
      ensures Step(stack, overflow, r) == ArithmeticStep(old(stack), old(overflow), op)
    {
      if |stack| >= 2 {
        ByteOperands(stack, 2);
      }
      var ops :- PopOperands(2);
      if ops[0].Str? || ops[1].Str? {
        return Failure(TypeError);
      }
      var result := Raw(op, ops[1].i, ops[0].i);
      if op == SUB {
        if result < 0 {
          result := MaxInt + 1 + result;
          overflow := true;
        } else {
          overflow := false;
        }
      } else if result > MaxInt {
        result := result % (MaxInt + 1);
        overflow := true;
      } else {
        overflow := false;
      }
      assert (result, overflow) == Wrap(op, Raw(op, ops[1].i, ops[0].i));
      var _ := Push(Int(result));
      return Success(Stopped);
    }

    /** The DIV branch of `_run_instruction`: the flag is cleared after the pop. */
    method RunDiv() returns (r: Result<SMState, PyError>)
      modifies this
      ensures Step(stack, overflow, r) == DivStep(old(stack), old(overflow))
    {
      var ops :- PopOperands(2);
      overflow := false;
      if ops[0].Str? || ops[1].Str? {
        return Failure(TypeError);
      } else if ops[0].i == 0 {
        return Failure(ZeroDivisionError);
      }
      var _ := Push(Int(ops[1].i / ops[0].i));
      return Success(Stopped);
    }

    /** The MOD, SHR and XOR branches of `_run_instruction`: the flag is cleared before the pop. */
    method RunClearing(op: Instruction) returns (r: Result<SMState, PyError>)
      requires op in {MOD, SHR, XOR}
      modifies this
      ensures Step(stack, overflow, r) == ClearingStep(old(stack), op)
    {
      overflow := false;
      var ops :- PopOperands(2);
      if ops[0].Str? || ops[1].Str? {
        assert ClearingStep(old(stack), op) == Step(stack, false, Failure(StrOperandError(op == MOD, ops[1])));
        return Failure(StrOperandError(op == MOD, ops[1]));
      }
      var result;
      if op == MOD {
        if ops[0].i == 0 {
          return Failure(ZeroDivisionError);
        }
        result := ops[1].i % ops[0].i;
      } else if op == SHR {
        result := ShiftRight(ops[1].i, ops[0].i);
      } else {
        result := NatXor(ops[1].i, ops[0].i);
      }
      assert ClearingValue(op, ops[1].i, ops[0].i) == Success(result);
      assert ClearingStep(old(stack), op) == PushAndReturn(stack, false, Int(result));
      var _ := Push(Int(result));
      return Success(Stopped);
    }

    /** `do`: decode a code word and push it or run it, as DoStep says. */
    method Do(codeWord: seq<Bit>) returns (r: Result<SMState, PyError>)
      requires Valid()
      modifies this
      ensures Valid()
      ensures Step(stack, overflow, r) == DoStep(old(stack), old(overflow), codeWord)
    {
      DoKeepsBytes(stack, overflow, codeWord);
      var word := ParseByte(codeWord);
      if word.None? {
        return Failure(ValueError);
      }
      if word.value.Instr? {
        r := RunInstruction(word.value.op);
        if r.Failure? {
          r := Success(Error);
        }
      } else {
        var _ := Push(Operand(word.value));
        overflow := false;
        r := Success(Running);
      }
    }
  }
}
