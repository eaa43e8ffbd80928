/**
 * The 4-bit stack machine of the stack-machine exercise: an expression in
 * reverse Polish notation, or a listing of 6-bit code words written as binary
 * strings, is decoded and run on a stack of plain Python values. ADD and EXP
 * reduce results above 15 modulo 16, SUB and MUL add 16 to negative results,
 * and each of those sets the overflow flag, which stays set until an operand
 * push or DIV, MOD, SHR or XOR clears it.
 *
 * The pure functions Exec, RunWords and Simulate specify the machine; the
 * class StackMachine implements it step by step, and its methods are proved
 * to agree with them.
 */
module StackMachine4 {
  import opened Wrappers
  import opened Bits
  import opened Python
  import opened InstructionSet

  /** The stack, the flag and what `run_instruction` returns (1 for STP, else 0) or raises. */
  datatype Step = Step(stack: seq<Value>, overflowFlag: bool, result: Result<int, PyError>)

  /** `get_operands_from_stack(n)`: ValueError on a stack with fewer than n values, else the top n, top first. */
  function TakeOperands(stack: seq<Value>, n: nat): (r: Result<seq<Value>, PyError>)
    ensures r.Failure? <==> |stack| < n
    ensures r.Failure? ==> r.error == ValueError
    ensures r.Success? ==> |r.value| == n
    ensures r.Success? ==> forall k :: 0 <= k < n ==> r.value[k] == stack[|stack| - 1 - k]
    decreases n
  {
    if |stack| < n then Failure(ValueError)
    else if n == 0 then Success([])
    else
      var below := TakeOperands(stack[..|stack| - 1], n - 1).value;
      Success([stack[|stack| - 1]] + below)
  }

  /** How many operands an instruction takes off the stack. */
  function Arity(op: Instruction): nat
  {
    if op == DUP then 1
    else if op in {ADD, SUB, MUL, DIV, EXP, MOD, SHR, XOR} then 2
    else 0
  }

  /**
   * `second op top` on two ints, with the result to push and whether it
   * wrapped; DIV and MOD by zero, a negative shift count and a negative
   * exponent raise.
   */
  function Apply(op: Instruction, second: int, top: int): Result<(int, bool), PyError>
    requires op in {ADD, SUB, MUL, DIV, EXP, MOD, SHR, XOR}
  {
    match op
    case ADD => var v := second + top; Success(if v > 15 then (v % 16, true) else (v, false))
    case SUB => var v := second - top; Success(if v < 0 then (16 + v, true) else (v, false))
    case MUL => var v := second * top; Success(if v < 0 then (16 + v, true) else (v, false))
    case DIV => if top == 0 then Failure(ZeroDivisionError) else Success((FloorDiv(second, top), false))
    case EXP =>
      if top < 0 then Failure(if second == 0 then ZeroDivisionError else FloatNotModelled)
      else var v := Pow(second, top); Success(if v > 15 then (v % 16, true) else (v, false))
    case MOD => if top == 0 then Failure(ZeroDivisionError) else Success((FloorMod(second, top), false))
    case SHR => if top < 0 then Failure(ValueError) else Success((ShiftRight(second, top), false))
    case XOR => Success((Xor(second, top), false))
  }

  /**
   * A two-operand instruction on a stack and a flag: pop two values, raise
   * StrOperandError on a str, else push the result of Apply and set the flag
   * when it wrapped. DIV clears the flag once both operands are popped.
   */
  function BinaryStep(stack: seq<Value>, flag: bool, op: Instruction): Step
    requires op in {ADD, SUB, MUL, DIV, EXP, MOD, SHR, XOR}
  {
    match TakeOperands(stack, 2)
    case Failure(e) => Step(stack, flag, Failure(e))
    case Success(ops) =>
      var rest := stack[..|stack| - 2];
      var popped := if op == DIV then false else flag;
      if ops[0].Str? || ops[1].Str? then Step(rest, popped, Failure(StrOperandError(op == MOD, ops[1])))
      else
        match Apply(op, ops[1].i, ops[0].i)
        case Failure(e) => Step(rest, popped, Failure(e))
        case Success(pair) => Step(rest + [Int(pair.0)], popped || pair.1, Success(0))
  }

  /** The effect of `run_instruction(op)`; MOD, SHR and XOR clear the flag before they pop. */
  function Exec(stack: seq<Value>, flag: bool, op: Instruction): Step
  {
    if op == STP then Step(stack, flag, Success(1))
    else if op == DUP then
      match TakeOperands(stack, 1)
      case Failure(e) => Step(stack, flag, Failure(e))
      case Success(ops) => Step(stack[..|stack| - 1] + [ops[0], ops[0]], flag, Success(0))
    else if op in {ADD, SUB, MUL, DIV, EXP} then BinaryStep(stack, flag, op)
    else if op in {MOD, SHR, XOR} then BinaryStep(stack, false, op)
    else Step(stack, flag, Success(0))
  }

  /** STP returns 1 and changes nothing; every other instruction that does not raise returns 0. */
  lemma ReturnCodes(stack: seq<Value>, flag: bool, op: Instruction)
    ensures op == STP ==> Exec(stack, flag, op) == Step(stack, flag, Success(1))
    ensures op != STP && Exec(stack, flag, op).result.Success? ==> Exec(stack, flag, op).result.value == 0
  {
  }

  /** DEL, SWP, SHL, HEX, FAC, NOT, NOP and SPEAK change neither the stack nor the flag. */
  lemma PrintOnlyInstructions(stack: seq<Value>, flag: bool, op: Instruction)
    requires op in {DEL, SWP, SHL, HEX, FAC, NOT, NOP, SPEAK}
    ensures Exec(stack, flag, op) == Step(stack, flag, Success(0))
  {
  }

  /** Too few operands raise ValueError and leave the stack; only MOD, SHR and XOR clear the flag. */
  lemma Underflow(stack: seq<Value>, flag: bool, op: Instruction)
    requires |stack| < Arity(op)
    ensures Exec(stack, flag, op) == Step(stack, if op in {MOD, SHR, XOR} then false else flag, Failure(ValueError))
  {
  }

  /** DUP replaces the top value x by x, x. */
  lemma DupDuplicates(stack: seq<Value>, flag: bool)
    requires |stack| >= 1
    ensures Exec(stack, flag, DUP) == Step(stack + [stack[|stack| - 1]], flag, Success(0))
  {
    assert stack[..|stack| - 1] + [stack[|stack| - 1]] == stack;
  }

  /**
   * ADD and EXP on two ints: the result is reduced modulo 16 when above 15,
   * and the flag is then set; when nothing wraps the flag keeps its old value.
   */
  lemma AddExpWrap(stack: seq<Value>, flag: bool, op: Instruction, second: int, top: int)
    requires op in {ADD, EXP} && (op == EXP ==> top >= 0)
    requires |stack| >= 2 && stack[|stack| - 2] == Int(second) && stack[|stack| - 1] == Int(top)
    ensures
      var v := if op == ADD then second + top else Pow(second, top);
      Exec(stack, flag, op)
        == Step(stack[..|stack| - 2] + [Int(if v > 15 then v % 16 else v)], flag || v > 15, Success(0))
  {
  }

  /** SUB on two ints: a negative difference has 16 added and sets the flag; otherwise the flag stays. */
  lemma SubWrap(stack: seq<Value>, flag: bool, second: int, top: int)
    requires |stack| >= 2 && stack[|stack| - 2] == Int(second) && stack[|stack| - 1] == Int(top)
    ensures
      var v := second - top;
      Exec(stack, flag, SUB) == Step(stack[..|stack| - 2] + [Int(if v < 0 then v + 16 else v)], flag || v < 0, Success(0))
  {
  }

  /** MUL of two non-negative ints never wraps: the full product is pushed and the flag stays. */
  lemma MulNeverWraps(stack: seq<Value>, flag: bool, second: int, top: int)
    requires second >= 0 && top >= 0
    requires |stack| >= 2 && stack[|stack| - 2] == Int(second) && stack[|stack| - 1] == Int(top)
    ensures Exec(stack, flag, MUL) == Step(stack[..|stack| - 2] + [Int(second * top)], flag, Success(0))
  {
    assert second * top >= 0;
  }

  /** DIV on two ints pushes the floor quotient and clears the flag; by zero it raises, the flag cleared. */
  lemma DivFloors(stack: seq<Value>, flag: bool, second: int, top: int)
    requires |stack| >= 2 && stack[|stack| - 2] == Int(second) && stack[|stack| - 1] == Int(top)
    ensures top == 0 ==> Exec(stack, flag, DIV) == Step(stack[..|stack| - 2], false, Failure(ZeroDivisionError))
    ensures top > 0 ==>
      && Exec(stack, flag, DIV).stack == stack[..|stack| - 2] + [Int(FloorDiv(second, top))]
      && top * FloorDiv(second, top) <= second < top * FloorDiv(second, top) + top
    ensures !Exec(stack, flag, DIV).overflowFlag
  {
  }

  /** MOD, SHR and XOR leave the flag cleared, whatever they raise. */
  lemma ClearingInstructions(stack: seq<Value>, flag: bool, op: Instruction)
    requires op in {MOD, SHR, XOR}
    ensures !Exec(stack, flag, op).overflowFlag
  {
  }

  /**
   * Arithmetic on a str operand consumes both operands and raises TypeError,
   * except MOD with the str '%' below the top: `'%' % x` is an incomplete
   * format string and raises ValueError. Stated for stacks of one-character
   * strs, the only strs a run puts on the stack (SimulateKeepsChars).
   */
  lemma StrOperands(stack: seq<Value>, flag: bool, op: Instruction)
    requires Arity(op) == 2 && |stack| >= 2 && CharStack(stack)
    requires stack[|stack| - 1].Str? || stack[|stack| - 2].Str?
    ensures Exec(stack, flag, op)
      == Step(stack[..|stack| - 2], if op in {DIV, MOD, SHR, XOR} then false else flag,
              Failure(if op == MOD && stack[|stack| - 2] == Str("%") then ValueError else TypeError))
  {
  }

  /** Every str on the stack is a single character, as parse_byte decodes them. */
  predicate CharStack(stack: seq<Value>)
  {
    forall k :: 0 <= k < |stack| && stack[k].Str? ==> |stack[k].s| == 1
  }

  /** No instruction puts a longer str on the stack: DUP copies a value, the others push ints. */
  lemma ExecKeepsChars(stack: seq<Value>, flag: bool, op: Instruction)
    requires CharStack(stack)
    ensures CharStack(Exec(stack, flag, op).stack)
  {
    if op == DUP {
      if |stack| >= 1 {
        var s := Exec(stack, flag, op).stack;
        assert s == stack[..|stack| - 1] + [stack[|stack| - 1], stack[|stack| - 1]];
      }
    } else if op in {ADD, SUB, MUL, DIV, EXP} {
      BinaryKeepsChars(stack, flag, op);
    } else if op in {MOD, SHR, XOR} {
      BinaryKeepsChars(stack, false, op);
    }
  }

  /** A two-operand instruction leaves the rest of the stack, plus at most one int. */
  lemma BinaryKeepsChars(stack: seq<Value>, flag: bool, op: Instruction)
    requires op in {ADD, SUB, MUL, DIV, EXP, MOD, SHR, XOR} && CharStack(stack)
    ensures CharStack(BinaryStep(stack, flag, op).stack)
  {
    if |stack| >= 2 {
      var rest := stack[..|stack| - 2];
      assert CharStack(rest);
    }
  }

  /** Running words from a stack of one-character strs keeps it so. */
  lemma {:induction false} RunWordsKeepsChars(stack: seq<Value>, flag: bool, words: seq<Word>)
    requires CharStack(stack)
    ensures CharStack(RunWords(stack, flag, words).stack)
    decreases |words|
  {
    if words != [] {
      if words[0].Instr? {
        ExecKeepsChars(stack, flag, words[0].op);
        var s := Exec(stack, flag, words[0].op);
        if s.result.Success? && s.result.value != 1 {
          RunWordsKeepsChars(s.stack, s.overflowFlag, words[1..]);
        }
      } else {
        RunWordsKeepsChars(stack + [Operand(words[0])], false, words[1..]);
      }
    }
  }

  /** Every stack `simulate_instructions` leaves holds only one-character strs. */
  lemma SimulateKeepsChars(program: Program)
    ensures CharStack(Simulate(program).stack)
  {
    var listing := if program.Rpn? then RpnListing(program.expr) else Success(program.words);
    if listing.Success? && ParseInstrList(listing.value).Success? {
      RunWordsKeepsChars([], false, ParseInstrList(listing.value).value);
    }
  }

  /** The value of a hexadecimal digit as int(c, 16) reads it, or None for any other character. */
  function HexValue(c: char): (r: Option<nat>)
    ensures r.Some? ==> r.value <= 15
  {
    if '0' <= c <= '9' then Some(c as int - '0' as int)
    else if 'a' <= c <= 'f' then Some(c as int - 'a' as int + 10)
    else if 'A' <= c <= 'F' then Some(c as int - 'A' as int + 10)
    else None
  }

  /** The code `rpn_to_instr_list` gives a token: + - * / map to ADD, SUB, MUL, DIV, the rest to int(token, 16). */
  function TokenCode(c: char): (r: Result<nat, PyError>)
    ensures r.Failure? ==> r.error == ValueError
    ensures r.Success? ==> r.value <= 23
  {
    if c == '+' then Success(20)
    else if c == '-' then Success(21)
    else if c == '*' then Success(22)
    else if c == '/' then Success(23)
    else match HexValue(c)
      case Some(v) => Success(v)
      case None => Failure(ValueError)
  }

  /** The codes of all tokens of rpn, or ValueError if one is not an operator or a hex digit. */
  function RpnCodes(rpn: string): (r: Result<seq<nat>, PyError>)
    ensures r.Success? ==> |r.value| == |rpn|
    ensures r.Failure? ==> r.error == ValueError
  {
    if rpn == [] then Success([])
    else
      var init :- RpnCodes(rpn[..|rpn| - 1]);
      var code :- TokenCode(rpn[|rpn| - 1]);
      Success(init + [code])
  }

  /** The characters of a bit string. */
  function BitChars(bs: seq<Bit>): (s: string)
    ensures |s| == |bs|
    ensures forall i :: 0 <= i < |s| ==> s[i] == (if bs[i] == 1 then '1' else '0')
  {
    if bs == [] then "" else BitChars(bs[..|bs| - 1]) + [if bs[|bs| - 1] == 1 then '1' else '0']
  }

  /** bin(x)[2:].zfill(6). */
  function Render(x: nat): string
  {
    BitChars(ZFill(Binary(x), 6))
  }

  /** What `rpn_to_instr_list` returns: each token's code and a final STP, as 6-digit binary strings. */
  function RpnListing(rpn: string): (r: Result<seq<string>, PyError>)
    ensures r.Success? ==> |r.value| == |rpn| + 1
  {
    var codes :- RpnCodes(rpn);
    Success(RenderAll(codes + [16]))
  }

  /** `[bin(x)[2:].zfill(6) for x in codes]`. */
  function RenderAll(codes: seq<nat>): (r: seq<string>)
    ensures |r| == |codes|
    ensures forall i :: 0 <= i < |codes| ==> r[i] == Render(codes[i])
  {
    seq(|codes|, i requires 0 <= i < |codes| => Render(codes[i]))
  }

  /**
   * `parse_instr_list`: read every string with int(x, 2) and decode the value;
   * any string int() refuses raises ValueError. Reading all strings first and
   * then stopping at the first refused one gives the same result as the list
   * comprehension, since reading has no effect and always raises ValueError.
   */
  function ParseInstrList(list: seq<string>): (r: Result<seq<Word>, PyError>)
    ensures r.Failure? <==> exists i :: 0 <= i < |list| && ParseBinary(list[i]).Failure?
    ensures r.Failure? ==> r.error == ValueError
    ensures r.Success? ==> |r.value| == |list|
    ensures r.Success? ==> forall i :: 0 <= i < |list| ==>
      ParseBinary(list[i]).Success? && r.value[i] == ParseValue(ParseBinary(list[i]).value)
  {
    var values := seq(|list|, i requires 0 <= i < |list| => ParseBinary(list[i]));
    assert forall i :: 0 <= i < |list| ==> values[i] == ParseBinary(list[i]);
    DecodeReads(values)
  }

  /**
   * The comprehension over the values read: the first exception is raised,
   * and otherwise every value is decoded, in order.
   */
  function DecodeReads(values: seq<Result<int, PyError>>): (r: Result<seq<Word>, PyError>)
    ensures r.Failure? <==> exists i :: 0 <= i < |values| && values[i].Failure?
    ensures r.Failure? ==> exists i :: 0 <= i < |values| && values[i] == Failure(r.error)
    ensures r.Success? ==> |r.value| == |values|
    ensures r.Success? ==> forall i :: 0 <= i < |values| ==>
      values[i].Success? && r.value[i] == ParseValue(values[i].value)
  {
    if values == [] then Success([])
    else
      var v :- values[0];
      var rest :- DecodeReads(values[1..]);
      Success([ParseValue(v)] + rest)
  }

  /** The word a token of an expression stands for: an arithmetic instruction or a hex number. */
  function TokenWord(c: char): Option<Word>
  {
    if c == '+' then Some(Instr(ADD))
    else if c == '-' then Some(Instr(SUB))
    else if c == '*' then Some(Instr(MUL))
    else if c == '/' then Some(Instr(DIV))
    else match HexValue(c)
      case Some(v) => Some(Number(v))
      case None => None
  }

  /** The words of an expression all of whose tokens are operators or hex digits. */
  function TokenWords(rpn: string): (ws: seq<Word>)
    requires forall i :: 0 <= i < |rpn| ==> TokenWord(rpn[i]).Some?
    ensures |ws| == |rpn| && forall i :: 0 <= i < |rpn| ==> ws[i] == TokenWord(rpn[i]).value
  {
    seq(|rpn|, i requires 0 <= i < |rpn| => TokenWord(rpn[i]).value)
  }

  /** The binary digits of a rendered code are read back as the code. */
  lemma BitCharsRoundTrip(bs: seq<Bit>)
    ensures forall i :: 0 <= i < |BitChars(bs)| ==> IsBinaryDigit(BitChars(bs)[i])
    ensures CharBits(BitChars(bs)) == bs
  {
    var s := BitChars(bs);
    assert forall i :: 0 <= i < |bs| ==> CharBits(s)[i] == bs[i];
  }

  /** Reading back a rendered code gives the code. */
  lemma RenderRoundTrip(x: nat)
    ensures ParseBinary(Render(x)) == Success(x)
  {
    var bs := ZFill(Binary(x), 6);
    BitCharsRoundTrip(bs);
    BinaryValue(x);
    PlainDigits(Render(x));
  }

  /** `rpn_to_instr_list` raises ValueError exactly when some token is neither an operator nor a hex digit. */
  lemma {:induction false} RpnCodesFail(rpn: string)
    ensures RpnCodes(rpn).Failure? <==> exists i :: 0 <= i < |rpn| && TokenWord(rpn[i]).None?
    ensures RpnCodes(rpn).Success? ==> forall i :: 0 <= i < |rpn| ==> TokenCode(rpn[i]) == Success(RpnCodes(rpn).value[i])
  {
    if rpn != [] {
      var init := rpn[..|rpn| - 1];
      RpnCodesFail(init);
      if RpnCodes(rpn).Failure? && RpnCodes(init).Failure? {
        var i :| 0 <= i < |init| && TokenWord(init[i]).None?;
        assert rpn[i] == init[i];
      }
      if RpnCodes(rpn).Success? {
        forall i | 0 <= i < |rpn|
          ensures TokenCode(rpn[i]) == Success(RpnCodes(rpn).value[i])
        {
          if i < |init| {
            assert rpn[i] == init[i];
          }
        }
      }
    }
  }

  /** A token's code decodes to the word the token stands for. */
  lemma TokenDecodes(c: char)
    ensures TokenCode(c).Success? <==> TokenWord(c).Some?
    ensures TokenCode(c).Success? ==> ParseValue(TokenCode(c).value) == TokenWord(c).value
  {
  }

  /** Parsing what `rpn_to_instr_list` produced yields the tokens' words in order and then STP. */
  lemma ListingRoundTrip(rpn: string)
    requires RpnListing(rpn).Success?
    ensures forall i :: 0 <= i < |rpn| ==> TokenWord(rpn[i]).Some?
    ensures ParseInstrList(RpnListing(rpn).value) == Success(TokenWords(rpn) + [Instr(STP)])
  {
    RpnCodesFail(rpn);
    var codes := RpnCodes(rpn).value;
    RenderAllParses(codes + [16]);
    CodesDecode(rpn, codes);
    ParseDecoded(RenderAll(codes + [16]), codes + [16], TokenWords(rpn) + [Instr(STP)]);
  }

  /** Every rendered code reads back as itself. */
  lemma RenderAllParses(codes: seq<nat>)
    ensures forall i :: 0 <= i < |codes| ==> ParseBinary(RenderAll(codes)[i]) == Success(codes[i])
  {
    forall i | 0 <= i < |codes|
      ensures ParseBinary(RenderAll(codes)[i]) == Success(codes[i])
    {
      RenderRoundTrip(codes[i]);
    }
  }

  /** The codes of an expression, and then 16, decode to its words and then STP. */
  lemma CodesDecode(rpn: string, codes: seq<nat>)
    requires forall i :: 0 <= i < |rpn| ==> TokenWord(rpn[i]).Some?
    requires |codes| == |rpn| && forall i :: 0 <= i < |rpn| ==> TokenCode(rpn[i]) == Success(codes[i])
    ensures forall i :: 0 <= i < |codes| + 1 ==> ParseValue((codes + [16])[i]) == (TokenWords(rpn) + [Instr(STP)])[i]
  {
    var words := TokenWords(rpn) + [Instr(STP)];
    forall i | 0 <= i < |codes| + 1
      ensures ParseValue((codes + [16])[i]) == words[i]
    {
      if i < |codes| {
        TokenDecodes(rpn[i]);
      } else {
        assert ParseValue(16) == Instr(STP);
      }
    }
  }

  /** ParseInstrList on strings that each parse to a code decodes those codes. */
  lemma ParseDecoded(list: seq<string>, codes: seq<int>, words: seq<Word>)
    requires |list| == |codes| == |words|
    requires forall i :: 0 <= i < |list| ==> ParseBinary(list[i]) == Success(codes[i])
    requires forall i :: 0 <= i < |list| ==> ParseValue(codes[i]) == words[i]
    ensures ParseInstrList(list) == Success(words)
  {
    var r := ParseInstrList(list);
    assert r.Success?;
    assert r.value == words;
  }

  /**
   * int() reads more than plain digits: " -1" is -1, with the whitespace
   * stripped and the sign read, and -1 decodes to NOP.
   */
  lemma SignedListing(minusOne: string, stop: string)
    requires minusOne == " -1" && stop == "010000"
    ensures ParseInstrList([minusOne, stop]) == Success([Instr(NOP), Instr(STP)])
  {
    MinusOne(minusOne);
    StopCode(stop);
    SignedWords(-1, 16);
    ParsePair(minusOne, stop, -1, 16, Instr(NOP), Instr(STP));
  }

  /** A two-line listing decodes line by line. */
  lemma ParsePair(a: string, b: string, ca: int, cb: int, wa: Word, wb: Word)
    requires ParseBinary(a) == Success(ca) && ParseValue(ca) == wa
    requires ParseBinary(b) == Success(cb) && ParseValue(cb) == wb
    ensures ParseInstrList([a, b]) == Success([wa, wb])
  {
    var list := [a, b];
    assert list[0] == a && list[1] == b;
    var r := ParseInstrList(list);
    assert r.Success? by {
      forall i | 0 <= i < |list|
        ensures ParseBinary(list[i]).Success?
      {
        if i == 0 { } else { }
      }
    }
    assert r.value[0] == wa && r.value[1] == wb;
    assert r.value == [wa, wb];
  }

  lemma SignedWords(nop: int, stop: int)
    requires nop == -1 && stop == 16
    ensures ParseValue(nop) == Instr(NOP) && ParseValue(stop) == Instr(STP)
  {
  }

  lemma MinusOne(s: string)
    requires s == " -1"
    ensures ParseBinary(s) == Success(-1)
  {
    var l := BinaryLiteral(" ", "-", "", ["1"], "");
    assert ["1"][1..] == [];
    assert LiteralText(l) == s;
    assert LiteralValue(l) == -1;
    LiteralParses(l);
  }

  lemma StopCode(s: string)
    requires s == "010000"
    ensures ParseBinary(s) == Success(16)
  {
    SixDigits(s);
    PlainDigits(s);
  }

  /** The final stack, the flag, and whether `simulate_instructions` returned or raised. */
  datatype Outcome = Outcome(stack: seq<Value>, overflowFlag: bool, result: Result<(), PyError>)

  /** The loop of `simulate_instructions`: push operands (clearing the flag), run instructions, stop at STP. */
  function RunWords(stack: seq<Value>, flag: bool, words: seq<Word>): Outcome
    decreases |words|
  {
    if words == [] then Outcome(stack, flag, Success(()))
    else if words[0].Instr? then
      var s := Exec(stack, flag, words[0].op);
      if s.result.Failure? then Outcome(s.stack, s.overflowFlag, Failure(s.result.error))
      else if s.result.value == 1 then Outcome(s.stack, s.overflowFlag, Success(()))
      else RunWords(s.stack, s.overflowFlag, words[1..])
    else RunWords(stack + [Operand(words[0])], false, words[1..])
  }

  /** A program: an expression in reverse Polish notation, or a listing of binary strings. */
  datatype Program = Rpn(expr: string) | Listing(words: seq<string>)

  /** `simulate_instructions`: start from an empty stack and a clear flag, decode everything, then run. */
  function Simulate(program: Program): Outcome
  {
    var listing := if program.Rpn? then RpnListing(program.expr) else Success(program.words);
    if listing.Failure? then Outcome([], false, Failure(listing.error))
    else
      match ParseInstrList(listing.value)
      case Failure(e) => Outcome([], false, Failure(e))
      case Success(words) => RunWords([], false, words)
  }

  /** Nothing after the first STP is run: what follows it never changes the outcome. */
  lemma {:induction false} StopsAtFirstStp(stack: seq<Value>, flag: bool, before: seq<Word>, after: seq<Word>)
    requires Instr(STP) !in before
    ensures RunWords(stack, flag, before + [Instr(STP)] + after) == RunWords(stack, flag, before + [Instr(STP)])
    decreases |before|
  {
    var ws := before + [Instr(STP)];
    if before == [] {
      assert (ws + after)[0] == Instr(STP);
    } else {
      assert (ws + after)[0] == ws[0] == before[0];
      assert (ws + after)[1..] == before[1..] + [Instr(STP)] + after;
      assert ws[1..] == before[1..] + [Instr(STP)];
      var w := before[0];
      if w.Instr? {
        var s := Exec(stack, flag, w.op);
        StopsAtFirstStp(s.stack, s.overflowFlag, before[1..], after);
      } else {
        StopsAtFirstStp(stack + [Operand(w)], false, before[1..], after);
      }
    }
  }

  /** A run pushes an operand word at position k. */
  lemma PushAt(stack: seq<Value>, flag: bool, ws: seq<Word>, k: nat, after: seq<Value>)
    requires k < |ws| && !ws[k].Instr? && after == stack + [Operand(ws[k])]
    ensures RunWords(stack, flag, ws[k..]) == RunWords(after, false, ws[k + 1..])
  {
    assert ws[k..][0] == ws[k] && ws[k..][1..] == ws[k + 1..];
  }

  /** A run executes an instruction word at position k that returns 0. */
  lemma ExecAt(stack: seq<Value>, flag: bool, ws: seq<Word>, k: nat, after: seq<Value>, flagAfter: bool)
    requires k < |ws| && ws[k].Instr? && Exec(stack, flag, ws[k].op) == Step(after, flagAfter, Success(0))
    ensures RunWords(stack, flag, ws[k..]) == RunWords(after, flagAfter, ws[k + 1..])
  {
    assert ws[k..][0] == ws[k] && ws[k..][1..] == ws[k + 1..];
  }

  /** A run executes DUP at position k. */
  lemma DupAt(stack: seq<Value>, flag: bool, ws: seq<Word>, k: nat)
    requires k < |ws| && ws[k] == Instr(DUP) && |stack| >= 1
    ensures RunWords(stack, flag, ws[k..]) == RunWords(stack + [stack[|stack| - 1]], flag, ws[k + 1..])
  {
    DupDuplicates(stack, flag);
    ExecAt(stack, flag, ws, k, stack + [stack[|stack| - 1]], flag);
  }

  /** A run executes a two-operand instruction at position k on two ints that Apply accepts. */
  lemma BinaryAt(stack: seq<Value>, flag: bool, ws: seq<Word>, k: nat, op: Instruction, second: int, top: int)
    requires k < |ws| && ws[k] == Instr(op) && op in {ADD, SUB, MUL, DIV, EXP, MOD, SHR, XOR}
    requires |stack| >= 2 && stack[|stack| - 2] == Int(second) && stack[|stack| - 1] == Int(top)
    requires Apply(op, second, top).Success?
    ensures var (v, wrapped) := Apply(op, second, top).value;
      RunWords(stack, flag, ws[k..])
        == RunWords(stack[..|stack| - 2] + [Int(v)], (if op in {DIV, MOD, SHR, XOR} then false else flag) || wrapped, ws[k + 1..])
  {
    var (v, wrapped) := Apply(op, second, top).value;
    var ops := TakeOperands(stack, 2).value;
    assert ops[0] == Int(top) && ops[1] == Int(second);
    var flagAfter := (if op in {DIV, MOD, SHR, XOR} then false else flag) || wrapped;
    assert Exec(stack, flag, op) == Step(stack[..|stack| - 2] + [Int(v)], flagAfter, Success(0));
    ExecAt(stack, flag, ws, k, stack[..|stack| - 2] + [Int(v)], flagAfter);
  }

  /** A run ends at an STP word at position k. */
  lemma StopAt(stack: seq<Value>, flag: bool, ws: seq<Word>, k: nat)
    requires k < |ws| && ws[k] == Instr(STP)
    ensures RunWords(stack, flag, ws[k..]) == Outcome(stack, flag, Success(()))
  {
    assert ws[k..][0] == ws[k];
  }

  /** The expression demo "4223*+*2/" computes 4 * (2 + 2 * 3) / 2 and ends with [16]. */
  lemma RpnDemo()
    ensures Simulate(Rpn("4223*+*2/")) == Outcome([Int(16)], false, Success(()))
  {
    RpnDemoTokens("4223*+*2/");
  }

  /** The expression demo, read token by token. */
  lemma RpnDemoTokens(rpn: string)
    requires |rpn| == 9 && rpn[0] == '4' && rpn[1] == '2' && rpn[2] == '2' && rpn[3] == '3'
    requires rpn[4] == '*' && rpn[5] == '+' && rpn[6] == '*' && rpn[7] == '2' && rpn[8] == '/'
    ensures Simulate(Rpn(rpn)) == Outcome([Int(16)], false, Success(()))
  {
    DemoTokenWords();
    forall i | 0 <= i < |rpn|
      ensures TokenWord(rpn[i]).Some?
    {
      assert i in {0, 1, 2, 3, 4, 5, 6, 7, 8};
    }
    RpnCodesFail(rpn);
    ListingRoundTrip(rpn);
    var ws := TokenWords(rpn) + [Instr(STP)];
    assert ws[0] == Number(4) && ws[1] == Number(2) && ws[2] == Number(2) && ws[3] == Number(3);
    assert ws[4] == Instr(MUL) && ws[5] == Instr(ADD) && ws[6] == Instr(MUL);
    assert ws[7] == Number(2) && ws[8] == Instr(DIV) && ws[9] == Instr(STP);
    RpnDemoRun(ws);
  }

  /** The words of the tokens of the expression demo. */
  lemma DemoTokenWords()
    ensures TokenWord('4') == Some(Number(4)) && TokenWord('2') == Some(Number(2)) && TokenWord('3') == Some(Number(3))
    ensures TokenWord('*') == Some(Instr(MUL)) && TokenWord('+') == Some(Instr(ADD)) && TokenWord('/') == Some(Instr(DIV))
  {
  }

  /** The run of the expression demo, one word at a time. */
  lemma RpnDemoRun(ws: seq<Word>)
    requires |ws| == 10
    requires ws[0] == Number(4) && ws[1] == Number(2) && ws[2] == Number(2) && ws[3] == Number(3)
    requires ws[4] == Instr(MUL) && ws[5] == Instr(ADD) && ws[6] == Instr(MUL)
    requires ws[7] == Number(2) && ws[8] == Instr(DIV) && ws[9] == Instr(STP)
    ensures RunWords([], false, ws) == Outcome([Int(16)], false, Success(()))
  {
    RpnDemoOperands(ws);
    RpnDemoProducts(ws);
    RpnDemoQuotient(ws);
  }

  /** 4, 2, 2, 3 are pushed. */
  lemma RpnDemoOperands(ws: seq<Word>)
    requires |ws| == 10
    requires ws[0] == Number(4) && ws[1] == Number(2) && ws[2] == Number(2) && ws[3] == Number(3)
    ensures RunWords([], false, ws) == RunWords([Int(4), Int(2), Int(2), Int(3)], false, ws[4..])
  {
    assert ws[0..] == ws;
    var s1 := [] + [Operand(ws[0])];
    PushAt([], false, ws, 0, s1);
    var s2 := s1 + [Operand(ws[1])];
    PushAt(s1, false, ws, 1, s2);
    var s3 := s2 + [Operand(ws[2])];
    PushAt(s2, false, ws, 2, s3);
    var s4 := s3 + [Operand(ws[3])];
    PushAt(s3, false, ws, 3, s4);
    assert s4 == [Int(4), Int(2), Int(2), Int(3)];
  }

  /** MUL, ADD, MUL: 2 * 3 = 6, 2 + 6 = 8, 4 * 8 = 32. */
  lemma RpnDemoProducts(ws: seq<Word>)
    requires |ws| == 10 && ws[4] == Instr(MUL) && ws[5] == Instr(ADD) && ws[6] == Instr(MUL)
    ensures RunWords([Int(4), Int(2), Int(2), Int(3)], false, ws[4..]) == RunWords([Int(32)], false, ws[7..])
  {
    var s4 := [Int(4), Int(2), Int(2), Int(3)];
    BinaryAt(s4, false, ws, 4, MUL, 2, 3);
    var s5 := s4[..2] + [Int(6)];
    BinaryAt(s5, false, ws, 5, ADD, 2, 6);
    var s6 := s5[..1] + [Int(8)];
    BinaryAt(s6, false, ws, 6, MUL, 4, 8);
    assert s6[..0] + [Int(32)] == [Int(32)];
  }

  /** 2, DIV, STP: 32 // 2 = 16, and the run stops. */
  lemma RpnDemoQuotient(ws: seq<Word>)
    requires |ws| == 10 && ws[7] == Number(2) && ws[8] == Instr(DIV) && ws[9] == Instr(STP)
    ensures RunWords([Int(32)], false, ws[7..]) == Outcome([Int(16)], false, Success(()))
  {
    var s7 := [Int(32)];
    var s8 := s7 + [Operand(ws[7])];
    PushAt(s7, false, ws, 7, s8);
    BinaryAt(s8, false, ws, 8, DIV, 32, 2);
    var s9 := s8[..0] + [Int(16)];
    assert s9 == [Int(16)];
    StopAt(s9, false, ws, 9);
  }

  /** The words of the listing demo, as parse_instr_list decodes them. */
  const DemoListing: seq<string> := [
    "001010", "010001", "010001", "010110", "011111", "000100", "011011", "000100",
    "011001", "000110", "011000", "100010", "110110", "101000", "110101", "010000"]

  /**
   * The listing demo: 10, DUP, DUP, MUL, XOR gives 10 ^ 100 = 110; 110 >> 4 = 6;
   * 6 % 4 = 2; 2 ** 6 = 64 wraps to 0; then " ", "S", "E", "R" are pushed,
   * and the first push clears the flag again.
   */
  lemma ListingDemo(listing: seq<string>)
    requires listing == DemoListing
    ensures Simulate(Listing(listing))
      == Outcome([Int(0), Str(" "), Str("S"), Str("E"), Str("R")], false, Success(()))
  {
    DemoParses(listing);
    DemoWordsAt(DemoWords);
    ListingDemoRun(DemoWords);
  }

  /** The codes the listing demo spells in binary. */
  const DemoCodes: seq<nat> := [10, 17, 17, 22, 31, 4, 27, 4, 25, 6, 24, 34, 54, 40, 53, 16]

  /** The words the listing demo decodes to. */
  const DemoWords: seq<Word> := [
    Number(10), Instr(DUP), Instr(DUP), Instr(MUL), Instr(XOR), Number(4), Instr(SHR), Number(4),
    Instr(MOD), Number(6), Instr(EXP), Text(' '), Text('S'), Text('E'), Text('R'), Instr(STP)]

  /** The words of the listing demo, one by one. */
  lemma DemoWordsAt(ws: seq<Word>)
    requires ws == DemoWords
    ensures |ws| == 16
    ensures ws[0] == Number(10) && ws[1] == Instr(DUP) && ws[2] == Instr(DUP) && ws[3] == Instr(MUL)
    ensures ws[4] == Instr(XOR) && ws[5] == Number(4) && ws[6] == Instr(SHR) && ws[7] == Number(4)
    ensures ws[8] == Instr(MOD) && ws[9] == Number(6) && ws[10] == Instr(EXP) && ws[11] == Text(' ')
    ensures ws[12] == Text('S') && ws[13] == Text('E') && ws[14] == Text('R') && ws[15] == Instr(STP)
  {
  }

  /** `parse_instr_list` decodes the listing demo word by word. */
  lemma DemoParses(listing: seq<string>)
    requires listing == DemoListing
    ensures ParseInstrList(listing) == Success(DemoWords)
  {
    forall i | 0 <= i < |listing|
      ensures ParseBinary(listing[i]) == Success(DemoCodes[i])
      ensures ParseValue(DemoCodes[i]) == DemoWords[i]
    {
      DemoCode(i);
      PlainDigits(listing[i]);
    }
    ParseDecoded(listing, DemoCodes, DemoWords);
  }

  /** The run of the listing demo, one group of words at a time. */
  lemma ListingDemoRun(ws: seq<Word>)
    requires |ws| == 16
    requires ws[0] == Number(10) && ws[1] == Instr(DUP) && ws[2] == Instr(DUP) && ws[3] == Instr(MUL)
    requires ws[4] == Instr(XOR) && ws[5] == Number(4) && ws[6] == Instr(SHR) && ws[7] == Number(4)
    requires ws[8] == Instr(MOD) && ws[9] == Number(6) && ws[10] == Instr(EXP) && ws[11] == Text(' ')
    requires ws[12] == Text('S') && ws[13] == Text('E') && ws[14] == Text('R') && ws[15] == Instr(STP)
    ensures RunWords([], false, ws) == Outcome([Int(0), Str(" "), Str("S"), Str("E"), Str("R")], false, Success(()))
  {
    ListingDemoXor(ws);
    ListingDemoExp(ws);
    ListingDemoLetters(ws);
  }

  /** 10, DUP, DUP, MUL, XOR: 10 ^ (10 * 10) = 110. */
  lemma ListingDemoXor(ws: seq<Word>)
    requires |ws| == 16
    requires ws[0] == Number(10) && ws[1] == Instr(DUP) && ws[2] == Instr(DUP) && ws[3] == Instr(MUL)
    requires ws[4] == Instr(XOR)
    ensures RunWords([], false, ws) == RunWords([Int(110)], false, ws[5..])
  {
    ListingDemoDuplicates(ws);
    var s3 := [Int(10), Int(10), Int(10)];
    BinaryAt(s3, false, ws, 3, MUL, 10, 10);
    var s4 := s3[..1] + [Int(100)];
    XorDemo();
    BinaryAt(s4, false, ws, 4, XOR, 10, 100);
    assert s4[..0] + [Int(110)] == [Int(110)];
  }

  /** 10, DUP, DUP: three copies of 10. */
  lemma ListingDemoDuplicates(ws: seq<Word>)
    requires |ws| == 16 && ws[0] == Number(10) && ws[1] == Instr(DUP) && ws[2] == Instr(DUP)
    ensures RunWords([], false, ws) == RunWords([Int(10), Int(10), Int(10)], false, ws[3..])
  {
    var s1, s2, s3 := [Int(10)], [Int(10), Int(10)], [Int(10), Int(10), Int(10)];
    assert RunWords([], false, ws) == RunWords(s1, false, ws[1..]) by {
      assert ws[0..] == ws && [] + [Operand(ws[0])] == s1;
      PushAt([], false, ws, 0, s1);
    }
    assert RunWords(s1, false, ws[1..]) == RunWords(s2, false, ws[2..]) by {
      DupAt(s1, false, ws, 1);
      assert s1 + [s1[0]] == s2;
    }
    assert RunWords(s2, false, ws[2..]) == RunWords(s3, false, ws[3..]) by {
      DupAt(s2, false, ws, 2);
      assert s2 + [s2[1]] == s3;
    }
  }

  /** 10 ^ 100 = 0b0001010 ^ 0b1100100 = 0b1101110 = 110. */
  lemma XorDemo()
    ensures Xor(10, 100) == 110
  {
    assert NatXor(0, 3) == 3;
    assert NatXor(1, 12) == 13;
    assert NatXor(5, 50) == 55;
  }

  /** 4, SHR, 4, MOD, 6, EXP: 110 >> 4 = 6, 6 % 4 = 2, 2 ** 6 = 64 wraps to 0 and sets the flag. */
  lemma ListingDemoExp(ws: seq<Word>)
    requires |ws| == 16
    requires ws[5] == Number(4) && ws[6] == Instr(SHR) && ws[7] == Number(4)
    requires ws[8] == Instr(MOD) && ws[9] == Number(6) && ws[10] == Instr(EXP)
    ensures RunWords([Int(110)], false, ws[5..]) == RunWords([Int(0)], true, ws[11..])
  {
    DemoArithmetic();
    ListingDemoShift(ws);
    ListingDemoPower(ws);
  }

  /** 4, SHR, 4: 110 >> 4 = 6, then 4 is pushed. */
  lemma ListingDemoShift(ws: seq<Word>)
    requires |ws| == 16 && ws[5] == Number(4) && ws[6] == Instr(SHR) && ws[7] == Number(4)
    requires Apply(SHR, 110, 4) == Success((6, false))
    ensures RunWords([Int(110)], false, ws[5..]) == RunWords([Int(6), Int(4)], false, ws[8..])
  {
    var s0 := [Int(110)];
    var s1 := s0 + [Operand(ws[5])];
    PushAt(s0, false, ws, 5, s1);
    BinaryAt(s1, false, ws, 6, SHR, 110, 4);
    var s2 := s1[..0] + [Int(6)];
    var s3 := s2 + [Operand(ws[7])];
    PushAt(s2, false, ws, 7, s3);
    assert s3 == [Int(6), Int(4)];
  }

  /** MOD, 6, EXP: 6 % 4 = 2, then 2 ** 6 = 64 wraps to 0 and sets the flag. */
  lemma ListingDemoPower(ws: seq<Word>)
    requires |ws| == 16 && ws[8] == Instr(MOD) && ws[9] == Number(6) && ws[10] == Instr(EXP)
    requires Apply(MOD, 6, 4) == Success((2, false)) && Apply(EXP, 2, 6) == Success((0, true))
    ensures RunWords([Int(6), Int(4)], false, ws[8..]) == RunWords([Int(0)], true, ws[11..])
  {
    var s3 := [Int(6), Int(4)];
    BinaryAt(s3, false, ws, 8, MOD, 6, 4);
    assert s3[..0] + [Int(2)] == [Int(2)];
    ListingDemoExpStep(ws);
  }

  /** 6, EXP: 6 is pushed onto 2, and 2 ** 6 = 64 wraps to 0 and sets the flag. */
  lemma ListingDemoExpStep(ws: seq<Word>)
    requires |ws| == 16 && ws[9] == Number(6) && ws[10] == Instr(EXP)
    requires Apply(EXP, 2, 6) == Success((0, true))
    ensures RunWords([Int(2)], false, ws[9..]) == RunWords([Int(0)], true, ws[11..])
  {
    var s4 := [Int(2)];
    var s5 := s4 + [Operand(ws[9])];
    PushAt(s4, false, ws, 9, s5);
    assert s5 == [Int(2), Int(6)];
    BinaryAt(s5, false, ws, 10, EXP, 2, 6);
    assert s5[..0] + [Int(0)] == [Int(0)];
  }

  /** The arithmetic of the listing demo: 110 >> 4 = 6, 6 % 4 = 2, and 2 ** 6 = 64 wraps to 0. */
  lemma DemoArithmetic()
    ensures Apply(SHR, 110, 4) == Success((6, false))
    ensures Apply(MOD, 6, 4) == Success((2, false))
    ensures Apply(EXP, 2, 6) == Success((0, true))
  {
    assert Pow2(4) == 16;
    assert FloorDiv(6, 4) == 1;
    assert Pow(2, 6) == 64;
  }

  /** " ", "S", "E", "R", STP: the first push clears the flag, STP ends the run. */
  lemma ListingDemoLetters(ws: seq<Word>)
    requires |ws| == 16
    requires ws[11] == Text(' ') && ws[12] == Text('S') && ws[13] == Text('E') && ws[14] == Text('R')
    requires ws[15] == Instr(STP)
    ensures RunWords([Int(0)], true, ws[11..]) == Outcome([Int(0), Str(" "), Str("S"), Str("E"), Str("R")], false, Success(()))
  {
    var s0 := [Int(0)];
    var s1 := s0 + [Operand(ws[11])];
    PushAt(s0, true, ws, 11, s1);
    var s2 := s1 + [Operand(ws[12])];
    PushAt(s1, false, ws, 12, s2);
    var s3 := s2 + [Operand(ws[13])];
    PushAt(s2, false, ws, 13, s3);
    var s4 := s3 + [Operand(ws[14])];
    PushAt(s3, false, ws, 14, s4);
    assert s4 == [Int(0), Str(" "), Str("S"), Str("E"), Str("R")];
    StopAt(s4, false, ws, 15);
  }

  /** Each string of the listing demo is six binary digits spelling its code, and the code decodes to its word. */
  lemma DemoCode(i: nat)
    requires i < |DemoListing|
    ensures DemoListing[i] != [] && forall j :: 0 <= j < |DemoListing[i]| ==> IsBinaryDigit(DemoListing[i][j])
    ensures ToNat(CharBits(DemoListing[i])) == DemoCodes[i]
    ensures ParseValue(DemoCodes[i]) == DemoWords[i]
  {
    if i < 4 {
      DemoCodeFirstQuarter(i);
    } else if i < 8 {
      DemoCodeSecondQuarter(i);
    } else if i < 12 {
      DemoCodeThirdQuarter(i);
    } else {
      DemoCodeLastQuarter(i);
    }
  }

  lemma DemoCodeFirstQuarter(i: nat)
    requires i < 4
    ensures DemoListing[i] != [] && forall j :: 0 <= j < |DemoListing[i]| ==> IsBinaryDigit(DemoListing[i][j])
    ensures ToNat(CharBits(DemoListing[i])) == DemoCodes[i]
    ensures ParseValue(DemoCodes[i]) == DemoWords[i]
  {
    SixDigits(DemoListing[i]);
  }

  lemma DemoCodeSecondQuarter(i: nat)
    requires 4 <= i < 8
    ensures DemoListing[i] != [] && forall j :: 0 <= j < |DemoListing[i]| ==> IsBinaryDigit(DemoListing[i][j])
    ensures ToNat(CharBits(DemoListing[i])) == DemoCodes[i]
    ensures ParseValue(DemoCodes[i]) == DemoWords[i]
  {
    SixDigits(DemoListing[i]);
  }

  lemma DemoCodeThirdQuarter(i: nat)
    requires 8 <= i < 12
    ensures DemoListing[i] != [] && forall j :: 0 <= j < |DemoListing[i]| ==> IsBinaryDigit(DemoListing[i][j])
    ensures ToNat(CharBits(DemoListing[i])) == DemoCodes[i]
    ensures ParseValue(DemoCodes[i]) == DemoWords[i]
  {
    SixDigits(DemoListing[i]);
  }

  lemma DemoCodeLastQuarter(i: nat)
    requires 12 <= i < 16
    ensures DemoListing[i] != [] && forall j :: 0 <= j < |DemoListing[i]| ==> IsBinaryDigit(DemoListing[i][j])
    ensures ToNat(CharBits(DemoListing[i])) == DemoCodes[i]
    ensures ParseValue(DemoCodes[i]) == DemoWords[i]
  {
    SixDigits(DemoListing[i]);
  }

  function Digit(c: char): nat
  {
    if c == '1' then 1 else 0
  }

  /** The value of six binary digits. */
  lemma SixDigits(s: string)
    requires |s| == 6
    ensures ToNat(CharBits(s))
      == 32 * Digit(s[0]) + 16 * Digit(s[1]) + 8 * Digit(s[2]) + 4 * Digit(s[3]) + 2 * Digit(s[4]) + Digit(s[5])
  {
    var bs := CharBits(s);
    assert forall i :: 0 <= i < 6 ==> bs[i] == Digit(s[i]);
    SixBits(bs);
  }

  /** The 4-bit machine: the stack, top last, and the overflow flag. */
  class StackMachine {
    var stack: seq<Value>
    var overflowFlag: bool

    /** A new machine has an empty stack and a clear flag. */
    constructor ()
      ensures stack == [] && !overflowFlag
    {
      stack := [];
      overflowFlag := false;
    }

    /** `get_operands_from_stack(n)`: pop n values, top first, or raise ValueError and pop nothing. */
    method GetOperandsFromStack(n: nat) returns (r: Result<seq<Value>, PyError>)
      modifies this
      ensures overflowFlag == old(overflowFlag)
      ensures r == TakeOperands(old(stack), n)
      ensures stack == if r.Success? then old(stack)[..|old(stack)| - n] else old(stack)
    {
      if |stack| < n {
        return Failure(ValueError);
      }
      var ops: seq<Value> := [];
      for k := 0 to n
        invariant overflowFlag == old(overflowFlag)
        invariant stack == old(stack)[..|old(stack)| - k]
        invariant |ops| == k
        invariant forall j :: 0 <= j < k ==> ops[j] == old(stack)[|old(stack)| - 1 - j]
      {
        ops := ops + [stack[|stack| - 1]];
        stack := stack[..|stack| - 1];
      }
      assert ops == TakeOperands(old(stack), n).value;
      return Success(ops);
    }

    /** `run_instruction`: the step by step version of Exec. */
    method RunInstruction(op: Instruction) returns (r: Result<int, PyError>)
      modifies this
      ensures Step(stack, overflowFlag, r) == Exec(old(stack), old(overflowFlag), op)
    {
      if op == STP {
        return Success(1);
      } else if op == DUP {
        var ops :- GetOperandsFromStack(1);
        stack := stack + [ops[0]];
        stack := stack + [ops[0]];
      } else if op in {ADD, SUB, MUL, EXP} {
        r := RunWrapping(op);
        return;
      } else if op == DIV {
        var ops :- GetOperandsFromStack(2);
        overflowFlag := false;
        if ops[0].Str? || ops[1].Str? {
          return Failure(TypeError);
        } else if ops[0].i == 0 {
          return Failure(ZeroDivisionError);
        }
        stack := stack + [Int(FloorDiv(ops[1].i, ops[0].i))];
      } else if op in {MOD, SHR, XOR} {
        r := RunClearing(op);
        return;
      }
      return Success(0);
    }

    /** The ADD, SUB, MUL and EXP branches of `run_instruction`. */
    method RunWrapping(op: Instruction) returns (r: Result<int, PyError>)
      requires op in {ADD, SUB, MUL, EXP}
      modifies this
      ensures Step(stack, overflowFlag, r) == BinaryStep(old(stack), old(overflowFlag), op)
    {
      var ops :- GetOperandsFromStack(2);
      if ops[0].Str? || ops[1].Str? {
        return Failure(TypeError);
      }
      var second, top := ops[1].i, ops[0].i;
      var result;
      if op == ADD {
        result := second + top;
        if result > 15 {
          result := result % 16;
          overflowFlag := true;
        }
      } else if op == SUB {
        result := second - top;
        if result < 0 {
          result := 16 + result;
          overflowFlag := true;
        }
      } else if op == MUL {
        result := second * top;
        if result < 0 {
          result := 16 + result;
          overflowFlag := true;
        }
      } else {
        if top < 0 {
          return Failure(if second == 0 then ZeroDivisionError else FloatNotModelled);
        }
        result := Pow(second, top);
        if result > 15 {
          result := result % 16;
          overflowFlag := true;
        }
      }
      stack := stack + [Int(result)];
      return Success(0);
    }

    /** The MOD, SHR and XOR branches of `run_instruction`: the flag is cleared before the pop. */
    method RunClearing(op: Instruction) returns (r: Result<int, PyError>)
      requires op in {MOD, SHR, XOR}
      modifies this
      ensures Step(stack, overflowFlag, r) == BinaryStep(old(stack), false, op)
    {
      overflowFlag := false;
      var ops :- GetOperandsFromStack(2);
      if ops[0].Str? || ops[1].Str? {
        return Failure(StrOperandError(op == MOD, ops[1]));
      }
      var second, top := ops[1].i, ops[0].i;
      var result;
      if op == MOD {
        if top == 0 {
          return Failure(ZeroDivisionError);
        }
        result := FloorMod(second, top);
      } else if op == SHR {
        if top < 0 {
          return Failure(ValueError);
        }
        result := ShiftRight(second, top);
      } else {
        result := Xor(second, top);
      }
      stack := stack + [Int(result)];
      return Success(0);
    }

    /** `rpn_to_instr_list`: translate the tokens one by one, append STP, render each code in binary. */
    method RpnToInstrList(rpn: string) returns (r: Result<seq<string>, PyError>)
      ensures r == RpnListing(rpn)
    {
      var instrList: seq<nat> := [];
      for i := 0 to |rpn|
        invariant RpnCodes(rpn[..i]) == Success(instrList)
      {
        assert rpn[..i + 1][..i] == rpn[..i];
        var token := rpn[i];
        if token == '+' {
          instrList := instrList + [20];
        } else if token == '-' {
          instrList := instrList + [21];
        } else if token == '*' {
          instrList := instrList + [22];
        } else if token == '/' {
          instrList := instrList + [23];
        } else {
          var v := HexValue(token);
          if v.None? {
            PrefixFails(rpn, i + 1);
            return Failure(ValueError);
          }
          instrList := instrList + [v.value];
        }
      }
      assert rpn[..|rpn|] == rpn;
      instrList := instrList + [16];
      r := Success(RenderAll(instrList));
    }

    /** `simulate_instructions`: clear the machine, decode the program, run it up to the first STP. */
    method SimulateInstructions(program: Program) returns (r: Result<(), PyError>)
      modifies this
      ensures Outcome(stack, overflowFlag, r) == Simulate(program)
    {
      stack := [];
      overflowFlag := false;
      var listing: seq<string>;
      if program.Rpn? {
        listing :- RpnToInstrList(program.expr);
      } else {
        listing := program.words;
      }
      var words :- ParseInstrList(listing);
      r := RunProgram(words);
    }

    /** The for loop of `simulate_instructions` over the decoded words. */
    method RunProgram(words: seq<Word>) returns (r: Result<(), PyError>)
      modifies this
      ensures Outcome(stack, overflowFlag, r) == RunWords(old(stack), old(overflowFlag), words)
    {
      for i := 0 to |words|
        invariant RunWords(stack, overflowFlag, words[i..]) == RunWords(old(stack), old(overflowFlag), words)
      {
        var word := words[i];
        assert words[i..][0] == word && words[i..][1..] == words[i + 1..];
        if word.Instr? {
          var res := RunInstruction(word.op);
          if res.Failure? {
            return Failure(res.error);
          }
          if res.value == 1 {
            return Success(());
          }
        } else {
          stack := stack + [Operand(word)];
          overflowFlag := false;
        }
      }
      return Success(());
    }
  }

  /** Once a prefix of an expression has a bad token, the whole expression is rejected. */
  lemma PrefixFails(rpn: string, i: nat)
    requires i <= |rpn| && RpnCodes(rpn[..i]).Failure?
    ensures RpnCodes(rpn).Failure?
  {
    RpnCodesFail(rpn[..i]);
    RpnCodesFail(rpn);
    var j :| 0 <= j < i && TokenWord(rpn[..i][j]).None?;
    assert rpn[j] == rpn[..i][j];
  }
}
