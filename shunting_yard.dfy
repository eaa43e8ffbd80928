/**
 * Dijkstra's shunting-yard conversion of an infix expression into reverse
 * Polish notation, over one-character tokens: digits go straight to the
 * output, the four left-associative operators wait on an operator stack
 * until an operator of lower precedence (or a closing parenthesis, or the end
 * of the input) pops them, and parentheses only steer the popping.
 *
 * The pure functions Scan, Drain and Rpn specify the conversion; the method
 * ShuntingYard runs it with an explicit stack and output list, and is proved
 * to agree with them.
 */
module ShuntingYard {
  import opened Wrappers

  datatype Associativity = LEFT | RIGHT

  datatype OperatorInfo = OperatorInfo(precedence: nat, associativity: Associativity)

  /** The operator table: * and / bind tighter than + and -, and all four associate to the left. */
  const Operators: map<char, OperatorInfo> := map[
    '*' := OperatorInfo(3, LEFT),
    '/' := OperatorInfo(3, LEFT),
    '+' := OperatorInfo(2, LEFT),
    '-' := OperatorInfo(2, LEFT)]

  /** str.isnumeric on a one-character string, for the ASCII digits. */
  predicate IsNumeric(c: char)
  {
    '0' <= c <= '9'
  }

  /** Why the conversion raises: an unknown character, or a ')' that finds no '(' and indexes an empty stack. */
  datatype Error = UnknownToken(token: char) | IndexError

  /** The operator stack (top last) and the output list. */
  datatype State = State(stack: seq<char>, output: seq<char>)

  /** s from its last element to its first. */
  function Reverse(s: seq<char>): (r: seq<char>)
    ensures |r| == |s|
    ensures forall k :: 0 <= k < |s| ==> r[k] == s[|s| - 1 - k]
  {
    if s == [] then [] else [s[|s| - 1]] + Reverse(s[..|s| - 1])
  }

  /** input.replace(" ", ""): the input without its spaces, every other character kept in order. */
  function StripSpaces(s: string): (r: string)
    ensures forall k :: 0 <= k < |r| ==> r[k] != ' '
    ensures multiset(r) == multiset(s)[' ' := 0]
  {
    if s == [] then []
    else
      assert s == [s[0]] + s[1..];
      (if s[0] == ' ' then [] else [s[0]]) + StripSpaces(s[1..])
  }

  /** replace works on the input piece by piece: it can be cut anywhere. */
  lemma {:induction false} StripSpacesAppend(a: string, b: string)
    ensures StripSpaces(a + b) == StripSpaces(a) + StripSpaces(b)
    decreases |a|
  {
    if a == [] {
      assert a + b == b;
    } else {
      var head := if a[0] == ' ' then [] else [a[0]];
      StripSpacesFront(a, b);
      StripSpacesAppend(a[1..], b);
      Associative(head, StripSpaces(a[1..]), StripSpaces(b));
    }
  }

  /** The first character of a + b is that of a, and the rest is the rest of a followed by b. */
  lemma StripSpacesFront(a: string, b: string)
    requires a != []
    ensures StripSpaces(a + b) == (if a[0] == ' ' then [] else [a[0]]) + StripSpaces(a[1..] + b)
  {
    assert a + b == [a[0]] + (a[1..] + b);
    StripSpacesCons(a[0], a[1..] + b);
  }

  lemma StripSpacesCons(c: char, rest: string)
    ensures StripSpaces([c] + rest) == (if c == ' ' then [] else [c]) + StripSpaces(rest)
  {
    assert ([c] + rest)[1..] == rest;
  }

  /** One character at a time: a space becomes nothing, any other character stays. */
  lemma StripSpacesChar(c: char)
    ensures StripSpaces([c]) == if c == ' ' then [] else [c]
  {
    assert [c][1..] == [];
  }

  /** Input without spaces is scanned as it is. */
  lemma {:induction false} StripSpacesKeeps(s: string)
    requires ' ' !in s
    ensures StripSpaces(s) == s
    decreases |s|
  {
    if s != [] {
      StripSpacesKeeps(s[1..]);
      assert s == [s[0]] + s[1..];
    }
  }

  /**
   * Whether a stacked token is popped to the output before operator op is
   * pushed: it is an operator of higher precedence, or of the same precedence
   * and left-associative.
   */
  predicate PopsBefore(top: char, op: char)
    requires op in Operators
  {
    && top in Operators
    && (|| Operators[top].precedence > Operators[op].precedence
        || (Operators[top].precedence == Operators[op].precedence && Operators[top].associativity == LEFT))
  }

  /** The inner loop for an operator token: pop to the output, top first, the stacked tokens that PopsBefore op. */
  function PopOperators(st: State, op: char): State
    requires op in Operators
    decreases |st.stack|
  {
    var s := st.stack;
    if |s| > 0 && PopsBefore(s[|s| - 1], op) then
      PopOperators(State(s[..|s| - 1], st.output + [s[|s| - 1]]), op)
    else st
  }

  /**
   * Popping for an operator removes the longest run of stacked tokens that
   * PopsBefore it, and appends that run to the output, top first.
   */
  lemma PopOperatorsSpec(st: State, op: char)
    requires op in Operators
    ensures var r := PopOperators(st, op);
      && |r.stack| <= |st.stack| && r.stack == st.stack[..|r.stack|]
      && r.output == st.output + Reverse(st.stack[|r.stack|..])
      && (forall k :: |r.stack| <= k < |st.stack| ==> PopsBefore(st.stack[k], op))
      && (r.stack == [] || !PopsBefore(r.stack[|r.stack| - 1], op))
  {
    PopOperatorsMoves(st, op);
    PopOperatorsStops(st, op);
  }

  lemma {:induction false} PopOperatorsMoves(st: State, op: char)
    requires op in Operators
    ensures var r := PopOperators(st, op);
      && |r.stack| <= |st.stack| && r.stack == st.stack[..|r.stack|]
      && r.output == st.output + Reverse(st.stack[|r.stack|..])
    decreases |st.stack|
  {
    var s := st.stack;
    if |s| > 0 && PopsBefore(s[|s| - 1], op) {
      var next := State(s[..|s| - 1], st.output + [s[|s| - 1]]);
      PopOperatorsMoves(next, op);
      var r := PopOperators(next, op);
      assert PopOperators(st, op) == r;
      var n := |r.stack|;
      assert r.stack == s[..n];
      ReverseSuffix(s, n);
      assert r.output == st.output + ([s[|s| - 1]] + Reverse(next.stack[n..]));
    } else {
      assert PopOperators(st, op) == st;
      assert st.stack[|st.stack|..] == [];
    }
  }

  lemma {:induction false} PopOperatorsStops(st: State, op: char)
    requires op in Operators
    ensures var r := PopOperators(st, op);
      && |r.stack| <= |st.stack| && r.stack == st.stack[..|r.stack|]
      && (forall k :: |r.stack| <= k < |st.stack| ==> PopsBefore(st.stack[k], op))
      && (r.stack == [] || !PopsBefore(r.stack[|r.stack| - 1], op))
    decreases |st.stack|
  {
    var s := st.stack;
    if |s| > 0 && PopsBefore(s[|s| - 1], op) {
      var next := State(s[..|s| - 1], st.output + [s[|s| - 1]]);
      PopOperatorsStops(next, op);
      assert PopOperators(st, op) == PopOperators(next, op);
    } else {
      assert PopOperators(st, op) == st;
    }
  }

  /** Reversing the part of s from n on puts its last element first. */
  lemma ReverseSuffix(s: seq<char>, n: nat)
    requires n < |s|
    ensures Reverse(s[n..]) == [s[|s| - 1]] + Reverse(s[..|s| - 1][n..])
  {
    assert s[n..][..|s| - 1 - n] == s[..|s| - 1][n..];
  }

  /**
   * The ')' step: pop to the output, top first, everything above the nearest
   * '(' and discard that '('; with no '(' the scan reaches an empty stack and
   * raises IndexError.
   */
  function PopToParen(st: State): Result<State, Error>
    decreases |st.stack|
  {
    var s := st.stack;
    if |s| == 0 then Failure(IndexError)
    else if s[|s| - 1] == '(' then Success(State(s[..|s| - 1], st.output))
    else PopToParen(State(s[..|s| - 1], st.output + [s[|s| - 1]]))
  }

  /**
   * A ')' fails with IndexError exactly when no '(' is on the stack; otherwise
   * it drops the nearest '(' and appends the tokens above it to the output,
   * top first.
   */
  lemma PopToParenSpec(st: State)
    ensures PopToParen(st).Failure? <==> '(' !in st.stack
    ensures PopToParen(st).Failure? ==> PopToParen(st).error == IndexError
    ensures var r := PopToParen(st);
      r.Success? ==>
        var n := |r.value.stack|;
        && n < |st.stack| && st.stack[n] == '(' && r.value.stack == st.stack[..n]
        && '(' !in st.stack[n + 1..]
        && r.value.output == st.output + Reverse(st.stack[n + 1..])
  {
    PopToParenFails(st);
    if PopToParen(st).Success? {
      PopToParenMoves(st);
    }
  }

  lemma {:induction false} PopToParenFails(st: State)
    ensures PopToParen(st).Failure? <==> '(' !in st.stack
    ensures PopToParen(st).Failure? ==> PopToParen(st).error == IndexError
    decreases |st.stack|
  {
    var s := st.stack;
    if |s| > 0 && s[|s| - 1] != '(' {
      var next := State(s[..|s| - 1], st.output + [s[|s| - 1]]);
      PopToParenFails(next);
      assert PopToParen(st) == PopToParen(next);
      assert s == next.stack + [s[|s| - 1]];
    }
  }

  lemma PopToParenMoves(st: State)
    requires PopToParen(st).Success?
    ensures var r := PopToParen(st).value;
      var n := |r.stack|;
      && n < |st.stack| && st.stack[n] == '(' && r.stack == st.stack[..n]
      && '(' !in st.stack[n + 1..]
      && r.output == st.output + Reverse(st.stack[n + 1..])
  {
    PopToParenStack(st);
    PopToParenOutput(st);
  }

  lemma {:induction false} PopToParenStack(st: State)
    requires PopToParen(st).Success?
    ensures var n := |PopToParen(st).value.stack|;
      && n < |st.stack| && st.stack[n] == '(' && PopToParen(st).value.stack == st.stack[..n]
      && '(' !in st.stack[n + 1..]
    decreases |st.stack|
  {
    var s := st.stack;
    if s[|s| - 1] != '(' {
      var next := State(s[..|s| - 1], st.output + [s[|s| - 1]]);
      assert PopToParen(st) == PopToParen(next);
      PopToParenStack(next);
      var n := |PopToParen(next).value.stack|;
      assert s[n + 1..] == next.stack[n + 1..] + [s[|s| - 1]];
    }
  }

  lemma {:induction false} PopToParenOutput(st: State)
    requires PopToParen(st).Success?
    ensures var n := |PopToParen(st).value.stack|;
      n < |st.stack| && PopToParen(st).value.output == st.output + Reverse(st.stack[n + 1..])
    decreases |st.stack|
  {
    var s := st.stack;
    if s[|s| - 1] == '(' {
      assert s[|s|..] == [];
    } else {
      var next := State(s[..|s| - 1], st.output + [s[|s| - 1]]);
      assert PopToParen(st) == PopToParen(next);
      PopToParenOutput(next);
      var r := PopToParen(next).value;
      var n := |r.stack|;
      ReverseSuffix(s, n + 1);
      assert r.output == st.output + ([s[|s| - 1]] + Reverse(next.stack[n + 1..]));
    }
  }

  /** One pass of the for loop over the tokens. */
  function ScanToken(st: State, token: char): Result<State, Error>
  {
    if IsNumeric(token) then Success(State(st.stack, st.output + [token]))
    else if token in Operators then
      var popped := PopOperators(st, token);
      Success(State(popped.stack + [token], popped.output))
    else if token == '(' then Success(State(st.stack + [token], st.output))
    else if token == ')' then PopToParen(st)
    else Failure(UnknownToken(token))
  }

  /** The for loop: scan the tokens one by one; the first exception ends the scan. */
  function Scan(st: State, tokens: seq<char>): Result<State, Error>
    decreases |tokens|
  {
    if tokens == [] then Success(st)
    else
      match ScanToken(st, tokens[0])
      case Failure(e) => Failure(e)
      case Success(next) => Scan(next, tokens[1..])
  }

  /** The final loop: pop what remains on the stack to the output, top first. */
  function Drain(st: State): seq<char>
  {
    st.output + Reverse(st.stack)
  }

  /** The output list of shunting_yard: scan the input without its spaces from an empty stack, then drain. */
  function Postfix(input: string): Result<seq<char>, Error>
  {
    match Scan(State([], []), StripSpaces(input))
    case Failure(e) => Failure(e)
    case Success(st) => Success(Drain(st))
  }

  /** " ".join(output) for a list of one-character strings. */
  function Join(tokens: seq<char>): (r: string)
    ensures |r| == if tokens == [] then 0 else 2 * |tokens| - 1
    ensures forall k :: 0 <= k < |tokens| ==> r[2 * k] == tokens[k]
    ensures forall k :: 0 <= k < |tokens| - 1 ==> r[2 * k + 1] == ' '
  {
    if |tokens| <= 1 then tokens
    else Join(tokens[..|tokens| - 1]) + [' ', tokens[|tokens| - 1]]
  }

  /** What shunting_yard returns or raises. */
  function Rpn(input: string): Result<string, Error>
  {
    match Postfix(input)
    case Failure(e) => Failure(e)
    case Success(out) => Success(Join(out))
  }

  /** Scanning from position i takes one token step, then scans the rest. */
  lemma ScanAt(st: State, tokens: seq<char>, i: nat)
    requires i < |tokens|
    ensures Scan(st, tokens[i..]) ==
      match ScanToken(st, tokens[i])
      case Failure(e) => Failure(e)
      case Success(next) => Scan(next, tokens[i + 1..])
  {
    assert tokens[i..][0] == tokens[i] && tokens[i..][1..] == tokens[i + 1..];
  }

  /** The operator branch of the loop: pop every stacked token that PopsBefore the operator, then push it. */
  method PushOperator(stack0: seq<char>, output0: seq<char>, token: char) returns (stack: seq<char>, output: seq<char>)
    requires token in Operators
    ensures ScanToken(State(stack0, output0), token) == Success(State(stack, output))
  {
    stack, output := stack0, output0;
    var op1 := Operators[token];
    while
      && |stack| > 0
      && stack[|stack| - 1] in Operators
      && (|| Operators[stack[|stack| - 1]].precedence > op1.precedence
          || (&& Operators[stack[|stack| - 1]].precedence == op1.precedence
              && Operators[stack[|stack| - 1]].associativity == LEFT))
      invariant PopOperators(State(stack, output), token) == PopOperators(State(stack0, output0), token)
      decreases |stack|
    {
      output := output + [stack[|stack| - 1]];
      stack := stack[..|stack| - 1];
    }
    stack := stack + [token];
  }

  /** The ')' branch of the loop: pop down to the nearest '(' and discard it, or fail on an empty stack. */
  method CloseParen(stack0: seq<char>, output0: seq<char>) returns (r: Result<State, Error>)
    ensures r == ScanToken(State(stack0, output0), ')')
  {
    var stack, output := stack0, output0;
    while |stack| == 0 || stack[|stack| - 1] != '('
      invariant PopToParen(State(stack, output)) == PopToParen(State(stack0, output0))
      decreases |stack|
    {
      if |stack| == 0 {
        return Failure(IndexError);
      }
      output := output + [stack[|stack| - 1]];
      stack := stack[..|stack| - 1];
    }
    return Success(State(stack[..|stack| - 1], output));
  }

  /** shunting_yard, with the stack and the output list updated step by step. */
  method ShuntingYard(input: string) returns (r: Result<string, Error>)
    ensures r == Rpn(input)
  {
    var tokens := StripSpaces(input);
    var stack: seq<char> := [];
    var output: seq<char> := [];
    for i := 0 to |tokens|
      invariant Scan(State(stack, output), tokens[i..]) == Scan(State([], []), tokens)
    {
      var token := tokens[i];
      ScanAt(State(stack, output), tokens, i);
      if IsNumeric(token) {
        output := output + [token];
      } else if token in Operators {
        stack, output := PushOperator(stack, output, token);
      } else if token == '(' {
        stack := stack + [token];
      } else if token == ')' {
        var closed := CloseParen(stack, output);
        if closed.Failure? {
          return Failure(closed.error);
        }
        stack, output := closed.value.stack, closed.value.output;
      } else {
        return Failure(UnknownToken(token));
      }
    }
    assert tokens[|tokens|..] == [];
    ghost var scanned := State(stack, output);
    assert Postfix(input) == Success(Drain(scanned));
    while |stack| > 0
      invariant Drain(State(stack, output)) == Drain(scanned)
      decreases |stack|
    {
      output := output + [stack[|stack| - 1]];
      stack := stack[..|stack| - 1];
    }
    assert Drain(State(stack, output)) == output;
    return Success(Join(output));
  }

  // Properties of the conversion

  /** A character the loop accepts as a token. */
  predicate Known(c: char)
  {
    IsNumeric(c) || c in Operators || c == '(' || c == ')'
  }

  /** What the operator stack can hold: operators and opening parentheses. */
  predicate StackTokens(s: seq<char>)
  {
    forall k :: 0 <= k < |s| ==> s[k] in Operators || s[k] == '('
  }

  /** The opening parentheses still waiting on the stack. */
  function Opens(s: seq<char>): nat
  {
    multiset(s)['(']
  }

  /** How a token changes the number of open parentheses. */
  function Depth(c: char): int
  {
    if c == '(' then 1 else if c == ')' then -1 else 0
  }

  /** Starting depth open parentheses deep, no prefix of tokens closes more parentheses than are open. */
  predicate Nested(tokens: seq<char>, depth: int)
    decreases |tokens|
  {
    depth >= 0 && (tokens == [] || Nested(tokens[1..], depth + Depth(tokens[0])))
  }

  /** Dropping a suffix without '(' leaves the open parentheses alone. */
  lemma OpensPrefix(s: seq<char>, n: nat)
    requires n <= |s| && '(' !in s[n..]
    ensures Opens(s[..n]) == Opens(s)
  {
    assert s == s[..n] + s[n..];
  }

  /** Dropping a suffix that starts with the only '(' in it closes one parenthesis. */
  lemma OpensAtParen(s: seq<char>, n: nat)
    requires n < |s| && s[n] == '(' && '(' !in s[n + 1..]
    ensures Opens(s[..n]) + 1 == Opens(s)
  {
    assert s == s[..n] + ['('] + s[n + 1..];
  }

  /** Pushing an operator keeps the stack to operators and '(' and leaves the open parentheses alone. */
  lemma OperatorStep(st: State, t: char)
    requires t in Operators && StackTokens(st.stack)
    ensures StackTokens(PopOperators(st, t).stack + [t])
    ensures Opens(PopOperators(st, t).stack + [t]) == Opens(st.stack)
  {
    PopOperatorsSpec(st, t);
    var p := PopOperators(st, t);
    var n := |p.stack|;
    assert '(' !in st.stack[n..] by {
      assert forall k :: n <= k < |st.stack| ==> st.stack[k] in Operators;
    }
    OpensPrefix(st.stack, n);
    assert multiset(p.stack + [t]) == multiset(p.stack) + multiset{t};
  }

  /** A ')' succeeds exactly while a '(' is open, and closes one. */
  lemma CloseStep(st: State)
    requires StackTokens(st.stack)
    ensures PopToParen(st).Success? <==> Opens(st.stack) > 0
    ensures PopToParen(st).Success? ==>
      StackTokens(PopToParen(st).value.stack) && Opens(PopToParen(st).value.stack) + 1 == Opens(st.stack)
  {
    PopToParenSpec(st);
    var r := PopToParen(st);
    if r.Success? {
      OpensAtParen(st.stack, |r.value.stack|);
    }
  }

  /** A token step succeeds exactly for a known token, and for ')' only while a '(' is open. */
  lemma ScanTokenSucceeds(st: State, t: char)
    requires StackTokens(st.stack)
    ensures ScanToken(st, t).Success? <==> Known(t) && (t == ')' ==> Opens(st.stack) > 0)
    ensures ScanToken(st, t).Success? ==>
      StackTokens(ScanToken(st, t).value.stack) && Opens(ScanToken(st, t).value.stack) == Opens(st.stack) + Depth(t)
  {
    if IsNumeric(t) {
      assert ScanToken(st, t) == Success(State(st.stack, st.output + [t]));
    } else if t in Operators {
      var p := PopOperators(st, t);
      assert ScanToken(st, t) == Success(State(p.stack + [t], p.output));
      OperatorStep(st, t);
      assert Depth(t) == 0 by {
        assert t != '(' && t != ')';
      }
    } else if t == '(' {
      assert ScanToken(st, t) == Success(State(st.stack + ['('], st.output));
      assert multiset(st.stack + ['(']) == multiset(st.stack) + multiset{'('};
    } else if t == ')' {
      assert ScanToken(st, t) == PopToParen(st);
      CloseStep(st);
    } else {
      assert ScanToken(st, t) == Failure(UnknownToken(t));
    }
  }

  /** The whole scan succeeds exactly when every token is known and the parentheses never close below zero. */
  lemma {:induction false} ScanSucceeds(st: State, tokens: seq<char>)
    requires StackTokens(st.stack)
    ensures Scan(st, tokens).Success? <==>
      (forall k :: 0 <= k < |tokens| ==> Known(tokens[k])) && Nested(tokens, Opens(st.stack))
    decreases |tokens|
  {
    if tokens != [] {
      ScanTokenSucceeds(st, tokens[0]);
      var step := ScanToken(st, tokens[0]);
      if step.Success? {
        ScanSucceeds(step.value, tokens[1..]);
        assert forall k :: 1 <= k < |tokens| ==> tokens[k] == tokens[1..][k - 1];
      }
    }
  }

  /** A failing scan names a token that is not known, or a ')' with no '(' to match. */
  lemma {:induction false} ScanErrors(st: State, tokens: seq<char>)
    requires Scan(st, tokens).Failure?
    ensures Scan(st, tokens).error.UnknownToken? ==>
      Scan(st, tokens).error.token in tokens && !Known(Scan(st, tokens).error.token)
    ensures Scan(st, tokens).error.IndexError? ==> ')' in tokens
    decreases |tokens|
  {
    var step := ScanToken(st, tokens[0]);
    if step.Success? {
      ScanErrors(step.value, tokens[1..]);
    } else if tokens[0] == ')' {
      PopToParenSpec(st);
    }
  }

  /** shunting_yard returns exactly when every character other than a space is a known token and the parentheses nest. */
  lemma PostfixSucceeds(input: string)
    ensures Postfix(input).Success? <==>
      var tokens := StripSpaces(input);
      (forall k :: 0 <= k < |tokens| ==> Known(tokens[k])) && Nested(tokens, 0)
    ensures Postfix(input).Failure? && Postfix(input).error.UnknownToken? ==>
      Postfix(input).error.token in input && Postfix(input).error.token != ' ' && !Known(Postfix(input).error.token)
  {
    var tokens := StripSpaces(input);
    ScanSucceeds(State([], []), tokens);
    if Scan(State([], []), tokens).Failure? {
      ScanErrors(State([], []), tokens);
      var c := Scan(State([], []), tokens).error;
      if c.UnknownToken? {
        assert multiset(tokens)[c.token] > 0;
      }
    }
  }

  /** The tokens a state holds, on the stack or in the output. */
  function Content(st: State): multiset<char>
  {
    multiset(st.output) + multiset(st.stack)
  }

  /** a and b hold the same number of every character other than a parenthesis. */
  predicate SameTokens(a: multiset<char>, b: multiset<char>)
  {
    forall c :: c != '(' && c != ')' ==> a[c] == b[c]
  }

  /** No parenthesis in s. */
  predicate NoParens(s: seq<char>)
  {
    '(' !in s && ')' !in s
  }

  lemma {:induction false} ReverseMultiset(s: seq<char>)
    ensures multiset(Reverse(s)) == multiset(s)
    decreases |s|
  {
    if s != [] {
      ReverseMultiset(s[..|s| - 1]);
      assert s == s[..|s| - 1] + [s[|s| - 1]];
    }
  }

  /** Moving the tokens above position n of a stack to the output, top first, keeps the tokens held. */
  lemma MoveToOutput(o: seq<char>, s: seq<char>, n: nat)
    requires n <= |s|
    ensures multiset(o + Reverse(s[n..])) + multiset(s[..n]) == multiset(o) + multiset(s)
  {
    assert s == s[..n] + s[n..];
    ReverseMultiset(s[n..]);
  }

  lemma MoveKeepsNoParens(o: seq<char>, x: seq<char>)
    requires NoParens(o) && NoParens(x)
    ensures NoParens(o + Reverse(x))
  {
    ReverseMultiset(x);
    assert multiset(o + Reverse(x)) == multiset(o) + multiset(x);
  }

  /** A part of the stack without '(' holds no parenthesis. */
  lemma StackSuffixNoParens(s: seq<char>, n: nat)
    requires StackTokens(s) && n <= |s| && '(' !in s[n..]
    ensures NoParens(s[n..])
  {
    assert forall c :: c in Operators ==> c != ')';
    assert forall k :: 0 <= k < |s[n..]| ==> s[n..][k] == s[n + k];
  }

  /** The tokens popped before an operator are operators themselves. */
  lemma PoppedNoParens(s: seq<char>, n: nat, t: char)
    requires t in Operators && n <= |s|
    requires forall k :: n <= k < |s| ==> PopsBefore(s[k], t)
    ensures NoParens(s[n..])
  {
    assert forall c :: c in Operators ==> c != '(' && c != ')';
    assert forall k :: 0 <= k < |s[n..]| ==> s[n..][k] in Operators;
  }

  /** Popping to an operator moves the popped tokens from the stack to the output and pushes the operator. */
  lemma OperatorContent(st: State, t: char)
    requires t in Operators && StackTokens(st.stack) && NoParens(st.output)
    ensures Content(State(PopOperators(st, t).stack + [t], PopOperators(st, t).output)) == Content(st) + multiset{t}
    ensures NoParens(PopOperators(st, t).output)
  {
    PopOperatorsSpec(st, t);
    var p := PopOperators(st, t);
    var s, n := st.stack, |p.stack|;
    MoveToOutput(st.output, s, n);
    assert multiset(p.stack + [t]) == multiset(p.stack) + multiset{t};
    PoppedNoParens(s, n, t);
    MoveKeepsNoParens(st.output, s[n..]);
  }

  /** Closing moves the tokens above the nearest '(' to the output and discards the '('. */
  lemma CloseContent(st: State)
    requires PopToParen(st).Success? && StackTokens(st.stack) && NoParens(st.output)
    ensures Content(PopToParen(st).value) + multiset{'('} == Content(st)
    ensures NoParens(PopToParen(st).value.output)
  {
    PopToParenSpec(st);
    var r := PopToParen(st).value;
    CloseMove(st.output, st.stack, |r.stack|);
  }

  /** Moving the tokens above the '(' at position n to the output and dropping the '(' keeps the other tokens. */
  lemma CloseMove(o: seq<char>, s: seq<char>, n: nat)
    requires n < |s| && s[n] == '(' && '(' !in s[n + 1..] && StackTokens(s) && NoParens(o)
    ensures multiset(o + Reverse(s[n + 1..])) + multiset(s[..n]) + multiset{'('} == multiset(o) + multiset(s)
    ensures NoParens(o + Reverse(s[n + 1..]))
  {
    MoveToOutput(o, s, n + 1);
    assert s[..n + 1] == s[..n] + ['('];
    StackSuffixNoParens(s, n + 1);
    MoveKeepsNoParens(o, s[n + 1..]);
  }

  /** A token step keeps every token it is given except parentheses, and the output free of parentheses. */
  lemma ScanTokenContent(st: State, t: char)
    requires StackTokens(st.stack) && NoParens(st.output) && ScanToken(st, t).Success?
    ensures NoParens(ScanToken(st, t).value.output)
    ensures SameTokens(Content(ScanToken(st, t).value), Content(st) + multiset{t})
  {
    var next := ScanToken(st, t).value;
    if t == ')' {
      assert NoParens(next.output) && Content(next) + multiset{'('} == Content(st) by {
        assert next == PopToParen(st).value;
        CloseContent(st);
      }
      SameAfterClose(Content(next), Content(st));
    } else {
      assert NoParens(next.output) && Content(next) == Content(st) + multiset{t} by {
        ScanTokenGrows(st, t);
      }
    }
  }

  /** A token step for anything but ')' adds the token to what the state holds. */
  lemma ScanTokenGrows(st: State, t: char)
    requires StackTokens(st.stack) && NoParens(st.output) && ScanToken(st, t).Success? && t != ')'
    ensures NoParens(ScanToken(st, t).value.output)
    ensures Content(ScanToken(st, t).value) == Content(st) + multiset{t}
  {
    var next := ScanToken(st, t).value;
    if IsNumeric(t) {
      assert NoParens(next.output) && Content(next) == Content(st) + multiset{t} by {
        assert next == State(st.stack, st.output + [t]);
      }
    } else if t in Operators {
      assert NoParens(next.output) && Content(next) == Content(st) + multiset{t} by {
        OperatorContent(st, t);
      }
    } else if t == '(' {
      assert NoParens(next.output) && Content(next) == Content(st) + multiset{t} by {
        assert next == State(st.stack + ['('], st.output);
      }
    }
  }

  lemma SameAfterClose(a: multiset<char>, b: multiset<char>)
    requires a + multiset{'('} == b
    ensures SameTokens(a, b + multiset{')'})
  {
    forall c | c != '(' && c != ')'
      ensures a[c] == (b + multiset{')'})[c]
    {
      assert b[c] == a[c] + multiset{'('}[c];
    }
  }

  /** A successful scan leaves on the stack only operators and the '(' it opened and did not close. */
  lemma {:induction false} ScanOpens(st: State, tokens: seq<char>)
    requires StackTokens(st.stack) && Scan(st, tokens).Success?
    ensures StackTokens(Scan(st, tokens).value.stack)
    ensures Opens(Scan(st, tokens).value.stack) + multiset(tokens)[')'] == Opens(st.stack) + multiset(tokens)['(']
    decreases |tokens|
  {
    if tokens != [] {
      var t := tokens[0];
      var next := ScanToken(st, t).value;
      assert Scan(st, tokens) == Scan(next, tokens[1..]);
      ScanTokenSucceeds(st, t);
      ScanOpens(next, tokens[1..]);
      assert multiset(tokens) == multiset{t} + multiset(tokens[1..]) by {
        assert tokens == [t] + tokens[1..];
      }
    }
  }

  /** A successful scan keeps every token except parentheses, and the output free of parentheses. */
  lemma {:induction false} ScanContent(st: State, tokens: seq<char>)
    requires StackTokens(st.stack) && NoParens(st.output) && Scan(st, tokens).Success?
    ensures NoParens(Scan(st, tokens).value.output)
    ensures SameTokens(Content(Scan(st, tokens).value), Content(st) + multiset(tokens))
    decreases |tokens|
  {
    if tokens != [] {
      var t := tokens[0];
      var next := ScanToken(st, t).value;
      assert Scan(st, tokens) == Scan(next, tokens[1..]);
      ScanTokenSucceeds(st, t);
      ScanTokenContent(st, t);
      ScanContent(next, tokens[1..]);
      assert multiset(tokens) == multiset{t} + multiset(tokens[1..]) by {
        assert tokens == [t] + tokens[1..];
      }
    }
  }

  /** The stack never holds a ')'. */
  lemma StackNoClose(s: seq<char>)
    requires StackTokens(s)
    ensures ')' !in s
  {
    assert forall c :: c in Operators ==> c != ')';
  }

  /** Draining the stack outputs every token the state holds; only '(' can come from the stack as a parenthesis. */
  lemma DrainContents(st: State)
    requires StackTokens(st.stack) && NoParens(st.output)
    ensures multiset(Drain(st)) == Content(st)
    ensures ')' !in Drain(st) && multiset(Drain(st))['('] == Opens(st.stack)
  {
    ReverseMultiset(st.stack);
    StackNoClose(st.stack);
    assert multiset(Drain(st)) == multiset(st.output) + multiset(Reverse(st.stack));
  }

  /**
   * On success the output holds every character of the input except spaces
   * and parentheses, as often as the input does, no ')' and one '(' for each
   * '(' left unclosed; for input whose parentheses balance it holds no
   * parenthesis at all.
   */
  lemma PostfixContents(input: string)
    requires Postfix(input).Success?
    ensures var out, m := Postfix(input).value, multiset(input);
      && SameTokens(multiset(out), m[' ' := 0])
      && ')' !in out
      && multiset(out)['('] + m[')'] == m['(']
    ensures var out, m := Postfix(input).value, multiset(input);
      m['('] == m[')'] ==> NoParens(out) && multiset(out) == m[' ' := 0]['(' := 0][')' := 0]
  {
    var tokens := StripSpaces(input);
    var st := Scan(State([], []), tokens).value;
    ScanOpens(State([], []), tokens);
    ScanContent(State([], []), tokens);
    DrainContents(st);
    var out, m := Postfix(input).value, multiset(input);
    assert out == Drain(st);
    assert Content(State([], [])) + multiset(tokens) == m[' ' := 0];
    if m['('] == m[')'] {
      OnlyTokens(multiset(out), m[' ' := 0]);
    }
  }

  /** A multiset without parentheses that has the same other tokens as m is m without its parentheses. */
  lemma OnlyTokens(a: multiset<char>, m: multiset<char>)
    requires SameTokens(a, m) && a['('] == 0 && a[')'] == 0
    ensures a == m['(' := 0][')' := 0]
  {
  }

  /** The digits of s, in order. */
  function Digits(s: seq<char>): (r: seq<char>)
    ensures forall k :: 0 <= k < |r| ==> IsNumeric(r[k])
  {
    if s == [] then [] else (if IsNumeric(s[0]) then [s[0]] else []) + Digits(s[1..])
  }

  lemma {:induction false} DigitsAppend(a: seq<char>, b: seq<char>)
    ensures Digits(a + b) == Digits(a) + Digits(b)
    decreases |a|
  {
    if a == [] {
      assert a + b == b;
    } else {
      DigitsAppend(a[1..], b);
      assert (a + b)[0] == a[0] && (a + b)[1..] == a[1..] + b;
    }
  }

  lemma {:induction false} DigitsStripSpaces(s: string)
    ensures Digits(StripSpaces(s)) == Digits(s)
    decreases |s|
  {
    if s != [] {
      DigitsStripSpaces(s[1..]);
      DigitsAppend(if s[0] == ' ' then [] else [s[0]], StripSpaces(s[1..]));
    }
  }

  /** Tokens moved from the stack to the output add no digit. */
  lemma {:induction false} MoveDigits(o: seq<char>, x: seq<char>)
    requires forall k :: 0 <= k < |x| ==> x[k] in Operators || x[k] == '('
    ensures Digits(o + Reverse(x)) == Digits(o)
    decreases |x|
  {
    if x == [] {
      assert o + Reverse(x) == o;
    } else {
      var last := x[|x| - 1];
      MoveDigits(o + [last], x[..|x| - 1]);
      assert o + Reverse(x) == (o + [last]) + Reverse(x[..|x| - 1]);
      DigitsAppend(o, [last]);
      assert !IsNumeric(last) by {
        assert forall c :: c in Operators ==> !IsNumeric(c);
      }
      assert Digits([last]) == [];
      assert Digits(o + [last]) == Digits(o) + [] == Digits(o);
    }
  }

  /** A token step appends the token to the digits of the output if it is a digit, and nothing else. */
  lemma ScanTokenDigits(st: State, t: char)
    requires StackTokens(st.stack) && ScanToken(st, t).Success?
    ensures Digits(ScanToken(st, t).value.output) == Digits(st.output) + Digits([t])
  {
    var s := st.stack;
    if IsNumeric(t) {
      DigitsAppend(st.output, [t]);
    } else if t in Operators {
      var r := PopOperators(st, t);
      assert ScanToken(st, t).value.output == r.output;
      assert Digits(r.output) == Digits(st.output) by {
        PopOperatorsSpec(st, t);
        MoveDigits(st.output, s[|r.stack|..]);
      }
    } else if t == ')' {
      var r := PopToParen(st).value;
      assert ScanToken(st, t).value.output == r.output;
      assert Digits(r.output) == Digits(st.output) by {
        PopToParenSpec(st);
        MoveDigits(st.output, s[|r.stack| + 1..]);
      }
    }
  }

  lemma {:induction false} ScanDigits(st: State, tokens: seq<char>)
    requires StackTokens(st.stack) && Scan(st, tokens).Success?
    ensures Digits(Scan(st, tokens).value.output) == Digits(st.output) + Digits(tokens)
    decreases |tokens|
  {
    if tokens != [] {
      var t := tokens[0];
      var next := ScanToken(st, t).value;
      assert Scan(st, tokens) == Scan(next, tokens[1..]);
      assert StackTokens(next.stack) && Digits(next.output) == Digits(st.output) + Digits([t]) by {
        ScanTokenSucceeds(st, t);
        ScanTokenDigits(st, t);
      }
      ScanDigits(next, tokens[1..]);
      assert Digits(tokens) == Digits([t]) + Digits(tokens[1..]) by {
        assert tokens == [t] + tokens[1..];
        DigitsAppend([t], tokens[1..]);
      }
    }
  }

  /** The digits of the input reach the output unchanged and in their order. */
  lemma PostfixDigits(input: string)
    requires Postfix(input).Success?
    ensures Digits(Postfix(input).value) == Digits(input)
  {
    var tokens := StripSpaces(input);
    var st := Scan(State([], []), tokens).value;
    ScanOpens(State([], []), tokens);
    ScanDigits(State([], []), tokens);
    MoveDigits(st.output, st.stack);
    DigitsStripSpaces(input);
  }

  /** Adjacent operators on the stack bind strictly tighter towards the top. */
  predicate Ordered(s: seq<char>)
  {
    forall k :: 0 <= k < |s| - 1 && s[k] in Operators && s[k + 1] in Operators ==>
      Operators[s[k]].precedence < Operators[s[k + 1]].precedence
  }

  lemma OrderedPrefix(s: seq<char>, n: nat)
    requires Ordered(s) && n <= |s|
    ensures Ordered(s[..n])
  {
    assert forall k :: 0 <= k < n ==> s[..n][k] == s[k];
  }

  /**
   * An operator is pushed onto a stack whose top it does not pop: as every
   * operator is left-associative, that top is '(' or an operator of lower
   * precedence.
   */
  lemma OrderedPush(s: seq<char>, t: char)
    requires Ordered(s) && t in Operators && (s == [] || !PopsBefore(s[|s| - 1], t))
    ensures Ordered(s + [t])
  {
    assert forall c :: c in Operators ==> Operators[c].associativity == LEFT;
    assert forall k :: 0 <= k < |s| ==> (s + [t])[k] == s[k];
  }

  lemma ScanTokenOrdered(st: State, t: char)
    requires Ordered(st.stack) && ScanToken(st, t).Success?
    ensures Ordered(ScanToken(st, t).value.stack)
  {
    if IsNumeric(t) {
    } else if t in Operators {
      PopOperatorsSpec(st, t);
      var p := PopOperators(st, t);
      OrderedPrefix(st.stack, |p.stack|);
      OrderedPush(p.stack, t);
    } else if t == '(' {
      assert forall k :: 0 <= k < |st.stack| ==> (st.stack + ['('])[k] == st.stack[k];
    } else {
      PopToParenSpec(st);
      OrderedPrefix(st.stack, |PopToParen(st).value.stack|);
    }
  }

  /** The operator stack stays ordered by precedence through a whole scan. */
  lemma {:induction false} ScanOrdered(st: State, tokens: seq<char>)
    requires Ordered(st.stack) && Scan(st, tokens).Success?
    ensures Ordered(Scan(st, tokens).value.stack)
    decreases |tokens|
  {
    if tokens != [] {
      var next := ScanToken(st, tokens[0]).value;
      ScanTokenOrdered(st, tokens[0]);
      ScanOrdered(next, tokens[1..]);
    }
  }

  /** With the table as given, an operator pops exactly the stacked operators that bind at least as tightly. */
  lemma PopsBeforeTable(top: char, op: char)
    requires op in Operators
    ensures PopsBefore(top, op) <==> top in Operators && Operators[top].precedence >= Operators[op].precedence
    ensures op in "*/" <==> Operators[op].precedence == 3
    ensures op in "+-" <==> Operators[op].precedence == 2
  {
  }

  /** A digit at position k goes straight to the output. */
  lemma DigitAt(st: State, tokens: seq<char>, k: nat)
    requires k < |tokens| && IsNumeric(tokens[k])
    ensures Scan(st, tokens[k..]) == Scan(State(st.stack, st.output + [tokens[k]]), tokens[k + 1..])
  {
    assert ScanToken(st, tokens[k]) == Success(State(st.stack, st.output + [tokens[k]]));
    ScanAt(st, tokens, k);
  }

  /** A '(' at position k is pushed. */
  lemma OpenAt(st: State, tokens: seq<char>, k: nat)
    requires k < |tokens| && tokens[k] == '('
    ensures Scan(st, tokens[k..]) == Scan(State(st.stack + ['('], st.output), tokens[k + 1..])
  {
    assert ScanToken(st, tokens[k]) == Success(State(st.stack + ['('], st.output));
    ScanAt(st, tokens, k);
  }

  /** An operator at position k that pops nothing is pushed. */
  lemma PushAt(st: State, tokens: seq<char>, k: nat)
    requires k < |tokens| && tokens[k] in Operators
    requires st.stack == [] || !PopsBefore(st.stack[|st.stack| - 1], tokens[k])
    ensures Scan(st, tokens[k..]) == Scan(State(st.stack + [tokens[k]], st.output), tokens[k + 1..])
  {
    assert !IsNumeric(tokens[k]) by {
      assert forall c :: c in Operators ==> !IsNumeric(c);
    }
    assert PopOperators(st, tokens[k]) == st;
    assert ScanToken(st, tokens[k]) == Success(State(st.stack + [tokens[k]], st.output));
    ScanAt(st, tokens, k);
  }

  /** An operator at position k that pops exactly the top of the stack replaces it. */
  lemma PopPushAt(st: State, tokens: seq<char>, k: nat)
    requires k < |tokens| && tokens[k] in Operators
    requires |st.stack| > 0 && PopsBefore(st.stack[|st.stack| - 1], tokens[k])
    requires |st.stack| == 1 || !PopsBefore(st.stack[|st.stack| - 2], tokens[k])
    ensures Scan(st, tokens[k..]) ==
      Scan(State(st.stack[..|st.stack| - 1] + [tokens[k]], st.output + [st.stack[|st.stack| - 1]]), tokens[k + 1..])
  {
    var s, op := st.stack, tokens[k];
    var popped := State(s[..|s| - 1], st.output + [s[|s| - 1]]);
    assert PopOperators(st, op) == popped by {
      assert PopOperators(popped, op) == popped;
    }
    assert ScanToken(st, op) == Success(State(popped.stack + [op], popped.output)) by {
      assert !IsNumeric(op) by {
        assert forall c :: c in Operators ==> !IsNumeric(c);
      }
    }
    ScanAt(st, tokens, k);
  }

  /** A ')' at position k with two operators above the nearest '(' pops both and the '('. */
  lemma CloseTwoAt(st: State, tokens: seq<char>, k: nat)
    requires k < |tokens| && tokens[k] == ')'
    requires |st.stack| >= 3 && st.stack[|st.stack| - 3] == '('
    requires st.stack[|st.stack| - 1] != '(' && st.stack[|st.stack| - 2] != '('
    ensures Scan(st, tokens[k..]) ==
      Scan(State(st.stack[..|st.stack| - 3], st.output + [st.stack[|st.stack| - 1], st.stack[|st.stack| - 2]]), tokens[k + 1..])
  {
    var s, n := st.stack, |st.stack|;
    var st1 := State(s[..n - 1], st.output + [s[n - 1]]);
    var st2 := State(st1.stack[..n - 2], st1.output + [st1.stack[n - 2]]);
    assert st2.stack[n - 3] == '(';
    var st3 := State(st2.stack[..n - 3], st2.output);
    assert PopToParen(st2) == Success(st3);
    assert PopToParen(st1) == PopToParen(st2);
    assert PopToParen(st) == PopToParen(st1);
    assert st3 == State(s[..n - 3], st.output + [s[n - 1], s[n - 2]]);
    assert ScanToken(st, tokens[k]) == Success(st3);
    ScanAt(st, tokens, k);
  }

  /** Scanning a + b scans a, then b from where a left off. */
  lemma {:induction false} ScanAppend(st: State, a: seq<char>, b: seq<char>)
    requires Scan(st, a).Success?
    ensures Scan(st, a + b) == Scan(Scan(st, a).value, b)
    decreases |a|
  {
    if a == [] {
      assert a + b == b;
    } else {
      var next := ScanToken(st, a[0]).value;
      assert (a + b)[0] == a[0] && (a + b)[1..] == a[1..] + b;
      ScanAppend(next, a[1..], b);
    }
  }

  /** The first example: 4*(7+8*9)-1 becomes 4 7 8 9 * + * 1 -. */
  lemma Example()
    ensures Rpn("4*(7+8*9)-1") == Success("4 7 8 9 * + * 1 -")
  {
    ExamplePostfix();
    ExampleJoin();
  }

  lemma ExamplePostfix()
    ensures Postfix("4*(7+8*9)-1") == Success("4789*+*1-")
  {
    ExampleScan();
    ExampleNoSpaces();
    ExampleDrain();
  }

  lemma ExampleNoSpaces()
    ensures StripSpaces("4*(7+8*9)-1") == "4*(7+8*9)-1"
  {
    StripSpacesKeeps("4*(7+8*9)-1");
  }

  lemma ExampleDrain()
    ensures Drain(State("-", "4789*+*1")) == "4789*+*1-"
  {
    var r := Reverse("-");
    assert |r| == 1 && r[0] == '-';
    assert Drain(State("-", "4789*+*1")) == "4789*+*1" + "-";
  }

  /** Joining the output of the first example. */
  lemma ExampleJoin()
    ensures Join("4789*+*1-") == "4 7 8 9 * + * 1 -"
  {
    var out, j, expected := "4789*+*1-", Join("4789*+*1-"), "4 7 8 9 * + * 1 -";
    forall k | 0 <= k < 17
      ensures j[k] == expected[k]
    {
      if k % 2 == 0 {
        assert j[2 * (k / 2)] == out[k / 2];
      } else {
        assert j[2 * (k / 2) + 1] == ' ';
      }
    }
  }

  /** The scan of the first example, in five parts. */
  lemma ExampleScan()
    ensures Scan(State([], []), "4*(7+8*9)-1") == Success(State("-", "4789*+*1"))
  {
    var st0 := State([], []);
    ExampleOpen();
    ExampleSum();
    ExampleProduct();
    ExampleClose();
    ExampleLast();
    ScanAppend(st0, "4*(", "7+8*9)-1");
    ScanAppend(State("*(", "4"), "7+8", "*9)-1");
    ScanAppend(State("*(+", "478"), "*9", ")-1");
    ScanAppend(State("*(+*", "4789"), ")", "-1");
    ExampleTokens();
  }

  /** How the first example splits into the five parts. */
  lemma ExampleTokens()
    ensures "4*(" + "7+8*9)-1" == "4*(7+8*9)-1"
    ensures "7+8" + "*9)-1" == "7+8*9)-1"
    ensures "*9" + ")-1" == "*9)-1"
    ensures ")" + "-1" == ")-1"
  {
  }

  lemma ExampleOpen()
    ensures Scan(State([], []), "4*(") == Success(State("*(", "4"))
  {
    var t := "4*(";
    var st0 := State([], []);
    DigitAt(st0, t, 0);
    var st1 := State(st0.stack, st0.output + [t[0]]);
    PushAt(st1, t, 1);
    var st2 := State(st1.stack + [t[1]], st1.output);
    OpenAt(st2, t, 2);
    var st3 := State(st2.stack + ['('], st2.output);
    assert t[3..] == [] && t[0..] == t;
    assert st3 == State("*(", "4");
  }

  lemma ExampleSum()
    ensures Scan(State("*(", "4"), "7+8") == Success(State("*(+", "478"))
  {
    var t := "7+8";
    var st0 := State("*(", "4");
    DigitAt(st0, t, 0);
    var st1 := State(st0.stack, st0.output + [t[0]]);
    PushAt(st1, t, 1);
    var st2 := State(st1.stack + [t[1]], st1.output);
    DigitAt(st2, t, 2);
    var st3 := State(st2.stack, st2.output + [t[2]]);
    assert t[3..] == [] && t[0..] == t;
    assert st3 == State("*(+", "478");
  }

  lemma ExampleProduct()
    ensures Scan(State("*(+", "478"), "*9") == Success(State("*(+*", "4789"))
  {
    var t := "*9";
    var st0 := State("*(+", "478");
    PushAt(st0, t, 0);
    var st1 := State(st0.stack + [t[0]], st0.output);
    DigitAt(st1, t, 1);
    var st2 := State(st1.stack, st1.output + [t[1]]);
    assert t[2..] == [] && t[0..] == t;
    assert st2 == State("*(+*", "4789");
  }

  lemma ExampleClose()
    ensures Scan(State("*(+*", "4789"), ")") == Success(State("*", "4789*+"))
  {
    var t := ")";
    var st0 := State("*(+*", "4789");
    CloseTwoAt(st0, t, 0);
    assert t[1..] == [] && t[0..] == t;
    assert State(st0.stack[..1], st0.output + [st0.stack[3], st0.stack[2]]) == State("*", "4789*+");
  }

  lemma ExampleLast()
    ensures Scan(State("*", "4789*+"), "-1") == Success(State("-", "4789*+*1"))
  {
    var t := "-1";
    var st0 := State("*", "4789*+");
    PopPushAt(st0, t, 0);
    var st1 := State(st0.stack[..0] + [t[0]], st0.output + [st0.stack[0]]);
    DigitAt(st1, t, 1);
    var st2 := State(st1.stack, st1.output + [t[1]]);
    assert t[2..] == [] && t[0..] == t;
    assert st2 == State("-", "4789*+*1");
  }
}
