/** Dijkstra's shunting-yard algorithm: infix tokens to postfix (RPN) order.
    The output list and the operator stack are sequences; the stack's top is
    its LAST element. Each helper is a method that takes the two sequences and
    returns their new values, proved equal to a function that specifies it;
    the properties of the algorithm are lemmas about those functions. */
module ShuntingYard {
  import opened Errors
  import opened Operators
  import opened Tokenizer

  /** What the operator stack may hold: operator symbols and `"("`. */
  predicate IsStackEntry(t: string) {
    t == "(" || IsOperatorSymbol(t)
  }

  /** Parentheses are no operator symbols. */
  lemma ParenthesesAreNoOperators()
    ensures !IsOperatorSymbol("(") && !IsOperatorSymbol(")")
  {
  }

  predicate StackOk(stack: seq<string>) {
    forall i :: 0 <= i < |stack| ==> IsStackEntry(stack[i])
  }

  /** What the output may hold: variables and operator symbols. */
  predicate IsOutputEntry(t: string) {
    IsVariable(t) || IsOperatorSymbol(t)
  }

  function Top(stack: seq<string>): string
    requires stack != []
  {
    stack[|stack| - 1]
  }

  function Pop(stack: seq<string>): seq<string>
    requires stack != []
  {
    stack[..|stack| - 1]
  }

  /** The order in which a run of stack entries is popped. */
  function Reversed(s: seq<string>): (r: seq<string>)
    ensures |r| == |s|
    ensures forall i :: 0 <= i < |s| ==> r[i] == s[|s| - 1 - i]
  {
    if s == [] then [] else [s[|s| - 1]] + Reversed(s[..|s| - 1])
  }

  /** Popping a segment that reaches the top gives the top first. */
  lemma PoppedSegment(stack: seq<string>, k: nat)
    requires stack != [] && k <= |Pop(stack)|
    ensures stack[k..] == Pop(stack)[k..] + [Top(stack)]
    ensures Reversed(stack[k..]) == [Top(stack)] + Reversed(Pop(stack)[k..])
  {
    assert stack[k..] == Pop(stack)[k..] + [Top(stack)];
    assert stack[k..][..|stack[k..]| - 1] == Pop(stack)[k..];
  }

  /** The pop test: the top binds tighter, or as tight and groups to the left. */
  predicate PopsBefore(top: Operator, current: Operator) {
    top.Precedence() > current.Precedence() ||
    (top.Precedence() == current.Precedence() && top.Assoc() == Left)
  }

  /** Pops operators to the output while they pass the pop test against
      `current`; stops at `"("`, at an operator that fails it, or at the
      bottom. */
  function PopOperators(current: Operator, output: seq<string>, stack: seq<string>): (res: (seq<string>, seq<string>))
    requires StackOk(stack)
    ensures |res.1| <= |stack| && res.1 == stack[..|res.1|]
    ensures res.0 == output + Reversed(stack[|res.1|..])
    ensures forall i :: |res.1| <= i < |stack| ==>
      IsOperatorSymbol(stack[i]) && PopsBefore(FromSymbol(stack[i]).value, current)
    ensures res.1 == [] || Top(res.1) == "(" || !PopsBefore(FromSymbol(Top(res.1)).value, current)
    decreases |stack|
  {
    if stack != [] && IsOperatorSymbol(Top(stack)) && PopsBefore(FromSymbol(Top(stack)).value, current) then
      var res := PopOperators(current, output + [Top(stack)], Pop(stack));
      PopOneMore(current, output, stack, res);
      res
    else
      assert stack[|stack|..] == [];
      (output, stack)
  }

  /** What popping from `Pop(stack)` after moving the top says about popping
      from `stack`. */
  lemma PopOneMore(current: Operator, output: seq<string>, stack: seq<string>, res: (seq<string>, seq<string>))
    requires stack != [] && IsOperatorSymbol(Top(stack)) && PopsBefore(FromSymbol(Top(stack)).value, current)
    requires |res.1| <= |Pop(stack)| && res.1 == Pop(stack)[..|res.1|]
    requires res.0 == output + [Top(stack)] + Reversed(Pop(stack)[|res.1|..])
    requires forall i :: |res.1| <= i < |Pop(stack)| ==>
      IsOperatorSymbol(Pop(stack)[i]) && PopsBefore(FromSymbol(Pop(stack)[i]).value, current)
    ensures |res.1| <= |stack| && res.1 == stack[..|res.1|]
    ensures res.0 == output + Reversed(stack[|res.1|..])
    ensures forall i :: |res.1| <= i < |stack| ==>
      IsOperatorSymbol(stack[i]) && PopsBefore(FromSymbol(stack[i]).value, current)
  {
    PoppedSegment(stack, |res.1|);
    forall i | |res.1| <= i < |stack|
      ensures IsOperatorSymbol(stack[i]) && PopsBefore(FromSymbol(stack[i]).value, current)
    {
      if i < |stack| - 1 {
        assert stack[i] == Pop(stack)[i];
      }
    }
  }

  /** `handleOperatorToken` as a function: pop, then push the operator. */
  function OperatorStep(token: string, output: seq<string>, stack: seq<string>): (res: (seq<string>, seq<string>))
    requires IsOperatorSymbol(token) && StackOk(stack)
    ensures StackOk(res.1)
  {
    var popped := PopOperators(FromSymbol(token).value, output, stack);
    (popped.0, popped.1 + [token])
  }

  method HandleOperatorToken(token: string, output: seq<string>, stack: seq<string>)
    returns (output': seq<string>, stack': seq<string>)
    requires IsOperatorSymbol(token) && StackOk(stack)
    ensures (output', stack') == OperatorStep(token, output, stack)
  {
    var currentOp := FromSymbol(token).value;
    output', stack' := output, stack;
    while stack' != [] && IsOperatorSymbol(Top(stack'))
      invariant StackOk(stack')
      invariant PopOperators(currentOp, output', stack') == PopOperators(currentOp, output, stack)
      decreases |stack'|
    {
      var topOp := FromSymbol(Top(stack')).value;
      if PopsBefore(topOp, currentOp) {
        output' := output' + [Top(stack')];
        stack' := Pop(stack');
      } else {
        break;
      }
    }
    stack' := stack' + [token];
  }

  /** `handleRightParenthesis` as a function: pop to the output down to the
      nearest `"("`, which is discarded. */
  function CloseParenthesis(output: seq<string>, stack: seq<string>): (r: Result<(seq<string>, seq<string>)>)
    ensures r.Ok? <==> "(" in stack
    ensures r.Err? ==> r.error == MismatchedParentheses
    ensures r.Ok? ==>
      var k := |r.value.1|;
      k < |stack| && stack[k] == "(" && r.value.1 == stack[..k] && "(" !in stack[k + 1..] &&
      r.value.0 == output + Reversed(stack[k + 1..])
    decreases |stack|
  {
    if stack == [] then Err(MismatchedParentheses)
    else if Top(stack) == "(" then
      assert stack[|stack|..] == [];
      Ok((output, Pop(stack)))
    else
      assert stack == Pop(stack) + [Top(stack)];
      var r := CloseParenthesis(output + [Top(stack)], Pop(stack));
      if r.Ok? then
        CloseOneMore(output, stack, r.value);
        r
      else r
  }

  /** What closing on `Pop(stack)` after moving a top other than `"("` says
      about closing on `stack`. */
  lemma CloseOneMore(output: seq<string>, stack: seq<string>, res: (seq<string>, seq<string>))
    requires stack != [] && Top(stack) != "("
    requires var k := |res.1|;
      k < |Pop(stack)| && Pop(stack)[k] == "(" && res.1 == Pop(stack)[..k] && "(" !in Pop(stack)[k + 1..] &&
      res.0 == output + [Top(stack)] + Reversed(Pop(stack)[k + 1..])
    ensures var k := |res.1|;
      k < |stack| && stack[k] == "(" && res.1 == stack[..k] && "(" !in stack[k + 1..] &&
      res.0 == output + Reversed(stack[k + 1..])
  {
    var k := |res.1|;
    assert stack[k] == Pop(stack)[k];
    assert res.1 == stack[..k];
    PoppedSegment(stack, k + 1);
    assert output + [Top(stack)] + Reversed(Pop(stack)[k + 1..]) == output + ([Top(stack)] + Reversed(Pop(stack)[k + 1..]));
  }

  method HandleRightParenthesis(output: seq<string>, stack: seq<string>) returns (r: Result<(seq<string>, seq<string>)>)
    ensures r == CloseParenthesis(output, stack)
  {
    var output', stack' := output, stack;
    while stack' != [] && Top(stack') != "("
      invariant CloseParenthesis(output', stack') == CloseParenthesis(output, stack)
      decreases |stack'|
    {
      output' := output' + [Top(stack')];
      stack' := Pop(stack');
    }
    if stack' == [] {
      return Err(MismatchedParentheses);
    }
    stack' := Pop(stack');
    return Ok((output', stack'));
  }

  /** `drainOperatorStack` as a function: the remaining operators, top first;
      a `"("` left on the stack was never closed. */
  function Drained(output: seq<string>, stack: seq<string>): (r: Result<seq<string>>)
    requires StackOk(stack)
    ensures r.Ok? <==> "(" !in stack
    ensures r.Ok? ==> r.value == output + Reversed(stack)
    ensures r.Err? ==> r.error == MismatchedParentheses
    decreases |stack|
  {
    if stack == [] then Ok(output)
    else if Top(stack) == "(" then Err(MismatchedParentheses)
    else
      assert stack == Pop(stack) + [Top(stack)];
      Drained(output + [Top(stack)], Pop(stack))
  }

  method DrainOperatorStack(output: seq<string>, stack: seq<string>) returns (r: Result<seq<string>>)
    requires StackOk(stack)
    ensures r == Drained(output, stack)
  {
    var output', stack' := output, stack;
    while stack' != []
      invariant StackOk(stack')
      invariant Drained(output', stack') == Drained(output, stack)
      decreases |stack'|
    {
      var top := Top(stack');
      stack' := Pop(stack');
      if top == "(" {
        return Err(MismatchedParentheses);
      }
      // the non-operator branch of the source cannot be taken
      assert IsOperatorSymbol(top);
      output' := output' + [top];
    }
    return Ok(output');
  }

  /** The parse loop from the front of `tokens`, with the output and stack
      built so far. */
  function ParseFrom(tokens: seq<string>, output: seq<string>, stack: seq<string>): (r: Result<seq<string>>)
    requires StackOk(stack)
    ensures r.Err? ==> r.error == UnexpectedToken || r.error == MismatchedParentheses
    decreases |tokens|
  {
    if tokens == [] then Drained(output, stack)
    else
      var token := tokens[0];
      if IsVariable(token) then ParseFrom(tokens[1..], output + [token], stack)
      else if IsOperatorSymbol(token) then
        var step := OperatorStep(token, output, stack);
        ParseFrom(tokens[1..], step.0, step.1)
      else if token == "(" then ParseFrom(tokens[1..], output, stack + [token])
      else if token == ")" then
        var close :- CloseParenthesis(output, stack);
        assert StackOk(close.1) by {
          assert close.1 == stack[..|close.1|];
        }
        ParseFrom(tokens[1..], close.0, close.1)
      else Err(UnexpectedToken)
  }

  /** One step of the scan on an operator token. */
  lemma ParseOperator(tokens: seq<string>, output: seq<string>, stack: seq<string>)
    requires StackOk(stack) && tokens != [] && IsOperatorSymbol(tokens[0])
    ensures var step := OperatorStep(tokens[0], output, stack);
      ParseFrom(tokens, output, stack) == ParseFrom(tokens[1..], step.0, step.1)
  {
    OperatorIsNoVariable(tokens[0]);
  }

  /** One step of the scan on a closing parenthesis that has a match. */
  lemma ParseClose(tokens: seq<string>, output: seq<string>, stack: seq<string>)
    requires StackOk(stack) && tokens != [] && tokens[0] == ")" && CloseParenthesis(output, stack).Ok?
    ensures StackOk(CloseParenthesis(output, stack).value.1)
    ensures var close := CloseParenthesis(output, stack).value;
      ParseFrom(tokens, output, stack) == ParseFrom(tokens[1..], close.0, close.1)
  {
    ParenthesesAreNoOperators();
    var s := CloseParenthesis(output, stack).value.1;
    assert s == stack[..|s|];
  }

  /** `parse`: infix tokens to postfix order. */
  method Parse(tokens: seq<string>) returns (r: Result<seq<string>>)
    ensures r == ParseFrom(tokens, [], [])
  {
    var outputQueue: seq<string> := [];
    var operatorStack: seq<string> := [];
    for i := 0 to |tokens|
      invariant StackOk(operatorStack)
      invariant ParseFrom(tokens[i..], outputQueue, operatorStack) == ParseFrom(tokens, [], [])
    {
      var token := tokens[i];
      assert tokens[i..][1..] == tokens[i + 1..];
      if IsVariable(token) {
        outputQueue := outputQueue + [token];
      } else if IsOperatorSymbol(token) {
        outputQueue, operatorStack := HandleOperatorToken(token, outputQueue, operatorStack);
      } else if token == "(" {
        operatorStack := operatorStack + [token];
      } else if token == ")" {
        ghost var before := operatorStack;
        var res := HandleRightParenthesis(outputQueue, operatorStack);
        if res.Err? {
          return res.PropagateFailure();
        }
        outputQueue, operatorStack := res.value.0, res.value.1;
        assert operatorStack == before[..|operatorStack|];
      } else {
        return Err(UnexpectedToken);
      }
    }
    r := DrainOperatorStack(outputQueue, operatorStack);
  }

  predicate AllOutputEntries(s: seq<string>) {
    forall i :: 0 <= i < |s| ==> IsOutputEntry(s[i])
  }

  /** Entries popped from the stack, other than `"("`, are operators. */
  lemma PoppedAreOperators(stack: seq<string>, lo: nat)
    requires StackOk(stack) && lo <= |stack| && "(" !in stack[lo..]
    ensures AllOutputEntries(Reversed(stack[lo..]))
  {
    ParenthesesAreNoOperators();
    var seg := stack[lo..];
    forall i | 0 <= i < |seg|
      ensures IsOperatorSymbol(seg[i])
    {
      assert seg[i] == stack[lo + i];
    }
  }

  /** The output only ever receives variables and operators, never a
      parenthesis. */
  lemma {:induction false} ParseOutputHasNoParentheses(tokens: seq<string>, output: seq<string>, stack: seq<string>)
    requires StackOk(stack) && AllOutputEntries(output)
    requires ParseFrom(tokens, output, stack).Ok?
    ensures AllOutputEntries(ParseFrom(tokens, output, stack).value)
    ensures "(" !in ParseFrom(tokens, output, stack).value && ")" !in ParseFrom(tokens, output, stack).value
    decreases |tokens|
  {
    ParenthesesAreNoOperators();
    var r := ParseFrom(tokens, output, stack).value;
    if tokens == [] {
      PoppedAreOperators(stack, 0);
      assert stack[0..] == stack;
    } else {
      var token := tokens[0];
      if IsVariable(token) {
        ParseOutputHasNoParentheses(tokens[1..], output + [token], stack);
      } else if IsOperatorSymbol(token) {
        var step := OperatorStep(token, output, stack);
        ParseOperator(tokens, output, stack);
        ParseOutputHasNoParentheses(tokens[1..], step.0, step.1);
      } else if token == "(" {
        ParseOutputHasNoParentheses(tokens[1..], output, stack + [token]);
      } else {
        var closed := CloseParenthesis(output, stack).value;
        PoppedAreOperators(stack, |closed.1| + 1);
        ParseClose(tokens, output, stack);
        ParseOutputHasNoParentheses(tokens[1..], closed.0, closed.1);
      }
    }
    assert forall i :: 0 <= i < |r| ==> r[i] != "(" && r[i] != ")";
  }

  /** The variables of a token sequence, in order. */
  function Variables(s: seq<string>): (r: seq<string>)
    ensures forall i :: 0 <= i < |r| ==> IsVariable(r[i])
  {
    if s == [] then [] else (if IsVariable(s[0]) then [s[0]] else []) + Variables(s[1..])
  }

  lemma {:induction false} VariablesOfConcat(a: seq<string>, b: seq<string>)
    ensures Variables(a + b) == Variables(a) + Variables(b)
    decreases |a|
  {
    if a == [] {
      assert a + b == b;
    } else {
      assert (a + b)[1..] == a[1..] + b;
      VariablesOfConcat(a[1..], b);
    }
  }

  lemma {:induction false} NoVariables(s: seq<string>)
    requires forall i :: 0 <= i < |s| ==> !IsVariable(s[i])
    ensures Variables(s) == []
    decreases |s|
  {
    if s != [] {
      NoVariables(s[1..]);
    }
  }

  /** What leaves the stack holds no variable. */
  lemma PoppedHoldNoVariables(stack: seq<string>, lo: nat)
    requires StackOk(stack) && lo <= |stack|
    ensures Variables(Reversed(stack[lo..])) == []
  {
    ParenthesesAreNoOperators();
    var seg := Reversed(stack[lo..]);
    forall i | 0 <= i < |seg|
      ensures !IsVariable(seg[i])
    {
      assert seg[i] == stack[|stack| - 1 - i];
      if IsOperatorSymbol(seg[i]) {
        OperatorIsNoVariable(seg[i]);
      }
    }
    NoVariables(seg);
  }

  /** Handling an operator sends no variable to the output. */
  lemma OperatorStepVariables(token: string, output: seq<string>, stack: seq<string>)
    requires IsOperatorSymbol(token) && StackOk(stack)
    ensures Variables(OperatorStep(token, output, stack).0) == Variables(output)
  {
    ParenthesesAreNoOperators();
    var s := PopOperators(FromSymbol(token).value, output, stack).1;
    PoppedHoldNoVariables(stack, |s|);
    VariablesOfConcat(output, Reversed(stack[|s|..]));
  }

  /** Closing a parenthesis sends no variable to the output. */
  lemma CloseParenthesisVariables(output: seq<string>, stack: seq<string>)
    requires StackOk(stack) && CloseParenthesis(output, stack).Ok?
    ensures Variables(CloseParenthesis(output, stack).value.0) == Variables(output)
  {
    ParenthesesAreNoOperators();
    var s := CloseParenthesis(output, stack).value.1;
    PoppedHoldNoVariables(stack, |s| + 1);
    VariablesOfConcat(output, Reversed(stack[|s| + 1..]));
  }

  /** Variables reach the output directly, so they keep their input order. */
  lemma {:induction false} ParseKeepsVariableOrder(tokens: seq<string>, output: seq<string>, stack: seq<string>)
    requires StackOk(stack)
    requires ParseFrom(tokens, output, stack).Ok?
    ensures Variables(ParseFrom(tokens, output, stack).value) == Variables(output) + Variables(tokens)
    decreases |tokens|, 1
  {
    if tokens == [] {
      ParenthesesAreNoOperators();
      PoppedHoldNoVariables(stack, 0);
      assert stack[0..] == stack;
      VariablesOfConcat(output, Reversed(stack));
    } else if IsOperatorSymbol(tokens[0]) {
      OperatorKeepsVariableOrder(tokens, output, stack);
    } else if tokens[0] == ")" {
      CloseKeepsVariableOrder(tokens, output, stack);
    } else {
      OtherKeepsVariableOrder(tokens, output, stack);
    }
  }

  /** The variable and opening-parenthesis cases of `ParseKeepsVariableOrder`. */
  lemma {:induction false} OtherKeepsVariableOrder(tokens: seq<string>, output: seq<string>, stack: seq<string>)
    requires StackOk(stack) && tokens != [] && !IsOperatorSymbol(tokens[0]) && tokens[0] != ")"
    requires ParseFrom(tokens, output, stack).Ok?
    ensures Variables(ParseFrom(tokens, output, stack).value) == Variables(output) + Variables(tokens)
    decreases |tokens|, 0
  {
    var token, rest := tokens[0], tokens[1..];
    if IsVariable(token) {
      assert Variables(tokens) == [token] + Variables(rest);
      ParseKeepsVariableOrder(rest, output + [token], stack);
      VariablesOfConcat(output, [token]);
    } else {
      ParenthesesAreNoOperators();
      assert Variables(tokens) == Variables(rest);
      ParseKeepsVariableOrder(rest, output, stack + [token]);
    }
  }

  /** The operator case of `ParseKeepsVariableOrder`. */
  lemma {:induction false} OperatorKeepsVariableOrder(tokens: seq<string>, output: seq<string>, stack: seq<string>)
    requires StackOk(stack) && tokens != [] && IsOperatorSymbol(tokens[0])
    requires ParseFrom(tokens, output, stack).Ok?
    ensures Variables(ParseFrom(tokens, output, stack).value) == Variables(output) + Variables(tokens)
    decreases |tokens|, 0
  {
    var token, rest := tokens[0], tokens[1..];
    OperatorIsNoVariable(token);
    assert Variables(tokens) == Variables(rest);
    var step := OperatorStep(token, output, stack);
    ParseOperator(tokens, output, stack);
    ParseKeepsVariableOrder(rest, step.0, step.1);
    OperatorStepVariables(token, output, stack);
  }

  /** The closing-parenthesis case of `ParseKeepsVariableOrder`. */
  lemma {:induction false} CloseKeepsVariableOrder(tokens: seq<string>, output: seq<string>, stack: seq<string>)
    requires StackOk(stack) && tokens != [] && tokens[0] == ")"
    requires ParseFrom(tokens, output, stack).Ok?
    ensures Variables(ParseFrom(tokens, output, stack).value) == Variables(output) + Variables(tokens)
    decreases |tokens|, 0
  {
    var rest := tokens[1..];
    ParenthesesAreNoOperators();
    assert Variables(tokens) == Variables(rest);
    var close := CloseParenthesis(output, stack).value;
    ParseClose(tokens, output, stack);
    ParseKeepsVariableOrder(rest, close.0, close.1);
    CloseParenthesisVariables(output, stack);
  }

  /** How often `t` occurs in `s`. */
  function Count(s: seq<string>, t: string): nat {
    if s == [] then 0 else (if s[0] == t then 1 else 0) + Count(s[1..], t)
  }

  lemma {:induction false} CountOfConcat(a: seq<string>, b: seq<string>, t: string)
    ensures Count(a + b, t) == Count(a, t) + Count(b, t)
    decreases |a|
  {
    if a == [] {
      assert a + b == b;
    } else {
      assert (a + b)[1..] == a[1..] + b;
      CountOfConcat(a[1..], b, t);
    }
  }

  lemma {:induction false} CountAbsent(s: seq<string>, t: string)
    requires t !in s
    ensures Count(s, t) == 0
    decreases |s|
  {
    if s != [] {
      assert t !in s[1..];
      CountAbsent(s[1..], t);
    }
  }

  lemma {:induction false} CountReversed(s: seq<string>, t: string)
    ensures Count(Reversed(s), t) == Count(s, t)
    decreases |s|
  {
    if s != [] {
      var init, last := s[..|s| - 1], s[|s| - 1];
      CountReversed(init, t);
      assert Reversed(s) == [last] + Reversed(init);
      CountOfConcat([last], Reversed(init), t);
      assert s == init + [last];
      CountOfConcat(init, [last], t);
    }
  }

  /** Popping `stack[lo..]` to the output moves each of its entries from the
      stack to the output. */
  lemma MovePopped(output: seq<string>, stack: seq<string>, lo: nat, t: string)
    requires lo <= |stack|
    ensures Count(output + Reversed(stack[lo..]), t) + Count(stack[..lo], t) == Count(output, t) + Count(stack, t)
  {
    assert stack == stack[..lo] + stack[lo..];
    CountOfConcat(stack[..lo], stack[lo..], t);
    CountOfConcat(output, Reversed(stack[lo..]), t);
    CountReversed(stack[lo..], t);
  }

  /** Handling an operator moves popped entries from the stack to the
      output and pushes the operator. */
  lemma OperatorStepCount(token: string, output: seq<string>, stack: seq<string>, t: string)
    requires IsOperatorSymbol(token) && StackOk(stack)
    ensures Count(OperatorStep(token, output, stack).0, t) + Count(OperatorStep(token, output, stack).1, t)
      == Count(output, t) + Count(stack, t) + Count([token], t)
  {
    ParenthesesAreNoOperators();
    var s := PopOperators(FromSymbol(token).value, output, stack).1;
    MovePopped(output, stack, |s|, t);
    CountOfConcat(s, [token], t);
  }

  /** Closing a parenthesis moves popped entries from the stack to the
      output and drops the `"("`. */
  lemma CloseParenthesisCount(output: seq<string>, stack: seq<string>, t: string)
    requires CloseParenthesis(output, stack).Ok? && t != "("
    ensures Count(CloseParenthesis(output, stack).value.0, t) + Count(CloseParenthesis(output, stack).value.1, t)
      == Count(output, t) + Count(stack, t)
  {
    ParenthesesAreNoOperators();
    var r := CloseParenthesis(output, stack).value;
    var k := |r.1|;
    MovePopped(output, stack, k + 1, t);
    assert stack[..k + 1] == r.1 + ["("];
    CountOfConcat(r.1, ["("], t);
    assert Count(["("], t) == 0;
  }

  /** The output is a permutation of the input with the parentheses taken
      out: each other token occurs in the output exactly as often as in the
      input (together with what the output and stack already held). */
  lemma {:induction false} ParseIsPermutation(tokens: seq<string>, output: seq<string>, stack: seq<string>, t: string)
    requires StackOk(stack) && t != "(" && t != ")"
    requires ParseFrom(tokens, output, stack).Ok?
    ensures Count(ParseFrom(tokens, output, stack).value, t) == Count(output, t) + Count(stack, t) + Count(tokens, t)
    decreases |tokens|
  {
    ParenthesesAreNoOperators();
    if tokens == [] {
      MovePopped(output, stack, 0, t);
      assert stack[0..] == stack && stack[..0] == [];
    } else {
      var token := tokens[0];
      assert Count(tokens, t) == Count([token], t) + Count(tokens[1..], t);
      if IsVariable(token) {
        ParseIsPermutation(tokens[1..], output + [token], stack, t);
        CountOfConcat(output, [token], t);
      } else if IsOperatorSymbol(token) {
        var step := OperatorStep(token, output, stack);
        ParseOperator(tokens, output, stack);
        ParseIsPermutation(tokens[1..], step.0, step.1, t);
        OperatorStepCount(token, output, stack, t);
      } else if token == "(" {
        ParseIsPermutation(tokens[1..], output, stack + [token], t);
        CountOfConcat(stack, [token], t);
      } else {
        var closed := CloseParenthesis(output, stack).value;
        ParseClose(tokens, output, stack);
        ParseIsPermutation(tokens[1..], closed.0, closed.1, t);
        CloseParenthesisCount(output, stack, t);
      }
    }
  }

  /** The parenthesis structure of a token sequence, given `depth` parentheses
      already open: no prefix closes more than is open, and all are closed at
      the end. */
  predicate Balanced(tokens: seq<string>, depth: nat)
    decreases |tokens|
  {
    if tokens == [] then depth == 0
    else if tokens[0] == "(" then Balanced(tokens[1..], depth + 1)
    else if tokens[0] == ")" then depth > 0 && Balanced(tokens[1..], depth - 1)
    else Balanced(tokens[1..], depth)
  }

  lemma {:induction false} CountPresent(s: seq<string>, t: string)
    ensures t in s <==> Count(s, t) > 0
    decreases |s|
  {
    if s != [] {
      CountPresent(s[1..], t);
      assert s == [s[0]] + s[1..];
    }
  }

  /** Pushing an operator leaves the number of open parentheses alone. */
  lemma OperatorStepKeepsDepth(token: string, output: seq<string>, stack: seq<string>)
    requires IsOperatorSymbol(token) && StackOk(stack)
    ensures Count(OperatorStep(token, output, stack).1, "(") == Count(stack, "(")
  {
    var s := PopOperators(FromSymbol(token).value, output, stack).1;
    assert OperatorStep(token, output, stack).1 == s + [token];
    var seg := stack[|s|..];
    assert stack == s + seg;
    ParenthesesAreNoOperators();
    assert "(" !in seg;
    CountAbsent(seg, "(");
    CountOfConcat(s, seg, "(");
    CountOfConcat(s, [token], "(");
  }

  /** Closing a parenthesis removes exactly one open one. */
  lemma CloseParenthesisDepth(output: seq<string>, stack: seq<string>)
    requires CloseParenthesis(output, stack).Ok?
    ensures Count(CloseParenthesis(output, stack).value.1, "(") + 1 == Count(stack, "(")
  {
    ParenthesesAreNoOperators();
    var s := CloseParenthesis(output, stack).value.1;
    var k := |s|;
    assert stack == s + ["("] + stack[k + 1..];
    CountAbsent(stack[k + 1..], "(");
    CountOfConcat(s + ["("], stack[k + 1..], "(");
    CountOfConcat(s, ["("], "(");
  }

  /** On tokens the parser recognises, it fails exactly when the parentheses
      do not balance; `Count(stack, "(")` parentheses are open so far. */
  lemma {:induction false} ParseSucceedsIffBalanced(tokens: seq<string>, output: seq<string>, stack: seq<string>)
    requires StackOk(stack)
    requires forall i :: 0 <= i < |tokens| ==> ValidToken(tokens[i])
    ensures ParseFrom(tokens, output, stack).Ok? <==> Balanced(tokens, Count(stack, "("))
    decreases |tokens|, 1
  {
    if tokens == [] {
      CountPresent(stack, "(");
    } else if IsOperatorSymbol(tokens[0]) {
      OperatorKeepsBalance(tokens, output, stack);
    } else if tokens[0] == ")" {
      CloseKeepsBalance(tokens, output, stack);
    } else {
      OtherKeepsBalance(tokens, output, stack);
    }
  }

  /** The operator case of `ParseSucceedsIffBalanced`. */
  lemma {:induction false} OperatorKeepsBalance(tokens: seq<string>, output: seq<string>, stack: seq<string>)
    requires StackOk(stack) && tokens != [] && IsOperatorSymbol(tokens[0])
    requires forall i :: 0 <= i < |tokens| ==> ValidToken(tokens[i])
    ensures ParseFrom(tokens, output, stack).Ok? <==> Balanced(tokens, Count(stack, "("))
    decreases |tokens|, 0
  {
    var token, rest := tokens[0], tokens[1..];
    ParenthesesAreNoOperators();
    TailValid(tokens);
    var depth := Count(stack, "(");
    assert Balanced(tokens, depth) == Balanced(rest, depth);
    var step := OperatorStep(token, output, stack);
    ParseOperator(tokens, output, stack);
    ParseSucceedsIffBalanced(rest, step.0, step.1);
    OperatorStepKeepsDepth(token, output, stack);
  }

  /** The closing-parenthesis case of `ParseSucceedsIffBalanced`. */
  lemma {:induction false} CloseKeepsBalance(tokens: seq<string>, output: seq<string>, stack: seq<string>)
    requires StackOk(stack) && tokens != [] && tokens[0] == ")"
    requires forall i :: 0 <= i < |tokens| ==> ValidToken(tokens[i])
    ensures ParseFrom(tokens, output, stack).Ok? <==> Balanced(tokens, Count(stack, "("))
    decreases |tokens|, 0
  {
    var rest := tokens[1..];
    ParenthesesAreNoOperators();
    CountPresent(stack, "(");
    var depth := Count(stack, "(");
    var close := CloseParenthesis(output, stack);
    if close.Ok? {
      TailValid(tokens);
      var o, s := close.value.0, close.value.1;
      ParseClose(tokens, output, stack);
      CloseParenthesisDepth(output, stack);
      assert Balanced(tokens, depth) == Balanced(rest, depth - 1);
      ParseSucceedsIffBalanced(rest, o, s);
    }
  }

  /** The variable and opening-parenthesis cases of `ParseSucceedsIffBalanced`. */
  lemma {:induction false} OtherKeepsBalance(tokens: seq<string>, output: seq<string>, stack: seq<string>)
    requires StackOk(stack) && tokens != [] && !IsOperatorSymbol(tokens[0]) && tokens[0] != ")"
    requires forall i :: 0 <= i < |tokens| ==> ValidToken(tokens[i])
    ensures ParseFrom(tokens, output, stack).Ok? <==> Balanced(tokens, Count(stack, "("))
    decreases |tokens|, 0
  {
    var token, rest := tokens[0], tokens[1..];
    TailValid(tokens);
    var depth := Count(stack, "(");
    if IsVariable(token) {
      assert Balanced(tokens, depth) == Balanced(rest, depth);
      ParseSucceedsIffBalanced(rest, output + [token], stack);
    } else {
      assert ValidToken(tokens[0]);
      assert token == "(";
      assert Balanced(tokens, depth) == Balanced(rest, depth + 1);
      ParseSucceedsIffBalanced(rest, output, stack + [token]);
      CountOfConcat(stack, [token], "(");
    }
  }

  /** A token the parser has no branch for fails the parse, whatever comes
      before it. */
  lemma {:induction false} ParseRejectsUnknownToken(tokens: seq<string>, output: seq<string>, stack: seq<string>, i: nat)
    requires StackOk(stack)
    requires i < |tokens| && !ValidToken(tokens[i])
    ensures ParseFrom(tokens, output, stack).Err?
    decreases |tokens|, 1
  {
    if i > 0 {
      assert tokens[1..][i - 1] == tokens[i];
      if IsOperatorSymbol(tokens[0]) {
        ParseOperator(tokens, output, stack);
        var step := OperatorStep(tokens[0], output, stack);
        ParseRejectsUnknownToken(tokens[1..], step.0, step.1, i - 1);
      } else if tokens[0] == ")" {
        CloseRejectsUnknownToken(tokens, output, stack, i);
      } else {
        OtherRejectsUnknownToken(tokens, output, stack, i);
      }
    }
  }

  /** The closing-parenthesis case of `ParseRejectsUnknownToken`. */
  lemma {:induction false} CloseRejectsUnknownToken(tokens: seq<string>, output: seq<string>, stack: seq<string>, i: nat)
    requires StackOk(stack) && 0 < i < |tokens| && tokens[0] == ")" && !ValidToken(tokens[i])
    ensures ParseFrom(tokens, output, stack).Err?
    decreases |tokens|, 0
  {
    var close := CloseParenthesis(output, stack);
    if close.Ok? {
      assert tokens[1..][i - 1] == tokens[i];
      ParseClose(tokens, output, stack);
      ParseRejectsUnknownToken(tokens[1..], close.value.0, close.value.1, i - 1);
    }
  }

  /** The variable and opening-parenthesis cases of `ParseRejectsUnknownToken`. */
  lemma {:induction false} OtherRejectsUnknownToken(tokens: seq<string>, output: seq<string>, stack: seq<string>, i: nat)
    requires StackOk(stack) && 0 < i < |tokens| && !ValidToken(tokens[i])
    requires !IsOperatorSymbol(tokens[0]) && tokens[0] != ")"
    ensures ParseFrom(tokens, output, stack).Err?
    decreases |tokens|, 0
  {
    var token := tokens[0];
    assert tokens[1..][i - 1] == tokens[i];
    if IsVariable(token) {
      ParseRejectsUnknownToken(tokens[1..], output + [token], stack, i - 1);
    } else if token == "(" {
      ParenthesesAreNoOperators();
      ParseRejectsUnknownToken(tokens[1..], output, stack + [token], i - 1);
    }
  }
}
