/** The RPN evaluator: a stack machine over postfix tokens for one row of
    the truth table. It records a calculation path (the row's assignment,
    then one entry per operator application), and each new entry carries the
    text of the sub-expression, parenthesised by precedence and
    associativity under one of two right-operand rules (`HeaderRule`). The
    operand stack and the path are sequences whose top and newest element is
    the LAST one. */
module RpnEvaluator {
  import opened Errors
  import opened Operators
  import opened Tokenizer

  /** `Integer.MAX_VALUE`: the precedence of an atom, above every operator. */
  const MaxPrecedence: int := 0x7FFF_FFFF

  /** `LogicalVariable`: displayed text, value in the current row, and the
      precedence of the text's outermost operator. */
  datatype Entry = Entry(expression: string, value: bool, precedence: int)

  /** An input variable of the row, with the maximum precedence. */
  function Atom(name: string, value: bool): Entry {
    Entry(name, value, MaxPrecedence)
  }

  /** Atoms are never parenthesised: they outrank every operator. */
  lemma AtomsOutrankOperators(op: Operator, name: string, b: bool)
    ensures Atom(name, b).precedence > op.Precedence()
  {
    CatalogTable();
  }

  /** `extractVariables`: the distinct variable tokens. */
  function ExtractVariables(tokens: seq<string>): (r: set<string>)
    ensures forall t :: t in r <==> t in tokens && IsVariable(t)
    decreases |tokens|
  {
    if tokens == [] then {}
    else
      var rest := ExtractVariables(tokens[1..]);
      assert forall t :: t in tokens <==> t == tokens[0] || t in tokens[1..];
      (if IsVariable(tokens[0]) then {tokens[0]} else {}) + rest
  }

  /** `parenthesizeExpression`. */
  function Parenthesize(expression: string): (r: string)
    ensures |r| == |expression| + 2 && r[0] == '(' && r[|r| - 1] == ')'
    ensures r[1..|r| - 1] == expression
  {
    "(" + expression + ")"
  }

  /** The text of an operand, wrapped in parentheses or not. */
  function OperandText(operand: Entry, wrap: bool): string {
    if wrap then Parenthesize(operand.expression) else operand.expression
  }

  /** The rule for the left operand of a binary operator: lower precedence,
      or equal precedence under a right-associative operator. */
  predicate WrapsLeft(op: Operator, precedence: int) {
    precedence < op.Precedence() || (precedence == op.Precedence() && op.Assoc() == Right)
  }

  /** The rule for the right operand: any precedence up to the operator's.
      The source applies the left rule here as well; see
      `BuildLogicalVariableAsWritten`. */
  predicate WrapsRight(op: Operator, precedence: int) {
    precedence <= op.Precedence()
  }

  /** The text of `op` applied to `args`, given whether to wrap the (first)
      operand and the second: a unary symbol is written before its operand,
      a binary one between its operands and set off by spaces. */
  function Layout(op: Operator, args: seq<Entry>, wrapFirst: bool, wrapSecond: bool): string
    requires |args| == op.Arity()
  {
    if op.Arity() == 1 then op.Symbol() + OperandText(args[0], wrapFirst)
    else OperandText(args[0], wrapFirst) + " " + op.Symbol() + " " + OperandText(args[1], wrapSecond)
  }

  /** `buildLogicalVariable`: the entry for `op` applied to `args`. A unary
      operand is wrapped only below the operator's precedence. */
  function BuildLogicalVariable(op: Operator, args: seq<Entry>, result: bool): (e: Entry)
    requires |args| == op.Arity()
    ensures e.value == result && e.precedence == op.Precedence()
  {
    var text :=
      if op.Arity() == 1 then Layout(op, args, args[0].precedence < op.Precedence(), false)
      else Layout(op, args, WrapsLeft(op, args[0].precedence), WrapsRight(op, args[1].precedence));
    Entry(text, result, op.Precedence())
  }

  /** `buildLogicalVariable` as written in RPNEvaluator.java: the right operand is
      wrapped by the left operand's rule. */
  function BuildLogicalVariableAsWritten(op: Operator, args: seq<Entry>, result: bool): (e: Entry)
    requires |args| == op.Arity()
    ensures e.value == result && e.precedence == op.Precedence()
    ensures op.Arity() == 2 ==>
      e.expression == Layout(op, args, WrapsLeft(op, args[0].precedence), WrapsLeft(op, args[1].precedence))
    ensures op.Arity() == 2 && (args[1].precedence != op.Precedence() || op.Assoc() == Right) ==>
      e == BuildLogicalVariable(op, args, result)
    ensures op.Arity() == 1 ==> e == BuildLogicalVariable(op, args, result)
  {
    var text :=
      if op.Arity() == 1 then Layout(op, args, args[0].precedence < op.Precedence(), false)
      else Layout(op, args, WrapsLeft(op, args[0].precedence), WrapsLeft(op, args[1].precedence));
    Entry(text, result, op.Precedence())
  }

  /** Which right-operand rule builds the header texts: the code as written
      in RPNEvaluator.java, or the correction of the finding in the README. */
  datatype HeaderRule = AsWritten | Corrected

  /** The entry for `op` applied to `args` under `rule`. */
  function Build(rule: HeaderRule, op: Operator, args: seq<Entry>, result: bool): (e: Entry)
    requires |args| == op.Arity()
    ensures e.value == result && e.precedence == op.Precedence()
  {
    match rule
    case AsWritten => BuildLogicalVariableAsWritten(op, args, result)
    case Corrected => BuildLogicalVariable(op, args, result)
  }

  /** The values of a run of entries. */
  function Values(args: seq<Entry>): (r: seq<bool>)
    ensures |r| == |args| && forall i :: 0 <= i < |args| ==> r[i] == args[i].value
  {
    if args == [] then [] else [args[0].value] + Values(args[1..])
  }

  /** The position of the first entry whose text is `token`. */
  function FirstMatch(values: seq<Entry>, token: string): (r: Option<nat>)
    ensures r.Some? ==> r.value < |values| && values[r.value].expression == token
    ensures r.Some? ==> forall j :: 0 <= j < r.value ==> values[j].expression != token
    ensures r.None? <==> forall j :: 0 <= j < |values| ==> values[j].expression != token
    decreases |values|
  {
    if values == [] then None
    else if values[0].expression == token then Some(0)
    else
      match FirstMatch(values[1..], token)
      case None => None
      case Some(k) => Some(k + 1)
  }

  /** `handleVariableToken` as a function: push the first assignment entry
      named by the token. */
  function PushVariable(token: string, values: seq<Entry>, stack: seq<Entry>): (r: Result<seq<Entry>>)
    ensures r.Ok? <==> exists j :: 0 <= j < |values| && values[j].expression == token
    ensures r.Err? ==> r.error == UnknownVariable
    ensures r.Ok? ==> |r.value| == |stack| + 1 && r.value[..|stack|] == stack && r.value[|stack|].expression == token
    ensures r.Ok? ==> r.value == stack + [values[FirstMatch(values, token).value]]
  {
    match FirstMatch(values, token)
    case None => Err(UnknownVariable)
    case Some(j) =>
      assert (stack + [values[j]])[..|stack|] == stack;
      Ok(stack + [values[j]])
  }

  method HandleVariableToken(token: string, stack: seq<Entry>, values: seq<Entry>) returns (r: Result<seq<Entry>>)
    ensures r == PushVariable(token, values, stack)
  {
    var j := 0;
    while j < |values| && values[j].expression != token
      invariant j <= |values|
      invariant forall i :: 0 <= i < j ==> values[i].expression != token
    {
      j := j + 1;
    }
    if j == |values| {
      return Err(UnknownVariable);
    }
    assert FirstMatch(values, token) == Some(j);
    return Ok(stack + [values[j]]);
  }

  /** `handleOperatorToken` as a function: the top `Arity()` entries are the
      arguments, the deepest one first; the new entry replaces them on the
      stack and is appended to the path. */
  function ApplyOperator(rule: HeaderRule, op: Operator, stack: seq<Entry>, path: seq<Entry>): (r: Result<(seq<Entry>, seq<Entry>)>)
    ensures r.Ok? <==> |stack| >= op.Arity()
    ensures r.Err? ==> r.error == InsufficientOperands
    ensures r.Ok? ==>
      var (stack', path') := r.value;
      var n := |stack| - op.Arity();
      |stack'| == n + 1 && stack'[..n] == stack[..n] && path' == path + [stack'[n]] &&
      stack'[n].value == Truth(op, Values(stack[n..])) && stack'[n].precedence == op.Precedence()
  {
    if |stack| < op.Arity() then Err(InsufficientOperands)
    else
      var args := stack[|stack| - op.Arity()..];
      var e := Build(rule, op, args, Truth(op, Values(args)));
      Ok((stack[..|stack| - op.Arity()] + [e], path + [e]))
  }

  method HandleOperatorToken(rule: HeaderRule, token: string, stack: seq<Entry>, path: seq<Entry>)
    returns (r: Result<(seq<Entry>, seq<Entry>)>)
    requires IsOperatorSymbol(token)
    ensures r == ApplyOperator(rule, FromSymbol(token).value, stack, path)
  {
    // the source's check for an unknown symbol cannot fire after `IsOperatorSymbol`
    var op := FromSymbol(token).value;
    if |stack| < op.Arity() {
      return Err(InsufficientOperands);
    }
    var n := op.Arity();
    var args := new Entry[n];
    var stack' := stack;
    var i: int := n - 1;
    while i >= 0
      invariant -1 <= i < n
      invariant stack' == stack[..|stack| - n + i + 1]
      invariant forall k :: i < k < n ==> args[k] == stack[|stack| - n + k]
      decreases i
    {
      // the source's empty-stack check cannot fire: `Arity()` entries were counted
      assert stack' != [];
      args[i] := stack'[|stack'| - 1];
      stack' := stack'[..|stack'| - 1];
      i := i - 1;
    }
    assert args[..] == stack[|stack| - n..];
    var result := Apply(op, Values(args[..]));
    var entry := Build(rule, op, args[..], result.value);
    ApplyOperatorUnfolds(rule, op, stack, path);
    return Ok((stack' + [entry], path + [entry]));
  }

  /** An application with enough operands, spelled out. */
  lemma ApplyOperatorUnfolds(rule: HeaderRule, op: Operator, stack: seq<Entry>, path: seq<Entry>)
    requires |stack| >= op.Arity()
    ensures var args := stack[|stack| - op.Arity()..];
      var e := Build(rule, op, args, Truth(op, Values(args)));
      ApplyOperator(rule, op, stack, path) == Ok((stack[..|stack| - op.Arity()] + [e], path + [e]))
  {
  }

  /** `processToken` as a function. */
  function Step(rule: HeaderRule, token: string, values: seq<Entry>, stack: seq<Entry>, path: seq<Entry>): (r: Result<(seq<Entry>, seq<Entry>)>)
    ensures r.Err? ==> r.error in {UnknownVariable, InsufficientOperands, UnexpectedToken}
    ensures r.Err? && r.error == UnexpectedToken <==> !IsVariable(token) && !IsOperatorSymbol(token)
  {
    if IsVariable(token) then
      var stack' :- PushVariable(token, values, stack);
      Ok((stack', path))
    else if IsOperatorSymbol(token) then ApplyOperator(rule, FromSymbol(token).value, stack, path)
    else Err(UnexpectedToken)
  }

  method ProcessToken(rule: HeaderRule, token: string, values: seq<Entry>, stack: seq<Entry>, path: seq<Entry>)
    returns (r: Result<(seq<Entry>, seq<Entry>)>)
    ensures r == Step(rule, token, values, stack, path)
  {
    if IsVariable(token) {
      var pushed := HandleVariableToken(token, stack, values);
      if pushed.Err? {
        return pushed.PropagateFailure();
      }
      return Ok((pushed.value, path));
    } else if IsOperatorSymbol(token) {
      r := HandleOperatorToken(rule, token, stack, path);
    } else {
      return Err(UnexpectedToken);
    }
  }

  /** The stack machine over `tokens`: the final operand stack and path, or
      the first failing step. */
  function Run(rule: HeaderRule, tokens: seq<string>, values: seq<Entry>, stack: seq<Entry>, path: seq<Entry>): (r: Result<(seq<Entry>, seq<Entry>)>)
    ensures r.Err? ==> r.error in {UnknownVariable, InsufficientOperands, UnexpectedToken}
    decreases |tokens|
  {
    if tokens == [] then Ok((stack, path))
    else
      var (stack', path') :- Step(rule, tokens[0], values, stack, path);
      Run(rule, tokens[1..], values, stack', path')
  }

  /** `validateFinalStack`: exactly one entry must be left. */
  function ValidateFinalStack(stack: seq<Entry>): (r: Result<Entry>)
    ensures r.Ok? <==> |stack| == 1
    ensures r.Ok? ==> r.value == stack[0]
    ensures r.Err? ==> r.error == MalformedResult
  {
    if |stack| != 1 then Err(MalformedResult) else Ok(stack[0])
  }

  /** `evaluate` as a function: run the machine from an empty stack with the
      path starting as the assignment, then check the final stack. */
  function Evaluation(rule: HeaderRule, rpnTokens: seq<string>, values: seq<Entry>): (r: Result<seq<Entry>>)
    ensures r.Err? ==> r.error in {UnknownVariable, InsufficientOperands, UnexpectedToken, MalformedResult}
    ensures r.Err? && r.error != MalformedResult <==> Run(rule, rpnTokens, values, [], values).Err?
  {
    var (stack, path) :- Run(rule, rpnTokens, values, [], values);
    var _ :- ValidateFinalStack(stack);
    Ok(path)
  }

  method Evaluate(rule: HeaderRule, rpnTokens: seq<string>, variableValues: seq<Entry>) returns (r: Result<seq<Entry>>)
    ensures r == Evaluation(rule, rpnTokens, variableValues)
  {
    var operandStack: seq<Entry> := [];
    var calculationPath := variableValues;
    for i := 0 to |rpnTokens|
      invariant Run(rule, rpnTokens[i..], variableValues, operandStack, calculationPath) ==
        Run(rule, rpnTokens, variableValues, [], variableValues)
    {
      assert rpnTokens[i..][1..] == rpnTokens[i + 1..];
      var next := ProcessToken(rule, rpnTokens[i], variableValues, operandStack, calculationPath);
      if next.Err? {
        return next.PropagateFailure();
      }
      operandStack, calculationPath := next.value.0, next.value.1;
    }
    var final := ValidateFinalStack(operandStack);
    if final.Err? {
      return final.PropagateFailure();
    }
    return Ok(calculationPath);
  }

  /** How many operator tokens `tokens` holds. */
  function OperatorCount(tokens: seq<string>): nat {
    if tokens == [] then 0 else (if IsOperatorSymbol(tokens[0]) then 1 else 0) + OperatorCount(tokens[1..])
  }

  /** The path only grows, by one entry per operator token, and what it held
      is kept. */
  lemma {:induction false} RunExtendsPath(rule: HeaderRule, tokens: seq<string>, values: seq<Entry>, stack: seq<Entry>, path: seq<Entry>)
    requires Run(rule, tokens, values, stack, path).Ok?
    ensures var path' := Run(rule, tokens, values, stack, path).value.1;
      |path'| == |path| + OperatorCount(tokens) && path'[..|path|] == path
    decreases |tokens|
  {
    if tokens != [] {
      var next := Step(rule, tokens[0], values, stack, path).value;
      RunUnfolds(rule, tokens, values, stack, path);
      StepExtendsPath(rule, tokens[0], values, stack, path);
      RunExtendsPath(rule, tokens[1..], values, next.0, next.1);
      var final := Run(rule, tokens, values, stack, path).value.1;
      assert final[..|next.1|][..|path|] == final[..|path|];
    }
  }

  /** A run that succeeds took a successful first step and went on from it. */
  lemma RunUnfolds(rule: HeaderRule, tokens: seq<string>, values: seq<Entry>, stack: seq<Entry>, path: seq<Entry>)
    requires tokens != [] && Run(rule, tokens, values, stack, path).Ok?
    ensures Step(rule, tokens[0], values, stack, path).Ok?
    ensures var next := Step(rule, tokens[0], values, stack, path).value;
      Run(rule, tokens, values, stack, path) == Run(rule, tokens[1..], values, next.0, next.1)
    ensures OperatorCount(tokens) == (if IsOperatorSymbol(tokens[0]) then 1 else 0) + OperatorCount(tokens[1..])
  {
  }

  /** One step appends one entry for an operator token and none otherwise. */
  lemma StepExtendsPath(rule: HeaderRule, token: string, values: seq<Entry>, stack: seq<Entry>, path: seq<Entry>)
    requires Step(rule, token, values, stack, path).Ok?
    ensures var path' := Step(rule, token, values, stack, path).value.1;
      |path'| == |path| + (if IsOperatorSymbol(token) then 1 else 0) && path'[..|path|] == path
  {
    if IsOperatorSymbol(token) {
      OperatorIsNoVariable(token);
    }
  }

  /** `evaluate` returns the assignment unchanged at the head of the path,
      followed by exactly one entry per operator token. */
  lemma EvaluationKeepsAssignment(rule: HeaderRule, rpnTokens: seq<string>, values: seq<Entry>)
    requires Evaluation(rule, rpnTokens, values).Ok?
    ensures var path := Evaluation(rule, rpnTokens, values).value;
      |path| == |values| + OperatorCount(rpnTokens) && path[..|values|] == values
  {
    RunExtendsPath(rule, rpnTokens, values, [], values);
  }

  /** A reference definition of a well-formed postfix sequence over a stack
      of height `height`: every operator finds enough operands. */
  predicate EnoughOperands(tokens: seq<string>, height: nat)
    decreases |tokens|
  {
    if tokens == [] then true
    else if IsOperatorSymbol(tokens[0]) then
      var n := FromSymbol(tokens[0]).value.Arity();
      height >= n && EnoughOperands(tokens[1..], height - n + 1)
    else EnoughOperands(tokens[1..], height + 1)
  }

  /** The stack height the tokens leave, starting from `height`. */
  function FinalHeight(tokens: seq<string>, height: int): int
    decreases |tokens|
  {
    if tokens == [] then height
    else if IsOperatorSymbol(tokens[0]) then
      FinalHeight(tokens[1..], height - FromSymbol(tokens[0]).value.Arity() + 1)
    else FinalHeight(tokens[1..], height + 1)
  }

  /** Every token is a variable the assignment names, or an operator. */
  predicate Recognised(tokens: seq<string>, values: seq<Entry>) {
    forall i :: 0 <= i < |tokens| ==>
      IsOperatorSymbol(tokens[i]) || (IsVariable(tokens[i]) && FirstMatch(values, tokens[i]).Some?)
  }

  /** On recognised tokens the machine fails exactly when some operator lacks
      operands, and on success the stack ends at the height the token counts
      predict. */
  lemma {:induction false} RunSucceedsIffEnoughOperands(rule: HeaderRule, tokens: seq<string>, values: seq<Entry>, stack: seq<Entry>, path: seq<Entry>)
    requires Recognised(tokens, values)
    ensures Run(rule, tokens, values, stack, path).Ok? <==> EnoughOperands(tokens, |stack|)
    ensures Run(rule, tokens, values, stack, path).Ok? ==> |Run(rule, tokens, values, stack, path).value.0| == FinalHeight(tokens, |stack|)
    decreases |tokens|
  {
    if tokens != [] {
      var token := tokens[0];
      assert Recognised(tokens[1..], values) by {
        forall i | 0 <= i < |tokens[1..]|
          ensures IsOperatorSymbol(tokens[1..][i]) || (IsVariable(tokens[1..][i]) && FirstMatch(values, tokens[1..][i]).Some?)
        {
          assert tokens[1..][i] == tokens[i + 1];
        }
      }
      var step := Step(rule, token, values, stack, path);
      if IsOperatorSymbol(token) {
        OperatorIsNoVariable(token);
      } else {
        assert IsVariable(token) && FirstMatch(values, token).Some?;
      }
      if step.Ok? {
        RunSucceedsIffEnoughOperands(rule, tokens[1..], values, step.value.0, step.value.1);
      }
    }
  }

  /** `evaluate` succeeds on recognised tokens exactly when every operator
      finds its operands and one entry is left at the end. */
  lemma EvaluationSucceedsIff(rule: HeaderRule, rpnTokens: seq<string>, values: seq<Entry>)
    requires Recognised(rpnTokens, values)
    ensures Evaluation(rule, rpnTokens, values).Ok? <==> EnoughOperands(rpnTokens, 0) && FinalHeight(rpnTokens, 0) == 1
  {
    RunSucceedsIffEnoughOperands(rule, rpnTokens, values, [], values);
  }

  /** A token that is neither an operator nor an assigned variable makes the
      machine fail, whatever comes before it. */
  lemma {:induction false} RunRejectsUnrecognised(rule: HeaderRule, tokens: seq<string>, values: seq<Entry>, stack: seq<Entry>, path: seq<Entry>, i: nat)
    requires i < |tokens| && !IsOperatorSymbol(tokens[i])
    requires !IsVariable(tokens[i]) || FirstMatch(values, tokens[i]).None?
    ensures Run(rule, tokens, values, stack, path).Err?
    decreases |tokens|
  {
    var step := Step(rule, tokens[0], values, stack, path);
    if i > 0 && step.Ok? {
      assert tokens[1..][i - 1] == tokens[i];
      RunRejectsUnrecognised(rule, tokens[1..], values, step.value.0, step.value.1, i - 1);
    }
  }

  /** A variable token pushes its first assignment entry and leaves the path
      alone. */
  lemma RunVariable(rule: HeaderRule, x: string, rest: seq<string>, values: seq<Entry>, stack: seq<Entry>, path: seq<Entry>)
    requires IsVariable(x) && FirstMatch(values, x).Some?
    ensures Run(rule, [x] + rest, values, stack, path) == Run(rule, rest, values, stack + [values[FirstMatch(values, x).value]], path)
  {
    assert ([x] + rest)[1..] == rest;
  }

  /** An operator token replaces its `Arity()` arguments on top of the stack
      by the entry it builds, and appends that entry to the path. */
  lemma RunOperator(rule: HeaderRule, op: Operator, rest: seq<string>, values: seq<Entry>, stack: seq<Entry>, args: seq<Entry>, path: seq<Entry>)
    requires |args| == op.Arity()
    ensures var e := Build(rule, op, args, Truth(op, Values(args)));
      Run(rule, [op.Symbol()] + rest, values, stack + args, path) == Run(rule, rest, values, stack + [e], path + [e])
  {
    FromSymbolRoundTrip(op);
    OperatorIsNoVariable(op.Symbol());
    var s := stack + args;
    assert s[|s| - op.Arity()..] == args;
    assert s[..|s| - op.Arity()] == stack;
    assert ([op.Symbol()] + rest)[1..] == rest;
  }

  /** Two runs of entries that differ at most in their texts. */
  predicate SameButText(xs: seq<Entry>, ys: seq<Entry>) {
    |xs| == |ys| &&
    forall i :: 0 <= i < |xs| ==> xs[i].value == ys[i].value && xs[i].precedence == ys[i].precedence
  }

  /** Two outcomes of the machine that agree: the same failure, or stacks and
      paths that differ at most in their texts. */
  predicate Agree(r: Result<(seq<Entry>, seq<Entry>)>, r': Result<(seq<Entry>, seq<Entry>)>) {
    match r
    case Err(e) => r' == Err(e)
    case Ok(v) => r'.Ok? && SameButText(v.0, r'.value.0) && SameButText(v.1, r'.value.1)
  }

  lemma ValuesIgnoreText(xs: seq<Entry>, ys: seq<Entry>)
    requires SameButText(xs, ys)
    ensures Values(xs) == Values(ys)
  {
  }

  /** One step under the two header rules, from stacks and paths that differ
      only in their texts, ends the same way up to texts. */
  lemma StepsAgree(token: string, values: seq<Entry>, stack: seq<Entry>, path: seq<Entry>, stack': seq<Entry>, path': seq<Entry>)
    requires SameButText(stack, stack') && SameButText(path, path')
    ensures Agree(Step(AsWritten, token, values, stack, path), Step(Corrected, token, values, stack', path'))
  {
    if !IsVariable(token) && IsOperatorSymbol(token) {
      ApplicationsAgree(FromSymbol(token).value, stack, path, stack', path');
    }
  }

  /** An operator application under the two header rules ends the same way
      up to texts. */
  lemma ApplicationsAgree(op: Operator, stack: seq<Entry>, path: seq<Entry>, stack': seq<Entry>, path': seq<Entry>)
    requires SameButText(stack, stack') && SameButText(path, path')
    ensures Agree(ApplyOperator(AsWritten, op, stack, path), ApplyOperator(Corrected, op, stack', path'))
  {
    if |stack| >= op.Arity() {
      var n := |stack| - op.Arity();
      ValuesIgnoreText(stack[n..], stack'[n..]);
    }
  }

  /** The machine under the two header rules, from stacks and paths that
      differ only in their texts, ends the same way up to texts. */
  lemma {:induction false} RunsAgree(tokens: seq<string>, values: seq<Entry>, stack: seq<Entry>, path: seq<Entry>, stack': seq<Entry>, path': seq<Entry>)
    requires SameButText(stack, stack') && SameButText(path, path')
    ensures Agree(Run(AsWritten, tokens, values, stack, path), Run(Corrected, tokens, values, stack', path'))
    decreases |tokens|
  {
    if tokens != [] {
      StepsAgree(tokens[0], values, stack, path, stack', path');
      var step := Step(AsWritten, tokens[0], values, stack, path);
      var step' := Step(Corrected, tokens[0], values, stack', path');
      if step.Ok? {
        RunsAgree(tokens[1..], values, step.value.0, step.value.1, step'.value.0, step'.value.1);
      }
    }
  }

  /** `evaluate` with the headers as RPNEvaluator.java writes them and as
      corrected: the same success or failure and error kind, and paths of the
      same length whose columns hold the same values and precedences. */
  lemma EvaluationsAgree(rpnTokens: seq<string>, values: seq<Entry>)
    ensures Evaluation(AsWritten, rpnTokens, values).Ok? <==> Evaluation(Corrected, rpnTokens, values).Ok?
    ensures Evaluation(AsWritten, rpnTokens, values).Err? ==>
      Evaluation(AsWritten, rpnTokens, values).error == Evaluation(Corrected, rpnTokens, values).error
    ensures Evaluation(AsWritten, rpnTokens, values).Ok? ==>
      SameButText(Evaluation(AsWritten, rpnTokens, values).value, Evaluation(Corrected, rpnTokens, values).value)
  {
    RunsAgree(rpnTokens, values, [], values, [], values);
  }
}
