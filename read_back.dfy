/** Reading a header back. The text the evaluator builds for a subtree is a
    column header of the truth table; written with the parenthesisation rule
    of `BuildLogicalVariable`, it tokenizes and parses back to the postfix
    walk of the same tree, so it denotes the column's own values. The rule as
    the source writes it (`BuildLogicalVariableAsWritten`) gives two different
    trees the same header. */
module ReadBack {
  import opened Errors
  import opened Operators
  import opened Tokenizer
  import opened ShuntingYard
  import opened RpnEvaluator
  import opened Formulas

  /** The precedence of a tree's entry: atoms outrank every operator. */
  function Prec(f: Formula): int {
    match f
    case Var(_) => MaxPrecedence
    case Neg(_) => Not.Precedence()
    case Bin(op, _, _) => op.Precedence()
  }

  function Wrapped(ts: seq<string>, wrap: bool): seq<string> {
    if wrap then ["("] + ts + [")"] else ts
  }

  /** The tokens of a tree's header: an operand is put in parentheses exactly
      where `BuildLogicalVariable` wraps it. */
  function Tokens(f: Formula): seq<string> {
    match f
    case Var(x) => [x]
    case Neg(g) => [Not.Symbol()] + Wrapped(Tokens(g), Prec(g) < Not.Precedence())
    case Bin(op, l, r) =>
      Wrapped(Tokens(l), WrapsLeft(op, Prec(l))) + [op.Symbol()] + Wrapped(Tokens(r), WrapsRight(op, Prec(r)))
  }

  /** No negation applied directly to a negation: the tokenizer deletes each
      `"!!"` before the scan, so such a header reads back as the tree
      without the pair. */
  predicate NoNestedNegation(f: Formula) {
    match f
    case Var(_) => true
    case Neg(g) => !g.Neg? && NoNestedNegation(g)
    case Bin(_, l, r) => NoNestedNegation(l) && NoNestedNegation(r)
  }

  /** The assignment list holds atoms only. */
  predicate AtomsOnly(values: seq<Entry>) {
    forall i :: 0 <= i < |values| ==> values[i].precedence == MaxPrecedence
  }

  // ---------------------------------------------------------------------
  // The parser on a header's tokens.

  /** What the parser has put out, and what it still holds on the stack
      (bottom first), once the tokens of `f` have gone by. */
  function Done(f: Formula): seq<string>
    decreases f, 1
  {
    match f
    case Var(x) => [x]
    case Neg(g) => SideDone(g, Prec(g) < Not.Precedence())
    case Bin(op, l, r) => Postfix(l) + SideDone(r, WrapsRight(op, Prec(r)))
  }

  function Pending(f: Formula): seq<string>
    decreases f, 1
  {
    match f
    case Var(_) => []
    case Neg(g) => [Not.Symbol()] + SidePending(g, Prec(g) < Not.Precedence())
    case Bin(op, l, r) => [op.Symbol()] + SidePending(r, WrapsRight(op, Prec(r)))
  }

  /** A parenthesised operand is complete once its `")"` has gone by. */
  function SideDone(g: Formula, wrap: bool): seq<string>
    decreases g, 2
  {
    if wrap then Postfix(g) else Done(g)
  }

  function SidePending(g: Formula, wrap: bool): seq<string>
    decreases g, 2
  {
    if wrap then [] else Pending(g)
  }

  /** Every held entry is an operator binding at least as tight as `p`. */
  predicate PendingOk(pending: seq<string>, p: int) {
    forall i :: 0 <= i < |pending| ==>
      IsOperatorSymbol(pending[i]) && FromSymbol(pending[i]).value.Precedence() >= p
  }

  /** The stack below a subtree of precedence `p` is safe from it: no
      operator of the subtree pops the entry on top. */
  predicate Shields(stack: seq<string>, p: int) {
    stack == [] || Top(stack) == "(" ||
    (IsOperatorSymbol(Top(stack)) &&
      var t := FromSymbol(Top(stack)).value;
      t.Precedence() < p || (t.Precedence() == p && t.Assoc() == Right))
  }

  lemma Regroup<T>(a: seq<T>, b: seq<T>, c: seq<T>, d: seq<T>)
    requires b + c == d
    ensures a + b + c == a + d
  {
  }

  lemma ReversedCons(x: string, s: seq<string>)
    ensures Reversed([x] + s) == Reversed(s) + [x]
  {
    var a, b := Reversed([x] + s), Reversed(s) + [x];
    assert |a| == |b|;
    forall i | 0 <= i < |a|
      ensures a[i] == b[i]
    {
      if i < |s| {
        assert a[i] == ([x] + s)[|s| - i];
      }
    }
  }

  /** The held operators, popped, complete the postfix walk. */
  lemma {:induction false} DonePending(f: Formula)
    requires WellFormed(f)
    ensures PendingOk(Pending(f), Prec(f))
    ensures Done(f) + Reversed(Pending(f)) == Postfix(f)
    decreases f, 1
  {
    match f
    case Var(x) =>
    case Neg(g) =>
      var w := Prec(g) < Not.Precedence();
      assert Done(f) == SideDone(g, w) && Pending(f) == [Not.Symbol()] + SidePending(g, w);
      SideDonePending(g, w);
      PendingCons(Not, SidePending(g, w), Prec(g));
      CompletesPostfix(Not, SideDone(g, w), SidePending(g, w), Postfix(g));
    case Bin(op, l, r) =>
      var w := WrapsRight(op, Prec(r));
      var done, pending := SideDone(r, w), SidePending(r, w);
      assert Done(f) == Postfix(l) + done && Pending(f) == [op.Symbol()] + pending;
      SideDonePending(r, w);
      PendingCons(op, pending, Prec(r));
      CompletesPostfix(op, done, pending, Postfix(r));
      Regroup(Postfix(l), done, Reversed(Pending(f)), Postfix(r) + [op.Symbol()]);
      assert Postfix(f) == Postfix(l) + (Postfix(r) + [op.Symbol()]);
  }

  lemma PendingCons(op: Operator, pending: seq<string>, q: int)
    requires PendingOk(pending, q) && (pending == [] || q >= op.Precedence())
    ensures PendingOk([op.Symbol()] + pending, op.Precedence())
  {
    FromSymbolRoundTrip(op);
    var s := [op.Symbol()] + pending;
    forall i | 1 <= i < |s|
      ensures IsOperatorSymbol(s[i]) && FromSymbol(s[i]).value.Precedence() >= op.Precedence()
    {
      assert s[i] == pending[i - 1];
    }
  }

  lemma CompletesPostfix(op: Operator, done: seq<string>, pending: seq<string>, walk: seq<string>)
    requires done + Reversed(pending) == walk
    ensures done + Reversed([op.Symbol()] + pending) == walk + [op.Symbol()]
  {
    ReversedCons(op.Symbol(), pending);
  }

  /** `DonePending` for an operand, wrapped or not; unwrapped, it binds
      tighter than the operator `q` it belongs to. */
  lemma {:induction false} SideDonePending(g: Formula, wrap: bool)
    requires WellFormed(g)
    ensures SideDone(g, wrap) + Reversed(SidePending(g, wrap)) == Postfix(g)
    ensures PendingOk(SidePending(g, wrap), Prec(g))
    decreases g, 2
  {
    if wrap {
      assert Reversed([]) == [];
    } else {
      DonePending(g);
    }
  }

  lemma ParseVariableStep(x: string, rest: seq<string>, output: seq<string>, stack: seq<string>)
    requires IsVariable(x) && StackOk(stack)
    ensures ParseFrom([x] + rest, output, stack) == ParseFrom(rest, output + [x], stack)
  {
    assert ([x] + rest)[1..] == rest;
  }

  lemma ParseOperatorStep(op: Operator, rest: seq<string>, output: seq<string>, stack: seq<string>)
    requires StackOk(stack)
    ensures IsOperatorSymbol(op.Symbol())
    ensures ParseFrom([op.Symbol()] + rest, output, stack) ==
      ParseFrom(rest, OperatorStep(op.Symbol(), output, stack).0, OperatorStep(op.Symbol(), output, stack).1)
  {
    FromSymbolRoundTrip(op);
    OperatorIsNoVariable(op.Symbol());
    assert ([op.Symbol()] + rest)[1..] == rest;
  }

  lemma ParseOpenStep(rest: seq<string>, output: seq<string>, stack: seq<string>)
    requires StackOk(stack)
    ensures ParseFrom(["("] + rest, output, stack) == ParseFrom(rest, output, stack + ["("])
  {
    ParenthesesAreNoOperators();
    assert (["("] + rest)[1..] == rest;
  }

  lemma ParseCloseStep(rest: seq<string>, output: seq<string>, stack: seq<string>, output': seq<string>, stack': seq<string>)
    requires StackOk(stack) && StackOk(stack')
    requires CloseParenthesis(output, stack) == Ok((output', stack'))
    ensures ParseFrom([")"] + rest, output, stack) == ParseFrom(rest, output', stack')
  {
    ParenthesesAreNoOperators();
    assert ([")"] + rest)[1..] == rest;
  }

  /** An operator arriving above `pending` pops exactly `pending`, when all
      of it binds tighter and the stack below does not. */
  lemma {:induction false} PopOperatorsExact(current: Operator, output: seq<string>, stack: seq<string>, pending: seq<string>)
    requires StackOk(stack) && StackOk(stack + pending)
    requires forall i :: 0 <= i < |pending| ==>
      IsOperatorSymbol(pending[i]) && PopsBefore(FromSymbol(pending[i]).value, current)
    requires stack == [] || Top(stack) == "(" || !PopsBefore(FromSymbol(Top(stack)).value, current)
    ensures PopOperators(current, output, stack + pending) == (output + Reversed(pending), stack)
    decreases |pending|
  {
    ParenthesesAreNoOperators();
    if pending == [] {
      assert stack + pending == stack;
    } else {
      var n := |pending| - 1;
      var whole := stack + pending;
      assert Top(whole) == pending[n];
      assert Pop(whole) == stack + pending[..n];
      assert IsOperatorSymbol(pending[n]) && PopsBefore(FromSymbol(pending[n]).value, current);
      assert PopOperators(current, output, whole) == PopOperators(current, output + [Top(whole)], Pop(whole));
      PopOperatorsExact(current, output + [pending[n]], stack, pending[..n]);
      assert output + [pending[n]] + Reversed(pending[..n]) == output + Reversed(pending);
    }
  }

  lemma OperatorStepExact(current: Operator, output: seq<string>, stack: seq<string>, pending: seq<string>)
    requires StackOk(stack) && StackOk(stack + pending)
    requires forall i :: 0 <= i < |pending| ==>
      IsOperatorSymbol(pending[i]) && PopsBefore(FromSymbol(pending[i]).value, current)
    requires stack == [] || Top(stack) == "(" || !PopsBefore(FromSymbol(Top(stack)).value, current)
    ensures IsOperatorSymbol(current.Symbol())
    ensures OperatorStep(current.Symbol(), output, stack + pending) == (output + Reversed(pending), stack + [current.Symbol()])
  {
    FromSymbolRoundTrip(current);
    PopOperatorsExact(current, output, stack, pending);
  }

  /** A `")"` closes over operators only, down to its `"("`. */
  lemma {:induction false} CloseOverPending(output: seq<string>, stack: seq<string>, pending: seq<string>)
    requires "(" !in pending
    ensures CloseParenthesis(output, stack + ["("] + pending) == Ok((output + Reversed(pending), stack))
    decreases |pending|
  {
    ParenthesesAreNoOperators();
    var whole := stack + ["("] + pending;
    if pending == [] {
      assert whole == stack + ["("];
      assert Top(whole) == "(" && Pop(whole) == stack;
    } else {
      var n := |pending| - 1;
      assert Top(whole) == pending[n] && pending[n] != "(";
      assert Pop(whole) == stack + ["("] + pending[..n];
      assert "(" !in pending[..n];
      CloseOverPending(output + [pending[n]], stack, pending[..n]);
      assert CloseParenthesis(output, whole) == CloseParenthesis(output + [Top(whole)], Pop(whole));
      assert output + [pending[n]] + Reversed(pending[..n]) == output + Reversed(pending);
    }
  }

  lemma PendingStackOk(stack: seq<string>, pending: seq<string>, q: int)
    requires StackOk(stack) && PendingOk(pending, q)
    ensures StackOk(stack + pending)
  {
    forall i | 0 <= i < |stack + pending|
      ensures IsStackEntry((stack + pending)[i])
    {
      if i >= |stack| {
        assert (stack + pending)[i] == pending[i - |stack|];
      }
    }
  }

  /** The parser over the tokens of `f`: whatever follows, it puts out
      `Done(f)` and leaves `Pending(f)` on the stack. */
  lemma {:induction false} ParseTokens(f: Formula, rest: seq<string>, output: seq<string>, stack: seq<string>)
    requires WellFormed(f) && StackOk(stack) && Shields(stack, Prec(f))
    ensures StackOk(stack + Pending(f))
    ensures ParseFrom(Tokens(f) + rest, output, stack) == ParseFrom(rest, output + Done(f), stack + Pending(f))
    decreases f, 2
  {
    ParenthesesAreNoOperators();
    DonePending(f);
    PendingStackOk(stack, Pending(f), Prec(f));
    match f
    case Var(x) =>
      ParseVariableStep(x, rest, output, stack);
      assert stack + Pending(f) == stack;
    case Neg(g) =>
      ParseNegation(g, rest, output, stack);
    case Bin(op, l, r) =>
      ParseBinary(op, l, r, rest, output, stack);
  }

  lemma {:induction false} ParseNegation(g: Formula, rest: seq<string>, output: seq<string>, stack: seq<string>)
    requires WellFormed(g) && StackOk(stack)
    requires StackOk(stack + Pending(Neg(g)))
    ensures ParseFrom(Tokens(Neg(g)) + rest, output, stack) ==
      ParseFrom(rest, output + Done(Neg(g)), stack + Pending(Neg(g)))
    decreases Neg(g), 0
  {
    var w := Prec(g) < Not.Precedence();
    var pushed := stack + [Not.Symbol()];
    NegationOpens(g, rest, output, stack);
    ParseSide(g, w, rest, output, pushed);
    assert Done(Neg(g)) == SideDone(g, w);
    assert Pending(Neg(g)) == [Not.Symbol()] + SidePending(g, w);
    Regroup(stack, [Not.Symbol()], SidePending(g, w), Pending(Neg(g)));
  }

  /** The `"!"` of a negation is pushed, popping nothing. */
  lemma NegationOpens(g: Formula, rest: seq<string>, output: seq<string>, stack: seq<string>)
    requires StackOk(stack)
    ensures StackOk(stack + [Not.Symbol()])
    ensures Shields(stack + [Not.Symbol()], Prec(g)) || Prec(g) < Not.Precedence()
    ensures ParseFrom(Tokens(Neg(g)) + rest, output, stack) ==
      ParseFrom(Wrapped(Tokens(g), Prec(g) < Not.Precedence()) + rest, output, stack + [Not.Symbol()])
  {
    var side := Wrapped(Tokens(g), Prec(g) < Not.Precedence());
    assert Tokens(Neg(g)) + rest == [Not.Symbol()] + (side + rest);
    ParseOperatorStep(Not, side + rest, output, stack);
    NothingPopsBeforeNot(stack);
    OperatorStepExact(Not, output, stack, []);
    assert stack + [] == stack && output + Reversed([]) == output;
    assert Top(stack + [Not.Symbol()]) == Not.Symbol();
    FromSymbolRoundTrip(Not);
  }

  /** No operator pops before a negation: nothing binds tighter, and the
      negation groups to the right. */
  lemma NothingPopsBeforeNot(stack: seq<string>)
    requires StackOk(stack)
    ensures stack == [] || Top(stack) == "(" || !PopsBefore(FromSymbol(Top(stack)).value, Not)
  {
    CatalogTable();
    if stack != [] && Top(stack) != "(" {
      var t := FromSymbol(Top(stack)).value;
      EqualPrecedenceSameAssociativity(t, Not);
    }
  }

  lemma {:induction false} ParseBinary(op: Operator, l: Formula, r: Formula, rest: seq<string>, output: seq<string>, stack: seq<string>)
    requires WellFormed(Bin(op, l, r)) && StackOk(stack) && Shields(stack, op.Precedence())
    requires StackOk(stack + Pending(Bin(op, l, r)))
    ensures ParseFrom(Tokens(Bin(op, l, r)) + rest, output, stack) ==
      ParseFrom(rest, output + Done(Bin(op, l, r)), stack + Pending(Bin(op, l, r)))
    decreases Bin(op, l, r), 1
  {
    ParenthesesAreNoOperators();
    var wr := WrapsRight(op, Prec(r));
    var right := Wrapped(Tokens(r), wr);
    var sym := op.Symbol();
    ParseLeftOperand(op, l, r, rest, output, stack);
    var o2, s2 := output + Postfix(l), stack + [sym];
    FromSymbolRoundTrip(op);
    assert Top(s2) == sym;
    assert StackOk(s2) by {
      assert forall i :: 0 <= i < |stack| ==> s2[i] == stack[i];
    }
    ParseSide(r, wr, rest, o2, s2);
    assert Done(Bin(op, l, r)) == Postfix(l) + SideDone(r, wr);
    Regroup(output, Postfix(l), SideDone(r, wr), Done(Bin(op, l, r)));
    assert Pending(Bin(op, l, r)) == [sym] + SidePending(r, wr);
    Regroup(stack, [sym], SidePending(r, wr), Pending(Bin(op, l, r)));
  }

  /** The left operand and the binary operator: the operand's held
      operators are popped, and the operator is pushed. */
  lemma {:induction false} ParseLeftOperand(op: Operator, l: Formula, r: Formula, rest: seq<string>, output: seq<string>, stack: seq<string>)
    requires WellFormed(Bin(op, l, r)) && StackOk(stack) && Shields(stack, op.Precedence())
    ensures ParseFrom(Tokens(Bin(op, l, r)) + rest, output, stack) ==
      ParseFrom(Wrapped(Tokens(r), WrapsRight(op, Prec(r))) + rest, output + Postfix(l), stack + [op.Symbol()])
    decreases Bin(op, l, r), 0
  {
    ParenthesesAreNoOperators();
    var wl := WrapsLeft(op, Prec(l));
    var left, right := Wrapped(Tokens(l), wl), Wrapped(Tokens(r), WrapsRight(op, Prec(r)));
    var sym := op.Symbol();
    assert Tokens(Bin(op, l, r)) + rest == left + ([sym] + (right + rest));
    LeftOperandShields(op, l, stack, wl);
    ParseSide(l, wl, [sym] + (right + rest), output, stack);
    var o1 := output + SideDone(l, wl);
    var s1 := stack + SidePending(l, wl);
    ParseOperatorStep(op, right + rest, o1, s1);
    SideDonePending(l, wl);
    LeftOperandPops(op, l, wl, stack);
    OperatorStepExact(op, o1, stack, SidePending(l, wl));
    Regroup(output, SideDone(l, wl), Reversed(SidePending(l, wl)), Postfix(l));
  }

  /** Unwrapped, the left operand's own operators are safe from nothing
      below the binary operator, and they all pop before it. */
  lemma LeftOperandShields(op: Operator, l: Formula, stack: seq<string>, wl: bool)
    requires StackOk(stack) && Shields(stack, op.Precedence()) && wl == WrapsLeft(op, Prec(l))
    ensures !wl ==> Shields(stack, Prec(l))
    ensures stack == [] || Top(stack) == "(" || !PopsBefore(FromSymbol(Top(stack)).value, op)
  {
    if stack != [] && Top(stack) != "(" {
      EqualPrecedenceSameAssociativity(FromSymbol(Top(stack)).value, op);
    }
  }

  lemma LeftOperandPops(op: Operator, l: Formula, wl: bool, stack: seq<string>)
    requires WellFormed(l) && wl == WrapsLeft(op, Prec(l))
    requires PendingOk(SidePending(l, wl), Prec(l))
    ensures forall i :: 0 <= i < |SidePending(l, wl)| ==>
      IsOperatorSymbol(SidePending(l, wl)[i]) && PopsBefore(FromSymbol(SidePending(l, wl)[i]).value, op)
    ensures StackOk(stack) ==> StackOk(stack + SidePending(l, wl))
  {
    var p := SidePending(l, wl);
    forall i | 0 <= i < |p|
      ensures IsOperatorSymbol(p[i]) && PopsBefore(FromSymbol(p[i]).value, op)
    {
      EqualPrecedenceSameAssociativity(FromSymbol(p[i]).value, op);
    }
    if StackOk(stack) {
      PendingStackOk(stack, p, Prec(l));
    }
  }

  /** An operand, wrapped or not. */
  lemma {:induction false} ParseSide(g: Formula, wrap: bool, rest: seq<string>, output: seq<string>, stack: seq<string>)
    requires WellFormed(g) && StackOk(stack) && (wrap || Shields(stack, Prec(g)))
    ensures StackOk(stack + SidePending(g, wrap))
    ensures ParseFrom(Wrapped(Tokens(g), wrap) + rest, output, stack) ==
      ParseFrom(rest, output + SideDone(g, wrap), stack + SidePending(g, wrap))
    decreases g, 4
  {
    ParenthesesAreNoOperators();
    if !wrap {
      ParseTokens(g, rest, output, stack);
    } else {
      assert stack + SidePending(g, wrap) == stack;
      ParseParenthesised(g, rest, output, stack);
    }
  }

  /** A parenthesised operand is complete once its `")"` has gone by. */
  lemma {:induction false} ParseParenthesised(g: Formula, rest: seq<string>, output: seq<string>, stack: seq<string>)
    requires WellFormed(g) && StackOk(stack)
    ensures ParseFrom(["("] + Tokens(g) + [")"] + rest, output, stack) == ParseFrom(rest, output + Postfix(g), stack)
    decreases g, 3
  {
    var inner := stack + ["("];
    assert StackOk(inner) by {
      assert forall i :: 0 <= i < |stack| ==> inner[i] == stack[i];
    }
    var body := Tokens(g) + ([")"] + rest);
    assert ["("] + Tokens(g) + [")"] + rest == ["("] + body;
    ParseOpenStep(body, output, stack);
    ParseTokens(g, [")"] + rest, output, inner);
    ParenthesisCloses(g, rest, output, stack);
  }

  /** The `")"` after an operand pops what the operand still held, and its
      `"("`. */
  lemma ParenthesisCloses(g: Formula, rest: seq<string>, output: seq<string>, stack: seq<string>)
    requires WellFormed(g) && StackOk(stack) && StackOk(stack + ["("] + Pending(g))
    ensures ParseFrom([")"] + rest, output + Done(g), stack + ["("] + Pending(g)) == ParseFrom(rest, output + Postfix(g), stack)
  {
    var held := stack + ["("] + Pending(g);
    DonePending(g);
    PendingHoldsNoParenthesis(Pending(g), Prec(g));
    CloseOverPending(output + Done(g), stack, Pending(g));
    Regroup(output, Done(g), Reversed(Pending(g)), Postfix(g));
    assert CloseParenthesis(output + Done(g), held) == Ok((output + Postfix(g), stack));
    ParseCloseStep(rest, output + Done(g), held, output + Postfix(g), stack);
  }

  lemma PendingHoldsNoParenthesis(pending: seq<string>, q: int)
    requires PendingOk(pending, q)
    ensures "(" !in pending
  {
    ParenthesesAreNoOperators();
    assert forall i :: 0 <= i < |pending| ==> pending[i] != "(";
  }

  /** At the end of the tokens, the held operators are all drained. */
  lemma DrainPending(output: seq<string>, pending: seq<string>, q: int)
    requires PendingOk(pending, q)
    ensures StackOk(pending)
    ensures ParseFrom([], output, pending) == Ok(output + Reversed(pending))
  {
    PendingHoldsNoParenthesis(pending, q);
  }

  /** A header's tokens parse to the tree's postfix walk. */
  lemma ParseRoundTrip(f: Formula)
    requires WellFormed(f)
    ensures ParseFrom(Tokens(f), [], []) == Ok(Postfix(f))
  {
    ParseTokens(f, [], [], []);
    assert Tokens(f) + [] == Tokens(f);
    assert [] + Done(f) == Done(f) && [] + Pending(f) == Pending(f);
    DonePending(f);
    DrainPending(Done(f), Pending(f), Prec(f));
  }

  // ---------------------------------------------------------------------
  // The text of a header.

  lemma {:induction false} ConcatAppend(a: seq<string>, b: seq<string>)
    ensures Concat(a + b) == Concat(a) + Concat(b)
    decreases |a|
  {
    if a == [] {
      assert a + b == b;
    } else {
      assert (a + b)[1..] == a[1..] + b;
      ConcatAppend(a[1..], b);
    }
  }

  /** Text with no whitespace in it is left alone. */
  lemma NoWhitespaceKept(t: string)
    requires forall i :: 0 <= i < |t| ==> !IsWhitespace(t[i])
    ensures RemoveWhitespace(t) == t
  {
    RemoveWhitespaceKeepsText(t, []);
    assert t + [] == t;
  }

  lemma SymbolText(op: Operator)
    ensures RemoveWhitespace(op.Symbol()) == op.Symbol() == Concat([op.Symbol()])
    ensures RemoveWhitespace(" " + op.Symbol() + " ") == op.Symbol()
  {
    FromSymbolRoundTrip(op);
    forall i | 0 <= i < |op.Symbol()|
      ensures !IsWhitespace(op.Symbol()[i])
    {
      SymbolCharacters(op.Symbol(), i);
    }
    NoWhitespaceKept(op.Symbol());
    RemoveWhitespaceKeepsText(" " + op.Symbol(), " ");
    RemoveWhitespaceKeepsText(" ", op.Symbol());
    assert RemoveWhitespace(" ") == [];
    assert Concat([op.Symbol()]) == op.Symbol() + Concat([]);
  }

  /** An operand's text, wrapped or not, against its tokens. */
  lemma WrappedText(t: string, ts: seq<string>, wrap: bool)
    requires RemoveWhitespace(t) == Concat(ts)
    ensures RemoveWhitespace(if wrap then Parenthesize(t) else t) == Concat(Wrapped(ts, wrap))
  {
    if wrap {
      RemoveWhitespaceKeepsText("(" + t, ")");
      RemoveWhitespaceKeepsText("(", t);
      NoWhitespaceKept("(");
      NoWhitespaceKept(")");
      ConcatAppend(["("] + ts, [")"]);
      ConcatAppend(["("], ts);
      assert Concat(["("]) == "(" + Concat([]);
      assert Concat([")"]) == ")" + Concat([]);
      assert Parenthesize(t) == "(" + t + ")";
    }
  }

  /** The header, whitespace removed, is its tokens written out; its
      precedence is the tree's. */
  lemma {:induction false} HeaderText(f: Formula, values: seq<Entry>)
    requires WellFormed(f) && Covers(values, f) && AtomsOnly(values)
    ensures EntryOf(f, values).precedence == Prec(f)
    ensures RemoveWhitespace(EntryOf(f, values).expression) == Concat(Tokens(f))
  {
    match f
    case Var(x) =>
      NoWhitespaceKept(x);
      assert Concat([x]) == x + Concat([]);
    case Neg(g) =>
      HeaderText(g, values);
      var e := EntryOf(g, values);
      var w := Prec(g) < Not.Precedence();
      WrappedText(e.expression, Tokens(g), w);
      SymbolText(Not);
      RemoveWhitespaceKeepsText(Not.Symbol(), OperandText(e, w));
      ConcatAppend([Not.Symbol()], Wrapped(Tokens(g), w));
    case Bin(op, l, r) =>
      HeaderText(l, values);
      HeaderText(r, values);
      BinaryHeaderText(op, l, r, values);
  }

  lemma BinaryHeaderText(op: Operator, l: Formula, r: Formula, values: seq<Entry>)
    requires WellFormed(Bin(op, l, r)) && Covers(values, Bin(op, l, r))
    requires Covers(values, l) && Covers(values, r)
    requires EntryOf(l, values).precedence == Prec(l) && EntryOf(r, values).precedence == Prec(r)
    requires RemoveWhitespace(EntryOf(l, values).expression) == Concat(Tokens(l))
    requires RemoveWhitespace(EntryOf(r, values).expression) == Concat(Tokens(r))
    ensures RemoveWhitespace(EntryOf(Bin(op, l, r), values).expression) == Concat(Tokens(Bin(op, l, r)))
  {
    var a, b := EntryOf(l, values), EntryOf(r, values);
    var wl, wr := WrapsLeft(op, Prec(l)), WrapsRight(op, Prec(r));
    var left, right := OperandText(a, wl), OperandText(b, wr);
    EntryOfBin(op, l, r, values);
    BinaryLayout(op, a, b, Truth(op, Values([a, b])));
    WrappedText(a.expression, Tokens(l), wl);
    WrappedText(b.expression, Tokens(r), wr);
    SymbolText(op);
    var lt, rt := Wrapped(Tokens(l), wl), Wrapped(Tokens(r), wr);
    JoinedText(left, op.Symbol(), right, lt, rt);
    assert Tokens(Bin(op, l, r)) == lt + [op.Symbol()] + rt;
  }

  lemma JoinedText(left: string, symbol: string, right: string, lt: seq<string>, rt: seq<string>)
    requires RemoveWhitespace(left) == Concat(lt) && RemoveWhitespace(right) == Concat(rt)
    requires RemoveWhitespace(" " + symbol + " ") == symbol == Concat([symbol])
    ensures RemoveWhitespace(left + " " + symbol + " " + right) == Concat(lt + [symbol] + rt)
  {
    var middle := " " + symbol + " ";
    assert left + " " + symbol + " " + right == (left + middle) + right;
    RemoveWhitespaceKeepsText(left + middle, right);
    RemoveWhitespaceKeepsText(left, middle);
    assert RemoveWhitespace(left + middle) == Concat(lt) + symbol;
    ConcatAppend(lt + [symbol], rt);
    ConcatAppend(lt, [symbol]);
    assert Concat(lt + [symbol]) == Concat(lt) + symbol;
  }

  lemma BinaryLayout(op: Operator, a: Entry, b: Entry, v: bool)
    requires op != Not
    ensures BuildLogicalVariable(op, [a, b], v).expression ==
      OperandText(a, WrapsLeft(op, a.precedence)) + " " + op.Symbol() + " " + OperandText(b, WrapsRight(op, b.precedence))
  {
  }

  /** Joining two texts makes no `"!!"` unless one ends and the other starts
      with `'!'`. */
  lemma {:induction false} JoinNoDoubleNegation(a: string, b: string)
    requires NoDoubleNegation(a) && NoDoubleNegation(b)
    requires |a| > 0 && |b| > 0 ==> !(a[|a| - 1] == '!' && b[0] == '!')
    ensures NoDoubleNegation(a + b)
    decreases |a|
  {
    if a == [] {
      assert a + b == b;
    } else {
      assert (a + b)[1..] == a[1..] + b;
      if |a| > 1 {
        assert a[1..][|a| - 2] == a[|a| - 1];
      }
      JoinNoDoubleNegation(a[1..], b);
    }
  }

  /** Header text that is not empty, holds no `"!!"` and does not end in
      `'!'`. */
  predicate Shaped(s: string)
  {
    |s| > 0 && NoDoubleNegation(s) && s[|s| - 1] != '!'
  }

  /** The text of a header with no negation directly under another holds
      no `"!!"`, and does not end in `'!'`. */
  lemma {:induction false} HeaderShape(f: Formula)
    requires WellFormed(f) && NoNestedNegation(f)
    ensures Shaped(Concat(Tokens(f)))
    ensures f.Var? ==> Concat(Tokens(f)) == f.name
  {
    match f
    case Var(x) =>
      assert Concat([x]) == x + Concat([]);
    case Neg(g) =>
      HeaderShape(g);
      NegationShape(g);
    case Bin(op, l, r) =>
      HeaderShape(l);
      HeaderShape(r);
      BinaryShape(op, l, r);
  }

  lemma NegationShape(g: Formula)
    requires WellFormed(g) && NoNestedNegation(Neg(g))
    requires g.Var? ==> Concat(Tokens(g)) == g.name
    requires Shaped(Concat(Tokens(g)))
    ensures Shaped(Concat(Tokens(Neg(g))))
  {
    var sg := Concat(Tokens(g));
    var w := Prec(g) < Not.Precedence();
    ConcatAppend([Not.Symbol()], Wrapped(Tokens(g), w));
    assert Concat([Not.Symbol()]) == "!" + Concat([]);
    var body := Concat(Wrapped(Tokens(g), w));
    if g.Var? {
      assert body == sg;
      assert |sg| == 1 && sg[0] != '!';
    } else {
      assert w;
      ParenthesisedShape(Tokens(g));
    }
    JoinNoDoubleNegation("!", body);
    assert Concat(Tokens(Neg(g))) == "!" + body;
  }

  lemma BinaryShape(op: Operator, l: Formula, r: Formula)
    requires op != Not && Shaped(Concat(Tokens(l))) && Shaped(Concat(Tokens(r)))
    ensures Shaped(Concat(Tokens(Bin(op, l, r))))
  {
    var wl, wr := WrapsLeft(op, Prec(l)), WrapsRight(op, Prec(r));
    WrappedShape(Tokens(l), wl);
    WrappedShape(Tokens(r), wr);
    BinaryText(op, l, r);
    JoinShape(Concat(Wrapped(Tokens(l), wl)), op, Concat(Wrapped(Tokens(r), wr)));
  }

  /** A binary node's text is its operands' texts around its symbol. */
  lemma BinaryText(op: Operator, l: Formula, r: Formula)
    requires op != Not
    ensures Concat(Tokens(Bin(op, l, r)))
      == Concat(Wrapped(Tokens(l), WrapsLeft(op, Prec(l)))) + op.Symbol()
         + Concat(Wrapped(Tokens(r), WrapsRight(op, Prec(r))))
  {
    var lt := Wrapped(Tokens(l), WrapsLeft(op, Prec(l)));
    var rt := Wrapped(Tokens(r), WrapsRight(op, Prec(r)));
    var m := op.Symbol();
    assert Tokens(Bin(op, l, r)) == lt + [m] + rt;
    ConcatAppend(lt + [m], rt);
    ConcatAppend(lt, [m]);
    assert Concat([m]) == m + Concat([]) == m;
  }

  lemma LastOfJoin(a: string, b: string)
    requires |b| > 0
    ensures |a + b| > 0 && (a + b)[|a + b| - 1] == b[|b| - 1]
  {
  }

  /** Text around a binary operator's symbol gains no `"!!"`. */
  lemma JoinShape(a: string, op: Operator, b: string)
    requires op != Not && Shaped(a) && Shaped(b)
    ensures Shaped(a + op.Symbol() + b)
  {
    var m := op.Symbol();
    SymbolShape(op);
    JoinNoDoubleNegation(a, m);
    LastOfJoin(a, m);
    JoinNoDoubleNegation(a + m, b);
    LastOfJoin(a + m, b);
  }

  /** A binary operator's symbol is not empty and holds no `'!'`. */
  lemma SymbolShape(op: Operator)
    requires op != Not
    ensures var m := op.Symbol(); Shaped(m) && m[0] != '!'
  {
    var m := op.Symbol();
    if |m| == 3 {
      assert NoDoubleNegation(m[2..]);
    }
    if |m| > 1 {
      assert NoDoubleNegation(m[1..]);
    }
  }

  lemma ParenthesisedShape(ts: seq<string>)
    requires Shaped(Concat(ts))
    ensures var s := Concat(Wrapped(ts, true)); Shaped(s) && s[0] == '('
  {
    var c := Concat(ts);
    ConcatAppend(["("] + ts, [")"]);
    ConcatAppend(["("], ts);
    assert Concat(["("]) == "(" + Concat([]);
    assert Concat([")"]) == ")" + Concat([]);
    assert Concat(Wrapped(ts, true)) == "(" + c + ")";
    JoinNoDoubleNegation("(", c);
    JoinNoDoubleNegation("(" + c, ")");
    assert ("(" + c + ")")[0] == '(';
    LastOfJoin("(" + c, ")");
  }

  lemma WrappedShape(ts: seq<string>, wrap: bool)
    requires Shaped(Concat(ts))
    ensures Shaped(Concat(Wrapped(ts, wrap)))
  {
    if wrap {
      ParenthesisedShape(ts);
    }
  }

  lemma BinarySymbolHasNoNegation(op: Operator)
    requires op != Not
    ensures forall i :: 0 <= i < |op.Symbol()| ==> op.Symbol()[i] != '!'
  {
  }

  /** The double-negation pass leaves text without `"!!"` alone. */
  lemma {:induction false} RemoveDoubleNegationKeeps(s: string)
    requires NoDoubleNegation(s)
    ensures RemoveDoubleNegation(s) == s
    decreases |s|
  {
    if s != [] {
      assert NoDoubleNegation(s[1..]);
      RemoveDoubleNegationKeeps(s[1..]);
      assert s == [s[0]] + s[1..];
    }
  }

  lemma {:induction false} TokensValid(f: Formula)
    requires WellFormed(f)
    ensures forall k :: 0 <= k < |Tokens(f)| ==> ValidToken(Tokens(f)[k])
  {
    match f
    case Var(x) =>
    case Neg(g) =>
      TokensValid(g);
      FromSymbolRoundTrip(Not);
      var side := Wrapped(Tokens(g), Prec(g) < Not.Precedence());
      WrappedValid(Tokens(g), Prec(g) < Not.Precedence());
      ValidConcat([Not.Symbol()], side);
    case Bin(op, l, r) =>
      TokensValid(l);
      TokensValid(r);
      FromSymbolRoundTrip(op);
      var lt, rt := Wrapped(Tokens(l), WrapsLeft(op, Prec(l))), Wrapped(Tokens(r), WrapsRight(op, Prec(r)));
      WrappedValid(Tokens(l), WrapsLeft(op, Prec(l)));
      WrappedValid(Tokens(r), WrapsRight(op, Prec(r)));
      ValidConcat(lt, [op.Symbol()]);
      ValidConcat(lt + [op.Symbol()], rt);
  }

  lemma ValidConcat(a: seq<string>, b: seq<string>)
    requires forall k :: 0 <= k < |a| ==> ValidToken(a[k])
    requires forall k :: 0 <= k < |b| ==> ValidToken(b[k])
    ensures forall k :: 0 <= k < |a + b| ==> ValidToken((a + b)[k])
  {
    forall k | 0 <= k < |a + b|
      ensures ValidToken((a + b)[k])
    {
      if k >= |a| {
        assert (a + b)[k] == b[k - |a|];
      }
    }
  }

  lemma WrappedValid(ts: seq<string>, wrap: bool)
    requires forall k :: 0 <= k < |ts| ==> ValidToken(ts[k])
    ensures forall k :: 0 <= k < |Wrapped(ts, wrap)| ==> ValidToken(Wrapped(ts, wrap)[k])
  {
    if wrap {
      ValidConcat(["("], ts);
      ValidConcat(["("] + ts, [")"]);
    }
  }

  /** A header, normalised and scanned, gives back the tree's tokens. */
  lemma HeaderTokenizes(f: Formula, values: seq<Entry>)
    requires WellFormed(f) && NoNestedNegation(f) && Covers(values, f) && AtomsOnly(values)
    ensures ScanFrom(RemoveWhitespaceAndRedundantNegation(EntryOf(f, values).expression), 0) == Ok(Tokens(f))
  {
    HeaderText(f, values);
    HeaderShape(f);
    RemoveDoubleNegationKeeps(Concat(Tokens(f)));
    TokensValid(f);
    ScanConcat(Concat(Tokens(f)), 0, Tokens(f));
  }

  /** The header the evaluator builds for a tree, tokenized and parsed, gives
      back the postfix walk the evaluator ran over, whose value is the tree's
      truth value: every header names its own column. */
  lemma HeaderReadsBack(f: Formula, values: seq<Entry>, env: map<string, bool>)
    requires WellFormed(f) && NoNestedNegation(f) && VarsOf(f) <= env.Keys
    requires Assigns(values, env) && AtomsOnly(values)
    ensures Covers(values, f)
    ensures ScanFrom(RemoveWhitespaceAndRedundantNegation(EntryOf(f, values).expression), 0) == Ok(Tokens(f))
    ensures ParseFrom(Tokens(f), [], []) == Ok(Postfix(f))
    ensures Evaluation(Corrected, Postfix(f), values) == Ok(values + Trace(f, values))
    ensures EntryOf(f, values).value == Denotation(f, env)
  {
    EvaluatePostfix(f, values, env);
    HeaderTokenizes(f, values);
    ParseRoundTrip(f);
  }

  // ---------------------------------------------------------------------
  // The right-operand rule as the source writes it.

  const RightNested: Formula := Bin(And, Var("A"), Bin(Nand, Var("B"), Var("C")))
  const LeftNested: Formula := Bin(Nand, Bin(And, Var("A"), Var("B")), Var("C"))

  const AllFalse: seq<Entry> := [Atom("A", false), Atom("B", false), Atom("C", false)]

  /** With the source's rule, `A & (B / C)` and `(A & B) / C` both get the
      header `A & B / C`, yet with every variable false the first is false
      and the second true. */
  lemma AsWrittenHeaderIsAmbiguous()
    ensures var a, b, c := AllFalse[0], AllFalse[1], AllFalse[2];
      var bc := BuildLogicalVariableAsWritten(Nand, [b, c], Truth(Nand, [b.value, c.value]));
      var ab := BuildLogicalVariableAsWritten(And, [a, b], Truth(And, [a.value, b.value]));
      var right := BuildLogicalVariableAsWritten(And, [a, bc], Truth(And, [a.value, bc.value]));
      var left := BuildLogicalVariableAsWritten(Nand, [ab, c], Truth(Nand, [ab.value, c.value]));
      right.expression == left.expression == "A & B / C" && !right.value && left.value
  {
    AsWrittenInnerNand();
    AsWrittenInnerAnd();
    var a, b, c := AllFalse[0], AllFalse[1], AllFalse[2];
    var bc := Entry("B / C", true, Nand.Precedence());
    var ab := Entry("A & B", false, And.Precedence());
    assert BuildLogicalVariableAsWritten(And, [a, bc], false).expression == "A" + " " + "&" + " " + "B / C";
    assert BuildLogicalVariableAsWritten(Nand, [ab, c], true).expression == "A & B" + " " + "/" + " " + "C";
  }

  lemma AsWrittenInnerNand()
    ensures BuildLogicalVariableAsWritten(Nand, [AllFalse[1], AllFalse[2]], Truth(Nand, [false, false]))
      == Entry("B / C", true, Nand.Precedence())
  {
    assert Truth(Nand, [false, false]);
  }

  lemma AsWrittenInnerAnd()
    ensures BuildLogicalVariableAsWritten(And, [AllFalse[0], AllFalse[1]], Truth(And, [false, false]))
      == Entry("A & B", false, And.Precedence())
  {
    assert !Truth(And, [false, false]);
  }

  lemma AllFalseLookups()
    ensures FirstMatch(AllFalse, "A") == Some(0) && FirstMatch(AllFalse, "B") == Some(1)
    ensures FirstMatch(AllFalse, "C") == Some(2)
  {
    assert FirstMatch(AllFalse, "A") == Some(0);
    assert FirstMatch(AllFalse[1..], "B") == Some(0);
    assert FirstMatch(AllFalse[2..], "C") == Some(0);
  }

  /** Both trees are well formed, and the all-false list names their
      variables. */
  lemma AllFalseCovers()
    ensures AtomsOnly(AllFalse)
    ensures Covers(AllFalse, RightNested) && Covers(AllFalse, LeftNested)
    ensures WellFormed(LeftNested) && NoNestedNegation(LeftNested)
    ensures WellFormed(RightNested) && NoNestedNegation(RightNested)
  {
    AllFalseLookups();
    assert VarsOf(LeftNested) == {"A", "B", "C"} == VarsOf(RightNested);
  }

  /** The inner `B / C` of the right-nested tree, with both variables false. */
  lemma InnerNandEntry()
    ensures Covers(AllFalse, RightNested.right) && WellFormed(RightNested.right)
    ensures EntryOf(RightNested.right, AllFalse) == Entry("B / C", true, Nand.Precedence())
  {
    AllFalseCovers();
    AllFalseLookups();
    assert EntryOf(Var("B"), AllFalse) == AllFalse[1];
    assert EntryOf(Var("C"), AllFalse) == AllFalse[2];
  }

  lemma RightNestedHeader()
    ensures Covers(AllFalse, RightNested)
    ensures EntryOf(RightNested, AllFalse).expression == "A & (B / C)"
  {
    AllFalseCovers();
    AllFalseLookups();
    InnerNandEntry();
    assert EntryOf(Var("A"), AllFalse) == AllFalse[0];
    assert EntryOf(RightNested, AllFalse).expression == "A" + " " + "&" + " " + Parenthesize("B / C");
  }

  lemma LeftNestedHeader()
    ensures Covers(AllFalse, LeftNested)
    ensures EntryOf(LeftNested, AllFalse).expression == "A & B / C"
  {
    AllFalseCovers();
    AllFalseLookups();
    var a, b, c := AllFalse[0], AllFalse[1], AllFalse[2];
    assert EntryOf(Var("A"), AllFalse) == a;
    assert EntryOf(Var("B"), AllFalse) == b;
    assert EntryOf(Var("C"), AllFalse) == c;
    var ab := EntryOf(Bin(And, Var("A"), Var("B")), AllFalse);
    assert ab.expression == "A & B";
    assert EntryOf(LeftNested, AllFalse).expression == "A & B" + " " + "/" + " " + "C";
  }

  /** With the corrected rule the two trees get different headers. */
  lemma CorrectedHeadersDiffer()
    ensures Covers(AllFalse, RightNested) && Covers(AllFalse, LeftNested)
    ensures EntryOf(RightNested, AllFalse).expression == "A & (B / C)"
    ensures EntryOf(LeftNested, AllFalse).expression == "A & B / C"
  {
    RightNestedHeader();
    LeftNestedHeader();
  }

  /** The shared text `A & B / C` tokenizes and parses to the postfix walk
      of `(A & B) / C`, not of `A & (B / C)`: the source's header for the
      latter names the former's column. */
  lemma SharedHeaderReadsAsLeftNested()
    ensures ParseFrom(Tokens(LeftNested), [], []) == Ok(Postfix(LeftNested))
    ensures ScanFrom(RemoveWhitespaceAndRedundantNegation("A & B / C"), 0) == Ok(Tokens(LeftNested))
    ensures Postfix(LeftNested) != Postfix(RightNested)
  {
    ParseRoundTrip(LeftNested);
    SharedHeaderScans();
    PostfixesDiffer();
  }

  lemma PostfixesDiffer()
    ensures Postfix(LeftNested) != Postfix(RightNested)
  {
    assert Postfix(LeftNested)[2] == "&" && Postfix(RightNested)[2] == "C";
  }

  lemma SharedHeaderScans()
    ensures ScanFrom(RemoveWhitespaceAndRedundantNegation("A & B / C"), 0) == Ok(Tokens(LeftNested))
  {
    AllFalseCovers();
    LeftNestedHeader();
    HeaderTokenizes(LeftNested, AllFalse);
  }
}
