/** Expression trees over the operator catalog, their postfix walk and their
    truth value, and what the evaluator computes on a postfix walk: the entry
    it builds for every subtree and the calculation path it records. */
module Formulas {
  import opened Errors
  import opened Operators
  import opened Tokenizer
  import opened RpnEvaluator

  datatype Formula = Var(name: string) | Neg(arg: Formula) | Bin(op: Operator, left: Formula, right: Formula)

  /** Variables are variable tokens, and binary nodes carry binary operators. */
  predicate WellFormed(f: Formula) {
    match f
    case Var(x) => IsVariable(x)
    case Neg(g) => WellFormed(g)
    case Bin(op, l, r) => op != Not && WellFormed(l) && WellFormed(r)
  }

  function VarsOf(f: Formula): set<string> {
    match f
    case Var(x) => {x}
    case Neg(g) => VarsOf(g)
    case Bin(_, l, r) => VarsOf(l) + VarsOf(r)
  }

  /** The postfix (RPN) token sequence of a tree. */
  function Postfix(f: Formula): seq<string> {
    match f
    case Var(x) => [x]
    case Neg(g) => Postfix(g) + [Not.Symbol()]
    case Bin(op, l, r) => Postfix(l) + Postfix(r) + [op.Symbol()]
  }

  /** The truth value of a tree under `env`, with each connective written out
      as a boolean expression. */
  function Denotation(f: Formula, env: map<string, bool>): bool
    requires WellFormed(f) && VarsOf(f) <= env.Keys
  {
    match f
    case Var(x) => env[x]
    case Neg(g) => !Denotation(g, env)
    case Bin(op, l, r) =>
      var a, b := Denotation(l, env), Denotation(r, env);
      match op
      case And => a && b
      case Nand => !(a && b)
      case Or => a || b
      case Xor => a != b
      case Nor => !(a || b)
      case Implies => !a || b
      case Equiv => a == b
  }

  /** The assignment list names every variable of `f`. */
  predicate Covers(values: seq<Entry>, f: Formula) {
    forall x :: x in VarsOf(f) ==> FirstMatch(values, x).Some?
  }

  /** The assignment list agrees with `env`: the first entry named by each
      variable carries that variable's value. */
  predicate Assigns(values: seq<Entry>, env: map<string, bool>) {
    forall x :: x in env ==> FirstMatch(values, x).Some? && values[FirstMatch(values, x).value].value == env[x]
  }

  /** The entry the evaluator builds for a subtree. */
  function EntryOf(f: Formula, values: seq<Entry>): Entry
    requires WellFormed(f) && Covers(values, f)
  {
    match f
    case Var(x) => values[FirstMatch(values, x).value]
    case Neg(g) =>
      var e := EntryOf(g, values);
      BuildLogicalVariable(Not, [e], Truth(Not, [e.value]))
    case Bin(op, l, r) =>
      var a, b := EntryOf(l, values), EntryOf(r, values);
      BuildLogicalVariable(op, [a, b], Truth(op, [a.value, b.value]))
  }

  /** The entries the evaluator appends to the path for a subtree, innermost
      operator first. */
  function Trace(f: Formula, values: seq<Entry>): seq<Entry>
    requires WellFormed(f) && Covers(values, f)
  {
    match f
    case Var(_) => []
    case Neg(g) => Trace(g, values) + [EntryOf(f, values)]
    case Bin(_, l, r) => Trace(l, values) + Trace(r, values) + [EntryOf(f, values)]
  }

  lemma TraceLength(f: Formula, values: seq<Entry>)
    requires WellFormed(f) && Covers(values, f)
    ensures |Trace(f, values)| == OperatorCount(Postfix(f))
    ensures !f.Var? ==> Trace(f, values) != [] && Trace(f, values)[|Trace(f, values)| - 1] == EntryOf(f, values)
  {
    match f
    case Var(x) =>
      assert !IsOperatorSymbol(x) by {
        if IsOperatorSymbol(x) { OperatorIsNoVariable(x); }
      }
    case Neg(g) =>
      TraceLength(g, values);
      OperatorCountOfConcat(Postfix(g), [Not.Symbol()]);
    case Bin(op, l, r) =>
      TraceLength(l, values);
      TraceLength(r, values);
      FromSymbolRoundTrip(op);
      OperatorCountOfConcat(Postfix(l), Postfix(r));
      OperatorCountOfConcat(Postfix(l) + Postfix(r), [op.Symbol()]);
  }

  lemma {:induction false} OperatorCountOfConcat(a: seq<string>, b: seq<string>)
    ensures OperatorCount(a + b) == OperatorCount(a) + OperatorCount(b)
    decreases |a|
  {
    if a == [] {
      assert a + b == b;
    } else {
      assert (a + b)[1..] == a[1..] + b;
      OperatorCountOfConcat(a[1..], b);
    }
  }

  /** Running the machine over the postfix walk of `f` pushes exactly the
      entry of `f` and appends exactly the trace of `f`, whatever is stacked
      below and whatever follows. */
  lemma {:induction false} RunPostfix(f: Formula, values: seq<Entry>, rest: seq<string>, stack: seq<Entry>, path: seq<Entry>)
    requires WellFormed(f) && Covers(values, f)
    ensures Run(Corrected, Postfix(f) + rest, values, stack, path) ==
      Run(Corrected, rest, values, stack + [EntryOf(f, values)], path + Trace(f, values))
  {
    match f
    case Var(x) =>
      RunVariable(Corrected, x, rest, values, stack, path);
      assert path + Trace(f, values) == path;
    case Neg(g) =>
      RunPostfix(g, values, [Not.Symbol()] + rest, stack, path);
      RunPostfixNeg(g, values, rest, stack, path);
    case Bin(op, l, r) =>
      var tail := [op.Symbol()] + rest;
      RunPostfix(l, values, Postfix(r) + tail, stack, path);
      RunPostfix(r, values, tail, stack + [EntryOf(l, values)], path + Trace(l, values));
      RunPostfixBin(op, l, r, values, rest, stack, path);
  }

  /** The negation case of `RunPostfix`, given its operand's case. */
  lemma RunPostfixNeg(g: Formula, values: seq<Entry>, rest: seq<string>, stack: seq<Entry>, path: seq<Entry>)
    requires WellFormed(g) && Covers(values, g)
    requires Run(Corrected, Postfix(g) + ([Not.Symbol()] + rest), values, stack, path) ==
      Run(Corrected, [Not.Symbol()] + rest, values, stack + [EntryOf(g, values)], path + Trace(g, values))
    ensures Run(Corrected, Postfix(Neg(g)) + rest, values, stack, path) ==
      Run(Corrected, rest, values, stack + [EntryOf(Neg(g), values)], path + Trace(Neg(g), values))
  {
    var f := Neg(g);
    var e := EntryOf(g, values);
    assert Postfix(f) + rest == Postfix(g) + ([Not.Symbol()] + rest);
    assert Values([e]) == [e.value];
    var e' := BuildLogicalVariable(Not, [e], Truth(Not, Values([e])));
    assert e' == EntryOf(f, values);
    RunOperator(Corrected, Not, rest, values, stack, [e], path + Trace(g, values));
    assert Trace(f, values) == Trace(g, values) + [e'];
    assert path + Trace(g, values) + [e'] == path + (Trace(g, values) + [e']);
  }

  /** The binary case of `RunPostfix`, given its two operands' cases. */
  lemma RunPostfixBin(op: Operator, l: Formula, r: Formula, values: seq<Entry>, rest: seq<string>, stack: seq<Entry>, path: seq<Entry>)
    requires WellFormed(Bin(op, l, r)) && Covers(values, Bin(op, l, r))
    requires Covers(values, l) && Covers(values, r)
    requires var tail := [op.Symbol()] + rest;
      Run(Corrected, Postfix(l) + (Postfix(r) + tail), values, stack, path) ==
        Run(Corrected, Postfix(r) + tail, values, stack + [EntryOf(l, values)], path + Trace(l, values))
    requires var tail := [op.Symbol()] + rest;
      Run(Corrected, Postfix(r) + tail, values, stack + [EntryOf(l, values)], path + Trace(l, values)) ==
        Run(Corrected, tail, values, stack + [EntryOf(l, values)] + [EntryOf(r, values)],
          path + Trace(l, values) + Trace(r, values))
    ensures Run(Corrected, Postfix(Bin(op, l, r)) + rest, values, stack, path) ==
      Run(Corrected, rest, values, stack + [EntryOf(Bin(op, l, r), values)], path + Trace(Bin(op, l, r), values))
  {
    var f := Bin(op, l, r);
    var a, b := EntryOf(l, values), EntryOf(r, values);
    BinParts(op, l, r, values, rest, stack, path);
    RunOperator(Corrected, op, rest, values, stack, [a, b], path + Trace(l, values) + Trace(r, values));
  }

  /** The sequence identities behind `RunPostfixBin`. */
  lemma BinParts(op: Operator, l: Formula, r: Formula, values: seq<Entry>, rest: seq<string>, stack: seq<Entry>, path: seq<Entry>)
    requires WellFormed(Bin(op, l, r)) && Covers(values, Bin(op, l, r))
    ensures Postfix(Bin(op, l, r)) + rest == Postfix(l) + (Postfix(r) + ([op.Symbol()] + rest))
    ensures stack + [EntryOf(l, values)] + [EntryOf(r, values)] == stack + [EntryOf(l, values), EntryOf(r, values)]
    ensures var a, b := EntryOf(l, values), EntryOf(r, values);
      var e := BuildLogicalVariable(op, [a, b], Truth(op, Values([a, b])));
      e == EntryOf(Bin(op, l, r), values) &&
      path + Trace(l, values) + Trace(r, values) + [e] == path + Trace(Bin(op, l, r), values)
  {
    PostfixOfBin(op, l, r, rest);
    var a, b := EntryOf(l, values), EntryOf(r, values);
    assert stack + [a] + [b] == stack + [a, b];
    EntryOfBin(op, l, r, values);
    var e := EntryOf(Bin(op, l, r), values);
    assert Trace(Bin(op, l, r), values) == Trace(l, values) + Trace(r, values) + [e];
    AppendAssociates(path, Trace(l, values), Trace(r, values), [e]);
  }

  lemma AppendAssociates<T>(p: seq<T>, x: seq<T>, y: seq<T>, z: seq<T>)
    ensures p + x + y + z == p + (x + y + z)
  {
  }

  lemma PostfixOfBin(op: Operator, l: Formula, r: Formula, rest: seq<string>)
    ensures Postfix(Bin(op, l, r)) + rest == Postfix(l) + (Postfix(r) + ([op.Symbol()] + rest))
  {
  }

  lemma EntryOfBin(op: Operator, l: Formula, r: Formula, values: seq<Entry>)
    requires WellFormed(Bin(op, l, r)) && Covers(values, Bin(op, l, r))
    ensures var a, b := EntryOf(l, values), EntryOf(r, values);
      BuildLogicalVariable(op, [a, b], Truth(op, Values([a, b]))) == EntryOf(Bin(op, l, r), values)
  {
    var a, b := EntryOf(l, values), EntryOf(r, values);
    assert Values([a, b]) == [a.value, b.value];
  }

  /** The entry's value is the tree's truth value. */
  lemma {:induction false} EntryValue(f: Formula, values: seq<Entry>, env: map<string, bool>)
    requires WellFormed(f) && VarsOf(f) <= env.Keys && Assigns(values, env)
    ensures Covers(values, f)
    ensures EntryOf(f, values).value == Denotation(f, env)
  {
    match f
    case Var(x) =>
    case Neg(g) =>
      EntryValue(g, values, env);
    case Bin(op, l, r) =>
      EntryValue(l, values, env);
      EntryValue(r, values, env);
      BinValue(op, l, r, values, env);
  }

  /** A binary node's entry applies its operator's truth table to the
      entries of its operands. */
  lemma BinValue(op: Operator, l: Formula, r: Formula, values: seq<Entry>, env: map<string, bool>)
    requires WellFormed(Bin(op, l, r)) && VarsOf(Bin(op, l, r)) <= env.Keys && Covers(values, Bin(op, l, r))
    requires EntryOf(l, values).value == Denotation(l, env)
    requires EntryOf(r, values).value == Denotation(r, env)
    ensures EntryOf(Bin(op, l, r), values).value == Denotation(Bin(op, l, r), env)
  {
    var a, b := EntryOf(l, values), EntryOf(r, values);
    assert EntryOf(Bin(op, l, r), values).value == Truth(op, [a.value, b.value]);
  }

  /** Evaluating the postfix walk of a well-formed tree succeeds; the path is
      the assignment followed by the trace, the one entry left on the stack is
      the tree's own, and its value is the tree's truth value. */
  lemma EvaluatePostfix(f: Formula, values: seq<Entry>, env: map<string, bool>)
    requires WellFormed(f) && VarsOf(f) <= env.Keys && Assigns(values, env)
    ensures Covers(values, f)
    ensures Run(Corrected, Postfix(f), values, [], values) == Ok(([EntryOf(f, values)], values + Trace(f, values)))
    ensures Evaluation(Corrected, Postfix(f), values) == Ok(values + Trace(f, values))
    ensures EntryOf(f, values).value == Denotation(f, env)
  {
    EntryValue(f, values, env);
    RunPostfix(f, values, [], [], values);
    assert Postfix(f) + [] == Postfix(f);
    assert [] + [EntryOf(f, values)] == [EntryOf(f, values)];
  }

  /** With the headers as RPNEvaluator.java writes them, evaluating a tree's
      postfix walk succeeds as well, with a path of the same length whose
      columns hold the same values; the final column holds the tree's truth
      value. */
  lemma EvaluatePostfixAsWritten(f: Formula, values: seq<Entry>, env: map<string, bool>)
    requires WellFormed(f) && VarsOf(f) <= env.Keys && Assigns(values, env)
    ensures Covers(values, f)
    ensures Evaluation(AsWritten, Postfix(f), values).Ok?
    ensures SameButText(Evaluation(AsWritten, Postfix(f), values).value, values + Trace(f, values))
    ensures !f.Var? ==> var path := Evaluation(AsWritten, Postfix(f), values).value;
      |path| > |values| && path[|path| - 1].value == Denotation(f, env)
  {
    EvaluatePostfix(f, values, env);
    EvaluationsAgree(Postfix(f), values);
    TraceLength(f, values);
  }
}
