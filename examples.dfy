/** Worked examples of each stage, taken from the cases the source's own
    comments name. */
module Examples {
  import opened Errors
  import opened Operators
  import opened Tokenizer
  import opened ShuntingYard
  import opened RpnEvaluator
  import opened Formulas
  import opened ReadBack

  /** Greedy matching: `<->` is one token, not `<` followed by `->`. */
  lemma GreedyScan()
    ensures ScanFrom("A<->B", 0) == Ok(["A", "<->", "B"])
  {
    var e := "A<->B";
    LongestPrefixOfSymbol(Equiv, "B");
    assert e[1..] == Equiv.Symbol() + "B";
    assert NextToken(e, 0) == Ok("A");
    assert NextToken(e, 1) == Ok("<->");
    assert NextToken(e, 4) == Ok("B");
    assert ScanFrom(e, 5) == Ok([]);
    assert |"B"| == 1 && |"<->"| == 3 && |"A"| == 1;
    assert ScanFrom(e, 4) == Ok(["B"] + []);
    assert ["B"] + [] == ["B"];
    assert ScanFrom(e, 1) == Ok(["<->"] + ["B"]);
    assert ["<->"] + ["B"] == ["<->", "B"];
    assert ScanFrom(e, 0) == Ok(["A"] + ["<->", "B"]);
    assert ["A"] + ["<->", "B"] == ["A", "<->", "B"];
  }

  /** Whitespace goes first, then each `"!!"`. */
  lemma Normalisation()
    ensures RemoveWhitespaceAndRedundantNegation("A & B") == "A&B"
    ensures RemoveWhitespaceAndRedundantNegation("! !A") == "A"
    ensures RemoveWhitespaceAndRedundantNegation("!!!A") == "!A"
  {
    SpacesGo();
    SpacedPairGoes();
    TripleLeavesOne();
  }

  lemma SpacesGo()
    ensures RemoveWhitespaceAndRedundantNegation("A & B") == "A&B"
  {
    RemoveWhitespaceKeepsText("A", " & B");
    RemoveWhitespaceKeepsText(" &", " B");
    assert RemoveWhitespace(" &") == "&";
    assert RemoveWhitespace(" B") == "B";
    assert RemoveWhitespace("A & B") == "A&B";
    assert RemoveDoubleNegation("B") == "B";
    assert RemoveDoubleNegation("&B") == "&B";
  }

  lemma SpacedPairGoes()
    ensures RemoveWhitespaceAndRedundantNegation("! !A") == "A"
  {
    RemoveWhitespaceKeepsText("!", " !A");
    RemoveWhitespaceKeepsText(" ", "!A");
    assert RemoveWhitespace(" ") == [];
    assert RemoveWhitespace("! !A") == "!!A";
    assert "!!A"[2..] == "A";
  }

  lemma TripleLeavesOne()
    ensures RemoveWhitespaceAndRedundantNegation("!!!A") == "!A"
  {
    RemoveWhitespaceKeepsText("!!!A", "");
    assert "!!!A" + "" == "!!!A";
    assert "!!!A"[2..] == "!A";
    assert "!A"[1..] == "A";
  }

  /** A lower-case letter is an invalid character; a lone `-`, a lone `<`
      and a digit are unknown tokens. */
  lemma ScanErrors()
    ensures ScanFrom("a&B", 0) == Err(InvalidCharacter)
    ensures ScanFrom("A-B", 0) == Err(UnknownToken)
    ensures ScanFrom("A<B", 0) == Err(UnknownToken)
    ensures ScanFrom("A&1", 0) == Err(UnknownToken)
  {
    assert NextToken("a&B", 0) == Err(InvalidCharacter);
    LoneDash();
    LoneLess();
    Digit();
  }

  lemma LoneDash()
    ensures ScanFrom("A-B", 0) == Err(UnknownToken)
  {
    assert NextToken("A-B", 0) == Ok("A");
    assert "A-B"[1..][..2] == "-B" && "A-B"[1..][..1] == "-";
    assert NextToken("A-B", 1) == Err(UnknownToken);
  }

  lemma LoneLess()
    ensures ScanFrom("A<B", 0) == Err(UnknownToken)
  {
    assert NextToken("A<B", 0) == Ok("A");
    assert "A<B"[1..][..2] == "<B" && "A<B"[1..][..1] == "<";
    assert NextToken("A<B", 1) == Err(UnknownToken);
  }

  lemma Digit()
    ensures ScanFrom("A&1", 0) == Err(UnknownToken)
  {
    assert NextToken("A&1", 0) == Ok("A");
    assert "A&1"[1..][..2] == "&1" && "A&1"[1..][..1] == "&";
    assert NextToken("A&1", 1) == Ok("&");
    assert "A&1"[2..][..1] == "1";
    assert NextToken("A&1", 2) == Err(UnknownToken);
  }

  /** `&` groups to the left: the first `&` is popped by the second. This
      is the round trip of the tree `(A & B) & C`. */
  lemma LeftAssociativeParse()
    ensures ParseFrom(["A", "&", "B", "&", "C"], [], []) == Ok(["A", "B", "&", "C", "&"])
  {
    var f := Bin(And, Bin(And, Var("A"), Var("B")), Var("C"));
    ParseRoundTrip(f);
    assert Tokens(Bin(And, Var("A"), Var("B"))) == ["A", "&", "B"];
    assert Tokens(f) == ["A", "&", "B", "&", "C"];
    assert Postfix(f) == ["A", "B", "&", "C", "&"];
  }

  /** `->` groups to the right: both stay stacked until the end. */
  lemma RightAssociativeParse()
    ensures ParseFrom(["A", "->", "B", "->", "C"], [], []) == Ok(["A", "B", "C", "->", "->"])
  {
    RightParseOpening();
    RightParseClosing();
  }

  lemma RightParseOpening()
    ensures ParseFrom(["A", "->", "B", "->", "C"], [], []) == ParseFrom(["B", "->", "C"], ["A"], ["->"])
  {
    var t0, t1, t2 := ["A", "->", "B", "->", "C"], ["->", "B", "->", "C"], ["B", "->", "C"];
    FromSymbolRoundTrip(Implies);
    assert ParseFrom(t0, [], []) == ParseFrom(t1, ["A"], []) by {
      assert t0 == ["A"] + t1 && [] + ["A"] == ["A"];
      ParseVariableStep("A", t1, [], []);
    }
    assert t1 == [Implies.Symbol()] + t2 && [] + ["->"] == ["->"];
    ParseOperatorStep(Implies, t2, ["A"], []);
  }

  lemma RightParseClosing()
    ensures ParseFrom(["B", "->", "C"], ["A"], ["->"]) == Ok(["A", "B", "C", "->", "->"])
  {
    var t2, t3, t4 := ["B", "->", "C"], ["->", "C"], ["C"];
    assert ParseFrom(t2, ["A"], ["->"]) == ParseFrom(t3, ["A", "B"], ["->"]) by {
      assert t2 == ["B"] + t3 && ["A"] + ["B"] == ["A", "B"];
      ParseVariableStep("B", t3, ["A"], ["->"]);
    }
    RightParseSecondArrow();
    RightParseEnd();
  }

  lemma RightParseSecondArrow()
    ensures ParseFrom(["->", "C"], ["A", "B"], ["->"]) == ParseFrom(["C"], ["A", "B"], ["->", "->"])
  {
    FromSymbolRoundTrip(Implies);
    assert ["->", "C"] == [Implies.Symbol()] + ["C"];
    assert !PopsBefore(Implies, Implies) && Top(["->"]) == "->";
    assert PopOperators(Implies, ["A", "B"], ["->"]) == (["A", "B"], ["->"]);
    assert ["->"] + ["->"] == ["->", "->"];
    assert OperatorStep("->", ["A", "B"], ["->"]) == (["A", "B"], ["->", "->"]);
    ParseOperatorStep(Implies, ["C"], ["A", "B"], ["->"]);
  }

  lemma RightParseEnd()
    ensures ParseFrom(["C"], ["A", "B"], ["->", "->"]) == Ok(["A", "B", "C", "->", "->"])
  {
    assert ["C"] == ["C"] + [] && ["A", "B"] + ["C"] == ["A", "B", "C"];
    ParseVariableStep("C", [], ["A", "B"], ["->", "->"]);
    assert Reversed(["->", "->"]) == ["->", "->"];
    assert ["A", "B", "C"] + ["->", "->"] == ["A", "B", "C", "->", "->"];
  }

  /** A `")"` without its `"("`, and a `"("` never closed. */
  lemma ParenthesisErrors()
    ensures ParseFrom(["A", ")"], [], []) == Err(MismatchedParentheses)
    ensures ParseFrom(["(", "A"], [], []) == Err(MismatchedParentheses)
  {
    assert ["A", ")"][1..] == [")"];
    assert ["(", "A"][1..] == ["A"];
    ParenthesesAreNoOperators();
  }

  /** The evaluator's three ways to fail. */
  lemma EvaluationErrors()
    ensures Evaluation(Corrected, ["A", "&"], [Atom("A", true)]) == Err(InsufficientOperands)
    ensures Evaluation(Corrected, ["A", "B"], [Atom("A", true), Atom("B", false)]) == Err(MalformedResult)
    ensures Evaluation(Corrected, ["X"], [Atom("A", true)]) == Err(UnknownVariable)
  {
    FromSymbolRoundTrip(And);
    assert ["A", "&"][1..] == ["&"];
    assert FirstMatch([Atom("A", true)], "A") == Some(0);
    assert Step(Corrected, "&", [Atom("A", true)], [Atom("A", true)], [Atom("A", true)]) == Err(InsufficientOperands);
    assert ["A", "B"][1..] == ["B"];
    assert FirstMatch([Atom("A", true), Atom("B", false)], "B") == Some(1);
    assert FirstMatch([Atom("A", true)], "X") == None;
  }

  /** A negation over a negation is written `!!A`. */
  lemma DoubleNegationHeader(a: bool, v: bool)
    ensures var notA := BuildLogicalVariable(Not, [Atom("A", a)], !a);
      BuildLogicalVariable(Not, [notA], v).expression == "!!A"
  {
  }

  /** A negation over a conjunction keeps its parentheses: `!(A & B)`. */
  lemma NegatedConjunctionHeader(a: bool, b: bool, v: bool)
    ensures var ab := BuildLogicalVariable(And, [Atom("A", a), Atom("B", b)], a && b);
      BuildLogicalVariable(Not, [ab], v).expression == "!(A & B)"
  {
    assert "A" + " " + "&" + " " + "B" == "A & B";
  }

  /** A left-nested chain of a left-associative operator is flat: `A & B & C`. */
  lemma LeftChainHeader(a: bool, b: bool, c: bool, v: bool)
    ensures var ab := BuildLogicalVariable(And, [Atom("A", a), Atom("B", b)], a && b);
      BuildLogicalVariable(And, [ab, Atom("C", c)], v).expression == "A & B & C"
  {
    assert "A" + " " + "&" + " " + "B" == "A & B";
    assert "A & B" + " " + "&" + " " + "C" == "A & B & C";
  }

  /** A right-nested implication keeps its parentheses: `A -> (B -> C)`. */
  lemma RightImplicationHeader(a: bool, b: bool, c: bool, v: bool)
    ensures var bc := BuildLogicalVariable(Implies, [Atom("B", b), Atom("C", c)], !b || c);
      BuildLogicalVariable(Implies, [Atom("A", a), bc], v).expression == "A -> (B -> C)"
  {
    InnerImplication(b, c);
    var bc := Entry("B -> C", !b || c, Implies.Precedence());
    assert WrapsRight(Implies, bc.precedence);
    assert "A" + " " + "->" + " " + Parenthesize("B -> C") == "A -> (B -> C)" by {
      assert Parenthesize("B -> C") == "(B -> C)";
    }
  }

  lemma InnerImplication(b: bool, c: bool)
    ensures BuildLogicalVariable(Implies, [Atom("B", b), Atom("C", c)], !b || c)
      == Entry("B -> C", !b || c, Implies.Precedence())
  {
    assert "B" + " " + "->" + " " + "C" == "B -> C";
  }

  /** So does a left-nested one, since `->` groups to the right:
      `(A -> B) -> C`. */
  lemma LeftImplicationHeader(a: bool, b: bool, c: bool, v: bool)
    ensures var ab := BuildLogicalVariable(Implies, [Atom("A", a), Atom("B", b)], !a || b);
      BuildLogicalVariable(Implies, [ab, Atom("C", c)], v).expression == "(A -> B) -> C"
  {
    var ab := BuildLogicalVariable(Implies, [Atom("A", a), Atom("B", b)], !a || b);
    assert ab.expression == "A -> B" by {
      assert "A" + " " + "->" + " " + "B" == "A -> B";
    }
    assert WrapsLeft(Implies, ab.precedence);
    var abc := BuildLogicalVariable(Implies, [ab, Atom("C", c)], v);
    assert abc.expression == Parenthesize("A -> B") + " " + "->" + " " + "C";
    assert Parenthesize("A -> B") + " " + "->" + " " + "C" == "(A -> B) -> C" by {
      assert Parenthesize("A -> B") == "(A -> B)";
    }
  }

  /** A right-nested disjunction: as written it prints bare, `A | B | C`, as
      the comment at RPNEvaluator.java:269 intends; the corrected rule
      brackets it, `A | (B | C)`, so that the text reads back as the same
      tree. */
  lemma RightOrChainHeader(a: bool, b: bool, c: bool, v: bool)
    ensures var bc := BuildLogicalVariable(Or, [Atom("B", b), Atom("C", c)], b || c);
      Build(AsWritten, Or, [Atom("A", a), bc], v).expression == "A | B | C" &&
      Build(Corrected, Or, [Atom("A", a), bc], v).expression == "A | (B | C)"
  {
    var bc := BuildLogicalVariable(Or, [Atom("B", b), Atom("C", c)], b || c);
    assert bc.expression == "B | C" by {
      assert "B" + " " + "|" + " " + "C" == "B | C";
    }
    assert !WrapsLeft(Or, bc.precedence) && WrapsRight(Or, bc.precedence);
    assert "A" + " " + "|" + " " + "B | C" == "A | B | C";
    assert "A" + " " + "|" + " " + Parenthesize("B | C") == "A | (B | C)" by {
      assert Parenthesize("B | C") == "(B | C)";
    }
  }
}
