/** The closed catalog of boolean connectives: symbol, precedence,
    associativity, arity and truth function of each, the symbol lookup and the
    greedy longest-prefix match used by the tokenizer. */
module Operators {
  import opened Errors

  datatype Associativity = Left | Right

  datatype Operator = Not | And | Nand | Or | Xor | Nor | Implies | Equiv
  {
    function Symbol(): string {
      match this
      case Not => "!"
      case And => "&"
      case Nand => "/"
      case Or => "|"
      case Xor => "^"
      case Nor => "\\"
      case Implies => "->"
      case Equiv => "<->"
    }

    /** Higher binds tighter. */
    function Precedence(): int {
      match this
      case Not => 5
      case And => 4
      case Nand => 4
      case Or => 3
      case Xor => 3
      case Nor => 3
      case Implies => 2
      case Equiv => 1
    }

    function Assoc(): Associativity {
      match this
      case Not => Right
      case Implies => Right
      case _ => Left
    }

    function Arity(): nat {
      if this == Not then 1 else 2
    }
  }

  const MaxOperatorLength: nat := 3

  /** The enum's values, in declaration order. */
  const Catalog: seq<Operator> := [Not, And, Nand, Or, Xor, Nor, Implies, Equiv]

  /** Lookup table from symbol to operator, one key per catalog entry. */
  const SymbolMap: map<string, Operator> :=
    map["!" := Not, "&" := And, "/" := Nand, "|" := Or, "^" := Xor, "\\" := Nor,
        "->" := Implies, "<->" := Equiv]

  /** The table holds exactly the catalog, keyed by each entry's own symbol. */
  lemma SymbolMapIsCatalog()
    ensures forall op: Operator :: op.Symbol() in SymbolMap && SymbolMap[op.Symbol()] == op
    ensures forall s :: s in SymbolMap ==> SymbolMap[s] in Catalog && SymbolMap[s].Symbol() == s
  {
  }

  lemma CatalogIsComplete(op: Operator)
    ensures op in Catalog
  {
  }

  /** `isOperatorSymbol`: membership in the lookup table. */
  predicate IsOperatorSymbol(s: string): (b: bool)
    ensures b ==> 1 <= |s| <= MaxOperatorLength
  {
    s in SymbolMap
  }

  /** `fromSymbol`: the table lookup, nothing off the catalog. */
  function FromSymbol(s: string): (r: Option<Operator>)
    ensures r.Some? <==> IsOperatorSymbol(s)
    ensures r.Some? ==> r.value.Symbol() == s
  {
    SymbolMapIsCatalog();
    if s in SymbolMap then Some(SymbolMap[s]) else None
  }

  /** The operator symbols are exactly the symbols of the catalog entries. */
  lemma OperatorSymbolsAreCatalogSymbols(s: string)
    ensures IsOperatorSymbol(s) <==> exists op: Operator :: op.Symbol() == s
  {
    SymbolMapIsCatalog();
    if IsOperatorSymbol(s) {
      assert SymbolMap[s].Symbol() == s;
    }
  }

  /** `FromSymbol` and `Symbol` are mutually inverse on the catalog. */
  lemma FromSymbolRoundTrip(op: Operator)
    ensures IsOperatorSymbol(op.Symbol())
    ensures FromSymbol(op.Symbol()) == Some(op)
  {
    CatalogIsComplete(op);
    assert op.Symbol() in SymbolMap;
    var found := SymbolMap[op.Symbol()];
    assert found.Symbol() == op.Symbol();
    SymbolsDistinct(found, op);
  }

  lemma SymbolsDistinct(a: Operator, b: Operator)
    ensures a.Symbol() == b.Symbol() ==> a == b
    ensures 1 <= |a.Symbol()| <= MaxOperatorLength
  {
  }

  /** Operators of equal precedence share their associativity, so testing the
      stack top's associativity is the same as testing the incoming one's. */
  lemma EqualPrecedenceSameAssociativity(a: Operator, b: Operator)
    ensures a.Precedence() == b.Precedence() ==> a.Assoc() == b.Assoc()
  {
  }

  /** The catalog as a table of (symbol, precedence, associativity, arity). */
  lemma CatalogTable()
    ensures forall op: Operator :: 1 <= op.Precedence() <= 5
    ensures forall op: Operator :: op.Arity() == 1 <==> op == Not
    ensures forall op: Operator :: op.Assoc() == Right <==> op == Not || op == Implies
    ensures Not.Precedence() == 5
    ensures And.Precedence() == Nand.Precedence() == 4
    ensures Or.Precedence() == Xor.Precedence() == Nor.Precedence() == 3
    ensures Implies.Precedence() == 2 && Equiv.Precedence() == 1
  {
  }

  /** Characters that occur in some operator symbol. */
  predicate IsSymbolChar(c: char) {
    c in "!&/|^\\-<>"
  }

  lemma SymbolCharacters(s: string, i: nat)
    requires IsOperatorSymbol(s) && i < |s|
    ensures IsSymbolChar(s[i])
  {
  }

  /** Tries the prefixes of `text` of length `len`, `len - 1`, ..., 1 in turn
      and returns the first that is an operator symbol. */
  function PrefixOfLengthAtMost(text: string, len: nat): (r: Option<string>)
    ensures r.Some? ==> 1 <= |r.value| <= len && |r.value| <= |text|
    ensures r.Some? ==> r.value == text[..|r.value|] && IsOperatorSymbol(r.value)
    decreases len
  {
    if len == 0 then None
    else if |text| >= len && IsOperatorSymbol(text[..len]) then Some(text[..len])
    else PrefixOfLengthAtMost(text, len - 1)
  }

  /** The prefix found is the longest one of length at most `len`, and there
      is none exactly when no prefix of length 1 to `len` is a symbol. */
  lemma {:induction false} PrefixOfLengthAtMostIsLongest(text: string, len: nat)
    ensures var r := PrefixOfLengthAtMost(text, len);
      r.Some? ==> forall n :: |r.value| < n <= len && n <= |text| ==> !IsOperatorSymbol(text[..n])
    ensures PrefixOfLengthAtMost(text, len).None? <==>
      forall n :: 1 <= n <= len && n <= |text| ==> !IsOperatorSymbol(text[..n])
    decreases len
  {
    if len > 0 {
      PrefixOfLengthAtMostIsLongest(text, len - 1);
    }
  }

  /** The greedy longest-prefix match over lengths 3, 2 and 1. */
  function LongestOperatorPrefix(text: string): (r: Option<string>)
    ensures r.Some? ==> IsOperatorSymbol(r.value) && 1 <= |r.value| <= |text|
    ensures r.Some? ==> r.value == text[..|r.value|]
  {
    PrefixOfLengthAtMost(text, MaxOperatorLength)
  }

  /** No longer prefix than the one found is a symbol, and there is none
      exactly when no prefix of length 1 to 3 is a symbol. */
  lemma LongestOperatorPrefixIsLongest(text: string)
    ensures var r := LongestOperatorPrefix(text);
      r.Some? ==> forall n :: |r.value| < n <= MaxOperatorLength && n <= |text| ==> !IsOperatorSymbol(text[..n])
    ensures LongestOperatorPrefix(text).None? <==>
      forall n :: 1 <= n <= MaxOperatorLength && n <= |text| ==> !IsOperatorSymbol(text[..n])
  {
    PrefixOfLengthAtMostIsLongest(text, MaxOperatorLength);
  }

  /** `getLongestOperatorPrefix`: tries lengths 3, 2 and 1 and returns the
      first prefix that is an operator symbol. */
  method GetLongestOperatorPrefix(text: string) returns (r: Option<string>)
    ensures r == LongestOperatorPrefix(text)
  {
    var len: nat := MaxOperatorLength;
    while len >= 1
      invariant len <= MaxOperatorLength
      invariant PrefixOfLengthAtMost(text, len) == LongestOperatorPrefix(text)
      decreases len
    {
      if |text| >= len {
        var prefix := text[..len];
        if IsOperatorSymbol(prefix) {
          return Some(prefix);
        }
      }
      len := len - 1;
    }
    return None;
  }

  /** No symbol is a proper prefix of another. */
  lemma SymbolsPrefixFree(a: Operator, b: Operator)
    ensures |a.Symbol()| < |b.Symbol()| ==> b.Symbol()[..|a.Symbol()|] != a.Symbol()
  {
    assert "->"[..1] == "-";
    assert "<->"[..1] == "<" && "<->"[..2] == "<-";
  }

  /** Every operator symbol is its own longest match, whatever follows it. */
  lemma LongestPrefixOfSymbol(op: Operator, rest: string)
    ensures LongestOperatorPrefix(op.Symbol() + rest) == Some(op.Symbol())
  {
    var text := op.Symbol() + rest;
    var r := LongestOperatorPrefix(text);
    LongestOperatorPrefixIsLongest(text);
    FromSymbolRoundTrip(op);
    SymbolsDistinct(op, op);
    assert text[..|op.Symbol()|] == op.Symbol();
    if |r.value| != |op.Symbol()| {
      var o2 := FromSymbol(r.value).value;
      SymbolsDistinct(o2, o2);
      assert |r.value| > |op.Symbol()|;
      assert r.value[..|op.Symbol()|] == op.Symbol();
      SymbolsPrefixFree(op, o2);
    }
  }

  /** Greedy matching at work: `<->` is not split into `<` and `->`. */
  lemma LongestPrefixExamples()
    ensures LongestOperatorPrefix("<->X") == Some("<->")
    ensures LongestOperatorPrefix("->X") == Some("->")
  {
    LongestPrefixOfSymbol(Equiv, "X");
    assert Equiv.Symbol() + "X" == "<->X";
    LongestPrefixOfSymbol(Implies, "X");
    assert Implies.Symbol() + "X" == "->X";
  }

  /** A lone `-` or `<-` is no operator. */
  lemma NoPrefixExamples()
    ensures LongestOperatorPrefix("-X") == None
    ensures LongestOperatorPrefix("<-X") == None
    ensures LongestOperatorPrefix("") == None
  {
    LongestOperatorPrefixIsLongest("-X");
    LongestOperatorPrefixIsLongest("<-X");
    LongestOperatorPrefixIsLongest("");
    assert !IsOperatorSymbol("-X") && !IsOperatorSymbol("-");
    assert !IsOperatorSymbol("<-X") && !IsOperatorSymbol("<-") && !IsOperatorSymbol("<");
    assert "-X"[..2] == "-X" && "-X"[..1] == "-";
    assert "<-X"[..3] == "<-X" && "<-X"[..2] == "<-" && "<-X"[..1] == "<";
  }

  /** The truth function of an operator applied to exactly `Arity()` values. */
  function Truth(op: Operator, args: seq<bool>): (r: bool)
    requires |args| == op.Arity()
    ensures op.Arity() == 1 ==> r != args[0]
    ensures args[0] == args[|args| - 1] ==>
      (op in {And, Or} ==> r == args[0]) && (op in {Nand, Nor} ==> r != args[0]) &&
      (op == Xor ==> !r) && (op in {Implies, Equiv} ==> r)
  {
    match op
    case Not => !args[0]
    case And => args[0] && args[1]
    case Nand => !(args[0] && args[1])
    case Or => args[0] || args[1]
    case Xor => args[0] != args[1]
    case Nor => !(args[0] || args[1])
    case Implies => !args[0] || args[1]
    case Equiv => args[0] == args[1]
  }

  /** `apply`: rejects an argument count other than the arity. */
  function Apply(op: Operator, args: seq<bool>): (r: Option<bool>)
    ensures r.Some? <==> |args| == op.Arity()
    ensures r.Some? ==> r.value == Truth(op, args)
  {
    if |args| != op.Arity() then None else Some(Truth(op, args))
  }

  /** How the connectives relate to one another. */
  lemma ConnectiveLaws(a: bool, b: bool)
    ensures Apply(Not, [a]) == Some(!a)
    ensures Apply(Nand, [a, b]).value == !Apply(And, [a, b]).value
    ensures Apply(Nor, [a, b]).value == !Apply(Or, [a, b]).value
    ensures Apply(Xor, [a, b]).value == (a != b)
    ensures Apply(Equiv, [a, b]).value == (a == b)
    ensures !Apply(Implies, [a, b]).value <==> a && !b
    ensures Apply(And, [a, b]).value <==> a && b
    ensures !Apply(Or, [a, b]).value <==> !a && !b
  {
  }
}
