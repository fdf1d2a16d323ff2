/** The tokenizer: textual normalisation (whitespace and double negations
    removed), then a left-to-right scan into variable, parenthesis and
    operator tokens. Tokens are strings, as in the source. */
module Tokenizer {
  import opened Errors
  import opened Operators

  /** The ASCII characters of the regular-expression class `\s`. */
  predicate IsWhitespace(c: char) {
    c == ' ' || c == '\t' || c == '\n' || c == '\U{0B}' || c == '\U{0C}' || c == '\r'
  }

  predicate IsUpper(c: char) { 'A' <= c <= 'Z' }

  predicate IsLower(c: char) { 'a' <= c <= 'z' }

  predicate IsLetter(c: char) { IsUpper(c) || IsLower(c) }

  predicate IsParenthesis(c: char) { c == '(' || c == ')' }

  /** `isVariable`: one upper-case letter, which is exactly what the
      tokenizer's letter step accepts. */
  predicate IsVariable(t: string): (b: bool)
    ensures b ==> |t| == 1 && IsLetter(t[0]) && !IsLower(t[0]) && !IsParenthesis(t[0])
  {
    |t| == 1 && IsUpper(t[0])
  }

  /** No operator symbol is a variable: its characters are no letters. */
  lemma OperatorIsNoVariable(t: string)
    requires IsOperatorSymbol(t)
    ensures !IsVariable(t)
  {
    if |t| == 1 {
      SymbolCharacters(t, 0);
    }
  }

  /** What the scan may produce. */
  predicate ValidToken(t: string) {
    IsVariable(t) || t == "(" || t == ")" || IsOperatorSymbol(t)
  }

  /** The tokens written one after another. */
  function Concat(ts: seq<string>): string {
    if ts == [] then [] else ts[0] + Concat(ts[1..])
  }

  /** No `'!'` directly followed by another. */
  predicate NoDoubleNegation(s: string)
    decreases |s|
  {
    |s| < 2 || (!(s[0] == '!' && s[1] == '!') && NoDoubleNegation(s[1..]))
  }

  /** Deletes every whitespace character, keeping the others in order. */
  function RemoveWhitespace(s: string): (r: string)
    ensures forall i :: 0 <= i < |r| ==> !IsWhitespace(r[i])
  {
    if s == [] then []
    else if IsWhitespace(s[0]) then RemoveWhitespace(s[1..])
    else [s[0]] + RemoveWhitespace(s[1..])
  }

  /** Whitespace removal keeps every other character, in order: it leaves
      whitespace-free text alone and distributes over concatenation. */
  lemma {:induction false} RemoveWhitespaceKeepsText(a: string, b: string)
    ensures RemoveWhitespace(a + b) == RemoveWhitespace(a) + RemoveWhitespace(b)
    ensures (forall i :: 0 <= i < |a| ==> !IsWhitespace(a[i])) ==> RemoveWhitespace(a) == a
    decreases |a|
  {
    if a != [] {
      assert (a + b)[1..] == a[1..] + b;
      RemoveWhitespaceKeepsText(a[1..], b);
      assert a == [a[0]] + a[1..];
    } else {
      assert a + b == b;
    }
  }

  /** One left-to-right, non-overlapping pass deleting each `"!!"`. */
  function RemoveDoubleNegation(s: string): (r: string)
    ensures NoDoubleNegation(r)
    ensures |s| > 0 && s[0] != '!' ==> |r| > 0 && r[0] == s[0]
    decreases |s|
  {
    if |s| >= 2 && s[0] == '!' && s[1] == '!' then RemoveDoubleNegation(s[2..])
    else if s == [] then []
    else [s[0]] + RemoveDoubleNegation(s[1..])
  }

  /** How often `c` occurs in `s`. */
  function Occurrences(s: string, c: char): nat {
    if s == [] then 0 else (if s[0] == c then 1 else 0) + Occurrences(s[1..], c)
  }

  /** The pass deletes only negation symbols, and an even number of them. */
  lemma {:induction false} RemoveDoubleNegationDeletesPairs(s: string, c: char)
    ensures c != '!' ==> Occurrences(RemoveDoubleNegation(s), c) == Occurrences(s, c)
    ensures (Occurrences(s, '!') - Occurrences(RemoveDoubleNegation(s), '!')) % 2 == 0
    decreases |s|
  {
    if |s| >= 2 && s[0] == '!' && s[1] == '!' {
      RemoveDoubleNegationDeletesPairs(s[2..], c);
      assert s[1..][1..] == s[2..];
    } else if s != [] {
      RemoveDoubleNegationDeletesPairs(s[1..], c);
      assert ([s[0]] + RemoveDoubleNegation(s[1..]))[1..] == RemoveDoubleNegation(s[1..]);
    }
  }

  /** The pass keeps text free of whitespace. */
  lemma {:induction false} RemoveDoubleNegationKeepsNoWhitespace(s: string)
    requires forall i :: 0 <= i < |s| ==> !IsWhitespace(s[i])
    ensures forall i :: 0 <= i < |RemoveDoubleNegation(s)| ==> !IsWhitespace(RemoveDoubleNegation(s)[i])
    decreases |s|
  {
    if |s| >= 2 && s[0] == '!' && s[1] == '!' {
      RemoveDoubleNegationKeepsNoWhitespace(s[2..]);
    } else if s != [] {
      RemoveDoubleNegationKeepsNoWhitespace(s[1..]);
    }
  }

  /** The normalised text the scan works on. */
  function RemoveWhitespaceAndRedundantNegation(expression: string): (r: string)
    ensures forall i :: 0 <= i < |r| ==> !IsWhitespace(r[i])
    ensures NoDoubleNegation(r)
  {
    var stripped := RemoveWhitespace(expression);
    RemoveDoubleNegationKeepsNoWhitespace(stripped);
    RemoveDoubleNegation(stripped)
  }

  /** `k` negation symbols in a row. */
  function Bangs(k: nat): (r: string)
    ensures |r| == k && forall i :: 0 <= i < k ==> r[i] == '!'
  {
    if k == 0 then [] else "!" + Bangs(k - 1)
  }

  /** A maximal run of `k` negations collapses to `k mod 2` of them. */
  lemma {:induction false} RunOfNegations(k: nat, t: string)
    requires t == [] || t[0] != '!'
    ensures RemoveDoubleNegation(Bangs(k) + t) == Bangs(k % 2) + RemoveDoubleNegation(t)
    decreases k
  {
    if k >= 2 {
      PairOfBangs(k - 2, t);
      RunOfNegations(k - 2, t);
    } else if k == 1 {
      LoneBang(t);
    } else {
      assert Bangs(k) + t == t;
    }
  }

  /** The pass deletes a leading `"!!"` and carries on after it. */
  lemma PairOfBangs(k: nat, t: string)
    ensures RemoveDoubleNegation(Bangs(k + 2) + t) == RemoveDoubleNegation(Bangs(k) + t)
    ensures (k + 2) % 2 == k % 2
  {
    var s := Bangs(k + 2) + t;
    assert Bangs(k + 2) == "!!" + Bangs(k) by {
      assert Bangs(k + 2) == "!" + Bangs(k + 1) && Bangs(k + 1) == "!" + Bangs(k);
    }
    assert s[2..] == Bangs(k) + t;
  }

  /** A single `'!'` before text that does not start with one stays. */
  lemma LoneBang(t: string)
    requires t == [] || t[0] != '!'
    ensures RemoveDoubleNegation(Bangs(1) + t) == Bangs(1) + RemoveDoubleNegation(t)
  {
    var s := Bangs(1) + t;
    assert Bangs(1) == "!" + Bangs(0) && Bangs(0) == [];
    assert s == "!" + t;
    assert s[1..] == t;
  }

  /** Double negation is normalised away before any token is formed. */
  lemma DoubleNegationIgnored(s: string)
    ensures RemoveWhitespaceAndRedundantNegation("!!" + s) == RemoveWhitespaceAndRedundantNegation(s)
  {
    var t := "!!" + s;
    assert t[1..] == "!" + s && t[1..][1..] == s;
    assert RemoveWhitespace(t) == "!!" + RemoveWhitespace(s);
    var u := "!!" + RemoveWhitespace(s);
    assert u[2..] == RemoveWhitespace(s);
  }

  /** `handleLetter`: an upper-case letter is a variable, any other letter is
      rejected. */
  function HandleLetter(expr: string, index: nat): (r: Result<string>)
    requires index < |expr| && IsLetter(expr[index])
    ensures r.Ok? <==> IsUpper(expr[index])
    ensures r.Ok? ==> IsVariable(r.value) && r.value == expr[index..index + 1]
    ensures r.Err? ==> r.error == InvalidCharacter
  {
    if !IsUpper(expr[index]) then Err(InvalidCharacter) else Ok([expr[index]])
  }

  /** `handleParenthesis`: a parenthesis is a token of its own. */
  function HandleParenthesis(expr: string, index: nat): (r: string)
    requires index < |expr|
    ensures r == expr[index..index + 1]
  {
    [expr[index]]
  }

  /** `handleOperator`: the longest operator symbol starting at `index`. */
  function HandleOperator(expr: string, index: nat): (r: Result<string>)
    requires index < |expr|
    ensures r.Ok? ==> LongestOperatorPrefix(expr[index..]) == Some(r.value)
    ensures r.Err? <==> LongestOperatorPrefix(expr[index..]).None?
    ensures r.Err? ==> r.error == UnknownToken
  {
    match LongestOperatorPrefix(expr[index..])
    case Some(op) => Ok(op)
    case None => Err(UnknownToken)
  }

  /** One iteration of the scan: the token starting at `index`. */
  function NextToken(expr: string, index: nat): (r: Result<string>)
    requires index < |expr|
    ensures r.Ok? ==> 1 <= |r.value| && index + |r.value| <= |expr|
    ensures r.Ok? ==> expr[index..index + |r.value|] == r.value
    ensures r.Err? ==> (r.error == InvalidCharacter <==> IsLower(expr[index]))
    ensures r.Err? ==> r.error == InvalidCharacter || r.error == UnknownToken
  {
    var c := expr[index];
    if IsLetter(c) then
      HandleLetter(expr, index)
    else if c == '(' || c == ')' then
      Ok(HandleParenthesis(expr, index))
    else
      var r := HandleOperator(expr, index);
      assert r.Ok? ==> expr[index..][..|r.value|] == expr[index..index + |r.value|];
      assert forall n :: 0 <= n && index + n <= |expr| ==> expr[index..][..n] == expr[index..index + n];
      r
  }

  /** A step reads a variable, a parenthesis or an operator symbol. */
  lemma NextTokenValid(expr: string, index: nat)
    requires index < |expr|
    ensures NextToken(expr, index).Ok? ==> ValidToken(NextToken(expr, index).value)
  {
  }

  /** An operator token is the longest operator prefix at its position, and
      a step fails exactly at a lower-case letter or where no operator
      symbol starts. */
  lemma NextTokenIsGreedy(expr: string, index: nat)
    requires index < |expr|
    ensures var r := NextToken(expr, index);
      r.Ok? && IsOperatorSymbol(r.value) ==> LongestOperatorPrefix(expr[index..]) == Some(r.value)
    ensures NextToken(expr, index).Err? <==>
      IsLower(expr[index]) ||
      (!IsLetter(expr[index]) && !IsParenthesis(expr[index]) && LongestOperatorPrefix(expr[index..]).None?)
  {
  }

  /** The whole scan of `expr` from `index` on. */
  function ScanFrom(expr: string, index: nat): (r: Result<seq<string>>)
    requires index <= |expr|
    ensures r.Ok? ==> Concat(r.value) == expr[index..]
    ensures r.Err? ==> r.error == InvalidCharacter || r.error == UnknownToken
    decreases |expr| - index
  {
    if index == |expr| then Ok([])
    else
      match NextToken(expr, index)
      case Err(e) => Err(e)
      case Ok(t) =>
        match ScanFrom(expr, index + |t|)
        case Err(e) => Err(e)
        case Ok(ts) =>
          assert expr[index..] == t + expr[index + |t|..];
          assert ([t] + ts)[1..] == ts;
          Ok([t] + ts)
  }

  /** `tokens` in front of a scan's outcome; a failure stays a failure. */
  function Prepended(tokens: seq<string>, r: Result<seq<string>>): Result<seq<string>> {
    if r.Ok? then Ok(tokens + r.value) else r
  }

  predicate AllValid(ts: seq<string>) {
    forall k :: 0 <= k < |ts| ==> ValidToken(ts[k])
  }

  /** A successful scan produces valid tokens only. */
  lemma {:induction false} ScanTokensValid(expr: string, index: nat)
    requires index <= |expr|
    ensures ScanFrom(expr, index).Ok? ==> AllValid(ScanFrom(expr, index).value)
    decreases |expr| - index
  {
    if index < |expr| && ScanFrom(expr, index).Ok? {
      NextTokenValid(expr, index);
      ScanOkSteps(expr, index);
      var t := NextToken(expr, index).value;
      var ts := ScanFrom(expr, index + |t|).value;
      ScanTokensValid(expr, index + |t|);
      ValidCons(t, ts);
    }
  }

  /** A successful scan took a successful step and scanned the rest. */
  lemma ScanOkSteps(expr: string, index: nat)
    requires index < |expr| && ScanFrom(expr, index).Ok?
    ensures NextToken(expr, index).Ok?
    ensures var t := NextToken(expr, index).value;
      ScanFrom(expr, index + |t|).Ok? && ScanFrom(expr, index).value == [t] + ScanFrom(expr, index + |t|).value
  {
  }

  lemma TailValid(tokens: seq<string>)
    requires tokens != [] && forall i :: 0 <= i < |tokens| ==> ValidToken(tokens[i])
    ensures forall i :: 0 <= i < |tokens| - 1 ==> ValidToken(tokens[1..][i])
  {
    forall i | 0 <= i < |tokens| - 1 ensures ValidToken(tokens[1..][i]) {
      assert tokens[1..][i] == tokens[i + 1];
    }
  }

  lemma ValidCons(t: string, ts: seq<string>)
    requires ValidToken(t) && AllValid(ts)
    ensures AllValid([t] + ts)
  {
    forall k | 0 <= k < |[t] + ts| ensures ValidToken(([t] + ts)[k]) {
      if k > 0 {
        assert ([t] + ts)[k] == ts[k - 1];
      }
    }
  }

  /** How one successful scan step extends the tokens already produced: the
      scan from a position is the token there followed by the scan after it,
      failures included. */
  lemma ScanStep(expr: string, index: nat, tokens: seq<string>, token: string)
    requires index < |expr| && NextToken(expr, index) == Ok(token)
    ensures Prepended(tokens, ScanFrom(expr, index))
      == Prepended(tokens + [token], ScanFrom(expr, index + |token|))
  {
    var rest := ScanFrom(expr, index + |token|);
    if rest.Ok? {
      ScanPrepend(expr, index, token, rest.value);
      assert tokens + ([token] + rest.value) == tokens + [token] + rest.value;
    } else {
      ScanFailsAfter(expr, index, token);
    }
  }

  /** A scan that fails after a successful step fails the same way. */
  lemma ScanFailsAfter(expr: string, index: nat, token: string)
    requires index < |expr| && NextToken(expr, index) == Ok(token)
    requires ScanFrom(expr, index + |token|).Err?
    ensures ScanFrom(expr, index) == ScanFrom(expr, index + |token|)
  {
  }

  /** The loop's state: `tokens` were read from the front of `expr`, up to
      `index`, and the whole scan is them followed by the scan from there. */
  predicate Scanned(expr: string, tokens: seq<string>, index: nat) {
    index <= |expr| && ScanFrom(expr, 0) == Prepended(tokens, ScanFrom(expr, index))
  }

  /** Reading the next token keeps the loop's state. */
  lemma ScannedStep(expr: string, tokens: seq<string>, index: nat, token: string)
    requires Scanned(expr, tokens, index) && index < |expr| && NextToken(expr, index) == Ok(token)
    ensures Scanned(expr, tokens + [token], index + |token|)
  {
    ScanStep(expr, index, tokens, token);
  }

  /** A failed step ends the whole scan with its error. */
  lemma ScannedStops(expr: string, tokens: seq<string>, index: nat)
    requires Scanned(expr, tokens, index) && index < |expr| && NextToken(expr, index).Err?
    ensures ScanFrom(expr, 0) == Err(NextToken(expr, index).error)
  {
  }

  /** `tokenize`: normalise, then scan left to right. */
  method Tokenize(expression: string) returns (r: Result<seq<string>>)
    ensures r == ScanFrom(RemoveWhitespaceAndRedundantNegation(expression), 0)
    ensures r.Ok? ==> Concat(r.value) == RemoveWhitespaceAndRedundantNegation(expression)
    ensures r.Ok? ==> forall k :: 0 <= k < |r.value| ==> ValidToken(r.value[k])
  {
    var tokens: seq<string> := [];
    var expr := RemoveWhitespaceAndRedundantNegation(expression);
    var index := 0;
    assert Prepended([], ScanFrom(expr, 0)) == ScanFrom(expr, 0) by {
      if ScanFrom(expr, 0).Ok? {
        assert [] + ScanFrom(expr, 0).value == ScanFrom(expr, 0).value;
      }
    }
    while index < |expr|
      invariant Scanned(expr, tokens, index)
      decreases |expr| - index
    {
      var currentChar := expr[index];
      var token: string;
      if IsLetter(currentChar) {
        var res := HandleLetter(expr, index);
        if res.Err? {
          assert NextToken(expr, index) == res;
          ScannedStops(expr, tokens, index);
          return res.PropagateFailure();
        }
        token := res.value;
      } else if currentChar == '(' || currentChar == ')' {
        token := HandleParenthesis(expr, index);
      } else {
        var res := HandleOperator(expr, index);
        if res.Err? {
          assert NextToken(expr, index) == res;
          ScannedStops(expr, tokens, index);
          return res.PropagateFailure();
        }
        token := res.value;
      }
      assert NextToken(expr, index) == Ok(token);
      ScannedStep(expr, tokens, index, token);
      tokens := tokens + [token];
      index := index + |token|;
    }
    assert tokens + [] == tokens;
    ScanTokensValid(expr, 0);
    return Ok(tokens);
  }

  /** A character that can be part of no token. */
  predicate IsStray(c: char) {
    !IsUpper(c) && !IsParenthesis(c) && !IsSymbolChar(c)
  }

  /** A stray character anywhere, a lower-case letter or a digit among them,
      makes the scan fail. */
  lemma ScanRejectsStray(expr: string, index: nat, k: nat)
    requires index <= k < |expr| && IsStray(expr[k])
    ensures ScanFrom(expr, index).Err?
  {
    ScannedTextHasNoStray(expr, index, k);
  }

  /** Every character a successful scan covers belongs to a valid token. */
  lemma ScannedTextHasNoStray(expr: string, index: nat, k: nat)
    requires index <= k < |expr|
    ensures ScanFrom(expr, index).Ok? ==> !IsStray(expr[k])
  {
    var r := ScanFrom(expr, index);
    if r.Ok? {
      ScanTokensValid(expr, index);
      TokensHaveNoStray(r.value, k - index);
      assert expr[index..][k - index] == expr[k];
    }
  }

  /** Valid tokens written one after another hold no stray character. */
  lemma {:induction false} TokensHaveNoStray(ts: seq<string>, i: nat)
    requires forall k :: 0 <= k < |ts| ==> ValidToken(ts[k])
    requires i < |Concat(ts)|
    ensures !IsStray(Concat(ts)[i])
    decreases |ts|
  {
    var t := ts[0];
    assert Concat(ts) == t + Concat(ts[1..]);
    assert ValidToken(t);
    if i < |t| {
      if IsOperatorSymbol(t) {
        SymbolCharacters(t, i);
      }
    } else {
      assert forall k :: 0 <= k < |ts[1..]| ==> ValidToken(ts[1..][k]) by {
        forall k | 0 <= k < |ts[1..]| ensures ValidToken(ts[1..][k]) {
          assert ts[1..][k] == ts[k + 1];
        }
      }
      TokensHaveNoStray(ts[1..], i - |t|);
    }
  }

  lemma LowercaseRejected(expression: string, k: nat)
    requires k < |RemoveWhitespaceAndRedundantNegation(expression)|
    requires IsLower(RemoveWhitespaceAndRedundantNegation(expression)[k])
    ensures ScanFrom(RemoveWhitespaceAndRedundantNegation(expression), 0).Err?
  {
    ScanRejectsStray(RemoveWhitespaceAndRedundantNegation(expression), 0, k);
  }

  /** A valid token at the scan position is exactly what the next scan step
      produces. */
  lemma NextTokenOfValid(expr: string, index: nat, t: string, rest: string)
    requires index <= |expr| && expr[index..] == t + rest && ValidToken(t)
    ensures index < |expr| && NextToken(expr, index) == Ok(t)
  {
    if IsOperatorSymbol(t) {
      var op := FromSymbol(t).value;
      SymbolsDistinct(op, op);
      SymbolCharacters(t, 0);
      assert expr[index] == t[0];
      assert !IsLetter(expr[index]) && !IsParenthesis(expr[index]);
      LongestPrefixOfSymbol(op, rest);
      assert HandleOperator(expr, index) == Ok(t);
    } else {
      assert |t| == 1 && expr[index] == t[0];
      assert t == [expr[index]];
    }
  }

  lemma ScanPrepend(expr: string, index: nat, t: string, tail: seq<string>)
    requires index < |expr| && NextToken(expr, index) == Ok(t)
    requires ScanFrom(expr, index + |t|) == Ok(tail)
    ensures ScanFrom(expr, index) == Ok([t] + tail)
  {
  }

  /** The text after a token is what followed it. */
  lemma SliceAfter(expr: string, index: nat, t: string, rest: string)
    requires index <= |expr| && expr[index..] == t + rest
    ensures index + |t| <= |expr| && expr[index + |t|..] == rest
  {
    assert expr[index + |t|..] == expr[index..][|t|..];
  }

  /** Scanning the concatenation of valid tokens gives the same tokens back:
      the scan inverts `Concat`, since every operator symbol is its own
      longest match whatever follows it. */
  lemma {:induction false} ScanConcat(expr: string, index: nat, ts: seq<string>)
    requires index <= |expr| && expr[index..] == Concat(ts)
    requires forall k :: 0 <= k < |ts| ==> ValidToken(ts[k])
    ensures ScanFrom(expr, index) == Ok(ts)
    decreases |ts|
  {
    if ts == [] {
      assert |expr[index..]| == 0;
    } else {
      var t, tail := ts[0], ts[1..];
      assert expr[index..] == t + Concat(tail);
      SliceAfter(expr, index, t, Concat(tail));
      TailValid(ts);
      ScanConcat(expr, index + |t|, tail);
      assert ValidToken(t);
      assert ScanFrom(expr, index + |t|) == Ok(tail);
      ScanValidToken(expr, index, t, Concat(tail), tail);
      assert ts == [t] + tail;
    }
  }

  /** A valid token in front of text that scans to `tail` scans to the
      token followed by `tail`. */
  lemma ScanValidToken(expr: string, index: nat, t: string, rest: string, tail: seq<string>)
    requires index <= |expr| && expr[index..] == t + rest && ValidToken(t)
    requires ScanFrom(expr, index + |t|) == Ok(tail)
    ensures ScanFrom(expr, index) == Ok([t] + tail)
  {
    NextTokenOfValid(expr, index, t, rest);
    ScanPrepend(expr, index, t, tail);
  }
}
