# truth-table-generator core in Dafny

The truth-table generator reads a propositional formula over upper-case
variables `A`..`Z` and the connectives `!` (not), `&` (and), `/` (nand,
Sheffer stroke), `|` (or), `^` (xor), `\` (nor, Peirce's arrow), `->`
(implication) and `<->` (equivalence). It prints one column per
sub-expression. The pipeline behind each row has four stages, and this
project models all four:

- **Operators** (`operators.dfy`, module `Operators`): the operator catalog.
  It gives each operator's symbol, precedence (5 for `!` down to 1 for
  `<->`), associativity and arity. It also has the symbol lookup, the
  greedy longest-prefix match (at most 3 characters) and each
  connective's truth function.
- **Tokenizer** (`tokenizer.dfy`, module `Tokenizer`): normalisation first
  deletes all whitespace, then every `"!!"`. A left-to-right scan then emits
  upper-case letters, parentheses and the longest operator symbol at each
  position. A lower-case letter and an unknown character are separate
  errors.
- **Shunting-yard parser** (`shunting_yard.dfy`, module `ShuntingYard`):
  converts the token list to Reverse Polish Notation. It pops by precedence
  and associativity, and reports mismatched parentheses and unexpected
  tokens.
- **RPN evaluator** (`rpn_evaluator.dfy`, module `RpnEvaluator`): runs the
  RPN tokens over an operand stack and one row's variable assignment.
  - Each operator application builds an entry: its header text, value and
    precedence.
  - The header text parenthesises an operand by precedence and
    associativity. The model has both right-operand rules: the one the code
    applies, and a stricter correction under which every header reads back
    as its own sub-expression (see Findings). A `HeaderRule` parameter
    chooses between them, and the two evaluations agree on everything but
    the header texts.
  - Each entry is appended to the calculation path, whose entries become
    the table's columns.

Two further modules state what the stages achieve together:

- **`formulas.dfy`** (module `Formulas`): expression trees, their postfix
  walk and their truth value. It proves that evaluating a tree's postfix
  walk succeeds, appends one entry per operator, and leaves the tree's
  truth value as the last column.
- **`read_back.dfy`** (module `ReadBack`): the printed tokens of a tree.
  It proves the headline: the header text the evaluator builds for a
  subtree, when fed back through the tokenizer and the parser, yields
  exactly that subtree's postfix walk, and evaluates to the same truth
  value. It also holds both halves of the finding below.

`errors.dfy` (module `Errors`) holds the error kinds and the `Result` and
`Option` types. Each Java exception becomes an `Err` carrying the kind of
failure. `examples.dfy` (module `Examples`) works through the examples the
source's comments give.

Java's `List`/`Deque` are sequences. A stack's top is the sequence's last
element. The Java helpers that mutate the lists they receive are modelled as
methods that take and return the sequences. Each such method is proved equal
to a specification function, and the properties are proved about those
functions.

## Model

| member | source | states |
|---|---|---|
| Operators.SymbolMapIsCatalog | src/main/java/com/nbugaenco/ttg/model/Operator.java:29-34 | the symbol map sends each operator's symbol to that operator, and holds nothing else |
| Operators.CatalogIsComplete | src/main/java/com/nbugaenco/ttg/model/Operator.java:12-27 | every operator is in the catalog of eight |
| Operators.CatalogTable | src/main/java/com/nbugaenco/ttg/model/Operator.java:14-27 | the precedences are 5, 4, 3, 2 and 1 by level; only `!` is unary; only `!` and `->` are right-associative |
| Operators.FromSymbol | src/main/java/com/nbugaenco/ttg/model/Operator.java:72-74 | the lookup finds an operator exactly for the operator symbols, and the operator it finds has that symbol |
| Operators.OperatorSymbolsAreCatalogSymbols | src/main/java/com/nbugaenco/ttg/model/Operator.java:106-108 | a string is an operator symbol iff some operator has it as its symbol |
| Operators.FromSymbolRoundTrip | src/main/java/com/nbugaenco/ttg/model/Operator.java:72-74 | looking up an operator's own symbol gives back that operator |
| Operators.SymbolsDistinct | src/main/java/com/nbugaenco/ttg/model/Operator.java:29-34 | different operators have different symbols, each 1 to 3 characters long (`MAX_OPERATOR_LENGTH`) |
| Operators.EqualPrecedenceSameAssociativity | src/main/java/com/nbugaenco/ttg/model/Operator.java:14-27 | operators of equal precedence have the same associativity |
| Operators.SymbolCharacters | src/main/java/com/nbugaenco/ttg/model/Operator.java:14-27 | operator symbols use only the characters `! & / \| ^ \ - < >` |
| Operators.IsOperatorSymbol | src/main/java/com/nbugaenco/ttg/model/Operator.java:106-108 | a string is an operator symbol iff it is a key of the symbol map; every such key is 1 to 3 characters long |
| Operators.Truth | src/main/java/com/nbugaenco/ttg/model/Operator.java:14-27 | the connectives' truth functions: `!` flips its operand; on equal operands `&` and `\|` return it, `/` and `\` its negation, `^` false, `->` and `<->` true |
| Operators.PrefixOfLengthAtMost | src/main/java/com/nbugaenco/ttg/model/Operator.java:86-95 | the loop from length `len` down to 1 returns an operator symbol that prefixes the text, of length 1 to `len` |
| Operators.PrefixOfLengthAtMostIsLongest | src/main/java/com/nbugaenco/ttg/model/Operator.java:86-95 | the prefix found is the longest operator prefix of length at most `len`, and there is none exactly when no prefix of length 1 to `len` is a symbol |
| Operators.LongestOperatorPrefix | src/main/java/com/nbugaenco/ttg/model/Operator.java:85-96 | the result is an operator symbol that prefixes the text |
| Operators.LongestOperatorPrefixIsLongest | src/main/java/com/nbugaenco/ttg/model/Operator.java:85-96 | no prefix longer than the result, up to length 3, is a symbol; there is none exactly when no prefix of length 1 to 3 is a symbol |
| Operators.GetLongestOperatorPrefix | src/main/java/com/nbugaenco/ttg/model/Operator.java:85-96 | the loop over lengths 3, 2, 1 with its early return computes the longest operator prefix, or none |
| Operators.SymbolsPrefixFree | src/main/java/com/nbugaenco/ttg/model/Operator.java:14-27 | no shorter symbol begins a longer one |
| Operators.LongestPrefixOfSymbol | src/main/java/com/nbugaenco/ttg/model/Operator.java:85-96 | text that begins with an operator's symbol has exactly that symbol as its longest operator prefix |
| Operators.LongestPrefixExamples | src/main/java/com/nbugaenco/ttg/model/Operator.java:85-96 | `<->X` yields `<->` (not `<`) and `->X` yields `->` |
| Operators.NoPrefixExamples | src/main/java/com/nbugaenco/ttg/model/Operator.java:85-96 | `-X`, `<-X` and the empty text have no operator prefix |
| Operators.Apply | src/main/java/com/nbugaenco/ttg/model/Operator.java:157-162 | applying fails exactly when the argument count differs from the arity, and otherwise gives the operator's truth function |
| Operators.ConnectiveLaws | src/main/java/com/nbugaenco/ttg/model/Operator.java:14-27 | nand and nor are the negations of and and or; xor is inequality; equivalence is equality; implication fails only for true then false |
| Tokenizer.OperatorIsNoVariable | src/main/java/com/nbugaenco/ttg/service/ShuntingYardParser.java:66-68 | no operator symbol is a variable token |
| Tokenizer.IsVariable | src/main/java/com/nbugaenco/ttg/service/ShuntingYardParser.java:66-68 | a variable token is one letter, and that letter passes the tokenizer's upper-case check |
| Tokenizer.RemoveWhitespace | src/main/java/com/nbugaenco/ttg/service/Tokenizer.java:62-64 | the result holds no whitespace |
| Tokenizer.RemoveWhitespaceKeepsText | src/main/java/com/nbugaenco/ttg/service/Tokenizer.java:62-64 | whitespace removal distributes over concatenation, and leaves whitespace-free text unchanged |
| Tokenizer.RemoveDoubleNegation | src/main/java/com/nbugaenco/ttg/service/Tokenizer.java:62-64 | the result has no `"!!"`, and a first character other than `!` stays first |
| Tokenizer.RemoveDoubleNegationDeletesPairs | src/main/java/com/nbugaenco/ttg/service/Tokenizer.java:62-64 | every character other than `!` is kept, as often as it occurs, and `!` characters go in pairs |
| Tokenizer.RemoveDoubleNegationKeepsNoWhitespace | src/main/java/com/nbugaenco/ttg/service/Tokenizer.java:62-64 | deleting `"!!"` from whitespace-free text leaves it whitespace-free |
| Tokenizer.RemoveWhitespaceAndRedundantNegation | src/main/java/com/nbugaenco/ttg/service/Tokenizer.java:62-64 | the normalised text holds no whitespace and no `"!!"` |
| Tokenizer.RunOfNegations | src/main/java/com/nbugaenco/ttg/service/Tokenizer.java:62-64 | a run of k `!` shrinks to k mod 2 of them |
| Tokenizer.DoubleNegationIgnored | src/main/java/com/nbugaenco/ttg/service/Tokenizer.java:62-64 | prefixing `"!!"` does not change the normalised text |
| Tokenizer.NextToken | src/main/java/com/nbugaenco/ttg/service/Tokenizer.java:37-45 | a token is read exactly as it stands in the text and is not empty; a failure is an invalid character exactly at a lower-case letter, otherwise an unknown token |
| Tokenizer.HandleLetter | src/main/java/com/nbugaenco/ttg/service/Tokenizer.java:81-89 | a letter is read as a one-character variable exactly when it is upper case; otherwise invalid character |
| Tokenizer.HandleParenthesis | src/main/java/com/nbugaenco/ttg/service/Tokenizer.java:103-106 | a parenthesis is read as the one-character token at the index |
| Tokenizer.HandleOperator | src/main/java/com/nbugaenco/ttg/service/Tokenizer.java:123-131 | the token read is the longest operator prefix of the rest of the text; there is none exactly when the step fails, with unknown token |
| Tokenizer.NextTokenValid | src/main/java/com/nbugaenco/ttg/service/Tokenizer.java:37-45 | a step reads a variable, a parenthesis or an operator symbol |
| Tokenizer.NextTokenIsGreedy | src/main/java/com/nbugaenco/ttg/service/Tokenizer.java:37-45 | an operator token is the longest operator prefix at its position; the step fails exactly at a lower-case letter or where no operator symbol starts |
| Tokenizer.ScanFrom | src/main/java/com/nbugaenco/ttg/service/Tokenizer.java:37-46 | a successful scan splits the rest of the text into tokens that concatenate back to it; failures are invalid character or unknown token |
| Tokenizer.ScanTokensValid | src/main/java/com/nbugaenco/ttg/service/Tokenizer.java:37-46 | every token of a successful scan is a variable, a parenthesis or an operator symbol |
| Tokenizer.ScanStep | src/main/java/com/nbugaenco/ttg/service/Tokenizer.java:37-46 | the scan from a position is the token there followed by the scan after it, failures included |
| Tokenizer.Tokenize | src/main/java/com/nbugaenco/ttg/service/Tokenizer.java:32-49 | the loop computes the scan of the normalised expression: valid tokens whose concatenation is the normalised text |
| Tokenizer.ScanRejectsStray | src/main/java/com/nbugaenco/ttg/service/Tokenizer.java:123-130 | a character that is neither letter, parenthesis nor symbol character makes the scan fail |
| Tokenizer.LowercaseRejected | src/main/java/com/nbugaenco/ttg/service/Tokenizer.java:81-89 | a lower-case letter anywhere in the normalised text makes tokenizing fail |
| Tokenizer.NextTokenOfValid | src/main/java/com/nbugaenco/ttg/service/Tokenizer.java:37-45 | where a valid token starts the remaining text, the scan reads exactly that token |
| Tokenizer.ScanPrepend | src/main/java/com/nbugaenco/ttg/service/Tokenizer.java:37-46 | one step of the scan loop adds the token it read to the front of the rest |
| Tokenizer.ScanConcat | src/main/java/com/nbugaenco/ttg/service/Tokenizer.java:37-46 | scanning the concatenation of valid tokens gives those tokens back: the tokenizer inverts token printing |
| ShuntingYard.Reversed | src/main/java/com/nbugaenco/ttg/service/ShuntingYardParser.java:128-138 | popping a whole stack yields its elements from top to bottom |
| ShuntingYard.PopOperators | src/main/java/com/nbugaenco/ttg/service/ShuntingYardParser.java:82-90 | the pops remove a top segment of operators that all pass the pop test, and append them top first; what stays is empty, a `(` or an operator that fails the test |
| ShuntingYard.OperatorStep | src/main/java/com/nbugaenco/ttg/service/ShuntingYardParser.java:80-92 | the stack holds only operators and `(` after the current operator is pushed |
| ShuntingYard.HandleOperatorToken | src/main/java/com/nbugaenco/ttg/service/ShuntingYardParser.java:80-92 | the pop loop computes the specified operator step |
| ShuntingYard.CloseParenthesis | src/main/java/com/nbugaenco/ttg/service/ShuntingYardParser.java:105-113 | closing succeeds iff a `(` is stacked; it pops everything above the topmost `(` into the output and removes that `(`; otherwise mismatched parentheses |
| ShuntingYard.HandleRightParenthesis | src/main/java/com/nbugaenco/ttg/service/ShuntingYardParser.java:105-113 | the loop computes the specified closing step |
| ShuntingYard.Drained | src/main/java/com/nbugaenco/ttg/service/ShuntingYardParser.java:128-138 | draining succeeds iff no `(` is stacked, and then appends the stack top first; otherwise mismatched parentheses |
| ShuntingYard.DrainOperatorStack | src/main/java/com/nbugaenco/ttg/service/ShuntingYardParser.java:128-138 | the loop computes the specified drain |
| ShuntingYard.ParseFrom | src/main/java/com/nbugaenco/ttg/service/ShuntingYardParser.java:36-56 | parsing fails only with an unexpected token or mismatched parentheses |
| ShuntingYard.Parse | src/main/java/com/nbugaenco/ttg/service/ShuntingYardParser.java:36-56 | the token loop and the drain compute the specified parse |
| ShuntingYard.PoppedAreOperators | src/main/java/com/nbugaenco/ttg/service/ShuntingYardParser.java:128-138 | a stack segment without `(` pops only operator symbols |
| ShuntingYard.ParseOutputHasNoParentheses | src/main/java/com/nbugaenco/ttg/service/ShuntingYardParser.java:36-56 | the RPN output holds only variables and operator symbols, never a parenthesis |
| ShuntingYard.Variables | src/main/java/com/nbugaenco/ttg/service/ShuntingYardParser.java:66-68 | the subsequence of variable tokens holds only variables |
| ShuntingYard.VariablesOfConcat | src/main/java/com/nbugaenco/ttg/service/ShuntingYardParser.java:66-68 | the variable subsequence distributes over concatenation |
| ShuntingYard.NoVariables | src/main/java/com/nbugaenco/ttg/service/ShuntingYardParser.java:66-68 | a sequence without variable tokens has an empty variable subsequence |
| ShuntingYard.PoppedHoldNoVariables | src/main/java/com/nbugaenco/ttg/service/ShuntingYardParser.java:82-90 | what is popped from the operator stack contains no variable |
| ShuntingYard.ParseKeepsVariableOrder | src/main/java/com/nbugaenco/ttg/service/ShuntingYardParser.java:40-52 | the output lists the input's variables in their input order |
| ShuntingYard.CountOfConcat | src/main/java/com/nbugaenco/ttg/service/ShuntingYardParser.java:40-52 | occurrence counts add over concatenation |
| ShuntingYard.CountAbsent | src/main/java/com/nbugaenco/ttg/service/ShuntingYardParser.java:40-52 | an absent token occurs zero times |
| ShuntingYard.CountReversed | src/main/java/com/nbugaenco/ttg/service/ShuntingYardParser.java:128-138 | popping a stack out keeps each token's count |
| ShuntingYard.MovePopped | src/main/java/com/nbugaenco/ttg/service/ShuntingYardParser.java:82-90 | moving a popped segment to the output keeps each token's total count |
| ShuntingYard.ParseIsPermutation | src/main/java/com/nbugaenco/ttg/service/ShuntingYardParser.java:36-56 | every token other than a parenthesis occurs in the output exactly as often as in the input: nothing is lost or invented |
| ShuntingYard.CountPresent | src/main/java/com/nbugaenco/ttg/service/ShuntingYardParser.java:105-113 | a token is present iff its count is positive |
| ShuntingYard.OperatorStepKeepsDepth | src/main/java/com/nbugaenco/ttg/service/ShuntingYardParser.java:80-92 | an operator step keeps the number of open parentheses |
| ShuntingYard.CloseParenthesisDepth | src/main/java/com/nbugaenco/ttg/service/ShuntingYardParser.java:105-113 | a successful `)` removes exactly one open parenthesis |
| ShuntingYard.ParseSucceedsIffBalanced | src/main/java/com/nbugaenco/ttg/service/ShuntingYardParser.java:36-56 | over tokenizer tokens, parsing succeeds iff the parentheses balance: no prefix closes more than it opened, and all are closed at the end |
| ShuntingYard.ParseRejectsUnknownToken | src/main/java/com/nbugaenco/ttg/service/ShuntingYardParser.java:49-51 | a token that is not a variable, an operator or a parenthesis makes the parse fail |
| RpnEvaluator.AtomsOutrankOperators | src/main/java/com/nbugaenco/ttg/service/RPNEvaluator.java:60-71 | an input variable's precedence is above every operator's, so it is never parenthesised |
| RpnEvaluator.ExtractVariables | src/main/java/com/nbugaenco/ttg/service/RPNEvaluator.java:42-44 | the result is exactly the set of variable tokens in the list |
| RpnEvaluator.Parenthesize | src/main/java/com/nbugaenco/ttg/service/RPNEvaluator.java:293-295 | the result is the expression between `(` and `)` |
| RpnEvaluator.BuildLogicalVariable | src/main/java/com/nbugaenco/ttg/service/RPNEvaluator.java:221-280 | the entry carries the result and the operator's precedence; with `ReadBack.HeaderText` and `ReadBack.HeaderReadsBack`, its text reads back as the subtree it was built for (right-operand rule as corrected, see Findings) |
| RpnEvaluator.BuildLogicalVariableAsWritten | src/main/java/com/nbugaenco/ttg/service/RPNEvaluator.java:221-280 | the code as written wraps the right operand by the left operand's rule; it agrees with the corrected entry except for a right operand of equal precedence under a left-associative operator |
| RpnEvaluator.Values | src/main/java/com/nbugaenco/ttg/service/RPNEvaluator.java:195-198 | the operand values in operand order |
| RpnEvaluator.Build | src/main/java/com/nbugaenco/ttg/service/RPNEvaluator.java:221-280 | under either header rule the entry carries the result and the operator's precedence |
| RpnEvaluator.FirstMatch | src/main/java/com/nbugaenco/ttg/service/RPNEvaluator.java:149-153 | the index of the first assignment entry with that name, and none iff no entry has it |
| RpnEvaluator.PushVariable | src/main/java/com/nbugaenco/ttg/service/RPNEvaluator.java:147-156 | succeeds iff the variable is assigned, pushing the first assignment entry with its name; otherwise unknown variable |
| RpnEvaluator.HandleVariableToken | src/main/java/com/nbugaenco/ttg/service/RPNEvaluator.java:147-156 | the search loop computes the specified push |
| RpnEvaluator.ApplyOperator | src/main/java/com/nbugaenco/ttg/service/RPNEvaluator.java:175-201 | succeeds iff the stack holds at least arity operands; pops them and pushes the entry built under the chosen header rule, with the operator's truth value and precedence, which is also appended to the path; otherwise insufficient operands |
| RpnEvaluator.HandleOperatorToken | src/main/java/com/nbugaenco/ttg/service/RPNEvaluator.java:175-201 | the pop loop filling the argument array computes the specified application |
| RpnEvaluator.Step | src/main/java/com/nbugaenco/ttg/service/RPNEvaluator.java:106-115 | a token fails as unexpected exactly when it is neither a variable nor an operator symbol; the other failures are unknown variable and insufficient operands |
| RpnEvaluator.ProcessToken | src/main/java/com/nbugaenco/ttg/service/RPNEvaluator.java:106-115 | the dispatch computes the specified step |
| RpnEvaluator.Run | src/main/java/com/nbugaenco/ttg/service/RPNEvaluator.java:79-88 | the token loop fails only with unknown variable, insufficient operands or unexpected token |
| RpnEvaluator.ValidateFinalStack | src/main/java/com/nbugaenco/ttg/service/RPNEvaluator.java:126-132 | accepts exactly a stack of one entry; otherwise malformed result |
| RpnEvaluator.Evaluation | src/main/java/com/nbugaenco/ttg/service/RPNEvaluator.java:79-88 | evaluation fails only with the token loop's three errors or malformed result, and malformed result exactly when the loop succeeded |
| RpnEvaluator.Evaluate | src/main/java/com/nbugaenco/ttg/service/RPNEvaluator.java:79-88 | the token loop and the final check compute the specified evaluation |
| RpnEvaluator.StepExtendsPath | src/main/java/com/nbugaenco/ttg/service/RPNEvaluator.java:106-115 | one successful step appends one entry to the path for an operator token and none for a variable, keeping what the path held |
| RpnEvaluator.RunExtendsPath | src/main/java/com/nbugaenco/ttg/service/RPNEvaluator.java:79-88 | the path only grows, by one entry per operator token |
| RpnEvaluator.EvaluationKeepsAssignment | src/main/java/com/nbugaenco/ttg/service/RPNEvaluator.java:79-88 | the calculation path starts with the row's assignment and adds one column per operator |
| RpnEvaluator.RunSucceedsIffEnoughOperands | src/main/java/com/nbugaenco/ttg/service/RPNEvaluator.java:175-184 | over recognised tokens, the run succeeds iff no operator meets fewer operands than its arity; the final height is the counted height |
| RpnEvaluator.EvaluationSucceedsIff | src/main/java/com/nbugaenco/ttg/service/RPNEvaluator.java:79-88 | over recognised tokens, evaluation succeeds iff operands suffice throughout and exactly one entry remains |
| RpnEvaluator.RunRejectsUnrecognised | src/main/java/com/nbugaenco/ttg/service/RPNEvaluator.java:106-115 | a token that is not an operator and not an assigned variable makes evaluation fail |
| RpnEvaluator.RunVariable | src/main/java/com/nbugaenco/ttg/service/RPNEvaluator.java:147-156 | a variable token pushes the first assignment entry of that name and leaves the path alone |
| RpnEvaluator.RunOperator | src/main/java/com/nbugaenco/ttg/service/RPNEvaluator.java:175-201 | an operator token replaces its operands by the built entry and appends it to the path |
| RpnEvaluator.ApplicationsAgree | src/main/java/com/nbugaenco/ttg/service/RPNEvaluator.java:175-201 | an operator application under the written and the corrected header rule fails the same way, or yields stacks and paths that differ only in their texts |
| RpnEvaluator.StepsAgree | src/main/java/com/nbugaenco/ttg/service/RPNEvaluator.java:106-115 | one step under the written and the corrected header rule fails the same way, or yields stacks and paths that differ only in their texts |
| RpnEvaluator.RunsAgree | src/main/java/com/nbugaenco/ttg/service/RPNEvaluator.java:79-88 | the whole token loop under the two header rules fails the same way, or ends with stacks and paths that differ only in their texts |
| RpnEvaluator.EvaluationsAgree | src/main/java/com/nbugaenco/ttg/service/RPNEvaluator.java:79-88 | `evaluate` as written and as corrected succeed together, fail with the same error, and give paths of the same length with the same values and precedences column by column |
| Formulas.TraceLength | src/main/java/com/nbugaenco/ttg/service/RPNEvaluator.java:195-200 | a tree adds one column per operator, the last being the tree's own entry |
| Formulas.OperatorCountOfConcat | src/main/java/com/nbugaenco/ttg/service/RPNEvaluator.java:79-88 | operator counts add over concatenation |
| Formulas.RunPostfix | src/main/java/com/nbugaenco/ttg/service/RPNEvaluator.java:79-88 | running a subtree's postfix walk pushes exactly its entry and appends exactly its trace, whatever is below or after |
| Formulas.EntryValue | src/main/java/com/nbugaenco/ttg/model/Operator.java:157-162 | the entry's value is the tree's truth value |
| Formulas.EvaluatePostfix | src/main/java/com/nbugaenco/ttg/service/RPNEvaluator.java:79-88 | evaluating a tree's postfix walk succeeds; the path is the assignment followed by the trace; the final column holds the tree's truth value |
| Formulas.EvaluatePostfixAsWritten | src/main/java/com/nbugaenco/ttg/service/RPNEvaluator.java:79-88 | with the headers as written, evaluating a tree's postfix walk also succeeds; its path has the same values as the corrected one, and the last column holds the tree's truth value |
| ReadBack.DonePending | src/main/java/com/nbugaenco/ttg/service/ShuntingYardParser.java:80-92 | after a subtree's tokens, the output so far plus its still-stacked operators, popped, is its postfix walk; those operators bind at least as tight as the subtree |
| ReadBack.PopOperatorsExact | src/main/java/com/nbugaenco/ttg/service/ShuntingYardParser.java:82-90 | the pops take exactly the operators stacked above a shielding entry |
| ReadBack.OperatorStepExact | src/main/java/com/nbugaenco/ttg/service/ShuntingYardParser.java:80-92 | an operator step outputs exactly the pending operators and stacks the new one |
| ReadBack.CloseOverPending | src/main/java/com/nbugaenco/ttg/service/ShuntingYardParser.java:105-113 | `)` outputs exactly the operators above the matching `(` and removes it |
| ReadBack.ParseTokens | src/main/java/com/nbugaenco/ttg/service/ShuntingYardParser.java:36-56 | a subtree's tokens move its completed walk to the output and leave its pending operators on the stack |
| ReadBack.ParseParenthesised | src/main/java/com/nbugaenco/ttg/service/ShuntingYardParser.java:45-48 | a parenthesised subtree outputs exactly its postfix walk |
| ReadBack.ParseRoundTrip | src/main/java/com/nbugaenco/ttg/service/ShuntingYardParser.java:36-56 | parsing a tree's printed tokens gives its postfix walk |
| ReadBack.HeaderText | src/main/java/com/nbugaenco/ttg/service/RPNEvaluator.java:221-280 | a subtree's header, without its spaces, is its printed tokens, and the entry's precedence is the tree's |
| ReadBack.HeaderShape | src/main/java/com/nbugaenco/ttg/service/RPNEvaluator.java:227-238 | without nested negation a header is non-empty, contains no `"!!"` and does not end in `!` |
| ReadBack.RemoveDoubleNegationKeeps | src/main/java/com/nbugaenco/ttg/service/Tokenizer.java:62-64 | text without `"!!"` is kept unchanged |
| ReadBack.TokensValid | src/main/java/com/nbugaenco/ttg/service/Tokenizer.java:37-46 | a tree's printed tokens are all tokenizer tokens |
| ReadBack.HeaderReadsBack | src/main/java/com/nbugaenco/ttg/service/RPNEvaluator.java:221-280 | a column header fed back to the tokenizer gives the subtree's tokens; these parse to its postfix walk, which evaluates with this column last, holding the subtree's truth value |
| ReadBack.AsWrittenHeaderIsAmbiguous | src/main/java/com/nbugaenco/ttg/service/RPNEvaluator.java:271-274 | as written, `A & (B / C)` and `(A & B) / C` both get the header `A & B / C`, and with all variables false their values differ |
| ReadBack.CorrectedHeadersDiffer | src/main/java/com/nbugaenco/ttg/service/RPNEvaluator.java:259-274 | as corrected, the two trees get the headers `A & (B / C)` and `A & B / C` |
| ReadBack.SharedHeaderReadsAsLeftNested | src/main/java/com/nbugaenco/ttg/service/ShuntingYardParser.java:36-56 | the shared header `A & B / C` tokenizes and parses as `(A & B) / C`, whose walk differs from that of `A & (B / C)` |
| Examples.GreedyScan | src/main/java/com/nbugaenco/ttg/service/Tokenizer.java:123-130 | `A<->B` scans as `A`, `<->`, `B` |
| Examples.Normalisation | src/main/java/com/nbugaenco/ttg/service/Tokenizer.java:62-64 | `A & B` becomes `A&B`, `! !A` becomes `A`, `!!!A` becomes `!A` |
| Examples.ScanErrors | src/main/java/com/nbugaenco/ttg/service/Tokenizer.java:81-130 | `a&B` is an invalid character; `A-B`, `A<B` and `A&1` are unknown tokens |
| Examples.LeftAssociativeParse | src/main/java/com/nbugaenco/ttg/service/ShuntingYardParser.java:84-86 | `A & B & C` parses to `A B & C &` |
| Examples.RightAssociativeParse | src/main/java/com/nbugaenco/ttg/service/ShuntingYardParser.java:84-88 | `A -> B -> C` parses to `A B C -> ->` |
| Examples.ParenthesisErrors | src/main/java/com/nbugaenco/ttg/service/ShuntingYardParser.java:105-138 | an unmatched `)` and an unclosed `(` are mismatched parentheses |
| Examples.EvaluationErrors | src/main/java/com/nbugaenco/ttg/service/RPNEvaluator.java:126-184 | `A &` lacks an operand, `A B` leaves two results, and an unassigned variable is unknown |
| Examples.DoubleNegationHeader | src/main/java/com/nbugaenco/ttg/service/RPNEvaluator.java:233-237 | a negation of a negation is headed `!!A` |
| Examples.NegatedConjunctionHeader | src/main/java/com/nbugaenco/ttg/service/RPNEvaluator.java:232-235 | a negated conjunction is headed `!(A & B)` |
| Examples.LeftChainHeader | src/main/java/com/nbugaenco/ttg/service/RPNEvaluator.java:252-256 | `(A & B) & C` is headed `A & B & C` |
| Examples.RightImplicationHeader | src/main/java/com/nbugaenco/ttg/service/RPNEvaluator.java:265-274 | `A -> (B -> C)` keeps its parentheses |
| Examples.LeftImplicationHeader | src/main/java/com/nbugaenco/ttg/service/RPNEvaluator.java:251-256 | `(A -> B) -> C` keeps its parentheses |
| Examples.RightOrChainHeader | src/main/java/com/nbugaenco/ttg/service/RPNEvaluator.java:259-274 | `A \| (B \| C)` is headed `A \| B \| C` as written and `A \| (B \| C)` as corrected |

## Left out

- The command-line front end (`TruthTableGeneratorApplication.java`) and
  table assembly and printing (`TruthTableGenerator.java`) are I/O around
  the core. Row enumeration over all assignments is not part of this model.
- Exception messages are not modelled: each exception becomes an error kind.
  The parser's `IllegalStateException` for a non-operator left on the stack
  (ShuntingYardParser.java:134-136) cannot occur, since the stack only ever
  holds operators and `(`. The evaluator's internal "operand stack empty"
  check (RPNEvaluator.java:188-191) cannot occur after the arity check. The
  `Unknown operator symbol` branch (RPNEvaluator.java:177-180) also cannot
  occur, because the token has already been recognised as an operator.
- `Character.isLetter` and `Character.isUpperCase` are restricted to the
  ASCII letters. A non-ASCII letter, which Java would accept, is outside the
  model. The regex `\s` needs no such restriction: without
  `UNICODE_CHARACTER_CLASS` it matches exactly the six ASCII whitespace
  characters, as `IsWhitespace` does.
- `LogicalVariable` is modelled as a value with an expression, a value and a
  precedence. The `LogicalVariable.java` shown carries only the first two,
  and its `equals`/`hashCode` are not modelled. The evaluator's code and
  documentation rely on a precedence field whose two-argument constructor
  assigns the maximum precedence. Input variables therefore get precedence
  `Integer.MAX_VALUE`.
- `Operator.apply` takes the operands' boolean values rather than the
  `LogicalVariable` objects. Its lambda bodies are modelled as one truth
  function.
- The `Optional.filter(calculationPath::add)` in RPNEvaluator.java:199 is
  modelled as an unconditional append, because `List.add` on an `ArrayList`
  always returns true.
- ReadBack.HeaderReadsBack: requires that no negation is applied directly to
  a negation. The tokenizer deletes every `"!!"` before scanning, so the
  header `!!A` reads back as `A`. That is the same truth value, but a
  different tree. It also holds for the corrected header rule only. Under the
  rule as written, `ReadBack.AsWrittenHeaderIsAmbiguous` shows a header that
  reads back as another tree.
- RpnEvaluator.BuildLogicalVariable: follows the corrected right-operand
  rule of the finding below, rather than the code as written. The code as
  written is `RpnEvaluator.BuildLogicalVariableAsWritten`. The correction
  brackets every right operand of equal precedence under a left-associative
  operator. That is stricter than the comment at RPNEvaluator.java:269
  intends, which leaves `A | (B | C)` bare because `|` is associative. The
  correction also brackets `A | (B | C)`, `A & (B & C)`, `A ^ (B ^ C)` and
  `A <-> (B <-> C)`. It is chosen so that every header reads back as the
  same tree, not merely an equivalent one.
- Formulas.EntryOf, Formulas.Trace and Formulas.EvaluatePostfix: their
  header texts follow the corrected rule. With the rule as written,
  `Formulas.EvaluatePostfixAsWritten` states the outcome, the values and the
  path length, but not the texts.
- Formulas.EvaluatePostfixAsWritten: does not state the header texts, which
  under the rule as written need not read back as the tree.

## Findings

| source | as written | input that shows it | evidently intended | confidence | as-written member | corrected member |
|---|---|---|---|---|---|---|
| src/main/java/com/nbugaenco/ttg/service/RPNEvaluator.java:271-274 | the right operand is parenthesised only when its precedence is lower, or equal under a right-associative operator, so a right operand of equal precedence under a left-associative operator is printed bare | the expression `A & (B / C)`: its column header is printed `A & B / C`, which is also the header of `(A & B) / C`; with A, B, C all false the first is false and the second true | a header has the truth value of its column's sub-expression, so a right operand of equal precedence must be bracketed unless dropping the brackets keeps the value (the same associative operator, as in `A \| B \| C`, which the comment at :269 leaves bare); `/`, `\` and mixed operators of equal precedence need them. The corrected member is stricter still: it brackets every such right operand, so that the header reads back as the same tree | not executed | RpnEvaluator.BuildLogicalVariableAsWritten, ReadBack.AsWrittenHeaderIsAmbiguous | RpnEvaluator.BuildLogicalVariable, ReadBack.HeaderReadsBack |
