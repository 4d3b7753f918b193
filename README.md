# Arithmetic expression front end, modelled in Dafny

`src/main.cpp` is a small front end for integer arithmetic expressions. It has three parts:

- **A lexer.** It scans a `remaining` string with one token of lookahead. `getNextToken`
  drops leading whitespace and classifies what follows without consuming it: a digit run,
  one of `+ - * / ^ ( )`, the end of input, or a lexical error. `removeToken` drops a token's
  text from the front.
- **An expression tree.** Number literals and five binary node kinds, each with `process()`
  (evaluation) and `toString()` (rendering).
- **Two recursive-descent parsers over one grammar.** The grammar is
  `expr := term {(+|-) term}`, `term := power {(*|/) power}`, `power := factor [^ power]`,
  `factor := NUMBER | ( expr )`. `ASTParser` builds a tree. `EvalParser` computes the value as
  it parses. Errors are exceptions carrying `"parse error"` or `"missing right parenthesis"`.

The model keeps the source's form:

- `Lexing.Lexer` is a class with fields `input` and `remaining`. `GetNextToken` keeps the
  `do … while` loop that drops whitespace runs. `RemoveToken` reassigns `remaining`.
- The parser rules are methods over a shared `Lexer`. `expr` and `term` keep their `while`
  loops over an accumulator, and exceptions become `Result` values.
- Each method is proved equal to a pure function of the remaining input: `AstGrammar` for the
  tree-building parser, `EvalGrammar` for the evaluating one. Every property is then proved
  about those functions:
  - what the lexer returns (`Lexing`);
  - how evaluation and rendering behave (`Ast`, `Decimal`);
  - that the two parsers agree on every input (`Agreement`);
  - the tree shapes behind associativity and precedence, and the exact error cases (`Shapes`);
  - every row of the program's own test table (`TestTable`).

Values are unbounded integers. The two operations that stay undefined once integers are
unbounded, integer division by zero and `pow` of zero to a negative exponent, produce a poison
value (`None`).
It propagates through every later operation.

## Model

| member | source | states |
|---|---|---|
| Lexing.Lexer.constructor | src/main.cpp:50-53 | a new lexer has `remaining == input` and satisfies the suffix invariant |
| Lexing.Lexer.GetNextToken | src/main.cpp:55-89 | consumes exactly the leading whitespace run; returns the classification of what follows, never a whitespace token, with its text a prefix of `remaining`; keeps `remaining` a suffix of `input` |
| Lexing.Lexer.TryGetNextToken | src/main.cpp:91-94 | as `GetNextToken`, and the flag is false exactly when the token is a lexical error |
| Lexing.Lexer.RemoveToken | src/main.cpp:96-98 | `remaining` loses exactly the token's length from its front and stays a suffix of `input` |
| Lexing.Span | src/main.cpp:64-80 | the digit run of `^([0-9]+)` (line 64) and the whitespace run of `^(\s+)` (line 80): the longest prefix whose characters all satisfy the class, stopped by the first character outside it |
| Lexing.Match | src/main.cpp:58-85 | the token's text is a prefix of the input; a number's text is a non-empty digit run; an operator or parenthesis has one character; end of input exactly on the empty string |
| Lexing.MatchClassifies | src/main.cpp:58-85 | empty input gives `NO_MORE_TOKENS` with `""`; a digit gives `NUMBER` with the maximal digit run; an operator or parenthesis gives its kind with that one character; whitespace gives the maximal whitespace run; anything else gives `LEXICAL_ERROR` with `""` |
| Lexing.MatchSymbol | src/main.cpp:66-79 | each of `+ - * / ^ ( )` is a one-character token of its own kind |
| Lexing.MatchWhitespace | src/main.cpp:80-82 | a whitespace token spans exactly the run that skipping whitespace drops; after any other token nothing is dropped |
| Lexing.SkipWhitespace | src/main.cpp:57-86 | the result is a suffix of the input, starts with no whitespace, and everything dropped is whitespace |
| Lexing.SkipWhitespaceIdempotent | src/main.cpp:57-86 | skipping whitespace twice is the same as once |
| Lexing.Peek | src/main.cpp:55-89 | the token `getNextToken` hands out is the end of input exactly when only whitespace remains |
| Lexing.PeekIsStable | src/main.cpp:55-89 | the token seen after whitespace has been skipped is the token seen before, so two calls of `getNextToken` with no `removeToken` in between return the same token |
| Lexing.PeekNeverWhitespace | src/main.cpp:86 | the token handed out is never whitespace, and its text is a prefix of what remains |
| Ast.TruncDiv | src/main.cpp:197-199 | C++ `/` on `int`: the remainder is smaller in magnitude than the divisor and has the sign of the dividend, so the quotient truncates toward zero |
| Ast.ValueAdd | src/main.cpp:128-130 | defined exactly when both operands are, and then their sum |
| Ast.ValueSubtract | src/main.cpp:151-153 | defined exactly when both operands are, and then their difference |
| Ast.ValueMultiply | src/main.cpp:174-176 | defined exactly when both operands are, and then their product |
| Ast.ValueDivide | src/main.cpp:197-199 | defined exactly when both operands are defined and the divisor is non-zero; the quotient then truncates toward zero |
| Ast.ValuePower | src/main.cpp:220-222 | a non-negative exponent gives the exact integer power; undefined exactly when an operand is undefined or a zero base meets a negative exponent |
| Ast.PowInt | src/main.cpp:221 | the cast of `std::pow`: the exact power for a non-negative exponent; undefined exactly for a zero base and a negative exponent; otherwise a negative exponent gives -1, 0 or 1 |
| Ast.PowNegativeTruncates | src/main.cpp:221 | for a non-zero base and a negative exponent the result is `1 / b^-e` truncated toward zero |
| Ast.RingOnlyIsDefined | src/main.cpp:128-176 | a tree made only of numbers, `+`, `-` and `*` always evaluates to a defined value |
| Ast.Eval | src/main.cpp:128-239 | `process()`: a literal is its stored value; an operator node is undefined as soon as one of its children is; a division by a subtree worth zero is undefined |
| Ast.Render | src/main.cpp:132-243 | `toString()`: every rendering starts with a letter that tells the node kind apart and ends with `)` |
| Ast.RenderBinary | src/main.cpp:132-226 | an operator node renders as `<op>(<left>, <right>)` with its own operator name |
| Ast.RenderInjective | src/main.cpp:132-243 | two trees with the same rendering are the same tree |
| Ast.RenderPrefixUnique | src/main.cpp:132-243 | a rendering followed by more text can be split back uniquely into the tree and the text |
| Decimal.NatToDecimal | src/main.cpp:242 | `to_string` of a natural number is a non-empty digit run with no leading zero |
| Decimal.IntToDecimal | src/main.cpp:242 | `to_string` of an integer starts with `-` exactly when it is negative, and the rest is digits |
| Decimal.DecimalValue | src/main.cpp:301 | `stoi` of a digit run: a run of `k` digits is worth less than `10^k`, and a single digit is worth that digit |
| Decimal.DecimalRoundTrip | src/main.cpp:301 | `stoi` reads back the decimal rendering of a natural number as that number |
| Decimal.IntToDecimalInjective | src/main.cpp:242 | different integers render differently |
| AstGrammar.ParseExpr | src/main.cpp:251-265 | `expr` succeeds only after consuming input, leaving a suffix of it |
| AstGrammar.ExprTail | src/main.cpp:254-262 | the `expr` loop leaves a suffix of the input it starts on |
| AstGrammar.ParseTerm | src/main.cpp:267-281 | `term` succeeds only after consuming input, leaving a suffix of it |
| AstGrammar.TermTail | src/main.cpp:270-278 | the `term` loop leaves a suffix of the input it starts on |
| AstGrammar.ParsePower | src/main.cpp:283-293 | `power` succeeds only after consuming input, leaving a suffix of it |
| AstGrammar.ParseFactor | src/main.cpp:295-315 | `factor` succeeds only after consuming input, leaving a suffix of it |
| AstGrammar.Parse | src/main.cpp:320-323 | a failing `parse` fails with `"parse error"` or `"missing right parenthesis"` and nothing else |
| AstGrammar.ErrorsAreFactorErrors | src/main.cpp:309-312 | `expr` only ever fails with one of the two messages that `factor` throws |
| AstGrammar.ExprTailFails | src/main.cpp:254-256 | a turn of the `expr` loop whose `term` fails makes the loop fail with that message |
| AstGrammar.ExprTailContinues | src/main.cpp:254-261 | a successful turn folds the operand into the accumulator with the operator read and goes on |
| AstGrammar.ExprTailStop | src/main.cpp:254 | the loop stops where the next token is neither `+` nor `-`, consuming nothing |
| AstGrammar.TermTailFails | src/main.cpp:270-272 | a turn of the `term` loop whose `power` fails makes the loop fail with that message |
| AstGrammar.TermTailContinues | src/main.cpp:270-277 | a successful turn folds the operand into the accumulator with the operator read and goes on |
| AstGrammar.TermTailStop | src/main.cpp:270 | the loop stops where the next token is neither `*` nor `/`, consuming nothing |
| AstGrammar.PowerRaisesStep | src/main.cpp:286-291 | a `factor` followed by `^` becomes a power node over the whole `power` after the operator |
| AstParser.Expr | src/main.cpp:251-265 | the `expr` method gives the tree or error of `AstGrammar.ParseExpr` and leaves the remaining input it names |
| AstParser.Term | src/main.cpp:267-281 | the `term` method gives the tree or error of `AstGrammar.ParseTerm` and the remaining input it names |
| AstParser.Power | src/main.cpp:283-293 | the `power` method gives the tree or error of `AstGrammar.ParsePower` and the remaining input it names |
| AstParser.Factor | src/main.cpp:295-315 | the `factor` method gives the tree or error of `AstGrammar.ParseFactor` and the remaining input it names |
| AstParser.Parse | src/main.cpp:320-323 | `parse` on a fresh lexer gives exactly `AstGrammar.Parse` of the statement |
| EvalGrammar.ParseExpr | src/main.cpp:327-341 | the evaluating `expr` succeeds only after consuming input, leaving a suffix of it |
| EvalGrammar.ExprTail | src/main.cpp:330-338 | the evaluating `expr` loop leaves a suffix of its input |
| EvalGrammar.ParseTerm | src/main.cpp:343-357 | the evaluating `term` succeeds only after consuming input, leaving a suffix of it |
| EvalGrammar.TermTail | src/main.cpp:346-354 | the evaluating `term` loop leaves a suffix of its input |
| EvalGrammar.ParsePower | src/main.cpp:359-369 | the evaluating `power` succeeds only after consuming input, leaving a suffix of it |
| EvalGrammar.ParseFactor | src/main.cpp:371-391 | the evaluating `factor` succeeds only after consuming input, leaving a suffix of it |
| EvalGrammar.Parse | src/main.cpp:396-399 | a failing evaluating `parse` fails with `"parse error"` or `"missing right parenthesis"` and nothing else |
| EvalGrammar.ErrorsAreFactorErrors | src/main.cpp:385-388 | the evaluating `expr` only ever fails with one of the two messages that its `factor` throws |
| EvalParser.Expr | src/main.cpp:327-341 | the `expr` method gives the value or error of `EvalGrammar.ParseExpr` and the remaining input it names |
| EvalParser.Term | src/main.cpp:343-357 | the `term` method gives the value or error of `EvalGrammar.ParseTerm` and the remaining input it names |
| EvalParser.Power | src/main.cpp:359-369 | the `power` method gives the value or error of `EvalGrammar.ParsePower` and the remaining input it names |
| EvalParser.Factor | src/main.cpp:371-391 | the `factor` method gives the value or error of `EvalGrammar.ParseFactor` and the remaining input it names |
| EvalParser.Parse | src/main.cpp:396-399 | the evaluating `parse` succeeds exactly when the tree-building one does; on success it is the value of that tree, on failure the same message |
| Agreement.ExprAgrees | src/main.cpp:327-341 | evaluating `expr` agrees with building its tree and evaluating it: same outcome, same remaining input, same message |
| Agreement.ExprTailAgrees | src/main.cpp:330-338 | the value-folding `expr` loop agrees with the tree-folding one evaluated afterwards |
| Agreement.TermAgrees | src/main.cpp:343-357 | the same agreement for `term` |
| Agreement.TermTailAgrees | src/main.cpp:346-354 | the same agreement for the `term` loop |
| Agreement.PowerAgrees | src/main.cpp:359-369 | the same agreement for `power` |
| Agreement.FactorAgrees | src/main.cpp:371-391 | the same agreement for `factor` |
| Agreement.GroupAgrees | src/main.cpp:378-386 | a parenthesised group agrees when its inner `expr` does |
| Agreement.NonGroupAgrees | src/main.cpp:375-389 | a literal or a parse error agrees between the two parsers |
| Agreement.ParseAgrees | src/main.cpp:396-399 | `EvalParser.parse` succeeds exactly when `ASTParser.parse` does; then it is `process()` of the tree; otherwise the message is the same |
| Shapes.FactorNumeral | src/main.cpp:299-301 | a numeral after blanks is a literal with its decimal value, and reading stops right after the digits |
| Shapes.FactorGroup | src/main.cpp:302-310 | `(` starts a group: the inner `expr`'s error, or its tree when `)` follows, else `"missing right parenthesis"` |
| Shapes.PowerStops | src/main.cpp:286-292 | with no `^` after the `factor`, `power` is that factor |
| Shapes.PowerRaises | src/main.cpp:286-291 | with `^` after the `factor`, `power` raises it to the whole `power` that follows |
| Shapes.TermTailOp | src/main.cpp:270-277 | one turn of the `term` loop over `*` or `/` builds the matching node |
| Shapes.ExprTailOp | src/main.cpp:254-261 | one turn of the `expr` loop over `+` or `-` builds the matching node |
| Shapes.TermNumeral | src/main.cpp:267-281 | a numeral not followed by `^ * /` is a whole `term` |
| Shapes.LoneNumeral | src/main.cpp:320-323 | a statement that is one numeral between blanks parses to that literal |
| Shapes.AdditivePair | src/main.cpp:254-262 | `a o b` with `o` among `+ -` parses to the node for `o` over the two literals |
| Shapes.AdditiveLeftAssociative | src/main.cpp:254-262 | `a o1 b o2 c` with `+ -` parses to `(a o1 b) o2 c` |
| Shapes.MultiplicativeLeftAssociative | src/main.cpp:270-278 | `a o1 b o2 c` with `* /` parses to `(a o1 b) o2 c` |
| Shapes.MultiplicativeBindsTighter | src/main.cpp:251-281 | `a o1 b o2 c` with `o1` among `+ -` and `o2` among `* /` parses to `a o1 (b o2 c)` |
| Shapes.ExprTailPowerOf | src/main.cpp:254-293 | in `a + b ^ c`, `^` binds tighter than `+` or `-` |
| Shapes.PowerRightAssociative | src/main.cpp:283-293 | `a ^ b ^ c` parses to `a ^ (b ^ c)` |
| Shapes.GroupedLeftOperand | src/main.cpp:302-310 | `(x) o d` with `o` among `* /` takes the group's tree as the left operand |
| Shapes.FactorFailureSpreads | src/main.cpp:252-284 | a failing first `factor` makes `expr` fail with the same message |
| Shapes.BlankIsParseError | src/main.cpp:311-313 | an empty or all-whitespace statement fails with `"parse error"` |
| Shapes.LexicalErrorIsParseError | src/main.cpp:311-313 | a statement starting with a character no pattern matches fails with `"parse error"` |
| Shapes.OpenOnlyIsParseError | src/main.cpp:302-313 | `"("` followed only by blanks fails with `"parse error"`, raised by the inner `factor` |
| Shapes.UnclosedGroup | src/main.cpp:305-310 | `"(1"` fails with `"missing right parenthesis"` |
| Shapes.TrailingInputIgnored | src/main.cpp:320-323 | text after a complete expression, such as a stray `)`, is ignored: `"1)"` parses to `number(1)` |
| TestTable.SubtractChain | src/main.cpp:407 | `"1-2-3"` parses to `subtract(subtract(number(1), number(2)), number(3))` and both parsers give -4 |
| TestTable.SubtractChainRendering | src/main.cpp:155-157 | that tree renders as `subtract(subtract(number(1), number(2)), number(3))` |
| TestTable.One | src/main.cpp:408 | `"1"` gives 1 in both parsers |
| TestTable.TwoMinusOne | src/main.cpp:409 | `"2-1"` gives 1 in both parsers |
| TestTable.FiveMinusFourMinusThree | src/main.cpp:410 | `"5 - 4 - 3"` gives -2 in both parsers |
| TestTable.TwoMinusOneSpaced | src/main.cpp:411 | `"2 - 1"` gives 1 in both parsers |
| TestTable.TimesThenDivide | src/main.cpp:412 | `"2 * 3 / 2"` gives 3 in both parsers |
| TestTable.TimesThenDivideTruncating | src/main.cpp:413 | `" 2 *2 / 3"` gives 1 in both parsers |
| TestTable.TimesBeforeMinus | src/main.cpp:414 | `"2 - 2 * 3"` gives -4 in both parsers |
| TestTable.GroupTimesThree | src/main.cpp:415 | `"(2 - 2) * 3"` gives 0 in both parsers |
| TestTable.PowerTower | src/main.cpp:416 | `"2 ^ 2 ^ 3"` parses to `power(number(2), power(number(2), number(3)))` and gives 256 |
| TestTable.MixedGroupTimesThree | src/main.cpp:417 | `"(1 - 2 ^ 2 + 1) * 3"` gives -6 in both parsers |

## Left out

- The `main` test driver (src/main.cpp:403-445) is left out: console output and the failure counter. Its test table is covered by the `TestTable` lemmas.
- 32-bit `int` is not modelled; integers are unbounded. `Ast.ValueAdd`, `Ast.ValueSubtract` and `Ast.ValueMultiply` do not model signed overflow, which is undefined behaviour in C++.
- `stoi` throwing `out_of_range` for a digit run too long for `int` is not modelled; a digit run reads as its exact decimal value.
- Ast.ValuePower: computes the exact integer power instead of `static_cast<int>(std::pow(double, double))`. It does not model double rounding of results beyond 2^53, or the undefined cast of results outside `int`. For a negative exponent it gives `1 / b^-e` truncated toward zero, which is what the cast of the floating-point result gives.
- Division by zero and zero raised to a negative power are undefined behaviour in C++. Here they are a poison value that propagates. `EvalParser` computes while it parses, so in C++ such an operation takes effect at once even when a parse error comes later in the input. The model carries the poison value on and reports the later error.
- `std::regex` is replaced by direct character classes. `\s` is the six ASCII whitespace characters (space, tab, newline, carriage return, vertical tab, form feed).
- Destructors and `delete`, and the trees leaked when an exception is thrown, have no counterpart in a Dafny datatype.
- Lexing.Lexer.RemoveToken: requires the token's text to be no longer than the remaining input. The C++ `substr` would throw `out_of_range` otherwise. Every call in the file passes a token just returned for the same `remaining`, so it never happens.
- `ASTParser` and `EvalParser` hold no state. Their rules are module-level methods over the shared `Lexer` rather than classes.
- An unterminated `"("` might be expected to fail with `"missing right parenthesis"`. The code fails with `"parse error"`: the inner `expr` reaches `factor` at the end of input first. The model follows the code (`Shapes.OpenOnlyIsParseError`).
