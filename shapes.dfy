/**
 * How the tree-building parser reads inputs made of numerals, operators and blanks: the
 * lexer's view of such inputs, one step of each grammar rule over them, and the tree shapes
 * that follow (left-associative `+ -` and `* /`, `* /` binding tighter than `+ -`, and
 * right-associative `^`).
 */
module Shapes {
  import opened Wrappers
  import opened Decimal
  import opened Lexing
  import A = Ast
  import G = AstGrammar

  /** A run of whitespace, possibly empty. */
  predicate Blank(w: string) {
    forall i :: 0 <= i < |w| ==> IsWhitespace(w[i])
  }

  /** A non-empty run of decimal digits. */
  predicate Numeral(d: string) {
    d != [] && AllDigits(d)
  }

  /** Text that cannot extend a digit run in front of it. */
  predicate NotDigitLed(x: string) {
    x == [] || !IsDigit(x[0])
  }

  predicate Additive(c: char) {
    c == '+' || c == '-'
  }

  predicate Multiplicative(c: char) {
    c == '*' || c == '/'
  }

  /**
   * The node `expr` builds for `+` or `-`. The grammar makes the same choice on the token kind;
   * this form picks on the operator character, so that the shape lemmas can name the tree
   * they state directly from the text.
   */
  function AddOp(c: char, l: A.Expr, r: A.Expr): A.Expr {
    if c == '+' then A.Add(l, r) else A.Subtract(l, r)
  }

  /** The node `term` builds for `*` or `/`, picked on the operator character as in `AddOp`. */
  function MulOp(c: char, l: A.Expr, r: A.Expr): A.Expr {
    if c == '*' then A.Multiply(l, r) else A.Divide(l, r)
  }

  /** The literal a numeral stands for. */
  function Lit(d: string): A.Expr
    requires Numeral(d)
  {
    A.Number(DecimalValue(d))
  }

  // ---- the lexer's view ----

  lemma {:induction false} SpanOfBlank(w: string, x: string)
    requires Blank(w) && NoLeadingWhitespace(x)
    ensures Span(IsWhitespace, w + x) == w
  {
    if w == [] {
      assert w + x == x;
    } else {
      assert (w + x)[1..] == w[1..] + x;
      SpanOfBlank(w[1..], x);
      assert [w[0]] + w[1..] == w;
    }
  }

  /** Skipping whitespace removes exactly the blank in front. */
  lemma SkipBlank(w: string, x: string)
    requires Blank(w) && NoLeadingWhitespace(x)
    ensures SkipWhitespace(w + x) == x
  {
    SpanOfBlank(w, x);
    assert (w + x)[|w|..] == x;
  }

  /** A numeral not followed by a digit is one `NUMBER` token. */
  lemma MatchNumeral(d: string, rest: string)
    requires Numeral(d) && NotDigitLed(rest)
    ensures Match(d + rest) == Token(Number, d)
  {
    var s := d + rest;
    MatchClassifies(s);
    var t := Match(s);
    assert forall i :: 0 <= i < |d| ==> s[i] == d[i];
    assert |d| < |s| ==> s[|d|] == rest[0];
    assert |t.lexeme| == |d|;
    assert t.lexeme == s[..|d|] == d;
  }

  /** A blank, then a numeral: the next token is that numeral. */
  lemma PeekNumeral(w: string, d: string, rest: string)
    requires Blank(w) && Numeral(d) && NotDigitLed(rest)
    ensures SkipWhitespace(w + (d + rest)) == d + rest
    ensures Match(d + rest) == Token(Number, d)
  {
    SkipBlank(w, d + rest);
    MatchNumeral(d, rest);
  }

  /** A blank, then an operator or parenthesis: the next token is that character. */
  lemma PeekSymbol(w: string, c: char, rest: string)
    requires Blank(w) && Listed(c)
    ensures SkipWhitespace(w + ([c] + rest)) == [c] + rest
    ensures c in Symbols && Match([c] + rest) == Token(SymbolKind(c), [c])
    ensures ([c] + rest)[1..] == rest
  {
    ListedIsSymbol(c);
    SkipBlank(w, [c] + rest);
    MatchSymbol([c] + rest);
  }

  /**
   * The operators and parentheses, spelt out one by one. This is `c in Symbols` written as a
   * disjunction: inside the grammar-heavy shape lemmas the solver settles a literal character
   * against this form cheaply, and `ListedIsSymbol` connects the two.
   */
  predicate Listed(c: char) {
    c == '+' || c == '-' || c == '*' || c == '/' || c == '^' || c == '(' || c == ')'
  }

  lemma ListedIsSymbol(c: char)
    requires Listed(c)
    ensures c in Symbols
  {
    var i := if c == '+' then 0 else if c == '-' then 1 else if c == '*' then 2 else if c == '/' then 3
      else if c == '^' then 4 else if c == '(' then 5 else 6;
    assert Symbols[i] == c;
  }

  /** Only blanks remain: the next token is the end of input. */
  lemma PeekEnd(w: string)
    requires Blank(w)
    ensures SkipWhitespace(w) == [] && Match([]) == Token(NoMoreTokens, "")
  {
    assert w + [] == w;
    SkipBlank(w, []);
  }

  /** A blank followed by an operator does not continue a numeral. */
  lemma BlankSymbolNotDigitLed(w: string, c: char, x: string)
    requires Blank(w) && Listed(c)
    ensures NotDigitLed(w + ([c] + x))
  {
    if w == [] {
      assert w + ([c] + x) == [c] + x;
    }
  }

  // ---- one step of each rule ----

  /** `factor` on a numeral: a literal, and the input right after the digits. */
  lemma FactorNumeral(w: string, d: string, rest: string)
    requires Blank(w) && Numeral(d) && NotDigitLed(rest)
    ensures G.ParseFactor(w + (d + rest)) == Ok((Lit(d), rest))
  {
    PeekNumeral(w, d, rest);
    assert (d + rest)[|d|..] == rest;
  }

  /** `factor` on `(`: the group's `expr`, which must be followed by `)`. */
  lemma FactorGroup(w: string, x: string)
    requires Blank(w)
    ensures var r := G.ParseExpr(x);
      r.Err? ==> G.ParseFactor(w + ("(" + x)) == Err(r.msg)
    ensures var r := G.ParseExpr(x);
      r.Ok? ==>
        var s3 := SkipWhitespace(r.value.1);
        G.ParseFactor(w + ("(" + x)) ==
          if Match(s3).kind == RParen then Ok((r.value.0, s3[1..])) else Err(MissingRightParen)
  {
    assert "(" + x == ['('] + x;
    PeekSymbol(w, '(', x);
    match G.ParseExpr(x)
    case Err(_) =>
    case Ok((_, rest)) =>
      var s3 := SkipWhitespace(rest);
      if Match(s3).kind == RParen {
        MatchClassifies(s3);
      }
  }

  /** `power` with no `^` after its `factor` is that factor. */
  lemma PowerStops(s: string)
    requires G.ParseFactor(s).Ok?
    requires Match(SkipWhitespace(G.ParseFactor(s).value.1)).kind != Power
    ensures G.ParsePower(s) == Ok((G.ParseFactor(s).value.0, SkipWhitespace(G.ParseFactor(s).value.1)))
  {
  }

  /** `power` with `^` after its `factor`: the factor raised to the `power` that follows. */
  lemma PowerRaises(s: string, f: A.Expr, w: string, x: string)
    requires G.ParseFactor(s) == Ok((f, w + (['^'] + x))) && Blank(w)
    ensures var r := G.ParsePower(x);
      G.ParsePower(s) == if r.Err? then Err(r.msg) else Ok((A.Power(f, r.value.0), r.value.1))
  {
    PeekCaret(w, x);
    G.PowerRaisesStep(s, f, w + (['^'] + x));
  }

  /** A blank, then `^`: the next token is `POWER`, and after it comes `x`. */
  lemma PeekCaret(w: string, x: string)
    requires Blank(w)
    ensures var u := ['^'] + x; SkipWhitespace(w + u) == u && Match(u).kind == Power && u[1..] == x
  {
    PeekSymbol(w, '^', x);
  }

  /** One turn of the `term` loop over `* power` or `/ power`. */
  lemma TermTailOp(left: A.Expr, w: string, c: char, x: string)
    requires Blank(w) && Multiplicative(c)
    ensures var r := G.ParsePower(x);
      G.TermTail(left, w + ([c] + x)) == if r.Err? then Err(r.msg) else G.TermTail(MulOp(c, left, r.value.0), r.value.1)
  {
    var u := [c] + x;
    PeekSymbol(w, c, x);
    if c == '*' {
      assert Match(u).kind == Multiply;
    } else {
      assert Match(u).kind == Divide;
    }
    G.TermTailSkips(left, w + u);
    if G.ParsePower(x).Err? {
      G.TermTailFails(left, u);
    } else {
      G.TermTailContinues(left, u);
    }
  }

  /** One turn of the `expr` loop over `+ term` or `- term`. */
  lemma ExprTailOp(left: A.Expr, w: string, c: char, x: string)
    requires Blank(w) && Additive(c)
    ensures var r := G.ParseTerm(x);
      G.ExprTail(left, w + ([c] + x)) == if r.Err? then Err(r.msg) else G.ExprTail(AddOp(c, left, r.value.0), r.value.1)
  {
    var u := [c] + x;
    PeekSymbol(w, c, x);
    if c == '+' {
      assert Match(u).kind == Plus;
    } else {
      assert Match(u).kind == Minus;
    }
    G.ExprTailSkips(left, w + u);
    if G.ParseTerm(x).Err? {
      G.ExprTailFails(left, u);
    } else {
      G.ExprTailContinues(left, u);
    }
  }

  /** A numeral followed by a blank and then `v` (no `^` next) is one `power`. */
  lemma PowerNumeral(w: string, d: string, w2: string, v: string)
    requires Blank(w) && Numeral(d) && Blank(w2) && NoLeadingWhitespace(v) && NotDigitLed(w2 + v)
    requires Match(v).kind != Power
    ensures G.ParsePower(w + (d + (w2 + v))) == Ok((Lit(d), v))
  {
    FactorNumeral(w, d, w2 + v);
    SkipBlank(w2, v);
    PowerStops(w + (d + (w2 + v)));
  }

  /** `term` is its first `power` continued by the loop. */
  lemma TermStarts(s: string, left: A.Expr, rest: string)
    requires G.ParsePower(s) == Ok((left, rest))
    ensures G.ParseTerm(s) == G.TermTail(left, rest)
  {
  }

  /** `expr` is its first `term` continued by the loop. */
  lemma ExprStarts(s: string, left: A.Expr, rest: string)
    requires G.ParseTerm(s) == Ok((left, rest))
    ensures G.ParseExpr(s) == G.ExprTail(left, rest)
  {
  }

  /** `parse` keeps the tree of `expr` and drops what is left. */
  lemma ParseOfExpr(s: string, e: A.Expr, rest: string)
    requires G.ParseExpr(s) == Ok((e, rest))
    ensures G.Parse(s) == Ok(e)
  {
  }

  /** A numeral followed by a blank and then `v` (none of `^ * /` next) is one `term`. */
  lemma TermNumeral(w: string, d: string, w2: string, v: string)
    requires Blank(w) && Numeral(d) && Blank(w2) && NoLeadingWhitespace(v) && NotDigitLed(w2 + v)
    requires Match(v).kind != Power && Match(v).kind != Multiply && Match(v).kind != Divide
    ensures G.ParseTerm(w + (d + (w2 + v))) == Ok((Lit(d), v))
  {
    PowerNumeral(w, d, w2, v);
    TermStarts(w + (d + (w2 + v)), Lit(d), v);
    G.TermTailStop(Lit(d), v);
  }

  /** One turn of the `term` loop over `* d` or `/ d` for a numeral `d`. */
  lemma TermTailNumeral(left: A.Expr, o: char, w: string, d: string, w2: string, v: string)
    requires Multiplicative(o) && Blank(w) && Numeral(d) && Blank(w2)
    requires NoLeadingWhitespace(v) && NotDigitLed(w2 + v) && Match(v).kind != Power
    ensures G.TermTail(left, [o] + (w + (d + (w2 + v)))) == G.TermTail(MulOp(o, left, Lit(d)), v)
  {
    var x := w + (d + (w2 + v));
    PowerNumeral(w, d, w2, v);
    TermTailOp(left, [], o, x);
    assert [] + ([o] + x) == [o] + x;
  }

  /** One turn of the `expr` loop over `+ d` or `- d` for a numeral `d` that is a whole `term`. */
  lemma ExprTailNumeral(left: A.Expr, o: char, w: string, d: string, w2: string, v: string)
    requires Additive(o) && Blank(w) && Numeral(d) && Blank(w2) && NoLeadingWhitespace(v) && NotDigitLed(w2 + v)
    requires Match(v).kind != Power && Match(v).kind != Multiply && Match(v).kind != Divide
    ensures G.ExprTail(left, [o] + (w + (d + (w2 + v)))) == G.ExprTail(AddOp(o, left, Lit(d)), v)
  {
    var x := w + (d + (w2 + v));
    TermNumeral(w, d, w2, v);
    ExprTailOp(left, [], o, x);
    assert [] + ([o] + x) == [o] + x;
  }

  /** One turn of the `expr` loop over `+ b ^ c` or `- b ^ c`: `^` binds tighter than `+ -`. */
  lemma ExprTailPowerOf(
    left: A.Expr, o: char, w: string, b: string, w2: string, w3: string, c: string, w4: string, v: string)
    requires Additive(o) && Blank(w) && Numeral(b) && Blank(w2) && Blank(w3) && Numeral(c) && Blank(w4)
    requires NoLeadingWhitespace(v) && NotDigitLed(w4 + v)
    requires Match(v).kind != Power && Match(v).kind != Multiply && Match(v).kind != Divide
    ensures G.ExprTail(left, [o] + (w + (b + (w2 + (['^'] + (w3 + (c + (w4 + v)))))))) ==
      G.ExprTail(AddOp(o, left, A.Power(Lit(b), Lit(c))), v)
  {
    var x2 := w3 + (c + (w4 + v));
    var x := w + (b + (w2 + (['^'] + x2)));
    var bc := A.Power(Lit(b), Lit(c));
    BlankSymbolNotDigitLed(w2, '^', x2);
    FactorNumeral(w, b, w2 + (['^'] + x2));
    PowerNumeral(w3, c, w4, v);
    PowerRaises(x, Lit(b), w2, x2);
    TermStarts(x, bc, v);
    G.TermTailStop(bc, v);
    ExprTailOp(left, [], o, x);
    assert [] + ([o] + x) == [o] + x;
  }

  /** `expr` over a numeral is the `expr` loop started from that literal. */
  lemma ExprStartsNumeral(w: string, d: string, w2: string, v: string)
    requires Blank(w) && Numeral(d) && Blank(w2) && NoLeadingWhitespace(v) && NotDigitLed(w2 + v)
    requires Match(v).kind != Power && Match(v).kind != Multiply && Match(v).kind != Divide
    ensures G.ParseExpr(w + (d + (w2 + v))) == G.ExprTail(Lit(d), v)
  {
    TermNumeral(w, d, w2, v);
    ExprStarts(w + (d + (w2 + v)), Lit(d), v);
  }

  /** A blank at the very end: nothing follows it, and it does not continue a numeral. */
  lemma BlankEnd(w: string)
    requires Blank(w)
    ensures w + [] == w && NotDigitLed(w + []) && NoLeadingWhitespace([])
    ensures Match([]).kind == NoMoreTokens
  {
    assert w + [] == w;
    if w != [] {
      assert IsWhitespace(w[0]);
    }
  }

  /** A blank, then an operator: it does not continue a numeral, and the operator is the next token. */
  lemma BeforeSymbol(w: string, c: char, x: string)
    requires Blank(w) && Listed(c)
    ensures NotDigitLed(w + ([c] + x)) && NoLeadingWhitespace([c] + x)
    ensures Match([c] + x) == Token(SymbolKind(c), [c])
  {
    BlankSymbolNotDigitLed(w, c, x);
    PeekSymbol([], c, x);
  }

  /** At the end of input the loops stop and `parse` returns what they folded. */
  lemma ParseEnds(s: string, e: A.Expr)
    requires G.ParseExpr(s) == G.ExprTail(e, [])
    ensures G.Parse(s) == Ok(e)
  {
    G.ExprTailStop(e, []);
    ParseOfExpr(s, e, []);
  }

  // ---- tree shapes ----

  /** A statement that is one numeral between blanks is that literal. */
  lemma LoneNumeral(w1: string, d: string, w2: string)
    requires Blank(w1) && Numeral(d) && Blank(w2)
    ensures G.Parse(w1 + (d + w2)) == Ok(Lit(d))
  {
    BlankEnd(w2);
    TermNumeral(w1, d, w2, []);
    ExprStarts(w1 + (d + w2), Lit(d), []);
    ParseEnds(w1 + (d + w2), Lit(d));
  }

  /** `a o b` with `o` among `+ -` is the node for `o` over the two literals. */
  lemma AdditivePair(w1: string, a: string, w2: string, o: char, w3: string, b: string, w4: string)
    requires Blank(w1) && Blank(w2) && Blank(w3) && Blank(w4)
    requires Numeral(a) && Numeral(b) && Additive(o)
    ensures G.Parse(w1 + (a + (w2 + ([o] + (w3 + (b + w4)))))) == Ok(AddOp(o, Lit(a), Lit(b)))
  {
    var tail := [o] + (w3 + (b + w4));
    var s := w1 + (a + (w2 + tail));
    BeforeSymbol(w2, o, w3 + (b + w4));
    BlankEnd(w4);
    TermNumeral(w1, a, w2, tail);
    ExprStarts(s, Lit(a), tail);
    ExprTailNumeral(Lit(a), o, w3, b, w4, []);
    ParseEnds(s, AddOp(o, Lit(a), Lit(b)));
  }

  /** A group whose `expr` stops at `)`: the group is a `factor` with the inner tree, read up to after `)`. */
  lemma GroupFactor(w: string, x: string, e: A.Expr, w2: string, y: string)
    requires Blank(w) && Blank(w2) && G.ParseExpr(x) == Ok((e, w2 + ([')'] + y)))
    ensures G.ParseFactor(w + ("(" + x)) == Ok((e, y))
  {
    PeekClose(w2, y);
    FactorGroup(w, x);
  }

  /** A blank, then `)`: the next token is `RPAREN`, and after it comes `y`. */
  lemma PeekClose(w: string, y: string)
    requires Blank(w)
    ensures var u := [')'] + y; SkipWhitespace(w + u) == u && Match(u).kind == RParen && u[1..] == y
  {
    PeekSymbol(w, ')', y);
  }

  /** `(x) o d` with `o` among `* /`: the group's tree is the left operand of `o`. */
  lemma GroupedLeftOperand(
    w1: string, x: string, e: A.Expr, w2: string, w3: string, o: char, w4: string, d: string, w5: string)
    requires Blank(w1) && Blank(w2) && Blank(w3) && Blank(w4) && Blank(w5)
    requires Multiplicative(o) && Numeral(d)
    requires G.ParseExpr(x) == Ok((e, w2 + ([')'] + (w3 + ([o] + (w4 + (d + w5)))))))
    ensures G.Parse(w1 + ("(" + x)) == Ok(MulOp(o, e, Lit(d)))
  {
    var tail := [o] + (w4 + (d + w5));
    var s := w1 + ("(" + x);
    var ed := MulOp(o, e, Lit(d));
    GroupFactor(w1, x, e, w2, w3 + tail);
    PeekSymbol(w3, o, w4 + (d + w5));
    PowerStops(s);
    TermStarts(s, e, tail);
    BlankEnd(w5);
    TermTailNumeral(e, o, w4, d, w5, []);
    G.TermTailStop(ed, []);
    ExprStarts(s, ed, []);
    ParseEnds(s, ed);
  }

  /** `a o1 b o2 c` with `o1, o2` among `+ -` groups to the left: `(a o1 b) o2 c`. */
  lemma AdditiveLeftAssociative(
    w1: string, a: string, w2: string, o1: char, w3: string, b: string, w4: string, o2: char,
    w5: string, c: string, w6: string)
    requires Blank(w1) && Blank(w2) && Blank(w3) && Blank(w4) && Blank(w5) && Blank(w6)
    requires Numeral(a) && Numeral(b) && Numeral(c) && Additive(o1) && Additive(o2)
    ensures G.Parse(w1 + (a + (w2 + ([o1] + (w3 + (b + (w4 + ([o2] + (w5 + (c + w6)))))))))) ==
      Ok(AddOp(o2, AddOp(o1, Lit(a), Lit(b)), Lit(c)))
  {
    var tail2 := [o2] + (w5 + (c + w6));
    var tail1 := [o1] + (w3 + (b + (w4 + tail2)));
    var s := w1 + (a + (w2 + tail1));
    BeforeSymbol(w2, o1, w3 + (b + (w4 + tail2)));
    BeforeSymbol(w4, o2, w5 + (c + w6));
    BlankEnd(w6);
    TermNumeral(w1, a, w2, tail1);
    ExprStarts(s, Lit(a), tail1);
    ExprTailNumeral(Lit(a), o1, w3, b, w4, tail2);
    ExprTailNumeral(AddOp(o1, Lit(a), Lit(b)), o2, w5, c, w6, []);
    ParseEnds(s, AddOp(o2, AddOp(o1, Lit(a), Lit(b)), Lit(c)));
  }

  /** `a o1 b o2 c` with `o1, o2` among `* /` groups to the left: `(a o1 b) o2 c`. */
  lemma MultiplicativeLeftAssociative(
    w1: string, a: string, w2: string, o1: char, w3: string, b: string, w4: string, o2: char,
    w5: string, c: string, w6: string)
    requires Blank(w1) && Blank(w2) && Blank(w3) && Blank(w4) && Blank(w5) && Blank(w6)
    requires Numeral(a) && Numeral(b) && Numeral(c) && Multiplicative(o1) && Multiplicative(o2)
    ensures G.Parse(w1 + (a + (w2 + ([o1] + (w3 + (b + (w4 + ([o2] + (w5 + (c + w6)))))))))) ==
      Ok(MulOp(o2, MulOp(o1, Lit(a), Lit(b)), Lit(c)))
  {
    var tail2 := [o2] + (w5 + (c + w6));
    var tail1 := [o1] + (w3 + (b + (w4 + tail2)));
    var s := w1 + (a + (w2 + tail1));
    var abc := MulOp(o2, MulOp(o1, Lit(a), Lit(b)), Lit(c));
    BeforeSymbol(w2, o1, w3 + (b + (w4 + tail2)));
    BeforeSymbol(w4, o2, w5 + (c + w6));
    BlankEnd(w6);
    PowerNumeral(w1, a, w2, tail1);
    TermStarts(s, Lit(a), tail1);
    TermTailNumeral(Lit(a), o1, w3, b, w4, tail2);
    TermTailNumeral(MulOp(o1, Lit(a), Lit(b)), o2, w5, c, w6, []);
    G.TermTailStop(abc, []);
    ExprStarts(s, abc, []);
    ParseEnds(s, abc);
  }

  /** `a o1 b o2 c` with `o1` among `+ -` and `o2` among `* /`: `a o1 (b o2 c)`. */
  lemma MultiplicativeBindsTighter(
    w1: string, a: string, w2: string, o1: char, w3: string, b: string, w4: string, o2: char,
    w5: string, c: string, w6: string)
    requires Blank(w1) && Blank(w2) && Blank(w3) && Blank(w4) && Blank(w5) && Blank(w6)
    requires Numeral(a) && Numeral(b) && Numeral(c) && Additive(o1) && Multiplicative(o2)
    ensures G.Parse(w1 + (a + (w2 + ([o1] + (w3 + (b + (w4 + ([o2] + (w5 + (c + w6)))))))))) ==
      Ok(AddOp(o1, Lit(a), MulOp(o2, Lit(b), Lit(c))))
  {
    var tail2 := [o2] + (w5 + (c + w6));
    var x1 := w3 + (b + (w4 + tail2));
    var tail1 := [o1] + x1;
    var s := w1 + (a + (w2 + tail1));
    var bc := MulOp(o2, Lit(b), Lit(c));
    BeforeSymbol(w2, o1, x1);
    BeforeSymbol(w4, o2, w5 + (c + w6));
    BlankEnd(w6);
    PowerNumeral(w3, b, w4, tail2);
    TermStarts(x1, Lit(b), tail2);
    TermTailNumeral(Lit(b), o2, w5, c, w6, []);
    G.TermTailStop(bc, []);
    TermNumeral(w1, a, w2, tail1);
    ExprStarts(s, Lit(a), tail1);
    ExprTailOp(Lit(a), [], o1, x1);
    assert [] + tail1 == tail1;
    ParseEnds(s, AddOp(o1, Lit(a), bc));
  }

  /** `a ^ b ^ c` groups to the right: `a ^ (b ^ c)`. */
  lemma PowerRightAssociative(
    w1: string, a: string, w2: string, w3: string, b: string, w4: string, w5: string, c: string, w6: string)
    requires Blank(w1) && Blank(w2) && Blank(w3) && Blank(w4) && Blank(w5) && Blank(w6)
    requires Numeral(a) && Numeral(b) && Numeral(c)
    ensures G.Parse(w1 + (a + (w2 + (['^'] + (w3 + (b + (w4 + (['^'] + (w5 + (c + w6)))))))))) ==
      Ok(A.Power(Lit(a), A.Power(Lit(b), Lit(c))))
  {
    var x2 := w5 + (c + w6);
    var x1 := w3 + (b + (w4 + (['^'] + x2)));
    var s := w1 + (a + (w2 + (['^'] + x1)));
    var abc := A.Power(Lit(a), A.Power(Lit(b), Lit(c)));
    BlankSymbolNotDigitLed(w2, '^', x1);
    BlankSymbolNotDigitLed(w4, '^', x2);
    BlankEnd(w6);
    PowerNumeral(w5, c, w6, []);
    FactorNumeral(w3, b, w4 + (['^'] + x2));
    PowerRaises(x1, Lit(b), w4, x2);
    FactorNumeral(w1, a, w2 + (['^'] + x1));
    PowerRaises(s, Lit(a), w2, x1);
    TermStarts(s, abc, []);
    G.TermTailStop(abc, []);
    ExprStarts(s, abc, []);
    ParseEnds(s, abc);
  }

  // ---- where parsing stops or fails ----

  /** A failing `factor` at the front makes the whole `expr` fail with the same message. */
  lemma FactorFailureSpreads(s: string)
    requires G.ParseFactor(s).Err?
    ensures G.ParseExpr(s) == Err(G.ParseFactor(s).msg)
  {
    assert G.ParsePower(s) == Err(G.ParseFactor(s).msg);
    assert G.ParseTerm(s) == Err(G.ParseFactor(s).msg);
  }

  /** A statement of blanks only, the empty statement included, is a parse error. */
  lemma BlankIsParseError(w: string)
    requires Blank(w)
    ensures G.Parse(w) == Err(ParseError)
  {
    PeekEnd(w);
    FactorFailureSpreads(w);
  }

  /** A statement that starts with a character no pattern matches is a parse error. */
  lemma LexicalErrorIsParseError(w: string, c: char, x: string)
    requires Blank(w) && !IsDigit(c) && !IsWhitespace(c) && c !in Symbols
    ensures G.Parse(w + ([c] + x)) == Err(ParseError)
  {
    SkipBlank(w, [c] + x);
    MatchClassifies([c] + x);
    FactorFailureSpreads(w + ([c] + x));
  }

  /** An opening parenthesis with nothing after it but blanks is a parse error. */
  lemma OpenOnlyIsParseError(w: string, w2: string)
    requires Blank(w) && Blank(w2)
    ensures G.Parse(w + ("(" + w2)) == Err(ParseError)
  {
    BlankIsParseError(w2);
    FactorGroup(w, w2);
    FactorFailureSpreads(w + ("(" + w2));
  }

  /** An opening parenthesis and a numeral with no closing parenthesis is a missing right parenthesis. */
  lemma UnclosedGroup(w1: string, w2: string, d: string, w3: string)
    requires Blank(w1) && Blank(w2) && Numeral(d) && Blank(w3)
    ensures G.Parse(w1 + ("(" + (w2 + (d + w3)))) == Err(MissingRightParen)
  {
    var x := w2 + (d + w3);
    BlankEnd(w3);
    TermNumeral(w2, d, w3, []);
    ExprStarts(x, Lit(d), []);
    G.ExprTailStop(Lit(d), []);
    SkipWhitespaceFixpoint([]);
    FactorGroup(w1, x);
    FactorFailureSpreads(w1 + ("(" + x));
  }

  /** `parse` ignores whatever follows a complete expression, such as a stray `)`. */
  lemma TrailingInputIgnored(w1: string, d: string, w2: string, x: string)
    requires Blank(w1) && Numeral(d) && Blank(w2)
    ensures G.Parse(w1 + (d + (w2 + ([')'] + x)))) == Ok(Lit(d))
  {
    var v := [')'] + x;
    var s := w1 + (d + (w2 + v));
    BeforeSymbol(w2, ')', x);
    TermNumeral(w1, d, w2, v);
    ExprStarts(s, Lit(d), v);
    G.ExprTailStop(Lit(d), v);
    ParseOfExpr(s, Lit(d), v);
  }
}
