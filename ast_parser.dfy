/**
 * The tree-building recursive-descent parser. Each rule is a method that advances the shared
 * lexer and returns the tree it built, or the message of the exception it throws; each is
 * proved to do what the matching function of `AstGrammar` says.
 */
module AstParser {
  import opened Wrappers
  import opened Decimal
  import L = Lexing
  import A = Ast
  import G = AstGrammar

  /** Finishing the `expr` loop from `rest` with accumulator `left` gives what `expr` gives on `s0`. */
  ghost predicate ExprOnTrack(left: A.Expr, rest: string, s0: string) {
    G.ExprTail(left, rest) == G.ParseExpr(s0)
  }

  /** Finishing the `term` loop from `rest` with accumulator `left` gives what `term` gives on `s0`. */
  ghost predicate TermOnTrack(left: A.Expr, rest: string, s0: string) {
    G.TermTail(left, rest) == G.ParseTerm(s0)
  }

  method Expr(lx: L.Lexer) returns (r: Result<A.Expr>)
    requires lx.Valid()
    modifies lx
    ensures lx.Valid()
    ensures Realizes(r, lx.remaining, G.ParseExpr(old(lx.remaining)))
    decreases |lx.remaining|, 3
  {
    ghost var s0 := lx.remaining;
    var first := Term(lx);
    if first.Err? {
      return first;
    }
    var left := first.value;
    G.ExprTailSkips(left, lx.remaining);
    var t, ok := lx.TryGetNextToken();
    while ok && (t.kind == L.Plus || t.kind == L.Minus)
      invariant lx.Valid()
      invariant |lx.remaining| < |s0|
      invariant L.NoLeadingWhitespace(lx.remaining)
      invariant t == L.Match(lx.remaining) && ok == (t.kind != L.LexicalError)
      invariant ExprOnTrack(left, lx.remaining, s0)
      decreases |lx.remaining|
    {
      ghost var before := lx.remaining;
      lx.RemoveToken(t);
      var right := Term(lx);
      if right.Err? {
        G.ExprTailFails(left, before);
        return right;
      }
      G.ExprTailContinues(left, before);
      if t.kind == L.Plus {
        left := A.Add(left, right.value);
      } else {
        left := A.Subtract(left, right.value);
      }
      G.ExprTailSkips(left, lx.remaining);
      t, ok := lx.TryGetNextToken();
    }
    G.ExprTailStop(left, lx.remaining);
    return Ok(left);
  }

  method Term(lx: L.Lexer) returns (r: Result<A.Expr>)
    requires lx.Valid()
    modifies lx
    ensures lx.Valid()
    ensures Realizes(r, lx.remaining, G.ParseTerm(old(lx.remaining)))
    decreases |lx.remaining|, 2
  {
    ghost var s0 := lx.remaining;
    var first := Power(lx);
    if first.Err? {
      return first;
    }
    var left := first.value;
    G.TermTailSkips(left, lx.remaining);
    var t, ok := lx.TryGetNextToken();
    while ok && (t.kind == L.Multiply || t.kind == L.Divide)
      invariant lx.Valid()
      invariant |lx.remaining| < |s0|
      invariant L.NoLeadingWhitespace(lx.remaining)
      invariant t == L.Match(lx.remaining) && ok == (t.kind != L.LexicalError)
      invariant TermOnTrack(left, lx.remaining, s0)
      decreases |lx.remaining|
    {
      ghost var before := lx.remaining;
      lx.RemoveToken(t);
      var right := Power(lx);
      if right.Err? {
        G.TermTailFails(left, before);
        return right;
      }
      G.TermTailContinues(left, before);
      if t.kind == L.Multiply {
        left := A.Multiply(left, right.value);
      } else {
        left := A.Divide(left, right.value);
      }
      G.TermTailSkips(left, lx.remaining);
      t, ok := lx.TryGetNextToken();
    }
    G.TermTailStop(left, lx.remaining);
    return Ok(left);
  }

  method Power(lx: L.Lexer) returns (r: Result<A.Expr>)
    requires lx.Valid()
    modifies lx
    ensures lx.Valid()
    ensures Realizes(r, lx.remaining, G.ParsePower(old(lx.remaining)))
    decreases |lx.remaining|, 1
  {
    var left := Factor(lx);
    if left.Err? {
      return left;
    }
    var t, ok := lx.TryGetNextToken();
    if ok && t.kind == L.Power {
      lx.RemoveToken(t);
      // `^` groups to the right: the right operand is a whole `power`
      var right := Power(lx);
      if right.Err? {
        return right;
      }
      return Ok(A.Power(left.value, right.value));
    }
    return left;
  }

  method Factor(lx: L.Lexer) returns (r: Result<A.Expr>)
    requires lx.Valid()
    modifies lx
    ensures lx.Valid()
    ensures Realizes(r, lx.remaining, G.ParseFactor(old(lx.remaining)))
    decreases |lx.remaining|, 0
  {
    // `factor` ignores whether the token was a lexical error: only its kind matters
    var t := lx.GetNextToken();
    if t.kind == L.Number {
      lx.RemoveToken(t);
      return Ok(A.Number(DecimalValue(t.lexeme)));
    } else if t.kind == L.LParen {
      lx.RemoveToken(t);
      var inner := Expr(lx);
      if inner.Err? {
        return inner;
      }
      t := lx.GetNextToken();
      if t.kind == L.RParen {
        lx.RemoveToken(t);
      } else {
        return Err(MissingRightParen);
      }
      return inner;
    } else {
      return Err(ParseError);
    }
  }

  /** `parse`: a fresh lexer over the statement, then `expr`. */
  method Parse(statement: string) returns (r: Result<A.Expr>)
    ensures r == G.Parse(statement)
  {
    var lx := new L.Lexer(statement);
    r := Expr(lx);
  }
}
