/**
 * The evaluating recursive-descent parser: the same rules as `AstParser`, but each folds the
 * values of its operands into an accumulator instead of building a node. Each rule is proved
 * to do what the matching function of `EvalGrammar` says, and `Parse` to agree with
 * evaluating the tree `AstParser.Parse` builds.
 */
module EvalParser {
  import opened Wrappers
  import opened Decimal
  import L = Lexing
  import A = Ast
  import E = EvalGrammar
  import G = AstGrammar
  import Agreement

  /** Finishing the `expr` loop from `rest` with accumulator `left` gives what `expr` gives on `s0`. */
  ghost predicate ExprOnTrack(left: Option<int>, rest: string, s0: string) {
    E.ExprTail(left, rest) == E.ParseExpr(s0)
  }

  /** Finishing the `term` loop from `rest` with accumulator `left` gives what `term` gives on `s0`. */
  ghost predicate TermOnTrack(left: Option<int>, rest: string, s0: string) {
    E.TermTail(left, rest) == E.ParseTerm(s0)
  }

  method Expr(lx: L.Lexer) returns (r: Result<Option<int>>)
    requires lx.Valid()
    modifies lx
    ensures lx.Valid()
    ensures Realizes(r, lx.remaining, E.ParseExpr(old(lx.remaining)))
    decreases |lx.remaining|, 3
  {
    ghost var s0 := lx.remaining;
    var first := Term(lx);
    if first.Err? {
      return first;
    }
    var left := first.value;
    E.ExprTailSkips(left, lx.remaining);
    var t, ok := lx.TryGetNextToken();
    while ok && (t.kind == L.Plus || t.kind == L.Minus)
      invariant lx.Valid()
      invariant |lx.remaining| < |s0|
      invariant L.NoLeadingWhitespace(lx.remaining)
      invariant t == L.Match(lx.remaining) && ok == (t.kind != L.LexicalError)
      invariant ExprOnTrack(left, lx.remaining, s0)
      decreases |lx.remaining|
    {
      ghost var before := lx.remaining;
      lx.RemoveToken(t);
      var right := Term(lx);
      if right.Err? {
        E.ExprTailFails(left, before);
        return right;
      }
      E.ExprTailContinues(left, before);
      if t.kind == L.Plus {
        left := A.ValueAdd(left, right.value);
      } else {
        left := A.ValueSubtract(left, right.value);
      }
      E.ExprTailSkips(left, lx.remaining);
      t, ok := lx.TryGetNextToken();
    }
    E.ExprTailStop(left, lx.remaining);
    return Ok(left);
  }

  method Term(lx: L.Lexer) returns (r: Result<Option<int>>)
    requires lx.Valid()
    modifies lx
    ensures lx.Valid()
    ensures Realizes(r, lx.remaining, E.ParseTerm(old(lx.remaining)))
    decreases |lx.remaining|, 2
  {
    ghost var s0 := lx.remaining;
    var first := Power(lx);
    if first.Err? {
      return first;
    }
    var left := first.value;
    E.TermTailSkips(left, lx.remaining);
    var t, ok := lx.TryGetNextToken();
    while ok && (t.kind == L.Multiply || t.kind == L.Divide)
      invariant lx.Valid()
      invariant |lx.remaining| < |s0|
      invariant L.NoLeadingWhitespace(lx.remaining)
      invariant t == L.Match(lx.remaining) && ok == (t.kind != L.LexicalError)
      invariant TermOnTrack(left, lx.remaining, s0)
      decreases |lx.remaining|
    {
      ghost var before := lx.remaining;
      lx.RemoveToken(t);
      var right := Power(lx);
      if right.Err? {
        E.TermTailFails(left, before);
        return right;
      }
      E.TermTailContinues(left, before);
      if t.kind == L.Multiply {
        left := A.ValueMultiply(left, right.value);
      } else {
        left := A.ValueDivide(left, right.value);
      }
      E.TermTailSkips(left, lx.remaining);
      t, ok := lx.TryGetNextToken();
    }
    E.TermTailStop(left, lx.remaining);
    return Ok(left);
  }

  method Power(lx: L.Lexer) returns (r: Result<Option<int>>)
    requires lx.Valid()
    modifies lx
    ensures lx.Valid()
    ensures Realizes(r, lx.remaining, E.ParsePower(old(lx.remaining)))
    decreases |lx.remaining|, 1
  {
    var left := Factor(lx);
    if left.Err? {
      return left;
    }
    var t, ok := lx.TryGetNextToken();
    if ok && t.kind == L.Power {
      lx.RemoveToken(t);
      // `^` groups to the right: the right operand is a whole `power`
      var right := Power(lx);
      if right.Err? {
        return right;
      }
      return Ok(A.ValuePower(left.value, right.value));
    }
    return left;
  }

  method Factor(lx: L.Lexer) returns (r: Result<Option<int>>)
    requires lx.Valid()
    modifies lx
    ensures lx.Valid()
    ensures Realizes(r, lx.remaining, E.ParseFactor(old(lx.remaining)))
    decreases |lx.remaining|, 0
  {
    // `factor` ignores whether the token was a lexical error: only its kind matters
    var t := lx.GetNextToken();
    if t.kind == L.Number {
      lx.RemoveToken(t);
      return Ok(Some(DecimalValue(t.lexeme)));
    } else if t.kind == L.LParen {
      lx.RemoveToken(t);
      var inner := Expr(lx);
      if inner.Err? {
        return inner;
      }
      t := lx.GetNextToken();
      if t.kind == L.RParen {
        lx.RemoveToken(t);
      } else {
        return Err(MissingRightParen);
      }
      return inner;
    } else {
      return Err(ParseError);
    }
  }

  /**
   * `parse`: a fresh lexer over the statement, then `expr`. It succeeds exactly when the
   * tree-building parser does, with the value of its tree, and otherwise fails with the same
   * message.
   */
  method Parse(statement: string) returns (r: Result<Option<int>>)
    ensures r == E.Parse(statement)
    ensures r.Ok? <==> G.Parse(statement).Ok?
    ensures r.Ok? ==> r.value == A.Eval(G.Parse(statement).value)
    ensures r.Err? ==> r.msg == G.Parse(statement).msg
  {
    var lx := new L.Lexer(statement);
    r := Expr(lx);
    Agreement.ParseAgrees(statement);
  }
}
