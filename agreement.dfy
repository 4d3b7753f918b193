/**
 * The two parsers agree: on every input, evaluating as you parse gives the same outcome as
 * building the tree and evaluating it afterwards, with the same remaining input and the same
 * error message. The proof follows the grammar's mutual recursion rule by rule.
 */
module Agreement {
  import opened Wrappers
  import opened Lexing
  import opened Decimal
  import A = Ast
  import G = AstGrammar
  import E = EvalGrammar

  /** A tree-building outcome with the tree replaced by its value. */
  function LiftEval(r: Result<(A.Expr, string)>): Result<(Option<int>, string)> {
    match r
    case Ok((e, rest)) => Ok((A.Eval(e), rest))
    case Err(m) => Err(m)
  }

  lemma {:induction false} ExprAgrees(s: string)
    ensures E.ParseExpr(s) == LiftEval(G.ParseExpr(s))
    decreases |s|, 3
  {
    TermAgrees(s);
    match G.ParseTerm(s)
    case Err(_) =>
    case Ok((left, rest)) => ExprTailAgrees(left, rest);
  }

  /** The `expr` loop folds values exactly as evaluating the folded tree would. */
  lemma {:induction false} ExprTailAgrees(left: A.Expr, s: string)
    ensures E.ExprTail(A.Eval(left), s) == LiftEval(G.ExprTail(left, s))
    decreases |s|, 4
  {
    var s1 := SkipWhitespace(s);
    var t := Match(s1);
    if t.kind == Plus || t.kind == Minus {
      var s2 := s1[|t.lexeme|..];
      TermAgrees(s2);
      match G.ParseTerm(s2)
      case Err(_) =>
      case Ok((right, rest)) =>
        EvalAdditive(t.kind == Plus, left, right);
        ExprTailAgrees(if t.kind == Plus then A.Add(left, right) else A.Subtract(left, right), rest);
    }
  }

  lemma {:induction false} TermAgrees(s: string)
    ensures E.ParseTerm(s) == LiftEval(G.ParseTerm(s))
    decreases |s|, 2
  {
    PowerAgrees(s);
    match G.ParsePower(s)
    case Err(_) =>
    case Ok((left, rest)) => TermTailAgrees(left, rest);
  }

  lemma {:induction false} TermTailAgrees(left: A.Expr, s: string)
    ensures E.TermTail(A.Eval(left), s) == LiftEval(G.TermTail(left, s))
    decreases |s|, 4
  {
    var s1 := SkipWhitespace(s);
    var t := Match(s1);
    if t.kind == Multiply || t.kind == Divide {
      var s2 := s1[|t.lexeme|..];
      PowerAgrees(s2);
      match G.ParsePower(s2)
      case Err(_) =>
      case Ok((right, rest)) =>
        EvalMultiplicative(t.kind == Multiply, left, right);
        TermTailAgrees(if t.kind == Multiply then A.Multiply(left, right) else A.Divide(left, right), rest);
    }
  }

  lemma {:induction false} PowerAgrees(s: string)
    ensures E.ParsePower(s) == LiftEval(G.ParsePower(s))
    decreases |s|, 1
  {
    FactorAgrees(s);
    match G.ParseFactor(s)
    case Err(_) =>
    case Ok((left, rest)) =>
      var s1 := SkipWhitespace(rest);
      var t := Match(s1);
      if t.kind == Power {
        var s2 := s1[|t.lexeme|..];
        PowerAgrees(s2);
        match G.ParsePower(s2)
        case Err(_) =>
        case Ok((right, _)) => EvalPowerNode(left, right);
      }
  }

  /** The value of a `^` node. */
  lemma EvalPowerNode(left: A.Expr, right: A.Expr)
    ensures A.Eval(A.Power(left, right)) == A.ValuePower(A.Eval(left), A.Eval(right))
  {
  }

  lemma {:induction false} FactorAgrees(s: string)
    ensures E.ParseFactor(s) == LiftEval(G.ParseFactor(s))
    decreases |s|, 0
  {
    var s1 := SkipWhitespace(s);
    if Match(s1).kind == LParen {
      ExprAgrees(s1[1..]);
      GroupAgrees(s);
    } else {
      NonGroupAgrees(s);
    }
  }

  /** A `factor` that is not a group: a literal, or a parse error, in both parsers. */
  lemma NonGroupAgrees(s: string)
    requires Match(SkipWhitespace(s)).kind != LParen
    ensures E.ParseFactor(s) == LiftEval(G.ParseFactor(s))
  {
    var t := Match(SkipWhitespace(s));
    if t.kind == Number {
      assert A.Eval(A.Number(DecimalValue(t.lexeme))) == Some(DecimalValue(t.lexeme));
    }
  }

  /** A group `( expr )`: the parsers agree on it when they agree on the inner `expr`. */
  lemma GroupAgrees(s: string)
    requires Match(SkipWhitespace(s)).kind == LParen
    requires var s1 := SkipWhitespace(s); E.ParseExpr(s1[1..]) == LiftEval(G.ParseExpr(s1[1..]))
    ensures E.ParseFactor(s) == LiftEval(G.ParseFactor(s))
  {
    var s2 := SkipWhitespace(s)[1..];
    match G.ParseExpr(s2)
    case Err(m) =>
      assert G.ParseFactor(s) == Err(m);
      assert E.ParseFactor(s) == Err(m);
    case Ok((inner, rest)) =>
      assert E.ParseExpr(s2) == Ok((A.Eval(inner), rest));
      var s3 := SkipWhitespace(rest);
      if Match(s3).kind == RParen {
        assert G.ParseFactor(s) == Ok((inner, s3[1..]));
        assert E.ParseFactor(s) == Ok((A.Eval(inner), s3[1..]));
      } else {
        assert G.ParseFactor(s) == Err(MissingRightParen);
        assert E.ParseFactor(s) == Err(MissingRightParen);
      }
  }

  /** The value of the node the `expr` loop folds on. */
  lemma EvalAdditive(plus: bool, left: A.Expr, right: A.Expr)
    ensures var next := if plus then A.Add(left, right) else A.Subtract(left, right);
      A.Eval(next) == if plus then A.ValueAdd(A.Eval(left), A.Eval(right)) else A.ValueSubtract(A.Eval(left), A.Eval(right))
  {
  }

  /** The value of the node the `term` loop folds on. */
  lemma EvalMultiplicative(times: bool, left: A.Expr, right: A.Expr)
    ensures var next := if times then A.Multiply(left, right) else A.Divide(left, right);
      A.Eval(next) == if times then A.ValueMultiply(A.Eval(left), A.Eval(right)) else A.ValueDivide(A.Eval(left), A.Eval(right))
  {
  }

  /**
   * `EvalParser.parse` succeeds exactly when `ASTParser.parse` does; on success its value is
   * that of the tree, on failure its message is the same.
   */
  lemma ParseAgrees(statement: string)
    ensures E.Parse(statement).Ok? <==> G.Parse(statement).Ok?
    ensures G.Parse(statement).Ok? ==> E.Parse(statement).value == A.Eval(G.Parse(statement).value)
    ensures G.Parse(statement).Err? ==> E.Parse(statement).msg == G.Parse(statement).msg
  {
    ExprAgrees(statement);
  }
}
