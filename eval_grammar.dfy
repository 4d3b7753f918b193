/**
 * What the evaluating parser computes, as functions of the lexer's remaining input. The rules
 * are those of `AstGrammar`, but each folds the values of its operands at once instead of
 * building a node: a rule returns the value it computed (`None` when the C++ result is
 * undefined) together with the input left after it, or the message of the exception it throws.
 */
module EvalGrammar {
  import opened Wrappers
  import opened Decimal
  import opened Lexing
  import A = Ast
  import G = AstGrammar

  function ParseExpr(s: string): (r: Result<(Option<int>, string)>)
    ensures G.Consumes(r, s)
    decreases |s|, 3
  {
    match ParseTerm(s)
    case Err(m) => Err(m)
    case Ok((left, rest)) =>
      var r := ExprTail(left, rest);
      assert r.Ok? ==> IsSuffix(r.value.1, s) by {
        if r.Ok? { SuffixTransitive(r.value.1, rest, s); }
      }
      r
  }

  /** The `while` loop of `expr`: add or subtract the value of each further `term` into `left`. */
  function ExprTail(left: Option<int>, s: string): (r: Result<(Option<int>, string)>)
    ensures G.Keeps(r, s)
    decreases |s|, 4
  {
    var s1 := SkipWhitespace(s);
    var t := Match(s1);
    if t.kind == Plus || t.kind == Minus then
      var s2 := s1[|t.lexeme|..];
      match ParseTerm(s2)
      case Err(m) => Err(m)
      case Ok((right, rest)) =>
        var r := ExprTail(if t.kind == Plus then A.ValueAdd(left, right) else A.ValueSubtract(left, right), rest);
        assert r.Ok? ==> IsSuffix(r.value.1, s) by {
          if r.Ok? { G.SuffixChain(r.value.1, rest, s2, s1, s); }
        }
        r
    else
      Ok((left, s1))
  }

  function ParseTerm(s: string): (r: Result<(Option<int>, string)>)
    ensures G.Consumes(r, s)
    decreases |s|, 2
  {
    match ParsePower(s)
    case Err(m) => Err(m)
    case Ok((left, rest)) =>
      var r := TermTail(left, rest);
      assert r.Ok? ==> IsSuffix(r.value.1, s) by {
        if r.Ok? { SuffixTransitive(r.value.1, rest, s); }
      }
      r
  }

  /** The `while` loop of `term`: multiply or divide `left` by the value of each further `power`. */
  function TermTail(left: Option<int>, s: string): (r: Result<(Option<int>, string)>)
    ensures G.Keeps(r, s)
    decreases |s|, 4
  {
    var s1 := SkipWhitespace(s);
    var t := Match(s1);
    if t.kind == Multiply || t.kind == Divide then
      var s2 := s1[|t.lexeme|..];
      match ParsePower(s2)
      case Err(m) => Err(m)
      case Ok((right, rest)) =>
        var r := TermTail(if t.kind == Multiply then A.ValueMultiply(left, right) else A.ValueDivide(left, right), rest);
        assert r.Ok? ==> IsSuffix(r.value.1, s) by {
          if r.Ok? { G.SuffixChain(r.value.1, rest, s2, s1, s); }
        }
        r
    else
      Ok((left, s1))
  }

  /** `power := factor [^ power]`: the right operand is a whole `power`, evaluated first. */
  function ParsePower(s: string): (r: Result<(Option<int>, string)>)
    ensures G.Consumes(r, s)
    decreases |s|, 1
  {
    match ParseFactor(s)
    case Err(m) => Err(m)
    case Ok((left, rest)) =>
      var s1 := SkipWhitespace(rest);
      var t := Match(s1);
      SuffixTransitive(s1, rest, s);
      if t.kind == Power then
        var s2 := s1[|t.lexeme|..];
        match ParsePower(s2)
        case Err(m) => Err(m)
        case Ok((right, rest2)) =>
          G.SuffixChain(rest2, s2, s1, rest, s);
          Ok((A.ValuePower(left, right), rest2))
      else
        Ok((left, s1))
  }

  /** `factor := NUMBER | ( expr )`: a literal's decimal value, or the value of the group. */
  function ParseFactor(s: string): (r: Result<(Option<int>, string)>)
    ensures G.Consumes(r, s)
    decreases |s|, 0
  {
    var s1 := SkipWhitespace(s);
    var t := Match(s1);
    if t.kind == Number then
      G.DropIsSuffix(s1, |t.lexeme|, s);
      Ok((Some(DecimalValue(t.lexeme)), s1[|t.lexeme|..]))
    else if t.kind == LParen then
      var s2 := s1[|t.lexeme|..];
      match ParseExpr(s2)
      case Err(m) => Err(m)
      case Ok((inner, rest)) =>
        var s3 := SkipWhitespace(rest);
        var t2 := Match(s3);
        if t2.kind == RParen then
          G.DropIsSuffix(s1, |t.lexeme|, s);
          G.SuffixChain(s3, rest, s2, s, s);
          G.DropIsSuffix(s3, |t2.lexeme|, s);
          Ok((inner, s3[|t2.lexeme|..]))
        else
          Err(MissingRightParen)
    else
      Err(ParseError)
  }

  /** `parse`: run `expr` on a fresh lexer over the whole statement; trailing input is ignored. */
  function Parse(statement: string): (r: Result<Option<int>>)
    ensures r.Err? ==> r.msg == ParseError || r.msg == MissingRightParen
  {
    match ParseExpr(statement)
    case Ok((v, _)) => Ok(v)
    case Err(m) => ErrorsAreFactorErrors(statement); Err(m)
  }

  /** Skipping whitespace before a loop step changes nothing: the step skips it first. */
  lemma ExprTailSkips(left: Option<int>, s: string)
    ensures ExprTail(left, SkipWhitespace(s)) == ExprTail(left, s)
  {
    SkipWhitespaceIdempotent(s);
  }

  /** A turn of the `expr` loop whose `term` fails makes the whole loop fail with its message. */
  lemma ExprTailFails(left: Option<int>, s: string)
    requires NoLeadingWhitespace(s) && (Match(s).kind == Plus || Match(s).kind == Minus)
    requires ParseTerm(s[1..]).Err?
    ensures ExprTail(left, s) == Err(ParseTerm(s[1..]).msg)
  {
    SkipWhitespaceFixpoint(s);
  }

  /** A successful turn of the `expr` loop folds the operand into the accumulator and goes on. */
  lemma ExprTailContinues(left: Option<int>, s: string)
    requires NoLeadingWhitespace(s) && (Match(s).kind == Plus || Match(s).kind == Minus)
    requires ParseTerm(s[1..]).Ok?
    ensures var (right, rest) := ParseTerm(s[1..]).value;
      ExprTail(left, s) == ExprTail(if Match(s).kind == Plus then A.ValueAdd(left, right) else A.ValueSubtract(left, right), rest)
  {
    SkipWhitespaceFixpoint(s);
  }

  /** The `expr` loop stops where the next token is neither `+` nor `-`, consuming nothing more. */
  lemma ExprTailStop(left: Option<int>, s: string)
    requires NoLeadingWhitespace(s) && Match(s).kind != Plus && Match(s).kind != Minus
    ensures ExprTail(left, s) == Ok((left, s))
  {
    SkipWhitespaceFixpoint(s);
  }

  lemma TermTailSkips(left: Option<int>, s: string)
    ensures TermTail(left, SkipWhitespace(s)) == TermTail(left, s)
  {
    SkipWhitespaceIdempotent(s);
  }

  lemma TermTailFails(left: Option<int>, s: string)
    requires NoLeadingWhitespace(s) && (Match(s).kind == Multiply || Match(s).kind == Divide)
    requires ParsePower(s[1..]).Err?
    ensures TermTail(left, s) == Err(ParsePower(s[1..]).msg)
  {
    SkipWhitespaceFixpoint(s);
  }

  lemma TermTailContinues(left: Option<int>, s: string)
    requires NoLeadingWhitespace(s) && (Match(s).kind == Multiply || Match(s).kind == Divide)
    requires ParsePower(s[1..]).Ok?
    ensures var (right, rest) := ParsePower(s[1..]).value;
      TermTail(left, s) == TermTail(if Match(s).kind == Multiply then A.ValueMultiply(left, right) else A.ValueDivide(left, right), rest)
  {
    SkipWhitespaceFixpoint(s);
  }

  lemma TermTailStop(left: Option<int>, s: string)
    requires NoLeadingWhitespace(s) && Match(s).kind != Multiply && Match(s).kind != Divide
    ensures TermTail(left, s) == Ok((left, s))
  {
    SkipWhitespaceFixpoint(s);
  }

  /**
   * Every failure of the evaluating `expr` is one of the two messages `factor` throws. The same
   * induction as `AstGrammar.ErrorsAreFactorErrors`, over the value-folding rules: `Parse` needs
   * it here, below `Agreement`, which relates the two parsers.
   */
  lemma {:induction false} ErrorsAreFactorErrors(s: string)
    ensures ParseExpr(s).Err? ==> ParseExpr(s).msg == ParseError || ParseExpr(s).msg == MissingRightParen
    decreases |s|, 3
  {
    TermErrors(s);
    match ParseTerm(s)
    case Err(_) =>
    case Ok((left, rest)) => ExprTailErrors(left, rest);
  }

  lemma {:induction false} ExprTailErrors(left: Option<int>, s: string)
    ensures ExprTail(left, s).Err? ==> ExprTail(left, s).msg == ParseError || ExprTail(left, s).msg == MissingRightParen
    decreases |s|, 4
  {
    var s1 := SkipWhitespace(s);
    var t := Match(s1);
    if t.kind == Plus || t.kind == Minus {
      var s2 := s1[|t.lexeme|..];
      TermErrors(s2);
      match ParseTerm(s2)
      case Err(_) =>
      case Ok((right, rest)) =>
        ExprTailErrors(if t.kind == Plus then A.ValueAdd(left, right) else A.ValueSubtract(left, right), rest);
    }
  }

  lemma {:induction false} TermErrors(s: string)
    ensures ParseTerm(s).Err? ==> ParseTerm(s).msg == ParseError || ParseTerm(s).msg == MissingRightParen
    decreases |s|, 2
  {
    PowerErrors(s);
    match ParsePower(s)
    case Err(_) =>
    case Ok((left, rest)) => TermTailErrors(left, rest);
  }

  lemma {:induction false} TermTailErrors(left: Option<int>, s: string)
    ensures TermTail(left, s).Err? ==> TermTail(left, s).msg == ParseError || TermTail(left, s).msg == MissingRightParen
    decreases |s|, 4
  {
    var s1 := SkipWhitespace(s);
    var t := Match(s1);
    if t.kind == Multiply || t.kind == Divide {
      var s2 := s1[|t.lexeme|..];
      PowerErrors(s2);
      match ParsePower(s2)
      case Err(_) =>
      case Ok((right, rest)) =>
        TermTailErrors(if t.kind == Multiply then A.ValueMultiply(left, right) else A.ValueDivide(left, right), rest);
    }
  }

  lemma {:induction false} PowerErrors(s: string)
    ensures ParsePower(s).Err? ==> ParsePower(s).msg == ParseError || ParsePower(s).msg == MissingRightParen
    decreases |s|, 1
  {
    FactorErrors(s);
    match ParseFactor(s)
    case Err(_) =>
    case Ok((left, rest)) =>
      var s1 := SkipWhitespace(rest);
      var t := Match(s1);
      if t.kind == Power {
        PowerErrors(s1[|t.lexeme|..]);
      }
  }

  lemma {:induction false} FactorErrors(s: string)
    ensures ParseFactor(s).Err? ==> ParseFactor(s).msg == ParseError || ParseFactor(s).msg == MissingRightParen
    decreases |s|, 0
  {
    var s1 := SkipWhitespace(s);
    var t := Match(s1);
    if t.kind == LParen {
      ErrorsAreFactorErrors(s1[|t.lexeme|..]);
    }
  }
}
