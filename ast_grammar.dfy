/**
 * What the tree-building parser computes, as functions of the lexer's remaining input. Each
 * rule returns the tree it built together with the input left after it, or the message of
 * the exception it throws. The grammar is
 *
 *   expr   := term   {(+|-) term}
 *   term   := power  {(*|/) power}
 *   power  := factor [^ power]
 *   factor := NUMBER | ( expr )
 *
 * `ExprTail` and `TermTail` are the left-folding loops of `expr` and `term`, with the tree
 * built so far as their accumulator.
 */
module AstGrammar {
  import opened Wrappers
  import opened Decimal
  import opened Lexing
  import A = Ast

  /** A successful parse consumed at least one character and left a suffix of its input. */
  predicate Consumes<T>(r: Result<(T, string)>, s: string) {
    r.Ok? ==> IsSuffix(r.value.1, s) && |r.value.1| < |s|
  }

  /** A successful parse left a whitespace-free suffix of its input (it may have consumed nothing). */
  predicate Keeps<T>(r: Result<(T, string)>, s: string) {
    r.Ok? ==> IsSuffix(r.value.1, s) && NoLeadingWhitespace(r.value.1)
  }

  function ParseExpr(s: string): (r: Result<(A.Expr, string)>)
    ensures Consumes(r, s)
    decreases |s|, 3
  {
    match ParseTerm(s)
    case Err(m) => Err(m)
    case Ok((left, rest)) =>
      var r := ExprTail(left, rest);
      assert r.Ok? ==> IsSuffix(r.value.1, s) by {
        if r.Ok? { SuffixTransitive(r.value.1, rest, s); }
      }
      r
  }

  /** The `while` loop of `expr`: fold `+ term` and `- term` onto `left` while the next token is one of them. */
  function ExprTail(left: A.Expr, s: string): (r: Result<(A.Expr, string)>)
    ensures Keeps(r, s)
    decreases |s|, 4
  {
    var s1 := SkipWhitespace(s);
    var t := Match(s1);
    if t.kind == Plus || t.kind == Minus then
      var s2 := s1[|t.lexeme|..];
      match ParseTerm(s2)
      case Err(m) => Err(m)
      case Ok((right, rest)) =>
        var r := ExprTail(if t.kind == Plus then A.Add(left, right) else A.Subtract(left, right), rest);
        assert r.Ok? ==> IsSuffix(r.value.1, s) by {
          if r.Ok? { SuffixChain(r.value.1, rest, s2, s1, s); }
        }
        r
    else
      Ok((left, s1))
  }

  function ParseTerm(s: string): (r: Result<(A.Expr, string)>)
    ensures Consumes(r, s)
    decreases |s|, 2
  {
    match ParsePower(s)
    case Err(m) => Err(m)
    case Ok((left, rest)) =>
      var r := TermTail(left, rest);
      assert r.Ok? ==> IsSuffix(r.value.1, s) by {
        if r.Ok? { SuffixTransitive(r.value.1, rest, s); }
      }
      r
  }

  /** The `while` loop of `term`: fold `* power` and `/ power` onto `left`. */
  function TermTail(left: A.Expr, s: string): (r: Result<(A.Expr, string)>)
    ensures Keeps(r, s)
    decreases |s|, 4
  {
    var s1 := SkipWhitespace(s);
    var t := Match(s1);
    if t.kind == Multiply || t.kind == Divide then
      var s2 := s1[|t.lexeme|..];
      match ParsePower(s2)
      case Err(m) => Err(m)
      case Ok((right, rest)) =>
        var r := TermTail(if t.kind == Multiply then A.Multiply(left, right) else A.Divide(left, right), rest);
        assert r.Ok? ==> IsSuffix(r.value.1, s) by {
          if r.Ok? { SuffixChain(r.value.1, rest, s2, s1, s); }
        }
        r
    else
      Ok((left, s1))
  }

  /** `power := factor [^ power]`, right-recursive so that `^` groups to the right. */
  function ParsePower(s: string): (r: Result<(A.Expr, string)>)
    ensures Consumes(r, s)
    decreases |s|, 1
  {
    match ParseFactor(s)
    case Err(m) => Err(m)
    case Ok((left, rest)) =>
      var s1 := SkipWhitespace(rest);
      var t := Match(s1);
      SuffixTransitive(s1, rest, s);
      if t.kind == Power then
        var s2 := s1[|t.lexeme|..];
        match ParsePower(s2)
        case Err(m) => Err(m)
        case Ok((right, rest2)) =>
          SuffixChain(rest2, s2, s1, rest, s);
          Ok((A.Power(left, right), rest2))
      else
        Ok((left, s1))
  }

  /** `factor := NUMBER | ( expr )`; anything else is a parse error. */
  function ParseFactor(s: string): (r: Result<(A.Expr, string)>)
    ensures Consumes(r, s)
    decreases |s|, 0
  {
    var s1 := SkipWhitespace(s);
    var t := Match(s1);
    if t.kind == Number then
      DropIsSuffix(s1, |t.lexeme|, s);
      Ok((A.Number(DecimalValue(t.lexeme)), s1[|t.lexeme|..]))
    else if t.kind == LParen then
      var s2 := s1[|t.lexeme|..];
      match ParseExpr(s2)
      case Err(m) => Err(m)
      case Ok((inner, rest)) =>
        var s3 := SkipWhitespace(rest);
        var t2 := Match(s3);
        if t2.kind == RParen then
          DropIsSuffix(s1, |t.lexeme|, s);
          SuffixChain(s3, rest, s2, s, s);
          DropIsSuffix(s3, |t2.lexeme|, s);
          Ok((inner, s3[|t2.lexeme|..]))
        else
          Err(MissingRightParen)
    else
      Err(ParseError)
  }

  /** `parse`: run `expr` on a fresh lexer over the whole statement; trailing input is ignored. */
  function Parse(statement: string): (r: Result<A.Expr>)
    ensures r.Err? ==> r.msg == ParseError || r.msg == MissingRightParen
  {
    match ParseExpr(statement)
    case Ok((e, _)) => Ok(e)
    case Err(m) => ErrorsAreFactorErrors(statement); Err(m)
  }

  lemma SuffixChain(a: string, b: string, c: string, d: string, e: string)
    requires IsSuffix(a, b) && IsSuffix(b, c) && IsSuffix(c, d) && IsSuffix(d, e)
    ensures IsSuffix(a, e)
  {
    SuffixTransitive(a, b, c);
    SuffixTransitive(a, c, d);
    SuffixTransitive(a, d, e);
  }

  /** Dropping a non-empty prefix of a suffix of `s` leaves a shorter suffix of `s`. */
  lemma DropIsSuffix(a: string, k: nat, s: string)
    requires IsSuffix(a, s) && 0 < k <= |a|
    ensures IsSuffix(a[k..], s) && |a[k..]| < |s|
  {
    SuffixOfDrop(a, k);
    SuffixTransitive(a[k..], a, s);
  }

  /** Skipping whitespace before a loop step changes nothing: the step skips it first. */
  lemma ExprTailSkips(left: A.Expr, s: string)
    ensures ExprTail(left, SkipWhitespace(s)) == ExprTail(left, s)
  {
    SkipWhitespaceIdempotent(s);
  }

  /** A turn of the `expr` loop whose `term` fails makes the whole loop fail with its message. */
  lemma ExprTailFails(left: A.Expr, s: string)
    requires NoLeadingWhitespace(s) && (Match(s).kind == Plus || Match(s).kind == Minus)
    requires ParseTerm(s[1..]).Err?
    ensures ExprTail(left, s) == Err(ParseTerm(s[1..]).msg)
  {
    SkipWhitespaceFixpoint(s);
  }

  /** A successful turn of the `expr` loop folds the operator onto the accumulator and goes on. */
  lemma ExprTailContinues(left: A.Expr, s: string)
    requires NoLeadingWhitespace(s) && (Match(s).kind == Plus || Match(s).kind == Minus)
    requires ParseTerm(s[1..]).Ok?
    ensures var (right, rest) := ParseTerm(s[1..]).value;
      ExprTail(left, s) == ExprTail(if Match(s).kind == Plus then A.Add(left, right) else A.Subtract(left, right), rest)
  {
    SkipWhitespaceFixpoint(s);
  }

  /** The `expr` loop stops where the next token is neither `+` nor `-`, consuming nothing more. */
  lemma ExprTailStop(left: A.Expr, s: string)
    requires NoLeadingWhitespace(s) && Match(s).kind != Plus && Match(s).kind != Minus
    ensures ExprTail(left, s) == Ok((left, s))
  {
    SkipWhitespaceFixpoint(s);
  }

  lemma TermTailFails(left: A.Expr, s: string)
    requires NoLeadingWhitespace(s) && (Match(s).kind == Multiply || Match(s).kind == Divide)
    requires ParsePower(s[1..]).Err?
    ensures TermTail(left, s) == Err(ParsePower(s[1..]).msg)
  {
    SkipWhitespaceFixpoint(s);
  }

  lemma TermTailContinues(left: A.Expr, s: string)
    requires NoLeadingWhitespace(s) && (Match(s).kind == Multiply || Match(s).kind == Divide)
    requires ParsePower(s[1..]).Ok?
    ensures var (right, rest) := ParsePower(s[1..]).value;
      TermTail(left, s) == TermTail(if Match(s).kind == Multiply then A.Multiply(left, right) else A.Divide(left, right), rest)
  {
    SkipWhitespaceFixpoint(s);
  }

  lemma TermTailStop(left: A.Expr, s: string)
    requires NoLeadingWhitespace(s) && Match(s).kind != Multiply && Match(s).kind != Divide
    ensures TermTail(left, s) == Ok((left, s))
  {
    SkipWhitespaceFixpoint(s);
  }

  /** A `factor` followed by `^`: the factor raised to the whole `power` after the operator. */
  lemma PowerRaisesStep(s: string, f: A.Expr, u: string)
    requires ParseFactor(s) == Ok((f, u)) && Match(SkipWhitespace(u)).kind == Power
    ensures var r := ParsePower(SkipWhitespace(u)[1..]);
      ParsePower(s) == if r.Err? then Err(r.msg) else Ok((A.Power(f, r.value.0), r.value.1))
  {
  }

  lemma TermTailSkips(left: A.Expr, s: string)
    ensures TermTail(left, SkipWhitespace(s)) == TermTail(left, s)
  {
    SkipWhitespaceIdempotent(s);
  }

  /** Every failure is one of the two messages `factor` throws. */
  lemma {:induction false} ErrorsAreFactorErrors(s: string)
    ensures ParseExpr(s).Err? ==> ParseExpr(s).msg == ParseError || ParseExpr(s).msg == MissingRightParen
    decreases |s|, 3
  {
    TermErrors(s);
    match ParseTerm(s)
    case Err(_) =>
    case Ok((left, rest)) => ExprTailErrors(left, rest);
  }

  lemma {:induction false} ExprTailErrors(left: A.Expr, s: string)
    ensures ExprTail(left, s).Err? ==> ExprTail(left, s).msg == ParseError || ExprTail(left, s).msg == MissingRightParen
    decreases |s|, 4
  {
    var s1 := SkipWhitespace(s);
    var t := Match(s1);
    if t.kind == Plus || t.kind == Minus {
      var s2 := s1[|t.lexeme|..];
      TermErrors(s2);
      match ParseTerm(s2)
      case Err(_) =>
      case Ok((right, rest)) =>
        ExprTailErrors(if t.kind == Plus then A.Add(left, right) else A.Subtract(left, right), rest);
    }
  }

  lemma {:induction false} TermErrors(s: string)
    ensures ParseTerm(s).Err? ==> ParseTerm(s).msg == ParseError || ParseTerm(s).msg == MissingRightParen
    decreases |s|, 2
  {
    PowerErrors(s);
    match ParsePower(s)
    case Err(_) =>
    case Ok((left, rest)) => TermTailErrors(left, rest);
  }

  lemma {:induction false} TermTailErrors(left: A.Expr, s: string)
    ensures TermTail(left, s).Err? ==> TermTail(left, s).msg == ParseError || TermTail(left, s).msg == MissingRightParen
    decreases |s|, 4
  {
    var s1 := SkipWhitespace(s);
    var t := Match(s1);
    if t.kind == Multiply || t.kind == Divide {
      var s2 := s1[|t.lexeme|..];
      PowerErrors(s2);
      match ParsePower(s2)
      case Err(_) =>
      case Ok((right, rest)) =>
        TermTailErrors(if t.kind == Multiply then A.Multiply(left, right) else A.Divide(left, right), rest);
    }
  }

  lemma {:induction false} PowerErrors(s: string)
    ensures ParsePower(s).Err? ==> ParsePower(s).msg == ParseError || ParsePower(s).msg == MissingRightParen
    decreases |s|, 1
  {
    FactorErrors(s);
    match ParseFactor(s)
    case Err(_) =>
    case Ok((left, rest)) =>
      var s1 := SkipWhitespace(rest);
      var t := Match(s1);
      if t.kind == Power {
        PowerErrors(s1[|t.lexeme|..]);
      }
  }

  lemma {:induction false} FactorErrors(s: string)
    ensures ParseFactor(s).Err? ==> ParseFactor(s).msg == ParseError || ParseFactor(s).msg == MissingRightParen
    decreases |s|, 0
  {
    var s1 := SkipWhitespace(s);
    var t := Match(s1);
    if t.kind == LParen {
      ErrorsAreFactorErrors(s1[|t.lexeme|..]);
    }
  }
}
