/**
 * The statements of the program's own test table, each with the value it is expected to
 * have. For every row both parsers accept the statement, the tree evaluates to the expected
 * value, and the evaluating parser computes that same value.
 */
module TestTable {
  import opened Wrappers
  import opened Decimal
  import opened Lexing
  import A = Ast
  import G = AstGrammar
  import E = EvalGrammar
  import S = Shapes
  import Agreement

  /** One row passes: `parse` builds `tree`, `process` gives `expected`, and so does the evaluating `parse`. */
  ghost predicate Passes(statement: string, tree: A.Expr, expected: int) {
    G.Parse(statement) == Ok(tree) && A.Eval(tree) == Some(expected) && E.Parse(statement) == Ok(Some(expected))
  }

  /** The tree-building outcome decides the row, since the two parsers agree. */
  lemma Passing(statement: string, tree: A.Expr, expected: int)
    requires G.Parse(statement) == Ok(tree) && A.Eval(tree) == Some(expected)
    ensures Passes(statement, tree, expected)
  {
    Agreement.ParseAgrees(statement);
  }

  /** The one-digit numerals the table uses, with their values. */
  lemma Digits()
    ensures S.Numeral("1") && S.Lit("1") == A.Number(1)
    ensures S.Numeral("2") && S.Lit("2") == A.Number(2)
    ensures S.Numeral("3") && S.Lit("3") == A.Number(3)
    ensures S.Numeral("4") && S.Lit("4") == A.Number(4)
    ensures S.Numeral("5") && S.Lit("5") == A.Number(5)
  {
  }

  lemma Blanks()
    ensures S.Blank("") && S.Blank(" ")
  {
  }

  // ---- rows by shape ----

  /** A row that is a single numeral. */
  lemma LoneRow(statement: string, w1: string, d: string, w2: string, expected: int)
    requires statement == w1 + (d + w2) && S.Blank(w1) && S.Numeral(d) && S.Blank(w2)
    requires S.Lit(d) == A.Number(expected)
    ensures Passes(statement, A.Number(expected), expected)
  {
    S.LoneNumeral(w1, d, w2);
    Passing(statement, A.Number(expected), expected);
  }

  /** A row of shape `a o b` with `o` among `+ -`. */
  lemma PairRow(
    statement: string, w1: string, a: string, w2: string, o: char, w3: string, b: string, w4: string,
    tree: A.Expr, expected: int)
    requires statement == w1 + (a + (w2 + ([o] + (w3 + (b + w4)))))
    requires S.Blank(w1) && S.Blank(w2) && S.Blank(w3) && S.Blank(w4)
    requires S.Numeral(a) && S.Numeral(b) && S.Additive(o)
    requires tree == S.AddOp(o, S.Lit(a), S.Lit(b)) && A.Eval(tree) == Some(expected)
    ensures Passes(statement, tree, expected)
  {
    S.AdditivePair(w1, a, w2, o, w3, b, w4);
    Passing(statement, tree, expected);
  }

  /** A row of shape `a o1 b o2 c` with `o1, o2` among `+ -`. */
  lemma AdditiveRow(
    statement: string, w1: string, a: string, w2: string, o1: char, w3: string, b: string, w4: string,
    o2: char, w5: string, c: string, w6: string, tree: A.Expr, expected: int)
    requires statement == w1 + (a + (w2 + ([o1] + (w3 + (b + (w4 + ([o2] + (w5 + (c + w6)))))))))
    requires S.Blank(w1) && S.Blank(w2) && S.Blank(w3) && S.Blank(w4) && S.Blank(w5) && S.Blank(w6)
    requires S.Numeral(a) && S.Numeral(b) && S.Numeral(c) && S.Additive(o1) && S.Additive(o2)
    requires tree == S.AddOp(o2, S.AddOp(o1, S.Lit(a), S.Lit(b)), S.Lit(c)) && A.Eval(tree) == Some(expected)
    ensures Passes(statement, tree, expected)
  {
    S.AdditiveLeftAssociative(w1, a, w2, o1, w3, b, w4, o2, w5, c, w6);
    Passing(statement, tree, expected);
  }

  /** A row of shape `a o1 b o2 c` with `o1, o2` among `* /`. */
  lemma MultiplicativeRow(
    statement: string, w1: string, a: string, w2: string, o1: char, w3: string, b: string, w4: string,
    o2: char, w5: string, c: string, w6: string, tree: A.Expr, expected: int)
    requires statement == w1 + (a + (w2 + ([o1] + (w3 + (b + (w4 + ([o2] + (w5 + (c + w6)))))))))
    requires S.Blank(w1) && S.Blank(w2) && S.Blank(w3) && S.Blank(w4) && S.Blank(w5) && S.Blank(w6)
    requires S.Numeral(a) && S.Numeral(b) && S.Numeral(c) && S.Multiplicative(o1) && S.Multiplicative(o2)
    requires tree == S.MulOp(o2, S.MulOp(o1, S.Lit(a), S.Lit(b)), S.Lit(c)) && A.Eval(tree) == Some(expected)
    ensures Passes(statement, tree, expected)
  {
    S.MultiplicativeLeftAssociative(w1, a, w2, o1, w3, b, w4, o2, w5, c, w6);
    Passing(statement, tree, expected);
  }

  /** A row of shape `a o1 b o2 c` with `o1` among `+ -` and `o2` among `* /`. */
  lemma PrecedenceRow(
    statement: string, w1: string, a: string, w2: string, o1: char, w3: string, b: string, w4: string,
    o2: char, w5: string, c: string, w6: string, tree: A.Expr, expected: int)
    requires statement == w1 + (a + (w2 + ([o1] + (w3 + (b + (w4 + ([o2] + (w5 + (c + w6)))))))))
    requires S.Blank(w1) && S.Blank(w2) && S.Blank(w3) && S.Blank(w4) && S.Blank(w5) && S.Blank(w6)
    requires S.Numeral(a) && S.Numeral(b) && S.Numeral(c) && S.Additive(o1) && S.Multiplicative(o2)
    requires tree == S.AddOp(o1, S.Lit(a), S.MulOp(o2, S.Lit(b), S.Lit(c))) && A.Eval(tree) == Some(expected)
    ensures Passes(statement, tree, expected)
  {
    S.MultiplicativeBindsTighter(w1, a, w2, o1, w3, b, w4, o2, w5, c, w6);
    Passing(statement, tree, expected);
  }

  /** A row of shape `a ^ b ^ c`. */
  lemma PowerRow(
    statement: string, w1: string, a: string, w2: string, w3: string, b: string, w4: string,
    w5: string, c: string, w6: string, tree: A.Expr, expected: int)
    requires statement == w1 + (a + (w2 + (['^'] + (w3 + (b + (w4 + (['^'] + (w5 + (c + w6)))))))))
    requires S.Blank(w1) && S.Blank(w2) && S.Blank(w3) && S.Blank(w4) && S.Blank(w5) && S.Blank(w6)
    requires S.Numeral(a) && S.Numeral(b) && S.Numeral(c)
    requires tree == A.Power(S.Lit(a), A.Power(S.Lit(b), S.Lit(c))) && A.Eval(tree) == Some(expected)
    ensures Passes(statement, tree, expected)
  {
    S.PowerRightAssociative(w1, a, w2, w3, b, w4, w5, c, w6);
    Passing(statement, tree, expected);
  }

  /** A row of shape `(x) o d` with `o` among `* /`, given what `expr` reads inside the group. */
  lemma GroupedRow(
    statement: string, w1: string, x: string, e: A.Expr, w2: string, w3: string, o: char, w4: string,
    d: string, w5: string, tree: A.Expr, expected: int)
    requires statement == w1 + ("(" + x)
    requires S.Blank(w1) && S.Blank(w2) && S.Blank(w3) && S.Blank(w4) && S.Blank(w5)
    requires S.Multiplicative(o) && S.Numeral(d)
    requires G.ParseExpr(x) == Ok((e, w2 + ([')'] + (w3 + ([o] + (w4 + (d + w5)))))))
    requires tree == S.MulOp(o, e, S.Lit(d)) && A.Eval(tree) == Some(expected)
    ensures Passes(statement, tree, expected)
  {
    S.GroupedLeftOperand(w1, x, e, w2, w3, o, w4, d, w5);
    Passing(statement, tree, expected);
  }

  /** Inside a group: `a o b` with `o` among `+ -`, read up to the `)` that starts `v`. */
  lemma InnerPair(
    x: string, w1: string, a: string, w2: string, o: char, w3: string, b: string, w4: string, y: string)
    requires x == w1 + (a + (w2 + ([o] + (w3 + (b + (w4 + ([')'] + y)))))))
    requires S.Blank(w1) && S.Blank(w2) && S.Blank(w3) && S.Blank(w4)
    requires S.Numeral(a) && S.Numeral(b) && S.Additive(o)
    ensures G.ParseExpr(x) == Ok((S.AddOp(o, S.Lit(a), S.Lit(b)), [')'] + y))
  {
    var v := [')'] + y;
    var tail := [o] + (w3 + (b + (w4 + v)));
    S.BeforeSymbol(w2, o, w3 + (b + (w4 + v)));
    S.BeforeSymbol(w4, ')', y);
    S.ExprStartsNumeral(w1, a, w2, tail);
    S.ExprTailNumeral(S.Lit(a), o, w3, b, w4, v);
    G.ExprTailStop(S.AddOp(o, S.Lit(a), S.Lit(b)), v);
  }

  /** Inside a group: `a o1 b ^ c o2 d` with `o1, o2` among `+ -`, read up to the `)` that starts `v`. */
  lemma InnerPowerMix(
    x: string, w1: string, a: string, w2: string, o1: char, w3: string, b: string, w4: string,
    w5: string, c: string, w6: string, o2: char, w7: string, d: string, w8: string, y: string)
    requires x == w1 + (a + (w2 + ([o1] + (w3 + (b + (w4 + (['^'] + (w5 + (c + (w6 +
      ([o2] + (w7 + (d + (w8 + ([')'] + y)))))))))))))))
    requires S.Blank(w1) && S.Blank(w2) && S.Blank(w3) && S.Blank(w4)
    requires S.Blank(w5) && S.Blank(w6) && S.Blank(w7) && S.Blank(w8)
    requires S.Numeral(a) && S.Numeral(b) && S.Numeral(c) && S.Numeral(d) && S.Additive(o1) && S.Additive(o2)
    ensures G.ParseExpr(x) ==
      Ok((S.AddOp(o2, S.AddOp(o1, S.Lit(a), A.Power(S.Lit(b), S.Lit(c))), S.Lit(d)), [')'] + y))
  {
    var v := [')'] + y;
    var tail2 := [o2] + (w7 + (d + (w8 + v)));
    var tail1 := [o1] + (w3 + (b + (w4 + (['^'] + (w5 + (c + (w6 + tail2)))))));
    var abc := S.AddOp(o1, S.Lit(a), A.Power(S.Lit(b), S.Lit(c)));
    S.BeforeSymbol(w2, o1, w3 + (b + (w4 + (['^'] + (w5 + (c + (w6 + tail2)))))));
    S.BeforeSymbol(w6, o2, w7 + (d + (w8 + v)));
    S.BeforeSymbol(w8, ')', y);
    S.ExprStartsNumeral(w1, a, w2, tail1);
    S.ExprTailPowerOf(S.Lit(a), o1, w3, b, w4, w5, c, w6, tail2);
    S.ExprTailNumeral(abc, o2, w7, d, w8, v);
    G.ExprTailStop(S.AddOp(o2, abc, S.Lit(d)), v);
  }

  // ---- the rows ----

  /** `1-2-3` is `subtract(subtract(number(1), number(2)), number(3))`, which is -4. */
  lemma SubtractChain()
    ensures Passes("1-2-3", A.Subtract(A.Subtract(A.Number(1), A.Number(2)), A.Number(3)), -4)
  {
    var tree := A.Subtract(A.Subtract(A.Number(1), A.Number(2)), A.Number(3));
    assert "1-2-3" == "" + ("1" + ("" + (['-'] + ("" + ("2" + ("" + (['-'] + ("" + ("3" + ""))))))))) by {
    }
    assert A.Eval(tree) == Some(-4) by {
    }
    Digits();
    Blanks();
    AdditiveRow("1-2-3", "", "1", "", '-', "", "2", "", '-', "", "3", "", tree, -4);
  }

  /** The tree of `1-2-3` as `toString` prints it. */
  lemma SubtractChainRendering()
    ensures A.Render(A.Subtract(A.Subtract(A.Number(1), A.Number(2)), A.Number(3))) ==
      "subtract" + "(" + "subtract(number(1), number(2))" + ", " + "number(3)" + ")"
    ensures A.Render(A.Subtract(A.Subtract(A.Number(1), A.Number(2)), A.Number(3))) ==
      "subtract(subtract(number(1), number(2)), number(3))"
  {
    assert A.Render(A.Number(1)) == "number(1)" by {
      assert IntToDecimal(1) == "1";
    }
    assert A.Render(A.Number(2)) == "number(2)" by {
      assert IntToDecimal(2) == "2";
    }
    assert A.Render(A.Number(3)) == "number(3)" by {
      assert IntToDecimal(3) == "3";
    }
    var inner := A.Subtract(A.Number(1), A.Number(2));
    assert A.Render(inner) == "subtract(number(1), number(2))";
    SubtractChainText();
  }

  /** The five pieces of that rendering, joined one at a time. */
  lemma SubtractChainText()
    ensures "subtract" + "(" + "subtract(number(1), number(2))" + ", " + "number(3)" + ")" ==
      "subtract(subtract(number(1), number(2)), number(3))"
  {
    var a := "subtract" + "(";
    assert a == "subtract(";
    var b := a + "subtract(number(1), number(2))";
    assert b == "subtract(subtract(number(1), number(2))";
    var c := b + ", ";
    assert c == "subtract(subtract(number(1), number(2)), ";
    var d := c + "number(3)";
    assert d == "subtract(subtract(number(1), number(2)), number(3)";
    assert d + ")" == "subtract(subtract(number(1), number(2)), number(3))";
  }

  lemma One()
    ensures Passes("1", A.Number(1), 1)
  {
    assert "1" == "" + ("1" + "") by {
    }
    Digits();
    Blanks();
    LoneRow("1", "", "1", "", 1);
  }

  lemma TwoMinusOne()
    ensures Passes("2-1", A.Subtract(A.Number(2), A.Number(1)), 1)
  {
    var tree := A.Subtract(A.Number(2), A.Number(1));
    assert "2-1" == "" + ("2" + ("" + (['-'] + ("" + ("1" + ""))))) by {
    }
    assert A.Eval(tree) == Some(1) by {
    }
    Digits();
    Blanks();
    PairRow("2-1", "", "2", "", '-', "", "1", "", tree, 1);
  }

  lemma TwoMinusOneSpaced()
    ensures Passes("2 - 1", A.Subtract(A.Number(2), A.Number(1)), 1)
  {
    var tree := A.Subtract(A.Number(2), A.Number(1));
    assert "2 - 1" == "" + ("2" + (" " + (['-'] + (" " + ("1" + ""))))) by {
    }
    assert A.Eval(tree) == Some(1) by {
    }
    Digits();
    Blanks();
    PairRow("2 - 1", "", "2", " ", '-', " ", "1", "", tree, 1);
  }

  lemma FiveMinusFourMinusThree()
    ensures Passes("5 - 4 - 3", A.Subtract(A.Subtract(A.Number(5), A.Number(4)), A.Number(3)), -2)
  {
    var tree := A.Subtract(A.Subtract(A.Number(5), A.Number(4)), A.Number(3));
    assert "5 - 4 - 3" == "" + ("5" + (" " + (['-'] + (" " + ("4" + (" " + (['-'] + (" " + ("3" + ""))))))))) by {
    }
    assert A.Eval(tree) == Some(-2) by {
    }
    Digits();
    Blanks();
    AdditiveRow("5 - 4 - 3", "", "5", " ", '-', " ", "4", " ", '-', " ", "3", "", tree, -2);
  }

  lemma TimesThenDivide()
    ensures Passes("2 * 3 / 2", A.Divide(A.Multiply(A.Number(2), A.Number(3)), A.Number(2)), 3)
  {
    var tree := A.Divide(A.Multiply(A.Number(2), A.Number(3)), A.Number(2));
    assert "2 * 3 / 2" == "" + ("2" + (" " + (['*'] + (" " + ("3" + (" " + (['/'] + (" " + ("2" + ""))))))))) by {
    }
    assert A.Eval(tree) == Some(3) by {
    }
    Digits();
    Blanks();
    MultiplicativeRow("2 * 3 / 2", "", "2", " ", '*', " ", "3", " ", '/', " ", "2", "", tree, 3);
  }

  /** Integer division truncates: 4 / 3 is 1. */
  lemma TimesThenDivideTruncating()
    ensures Passes(" 2 *2 / 3", A.Divide(A.Multiply(A.Number(2), A.Number(2)), A.Number(3)), 1)
  {
    var tree := A.Divide(A.Multiply(A.Number(2), A.Number(2)), A.Number(3));
    assert " 2 *2 / 3" == " " + ("2" + (" " + (['*'] + ("" + ("2" + (" " + (['/'] + (" " + ("3" + ""))))))))) by {
    }
    assert A.Eval(tree) == Some(1) by {
    }
    Digits();
    Blanks();
    MultiplicativeRow(" 2 *2 / 3", " ", "2", " ", '*', "", "2", " ", '/', " ", "3", "", tree, 1);
  }

  lemma TimesBeforeMinus()
    ensures Passes("2 - 2 * 3", A.Subtract(A.Number(2), A.Multiply(A.Number(2), A.Number(3))), -4)
  {
    var tree := A.Subtract(A.Number(2), A.Multiply(A.Number(2), A.Number(3)));
    assert "2 - 2 * 3" == "" + ("2" + (" " + (['-'] + (" " + ("2" + (" " + (['*'] + (" " + ("3" + ""))))))))) by {
    }
    assert A.Eval(tree) == Some(-4) by {
    }
    Digits();
    Blanks();
    PrecedenceRow("2 - 2 * 3", "", "2", " ", '-', " ", "2", " ", '*', " ", "3", "", tree, -4);
  }

  lemma GroupTimesThree()
    ensures Passes("(2 - 2) * 3", A.Multiply(A.Subtract(A.Number(2), A.Number(2)), A.Number(3)), 0)
  {
    var inner := A.Subtract(A.Number(2), A.Number(2));
    var tree := A.Multiply(inner, A.Number(3));
    assert "2 - 2) * 3" == "" + ("2" + (" " + (['-'] + (" " + ("2" + ("" + ([')'] + " * 3"))))))) by {
    }
    assert [')'] + " * 3" == "" + ([')'] + (" " + (['*'] + (" " + ("3" + ""))))) by {
    }
    assert "(2 - 2) * 3" == "" + ("(" + "2 - 2) * 3") by {
    }
    assert A.Eval(tree) == Some(0) by {
    }
    Digits();
    Blanks();
    InnerPair("2 - 2) * 3", "", "2", " ", '-', " ", "2", "", " * 3");
    GroupedRow("(2 - 2) * 3", "", "2 - 2) * 3", inner, "", " ", '*', " ", "3", "", tree, 0);
  }

  lemma PowerTower()
    ensures Passes("2 ^ 2 ^ 3", A.Power(A.Number(2), A.Power(A.Number(2), A.Number(3))), 256)
  {
    var tree := A.Power(A.Number(2), A.Power(A.Number(2), A.Number(3)));
    assert "2 ^ 2 ^ 3" == "" + ("2" + (" " + (['^'] + (" " + ("2" + (" " + (['^'] + (" " + ("3" + ""))))))))) by {
    }
    assert A.Eval(tree) == Some(256) by {
    }
    Digits();
    Blanks();
    PowerRow("2 ^ 2 ^ 3", "", "2", " ", " ", "2", " ", " ", "3", "", tree, 256);
  }

  lemma MixedGroupTimesThree()
    ensures Passes("(1 - 2 ^ 2 + 1) * 3",
      A.Multiply(A.Add(A.Subtract(A.Number(1), A.Power(A.Number(2), A.Number(2))), A.Number(1)), A.Number(3)), -6)
  {
    var inner := A.Add(A.Subtract(A.Number(1), A.Power(A.Number(2), A.Number(2))), A.Number(1));
    var tree := A.Multiply(inner, A.Number(3));
    var x := "1 - 2 ^ 2 + 1) * 3";
    assert x == "" + ("1" + (" " + (['-'] + (" " + ("2" + (" " + (['^'] + (" " + ("2" + (" " +
      (['+'] + (" " + ("1" + ("" + ([')'] + " * 3"))))))))))))))) by {
    }
    assert [')'] + " * 3" == "" + ([')'] + (" " + (['*'] + (" " + ("3" + ""))))) by {
    }
    assert "(1 - 2 ^ 2 + 1) * 3" == "" + ("(" + x) by {
    }
    assert A.Eval(tree) == Some(-6) by {
    }
    Digits();
    Blanks();
    InnerPowerMix(x, "", "1", " ", '-', " ", "2", " ", " ", "2", " ", '+', " ", "1", "", " * 3");
    GroupedRow("(1 - 2 ^ 2 + 1) * 3", "", x, inner, "", " ", '*', " ", "3", "", tree, -6);
  }
}
