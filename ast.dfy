/**
 * The expression tree built by the tree-building parser, its evaluation (`process`) and its
 * canonical rendering (`toString`).
 *
 * Values are `Option<int>`: `None` stands for a computation whose C++ behaviour is undefined
 * (an integer division by zero, or a zero base raised to a negative power, whose infinite
 * result cannot be cast to `int`). It propagates through every operation that consumes it.
 */
module Ast {
  import opened Wrappers
  import opened Decimal

  datatype Expr =
    | Number(n: int)
    | Add(left: Expr, right: Expr)
    | Subtract(left: Expr, right: Expr)
    | Multiply(left: Expr, right: Expr)
    | Divide(left: Expr, right: Expr)
    | Power(left: Expr, right: Expr)

  function Abs(x: int): nat {
    if x < 0 then -x else x
  }

  /** C++ integer division: the quotient truncated toward zero. */
  function TruncDiv(a: int, b: int): (q: int)
    requires b != 0
    ensures Abs(a - q * b) < Abs(b)
    ensures a >= 0 ==> a - q * b >= 0
    ensures a <= 0 ==> a - q * b <= 0
  {
    var q0 := Abs(a) / Abs(b);
    var q := if (a < 0) == (b < 0) then q0 else -q0;
    TruncDivRemainder(a, b, q0, q);
    q
  }

  /** The remainder left by the truncated quotient is the remainder of the magnitudes, signed like `a`. */
  lemma TruncDivRemainder(a: int, b: int, q0: int, q: int)
    requires b != 0 && q0 == Abs(a) / Abs(b)
    requires q == if (a < 0) == (b < 0) then q0 else -q0
    ensures 0 <= Abs(a) - q0 * Abs(b) < Abs(b)
    ensures a - q * b == if a >= 0 then Abs(a) - q0 * Abs(b) else -(Abs(a) - q0 * Abs(b))
  {
    var m: int := Abs(b);
    MagnitudeRemainder(Abs(a), m);
    if b > 0 {
      if a >= 0 {
        assert q == q0;
      } else {
        assert q * b == -(q0 * m);
      }
    } else {
      if a >= 0 {
        assert q * b == (-q0) * (-m) == q0 * m;
      } else {
        assert q * b == q0 * (-m) == -(q0 * m);
      }
    }
  }

  lemma MagnitudeRemainder(x: nat, m: nat)
    requires m > 0
    ensures 0 <= x - (x / m) * m < m
  {
  }

  /** `b` raised to a non-negative power. */
  function Exp(b: int, e: nat): int {
    if e == 0 then 1 else b * Exp(b, e - 1)
  }

  /**
   * `static_cast<int>(std::pow(b, e))`: exact for a non-negative exponent; for a negative one
   * the real result 1 / b^(-e) truncated toward zero, undefined for a zero base.
   */
  function PowInt(b: int, e: int): (r: Option<int>)
    ensures e >= 0 ==> r == Some(Exp(b, e))
    ensures r.None? <==> b == 0 && e < 0
    ensures e < 0 && r.Some? ==> -1 <= r.value <= 1
  {
    if e >= 0 then Some(Exp(b, e))
    else if b == 0 then None
    else if b == 1 then Some(1)
    else if b == -1 then Some(if e % 2 == 0 then 1 else -1)
    else Some(0)
  }

  lemma {:induction false} ExpNonZero(b: int, e: nat)
    requires b != 0
    ensures Exp(b, e) != 0
  {
    if e > 0 {
      ExpNonZero(b, e - 1);
    }
  }

  lemma {:induction false} ExpAtLeastBase(b: int, e: nat)
    requires Abs(b) >= 2 && e >= 1
    ensures Abs(Exp(b, e)) >= 2
  {
    if e > 1 {
      ExpAtLeastBase(b, e - 1);
      var p := Exp(b, e - 1);
      assert Abs(b * p) == Abs(b) * Abs(p);
      assert Abs(b) * Abs(p) >= 2 * 2;
    } else {
      assert Exp(b, 0) == 1;
    }
  }

  lemma {:induction false} ExpMinusOne(e: nat)
    ensures Exp(-1, e) == if e % 2 == 0 then 1 else -1
  {
    if e > 0 {
      ExpMinusOne(e - 1);
    }
  }

  /** For a negative exponent, `PowInt` is one divided by the positive power, truncated toward zero. */
  lemma PowNegativeTruncates(b: int, e: int)
    requires e < 0 && b != 0
    ensures Exp(b, -e) != 0 && PowInt(b, e) == Some(TruncDiv(1, Exp(b, -e)))
  {
    ExpNonZero(b, -e);
    var d := Exp(b, -e);
    TruncDivOne(d);
    if b == -1 {
      ExpMinusOne(-e);
      assert (-e) % 2 == e % 2;
    } else if b != 1 {
      ExpAtLeastBase(b, -e);
    } else {
      ExpOfOne(-e);
    }
  }

  /** One divided by a non-zero integer, truncated toward zero. */
  lemma TruncDivOne(d: int)
    requires d != 0
    ensures TruncDiv(1, d) == if d == 1 then 1 else if d == -1 then -1 else 0
  {
    var m := Abs(d);
    if m >= 2 {
      assert 1 / m == 0;
    } else {
      assert 1 / m == 1;
    }
  }

  lemma {:induction false} ExpOfOne(e: nat)
    ensures Exp(1, e) == 1
  {
    if e > 0 {
      ExpOfOne(e - 1);
    }
  }

  /** The sum; undefined when an operand is. */
  function ValueAdd(a: Option<int>, b: Option<int>): (r: Option<int>)
    ensures r.Some? <==> a.Some? && b.Some?
    ensures r.Some? ==> r.value == a.value + b.value
  {
    if a.Some? && b.Some? then Some(a.value + b.value) else None
  }

  /** The difference; undefined when an operand is. */
  function ValueSubtract(a: Option<int>, b: Option<int>): (r: Option<int>)
    ensures r.Some? <==> a.Some? && b.Some?
    ensures r.Some? ==> r.value == a.value - b.value
  {
    if a.Some? && b.Some? then Some(a.value - b.value) else None
  }

  /** The product; undefined when an operand is. */
  function ValueMultiply(a: Option<int>, b: Option<int>): (r: Option<int>)
    ensures r.Some? <==> a.Some? && b.Some?
    ensures r.Some? ==> r.value == a.value * b.value
  {
    if a.Some? && b.Some? then Some(a.value * b.value) else None
  }

  /** Truncating division; undefined when the divisor is zero. */
  function ValueDivide(a: Option<int>, b: Option<int>): (r: Option<int>)
    ensures r.Some? <==> a.Some? && b.Some? && b.value != 0
    ensures r.Some? ==> Abs(a.value - r.value * b.value) < Abs(b.value)
    ensures r.Some? && a.value >= 0 ==> a.value - r.value * b.value >= 0
    ensures r.Some? && a.value <= 0 ==> a.value - r.value * b.value <= 0
  {
    if a.Some? && b.Some? && b.value != 0 then Some(TruncDiv(a.value, b.value)) else None
  }

  function ValuePower(a: Option<int>, b: Option<int>): (r: Option<int>)
    ensures a.Some? && b.Some? && b.value >= 0 ==> r == Some(Exp(a.value, b.value))
    ensures r.None? <==> a.None? || b.None? || (a.value == 0 && b.value < 0)
  {
    if a.Some? && b.Some? then PowInt(a.value, b.value) else None
  }

  /**
   * `process()`: post-order evaluation of the tree. A literal is its value; an operator node is
   * undefined as soon as one of its children is, and a division by a subtree worth zero is
   * undefined.
   */
  function Eval(e: Expr): (r: Option<int>)
    ensures e.Number? ==> r == Some(e.n)
    ensures !e.Number? && (Eval(e.left).None? || Eval(e.right).None?) ==> r.None?
    ensures e.Divide? && Eval(e.right) == Some(0) ==> r.None?
  {
    match e
    case Number(n) => Some(n)
    case Add(l, r) => ValueAdd(Eval(l), Eval(r))
    case Subtract(l, r) => ValueSubtract(Eval(l), Eval(r))
    case Multiply(l, r) => ValueMultiply(Eval(l), Eval(r))
    case Divide(l, r) => ValueDivide(Eval(l), Eval(r))
    case Power(l, r) => ValuePower(Eval(l), Eval(r))
  }

  /** The tree has no division and no power node. */
  predicate RingOnly(e: Expr) {
    match e
    case Number(_) => true
    case Add(l, r) => RingOnly(l) && RingOnly(r)
    case Subtract(l, r) => RingOnly(l) && RingOnly(r)
    case Multiply(l, r) => RingOnly(l) && RingOnly(r)
    case Divide(_, _) => false
    case Power(_, _) => false
  }

  /** Only division and power can make an evaluation undefined. */
  lemma {:induction false} RingOnlyIsDefined(e: Expr)
    requires RingOnly(e)
    ensures Eval(e).Some?
  {
    match e
    case Number(_) =>
    case Add(l, r) => RingOnlyIsDefined(l); RingOnlyIsDefined(r);
    case Subtract(l, r) => RingOnlyIsDefined(l); RingOnlyIsDefined(r);
    case Multiply(l, r) => RingOnlyIsDefined(l); RingOnlyIsDefined(r);
  }

  // ---- rendering ----

  /**
   * `toString()`: `<op>(<left>, <right>)` for operators, `number(<decimal>)` for literals.
   * Every rendering starts with a letter that tells the node kind apart and ends with `)`.
   */
  function Render(e: Expr): (r: string)
    ensures r != [] && r[0] == Initial(e) && r[|r| - 1] == ')'
  {
    match e
    case Number(n) => "number(" + IntToDecimal(n) + ")"
    case Add(l, r) => Binary("add", Render(l), Render(r))
    case Subtract(l, r) => Binary("subtract", Render(l), Render(r))
    case Multiply(l, r) => Binary("multiply", Render(l), Render(r))
    case Divide(l, r) => Binary("divide", Render(l), Render(r))
    case Power(l, r) => Binary("power", Render(l), Render(r))
  }

  function Binary(name: string, l: string, r: string): string {
    name + "(" + l + ", " + r + ")"
  }

  /** The letter each kind of node's rendering starts with; no two kinds share one. */
  function Initial(e: Expr): char {
    match e
    case Number(_) => 'n'
    case Add(_, _) => 'a'
    case Subtract(_, _) => 's'
    case Multiply(_, _) => 'm'
    case Divide(_, _) => 'd'
    case Power(_, _) => 'p'
  }

  lemma DropCommonPrefix(p: string, a: string, b: string)
    requires p + a == p + b
    ensures a == b
  {
    assert a == (p + a)[|p|..];
    assert b == (p + b)[|p|..];
  }

  /** Two texts that each stop at their first `)` agree up to it and after it. */
  lemma UpToFirstParen(d1: string, d2: string, x: string, y: string)
    requires ')' !in d1 && ')' !in d2
    requires d1 + (")" + x) == d2 + (")" + y)
    ensures d1 == d2 && x == y
  {
    var u := d1 + (")" + x);
    FirstParenAt(d1, x);
    FirstParenAt(d2, y);
    assert |d1| == |d2|;
    assert d1 == u[..|d1|];
    assert d2 == u[..|d2|];
    assert (d1 + ")") + x == d1 + (")" + x);
    assert (d2 + ")") + y == d2 + (")" + y);
    DropCommonPrefix(d1 + ")", x, y);
  }

  lemma FirstParenAt(d: string, x: string)
    requires ')' !in d
    ensures var u := d + (")" + x); u[|d|] == ')' && forall i :: 0 <= i < |d| ==> u[i] != ')'
  {
  }

  lemma NoParenInDecimal(i: int)
    ensures ')' !in IntToDecimal(i)
  {
  }

  /** The name `toString` gives an operator node. */
  function OpName(e: Expr): string
    requires !e.Number?
  {
    match e
    case Add(_, _) => "add"
    case Subtract(_, _) => "subtract"
    case Multiply(_, _) => "multiply"
    case Divide(_, _) => "divide"
    case Power(_, _) => "power"
  }

  lemma RenderBinary(e: Expr)
    requires !e.Number?
    ensures Render(e) == Binary(OpName(e), Render(e.left), Render(e.right))
  {
  }

  /** A rendering is never a proper prefix of another: the text determines where the tree ends. */
  lemma {:induction false} RenderPrefixUnique(a: Expr, b: Expr, x: string, y: string)
    requires Render(a) + x == Render(b) + y
    ensures a == b && x == y
  {
    assert Initial(a) == (Render(a) + x)[0] == Initial(b);
    if a.Number? {
      NumberPrefixUnique(a.n, b.n, x, y);
    } else {
      RenderBinary(a);
      RenderBinary(b);
      var rl1, rr1, rl2, rr2 := Render(a.left), Render(a.right), Render(b.left), Render(b.right);
      BinaryOpen(OpName(a), rl1, rr1, x, rl2, rr2, y);
      RenderPrefixUnique(a.left, b.left, ", " + (rr1 + (")" + x)), ", " + (rr2 + (")" + y)));
      DropCommonPrefix(", ", rr1 + (")" + x), rr2 + (")" + y));
      RenderPrefixUnique(a.right, b.right, ")" + x, ")" + y);
      DropCommonPrefix(")", x, y);
    }
  }

  lemma NumberPrefixUnique(n: int, m: int, x: string, y: string)
    requires Render(Number(n)) + x == Render(Number(m)) + y
    ensures n == m && x == y
  {
    var d1, d2 := IntToDecimal(n), IntToDecimal(m);
    assert Render(Number(n)) + x == "number(" + (d1 + (")" + x));
    assert Render(Number(m)) + y == "number(" + (d2 + (")" + y));
    DropCommonPrefix("number(", d1 + (")" + x), d2 + (")" + y));
    NoParenInDecimal(n);
    NoParenInDecimal(m);
    UpToFirstParen(d1, d2, x, y);
    IntToDecimalInjective(n, m);
  }

  /** Stripping the shared `<name>(` from two operator renderings followed by more text. */
  lemma BinaryOpen(name: string, l1: string, r1: string, x: string, l2: string, r2: string, y: string)
    requires Binary(name, l1, r1) + x == Binary(name, l2, r2) + y
    ensures l1 + (", " + (r1 + (")" + x))) == l2 + (", " + (r2 + (")" + y)))
  {
    var open := name + "(";
    assert Binary(name, l1, r1) + x == open + (l1 + (", " + (r1 + (")" + x))));
    assert Binary(name, l2, r2) + y == open + (l2 + (", " + (r2 + (")" + y))));
    DropCommonPrefix(open, l1 + (", " + (r1 + (")" + x))), l2 + (", " + (r2 + (")" + y))));
  }

  /** Distinct trees render differently, so `toString` identifies the tree it came from. */
  lemma RenderInjective(a: Expr, b: Expr)
    requires Render(a) == Render(b)
    ensures a == b
  {
    assert Render(a) + "" == Render(b) + "";
    RenderPrefixUnique(a, b, "", "");
  }
}
