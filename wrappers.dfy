/** Option and Result datatypes shared by the lexer, the AST and both parsers. */
module Wrappers {

  /** An optional value. */
  datatype Option<+T> = None | Some(value: T)

  /** The outcome of a parse: a value, or the message of the exception the parser throws. */
  datatype Result<+T> = Ok(value: T) | Err(msg: string)

  /** The message thrown by `factor` when the next token is neither a number nor `(`. */
  const ParseError: string := "parse error"

  /** The message thrown by `factor` when a parenthesised group is not closed by `)`. */
  const MissingRightParen: string := "missing right parenthesis"

  /** `a` is a suffix of `b`. */
  predicate IsSuffix<T(==)>(a: seq<T>, b: seq<T>) {
    |a| <= |b| && b[|b| - |a|..] == a
  }

  lemma SuffixTransitive<T>(a: seq<T>, b: seq<T>, c: seq<T>)
    requires IsSuffix(a, b) && IsSuffix(b, c)
    ensures IsSuffix(a, c)
  {
    assert c[|c| - |a|..] == c[|c| - |b|..][|b| - |a|..];
  }

  lemma SuffixOfDrop<T>(s: seq<T>, k: nat)
    requires k <= |s|
    ensures IsSuffix(s[k..], s)
  {
  }

  /**
   * A method result `r`, together with the lexer's remaining input `rest` after the call,
   * is what the specification function promised: on success the same value with the same
   * remaining input, on failure the same message.
   */
  ghost predicate Realizes<T>(r: Result<T>, rest: string, spec: Result<(T, string)>) {
    match spec
    case Ok(p) => r == Ok(p.0) && rest == p.1
    case Err(m) => r == Err(m)
  }
}
