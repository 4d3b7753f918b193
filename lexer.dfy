/**
 * The one-token-lookahead scanner. `Match` is the cascade of anchored patterns tried on the
 * remaining input; `Lexer.GetNextToken` loops over it, dropping whitespace runs, and
 * `Lexer.RemoveToken` consumes a token's lexeme.
 */
module Lexing {
  import opened Wrappers
  import opened Decimal

  datatype TokenType =
    | Number | Plus | Minus | Multiply | Divide | Power | LParen | RParen
    | Whitespace | NoMoreTokens | LexicalError

  /** A classified token with the exact text it matched. */
  datatype Token = Token(kind: TokenType, lexeme: string)

  /** The character class `\s`: space, tab, newline, carriage return, vertical tab, form feed. */
  predicate IsWhitespace(c: char) {
    c == ' ' || c == '\t' || c == '\n' || c == '\r' || c == '\U{000B}' || c == '\U{000C}'
  }

  /** The longest prefix of `s` whose characters all satisfy `p`. */
  function Span(p: char -> bool, s: string): (r: string)
    ensures r <= s
    ensures forall i :: 0 <= i < |r| ==> p(r[i])
    ensures |r| == |s| || !p(s[|r|])
  {
    if s != [] && p(s[0]) then [s[0]] + Span(p, s[1..]) else []
  }

  /** One of the anchored patterns `getNextToken` tries: `^([0-9]+)`, a single character, or `^(\s+)`. */
  datatype Pattern = Digits | Symbol(c: char, kind: TokenType) | Spaces

  /** The patterns in the order they are tried. */
  const Cascade: seq<Pattern> := [
    Digits, Symbol('+', Plus), Symbol('-', Minus), Symbol('*', Multiply), Symbol('/', Divide),
    Symbol('^', Power), Symbol('(', LParen), Symbol(')', RParen), Spaces]

  /** The one-character operators and parentheses, in the order they are tried. */
  const Symbols: string := "+-*/^()"

  /** The token a pattern matches at the front of `s`, if it matches there. */
  function MatchPattern(p: Pattern, s: string): (r: Option<Token>)
    requires p.Symbol? ==> p.kind !in {Number, Whitespace}
    ensures r.Some? ==> r.value.lexeme <= s && r.value.lexeme != []
    ensures r.Some? && r.value.kind == Number ==> AllDigits(r.value.lexeme)
    ensures r.Some? && r.value.kind != Number && r.value.kind != Whitespace ==> |r.value.lexeme| == 1
  {
    match p
    case Digits => if s != [] && IsDigit(s[0]) then Some(Token(Number, Span(IsDigit, s))) else None
    case Symbol(c, k) => if s != [] && s[0] == c then Some(Token(k, s[..1])) else None
    case Spaces => if s != [] && IsWhitespace(s[0]) then Some(Token(Whitespace, Span(IsWhitespace, s))) else None
  }

  /** The first pattern from position `i` of the cascade that matches, or a lexical error with an empty lexeme. */
  function FirstMatch(s: string, i: nat): (t: Token)
    requires i <= |Cascade|
    ensures t.lexeme <= s
    ensures t.kind == Number ==> t.lexeme != [] && AllDigits(t.lexeme)
    ensures t.kind in {Plus, Minus, Multiply, Divide, Power, LParen, RParen} ==> |t.lexeme| == 1
    ensures t.kind == Whitespace ==> t.lexeme != []
    ensures t.kind != NoMoreTokens
    decreases |Cascade| - i
  {
    if i == |Cascade| then Token(LexicalError, "")
    else
      match MatchPattern(Cascade[i], s)
      case Some(t) => t
      case None => FirstMatch(s, i + 1)
  }

  /**
   * Classifies the front of `s`: end of input, else the first pattern of the cascade that
   * matches, else a lexical error with an empty lexeme. `MatchClassifies` states the classes.
   */
  function Match(s: string): (t: Token)
    ensures t.lexeme <= s
    ensures t.kind == Number ==> t.lexeme != [] && AllDigits(t.lexeme)
    ensures t.kind in {Plus, Minus, Multiply, Divide, Power, LParen, RParen} ==> |t.lexeme| == 1
    ensures t.kind == Whitespace ==> t.lexeme != []
    ensures t.kind == NoMoreTokens <==> s == []
  {
    if s == [] then Token(NoMoreTokens, "") else FirstMatch(s, 0)
  }

  /** Patterns `i` to `j - 1` fail and pattern `j` matches: then pattern `j` decides the token. */
  lemma {:induction false} FirstMatchAt(s: string, i: nat, j: nat)
    requires i <= j < |Cascade|
    requires forall k :: i <= k < j ==> MatchPattern(Cascade[k], s).None?
    requires MatchPattern(Cascade[j], s).Some?
    ensures FirstMatch(s, i) == MatchPattern(Cascade[j], s).value
    decreases j - i
  {
    if i < j {
      FirstMatchAt(s, i + 1, j);
    }
  }

  /** No pattern from `i` on matches: the result is a lexical error. */
  lemma {:induction false} FirstMatchNone(s: string, i: nat)
    requires i <= |Cascade|
    requires forall k :: i <= k < |Cascade| ==> MatchPattern(Cascade[k], s).None?
    ensures FirstMatch(s, i) == Token(LexicalError, "")
    decreases |Cascade| - i
  {
    if i < |Cascade| {
      FirstMatchNone(s, i + 1);
    }
  }

  /** The token kind of a one-character operator or parenthesis. */
  function SymbolKind(c: char): TokenType
    requires c in Symbols
  {
    if c == '+' then Plus
    else if c == '-' then Minus
    else if c == '*' then Multiply
    else if c == '/' then Divide
    else if c == '^' then Power
    else if c == '(' then LParen
    else RParen
  }

  /** A leading operator or parenthesis is a one-character token of its kind. */
  lemma MatchSymbol(s: string)
    requires s != [] && s[0] in Symbols
    ensures Match(s) == Token(SymbolKind(s[0]), [s[0]])
  {
    var c := s[0];
    assert [c] == s[..1];
    var j := if c == '+' then 1 else if c == '-' then 2 else if c == '*' then 3 else if c == '/' then 4
      else if c == '^' then 5 else if c == '(' then 6 else 7;
    FirstMatchAt(s, 0, j);
  }

  /** What `Match` returns, stated over the first characters of the input. */
  lemma MatchClassifies(s: string)
    ensures s == [] ==> Match(s) == Token(NoMoreTokens, "")
    ensures s != [] && IsDigit(s[0]) ==>
      var t := Match(s);
      t.kind == Number && t.lexeme != [] &&
      (forall i :: 0 <= i < |t.lexeme| ==> IsDigit(t.lexeme[i])) &&
      (|t.lexeme| == |s| || !IsDigit(s[|t.lexeme|]))
    ensures s != [] && s[0] in Symbols ==> Match(s) == Token(SymbolKind(s[0]), [s[0]])
    ensures s != [] && IsWhitespace(s[0]) ==>
      var t := Match(s);
      t.kind == Whitespace && t.lexeme != [] &&
      (forall i :: 0 <= i < |t.lexeme| ==> IsWhitespace(t.lexeme[i])) &&
      (|t.lexeme| == |s| || !IsWhitespace(s[|t.lexeme|]))
    ensures s != [] && !IsDigit(s[0]) && s[0] !in Symbols && !IsWhitespace(s[0]) ==>
      Match(s) == Token(LexicalError, "")
  {
    if s != [] {
      var c := s[0];
      if IsDigit(c) {
        FirstMatchAt(s, 0, 0);
      } else if c in Symbols {
        MatchSymbol(s);
      } else if IsWhitespace(c) {
        FirstMatchAt(s, 0, 8);
      } else {
        FirstMatchNone(s, 0);
      }
    }
  }

  predicate NoLeadingWhitespace(s: string) {
    s == [] || !IsWhitespace(s[0])
  }

  /** `s` with its leading whitespace run removed. */
  function SkipWhitespace(s: string): (r: string)
    ensures IsSuffix(r, s)
    ensures NoLeadingWhitespace(r)
    ensures forall i :: 0 <= i < |s| - |r| ==> IsWhitespace(s[i])
  {
    s[|Span(IsWhitespace, s)|..]
  }

  /** The token `getNextToken` returns when the remaining input is `s`. */
  function Peek(s: string): (t: Token)
    ensures t.kind == NoMoreTokens <==> forall i :: 0 <= i < |s| ==> IsWhitespace(s[i])
  {
    Match(SkipWhitespace(s))
  }

  lemma {:induction false} SkipWhitespaceIdempotent(s: string)
    ensures SkipWhitespace(SkipWhitespace(s)) == SkipWhitespace(s)
  {
    var r := SkipWhitespace(s);
    assert Span(IsWhitespace, r) == [];
  }

  /** Text that does not start with whitespace is left as it is. */
  lemma SkipWhitespaceFixpoint(s: string)
    requires NoLeadingWhitespace(s)
    ensures SkipWhitespace(s) == s
  {
    assert Span(IsWhitespace, s) == [];
  }

  /** A whitespace token spans exactly the run `SkipWhitespace` drops; any other token leaves nothing to drop. */
  lemma MatchWhitespace(s: string)
    ensures Match(s).kind == Whitespace ==> s[|Match(s).lexeme|..] == SkipWhitespace(s)
    ensures Match(s).kind != Whitespace ==> SkipWhitespace(s) == s
    ensures Match(s).kind == Whitespace ==> Match(s).lexeme != []
  {
    if s != [] && IsWhitespace(s[0]) {
      assert !IsDigit(s[0]) && s[0] !in Symbols;
      MatchClassifies(s);
      FirstMatchAt(s, 0, 8);
    } else {
      MatchClassifies(s);
      assert Span(IsWhitespace, s) == [];
    }
  }

  /** Peeking twice without consuming in between yields the same token. */
  lemma PeekIsStable(s: string)
    ensures Peek(SkipWhitespace(s)) == Peek(s)
  {
    SkipWhitespaceIdempotent(s);
  }

  /** `getNextToken` never hands out a whitespace token, and its lexeme is a prefix of what remains. */
  lemma PeekNeverWhitespace(s: string)
    ensures Peek(s).kind != Whitespace
    ensures Peek(s).lexeme <= SkipWhitespace(s)
  {
  }

  class Lexer {
    const input: string
    var remaining: string

    /** What is left to scan is always a suffix of the input. */
    predicate Valid()
      reads this
    {
      IsSuffix(remaining, input)
    }

    constructor (input: string)
      ensures Valid()
      ensures this.input == input && remaining == input
    {
      this.input := input;
      remaining := input;
    }

    /**
     * Returns the next non-whitespace token without consuming it. The only input consumed is
     * the leading whitespace run.
     */
    method GetNextToken() returns (t: Token)
      requires Valid()
      modifies this
      ensures Valid()
      ensures remaining == SkipWhitespace(old(remaining))
      ensures t == Match(remaining) && t.kind != Whitespace
      ensures t.lexeme <= remaining
    {
      ghost var start := remaining;
      t := Token(LexicalError, "");
      var again := true;
      while again
        invariant Valid()
        invariant again ==> SkipWhitespace(remaining) == SkipWhitespace(start)
        invariant !again ==> remaining == SkipWhitespace(start) && t == Match(remaining) && t.kind != Whitespace
        decreases |remaining| + (if again then 1 else 0)
      {
        t := Match(remaining);
        MatchWhitespace(remaining);
        SkipWhitespaceIdempotent(remaining);
        if t.kind == Whitespace {
          RemoveToken(t);
        }
        again := t.kind == Whitespace;
      }
    }

    /** As `GetNextToken`, also reporting whether the token is not a lexical error. */
    method TryGetNextToken() returns (t: Token, ok: bool)
      requires Valid()
      modifies this
      ensures Valid()
      ensures remaining == SkipWhitespace(old(remaining))
      ensures t == Match(remaining) && t.kind != Whitespace
      ensures t.lexeme <= remaining
      ensures ok <==> t.kind != LexicalError
    {
      t := GetNextToken();
      ok := t.kind != LexicalError;
    }

    /** Drops exactly the token's lexeme length from the front of the remaining input. */
    method RemoveToken(t: Token)
      requires Valid()
      requires |t.lexeme| <= |remaining|
      modifies this
      ensures Valid()
      ensures remaining == old(remaining)[|t.lexeme|..]
    {
      SuffixOfDrop(remaining, |t.lexeme|);
      SuffixTransitive(remaining[|t.lexeme|..], remaining, input);
      remaining := remaining[|t.lexeme|..];
    }
  }
}
