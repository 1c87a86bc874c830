/**
 The byte lexer of the server-browser filter language (internal/backend/filter.go).

 `LexToken` and `Scan` say what the lexer computes; class `Lexer` is the lexer itself,
 whose methods move `pos` and `start`.
 */
module FilterLexer {
  import opened GoLib

  datatype TokenKind =
    | EOF | Number | Str | Ident | LParen | RParen
    | Eq | Ne | Lt | Gt | Le | Ge | And | Or | Amp | Like

  datatype Token = Token(kind: TokenKind, val: string, num: int)

  predicate IsIdentChar(c: char) {
    IsLetter(c) || IsDigit(c) || c == '_'
  }

  function KeywordOrIdent(val: string): Token {
    var lower := ToLower(val);
    if lower == "and" then Token(And, lower, 0)
    else if lower == "or" then Token(Or, lower, 0)
    else if lower == "like" then Token(Like, "LIKE", 0)
    else Token(Ident, val, 0)
  }

  /** The identifier or keyword that starts at `q`, and where it ends. */
  function LexIdent(s: string, q: nat): (r: (Token, nat))
    requires q <= |s|
    ensures q <= r.1 <= |s|
  {
    var e := SpanEnd(s, q, IsIdentChar);
    (KeywordOrIdent(s[q..e]), e)
  }

  /** The number that starts at `q`; None when it does not fit 64 bits. */
  function LexNumber(s: string, q: nat, negative: bool): (r: Option<(Token, nat)>)
    requires q < |s|
    ensures r.Some? ==> q <= r.value.1 <= |s|
  {
    var e := SpanEnd(s, if negative then q + 1 else q, IsDigit);
    match ParseInt64(s[q..e])
    case Some(n) => Some((Token(Number, s[q..e], n), e))
    case None => None
  }

  /** The quoted string that starts at `q`; None when it is not terminated. */
  function LexQuoted(s: string, q: nat, quote: char): (r: Option<(Token, nat)>)
    requires q < |s|
    ensures r.Some? ==> q < r.value.1 <= |s|
  {
    var e := IndexFrom(s, q + 1, quote);
    if e == |s| then None else Some((Token(Str, s[q + 1..e], 0), e + 1))
  }

  predicate NextIs(s: string, q: nat, c: char) {
    q + 1 < |s| && s[q + 1] == c
  }

  /** The token whose text starts exactly at `q`, and where it ends; None for a lexical error. */
  function LexAt(s: string, q: nat): (r: Option<(Token, nat)>)
    requires q < |s|
    ensures r.Some? ==> r.value.0.kind != EOF && q < r.value.1 <= |s|
  {
    var ch := s[q];
    if ch == '(' then Some((Token(LParen, "(", 0), q + 1))
    else if ch == ')' then Some((Token(RParen, ")", 0), q + 1))
    else if ch == '&' then Some((Token(Amp, "&", 0), q + 1))
    else if ch == '=' then Some((Token(Eq, "=", 0), q + 1))
    else if ch == '!' then
      if NextIs(s, q, '=') then Some((Token(Ne, "!=", 0), q + 2)) else None
    else if ch == '<' then
      if NextIs(s, q, '=') then Some((Token(Le, "<=", 0), q + 2)) else Some((Token(Lt, "<", 0), q + 1))
    else if ch == '>' then
      if NextIs(s, q, '=') then Some((Token(Ge, ">=", 0), q + 2)) else Some((Token(Gt, ">", 0), q + 1))
    else if ch == '\'' || ch == '"' then LexQuoted(s, q, ch)
    else if ch == '-' && q + 1 < |s| && IsDigit(s[q + 1]) then LexNumber(s, q, true)
    else if IsDigit(ch) then LexNumber(s, q, false)
    else if IsLetter(ch) || ch == '_' then Some(LexIdent(s, q))
    else None
  }

  /** The token after position `p`, white space skipped, and where it ends. */
  function LexToken(s: string, p: nat): (r: Option<(Token, nat)>)
    requires p <= |s|
    ensures r.Some? && r.value.0.kind != EOF ==> p < r.value.1
    ensures r.Some? ==> r.value.1 <= |s|
  {
    var q := SpanEnd(s, p, IsSpace);
    if q == |s| then Some((Token(EOF, "", 0), q)) else LexAt(s, q)
  }

  /**
   All tokens from position `p` on. The list ends with the EOF token, or just before the
   first lexical error.
   */
  function Scan(s: string, p: nat): (ts: seq<Token>)
    requires p <= |s|
    ensures |ts| <= |s| - p + 1
    ensures forall i :: 0 <= i < |ts| - 1 ==> ts[i].kind != EOF
    decreases |s| - p
  {
    match LexToken(s, p)
    case None => []
    case Some((t, q)) => if t.kind == EOF then [t] else [t] + Scan(s, q)
  }

  class Lexer {
    const input: string
    var pos: nat
    var start: nat
    ghost var calls: nat  // how often Next has run

    constructor (input: string)
      ensures this.input == input && pos == 0 && start == 0 && calls == 0
    {
      this.input := input;
      pos, start, calls := 0, 0, 0;
    }

    ghost predicate Valid()
      reads this
    {
      pos <= |input| && start <= |input|
    }

    method SkipSpace()
      requires Valid()
      modifies `pos
      ensures Valid() && pos == SpanEnd(input, old(pos), IsSpace)
    {
      while pos < |input| && IsSpace(input[pos])
        invariant pos <= |input|
        invariant SpanEnd(input, pos, IsSpace) == SpanEnd(input, old(pos), IsSpace)
      {
        pos := pos + 1;
      }
    }

    method ReadQuoted(quote: char) returns (r: Option<Token>)
      requires Valid() && pos < |input|
      modifies `pos
      ensures Valid()
      ensures match LexQuoted(input, old(pos), quote)
              case Some((t, e)) => r == Some(t) && pos == e
              case None => r == None
    {
      pos := pos + 1;
      var from := pos;
      while pos < |input| && input[pos] != quote
        invariant from <= pos <= |input|
        invariant IndexFrom(input, pos, quote) == IndexFrom(input, from, quote)
      {
        pos := pos + 1;
      }
      if pos >= |input| {
        return None;
      }
      var val := input[from..pos];
      pos := pos + 1;
      return Some(Token(Str, val, 0));
    }

    method ReadNumber(negative: bool) returns (r: Option<Token>)
      requires Valid() && pos < |input|
      modifies `pos
      ensures Valid()
      ensures match LexNumber(input, old(pos), negative)
              case Some((t, e)) => r == Some(t) && pos == e
              case None => r == None
    {
      var from := pos;
      if negative {
        pos := pos + 1;
      }
      ghost var digits := pos;
      while pos < |input| && IsDigit(input[pos])
        invariant digits <= pos <= |input|
        invariant SpanEnd(input, pos, IsDigit) == SpanEnd(input, digits, IsDigit)
      {
        pos := pos + 1;
      }
      var raw := input[from..pos];
      var n := ParseInt64(raw);
      if n == None {
        return None;
      }
      return Some(Token(Number, raw, n.value));
    }

    method ReadIdent() returns (r: Option<Token>)
      requires Valid()
      modifies `pos
      ensures Valid()
      ensures r == Some(LexIdent(input, old(pos)).0) && pos == LexIdent(input, old(pos)).1
    {
      var from := pos;
      while pos < |input|
        invariant from <= pos <= |input|
        invariant SpanEnd(input, pos, IsIdentChar) == SpanEnd(input, from, IsIdentChar)
      {
        var ch := input[pos];
        if IsLetter(ch) || IsDigit(ch) || ch == '_' {
          pos := pos + 1;
          continue;
        }
        break;
      }
      return Some(KeywordOrIdent(input[from..pos]));
    }

    method Next() returns (r: Option<Token>)
      requires Valid()
      modifies this
      ensures Valid() && start == old(pos) && calls == old(calls) + 1
      ensures match LexToken(input, old(pos))
              case Some((t, e)) => r == Some(t) && pos == e
              case None => r == None
    {
      calls := calls + 1;
      start := pos;
      SkipSpace();
      if pos >= |input| {
        return Some(Token(EOF, "", 0));
      }
      var ch := input[pos];
      if ch == '(' {
        pos := pos + 1;
        return Some(Token(LParen, "(", 0));
      } else if ch == ')' {
        pos := pos + 1;
        return Some(Token(RParen, ")", 0));
      } else if ch == '&' {
        pos := pos + 1;
        return Some(Token(Amp, "&", 0));
      } else if ch == '=' {
        pos := pos + 1;
        return Some(Token(Eq, "=", 0));
      } else if ch == '!' {
        if pos + 1 < |input| && input[pos + 1] == '=' {
          pos := pos + 2;
          return Some(Token(Ne, "!=", 0));
        }
        return None;
      } else if ch == '<' {
        if pos + 1 < |input| && input[pos + 1] == '=' {
          pos := pos + 2;
          return Some(Token(Le, "<=", 0));
        }
        pos := pos + 1;
        return Some(Token(Lt, "<", 0));
      } else if ch == '>' {
        if pos + 1 < |input| && input[pos + 1] == '=' {
          pos := pos + 2;
          return Some(Token(Ge, ">=", 0));
        }
        pos := pos + 1;
        return Some(Token(Gt, ">", 0));
      } else if ch == '\'' {
        r := ReadQuoted('\'');
        return;
      } else if ch == '"' {
        r := ReadQuoted('"');
        return;
      }
      if ch == '-' && pos + 1 < |input| && IsDigit(input[pos + 1]) {
        r := ReadNumber(true);
        return;
      }
      if IsDigit(ch) {
        r := ReadNumber(false);
        return;
      }
      if IsLetter(ch) || ch == '_' {
        r := ReadIdent();
        return;
      }
      return None;
    }

    method Mark() returns (m: nat)
      ensures m == start
    {
      return start;
    }

    method Reset(m: nat)
      modifies `pos
      ensures pos == m
    {
      pos := m;
    }
  }
}
