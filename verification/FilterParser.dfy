/**
 The recursive-descent filter parser (internal/backend/filter.go).

 The functions say what each parsing procedure returns for the token list that starts at
 the current token. Class `CompileParser` is the parser itself: it lexes on demand,
 speculates on `(` and backtracks by resetting the lexer.
 */
module FilterParser {
  import opened GoLib
  import opened FilterLexer
  import opened FilterTree

  datatype Parsed<+T> = Ok(tree: T, rest: seq<Token>) | Err

  function Primary(ts: seq<Token>): (r: Parsed<ValueExpr>)
    requires ts != []
    ensures r.Ok? ==> 0 < |r.rest| < |ts|
    decreases |ts|, 0
  {
    var t := ts[0];
    if |ts| == 1 then Err
    else if t.kind == Number then Ok(NumberExpr(t.num, t.val), ts[1..])
    else if t.kind == Str then Ok(StringExpr(t.val), ts[1..])
    else if t.kind == Ident then Ok(FieldExpr(t.val), ts[1..])
    else if t.kind == LParen then
      match Bitwise(ts[1..])
      case Ok(inner, rest) =>
        if rest[0].kind == RParen && |rest| > 1 then Ok(GroupedValue(inner), rest[1..]) else Err
      case Err => Err
    else Err
  }

  function Unary(ts: seq<Token>): (r: Parsed<ValueExpr>)
    requires ts != []
    ensures r.Ok? ==> 0 < |r.rest| < |ts|
    decreases |ts|, 1
  {
    if ts[0].kind == Number && ts[0].val != "" && ts[0].val[0] == '-' then
      if |ts| == 1 then Err else Ok(NumberExpr(ts[0].num, ts[0].val), ts[1..])
    else Primary(ts)
  }

  function BitwiseTail(left: ValueExpr, ts: seq<Token>): (r: Parsed<ValueExpr>)
    requires ts != []
    ensures r.Ok? ==> 0 < |r.rest| <= |ts|
    decreases |ts|, 2
  {
    if ts[0].kind != Amp then Ok(left, ts)
    else if |ts| == 1 then Err
    else
      match Unary(ts[1..])
      case Ok(right, rest) => BitwiseTail(BitwiseAnd(left, right), rest)
      case Err => Err
  }

  function Bitwise(ts: seq<Token>): (r: Parsed<ValueExpr>)
    requires ts != []
    ensures r.Ok? ==> 0 < |r.rest| < |ts|
    decreases |ts|, 3
  {
    match Unary(ts)
    case Ok(left, rest) => BitwiseTail(left, rest)
    case Err => Err
  }

  function Comparison(ts: seq<Token>): (r: Parsed<BoolExpr>)
    requires ts != []
    ensures r.Ok? ==> 0 < |r.rest| < |ts|
  {
    match Bitwise(ts)
    case Ok(l, rest) =>
      if !IsCompareToken(rest[0].kind) || |rest| == 1 then Err
      else (
        match Bitwise(rest[1..])
        case Ok(r, rest') => Ok(ComparisonExpr(rest[0].kind, l, r), rest')
        case Err => Err
      )
    case Err => Err
  }

  /** What the speculation on `(` decides: a comparison, a boolean group, or a lexical error. */
  datatype Guess = Compare | Group | Fail

  function Speculate(ts: seq<Token>): (guess: Guess)
    requires ts != []
    ensures guess != Fail ==> |ts| > 1
  {
    if |ts| == 1 then Fail
    else
      match Bitwise(ts[1..])
      case Ok(_, rest) =>
        if rest[0].kind != RParen then Group
        else if |rest| == 1 then Fail
        else if IsCompareToken(rest[1].kind) then Compare
        else Group
      case Err => Group
  }

  function Factor(ts: seq<Token>): (r: Parsed<BoolExpr>)
    requires ts != []
    ensures r.Ok? ==> 0 < |r.rest| < |ts|
    decreases |ts|, 4
  {
    if ts[0].kind != LParen then Comparison(ts)
    else
      match Speculate(ts)
      case Compare => Comparison(ts)
      case Fail => Err
      case Group =>
        match Disjunction(ts[1..])
        case Ok(inner, rest) =>
          if rest[0].kind == RParen && |rest| > 1 then Ok(inner, rest[1..]) else Err
        case Err => Err
  }

  function ConjunctionTail(left: BoolExpr, ts: seq<Token>): (r: Parsed<BoolExpr>)
    requires ts != []
    ensures r.Ok? ==> 0 < |r.rest| <= |ts|
    decreases |ts|, 5
  {
    if ts[0].kind != And then Ok(left, ts)
    else if |ts| == 1 then Err
    else
      match Factor(ts[1..])
      case Ok(right, rest) => ConjunctionTail(AndExpr(left, right), rest)
      case Err => Err
  }

  function Conjunction(ts: seq<Token>): (r: Parsed<BoolExpr>)
    requires ts != []
    ensures r.Ok? ==> 0 < |r.rest| < |ts|
    decreases |ts|, 6
  {
    match Factor(ts)
    case Ok(left, rest) => ConjunctionTail(left, rest)
    case Err => Err
  }

  function DisjunctionTail(left: BoolExpr, ts: seq<Token>): (r: Parsed<BoolExpr>)
    requires ts != []
    ensures r.Ok? ==> 0 < |r.rest| <= |ts|
    decreases |ts|, 7
  {
    if ts[0].kind != Or then Ok(left, ts)
    else if |ts| == 1 then Err
    else
      match Conjunction(ts[1..])
      case Ok(right, rest) => DisjunctionTail(OrExpr(left, right), rest)
      case Err => Err
  }

  function Disjunction(ts: seq<Token>): (r: Parsed<BoolExpr>)
    requires ts != []
    ensures r.Ok? ==> 0 < |r.rest| < |ts|
    decreases |ts|, 8
  {
    match Conjunction(ts)
    case Ok(left, rest) => DisjunctionTail(left, rest)
    case Err => Err
  }

  /** A whole token list: it must be used up to its EOF token. */
  function ParseTokens(ts: seq<Token>): Option<BoolExpr> {
    if ts == [] then None
    else
      match Disjunction(ts)
      case Ok(root, rest) => if rest[0].kind == EOF then Some(root) else None
      case Err => None
  }

  /** The tree that a filter compiles to; None when it is rejected. */
  function Compiled(filter: string): Option<BoolExpr> {
    var text := TrimSpace(filter);
    if text == "" then Some(TrueExpr) else ParseTokens(Scan(text, 0))
  }

  // ---------- cost accounting ----------

  /** What consuming `k` tokens may cost when every speculation may read up to `n` tokens ahead. */
  ghost function Budget(n: nat, k: nat): nat {
    if k == 0 then 0 else Budget(n, k - 1) + 2 * n + 6
  }

  lemma {:induction false} BudgetMonotone(n: nat, a: nat, b: nat)
    requires a <= b
    ensures Budget(n, a) <= Budget(n, b)
    decreases b
  {
    if a < b {
      BudgetMonotone(n, a, b - 1);
    }
  }

  lemma {:induction false} BudgetClosedForm(n: nat, k: nat)
    ensures Budget(n, k) == (2 * n + 6) * k
  {
    if k > 0 {
      BudgetClosedForm(n, k - 1);
    }
  }

  /** The first token of a comparison pays for it and for a speculation before it. */
  lemma ComparisonBudget(n: nat, ts: seq<Token>)
    requires ts != []
    ensures 2 * n + 6 <= Budget(n, |ts|)
    ensures Comparison(ts).Ok? ==> Budget(n, |Comparison(ts).rest|) + 2 * n + 6 <= Budget(n, |ts|)
  {
    if Comparison(ts).Ok? {
      BudgetMonotone(n, |Comparison(ts).rest|, |ts| - 1);
    }
  }

  // ---------- the parser ----------

  class CompileParser {
    const lex: Lexer
    var cur: Token

    constructor (lex: Lexer)
      ensures this.lex == lex
    {
      this.lex := lex;
      cur := Token(EOF, "", 0);
    }

    /** The current token is the one that starts at `lex.start` and ends at `lex.pos`. */
    ghost predicate Valid()
      reads this, lex
    {
      lex.Valid() && LexToken(lex.input, lex.start) == Some((cur, lex.pos))
    }

    /** The tokens not yet consumed, the current one first. */
    ghost function Rest(): (ts: seq<Token>)
      requires Valid()
      reads this, lex
      ensures ts != [] && ts[0] == cur
    {
      Scan(lex.input, lex.start)
    }

    /** Moves to the next token; also what the source calls retokenize. */
    method Advance() returns (ok: bool)
      requires lex.Valid()
      modifies this`cur, lex
      ensures lex.Valid() && lex.calls == old(lex.calls) + 1
      ensures ok <==> LexToken(lex.input, old(lex.pos)).Some?
      ensures ok ==> Valid() && lex.start == old(lex.pos)
      ensures old(Valid() && cur.kind != EOF) ==>
                ok == (old(|Rest()|) > 1) && (ok ==> Rest() == old(Rest())[1..])
    {
      assert Valid() && cur.kind != EOF ==> Rest() == [cur] + Scan(lex.input, lex.pos);
      assert LexToken(lex.input, lex.pos).None? ==> Scan(lex.input, lex.pos) == [];
      var tok := lex.Next();
      if tok == None {
        return false;
      }
      cur := tok.value;
      return true;
    }

    method Expect(kind: TokenKind) returns (ok: bool)
      requires Valid() && kind != EOF
      modifies this`cur, lex
      ensures lex.Valid() && lex.calls <= old(lex.calls) + 1
      ensures ok == (old(cur).kind == kind && old(|Rest()|) > 1)
      ensures ok ==> Valid() && Rest() == old(Rest())[1..] && lex.calls == old(lex.calls) + 1
    {
      if cur.kind != kind {
        return false;
      }
      ok := Advance();
    }

    /** A value parser that started on `ts` did what `spec` says, with one lexer call per token consumed. */
    ghost predicate ValueDone(spec: Parsed<ValueExpr>, r: Option<ValueExpr>, ts: seq<Token>, calls: nat)
      reads this, lex
    {
      && lex.Valid()
      && (r.Some? ==> Valid() && spec == Ok(r.value, Rest()) && lex.calls == calls + |ts| - |Rest()|)
      && (r.None? ==> spec.Err? && lex.calls <= calls + |ts|)
    }

    method ParsePrimary() returns (r: Option<ValueExpr>)
      requires Valid()
      modifies this`cur, lex
      ensures ValueDone(Primary(old(Rest())), r, old(Rest()), old(lex.calls))
      decreases |Rest()|, 1
    {
      hide LexToken;
      if cur.kind == LParen {
        r := ParseGrouped();
      } else if cur.kind in {Number, Str, Ident} {
        var v := if cur.kind == Number then NumberExpr(cur.num, cur.val)
                 else if cur.kind == Str then StringExpr(cur.val)
                 else FieldExpr(cur.val);
        var ok := Advance();
        return if ok then Some(v) else None;
      } else {
        return None;
      }
    }

    /** The `(` case of ParsePrimary. */
    method ParseGrouped() returns (r: Option<ValueExpr>)
      requires Valid() && cur.kind == LParen
      modifies this`cur, lex
      ensures ValueDone(Primary(old(Rest())), r, old(Rest()), old(lex.calls))
      decreases |Rest()|, 0
    {
      hide LexToken;
      var ok := Advance();
      if !ok {
        return None;
      }
      var inner := ParseBitwise();
      if inner == None {
        return None;
      }
      ok := Expect(RParen);
      return if ok then Some(GroupedValue(inner.value)) else None;
    }

    method ParseUnary() returns (r: Option<ValueExpr>)
      requires Valid()
      modifies this`cur, lex
      ensures ValueDone(Unary(old(Rest())), r, old(Rest()), old(lex.calls))
      decreases |Rest()|, 2
    {
      hide LexToken;
      if cur.kind == Number && cur.val != "" && cur.val[0] == '-' {
        var v := NumberExpr(cur.num, cur.val);
        var ok := Advance();
        return if ok then Some(v) else None;
      }
      r := ParsePrimary();
    }

    method ParseBitwise() returns (r: Option<ValueExpr>)
      requires Valid()
      modifies this`cur, lex
      ensures ValueDone(Bitwise(old(Rest())), r, old(Rest()), old(lex.calls))
      decreases |Rest()|, 3
    {
      hide LexToken;
      r := ParseUnary();
      if r == None {
        return None;
      }
      var left := r.value;
      while cur.kind == Amp
        invariant Valid()
        invariant Bitwise(old(Rest())) == BitwiseTail(left, Rest())
        invariant 0 < |Rest()| < old(|Rest()|)
        invariant lex.calls == old(lex.calls) + old(|Rest()|) - |Rest()|
        decreases |Rest()|
      {
        var ok := Advance();
        if !ok {
          return None;
        }
        var right := ParseUnary();
        if right == None {
          return None;
        }
        left := BitwiseAnd(left, right.value);
      }
      return Some(left);
    }

    /**
     A boolean parser that started on `ts` did what `spec` says. Lexer calls are paid for out
     of the budget of the tokens still to come.
     */
    ghost predicate BoolDone(spec: Parsed<BoolExpr>, r: Option<BoolExpr>, ts: seq<Token>, calls: int, n: nat)
      reads this, lex
    {
      && lex.Valid()
      && (r.Some? ==>
            && Valid() && spec == Ok(r.value, Rest())
            && lex.calls + Budget(n, |Rest()|) <= calls + Budget(n, |ts|))
      && (r.None? ==> spec.Err? && lex.calls <= calls + Budget(n, |ts|))
    }

    method ParseComparison() returns (r: Option<BoolExpr>)
      requires Valid()
      modifies this`cur, lex
      ensures lex.Valid()
      ensures lex.calls <= old(lex.calls) + old(|Rest()|)
      ensures r.Some? ==> Valid() && Comparison(old(Rest())) == Ok(r.value, Rest())
      ensures r.None? ==> Comparison(old(Rest())).Err?
    {
      hide LexToken;
      var left := ParseBitwise();
      if left == None {
        return None;
      }
      if !IsCompareToken(cur.kind) {
        return None;
      }
      var op := cur.kind;
      var ok := Advance();
      if !ok {
        return None;
      }
      var right := ParseBitwise();
      if right == None {
        return None;
      }
      return Some(ComparisonExpr(op, left.value, right.value));
    }

    /** Goes back to the token that starts at `mark`: cur, pos and start become what they were there. */
    method Backtrack(mark: nat, ghost tok: Token, ghost end: nat)
      requires lex.Valid() && mark <= |lex.input|
      requires LexToken(lex.input, mark) == Some((tok, end))
      modifies this`cur, lex
      ensures Valid() && cur == tok && lex.pos == end && lex.start == mark
      ensures lex.calls == old(lex.calls) + 1
    {
      lex.Reset(mark);
      var _ := Advance();
    }

    /** Reads past `(`, one value and `)` to see whether a comparison operator follows. */
    method SpeculateValue() returns (guess: Guess)
      requires Valid() && cur.kind == LParen
      modifies this`cur, lex
      ensures lex.Valid() && guess == Speculate(old(Rest()))
      ensures lex.calls <= old(lex.calls) + old(|Rest()|) + 1
    {
      hide LexToken;
      var ok := Advance();
      if !ok {
        return Fail;
      }
      var v := ParseBitwise();
      if v == None || cur.kind != RParen {
        return Group;
      }
      ok := Advance();
      if !ok {
        return Fail;
      }
      return if IsCompareToken(cur.kind) then Compare else Group;
    }

    method ParseFactor(ghost n: nat) returns (r: Option<BoolExpr>)
      requires Valid() && |Rest()| <= n
      modifies this`cur, lex
      ensures BoolDone(Factor(old(Rest())), r, old(Rest()), old(lex.calls), n)
      decreases |Rest()|, 4
    {
      hide LexToken;
      ghost var ts, tok, end := Rest(), cur, lex.pos;
      ComparisonBudget(n, ts);
      if cur.kind != LParen {
        r := ParseComparison();
        return;
      }
      var mark := lex.Mark();
      var guess := SpeculateValue();
      if guess == Fail {
        return None;
      }
      Backtrack(mark, tok, end);
      assert Rest() == ts;
      if guess == Compare {
        r := ParseComparison();
        return;
      }
      r := ParseGroup(n);
    }

    /** The boolean group that a factor falls back to; it leaves `n + 2` lexer calls unspent. */
    method ParseGroup(ghost n: nat) returns (r: Option<BoolExpr>)
      requires Valid() && |Rest()| <= n && cur.kind == LParen && Speculate(Rest()) == Group
      modifies this`cur, lex
      ensures BoolDone(Factor(old(Rest())), r, old(Rest()), old(lex.calls) - n - 2, n)
      decreases |Rest()|, 3
    {
      hide LexToken;
      var ok := Advance();
      r := ParseOr(n);
      if r == None {
        return None;
      }
      ok := Expect(RParen);
      return if ok then r else None;
    }

    method ParseAnd(ghost n: nat) returns (r: Option<BoolExpr>)
      requires Valid() && |Rest()| <= n
      modifies this`cur, lex
      ensures BoolDone(Conjunction(old(Rest())), r, old(Rest()), old(lex.calls), n)
      decreases |Rest()|, 5
    {
      hide LexToken;
      hide Factor;
      r := ParseFactor(n);
      if r == None {
        return None;
      }
      var left := r.value;
      while cur.kind == And
        invariant Valid() && |Rest()| < old(|Rest()|)
        invariant Conjunction(old(Rest())) == ConjunctionTail(left, Rest())
        invariant lex.calls + Budget(n, |Rest()|) <= old(lex.calls) + Budget(n, old(|Rest()|))
        decreases |Rest()|
      {
        ghost var ts := Rest();
        var ok := Advance();
        if !ok {
          assert ConjunctionTail(left, ts).Err?;
          return None;
        }
        assert Rest() == ts[1..];
        var right := ParseFactor(n);
        if right == None {
          assert ConjunctionTail(left, ts).Err?;
          return None;
        }
        left := AndExpr(left, right.value);
      }
      return Some(left);
    }

    method ParseOr(ghost n: nat) returns (r: Option<BoolExpr>)
      requires Valid() && |Rest()| <= n
      modifies this`cur, lex
      ensures BoolDone(Disjunction(old(Rest())), r, old(Rest()), old(lex.calls), n)
      decreases |Rest()|, 6
    {
      hide LexToken;
      hide Conjunction;
      r := ParseAnd(n);
      if r == None {
        return None;
      }
      var left := r.value;
      while cur.kind == Or
        invariant Valid() && |Rest()| < old(|Rest()|)
        invariant Disjunction(old(Rest())) == DisjunctionTail(left, Rest())
        invariant lex.calls + Budget(n, |Rest()|) <= old(lex.calls) + Budget(n, old(|Rest()|))
        decreases |Rest()|
      {
        ghost var ts := Rest();
        var ok := Advance();
        if !ok {
          assert DisjunctionTail(left, ts).Err?;
          return None;
        }
        assert Rest() == ts[1..];
        var right := ParseAnd(n);
        if right == None {
          assert DisjunctionTail(left, ts).Err?;
          return None;
        }
        left := OrExpr(left, right.value);
      }
      return Some(left);
    }
  }

  lemma {:induction false} TrimShortens(s: string)
    ensures |TrimLeft(s)| <= |s| && |TrimRight(s)| <= |s|
    decreases |s|
  {
    if LeadingSpace(s) > 0 {
      TrimShortens(s[LeadingSpace(s)..]);
    }
    if TrailingSpace(s) > 0 {
      TrimShortens(s[..|s| - TrailingSpace(s)]);
    }
  }

  lemma QuadraticBound(filter: string, n: nat, calls: nat)
    requires n <= |TrimSpace(filter)| + 1
    requires calls <= 1 + Budget(n, n)
    ensures calls <= (2 * |filter| + 8) * (|filter| + 1) + 1
  {
    TrimShortens(filter);
    TrimShortens(TrimLeft(filter));
    BudgetClosedForm(n, n);
    MulMonotone(2 * n + 6, 2 * |filter| + 8, n, |filter| + 1);
  }

  lemma MulMonotone(a: nat, a': nat, b: nat, b': nat)
    requires a <= a' && b <= b'
    ensures a * b <= a' * b'
  {
    assert a' * b' == a * b + a * (b' - b) + (a' - a) * b';
  }

  /**
   Compiling a filter. The ghost result counts the calls of the lexer's Next: even with all
   the backtracking there are no more than quadratically many in the length of the filter.
   */
  method CompileFilter(filter: string) returns (r: Option<BoolExpr>, ghost calls: nat)
    ensures r == Compiled(filter)
    ensures calls <= (2 * |filter| + 8) * (|filter| + 1) + 1
  {
    var text := TrimSpace(filter);
    if text == "" {
      return Some(TrueExpr), 0;
    }
    var lex := new Lexer(text);
    var p := new CompileParser(lex);
    var ok := p.Advance();
    ghost var n := if ok then |p.Rest()| else 0;
    QuadraticBound(filter, 0, 1);
    if !ok {
      return None, 1;
    }
    var root := p.ParseOr(n);
    calls := lex.calls;
    QuadraticBound(filter, n, calls);
    if root == None || p.cur.kind != EOF {
      return None, calls;
    }
    return root, calls;
  }
}
