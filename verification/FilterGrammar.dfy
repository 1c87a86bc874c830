/**
 The grammar of filters, stated independently of the parser, and the exact relation between
 the two: which token lists the backtracking parser accepts and what tree it builds.
 */
module FilterGrammar {
  import opened GoLib
  import opened FilterLexer
  import opened FilterTree
  import opened FilterParser

  // ---------- derivations ----------

  datatype OrTree = OneAnd(only: AndTree) | OrThen(left: OrTree, last: AndTree)
  datatype AndTree = OneFactor(only: FactorTree) | AndThen(left: AndTree, last: FactorTree)
  datatype FactorTree = Compared(op: TokenKind, l: ValueExpr, r: ValueExpr) | Paren(inner: OrTree)

  function Punctuation(kind: TokenKind): Token {
    match kind
    case LParen => Token(kind, "(", 0)
    case RParen => Token(kind, ")", 0)
    case Eq => Token(kind, "=", 0)
    case Ne => Token(kind, "!=", 0)
    case Lt => Token(kind, "<", 0)
    case Gt => Token(kind, ">", 0)
    case Le => Token(kind, "<=", 0)
    case Ge => Token(kind, ">=", 0)
    case And => Token(kind, "and", 0)
    case Or => Token(kind, "or", 0)
    case Amp => Token(kind, "&", 0)
    case Like => Token(kind, "LIKE", 0)
    case _ => Token(kind, "", 0)
  }

  function ValueYield(v: ValueExpr): (ts: seq<Token>)
    ensures ts != []
  {
    match v
    case NumberExpr(num, raw) => [Token(Number, raw, num)]
    case StringExpr(str) => [Token(Str, str, 0)]
    case FieldExpr(name) => [Token(Ident, name, 0)]
    case BitwiseAnd(l, r) => ValueYield(l) + [Punctuation(Amp)] + ValueYield(r)
    case GroupedValue(inner) => [Punctuation(LParen)] + ValueYield(inner) + [Punctuation(RParen)]
  }

  function FactorYield(f: FactorTree): (ts: seq<Token>)
    ensures ts != []
  {
    match f
    case Compared(op, l, r) => ValueYield(l) + [Punctuation(op)] + ValueYield(r)
    case Paren(inner) => [Punctuation(LParen)] + OrYield(inner) + [Punctuation(RParen)]
  }

  function AndYield(c: AndTree): (ts: seq<Token>)
    ensures ts != []
  {
    match c
    case OneFactor(f) => FactorYield(f)
    case AndThen(left, f) => AndYield(left) + [Punctuation(And)] + FactorYield(f)
  }

  /** The token list that a derivation derives. */
  function OrYield(o: OrTree): (ts: seq<Token>)
    ensures ts != []
  {
    match o
    case OneAnd(c) => AndYield(c)
    case OrThen(left, c) => OrYield(left) + [Punctuation(Or)] + AndYield(c)
  }

  function FactorMeaning(f: FactorTree): BoolExpr {
    match f
    case Compared(op, l, r) => ComparisonExpr(op, l, r)
    case Paren(inner) => OrMeaning(inner)
  }

  function AndMeaning(c: AndTree): BoolExpr {
    match c
    case OneFactor(f) => FactorMeaning(f)
    case AndThen(left, f) => AndExpr(AndMeaning(left), FactorMeaning(f))
  }

  /** The tree that a derivation stands for: parentheses dropped, chains nested to the left. */
  function OrMeaning(o: OrTree): BoolExpr {
    match o
    case OneAnd(c) => AndMeaning(c)
    case OrThen(left, c) => OrExpr(OrMeaning(left), AndMeaning(c))
  }

  /** Chains of `&` nest to the left. */
  predicate ValueOk(v: ValueExpr) {
    match v
    case BitwiseAnd(l, r) => ValueOk(l) && ValueOk(r) && !r.BitwiseAnd?
    case GroupedValue(inner) => ValueOk(inner)
    case _ => true
  }

  predicate FactorOk(f: FactorTree) {
    match f
    case Compared(op, l, r) => IsCompareToken(op) && ValueOk(l) && ValueOk(r)
    case Paren(inner) => OrOk(inner)
  }

  predicate AndOk(c: AndTree) {
    match c
    case OneFactor(f) => FactorOk(f)
    case AndThen(left, f) => AndOk(left) && FactorOk(f)
  }

  predicate OrOk(o: OrTree) {
    match o
    case OneAnd(c) => AndOk(c)
    case OrThen(left, c) => OrOk(left) && AndOk(c)
  }

  // ---------- the fragment the parser handles ----------

  predicate StartsWithParen(v: ValueExpr) {
    match v
    case BitwiseAnd(l, _) => StartsWithParen(l)
    case GroupedValue(_) => true
    case _ => false
  }

  /** A left operand that starts with `(` is exactly one group. */
  predicate LeftHandled(l: ValueExpr) {
    StartsWithParen(l) ==> l.GroupedValue?
  }

  predicate FactorHandled(f: FactorTree) {
    match f
    case Compared(_, l, _) => LeftHandled(l)
    case Paren(inner) => OrHandled(inner)
  }

  predicate AndHandled(c: AndTree) {
    match c
    case OneFactor(f) => FactorHandled(f)
    case AndThen(left, f) => AndHandled(left) && FactorHandled(f)
  }

  predicate OrHandled(o: OrTree) {
    match o
    case OneAnd(c) => AndHandled(c)
    case OrThen(left, c) => OrHandled(left) && AndHandled(c)
  }

  // ---------- what the parser does with a derivable token list ----------

  lemma GroupStep(ts: seq<Token>, inner: ValueExpr, rest: seq<Token>)
    requires |ts| > 1 && ts[0].kind == LParen && |rest| > 1 && rest[0].kind == RParen
    requires Bitwise(ts[1..]) == Ok(inner, rest)
    ensures Unary(ts) == Ok(GroupedValue(inner), rest[1..])
  {
  }

  lemma AmpStep(left: ValueExpr, ts: seq<Token>, right: ValueExpr, rest: seq<Token>)
    requires |ts| > 1 && ts[0].kind == Amp && Unary(ts[1..]) == Ok(right, rest)
    ensures BitwiseTail(left, ts) == BitwiseTail(BitwiseAnd(left, right), rest)
  {
  }

  lemma EndsTail(left: ValueExpr, ts: seq<Token>)
    requires ts != [] && ts[0].kind != Amp
    ensures BitwiseTail(left, ts) == Ok(left, ts)
  {
  }

  lemma LeafStep(v: ValueExpr, ts: seq<Token>)
    requires !v.BitwiseAnd? && !v.GroupedValue? && |ts| > 1 && [ts[0]] == ValueYield(v)
    ensures Unary(ts) == Ok(v, ts[1..])
  {
    assert ts[0] == ValueYield(v)[0];
  }

  lemma {:induction false} ParsesValue(v: ValueExpr, rest: seq<Token>)
    requires ValueOk(v) && rest != []
    ensures Bitwise(ValueYield(v) + rest) == BitwiseTail(v, rest)
    ensures !v.BitwiseAnd? ==> Unary(ValueYield(v) + rest) == Ok(v, rest)
  {
    hide Unary;
    hide BitwiseTail;
    var ts := ValueYield(v) + rest;
    if v.BitwiseAnd? {
      var rest' := [Punctuation(Amp)] + (ValueYield(v.right) + rest);
      ParsesValue(v.left, rest');
      ParsesValue(v.right, rest);
      assert ts == ValueYield(v.left) + rest';
      assert rest'[1..] == ValueYield(v.right) + rest;
      AmpStep(v.left, rest', v.right, rest);
    } else {
      if v.GroupedValue? {
        var rest' := [Punctuation(RParen)] + rest;
        ParsesValue(v.inner, rest');
        EndsTail(v.inner, rest');
        assert ts[1..] == ValueYield(v.inner) + rest';
        assert rest'[1..] == rest;
        GroupStep(ts, v.inner, rest');
      } else {
        assert ts[1..] == rest && [ts[0]] == ValueYield(v);
        LeafStep(v, ts);
      }
    }
  }

  lemma {:induction false} FirstToken(v: ValueExpr)
    ensures ValueYield(v)[0].kind == LParen <==> StartsWithParen(v)
  {
    match v
    case BitwiseAnd(l, _) => FirstToken(l);
    case _ =>
  }

  /** A value that starts with `(` but is no single group: what its first group is. */
  lemma {:induction false} FirstGroup(v: ValueExpr) returns (g: ValueExpr, tail: seq<Token>)
    requires ValueOk(v) && StartsWithParen(v) && v.BitwiseAnd?
    ensures ValueOk(g)
    ensures ValueYield(v) == [Punctuation(LParen)] + (ValueYield(g) + ([Punctuation(RParen), Punctuation(Amp)] + tail))
  {
    var y := ValueYield(v.right);
    if v.left.BitwiseAnd? {
      var tail';
      g, tail' := FirstGroup(v.left);
      tail := tail' + [Punctuation(Amp)] + y;
    } else {
      g, tail := v.left.inner, y;
    }
  }

  /** `(g)` with no comparison after it is taken for a boolean group. */
  lemma GuessesGroup(ts: seq<Token>, g: ValueExpr, more: seq<Token>)
    requires ValueOk(g) && more != [] && !IsCompareToken(more[0].kind)
    requires ts == [Punctuation(LParen)] + (ValueYield(g) + ([Punctuation(RParen)] + more))
    requires Disjunction(ValueYield(g) + ([Punctuation(RParen)] + more)).Err?
    ensures Factor(ts).Err?
  {
    var rest := [Punctuation(RParen)] + more;
    assert ts[1..] == ValueYield(g) + rest;
    ParsesValue(g, rest);
    EndsTail(g, rest);
    assert Speculate(ts) == Group;
  }

  /** Such a group then fails: a value followed by `)` is no boolean expression. */
  lemma {:induction false} ValueIsNoDisjunction(g: ValueExpr, more: seq<Token>)
    requires ValueOk(g) && more != [] && !IsCompareToken(more[0].kind)
    ensures Disjunction(ValueYield(g) + ([Punctuation(RParen)] + more)).Err?
    decreases |ValueYield(g)|
  {
    var rest := [Punctuation(RParen)] + more;
    var ts := ValueYield(g) + rest;
    FirstToken(g);
    assert ts[0] == ValueYield(g)[0];
    if g.GroupedValue? {
      assert ts == [Punctuation(LParen)] + (ValueYield(g.inner) + ([Punctuation(RParen)] + rest));
      ValueIsNoDisjunction(g.inner, rest);
      GuessesGroup(ts, g.inner, rest);
    } else if StartsWithParen(g) {
      var inner, tail := FirstGroup(g);
      var after := [Punctuation(Amp)] + (tail + rest);
      assert ts == [Punctuation(LParen)] + (ValueYield(inner) + ([Punctuation(RParen)] + after));
      ValueIsNoDisjunction(inner, after);
      GuessesGroup(ts, inner, after);
    } else {
      ParsesValue(g, rest);
      EndsTail(g, rest);
      assert Factor(ts) == Comparison(ts) == Err;
    }
    assert Factor(ts).Err?;
  }

  /** A boolean group is never read as a parenthesised value. */
  lemma {:induction false} DisjunctionIsNoValue(o: OrTree, rest: seq<Token>)
    requires OrOk(o) && rest != []
    ensures var v := Bitwise(OrYield(o) + rest); v.Ok? ==> v.rest[0].kind != RParen
    decreases o
  {
    match o
    case OneAnd(c) => ConjunctionIsNoValue(c, rest);
    case OrThen(left, c) =>
      var rest' := [Punctuation(Or)] + AndYield(c) + rest;
      assert OrYield(o) + rest == OrYield(left) + rest';
      DisjunctionIsNoValue(left, rest');
  }

  lemma {:induction false} ConjunctionIsNoValue(c: AndTree, rest: seq<Token>)
    requires AndOk(c) && rest != []
    ensures var v := Bitwise(AndYield(c) + rest); v.Ok? ==> v.rest[0].kind != RParen
    decreases c
  {
    match c
    case OneFactor(f) => FactorIsNoValue(f, rest);
    case AndThen(left, f) =>
      var rest' := [Punctuation(And)] + FactorYield(f) + rest;
      assert AndYield(c) + rest == AndYield(left) + rest';
      ConjunctionIsNoValue(left, rest');
  }

  lemma ParenSplits(inner: OrTree, rest: seq<Token>)
    ensures var ts := FactorYield(Paren(inner)) + rest;
            ts[0].kind == LParen && ts[1..] == OrYield(inner) + ([Punctuation(RParen)] + rest)
  {
    hide OrYield;
  }

  lemma NoGroupedValue(ts: seq<Token>)
    requires |ts| > 1 && ts[0].kind == LParen
    requires var v := Bitwise(ts[1..]); v.Ok? ==> v.rest[0].kind != RParen
    ensures Bitwise(ts).Err?
  {
    hide BitwiseTail;
    assert Unary(ts).Err? by {
      hide Bitwise;
    }
  }

  lemma {:induction false} FactorIsNoValue(f: FactorTree, rest: seq<Token>)
    requires FactorOk(f) && rest != []
    ensures var v := Bitwise(FactorYield(f) + rest); v.Ok? ==> v.rest[0].kind != RParen
    decreases f
  {
    hide ValueYield;
    hide OrYield;
    match f
    case Compared(op, l, r) =>
      var rest' := ComparedSplits(op, l, r, rest);
      ParsesValue(l, rest');
      EndsTail(l, rest');
    case Paren(inner) =>
      var rest' := [Punctuation(RParen)] + rest;
      DisjunctionIsNoValue(inner, rest');
      ParenSplits(inner, rest);
      NoGroupedValue(FactorYield(f) + rest);
  }

  lemma ComparedSplits(op: TokenKind, l: ValueExpr, r: ValueExpr, rest: seq<Token>) returns (rest': seq<Token>)
    ensures FactorYield(Compared(op, l, r)) + rest == ValueYield(l) + rest'
    ensures rest' == [Punctuation(op)] + ValueYield(r) + rest && rest'[1..] == ValueYield(r) + rest
  {
    hide ValueYield;
    rest' := [Punctuation(op)] + ValueYield(r) + rest;
    assert rest' == [Punctuation(op)] + (ValueYield(r) + rest);
  }

  lemma ParsesComparison(op: TokenKind, l: ValueExpr, r: ValueExpr, rest: seq<Token>)
    requires IsCompareToken(op) && ValueOk(l) && ValueOk(r)
    requires rest != [] && rest[0].kind != Amp
    ensures Comparison(FactorYield(Compared(op, l, r)) + rest) == Ok(ComparisonExpr(op, l, r), rest)
  {
    hide ValueYield;
    hide FactorYield;
    hide Bitwise;
    hide BitwiseTail;
    hide ValueOk;
    var rest' := ComparedSplits(op, l, r, rest);
    ParsesValue(l, rest');
    EndsTail(l, rest');
    ParsesValue(r, rest);
    EndsTail(r, rest);
  }

  lemma SpeculatesComparison(inner: ValueExpr, after: seq<Token>)
    requires ValueOk(inner) && after != [] && IsCompareToken(after[0].kind)
    ensures Speculate(ValueYield(GroupedValue(inner)) + after) == Compare
  {
    var ts := ValueYield(GroupedValue(inner)) + after;
    var rest' := [Punctuation(RParen)] + after;
    assert ts[1..] == ValueYield(inner) + rest';
    ParsesValue(inner, rest');
  }

  /** The gap: a left operand `(g) & ...` is taken for a boolean group, which then fails. */
  lemma RejectsLongerOperand(l: ValueExpr, after: seq<Token>)
    requires ValueOk(l) && l.BitwiseAnd? && StartsWithParen(l) && after != []
    ensures Factor(ValueYield(l) + after).Err?
  {
    hide ValueYield;
    hide Disjunction;
    var g, tail := FirstGroup(l);
    var more := [Punctuation(Amp)] + (tail + after);
    assert ValueYield(l) + after == [Punctuation(LParen)] + (ValueYield(g) + ([Punctuation(RParen)] + more));
    ValueIsNoDisjunction(g, more);
    GuessesGroup(ValueYield(l) + after, g, more);
  }

  lemma ParsesCompared(op: TokenKind, l: ValueExpr, r: ValueExpr, rest: seq<Token>)
    requires IsCompareToken(op) && ValueOk(l) && ValueOk(r)
    requires rest != [] && rest[0].kind != Amp
    ensures Factor(FactorYield(Compared(op, l, r)) + rest) ==
            if LeftHandled(l) then Ok(ComparisonExpr(op, l, r), rest) else Err
  {
    hide Comparison;
    hide Bitwise;
    hide Disjunction;
    hide FactorYield;
    var ts := FactorYield(Compared(op, l, r)) + rest;
    var after := ComparedSplits(op, l, r, rest);
    FirstToken(l);
    assert ts[0] == ValueYield(l)[0];
    if l.GroupedValue? {
      SpeculatesComparison(l.inner, after);
      assert Factor(ts) == Comparison(ts);
    } else if StartsWithParen(l) {
      RejectsLongerOperand(l, after);
    } else {
      assert Factor(ts) == Comparison(ts);
    }
    ParsesComparison(op, l, r, rest);
  }

  lemma {:induction false} ParsesFactor(f: FactorTree, rest: seq<Token>)
    requires FactorOk(f) && rest != [] && rest[0].kind != Amp
    ensures Factor(FactorYield(f) + rest) == if FactorHandled(f) then Ok(FactorMeaning(f), rest) else Err
    decreases f
  {
    match f
    case Compared(op, l, r) => ParsesCompared(op, l, r, rest);
    case Paren(inner) =>
      var ts := FactorYield(f) + rest;
      var rest' := [Punctuation(RParen)] + rest;
      assert ts[1..] == OrYield(inner) + rest';
      DisjunctionIsNoValue(inner, rest');
      assert Speculate(ts) == Group;
      ParsesDisjunction(inner, rest');
      assert rest'[1..] == rest;
  }

  lemma {:induction false} ParsesConjunction(c: AndTree, rest: seq<Token>)
    requires AndOk(c) && rest != [] && rest[0].kind != Amp
    ensures Conjunction(AndYield(c) + rest) == if AndHandled(c) then ConjunctionTail(AndMeaning(c), rest) else Err
    decreases c
  {
    match c
    case OneFactor(f) => ParsesFactor(f, rest);
    case AndThen(left, f) =>
      var rest' := [Punctuation(And)] + (FactorYield(f) + rest);
      assert AndYield(c) + rest == AndYield(left) + rest';
      ParsesConjunction(left, rest');
      assert rest'[1..] == FactorYield(f) + rest;
      ParsesFactor(f, rest);
  }

  lemma {:induction false} ParsesDisjunction(o: OrTree, rest: seq<Token>)
    requires OrOk(o) && rest != [] && rest[0].kind != Amp && rest[0].kind != And
    ensures Disjunction(OrYield(o) + rest) == if OrHandled(o) then DisjunctionTail(OrMeaning(o), rest) else Err
    decreases o
  {
    match o
    case OneAnd(c) => ParsesConjunction(c, rest);
    case OrThen(left, c) =>
      var rest' := [Punctuation(Or)] + (AndYield(c) + rest);
      assert OrYield(o) + rest == OrYield(left) + rest';
      ParsesDisjunction(left, rest');
      assert rest'[1..] == AndYield(c) + rest;
      ParsesConjunction(c, rest);
  }

  const END := [Punctuation(EOF)]

  /**
   The parser and the grammar agree on every derivable filter, except exactly on those where
   some comparison's left operand starts with `(` without being one group: they are rejected.
   */
  lemma ParserMeetsGrammar(o: OrTree)
    requires OrOk(o)
    ensures ParseTokens(OrYield(o) + END) == if OrHandled(o) then Some(OrMeaning(o)) else None
  {
    ParsesDisjunction(o, END);
  }
}
