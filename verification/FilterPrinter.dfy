/**
 Writing a compiled filter back as text: with the fewest boolean parentheses, one space
 between tokens. Compiling that text gives the tree back.
 */
module FilterPrinter {
  import opened GoLib
  import opened FilterLexer
  import opened FilterTree
  import opened FilterParser
  import opened FilterGrammar

  // ---------- from trees to derivations ----------

  predicate Printable(e: BoolExpr) {
    match e
    case TrueExpr => false
    case OrExpr(l, r) => Printable(l) && Printable(r)
    case AndExpr(l, r) => Printable(l) && Printable(r)
    case ComparisonExpr(op, l, r) => IsCompareToken(op) && ValueOk(l) && ValueOk(r)
  }

  function ToFactor(e: BoolExpr): FactorTree
    requires Printable(e)
    decreases e, 0
  {
    match e
    case ComparisonExpr(op, l, r) => Compared(op, l, r)
    case AndExpr(l, r) => Paren(OneAnd(AndThen(ToAnd(l), ToFactor(r))))
    case OrExpr(l, r) => Paren(OrThen(ToOr(l), ToAnd(r)))
  }

  function ToAnd(e: BoolExpr): AndTree
    requires Printable(e)
    decreases e, 1
  {
    if e.AndExpr? then AndThen(ToAnd(e.left), ToFactor(e.right)) else OneFactor(ToFactor(e))
  }

  /** The derivation of `e` that puts parentheses only where the grammar needs them. */
  function ToOr(e: BoolExpr): OrTree
    requires Printable(e)
    decreases e, 2
  {
    if e.OrExpr? then OrThen(ToOr(e.left), ToAnd(e.right)) else OneAnd(ToAnd(e))
  }

  predicate LeftsHandled(e: BoolExpr) {
    match e
    case TrueExpr => true
    case OrExpr(l, r) => LeftsHandled(l) && LeftsHandled(r)
    case AndExpr(l, r) => LeftsHandled(l) && LeftsHandled(r)
    case ComparisonExpr(_, l, _) => LeftHandled(l)
  }

  lemma {:induction false} DerivationIsFaithful(e: BoolExpr)
    requires Printable(e)
    ensures OrOk(ToOr(e)) && OrMeaning(ToOr(e)) == e && (OrHandled(ToOr(e)) <==> LeftsHandled(e))
    ensures AndOk(ToAnd(e)) && AndMeaning(ToAnd(e)) == e && (AndHandled(ToAnd(e)) <==> LeftsHandled(e))
    ensures FactorOk(ToFactor(e)) && FactorMeaning(ToFactor(e)) == e && (FactorHandled(ToFactor(e)) <==> LeftsHandled(e))
  {
    match e
    case ComparisonExpr(_, _, _) =>
      var f := ToFactor(e);
      assert FactorOk(f) && FactorMeaning(f) == e && (FactorHandled(f) <==> LeftsHandled(e));
      var c := ToAnd(e);
      assert AndOk(c) && AndMeaning(c) == e && (AndHandled(c) <==> LeftsHandled(e));
    case AndExpr(l, r) =>
      DerivationIsFaithful(l);
      DerivationIsFaithful(r);
    case OrExpr(l, r) =>
      DerivationIsFaithful(l);
      DerivationIsFaithful(r);
  }

  // ---------- no derivation of the same tree is shorter ----------

  lemma {:induction false} SizesOf(e: BoolExpr)
    requires Printable(e)
    ensures |OrYield(ToOr(e))| <= |AndYield(ToAnd(e))| <= |FactorYield(ToFactor(e))| <= |OrYield(ToOr(e))| + 2
    ensures e.OrExpr? ==> |AndYield(ToAnd(e))| == |OrYield(ToOr(e))| + 2
    ensures !e.ComparisonExpr? ==> |FactorYield(ToFactor(e))| == |OrYield(ToOr(e))| + 2
  {
  }

  lemma {:induction false} FactorIsMinimal(f: FactorTree)
    requires FactorOk(f)
    ensures Printable(FactorMeaning(f)) && |FactorYield(ToFactor(FactorMeaning(f)))| <= |FactorYield(f)|
    decreases f
  {
    match f
    case Compared(_, _, _) =>
    case Paren(inner) =>
      OrIsMinimal(inner);
      SizesOf(OrMeaning(inner));
  }

  lemma {:induction false} AndIsMinimal(c: AndTree)
    requires AndOk(c)
    ensures Printable(AndMeaning(c)) && |AndYield(ToAnd(AndMeaning(c)))| <= |AndYield(c)|
    decreases c
  {
    match c
    case OneFactor(f) =>
      FactorIsMinimal(f);
      SizesOf(FactorMeaning(f));
    case AndThen(left, f) =>
      AndIsMinimal(left);
      FactorIsMinimal(f);
  }

  /** Among all derivations of one tree, `ToOr` has the fewest tokens. */
  lemma {:induction false} OrIsMinimal(o: OrTree)
    requires OrOk(o)
    ensures Printable(OrMeaning(o)) && |OrYield(ToOr(OrMeaning(o)))| <= |OrYield(o)|
    decreases o
  {
    match o
    case OneAnd(c) =>
      AndIsMinimal(c);
      SizesOf(AndMeaning(c));
    case OrThen(left, c) =>
      OrIsMinimal(left);
      AndIsMinimal(c);
  }

  // ---------- from tokens to text ----------

  /** The tokens that have a spelling the lexer reads back. */
  predicate Spellable(t: Token) {
    match t.kind
    case Number =>
      && t.val != ""
      && AllDigits(Unsigned(t.val)) && Unsigned(t.val) != ""
      && ParseInt64(t.val) == Some(t.num)
    case Str => t.num == 0 && ('\'' !in t.val || '"' !in t.val)
    case Ident =>
      && t.num == 0 && t.val != "" && (IsLetter(t.val[0]) || t.val[0] == '_')
      && (forall i :: 0 <= i < |t.val| ==> IsIdentChar(t.val[i]))
      && ToLower(t.val) !in {"and", "or", "like"}
    case EOF => false
    case _ => t == Punctuation(t.kind)
  }

  function Unsigned(raw: string): string {
    if raw != "" && raw[0] == '-' then raw[1..] else raw
  }

  function Spelling(t: Token): string {
    if t.kind != Str then t.val
    else if '\'' !in t.val then "'" + t.val + "'"
    else "\"" + t.val + "\""
  }

  function Spell(ts: seq<Token>): string {
    if ts == [] then ""
    else if |ts| == 1 then Spelling(ts[0])
    else Spelling(ts[0]) + " " + Spell(ts[1..])
  }

  /** At `q` the text `s` spells `t`, and then it ends or has a space. */
  ghost predicate SpelledAt(s: string, q: nat, t: Token) {
    && Spellable(t)
    && q + |Spelling(t)| <= |s| && s[q..q + |Spelling(t)|] == Spelling(t)
    && (q + |Spelling(t)| < |s| ==> s[q + |Spelling(t)|] == ' ')
  }

  lemma SpelledChar(s: string, q: nat, t: Token, i: nat)
    requires SpelledAt(s, q, t) && i < |Spelling(t)|
    ensures s[q + i] == Spelling(t)[i]
  {
    assert s[q + i] == s[q..q + |Spelling(t)|][i];
  }

  lemma LexesDigits(s: string, q: nat, t: Token)
    requires SpelledAt(s, q, t) && t.kind == Number
    ensures q < |s|
    ensures LexNumber(s, q, s[q] == '-') == Some((t, q + |t.val|))
    ensures if s[q] == '-' then q + 1 < |s| && IsDigit(s[q + 1]) else IsDigit(s[q])
  {
    hide ParseInt64;
    var n := |t.val|;
    SpelledChar(s, q, t, 0);
    var from := if s[q] == '-' then q + 1 else q;
    assert from < q + n;
    forall i | from <= i < q + n
      ensures IsDigit(s[i])
    {
      SpelledChar(s, q, t, i - q);
      assert s[i] == Unsigned(t.val)[i - from];
    }
    assert q + n < |s| ==> !IsDigit(s[q + n]);
    SpanEndUnique(s, from, IsDigit, q + n);
    assert s[q..q + n] == t.val;
  }

  lemma LexesNumber(s: string, q: nat, t: Token)
    requires SpelledAt(s, q, t) && t.kind == Number
    ensures LexAt(s, q) == Some((t, q + |Spelling(t)|))
  {
    hide LexAt;
    hide LexNumber;
    hide Spellable;
    LexesDigits(s, q, t);
    NumberStart(s, q);
  }

  lemma NumberStart(s: string, q: nat)
    requires q < |s| && (if s[q] == '-' then q + 1 < |s| && IsDigit(s[q + 1]) else IsDigit(s[q]))
    ensures LexAt(s, q) == LexNumber(s, q, s[q] == '-')
  {
  }

  lemma LexesQuoted(s: string, q: nat, t: Token)
    requires SpelledAt(s, q, t) && t.kind == Str
    ensures LexAt(s, q) == Some((t, q + |Spelling(t)|))
  {
    var n := |Spelling(t)|;
    var quote := Spelling(t)[0];
    SpelledChar(s, q, t, 0);
    SpelledChar(s, q, t, n - 1);
    assert quote !in t.val;
    forall i | q + 1 <= i < q + n - 1
      ensures s[i] == t.val[i - q - 1]
    {
      SpelledChar(s, q, t, i - q);
    }
    assert s[q + 1..q + n - 1] == t.val;
    IndexFromUnique(s, q + 1, quote, q + n - 1);
  }

  lemma LexesLetters(s: string, q: nat, t: Token)
    requires SpelledAt(s, q, t) && t.kind in {Ident, And, Or, Like}
    ensures q < |s| && (IsLetter(s[q]) || s[q] == '_')
    ensures LexIdent(s, q) == (KeywordOrIdent(t.val), q + |t.val|)
  {
    var n := |t.val|;
    forall i | q <= i < q + n
      ensures IsIdentChar(s[i])
    {
      SpelledChar(s, q, t, i - q);
    }
    SpelledChar(s, q, t, 0);
    SpanEndUnique(s, q, IsIdentChar, q + n);
  }

  lemma LexesWord(s: string, q: nat, t: Token)
    requires SpelledAt(s, q, t) && t.kind in {Ident, And, Or, Like}
    ensures LexAt(s, q) == Some((t, q + |Spelling(t)|))
  {
    hide LexAt;
    hide LexIdent;
    LexesLetters(s, q, t);
    WordStart(s, q);
    assert KeywordOrIdent(t.val) == t;
  }

  lemma WordStart(s: string, q: nat)
    requires q < |s| && (IsLetter(s[q]) || s[q] == '_')
    ensures LexAt(s, q) == Some(LexIdent(s, q))
  {
  }

  lemma LexesPunctuation(s: string, q: nat, t: Token)
    requires SpelledAt(s, q, t) && t.kind in {LParen, RParen, Amp, Eq, Ne, Lt, Gt, Le, Ge}
    ensures LexAt(s, q) == Some((t, q + |Spelling(t)|))
  {
    SpelledChar(s, q, t, 0);
    if |Spelling(t)| == 2 {
      SpelledChar(s, q, t, 1);
    }
  }

  lemma LexesSpelling(s: string, p: nat, q: nat, t: Token)
    requires p <= q && SpelledAt(s, q, t)
    requires forall i :: p <= i < q ==> s[i] == ' '
    ensures LexToken(s, p) == Some((t, q + |Spelling(t)|))
  {
    SpelledChar(s, q, t, 0);
    assert !IsSpace(s[q]);
    SpanEndUnique(s, p, IsSpace, q);
    match t.kind
    case Number => LexesNumber(s, q, t);
    case Str => LexesQuoted(s, q, t);
    case Ident | And | Or | Like => LexesWord(s, q, t);
    case _ => LexesPunctuation(s, q, t);
  }

  /** Lexing a spelled token list gives the list back. */
  lemma {:induction false} LexesSpell(s: string, p: nat, q: nat, ts: seq<Token>)
    requires ts != [] && forall i :: 0 <= i < |ts| ==> Spellable(ts[i])
    requires p <= q <= |s| && s[q..] == Spell(ts)
    requires forall i :: p <= i < q ==> s[i] == ' '
    ensures Scan(s, p) == ts + END
    decreases |ts|
  {
    hide LexToken;
    hide Spellable;
    hide SpelledAt;
    hide Scan;
    var t := ts[0];
    var e := q + |Spelling(t)|;
    FirstSpelling(s, q, ts);
    LexesSpelling(s, p, q, t);
    ScanStep(s, p, t, e);
    if |ts| == 1 {
      ScanEnd(s);
      assert ts == [t];
    } else {
      LexesSpell(s, e, e + 1, ts[1..]);
      assert [t] + (ts[1..] + END) == ts + END;
    }
  }

  lemma ScanStep(s: string, p: nat, t: Token, e: nat)
    requires p <= |s| && LexToken(s, p) == Some((t, e)) && t.kind != EOF
    ensures Scan(s, p) == [t] + Scan(s, e)
  {
  }

  lemma ScanEnd(s: string)
    ensures Scan(s, |s|) == END
  {
    assert LexToken(s, |s|) == Some((Punctuation(EOF), |s|));
  }

  lemma FirstSpelling(s: string, q: nat, ts: seq<Token>)
    requires ts != [] && Spellable(ts[0])
    requires q <= |s| && s[q..] == Spell(ts)
    ensures SpelledAt(s, q, ts[0]) && ts[0].kind != EOF
    ensures var e := q + |Spelling(ts[0])|;
            if |ts| == 1 then e == |s| else e < |s| && s[e] == ' ' && s[e + 1..] == Spell(ts[1..])
  {
    var n := |Spelling(ts[0])|;
    assert s[q..q + n] == s[q..][..n];
    if |ts| > 1 {
      assert s[q + n] == s[q..][n];
      assert s[q + n + 1..] == s[q..][n + 1..];
    }
  }

  // ---------- the round trip ----------

  predicate ValueSpellable(v: ValueExpr) {
    match v
    case BitwiseAnd(l, r) => ValueSpellable(l) && ValueSpellable(r)
    case GroupedValue(inner) => ValueSpellable(inner)
    case _ => Spellable(ValueYield(v)[0])
  }

  /** A tree whose shape and leaves can be written as text; `true` alone is the blank filter. */
  predicate Writable(e: BoolExpr) {
    match e
    case TrueExpr => false
    case OrExpr(l, r) => Writable(l) && Writable(r)
    case AndExpr(l, r) => Writable(l) && Writable(r)
    case ComparisonExpr(op, l, r) =>
      IsCompareToken(op) && ValueOk(l) && ValueOk(r) && ValueSpellable(l) && ValueSpellable(r)
  }

  predicate AllSpellable(ts: seq<Token>) {
    forall i :: 0 <= i < |ts| ==> Spellable(ts[i])
  }

  lemma Between(a: seq<Token>, kind: TokenKind, b: seq<Token>)
    requires AllSpellable(a) && AllSpellable(b)
    requires kind in {And, Or, Amp} || IsCompareToken(kind)
    ensures AllSpellable(a + [Punctuation(kind)] + b)
  {
    assert Spellable(Punctuation(kind));
  }

  lemma Around(a: seq<Token>)
    requires AllSpellable(a)
    ensures AllSpellable([Punctuation(LParen)] + a + [Punctuation(RParen)])
  {
    assert Spellable(Punctuation(LParen)) && Spellable(Punctuation(RParen));
  }

  lemma {:induction false} ValueYieldSpellable(v: ValueExpr)
    requires ValueSpellable(v)
    ensures AllSpellable(ValueYield(v))
  {
    match v
    case BitwiseAnd(l, r) =>
      ValueYieldSpellable(l);
      ValueYieldSpellable(r);
      Between(ValueYield(l), Amp, ValueYield(r));
    case GroupedValue(inner) =>
      ValueYieldSpellable(inner);
      Around(ValueYield(inner));
    case _ =>
  }

  lemma {:induction false} YieldSpellable(e: BoolExpr)
    requires Writable(e)
    ensures Printable(e)
    ensures AllSpellable(OrYield(ToOr(e))) && AllSpellable(AndYield(ToAnd(e))) && AllSpellable(FactorYield(ToFactor(e)))
  {
    hide AllSpellable;
    match e
    case ComparisonExpr(op, l, r) =>
      ValueYieldSpellable(l);
      ValueYieldSpellable(r);
      Between(ValueYield(l), op, ValueYield(r));
      assert AndYield(ToAnd(e)) == FactorYield(ToFactor(e)) == OrYield(ToOr(e));
    case AndExpr(l, r) =>
      YieldSpellable(l);
      YieldSpellable(r);
      Between(AndYield(ToAnd(l)), And, FactorYield(ToFactor(r)));
      Around(AndYield(ToAnd(e)));
    case OrExpr(l, r) =>
      YieldSpellable(l);
      YieldSpellable(r);
      Between(OrYield(ToOr(l)), Or, AndYield(ToAnd(r)));
      Around(OrYield(ToOr(e)));
  }

  /** A filter's text. */
  function Print(e: BoolExpr): string
    requires e == TrueExpr || Writable(e)
  {
    if e == TrueExpr then "" else
      YieldSpellable(e);
      Spell(OrYield(ToOr(e)))
  }

  predicate Solid(c: char) {
    IsIdentChar(c) || ('!' <= c <= '~')
  }

  lemma SpellingEnds(t: Token)
    requires Spellable(t)
    ensures Spelling(t) != "" && Solid(Spelling(t)[0]) && Solid(Spelling(t)[|Spelling(t)| - 1])
    ensures |Spelling(t)| > 1 && Spelling(t)[0] > '~' ==> Solid(Spelling(t)[1])
  {
    if t.kind == Number {
      assert Unsigned(t.val)[|Unsigned(t.val)| - 1] == t.val[|t.val| - 1];
    }
  }

  lemma {:induction false} SpellEnds(ts: seq<Token>)
    requires ts != [] && AllSpellable(ts)
    ensures var s := Spell(ts);
            && s != "" && Solid(s[0]) && Solid(s[|s| - 1])
            && (|s| > 1 && s[0] > '~' ==> Solid(s[1]) || s[1] == ' ')
  {
    SpellingEnds(ts[0]);
    if |ts| > 1 {
      SpellEnds(ts[1..]);
    }
  }

  lemma WideSpaceIsNotSolid(x: string)
    requires IsWideSpace(x)
    ensures |x| > 1 && x[0] > '~' && !Solid(x[1]) && x[1] != ' ' && !Solid(x[|x| - 1])
  {
    if |x| == 3 {
      assert x[..2][0] == x[0] && x[..2][1] == x[1];
    }
  }

  lemma NoLeadingSpace(s: string)
    requires s != "" && Solid(s[0]) && (|s| > 1 && s[0] > '~' ==> Solid(s[1]) || s[1] == ' ')
    ensures LeadingSpace(s) == 0
  {
    hide IsWideSpace;
    if |s| >= 2 && IsWideSpace(s[..2]) {
      WideSpaceIsNotSolid(s[..2]);
    }
    if |s| >= 3 && IsWideSpace(s[..3]) {
      WideSpaceIsNotSolid(s[..3]);
    }
  }

  lemma NoTrailingSpace(s: string)
    requires s != "" && Solid(s[|s| - 1])
    ensures TrailingSpace(s) == 0
  {
    hide IsWideSpace;
    if |s| >= 2 && IsWideSpace(s[|s| - 2..]) {
      WideSpaceIsNotSolid(s[|s| - 2..]);
    }
    if |s| >= 3 && IsWideSpace(s[|s| - 3..]) {
      WideSpaceIsNotSolid(s[|s| - 3..]);
    }
  }

  lemma NothingToTrim(ts: seq<Token>)
    requires ts != [] && AllSpellable(ts)
    ensures TrimSpace(Spell(ts)) == Spell(ts) != ""
  {
    SpellEnds(ts);
    NoLeadingSpace(Spell(ts));
    NoTrailingSpace(Spell(ts));
  }

  /**
   The round trip: the text of a writable tree compiles to exactly that tree, unless one of its
   comparisons falls into the gap of the parser, in which case it does not compile at all.
   */
  lemma {:induction false} RoundTrip(e: BoolExpr)
    requires e == TrueExpr || Writable(e)
    ensures Compiled(Print(e)) == if LeftsHandled(e) then Some(e) else None
  {
    if e != TrueExpr {
      YieldSpellable(e);
      var ts := OrYield(ToOr(e));
      NothingToTrim(ts);
      LexesSpell(Spell(ts), 0, 0, ts);
      DerivationIsFaithful(e);
      ParserMeetsGrammar(ToOr(e));
    }
  }

  /** An input in the gap: a bitwise operand that starts with a parenthesised name. */
  lemma GapExample()
    ensures Compiled("( a ) & b = c") == None
  {
    hide Spell;
    hide Spellable;
    hide Compiled;
    var l := BitwiseAnd(GroupedValue(FieldExpr("a")), FieldExpr("b"));
    var e := ComparisonExpr(Eq, l, FieldExpr("c"));
    LetterSpellable("a");
    LetterSpellable("b");
    LetterSpellable("c");
    GapText(e);
    RoundTrip(e);
  }

  lemma LetterSpellable(s: string)
    requires s in {"a", "b", "c"}
    ensures Spellable(Token(Ident, s, 0))
  {
    assert ToLower(s) == s;
  }

  lemma GapText(e: BoolExpr)
    requires e == ComparisonExpr(Eq, BitwiseAnd(GroupedValue(FieldExpr("a")), FieldExpr("b")), FieldExpr("c"))
    ensures Printable(e) && Spell(OrYield(ToOr(e))) == "( a ) & b = c"
  {
    hide Spell;
    hide ToOr;
    hide OrYield;
    hide Printable;
    GapYield(e);
    var t6 := [Token(Ident, "c", 0)];
    var t5 := [Punctuation(Eq)] + t6;
    var t4 := [Token(Ident, "b", 0)] + t5;
    var t3 := [Punctuation(Amp)] + t4;
    var t2 := [Punctuation(RParen)] + t3;
    var t1 := [Token(Ident, "a", 0)] + t2;
    SpellLast(t6[0]);
    SpellStep(Punctuation(Eq), t6);
    assert Spell(t5) == "= c";
    SpellStep(Token(Ident, "b", 0), t5);
    assert Spell(t4) == "b = c";
    SpellStep(Punctuation(Amp), t4);
    SpellStep(Punctuation(RParen), t3);
    assert Spell(t2) == ") & b = c";
    SpellStep(Token(Ident, "a", 0), t2);
    SpellStep(Punctuation(LParen), t1);
  }

  lemma GapYield(e: BoolExpr)
    requires e == ComparisonExpr(Eq, BitwiseAnd(GroupedValue(FieldExpr("a")), FieldExpr("b")), FieldExpr("c"))
    ensures Printable(e)
    ensures OrYield(ToOr(e)) ==
            [Punctuation(LParen)] + ([Token(Ident, "a", 0)] + ([Punctuation(RParen)] + ([Punctuation(Amp)]
            + ([Token(Ident, "b", 0)] + ([Punctuation(Eq)] + [Token(Ident, "c", 0)])))))
  {
    assert OrYield(ToOr(e)) == FactorYield(ToFactor(e)) == ValueYield(e.l) + [Punctuation(Eq)] + ValueYield(e.r);
    assert ValueYield(e.l) == ValueYield(e.l.left) + [Punctuation(Amp)] + ValueYield(e.l.right);
  }

  lemma SpellLast(t: Token)
    ensures Spell([t]) == Spelling(t)
  {
  }

  lemma SpellStep(t: Token, ts: seq<Token>)
    requires ts != []
    ensures Spell([t] + ts) == Spelling(t) + " " + Spell(ts)
  {
    assert ([t] + ts)[1..] == ts;
  }
}
