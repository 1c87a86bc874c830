/**
 Everything the filter parser accepts is derivable: the derivation is rebuilt from the run of
 the parser. With `ParserMeetsGrammar` this pins down the accepted language.
 */
module FilterSoundness {
  import opened GoLib
  import opened FilterLexer
  import opened FilterTree
  import opened FilterParser
  import opened FilterGrammar

  /** The fields of a token that its kind determines have the values the lexer gives them. */
  predicate Canonical(t: Token) {
    match t.kind
    case Number => true
    case Str | Ident => t.num == 0
    case _ => t == Punctuation(t.kind)
  }

  predicate AllCanonical(ts: seq<Token>) {
    forall i :: 0 <= i < |ts| ==> Canonical(ts[i])
  }

  lemma {:induction false} ScanIsCanonical(s: string, p: nat)
    requires p <= |s|
    ensures AllCanonical(Scan(s, p))
    decreases |s| - p
  {
    hide LexToken;
    hide Canonical;
    LexIsCanonical(s, p);
    match LexToken(s, p)
    case None =>
      assert AllCanonical([]);
    case Some((t, q)) =>
      if t.kind != EOF {
        ScanIsCanonical(s, q);
      }
  }

  lemma LexIsCanonical(s: string, p: nat)
    requires p <= |s|
    ensures LexToken(s, p).Some? ==> Canonical(LexToken(s, p).value.0)
  {
  }

  /** The first of canonical tokens, and the others. */
  lemma Head(ts: seq<Token>)
    requires ts != [] && AllCanonical(ts)
    ensures AllCanonical(ts[1..])
    ensures ts[0].kind !in {Number, Str, Ident} ==> ts[0] == Punctuation(ts[0].kind)
  {
    assert Canonical(ts[0]);
  }

  /** A chain grows by an operator and an operand. */
  lemma Chained(a: seq<Token>, ts: seq<Token>, y: seq<Token>, rest: seq<Token>)
    requires ts != [] && ts[1..] == y + rest
    ensures a + ts == a + [ts[0]] + y + rest
  {
    assert ts == [ts[0]] + ts[1..];
  }

  // ---------- values ----------

  lemma SuffixCanonical(ts: seq<Token>, y: seq<Token>, rest: seq<Token>)
    requires AllCanonical(ts) && ts == y + rest
    ensures AllCanonical(rest)
  {
    forall i | 0 <= i < |rest|
      ensures Canonical(rest[i])
    {
      assert rest[i] == ts[|y| + i];
    }
  }

  /** `r` is a successful parse of `ts` into a value whose yield is what was consumed. */
  ghost predicate ValueParsed(ts: seq<Token>, r: Parsed<ValueExpr>) {
    r.Ok? && ValueOk(r.tree) && ts == ValueYield(r.tree) + r.rest && AllCanonical(r.rest)
  }

  lemma SoundLeaf(ts: seq<Token>)
    requires |ts| > 1 && AllCanonical(ts) && Unary(ts).Ok? && ts[0].kind != LParen
    ensures ValueParsed(ts, Unary(ts)) && !Unary(ts).tree.BitwiseAnd?
  {
    assert ts == [ts[0]] + ts[1..];
    SuffixCanonical(ts, [ts[0]], ts[1..]);
  }

  lemma Bracketed(ts: seq<Token>, y: seq<Token>, rest: seq<Token>)
    requires ts != [] && rest != [] && ts[1..] == y + rest
    ensures ts == [ts[0]] + y + [rest[0]] + rest[1..]
  {
    assert ts == [ts[0]] + ts[1..] && rest == [rest[0]] + rest[1..];
  }

  lemma {:induction false} SoundUnary(ts: seq<Token>)
    requires ts != [] && AllCanonical(ts) && Unary(ts).Ok?
    ensures ValueParsed(ts, Unary(ts)) && !Unary(ts).tree.BitwiseAnd?
    decreases |ts|, 1
  {
    hide AllCanonical;
    hide Punctuation;
    if ts[0].kind == LParen {
      Head(ts);
      SoundBitwise(ts[1..]);
      var v := Bitwise(ts[1..]);
      GroupStep(ts, v.tree, v.rest);
      Head(v.rest);
      Bracketed(ts, ValueYield(v.tree), v.rest);
    } else {
      SoundLeaf(ts);
    }
  }

  lemma TailNeedsUnary(left: ValueExpr, ts: seq<Token>)
    requires ts != [] && ts[0].kind == Amp && BitwiseTail(left, ts).Ok?
    ensures |ts| > 1 && Unary(ts[1..]).Ok?
  {
  }

  lemma {:induction false} SoundBitwiseTail(left: ValueExpr, ts: seq<Token>)
    requires ts != [] && AllCanonical(ts) && ValueOk(left) && BitwiseTail(left, ts).Ok?
    ensures ValueParsed(ValueYield(left) + ts, BitwiseTail(left, ts))
    ensures BitwiseTail(left, ts).rest[0].kind != Amp
    decreases |ts|, 2
  {
    hide Unary;
    hide AllCanonical;
    hide Punctuation;
    Head(ts);
    if ts[0].kind == Amp {
      TailNeedsUnary(left, ts);
      SoundUnary(ts[1..]);
      var r := Unary(ts[1..]);
      AmpStep(left, ts, r.tree, r.rest);
      Chained(ValueYield(left), ts, ValueYield(r.tree), r.rest);
      SoundBitwiseTail(BitwiseAnd(left, r.tree), r.rest);
    } else {
      EndsTail(left, ts);
    }
  }

  lemma {:induction false} SoundBitwise(ts: seq<Token>)
    requires ts != [] && AllCanonical(ts) && Bitwise(ts).Ok?
    ensures ValueParsed(ts, Bitwise(ts)) && Bitwise(ts).rest[0].kind != Amp
    decreases |ts|, 3
  {
    SoundUnary(ts);
    SoundBitwiseTail(Unary(ts).tree, Unary(ts).rest);
  }

  // ---------- boolean expressions ----------

  lemma SoundComparison(ts: seq<Token>) returns (f: FactorTree)
    requires ts != [] && AllCanonical(ts) && Comparison(ts).Ok?
    ensures f.Compared? && f.l == Bitwise(ts).tree
    ensures var c := Comparison(ts);
            FactorOk(f) && FactorMeaning(f) == c.tree && ts == FactorYield(f) + c.rest && AllCanonical(c.rest)
  {
    hide AllCanonical;
    hide Punctuation;
    hide Bitwise;
    SoundBitwise(ts);
    var l := Bitwise(ts);
    Head(l.rest);
    SoundBitwise(l.rest[1..]);
    var r := Bitwise(l.rest[1..]);
    f := Compared(l.rest[0].kind, l.tree, r.tree);
    Chained(ValueYield(l.tree), l.rest, ValueYield(r.tree), r.rest);
  }

  lemma StartsWithLeft(ts: seq<Token>, f: FactorTree, rest: seq<Token>)
    requires f.Compared? && ts == FactorYield(f) + rest
    ensures ts[0] == ValueYield(f.l)[0]
  {
  }

  lemma GroupWasRead(ts: seq<Token>)
    requires ts != [] && ts[0].kind == LParen && Speculate(ts) == Compare && Comparison(ts).Ok?
    ensures Bitwise(ts).tree.GroupedValue?
  {
    var v := Bitwise(ts[1..]);
    GroupStep(ts, v.tree, v.rest);
  }

  lemma {:induction false} SoundFactor(ts: seq<Token>) returns (f: FactorTree)
    requires ts != [] && AllCanonical(ts) && Factor(ts).Ok?
    ensures var c := Factor(ts);
            && FactorOk(f) && FactorHandled(f) && FactorMeaning(f) == c.tree
            && ts == FactorYield(f) + c.rest && AllCanonical(c.rest)
    decreases |ts|, 4
  {
    hide AllCanonical;
    hide Punctuation;
    hide Disjunction;
    hide Comparison;
    hide Bitwise;
    if ts[0].kind != LParen {
      f := SoundComparison(ts);
      FirstToken(f.l);
      StartsWithLeft(ts, f, Comparison(ts).rest);
    } else if Speculate(ts) == Compare {
      f := SoundComparison(ts);
      GroupWasRead(ts);
    } else {
      Head(ts);
      var o := SoundDisjunction(ts[1..]);
      var rest := Disjunction(ts[1..]).rest;
      Head(rest);
      f := Paren(o);
      Bracketed(ts, OrYield(o), rest);
    }
  }

  lemma {:induction false} SoundConjunctionTail(left: AndTree, ts: seq<Token>) returns (c: AndTree)
    requires ts != [] && AllCanonical(ts) && AndOk(left) && AndHandled(left)
    requires ConjunctionTail(AndMeaning(left), ts).Ok?
    ensures var r := ConjunctionTail(AndMeaning(left), ts);
            && AndOk(c) && AndHandled(c) && AndMeaning(c) == r.tree
            && AndYield(left) + ts == AndYield(c) + r.rest && AllCanonical(r.rest)
    decreases |ts|, 5
  {
    hide AllCanonical;
    hide Punctuation;
    hide Factor;
    hide FactorYield;
    Head(ts);
    if ts[0].kind != And {
      c := left;
    } else {
      var f := SoundFactor(ts[1..]);
      var rest := Factor(ts[1..]).rest;
      Chained(AndYield(left), ts, FactorYield(f), rest);
      c := SoundConjunctionTail(AndThen(left, f), rest);
    }
  }

  lemma {:induction false} SoundConjunction(ts: seq<Token>) returns (c: AndTree)
    requires ts != [] && AllCanonical(ts) && Conjunction(ts).Ok?
    ensures var r := Conjunction(ts);
            && AndOk(c) && AndHandled(c) && AndMeaning(c) == r.tree
            && ts == AndYield(c) + r.rest && AllCanonical(r.rest)
    decreases |ts|, 6
  {
    var f := SoundFactor(ts);
    c := SoundConjunctionTail(OneFactor(f), Factor(ts).rest);
  }

  lemma {:induction false} SoundDisjunctionTail(left: OrTree, ts: seq<Token>) returns (o: OrTree)
    requires ts != [] && AllCanonical(ts) && OrOk(left) && OrHandled(left)
    requires DisjunctionTail(OrMeaning(left), ts).Ok?
    ensures var r := DisjunctionTail(OrMeaning(left), ts);
            && OrOk(o) && OrHandled(o) && OrMeaning(o) == r.tree
            && OrYield(left) + ts == OrYield(o) + r.rest && AllCanonical(r.rest)
    decreases |ts|, 7
  {
    hide AllCanonical;
    hide Punctuation;
    hide Conjunction;
    hide AndYield;
    Head(ts);
    if ts[0].kind != Or {
      o := left;
    } else {
      var c := SoundConjunction(ts[1..]);
      var rest := Conjunction(ts[1..]).rest;
      Chained(OrYield(left), ts, AndYield(c), rest);
      o := SoundDisjunctionTail(OrThen(left, c), rest);
    }
  }

  lemma {:induction false} SoundDisjunction(ts: seq<Token>) returns (o: OrTree)
    requires ts != [] && AllCanonical(ts) && Disjunction(ts).Ok?
    ensures var r := Disjunction(ts);
            && OrOk(o) && OrHandled(o) && OrMeaning(o) == r.tree
            && ts == OrYield(o) + r.rest && AllCanonical(r.rest)
    decreases |ts|, 8
  {
    var c := SoundConjunction(ts);
    o := SoundDisjunctionTail(OneAnd(c), Conjunction(ts).rest);
  }

  // ---------- the accepted language ----------

  ghost predicate Derives(o: OrTree, ts: seq<Token>) {
    OrOk(o) && OrHandled(o) && ts == OrYield(o) + END
  }

  /**
   A filter compiles to the tree `e` exactly when it is blank and `e` is the constant true, or
   its tokens have a derivation that stands for `e` and whose comparisons the parser handles.
   */
  lemma AcceptedLanguage(filter: string, e: BoolExpr)
    ensures Compiled(filter) == Some(e) <==>
            var text := TrimSpace(filter);
            if text == "" then e == TrueExpr
            else exists o :: Derives(o, Scan(text, 0)) && OrMeaning(o) == e
  {
    var text := TrimSpace(filter);
    if text != "" {
      var ts := Scan(text, 0);
      ScanIsCanonical(text, 0);
      if ParseTokens(ts) == Some(e) {
        var o := SoundDisjunction(ts);
        EndsOnce(text, OrYield(o), Disjunction(ts).rest);
        assert Derives(o, ts);
      }
      forall o | Derives(o, ts) && OrMeaning(o) == e
        ensures ParseTokens(ts) == Some(e)
      {
        ParserMeetsGrammar(o);
      }
    }
  }

  /** The EOF token is the last one, so what is left at EOF is just that token. */
  lemma EndsOnce(s: string, y: seq<Token>, rest: seq<Token>)
    requires Scan(s, 0) == y + rest && rest != [] && rest[0].kind == EOF && Canonical(rest[0])
    ensures rest == END
  {
    assert Scan(s, 0)[|y|] == rest[0];
    assert |rest| == 1;
  }
}
