/**
 The numbers of a compiled filter are 64-bit integers, so that evaluating it on unbounded
 integers is evaluating it on int64.
 */
module FilterFit {
  import opened GoLib
  import opened FilterLexer
  import opened FilterTree
  import opened FilterParser
  import opened FilterGrammar
  import opened FilterSoundness
  import opened FilterEval

  predicate TokensFit(ts: seq<Token>) {
    forall i :: 0 <= i < |ts| && ts[i].kind == Number ==> InInt64(ts[i].num)
  }

  lemma LexedFits(s: string, p: nat)
    requires p <= |s|
    ensures var r := LexToken(s, p); r.Some? && r.value.0.kind == Number ==> InInt64(r.value.0.num)
  {
  }

  lemma {:induction false} ScanFits(s: string, p: nat)
    requires p <= |s|
    ensures TokensFit(Scan(s, p))
    decreases |s| - p
  {
    hide LexToken;
    LexedFits(s, p);
    match LexToken(s, p)
    case None =>
      assert TokensFit([]);
    case Some((t, q)) =>
      if t.kind != EOF {
        ScanFits(s, q);
      }
  }

  lemma PartsFit(a: seq<Token>, b: seq<Token>, c: seq<Token>)
    requires TokensFit(a + b + c)
    ensures TokensFit(a) && TokensFit(b) && TokensFit(c)
  {
    var ts := a + b + c;
    forall i | 0 <= i < |a| && a[i].kind == Number
      ensures InInt64(a[i].num)
    {
      assert ts[i] == a[i];
    }
    forall i | 0 <= i < |b| && b[i].kind == Number
      ensures InInt64(b[i].num)
    {
      assert ts[|a| + i] == b[i];
    }
    forall i | 0 <= i < |c| && c[i].kind == Number
      ensures InInt64(c[i].num)
    {
      assert ts[|a + b| + i] == c[i];
    }
  }

  lemma {:induction false} ValueFits(v: ValueExpr)
    requires TokensFit(ValueYield(v))
    ensures LiteralsFit(v)
  {
    match v
    case NumberExpr(_, _) =>
      assert ValueYield(v)[0].kind == Number;
    case BitwiseAnd(l, r) =>
      PartsFit(ValueYield(l), [Punctuation(Amp)], ValueYield(r));
      ValueFits(l);
      ValueFits(r);
    case GroupedValue(inner) =>
      PartsFit([Punctuation(LParen)], ValueYield(inner), [Punctuation(RParen)]);
      ValueFits(inner);
    case _ =>
  }

  /** All literals of a filter are 64-bit integers. */
  predicate AllLiteralsFit(e: BoolExpr) {
    match e
    case TrueExpr => true
    case OrExpr(l, r) => AllLiteralsFit(l) && AllLiteralsFit(r)
    case AndExpr(l, r) => AllLiteralsFit(l) && AllLiteralsFit(r)
    case ComparisonExpr(_, l, r) => LiteralsFit(l) && LiteralsFit(r)
  }

  lemma {:induction false} FactorFits(f: FactorTree)
    requires TokensFit(FactorYield(f))
    ensures AllLiteralsFit(FactorMeaning(f))
    decreases f
  {
    match f
    case Compared(op, l, r) =>
      PartsFit(ValueYield(l), [Punctuation(op)], ValueYield(r));
      ValueFits(l);
      ValueFits(r);
    case Paren(inner) =>
      PartsFit([Punctuation(LParen)], OrYield(inner), [Punctuation(RParen)]);
      OrFits(inner);
  }

  lemma {:induction false} AndFits(c: AndTree)
    requires TokensFit(AndYield(c))
    ensures AllLiteralsFit(AndMeaning(c))
    decreases c
  {
    match c
    case OneFactor(f) => FactorFits(f);
    case AndThen(left, f) =>
      PartsFit(AndYield(left), [Punctuation(And)], FactorYield(f));
      AndFits(left);
      FactorFits(f);
  }

  lemma {:induction false} OrFits(o: OrTree)
    requires TokensFit(OrYield(o))
    ensures AllLiteralsFit(OrMeaning(o))
    decreases o
  {
    match o
    case OneAnd(c) => AndFits(c);
    case OrThen(left, c) =>
      PartsFit(OrYield(left), [Punctuation(Or)], AndYield(c));
      OrFits(left);
      AndFits(c);
  }

  lemma CompiledFits(filter: string)
    ensures Compiled(filter).Some? ==> AllLiteralsFit(Compiled(filter).value)
  {
    hide Compiled;
    hide Scan;
    hide OrYield;
    if Compiled(filter).Some? {
      var e, text := Compiled(filter).value, TrimSpace(filter);
      AcceptedLanguage(filter, e);
      if text != "" {
        var o :| Derives(o, Scan(text, 0)) && OrMeaning(o) == e;
        ScanFits(text, 0);
        assert Scan(text, 0) == [] + OrYield(o) + END;
        PartsFit([], OrYield(o), END);
        OrFits(o);
      }
    }
  }

  /** The operands of all comparisons of a filter. */
  function Operands(e: BoolExpr): set<ValueExpr> {
    match e
    case TrueExpr => {}
    case OrExpr(l, r) => Operands(l) + Operands(r)
    case AndExpr(l, r) => Operands(l) + Operands(r)
    case ComparisonExpr(_, l, r) => {l, r}
  }

  lemma {:induction false} OperandsFit(e: BoolExpr, v: ValueExpr)
    requires AllLiteralsFit(e) && v in Operands(e)
    ensures LiteralsFit(v)
  {
    match e
    case OrExpr(l, r) => if v in Operands(l) { OperandsFit(l, v); } else { OperandsFit(r, v); }
    case AndExpr(l, r) => if v in Operands(l) { OperandsFit(l, v); } else { OperandsFit(r, v); }
    case ComparisonExpr(_, l, r) =>
  }

  /** Whatever fields a compiled filter is evaluated on, every number it compares fits 64 bits. */
  lemma EvaluationFits(filter: string, v: ValueExpr, fields: map<string, string>)
    requires Compiled(filter).Some? && v in Operands(Compiled(filter).value)
    ensures EvalValue(v, fields).Ok? ==> FilterEval.Fits(EvalValue(v, fields).value)
  {
    hide Compiled;
    hide EvalValue;
    CompiledFits(filter);
    OperandsFit(Compiled(filter).value, v);
    ValuesFit(v, fields);
  }
}
