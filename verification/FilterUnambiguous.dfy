/**
 The filter grammar is unambiguous: a token list has at most one derivation. This is about the
 grammar alone, with or without the comparisons that the parser does not handle.
 */
module FilterUnambiguous {
  import opened GoLib
  import opened FilterLexer
  import opened FilterTree
  import opened FilterParser
  import opened FilterGrammar

  // ---------- chains as lists ----------

  function Factors(c: AndTree): (fs: seq<FactorTree>)
    ensures fs != []
  {
    match c
    case OneFactor(f) => [f]
    case AndThen(left, f) => Factors(left) + [f]
  }

  function Conjunctions(o: OrTree): (cs: seq<AndTree>)
    ensures cs != []
  {
    match o
    case OneAnd(c) => [c]
    case OrThen(left, c) => Conjunctions(left) + [c]
  }

  function FactorsYield(fs: seq<FactorTree>): seq<Token>
    requires fs != []
  {
    if |fs| == 1 then FactorYield(fs[0]) else FactorYield(fs[0]) + [Punctuation(And)] + FactorsYield(fs[1..])
  }

  function ConjunctionsYield(cs: seq<AndTree>): seq<Token>
    requires cs != []
  {
    if |cs| == 1 then AndYield(cs[0]) else AndYield(cs[0]) + [Punctuation(Or)] + ConjunctionsYield(cs[1..])
  }

  lemma {:induction false} FactorsYieldLast(fs: seq<FactorTree>, f: FactorTree)
    requires fs != []
    ensures FactorsYield(fs + [f]) == FactorsYield(fs) + [Punctuation(And)] + FactorYield(f)
  {
    if |fs| == 1 {
      assert (fs + [f])[1..] == [f];
    } else {
      assert (fs + [f])[1..] == fs[1..] + [f];
      FactorsYieldLast(fs[1..], f);
      Regroup(FactorYield(fs[0]), [Punctuation(And)], FactorsYield(fs[1..]), [Punctuation(And)], FactorYield(f));
    }
  }

  lemma {:induction false} ConjunctionsYieldLast(cs: seq<AndTree>, c: AndTree)
    requires cs != []
    ensures ConjunctionsYield(cs + [c]) == ConjunctionsYield(cs) + [Punctuation(Or)] + AndYield(c)
  {
    if |cs| == 1 {
      assert (cs + [c])[1..] == [c];
    } else {
      assert (cs + [c])[1..] == cs[1..] + [c];
      ConjunctionsYieldLast(cs[1..], c);
      Regroup(AndYield(cs[0]), [Punctuation(Or)], ConjunctionsYield(cs[1..]), [Punctuation(Or)], AndYield(c));
    }
  }

  lemma Regroup(a: seq<Token>, b: seq<Token>, c: seq<Token>, d: seq<Token>, e: seq<Token>)
    ensures a + b + (c + d + e) == (a + b + c) + d + e
  {
  }

  lemma {:induction false} AndAsList(c: AndTree)
    ensures AndYield(c) == FactorsYield(Factors(c))
    ensures AndOk(c) ==> forall i :: 0 <= i < |Factors(c)| ==> FactorOk(Factors(c)[i])
  {
    match c
    case OneFactor(f) =>
    case AndThen(left, f) =>
      AndAsList(left);
      FactorsYieldLast(Factors(left), f);
  }

  lemma {:induction false} OrAsList(o: OrTree)
    ensures OrYield(o) == ConjunctionsYield(Conjunctions(o))
    ensures OrOk(o) ==> forall i :: 0 <= i < |Conjunctions(o)| ==> AndOk(Conjunctions(o)[i])
  {
    match o
    case OneAnd(c) =>
    case OrThen(left, c) =>
      OrAsList(left);
      ConjunctionsYieldLast(Conjunctions(left), c);
  }

  lemma {:induction false} SameFactors(c1: AndTree, c2: AndTree)
    requires Factors(c1) == Factors(c2)
    ensures c1 == c2
  {
    var fs := Factors(c1);
    assert fs[|fs| - 1] == Factors(c2)[|fs| - 1];
    if c1.AndThen? && c2.AndThen? {
      assert Factors(c1.left) == fs[..|fs| - 1] == Factors(c2.left);
      SameFactors(c1.left, c2.left);
    }
  }

  lemma {:induction false} SameConjunctions(o1: OrTree, o2: OrTree)
    requires Conjunctions(o1) == Conjunctions(o2)
    ensures o1 == o2
  {
    var cs := Conjunctions(o1);
    assert cs[|cs| - 1] == Conjunctions(o2)[|cs| - 1];
    if o1.OrThen? && o2.OrThen? {
      assert Conjunctions(o1.left) == cs[..|cs| - 1] == Conjunctions(o2.left);
      SameConjunctions(o1.left, o2.left);
    }
  }

  // ---------- one way to read the front of a token list ----------

  lemma ValueReadOnce(v1: ValueExpr, r1: seq<Token>, v2: ValueExpr, r2: seq<Token>)
    requires ValueOk(v1) && ValueOk(v2) && r1 != [] && r2 != [] && r1[0].kind != Amp && r2[0].kind != Amp
    requires ValueYield(v1) + r1 == ValueYield(v2) + r2
    ensures v1 == v2 && r1 == r2
  {
    ParsesValue(v1, r1);
    ParsesValue(v2, r2);
    EndsTail(v1, r1);
    EndsTail(v2, r2);
  }

  /** A comparison is never also a boolean group. */
  lemma ComparisonIsNoGroup(op: TokenKind, l: ValueExpr, r: ValueExpr, r1: seq<Token>, inner: OrTree, r2: seq<Token>)
    requires ValueOk(l) && OrOk(inner)
    ensures FactorYield(Compared(op, l, r)) + r1 != FactorYield(Paren(inner)) + r2
  {
    hide OrYield;
    var ts := FactorYield(Paren(inner)) + r2;
    ParenSplits(inner, r2);
    DisjunctionIsNoValue(inner, [Punctuation(RParen)] + r2);
    if FactorYield(Compared(op, l, r)) + r1 == ts {
      var after := ComparedSplits(op, l, r, r1);
      assert ts[0] == ValueYield(l)[0];
      FirstToken(l);
      var g, tail := FirstGroupOf(l);
      assert ts == [Punctuation(LParen)] + (ValueYield(g) + ([Punctuation(RParen)] + (tail + after)));
      assert ts[1..] == ValueYield(g) + ([Punctuation(RParen)] + (tail + after));
      ParsesValue(g, [Punctuation(RParen)] + (tail + after));
      EndsTail(g, [Punctuation(RParen)] + (tail + after));
      assert false;
    }
  }

  /** A value that starts with `(`: what its first group is, and what follows. */
  lemma FirstGroupOf(v: ValueExpr) returns (g: ValueExpr, tail: seq<Token>)
    requires ValueOk(v) && StartsWithParen(v)
    ensures ValueOk(g)
    ensures ValueYield(v) == [Punctuation(LParen)] + (ValueYield(g) + ([Punctuation(RParen)] + tail))
  {
    if v.GroupedValue? {
      g, tail := v.inner, [];
    } else {
      var more;
      g, more := FirstGroup(v);
      tail := [Punctuation(Amp)] + more;
      assert [Punctuation(RParen), Punctuation(Amp)] + more == [Punctuation(RParen)] + tail;
    }
  }

  predicate EndsFactor(r: seq<Token>) {
    r != [] && r[0].kind != Amp
  }

  predicate EndsAnd(r: seq<Token>) {
    EndsFactor(r) && r[0].kind != And
  }

  predicate EndsOr(r: seq<Token>) {
    EndsAnd(r) && r[0].kind != Or
  }

  lemma {:induction false} FactorReadOnce(f1: FactorTree, r1: seq<Token>, f2: FactorTree, r2: seq<Token>)
    requires FactorOk(f1) && FactorOk(f2) && EndsFactor(r1) && EndsFactor(r2)
    requires FactorYield(f1) + r1 == FactorYield(f2) + r2
    ensures f1 == f2 && r1 == r2
    decreases |FactorYield(f1)|, 0
  {
    match f1
    case Compared(op1, l1, v1) =>
      if f2.Paren? {
        ComparisonIsNoGroup(op1, l1, v1, r1, f2.inner, r2);
      } else {
        var rest1 := ComparedSplits(op1, l1, v1, r1);
        var rest2 := ComparedSplits(f2.op, f2.l, f2.r, r2);
        ValueReadOnce(l1, rest1, f2.l, rest2);
        ValueReadOnce(v1, r1, f2.r, r2);
      }
    case Paren(inner1) =>
      if f2.Compared? {
        ComparisonIsNoGroup(f2.op, f2.l, f2.r, r2, inner1, r1);
      } else {
        ParenSplits(inner1, r1);
        ParenSplits(f2.inner, r2);
        var rest1, rest2 := [Punctuation(RParen)] + r1, [Punctuation(RParen)] + r2;
        OrReadOnce(inner1, rest1, f2.inner, rest2);
        assert r1 == rest1[1..] == rest2[1..] == r2;
      }
  }

  lemma {:induction false} FactorsReadOnce(fs1: seq<FactorTree>, r1: seq<Token>, fs2: seq<FactorTree>, r2: seq<Token>)
    requires fs1 != [] && fs2 != [] && EndsAnd(r1) && EndsAnd(r2)
    requires forall i :: 0 <= i < |fs1| ==> FactorOk(fs1[i])
    requires forall i :: 0 <= i < |fs2| ==> FactorOk(fs2[i])
    requires FactorsYield(fs1) + r1 == FactorsYield(fs2) + r2
    ensures fs1 == fs2 && r1 == r2
    decreases |FactorsYield(fs1)|, 1
  {
    var rest1 := FactorsSplit(fs1, r1);
    var rest2 := FactorsSplit(fs2, r2);
    FactorReadOnce(fs1[0], rest1, fs2[0], rest2);
    if |fs1| > 1 && |fs2| > 1 {
      FactorsReadOnce(fs1[1..], r1, fs2[1..], r2);
      assert fs1 == [fs1[0]] + fs1[1..] && fs2 == [fs2[0]] + fs2[1..];
    }
  }

  lemma FactorsSplit(fs: seq<FactorTree>, r: seq<Token>) returns (rest: seq<Token>)
    requires fs != [] && EndsAnd(r)
    ensures FactorsYield(fs) + r == FactorYield(fs[0]) + rest && EndsFactor(rest)
    ensures |fs| == 1 ==> rest == r
    ensures |fs| > 1 ==> rest[0].kind == And && rest[1..] == FactorsYield(fs[1..]) + r
    ensures |FactorYield(fs[0])| <= |FactorsYield(fs)|
    ensures |fs| > 1 ==> |FactorsYield(fs[1..])| < |FactorsYield(fs)|
  {
    if |fs| == 1 {
      rest := r;
    } else {
      rest := [Punctuation(And)] + (FactorsYield(fs[1..]) + r);
    }
  }

  lemma {:induction false} AndReadOnce(c1: AndTree, r1: seq<Token>, c2: AndTree, r2: seq<Token>)
    requires AndOk(c1) && AndOk(c2) && EndsAnd(r1) && EndsAnd(r2)
    requires AndYield(c1) + r1 == AndYield(c2) + r2
    ensures c1 == c2 && r1 == r2
    decreases |AndYield(c1)|, 2
  {
    AndAsList(c1);
    AndAsList(c2);
    FactorsReadOnce(Factors(c1), r1, Factors(c2), r2);
    SameFactors(c1, c2);
  }

  lemma {:induction false} ConjunctionsReadOnce(cs1: seq<AndTree>, r1: seq<Token>, cs2: seq<AndTree>, r2: seq<Token>)
    requires cs1 != [] && cs2 != [] && EndsOr(r1) && EndsOr(r2)
    requires forall i :: 0 <= i < |cs1| ==> AndOk(cs1[i])
    requires forall i :: 0 <= i < |cs2| ==> AndOk(cs2[i])
    requires ConjunctionsYield(cs1) + r1 == ConjunctionsYield(cs2) + r2
    ensures cs1 == cs2 && r1 == r2
    decreases |ConjunctionsYield(cs1)|, 3
  {
    var rest1 := ConjunctionsSplit(cs1, r1);
    var rest2 := ConjunctionsSplit(cs2, r2);
    AndReadOnce(cs1[0], rest1, cs2[0], rest2);
    if |cs1| > 1 && |cs2| > 1 {
      ConjunctionsReadOnce(cs1[1..], r1, cs2[1..], r2);
      assert cs1 == [cs1[0]] + cs1[1..] && cs2 == [cs2[0]] + cs2[1..];
    }
  }

  lemma ConjunctionsSplit(cs: seq<AndTree>, r: seq<Token>) returns (rest: seq<Token>)
    requires cs != [] && EndsOr(r)
    ensures ConjunctionsYield(cs) + r == AndYield(cs[0]) + rest && EndsAnd(rest)
    ensures |cs| == 1 ==> rest == r
    ensures |cs| > 1 ==> rest[0].kind == Or && rest[1..] == ConjunctionsYield(cs[1..]) + r
    ensures |AndYield(cs[0])| <= |ConjunctionsYield(cs)|
    ensures |cs| > 1 ==> |ConjunctionsYield(cs[1..])| < |ConjunctionsYield(cs)|
  {
    if |cs| == 1 {
      rest := r;
    } else {
      rest := [Punctuation(Or)] + (ConjunctionsYield(cs[1..]) + r);
    }
  }

  lemma {:induction false} OrReadOnce(o1: OrTree, r1: seq<Token>, o2: OrTree, r2: seq<Token>)
    requires OrOk(o1) && OrOk(o2) && EndsOr(r1) && EndsOr(r2)
    requires OrYield(o1) + r1 == OrYield(o2) + r2
    ensures o1 == o2 && r1 == r2
    decreases |OrYield(o1)|, 4
  {
    OrAsList(o1);
    OrAsList(o2);
    ConjunctionsReadOnce(Conjunctions(o1), r1, Conjunctions(o2), r2);
    SameConjunctions(o1, o2);
  }

  /** Two derivations of the same tokens are the same derivation. */
  lemma Unambiguous(o1: OrTree, o2: OrTree)
    requires OrOk(o1) && OrOk(o2) && OrYield(o1) == OrYield(o2)
    ensures o1 == o2
  {
    OrReadOnce(o1, END, o2, END);
  }
}
