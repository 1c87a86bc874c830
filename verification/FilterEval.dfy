/**
 Evaluating compiled filters against a room's fields (internal/backend/filter.go).

 LIKE compares with strings.EqualFold. Two strings are equal under it when their case
 foldings are, so the folding is a parameter here and every result holds for any folding.
 */
module FilterEval {
  import opened GoLib
  import opened FilterLexer
  import opened FilterTree

  type Fields = map<string, string>
  type Folding = string -> string

  datatype EvalError = UnknownField(name: string) | NotANumber(str: string) | UnknownOperator
  datatype Outcome<+T> = Ok(value: T) | Fail(error: EvalError)

  datatype Value = Num(num: int) | Text(str: string)

  function AsInt(v: Value): Outcome<int> {
    match v
    case Num(num) => Ok(num)
    case Text(str) =>
      match ParseInt64(str)
      case Some(n) => Ok(n)
      case None => Fail(NotANumber(str))
  }

  function AsString(v: Value): string {
    match v
    case Num(num) => FormatInt(num)
    case Text(str) => str
  }

  function CompareInts(op: TokenKind, l: int, r: int): bool
    requires IsCompareToken(op) && op != Like
  {
    match op
    case Eq => l == r
    case Ne => l != r
    case Lt => l < r
    case Gt => l > r
    case Le => l <= r
    case Ge => l >= r
  }

  function CompareStrings(op: TokenKind, l: string, r: string): bool
    requires IsCompareToken(op) && op != Like
  {
    match op
    case Eq => l == r
    case Ne => l != r
    case Lt => LexLess(l, r)
    case Gt => LexLess(r, l)
    case Le => !LexLess(r, l)
    case Ge => !LexLess(l, r)
  }

  function CompareValues(fold: Folding, op: TokenKind, l: Value, r: Value): Outcome<bool> {
    if op == Like then Ok(fold(AsString(l)) == fold(AsString(r)))
    else if !IsCompareToken(op) then Fail(UnknownOperator)
    else if AsInt(l).Ok? && AsInt(r).Ok? then Ok(CompareInts(op, AsInt(l).value, AsInt(r).value))
    else Ok(CompareStrings(op, AsString(l), AsString(r)))
  }

  function EvalValue(v: ValueExpr, fields: Fields): Outcome<Value> {
    match v
    case NumberExpr(num, _) => Ok(Num(num))
    case StringExpr(str) => Ok(Text(str))
    case FieldExpr(name) =>
      if name !in fields then Fail(UnknownField(name))
      else (
        match ParseInt64(fields[name])
        case Some(n) => Ok(Num(n))
        case None => Ok(Text(fields[name]))
      )
    case GroupedValue(inner) => EvalValue(inner, fields)
    case BitwiseAnd(left, right) =>
      match EvalValue(left, fields)
      case Fail(e) => Fail(e)
      case Ok(l) =>
        match EvalValue(right, fields)
        case Fail(e) => Fail(e)
        case Ok(r) =>
          match AsInt(l)
          case Fail(e) => Fail(e)
          case Ok(ln) =>
            match AsInt(r)
            case Fail(e) => Fail(e)
            case Ok(rn) => Ok(Num(BitAnd(ln, rn)))
  }

  function EvalBool(fold: Folding, e: BoolExpr, fields: Fields): Outcome<bool> {
    match e
    case TrueExpr => Ok(true)
    case OrExpr(left, right) =>
      (match EvalBool(fold, left, fields)
       case Fail(err) => Fail(err)
       case Ok(b) => if b then Ok(true) else EvalBool(fold, right, fields))
    case AndExpr(left, right) =>
      (match EvalBool(fold, left, fields)
       case Fail(err) => Fail(err)
       case Ok(b) => if !b then Ok(false) else EvalBool(fold, right, fields))
    case ComparisonExpr(op, l, r) =>
      match EvalValue(l, fields)
      case Fail(err) => Fail(err)
      case Ok(lv) =>
        match EvalValue(r, fields)
        case Fail(err) => Fail(err)
        case Ok(rv) => CompareValues(fold, op, lv, rv)
  }

  // ---------- chains ----------

  function Conjuncts(e: BoolExpr): (es: seq<BoolExpr>)
    ensures es != []
  {
    if e.AndExpr? then Conjuncts(e.left) + Conjuncts(e.right) else [e]
  }

  function Disjuncts(e: BoolExpr): (es: seq<BoolExpr>)
    ensures es != []
  {
    if e.OrExpr? then Disjuncts(e.left) + Disjuncts(e.right) else [e]
  }

  /** The outcome of the first of `es` whose outcome is not `skip`; `skip` if there is none. */
  function FirstOther(fold: Folding, es: seq<BoolExpr>, fields: Fields, skip: bool): Outcome<bool> {
    if es == [] then Ok(skip)
    else
      var o := EvalBool(fold, es[0], fields);
      if o == Ok(skip) then FirstOther(fold, es[1..], fields, skip) else o
  }

  lemma {:induction false} FirstOtherAppend(fold: Folding, a: seq<BoolExpr>, b: seq<BoolExpr>, fields: Fields, skip: bool)
    ensures var o := FirstOther(fold, a, fields, skip);
            FirstOther(fold, a + b, fields, skip) == if o == Ok(skip) then FirstOther(fold, b, fields, skip) else o
  {
    if a == [] {
      assert a + b == b;
    } else {
      assert (a + b)[1..] == a[1..] + b;
      FirstOtherAppend(fold, a[1..], b, fields, skip);
    }
  }

  /** However it is nested, an and-chain's outcome is that of its first conjunct that is not true. */
  lemma {:induction false} AndChain(fold: Folding, e: BoolExpr, fields: Fields)
    ensures EvalBool(fold, e, fields) == FirstOther(fold, Conjuncts(e), fields, true)
  {
    if e.AndExpr? {
      AndChain(fold, e.left, fields);
      AndChain(fold, e.right, fields);
      FirstOtherAppend(fold, Conjuncts(e.left), Conjuncts(e.right), fields, true);
    } else {
      assert FirstOther(fold, [e][1..], fields, true) == Ok(true);
    }
  }

  /** However it is nested, an or-chain's outcome is that of its first disjunct that is not false. */
  lemma {:induction false} OrChain(fold: Folding, e: BoolExpr, fields: Fields)
    ensures EvalBool(fold, e, fields) == FirstOther(fold, Disjuncts(e), fields, false)
  {
    if e.OrExpr? {
      OrChain(fold, e.left, fields);
      OrChain(fold, e.right, fields);
      FirstOtherAppend(fold, Disjuncts(e.left), Disjuncts(e.right), fields, false);
    } else {
      assert FirstOther(fold, [e][1..], fields, false) == Ok(false);
    }
  }

  // ---------- comparison laws ----------

  /** The outcome of a comparison other than LIKE, which never fails. */
  function Holds(op: TokenKind, l: Value, r: Value): bool
    requires IsCompareToken(op) && op != Like
  {
    CompareValues(s => s, op, l, r).value
  }

  lemma ComparisonsNeverFail(fold: Folding, op: TokenKind, l: Value, r: Value)
    requires IsCompareToken(op)
    ensures CompareValues(fold, op, l, r).Ok?
    ensures op != Like ==> CompareValues(fold, op, l, r) == Ok(Holds(op, l, r))
  {
  }

  /** Exactly one of less, equal and greater holds between any two values, of either kind. */
  lemma Trichotomy(l: Value, r: Value)
    ensures Holds(Lt, l, r) || Holds(Eq, l, r) || Holds(Gt, l, r)
    ensures !(Holds(Lt, l, r) && Holds(Eq, l, r)) && !(Holds(Lt, l, r) && Holds(Gt, l, r)) && !(Holds(Eq, l, r) && Holds(Gt, l, r))
    ensures Holds(Ne, l, r) == !Holds(Eq, l, r)
    ensures Holds(Le, l, r) == !Holds(Gt, l, r) == (Holds(Lt, l, r) || Holds(Eq, l, r))
    ensures Holds(Ge, l, r) == !Holds(Lt, l, r)
    ensures Holds(Gt, l, r) == Holds(Lt, r, l)
  {
    hide LexLess;
    hide ParseInt64;
    hide FormatInt;
    LexTrichotomy(AsString(l), AsString(r));
  }

  /** The values the evaluator produces: its numbers fit 64 bits. */
  predicate Fits(v: Value) {
    v.Num? ==> InInt64(v.num)
  }

  /** What two equal values have in common: their number if they have one, else their text. */
  function Essence(v: Value): Value {
    match AsInt(v)
    case Ok(n) => Num(n)
    case Fail(_) => v
  }

  lemma EqualMeansSameEssence(l: Value, r: Value)
    requires Fits(l) && Fits(r)
    ensures Holds(Eq, l, r) <==> Essence(l) == Essence(r)
  {
    if l.Num? {
      ParseOfFormat(l.num);
    }
    if r.Num? {
      ParseOfFormat(r.num);
    }
  }

  /** Equality is an equivalence relation, also between numbers and strings. */
  lemma EqualityIsEquivalence(a: Value, b: Value, c: Value)
    requires Fits(a) && Fits(b) && Fits(c)
    ensures Holds(Eq, a, a)
    ensures Holds(Eq, a, b) ==> Holds(Eq, b, a)
    ensures Holds(Eq, a, b) && Holds(Eq, b, c) ==> Holds(Eq, a, c)
  {
    EqualMeansSameEssence(a, a);
    EqualMeansSameEssence(a, b);
    EqualMeansSameEssence(b, a);
    EqualMeansSameEssence(b, c);
    EqualMeansSameEssence(a, c);
  }

  predicate HasNumber(v: Value) {
    AsInt(v).Ok?
  }

  /** Of three values exactly two have a number. */
  predicate TwoNumbers(a: bool, b: bool, c: bool) {
    (a && b && !c) || (a && !b && c) || (!a && b && c)
  }

  /** Ordering is transitive unless exactly two of the values have a number. */
  lemma OrderIsTransitive(a: Value, b: Value, c: Value)
    requires !TwoNumbers(HasNumber(a), HasNumber(b), HasNumber(c))
    requires Holds(Lt, a, b) && Holds(Lt, b, c)
    ensures Holds(Lt, a, c)
  {
    hide LexLess;
    hide ParseInt64;
    hide FormatInt;
    if !(HasNumber(a) && HasNumber(b) && HasNumber(c)) {
      LexTransitive(AsString(a), AsString(b), AsString(c));
    }
  }

  /** Across kinds it is not: 9 < 10 as numbers, "10" < "1a" and "1a" < "9" as strings. */
  lemma OrderCycle()
    ensures HasNumber(Num(9)) && HasNumber(Num(10)) && !HasNumber(Text("1a"))
    ensures Holds(Lt, Num(9), Num(10)) && Holds(Lt, Num(10), Text("1a")) && Holds(Lt, Text("1a"), Num(9))
  {
    assert FormatNat(9) == "9";
    assert FormatNat(10) == FormatNat(1) + "0" == "10";
    assert !AllDigits("1a") by {
      assert !IsDigit("1a"[1]);
    }
    assert LexLess("0", "a");
    assert "10"[1..] == "0" && "1a"[1..] == "a";
  }

  /** `<` is transitive on all values of which the first, second and third have a number as given. */
  ghost predicate TransitiveOn(pa: bool, pb: bool, pc: bool) {
    forall a, b, c ::
      HasNumber(a) == pa && HasNumber(b) == pb && HasNumber(c) == pc && Holds(Lt, a, b) && Holds(Lt, b, c)
      ==> Holds(Lt, a, c)
  }

  /** The order is transitive exactly on the patterns that do not have two numbers. */
  lemma TransitiveExactly(pa: bool, pb: bool, pc: bool)
    ensures TransitiveOn(pa, pb, pc) <==> !TwoNumbers(pa, pb, pc)
  {
    hide Holds;
    hide HasNumber;
    if !TwoNumbers(pa, pb, pc) {
      forall a, b, c | HasNumber(a) == pa && HasNumber(b) == pb && HasNumber(c) == pc && Holds(Lt, a, b) && Holds(Lt, b, c)
        ensures Holds(Lt, a, c)
      {
        OrderIsTransitive(a, b, c);
      }
    }
    var nine, ten, text := Num(9), Num(10), Text("1a");
    OrderCycle();
    LessIsAsymmetric(text, nine);
    LessIsAsymmetric(ten, text);
    LessIsAsymmetric(nine, ten);
    NotTransitiveOn(nine, ten, text);
    NotTransitiveOn(ten, text, nine);
    NotTransitiveOn(text, nine, ten);
  }

  lemma NotTransitiveOn(a: Value, b: Value, c: Value)
    requires Holds(Lt, a, b) && Holds(Lt, b, c) && !Holds(Lt, a, c)
    ensures !TransitiveOn(HasNumber(a), HasNumber(b), HasNumber(c))
  {
    hide Holds;
    hide HasNumber;
  }

  lemma LessIsAsymmetric(a: Value, b: Value)
    requires Holds(Lt, a, b)
    ensures !Holds(Lt, b, a)
  {
    Trichotomy(a, b);
  }

  // ---------- the evaluator stays within 64 bits ----------

  lemma {:induction false} BitAndRange(a: int, b: int, k: nat)
    requires a + Pow2(k) >= 0 && a < Pow2(k) && b + Pow2(k) >= 0 && b < Pow2(k)
    ensures BitAnd(a, b) + Pow2(k) >= 0 && BitAnd(a, b) < Pow2(k)
    decreases k
  {
    if k > 0 {
      BitAndRange(a / 2, b / 2, k - 1);
      BitAndHalves(a, b);
    }
  }

  predicate LiteralsFit(v: ValueExpr) {
    match v
    case NumberExpr(num, _) => InInt64(num)
    case BitwiseAnd(l, r) => LiteralsFit(l) && LiteralsFit(r)
    case GroupedValue(inner) => LiteralsFit(inner)
    case _ => true
  }

  lemma {:induction false} ValuesFit(v: ValueExpr, fields: Fields)
    requires LiteralsFit(v)
    ensures EvalValue(v, fields).Ok? ==> Fits(EvalValue(v, fields).value)
  {
    match v
    case BitwiseAnd(l, r) =>
      ValuesFit(l, fields);
      ValuesFit(r, fields);
      if EvalValue(v, fields).Ok? {
        var ln, rn := AsInt(EvalValue(l, fields).value).value, AsInt(EvalValue(r, fields).value).value;
        assert Pow2(63) == 0x8000_0000_0000_0000 by { Pow2Of63(); }
        BitAndRange(ln, rn, 63);
      }
    case GroupedValue(inner) => ValuesFit(inner, fields);
    case _ =>
  }

  lemma Pow2Of63()
    ensures Pow2(63) == 0x8000_0000_0000_0000
  {
    assert Pow2(8) == 256;
    assert Pow2(16) == 0x1_0000;
    assert Pow2(24) == 0x100_0000;
    assert Pow2(32) == 0x1_0000_0000;
    assert Pow2(40) == 0x100_0000_0000;
    assert Pow2(48) == 0x1_0000_0000_0000;
    assert Pow2(56) == 0x100_0000_0000_0000;
  }
}
