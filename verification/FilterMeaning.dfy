/**
 What filters mean, told apart from the evaluator: which operands have a number, how they compare
 as text, what the operators ask, and which rooms a query therefore lists.
 */
module FilterMeaning {
  import opened GoLib
  import opened FilterLexer
  import opened FilterTree
  import opened FilterParser
  import opened FilterGrammar
  import opened FilterPrinter
  import opened FilterEval
  import opened Backend

  // ---------- words ----------

  /** The word is spelled with these letters, each small or large. */
  predicate InAnyCase(word: string, small: string, large: string)
    requires |small| == |large|
  {
    |word| == |small| && forall i :: 0 <= i < |word| ==> word[i] == small[i] || word[i] == large[i]
  }

  /** What a word is: `and`, `or` and `like` in any case are operators, all other words are names as they stand. */
  function WordToken(word: string): Token {
    if InAnyCase(word, "and", "AND") then Token(And, "and", 0)
    else if InAnyCase(word, "or", "OR") then Token(Or, "or", 0)
    else if InAnyCase(word, "like", "LIKE") then Token(Like, "LIKE", 0)
    else Token(Ident, word, 0)
  }

  lemma LowerMeaning(word: string, small: string, large: string)
    requires |small| == |large|
    requires forall i :: 0 <= i < |small| ==> 'a' <= small[i] <= 'z' && small[i] as int == large[i] as int + 32
    ensures ToLower(word) == small <==> InAnyCase(word, small, large)
  {
    if ToLower(word) == small {
      forall i | 0 <= i < |word|
        ensures word[i] == small[i] || word[i] == large[i]
      {
        assert ToLower(word)[i] == ToLowerChar(word[i]);
      }
    }
  }

  lemma KeywordsInAnyCase(word: string)
    ensures KeywordOrIdent(word) == WordToken(word)
  {
    LowerMeaning(word, "and", "AND");
    LowerMeaning(word, "or", "OR");
    LowerMeaning(word, "like", "LIKE");
  }

  /** A run of letters, digits and underscores that starts with no digit is read as that one word. */
  lemma WordIsRead(s: string, p: nat, q: nat, e: nat)
    requires p <= q < e <= |s|
    requires forall i :: p <= i < q ==> IsSpace(s[i])
    requires IsLetter(s[q]) || s[q] == '_'
    requires forall i :: q <= i < e ==> IsLetter(s[i]) || IsDigit(s[i]) || s[i] == '_'
    requires e < |s| ==> !IsLetter(s[e]) && !IsDigit(s[e]) && s[e] != '_'
    ensures LexToken(s, p) == Some((WordToken(s[q..e]), e))
  {
    hide LexAt;
    SpanEndUnique(s, p, IsSpace, q);
    SpanEndUnique(s, q, IsIdentChar, e);
    WordStart(s, q);
    KeywordsInAnyCase(s[q..e]);
  }

  // ---------- order ----------

  /** `a` comes before `b` in the order of bytes: it ends first, or has the smaller byte where they differ first. */
  ghost predicate TextBefore(a: string, b: string) {
    exists k: nat :: DiffersAt(a, b, k)
  }

  predicate DiffersAt(a: string, b: string, k: nat) {
    k <= |a| && k < |b| && a[..k] == b[..k] && (k == |a| || a[k] < b[k])
  }

  lemma {:induction false} LexLessMeaning(a: string, b: string)
    ensures LexLess(a, b) <==> TextBefore(a, b)
  {
    if a == "" || b == "" || a[0] != b[0] {
      assert a == "" && b != "" ==> DiffersAt(a, b, 0);
      assert a != "" && b != "" && a[0] < b[0] ==> DiffersAt(a, b, 0);
      forall k: nat | DiffersAt(a, b, k)
        ensures k == 0
      {
        SameFirst(a, b, k);
      }
    } else {
      LexLessMeaning(a[1..], b[1..]);
      forall k: nat
        ensures DiffersAt(a, b, k + 1) <==> DiffersAt(a[1..], b[1..], k)
        ensures !DiffersAt(a, b, 0)
      {
        if k < |a| && k < |b| {
          assert a[..k + 1] == [a[0]] + a[1..][..k] && b[..k + 1] == [b[0]] + b[1..][..k];
        }
      }
      if k: nat :| DiffersAt(a, b, k) {
        assert DiffersAt(a, b, (k - 1) + 1);
        assert DiffersAt(a[1..], b[1..], k - 1);
      }
    }
  }

  lemma SameFirst(a: string, b: string, k: nat)
    ensures DiffersAt(a, b, k) && k > 0 ==> a != "" && b != "" && a[0] == b[0]
  {
    if DiffersAt(a, b, k) && k > 0 {
      assert a[..k][0] == b[..k][0];
    }
  }

  /** What an operator asks of two operands of which the left comes before, is the same, or comes after. */
  predicate Asks(op: TokenKind, before: bool, same: bool, after: bool) {
    || (op == Lt && before) || (op == Le && (before || same))
    || (op == Gt && after) || (op == Ge && (after || same))
    || (op == Eq && same) || (op == Ne && (before || after))
  }

  // ---------- operands ----------

  /** The number of an operand: a literal, or text that reads as a 64-bit integer. */
  function NumberOf(v: ValueExpr, fields: map<string, string>): Option<int> {
    match v
    case NumberExpr(num, _) => Some(num)
    case StringExpr(str) => ParseInt64(str)
    case FieldExpr(name) => if name in fields then ParseInt64(fields[name]) else None
    case GroupedValue(inner) => NumberOf(inner, fields)
    case BitwiseAnd(l, r) =>
      var a, b := NumberOf(l, fields), NumberOf(r, fields);
      if a.Some? && b.Some? then Some(BitAnd(a.value, b.value)) else None
  }

  /** All names are fields of the room, and `&` has numbers on both sides. */
  predicate Known(v: ValueExpr, fields: map<string, string>) {
    match v
    case FieldExpr(name) => name in fields
    case GroupedValue(inner) => Known(inner, fields)
    case BitwiseAnd(l, r) => Known(l, fields) && Known(r, fields) && NumberOf(l, fields).Some? && NumberOf(r, fields).Some?
    case _ => true
  }

  /** How an operand reads when it is compared as text; a field that is a number reads as that number. */
  function TextFor(v: ValueExpr, fields: map<string, string>): string
    requires Known(v, fields)
  {
    match v
    case StringExpr(str) => str
    case GroupedValue(inner) => TextFor(inner, fields)
    case FieldExpr(name) => if ParseInt64(fields[name]).Some? then FormatInt(ParseInt64(fields[name]).value) else fields[name]
    case NumberExpr(num, _) => FormatInt(num)
    case BitwiseAnd(_, _) => FormatInt(NumberOf(v, fields).value)
  }

  lemma {:induction false} OperandMeaning(v: ValueExpr, fields: map<string, string>)
    ensures var o := EvalValue(v, fields);
            && (o.Ok? <==> Known(v, fields))
            && (o.Ok? ==> AsString(o.value) == TextFor(v, fields)
                          && (AsInt(o.value).Ok? <==> NumberOf(v, fields).Some?)
                          && (AsInt(o.value).Ok? ==> AsInt(o.value).value == NumberOf(v, fields).value))
  {
    hide ParseInt64;
    hide FormatInt;
    hide BitAnd;
    match v
    case GroupedValue(inner) => OperandMeaning(inner, fields);
    case BitwiseAnd(l, r) =>
      OperandMeaning(l, fields);
      OperandMeaning(r, fields);
    case _ =>
  }

  // ---------- comparisons ----------

  /** The room's fields satisfy the comparison. */
  ghost predicate Satisfied(fold: Folding, op: TokenKind, l: ValueExpr, r: ValueExpr, fields: map<string, string>) {
    Known(l, fields) && Known(r, fields) &&
    if op == Like then fold(TextFor(l, fields)) == fold(TextFor(r, fields))
    else if NumberOf(l, fields).Some? && NumberOf(r, fields).Some? then
      var a, b := NumberOf(l, fields).value, NumberOf(r, fields).value;
      Asks(op, a < b, a == b, a > b)
    else
      var s, t := TextFor(l, fields), TextFor(r, fields);
      Asks(op, TextBefore(s, t), s == t, TextBefore(t, s))
  }

  /** A comparison fails exactly when an operand is not known, and else is true exactly when satisfied. */
  lemma ComparisonMeaning(fold: Folding, op: TokenKind, l: ValueExpr, r: ValueExpr, fields: map<string, string>)
    requires IsCompareToken(op)
    ensures var o := EvalBool(fold, ComparisonExpr(op, l, r), fields);
            && (o.Ok? <==> Known(l, fields) && Known(r, fields))
            && (o.Ok? ==> o.value == Satisfied(fold, op, l, r, fields))
  {
    hide ParseInt64;
    hide FormatInt;
    hide EvalValue;
    hide Known;
    hide TextFor;
    hide NumberOf;
    hide TextBefore;
    hide LexLess;
    OperandMeaning(l, fields);
    OperandMeaning(r, fields);
    if Known(l, fields) && Known(r, fields) {
      var s, t := TextFor(l, fields), TextFor(r, fields);
      LexLessMeaning(s, t);
      LexLessMeaning(t, s);
      LexTrichotomy(s, t);
    }
  }

  /** A field with a number against a number, both ways round. */
  lemma FieldAgainstNumber(fold: Folding, name: string, a: int, b: int, raw: string, fields: map<string, string>)
    requires name in fields && ParseInt64(fields[name]) == Some(a)
    ensures var f, n := FieldExpr(name), NumberExpr(b, raw);
            && EvalBool(fold, ComparisonExpr(Lt, f, n), fields) == Outcome.Ok(a < b)
            && EvalBool(fold, ComparisonExpr(Le, f, n), fields) == Outcome.Ok(a <= b)
            && EvalBool(fold, ComparisonExpr(Gt, f, n), fields) == Outcome.Ok(a > b)
            && EvalBool(fold, ComparisonExpr(Ge, f, n), fields) == Outcome.Ok(a >= b)
            && EvalBool(fold, ComparisonExpr(Eq, f, n), fields) == Outcome.Ok(a == b)
            && EvalBool(fold, ComparisonExpr(Ne, f, n), fields) == Outcome.Ok(a != b)
            && EvalBool(fold, ComparisonExpr(Lt, n, f), fields) == Outcome.Ok(b < a)
            && EvalBool(fold, ComparisonExpr(Le, n, f), fields) == Outcome.Ok(b <= a)
            && EvalBool(fold, ComparisonExpr(Gt, n, f), fields) == Outcome.Ok(b > a)
            && EvalBool(fold, ComparisonExpr(Ge, n, f), fields) == Outcome.Ok(b >= a)
            && EvalBool(fold, ComparisonExpr(Eq, n, f), fields) == Outcome.Ok(b == a)
            && EvalBool(fold, ComparisonExpr(Ne, n, f), fields) == Outcome.Ok(b != a)
  {
    hide ParseInt64;
    hide EvalBool;
    var f, n := FieldExpr(name), NumberExpr(b, raw);
    forall op | IsCompareToken(op) && op != Like
      ensures EvalBool(fold, ComparisonExpr(op, f, n), fields) == Outcome.Ok(Asks(op, a < b, a == b, a > b))
      ensures EvalBool(fold, ComparisonExpr(op, n, f), fields) == Outcome.Ok(Asks(op, b < a, b == a, b > a))
    {
      ComparisonMeaning(fold, op, f, n, fields);
      ComparisonMeaning(fold, op, n, f, fields);
    }
  }

  /** A field or a literal without a number against any text, both ways round, in the order of bytes. */
  lemma FieldAgainstText(fold: Folding, name: string, str: string, fields: map<string, string>)
    requires name in fields && ParseInt64(fields[name]).None?
    ensures var f, t, s := FieldExpr(name), StringExpr(str), fields[name];
            && EvalBool(fold, ComparisonExpr(Lt, f, t), fields) == Outcome.Ok(TextBefore(s, str))
            && EvalBool(fold, ComparisonExpr(Gt, f, t), fields) == Outcome.Ok(TextBefore(str, s))
            && EvalBool(fold, ComparisonExpr(Eq, f, t), fields) == Outcome.Ok(s == str)
            && EvalBool(fold, ComparisonExpr(Ne, f, t), fields) == Outcome.Ok(s != str)
            && EvalBool(fold, ComparisonExpr(Lt, t, f), fields) == Outcome.Ok(TextBefore(str, s))
            && EvalBool(fold, ComparisonExpr(Like, f, t), fields) == Outcome.Ok(fold(s) == fold(str))
  {
    hide ParseInt64;
    hide EvalBool;
    hide TextBefore;
    var f, t, s := FieldExpr(name), StringExpr(str), fields[name];
    forall op | IsCompareToken(op)
      ensures var o := EvalBool(fold, ComparisonExpr(op, f, t), fields);
              o == Outcome.Ok(if op == Like then fold(s) == fold(str) else Asks(op, TextBefore(s, str), s == str, TextBefore(str, s)))
      ensures op != Like ==>
                EvalBool(fold, ComparisonExpr(op, t, f), fields) == Outcome.Ok(Asks(op, TextBefore(str, s), s == str, TextBefore(s, str)))
    {
      ComparisonMeaning(fold, op, f, t, fields);
      ComparisonMeaning(fold, op, t, f, fields);
    }
    LexLessMeaning(s, str);
    LexLessMeaning(str, s);
    LexTrichotomy(s, str);
  }

  /** A name that the room does not have makes any comparison with it fail. */
  lemma MissingField(fold: Folding, op: TokenKind, name: string, other: ValueExpr, fields: map<string, string>)
    requires IsCompareToken(op) && name !in fields
    ensures EvalBool(fold, ComparisonExpr(op, FieldExpr(name), other), fields).Fail?
    ensures EvalBool(fold, ComparisonExpr(op, other, FieldExpr(name)), fields).Fail?
  {
    ComparisonMeaning(fold, op, FieldExpr(name), other, fields);
    ComparisonMeaning(fold, op, other, FieldExpr(name), fields);
  }

  // ---------- queries ----------

  lemma {:induction false} MatchingHolds(fold: Folding, root: BoolExpr, list: seq<ServerRecord>, rec: ServerRecord)
    ensures rec in Matching(fold, root, list) <==> rec in list && EvalBool(fold, root, AsMap(rec)) == Outcome.Ok(true)
  {
    hide AsMap;
    hide EvalBool;
    if list != [] {
      var n := |list| - 1;
      MatchingHolds(fold, root, list[..n], rec);
      assert list == list[..n] + [list[n]];
    }
  }

  /** The room is among the results of the query, without a limit. */
  ghost predicate IsListed(fold: Folding, rooms: Rooms, game: string, filter: string, fields: seq<string>, rec: ServerRecord) {
    var found := Found(fold, rooms, game, filter, fields, 0);
    found.Some? && exists i :: 0 <= i < |found.value| && found.value[i].record == rec
  }

  lemma ListedIsMatching(fold: Folding, rooms: Rooms, game: string, filter: string, fields: seq<string>, rec: ServerRecord)
    requires Compiled(filter).Some?
    ensures IsListed(fold, rooms, game, filter, fields, rec) <==>
            rec in Matching(fold, Compiled(filter).value, ListOf(rooms, game))
  {
    hide Matching;
    hide Compiled;
    hide ListOf;
    var list := Matching(fold, Compiled(filter).value, ListOf(rooms, game));
    var found := Found(fold, rooms, game, filter, fields, 0).value;
    assert forall i :: 0 <= i < |list| ==> found[i].record == list[i];
  }

  /** A query for one comparison lists exactly the rooms of the game whose fields satisfy it. */
  lemma ListedExactly(
      fold: Folding, rooms: Rooms, game: string, filter: string, fields: seq<string>,
      op: TokenKind, l: ValueExpr, r: ValueExpr, rec: ServerRecord)
    requires Compiled(filter) == Some(ComparisonExpr(op, l, r)) && IsCompareToken(op)
    ensures IsListed(fold, rooms, game, filter, fields, rec) <==>
            rec in ListOf(rooms, game) && Satisfied(fold, op, l, r, AsMap(rec))
  {
    hide Compiled;
    hide IsListed;
    hide Satisfied;
    hide EvalBool;
    hide AsMap;
    hide ListOf;
    ListedIsMatching(fold, rooms, game, filter, fields, rec);
    MatchingHolds(fold, ComparisonExpr(op, l, r), ListOf(rooms, game), rec);
    ComparisonMeaning(fold, op, l, r, AsMap(rec));
    SatisfiedIsKnown(fold, op, l, r, AsMap(rec));
  }

  lemma SatisfiedIsKnown(fold: Folding, op: TokenKind, l: ValueExpr, r: ValueExpr, fields: map<string, string>)
    ensures Satisfied(fold, op, l, r, fields) ==> Known(l, fields) && Known(r, fields)
  {
  }

  /** A blank filter lists every room of the game. */
  lemma BlankListsAll(fold: Folding, rooms: Rooms, game: string, filter: string, fields: seq<string>, rec: ServerRecord)
    requires TrimSpace(filter) == ""
    ensures IsListed(fold, rooms, game, filter, fields, rec) <==> rec in ListOf(rooms, game)
  {
    hide IsListed;
    hide ListOf;
    hide AsMap;
    ListedIsMatching(fold, rooms, game, filter, fields, rec);
    MatchingHolds(fold, TrueExpr, ListOf(rooms, game), rec);
  }

  /** With a limit a query gives the first of the results it gives without one. */
  lemma LimitTakesFirst(fold: Folding, rooms: Rooms, game: string, filter: string, fields: seq<string>, maxCount: int)
    requires Compiled(filter).Some?
    ensures var all, some := Found(fold, rooms, game, filter, fields, 0).value, Found(fold, rooms, game, filter, fields, maxCount).value;
            some <= all && |some| == if maxCount <= 0 || maxCount > |all| then |all| else maxCount
  {
    hide Compiled;
    hide Matching;
    hide ListOf;
  }

  // ---------- a real query ----------

  /** The filter `numplayers < 3` lists the rooms with fewer than three players, or a text before `3` for them. */
  lemma FewPlayers(fold: Folding, rooms: Rooms, game: string, fields: seq<string>, rec: ServerRecord)
    requires rec in ListOf(rooms, game)
    ensures Compiled("numplayers < 3").Some?
    ensures IsListed(fold, rooms, game, "numplayers < 3", fields, rec) <==>
            var m := AsMap(rec);
            "numplayers" in m && if ParseInt64(m["numplayers"]).Some? then ParseInt64(m["numplayers"]).value < 3
                                 else TextBefore(m["numplayers"], "3")
  {
    hide Compiled;
    hide IsListed;
    hide AsMap;
    hide ListOf;
    hide TextBefore;
    hide ParseInt64;
    FewPlayersText();
    var l, r := FieldExpr("numplayers"), NumberExpr(3, "3");
    ListedExactly(fold, rooms, game, "numplayers < 3", fields, Lt, l, r, rec);
    assert FormatInt(3) == "3";
  }

  lemma FewPlayersText()
    ensures Compiled("numplayers < 3") == Some(ComparisonExpr(Lt, FieldExpr("numplayers"), NumberExpr(3, "3")))
  {
    hide Compiled;
    hide Spellable;
    hide Spell;
    var e := ComparisonExpr(Lt, FieldExpr("numplayers"), NumberExpr(3, "3"));
    var name, three := Token(Ident, "numplayers", 0), Token(Number, "3", 3);
    NameSpellable();
    ThreeSpellable();
    var ts := [name] + ([Punctuation(Lt)] + [three]);
    assert OrYield(ToOr(e)) == FactorYield(ToFactor(e)) == ts;
    SpellLast(three);
    SpellStep(Punctuation(Lt), [three]);
    SpellStep(name, [Punctuation(Lt)] + [three]);
    assert Spell([Punctuation(Lt)] + [three]) == "< 3";
    assert Spell(ts) == "numplayers" + " " + "< 3" == "numplayers < 3";
    assert Print(e) == Spell(ts);
    RoundTrip(e);
  }

  lemma NameSpellable()
    ensures Spellable(Token(Ident, "numplayers", 0))
  {
    assert ToLower("numplayers") == "numplayers";
  }

  lemma ThreeSpellable()
    ensures Spellable(Token(Number, "3", 3))
  {
    assert "3"[..0] == "" && Decimal("3") == 10 * Decimal("3"[..0]) + 3 == 3;
  }
}
