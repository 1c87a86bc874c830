/**
 Requests on a keep-alive connection: when the length that the wrapper computes from a header
 block is the body length of the request, and what the server then gets to see.
 */
module HttpRequests {
  import opened GoLib
  import opened HttpMessage
  import opened HttpFix

  // ---------- trimming ----------

  predicate IsPlainChar(c: char) {
    IsDigit(c) || c == ',' || IsOws(c)
  }

  /** Digits, commas and white space only. */
  predicate AllPlain(s: string) {
    forall i :: 0 <= i < |s| ==> IsPlainChar(s[i])
  }

  /** A string is white space, a core that is empty or begins and ends otherwise, and white space. */
  ghost predicate Cored(s: string, u: string, core: string, v: string) {
    && s == u + core + v && AllOws(u) && AllOws(v)
    && (core == "" ==> v == "")
    && (core != "" ==> !IsOws(core[0]) && !IsOws(core[|core| - 1]))
  }

  lemma {:induction false} LeftSplits(s: string) returns (u: string)
    ensures s == u + OwsLeft(s) && AllOws(u)
    ensures OwsLeft(s) != "" ==> !IsOws(OwsLeft(s)[0])
  {
    if s != "" && IsOws(s[0]) {
      var w := LeftSplits(s[1..]);
      u := [s[0]] + w;
    } else {
      u := "";
    }
  }

  lemma {:induction false} RightSplits(s: string) returns (v: string)
    ensures s == OwsRight(s) + v && AllOws(v)
    ensures OwsRight(s) != "" ==> !IsOws(OwsRight(s)[|OwsRight(s)| - 1])
  {
    if s != "" && IsOws(s[|s| - 1]) {
      var w := RightSplits(s[..|s| - 1]);
      v := w + [s[|s| - 1]];
    } else {
      v := "";
    }
  }

  lemma CoreOf(s: string) returns (u: string, v: string)
    ensures Cored(s, u, TrimOws(s), v)
  {
    u := LeftSplits(s);
    v := RightSplits(OwsLeft(s));
    var core := TrimOws(s);
    assert OwsLeft(s) == core + v;
    if core == "" {
      assert v == OwsLeft(s);
    } else {
      assert core[0] == OwsLeft(s)[0];
    }
  }

  /** Where white space is, and where it is not. */
  lemma CoreShows(s: string, u: string, core: string, v: string)
    requires Cored(s, u, core, v)
    ensures forall i :: 0 <= i < |u| || |s| - |v| <= i < |s| ==> IsOws(s[i])
    ensures core != "" ==> |u| < |s| && !IsOws(s[|u|]) && |v| < |s| && !IsOws(s[|s| - 1 - |v|])
  {
    forall i | 0 <= i < |u| || |s| - |v| <= i < |s|
      ensures IsOws(s[i])
    {
      assert i < |u| ==> s[i] == u[i];
      assert |s| - |v| <= i ==> s[i] == v[i - |u + core|];
    }
    if core != "" {
      assert s[|u|] == core[0] && s[|s| - 1 - |v|] == core[|core| - 1];
    }
  }

  lemma PlainIsNotWide(s: string, k: nat)
    requires k < |s| && s[k] < '\U{80}'
    ensures !IsWideSpace(s)
  {
  }

  /** Behind a printable ASCII character, trimming at the right stops there at the latest. */
  lemma {:induction false} TrimRightKeeps(a: string, b: string)
    requires a != "" && '!' <= a[|a| - 1] <= '~'
    ensures TrimRight(a + b) == a + TrimRight(b)
    decreases |b|
  {
    hide IsWideSpace;
    var s := a + b;
    SameTrailing(a, b);
    var n := TrailingSpace(b);
    if n > 0 {
      assert s[..|s| - n] == a + b[..|b| - n];
      TrimRightKeeps(a, b[..|b| - n]);
    }
  }

  lemma SameTrailing(a: string, b: string)
    requires a != "" && '!' <= a[|a| - 1] <= '~'
    ensures TrailingSpace(a + b) == TrailingSpace(b)
  {
    hide TrailingSpace;
    if |b| >= 3 {
      BehindThree(a, b);
    } else if |b| == 2 {
      BehindTwo(a, b);
    } else {
      BehindFewer(a, b);
    }
  }

  lemma BehindThree(a: string, b: string)
    requires |b| >= 3
    ensures TrailingSpace(a + b) == TrailingSpace(b)
  {
    hide TrailingSpace;
    SameTail(a, b, 2);
    SameTail(a, b, 3);
    SameLong(a + b, b);
  }

  lemma BehindTwo(a: string, b: string)
    requires a != "" && '!' <= a[|a| - 1] <= '~' && |b| == 2
    ensures TrailingSpace(a + b) == TrailingSpace(b)
  {
    hide TrailingSpace;
    hide IsWideSpace;
    BehindAll(a, b);
    NoWideTail(a, b, 3);
    SameTwo(a + b, b);
  }

  lemma BehindFewer(a: string, b: string)
    requires a != "" && '!' <= a[|a| - 1] <= '~' && |b| <= 1
    ensures TrailingSpace(a + b) == TrailingSpace(b)
  {
    hide TrailingSpace;
    hide IsWideSpace;
    NoWideTail(a, b, 2);
    NoWideTail(a, b, 3);
    SameShort(a + b, b);
  }

  lemma SameLong(s: string, b: string)
    requires |s| >= 3 && |b| >= 3 && s[|s| - 1] == b[|b| - 1] && s[|s| - 2..] == b[|b| - 2..] && s[|s| - 3..] == b[|b| - 3..]
    ensures TrailingSpace(s) == TrailingSpace(b)
  {
    hide IsWideSpace;
  }

  lemma BehindAll(a: string, b: string)
    ensures (a + b)[|a + b| - |b|..] == b
  {
  }

  lemma SameTwo(s: string, b: string)
    requires |s| >= 3 && |b| == 2 && s[|s| - 2..] == b && !IsWideSpace(s[|s| - 3..])
    ensures TrailingSpace(s) == TrailingSpace(b)
  {
    hide IsWideSpace;
    assert b[0..] == b && s[|s| - 1] == b[1];
  }

  lemma SameShort(s: string, b: string)
    requires |s| > |b| && |b| <= 1
    requires if b == "" then !IsAsciiSpace(s[|s| - 1]) else s[|s| - 1] == b[|b| - 1]
    requires |s| >= 2 ==> !IsWideSpace(s[|s| - 2..])
    requires |s| >= 3 ==> !IsWideSpace(s[|s| - 3..])
    ensures TrailingSpace(s) == TrailingSpace(b)
  {
    hide IsWideSpace;
  }

  lemma SameTail(a: string, b: string, n: nat)
    requires n <= |b|
    ensures (a + b)[|a + b| - n..] == b[|b| - n..]
  {
  }

  /** A tail that reaches back to a printable ASCII character is no white space rune. */
  lemma NoWideTail(a: string, b: string, n: nat)
    requires a != "" && '!' <= a[|a| - 1] <= '~' && n > |b|
    ensures n <= |a + b| ==> !IsWideSpace((a + b)[|a + b| - n..])
  {
    if n <= |a + b| {
      var t := (a + b)[|a + b| - n..];
      assert t[n - 1 - |b|] == a[|a| - 1];
      PlainIsNotWide(t, n - 1 - |b|);
    }
  }

  lemma NothingToTrimLeft(s: string)
    requires s != "" && '!' <= s[0] <= '~'
    ensures TrimLeft(s) == s
  {
    if |s| >= 2 {
      PlainIsNotWide(s[..2], 0);
    }
    if |s| >= 3 {
      PlainIsNotWide(s[..3], 0);
    }
  }

  lemma {:induction false} TrimLeftOws(u: string, s: string)
    requires AllOws(u)
    ensures TrimLeft(u + s) == TrimLeft(s)
  {
    if u == "" {
      assert u + s == s;
    } else {
      assert (u + s)[1..] == u[1..] + s;
      TrimLeftOws(u[1..], s);
    }
  }

  lemma {:induction false} TrimRightOws(v: string)
    requires AllOws(v)
    ensures TrimRight(v) == ""
  {
    if v != "" {
      TrimRightOws(v[..|v| - 1]);
    }
  }

  /** Trimming a core that begins and ends with printable ASCII characters. */
  lemma TrimsToCore(u: string, core: string, v: string)
    requires AllOws(u) && AllOws(v)
    requires core != "" ==> '!' <= core[0] <= '~' && '!' <= core[|core| - 1] <= '~'
    ensures TrimSpace(u + core + v) == core
  {
    AppendAssoc(u, core, v);
    TrimLeftOws(u, core + v);
    TrimRightOws(v);
    if core == "" {
      assert core + v == v + "";
      TrimLeftOws(v, "");
    } else {
      NothingToTrimLeft(core + v);
      TrimRightKeeps(core, v);
    }
  }

  // ---------- lines as the code sees them ----------

  lemma ChoppedLine(l: TextLine)
    requires IsText(l.content)
    ensures IsLine(Raw(l)) && LengthText(Chopped(Raw(l))) == LengthText(l.content)
  {
    var c := Chopped(Raw(l));
    assert Raw(l)[..|Raw(l)| - 1] == c;
    forall i | 0 <= i < |c|
      ensures c[i] != '\n'
    {
      assert i < |l.content| ==> c[i] == l.content[i];
    }
    if l.bare {
      assert c == l.content;
    } else {
      assert c == l.content + "\r" && c[..|c| - 1] == l.content;
    }
  }

  lemma SameLength(l: TextLine)
    requires IsText(l.content)
    ensures IsLength(Chopped(Raw(l))) == IsLength(l.content)
    ensures IsLength(l.content) ==> LengthValue(Chopped(Raw(l))) == LengthValue(l.content)
  {
    hide LengthText;
    ChoppedLine(l);
  }

  lemma NoCr(s: string)
    requires IsText(s)
    ensures LengthText(s) == TrimSpace(s)
  {
  }

  lemma TcharIsPrintable(s: string)
    requires IsToken(s)
    ensures forall i :: 0 <= i < |s| ==> '!' <= s[i] <= '~' && s[i] != ':' && !IsOws(s[i])
  {
  }

  /** The first line of a field, trimmed. */
  lemma FieldText(name: string, text: string)
    requires IsToken(name) && IsText(text)
    ensures LengthText(name + ":" + text) == name + ":" + TrimRight(text)
  {
    hide TrimRight;
    hide TrimLeft;
    TcharIsPrintable(name);
    var s := name + ":" + text;
    NoCr(s);
    assert s[0] == name[0];
    NothingToTrimLeft(s);
    TrimRightKeeps(name + ":", text);
  }

  /** The first line of a field is taken for a Content-Length line exactly if it is one. */
  lemma FieldIsLength(name: string, text: string)
    requires IsToken(name) && IsText(text)
    ensures IsLength(name + ":" + text) <==> ToLower(name) == "content-length"
  {
    hide LengthText;
    FieldText(name, text);
    TcharIsPrintable(name);
    FifteenOf(name, TrimRight(text));
  }

  lemma FifteenOf(name: string, rest: string)
    requires forall i :: 0 <= i < |name| ==> name[i] != ':'
    ensures var t := name + ":" + rest;
            (|t| >= 15 && ToLower(t[..15]) == "content-length:") <==> ToLower(name) == "content-length"
  {
    var t := name + ":" + rest;
    if |t| >= 15 {
      var lower := ToLower(t[..15]);
      if |name| < 14 {
        assert lower[|name|] == ':' && "content-length:"[|name|] != ':';
      } else if |name| > 14 {
        assert lower[14] == ToLowerChar(name[14]) != ':';
      } else {
        assert t[..15] == name + ":";
        assert lower == ToLower(name) + ":";
        assert "content-length:" == "content-length" + ":";
        assert lower[..14] == ToLower(name);
      }
    }
  }

  // ---------- the value of a Content-Length line ----------

  const TWO63 := 0x8000_0000_0000_0000

  /** What the code reads from the text of a Content-Length line: anything but a number counts as 0. */
  function OwnLength(text: string): nat {
    var core := TrimOws(text);
    if IsNumber(core) && Decimal(core) < TWO63 then Decimal(core) else 0
  }

  lemma PlainIsText(s: string)
    requires AllPlain(s)
    ensures IsText(s)
  {
  }

  lemma PlainNumber(core: string)
    requires AllPlain(core)
    ensures ParseInt64(core) == if IsNumber(core) && Decimal(core) < TWO63 then Some(Decimal(core)) else None
  {
  }

  lemma PlainCore(s: string, u: string, core: string, v: string)
    requires Cored(s, u, core, v) && AllPlain(s)
    ensures AllPlain(core)
    ensures core != "" ==> '!' <= core[0] <= '~' && '!' <= core[|core| - 1] <= '~'
  {
    forall i | 0 <= i < |core|
      ensures IsPlainChar(core[i])
    {
      assert core[i] == s[|u| + i];
    }
  }

  lemma OwnValue(name: string, text: string)
    requires IsToken(name) && ToLower(name) == "content-length" && AllPlain(text)
    ensures IsLength(name + ":" + text) && LengthValue(name + ":" + text) == OwnLength(text)
  {
    hide ParseInt64;
    hide TrimRight;
    hide TrimLeft;
    hide AllDigits;
    PlainIsText(text);
    FieldIsLength(name, text);
    FieldText(name, text);
    assert (name + ":" + TrimRight(text))[15..] == TrimRight(text);
    var u, v := CoreOf(text);
    var core := TrimOws(text);
    PlainCore(text, u, core, v);
    PlainNumber(core);
    TrimRightOws(v);
    if core == "" {
      assert text == u;
      TrimRightOws(u);
      TrimsToCore("", "", "");
      assert "" + "" + "" == "";
    } else {
      TrimRightKeeps(u + core, v);
      assert u + core + "" == u + core;
      TrimsToCore(u, core, "");
    }
  }

  // ---------- the elements of a length list ----------

  predicate AllNumbers(elements: seq<string>) {
    forall i :: 0 <= i < |elements| ==> IsNumber(elements[i])
  }

  lemma TrimmedIsPlain(part: string)
    requires AllDigits(TrimOws(part))
    ensures AllPlain(part)
  {
    var u, v := CoreOf(part);
    var core := TrimOws(part);
    forall i | 0 <= i < |part|
      ensures IsPlainChar(part[i])
    {
      assert part[i] == if i < |u| then u[i] else if i < |u + core| then core[i - |u|] else v[i - |u + core|];
    }
  }

  lemma {:induction false} ElementsArePlain(value: string)
    requires AllNumbers(Elements(value))
    ensures AllPlain(value)
    decreases |value|
  {
    hide IsNumber;
    hide TrimOws;
    var i := IndexFrom(value, 0, ',');
    var part := value[..i];
    var parts := SplitOn(value, ',');
    assert parts[0] == part by { assert i == |value| ==> part == value; }
    FirstPartNumber(parts);
    TrimmedIsPlain(part);
    if i < |value| {
      var rest := value[i + 1..];
      assert parts[1..] == SplitOn(rest, ',');
      RestNumbers(parts);
      ElementsArePlain(rest);
      assert value == part + [','] + rest;
    }
  }

  lemma FirstPartNumber(parts: seq<string>)
    requires parts != [] && AllNumbers(NonEmpty(parts))
    ensures AllDigits(TrimOws(parts[0]))
    ensures TrimOws(parts[0]) != "" ==> NonEmpty(parts) != [] && NonEmpty(parts)[0] == TrimOws(parts[0])
  {
    if TrimOws(parts[0]) != "" {
      assert NonEmpty(parts)[0] == TrimOws(parts[0]);
    }
  }

  lemma RestNumbers(parts: seq<string>)
    requires parts != [] && AllNumbers(NonEmpty(parts))
    ensures AllNumbers(NonEmpty(parts[1..]))
  {
    var k := if TrimOws(parts[0]) == "" then 0 else 1;
    assert NonEmpty(parts[1..]) == NonEmpty(parts)[k..];
  }

  /** A number with white space around it, and something after it that begins with white space. */
  lemma NumberStays(t: string, w: string)
    requires IsNumber(TrimOws(t)) && AllDigits(TrimOws(t + w)) && (w == "" || IsOws(w[0]))
    ensures TrimOws(t + w) == TrimOws(t)
  {
    hide TrimOws;
    var u, v := CoreOf(t);
    var u', v' := CoreOf(t + w);
    SameNumber(t, w, u, TrimOws(t), v, u', TrimOws(t + w), v');
  }

  lemma SameNumber(t: string, w: string, u: string, core: string, v: string, u': string, core': string, v': string)
    requires Cored(t, u, core, v) && Cored(t + w, u', core', v') && core != "" && AllDigits(core')
    requires w == "" || IsOws(w[0])
    ensures core' == core
  {
    hide Cored;
    var p := t + w;
    CoreShows(t, u, core, v);
    CoreShows(p, u', core', v');
    CoreAt(t, w, u, core, v);
    CoreAt(p, "", u', core', v');
    assert p + "" == p;
    DigitsNoOws(p, u', core', v');
    EndOfCore(t, w, u, core, v);
    assert |u'| == |u|;
    assert |core'| == |core|;
  }

  /** Where the core is. */
  lemma CoreAt(t: string, w: string, u: string, core: string, v: string)
    requires Cored(t, u, core, v)
    ensures |u| + |core| + |v| == |t| && (t + w)[|u|..|u| + |core|] == core
    ensures forall i :: 0 <= i < |u| ==> IsOws((t + w)[i])
    ensures core != "" ==> !IsOws((t + w)[|u|]) && !IsOws((t + w)[|u| + |core| - 1])
    ensures core == "" ==> v == ""
  {
    var p := t + w;
    assert p[|u|..|u| + |core|] == core;
    forall i | 0 <= i < |u|
      ensures IsOws(p[i])
    {
      assert p[i] == u[i];
    }
    if core != "" {
      assert p[|u|] == core[0] && p[|u| + |core| - 1] == core[|core| - 1];
    }
  }

  lemma DigitsNoOws(p: string, u: string, core: string, v: string)
    requires Cored(p, u, core, v) && AllDigits(core)
    ensures forall i :: |u| <= i < |u| + |core| ==> !IsOws(p[i])
  {
    forall i | |u| <= i < |u| + |core|
      ensures !IsOws(p[i])
    {
      assert p[i] == core[i - |u|];
    }
  }

  /** Behind the core there is white space or nothing. */
  lemma EndOfCore(t: string, w: string, u: string, core: string, v: string)
    requires Cored(t, u, core, v) && (w == "" || IsOws(w[0]))
    ensures |u + core| < |t + w| ==> IsOws((t + w)[|u + core|])
  {
    if |u + core| < |t + w| {
      assert (t + w)[|u + core|] == if v == "" then w[0] else v[0];
    }
  }

  /** The first element of a length list that begins with a number. */
  lemma FirstElement(t: string, rest: string)
    requires IsNumber(TrimOws(t)) && (rest == "" || IsOws(rest[0])) && AllNumbers(Elements(t + rest))
    ensures Elements(t + rest) != [] && Elements(t + rest)[0] == TrimOws(t)
  {
    var value := t + rest;
    var i := IndexFrom(value, 0, ',');
    NoCommaBefore(t, rest);
    var w := rest[..i - |t|];
    assert value[..i] == t + w;
    var parts := SplitOn(value, ',');
    assert parts[0] == value[..i] by { assert i == |value| ==> value[..i] == value; }
    FirstPartNumber(parts);
    NumberStays(t, w);
  }

  lemma NoCommaBefore(t: string, rest: string)
    requires IsNumber(TrimOws(t))
    ensures |t| <= IndexFrom(t + rest, 0, ',') <= |t + rest|
  {
    var u, v := CoreOf(t);
    var core := TrimOws(t);
    var i := IndexFrom(t + rest, 0, ',');
    forall j | 0 <= j < |t|
      ensures (t + rest)[j] != ','
    {
      assert t[j] == if j < |u| then u[j] else if j < |u + core| then core[j - |u|] else v[j - |u + core|];
    }
  }

  // ---------- the line the code takes the length from ----------

  /**
   The first line that the code takes for a Content-Length line: the first line of such a field,
   or a continuation line that only looks like one.
   */
  datatype Mark = NoMark | Own(text: string) | Posed(content: string)

  function FirstPosed(folds: seq<TextLine>): Mark {
    if folds == [] then NoMark
    else if IsLength(folds[0].content) then Posed(folds[0].content)
    else FirstPosed(folds[1..])
  }

  function FirstMark(fields: seq<Field>): Mark {
    if fields == [] then NoMark
    else if IsNamed(fields[0], "content-length") then Own(fields[0].text)
    else if FirstPosed(fields[0].folds) != NoMark then FirstPosed(fields[0].folds)
    else FirstMark(fields[1..])
  }

  function MarkLength(mark: Mark): Option<nat> {
    match mark
    case NoMark => None
    case Own(text) => Some(OwnLength(text))
    case Posed(content) => if IsLength(content) then Some(LengthValue(content)) else None
  }

  lemma {:induction false} RawLinesAppend(a: seq<TextLine>, b: seq<TextLine>)
    ensures RawLines(a + b) == RawLines(a) + RawLines(b)
  {
    if a == [] {
      assert a + b == b;
    } else {
      assert (a + b)[1..] == a[1..] + b;
      RawLinesAppend(a[1..], b);
    }
  }

  lemma FirstLengthCons(l: TextLine, rest: seq<string>)
    requires IsText(l.content)
    ensures FirstLength([Raw(l)] + rest) == if IsLength(l.content) then Some(LengthValue(l.content)) else FirstLength(rest)
  {
    hide IsLength;
    hide LengthValue;
    SameLength(l);
    assert ([Raw(l)] + rest)[1..] == rest;
  }

  lemma {:induction false} FoldsLength(folds: seq<TextLine>)
    requires forall i :: 0 <= i < |folds| ==> IsFold(folds[i])
    ensures FirstLength(RawLines(folds)) == MarkLength(FirstPosed(folds)) && !FirstPosed(folds).Own?
  {
    hide IsLength;
    hide LengthValue;
    if folds != [] {
      FoldsLength(folds[1..]);
      FirstLengthCons(folds[0], RawLines(folds[1..]));
    }
  }

  lemma FieldLinesCons(fields: seq<Field>)
    requires fields != []
    ensures RawLines(FieldLines(fields)) ==
            [Raw(FirstLineOf(fields[0]))] + (RawLines(fields[0].folds) + RawLines(FieldLines(fields[1..])))
  {
    hide Raw;
    var f := fields[0];
    RawLinesAppend([FirstLineOf(f)] + f.folds, FieldLines(fields[1..]));
    RawLinesAppend([FirstLineOf(f)], f.folds);
    assert RawLines([FirstLineOf(f)]) == [Raw(FirstLineOf(f))] + RawLines([FirstLineOf(f)][1..]);
    AppendAssoc([Raw(FirstLineOf(f))], RawLines(f.folds), RawLines(FieldLines(fields[1..])));
  }

  lemma {:induction false} FieldsLength(fields: seq<Field>)
    requires forall i :: 0 <= i < |fields| ==> ValidField(fields[i])
    requires FirstMark(fields).Own? ==> AllPlain(FirstMark(fields).text)
    ensures FirstLength(RawLines(FieldLines(fields))) == MarkLength(FirstMark(fields))
  {
    hide IsLength;
    hide LengthValue;
    hide OwnLength;
    hide AllPlain;
    hide RawLines;
    hide FieldLines;
    hide Raw;
    if fields == [] {
      NoLines();
    } else {
      var f := fields[0];
      var later := RawLines(FieldLines(fields[1..]));
      FieldLinesCons(fields);
      FirstLineIsText(f);
      FirstLengthCons(FirstLineOf(f), RawLines(f.folds) + later);
      FieldIsLength(f.name, f.text);
      FoldsLength(f.folds);
      FirstLengthAppend(RawLines(f.folds), later);
      if IsNamed(f, "content-length") {
        OwnValue(f.name, f.text);
      } else {
        FirstPosedIsLength(f.folds);
        if FirstPosed(f.folds) == NoMark {
          FieldsLength(fields[1..]);
        }
      }
    }
  }

  lemma NoLines()
    ensures FirstLength(RawLines(FieldLines([]))) == None
  {
  }

  lemma {:induction false} FirstPosedIsLength(folds: seq<TextLine>)
    ensures var m := FirstPosed(folds); m == NoMark || (m.Posed? && IsLength(m.content))
  {
    hide IsLength;
    if folds != [] {
      FirstPosedIsLength(folds[1..]);
    }
  }

  lemma FirstLineIsText(f: Field)
    requires ValidField(f)
    ensures IsText(FirstLineOf(f).content)
  {
    TcharIsPrintable(f.name);
    var c := f.name + ":" + f.text;
    forall i | 0 <= i < |c|
      ensures IsOws(c[i]) || '!' <= c[i] <= '~' || '\U{80}' <= c[i] <= '\U{FF}'
    {
      assert c[i] == if i < |f.name| then f.name[i] else if i == |f.name| then ':' else f.text[i - |f.name| - 1];
    }
  }

  /** A request line is never taken for a Content-Length line. */
  lemma StartIsNoLength(s: string)
    requires IsStart(s)
    ensures !IsLength(s)
  {
    hide TrimRight;
    hide TrimLeft;
    hide IsToken;
    var k :| 0 < k < |s| && IsToken(s[..k]) && s[k] == ' ';
    TcharIsPrintable(s[..k]);
    assert s[0] == s[..k][0];
    NoCr(s);
    NothingToTrimLeft(s);
    TrimsArePrefixes(s);
    var t := TrimSpace(s);
    if |t| >= 15 {
      var lower := ToLower(t[..15]);
      if k < 15 {
        assert lower[k] == ' ' && "content-length:"[k] != ' ';
      } else {
        assert lower[14] == ToLowerChar(s[..k][14]) != ':';
      }
    }
  }

  /** The length the code computes from a request head. */
  lemma HeadLength(h: Head)
    requires ValidHead(h)
    requires FirstMark(h.fields).Own? ==> AllPlain(FirstMark(h.fields).text)
    ensures FirstLength(LinesOf(h)) == MarkLength(FirstMark(h.fields))
  {
    hide IsLength;
    hide LengthValue;
    hide MarkLength;
    hide FirstMark;
    hide IsStart;
    hide Raw;
    hide RawLines;
    var lines := FieldLines(h.fields);
    LinesSplit(h);
    StartIsNoLength(h.start.content);
    StartIsText(h.start.content);
    FirstLengthCons(h.start, RawLines(lines) + [Raw(h.end)]);
    FirstLengthAppend(RawLines(lines), [Raw(h.end)]);
    FieldsLength(h.fields);
    EmptyIsNoLength();
    FirstLengthCons(h.end, []);
    assert [Raw(h.end)] + [] == [Raw(h.end)];
  }

  lemma StartIsText(s: string)
    requires IsStart(s)
    ensures IsText(s)
  {
  }

  lemma EmptyIsNoLength()
    ensures !IsLength("")
  {
  }

  lemma LinesSplit(h: Head)
    ensures LinesOf(h) == [Raw(h.start)] + (RawLines(FieldLines(h.fields)) + [Raw(h.end)])
  {
    hide Raw;
    var lines := FieldLines(h.fields);
    RawLinesAppend([h.start] + lines, [h.end]);
    RawLinesAppend([h.start], lines);
    assert RawLines([h.start]) == [Raw(h.start)] + RawLines([h.start][1..]);
    assert RawLines([h.end]) == [Raw(h.end)] + RawLines([h.end][1..]);
    AppendAssoc([Raw(h.start)], RawLines(lines), [Raw(h.end)]);
  }

  // ---------- when it is the right length ----------

  /** What the first mark says when all lengths declared are the number `n`. */
  lemma {:induction false} MarkMeaning(fields: seq<Field>, n: nat)
    requires forall i :: 0 <= i < |fields| ==> ValidField(fields[i])
    requires AllAre(Declared(fields), n)
    ensures FirstMark(fields) == NoMark ==> !HasField(fields, "content-length")
    ensures FirstMark(fields).Own? ==>
              var text := FirstMark(fields).text;
              AllPlain(text) && (IsNumber(TrimOws(text)) ==> Decimal(TrimOws(text)) == n)
  {
    hide IsNumber;
    hide TrimOws;
    hide AllPlain;
    hide IsLength;
    hide Elements;
    if fields != [] {
      var f := fields[0];
      var elements := Elements(ValueOf(f));
      if IsNamed(f, "content-length") {
        FirstAre(elements, Declared(fields[1..]), n);
        OwnMeaning(f, n);
      } else {
        FirstPosedIsLength(f.folds);
        assert Declared(fields) == Declared(fields[1..]);
        MarkMeaning(fields[1..], n);
        HasFieldCons(fields, "content-length");
      }
    }
  }

  lemma FirstAre(a: seq<string>, b: seq<string>, n: nat)
    requires AllAre(a + b, n)
    ensures AllAre(a, n)
  {
    forall i | 0 <= i < |a|
      ensures IsNumber(a[i]) && Decimal(a[i]) == n
    {
      assert (a + b)[i] == a[i];
    }
  }

  lemma HasFieldCons(fields: seq<Field>, name: string)
    requires fields != []
    ensures HasField(fields, name) ==> IsNamed(fields[0], name) || HasField(fields[1..], name)
  {
    if i :| 0 <= i < |fields| && IsNamed(fields[i], name) {
      if i > 0 {
        assert IsNamed(fields[1..][i - 1], name);
      }
    }
  }

  lemma OwnMeaning(f: Field, n: nat)
    requires ValidField(f) && AllAre(Elements(ValueOf(f)), n)
    ensures AllPlain(f.text) && (IsNumber(TrimOws(f.text)) ==> Decimal(TrimOws(f.text)) == n)
  {
    hide TrimOws;
    hide Elements;
    var rest := Contents(f.folds);
    ElementsArePlain(ValueOf(f));
    forall i | 0 <= i < |f.text|
      ensures IsPlainChar(f.text[i])
    {
      assert f.text[i] == ValueOf(f)[i];
    }
    if IsNumber(TrimOws(f.text)) {
      FoldsBeginWithOws(f.folds);
      FirstElement(f.text, rest);
    }
  }

  lemma FoldsBeginWithOws(folds: seq<TextLine>)
    requires forall i :: 0 <= i < |folds| ==> IsFold(folds[i])
    ensures Contents(folds) == "" || IsOws(Contents(folds)[0])
  {
  }

  /**
   The code sees the body length `n` of a request: it finds no line that looks like Content-Length;
   or it finds such a field first, and that line holds a single number that fits an int64, or `n`
   is 0; or it finds a continuation line first, whose value happens to be `n`.
   */
  predicate SeesLength(h: Head, n: nat) {
    match FirstMark(h.fields)
    case NoMark => true
    case Own(text) => n == 0 || (IsNumber(TrimOws(text)) && n < TWO63)
    case Posed(content) => IsLength(content) && LengthValue(content) == n
  }

  /** The length the code computes is the body length of the request exactly if it sees that length. */
  lemma LengthIsRightExactly(h: Head)
    requires ValidHead(h) && BodyLength(h).Some?
    ensures LengthOf(LinesOf(h)) == BodyLength(h).value <==> SeesLength(h, BodyLength(h).value)
  {
    hide IsLength;
    hide LengthValue;
    hide TrimOws;
    hide AllPlain;
    hide LinesOf;
    hide ValidField;
    var n := BodyLength(h).value;
    DeclaredIs(h);
    MarkMeaning(h.fields, n);
    HeadLength(h);
    var mark := FirstMark(h.fields);
    if mark.Posed? {
      MarkIsLength(h.fields);
    }
  }

  lemma DeclaredIs(h: Head)
    requires BodyLength(h).Some?
    ensures AllAre(Declared(h.fields), BodyLength(h).value)
    ensures !HasField(h.fields, "content-length") ==> BodyLength(h).value == 0
  {
    if !HasField(h.fields, "content-length") {
      NothingDeclared(h.fields);
    }
  }

  lemma {:induction false} NothingDeclared(fields: seq<Field>)
    requires !HasField(fields, "content-length")
    ensures Declared(fields) == []
  {
    if fields != [] {
      assert !IsNamed(fields[0], "content-length");
      forall i | 0 <= i < |fields| - 1
        ensures !IsNamed(fields[1..][i], "content-length")
      {
        assert fields[1..][i] == fields[i + 1];
      }
      NothingDeclared(fields[1..]);
    }
  }

  lemma {:induction false} MarkIsLength(fields: seq<Field>)
    ensures FirstMark(fields).Posed? ==> IsLength(FirstMark(fields).content)
  {
    hide IsLength;
    if fields != [] {
      FirstPosedIsLength(fields[0].folds);
      MarkIsLength(fields[1..]);
    }
  }

  /** No line is folded, and a Content-Length field has a single number that fits an int64. */
  predicate IsOrdinary(h: Head) {
    forall i :: 0 <= i < |h.fields| ==>
      var f := h.fields[i];
      && f.folds == []
      && (IsNamed(f, "content-length") ==> IsNumber(TrimOws(f.text)) && Decimal(TrimOws(f.text)) < TWO63)
  }

  lemma {:induction false} OrdinaryMark(fields: seq<Field>)
    requires forall i :: 0 <= i < |fields| ==> fields[i].folds == []
    ensures FirstMark(fields) == NoMark || exists i :: 0 <= i < |fields| && IsNamed(fields[i], "content-length")
                                                    && FirstMark(fields) == Own(fields[i].text)
  {
    if fields != [] && !IsNamed(fields[0], "content-length") {
      OrdinaryMark(fields[1..]);
      if FirstMark(fields) != NoMark {
        var i :| 0 <= i < |fields| - 1 && IsNamed(fields[1..][i], "content-length")
                 && FirstMark(fields) == Own(fields[1..][i].text);
        assert fields[1..][i] == fields[i + 1];
      }
    }
  }

  /** An ordinary request head is always seen with its length. */
  lemma OrdinaryIsSeen(h: Head)
    requires ValidHead(h) && BodyLength(h).Some? && IsOrdinary(h)
    ensures SeesLength(h, BodyLength(h).value) && LengthOf(LinesOf(h)) == BodyLength(h).value
  {
    hide TrimOws;
    hide IsNumber;
    hide LinesOf;
    OrdinaryMark(h.fields);
    DeclaredIs(h);
    MarkMeaning(h.fields, BodyLength(h).value);
    LengthIsRightExactly(h);
  }

  // ---------- keep-alive requests ----------

  datatype Request = Request(head: Head, body: string)

  /** A valid head, no longer than the limit before its blank line, and the body it declares. */
  predicate WellFormed(r: Request) {
    && ValidHead(r.head) && BodyLength(r.head) == Some(|r.body|)
    && var ls := LinesOf(r.head); |Concat(ls[..|ls| - 1])| <= 65536
  }

  predicate AllWellFormed(rs: seq<Request>) {
    forall i :: 0 <= i < |rs| ==> WellFormed(rs[i])
  }

  /** The wrapper sees the body length of every request. */
  predicate AllSeen(rs: seq<Request>) {
    forall i :: 0 <= i < |rs| ==> SeesLength(rs[i].head, |rs[i].body|)
  }

  function Sent(rs: seq<Request>): string {
    if rs == [] then "" else Concat(LinesOf(rs[0].head)) + rs[0].body + Sent(rs[1..])
  }

  /** The same requests with only the first Host line of each header. */
  function Expected(rs: seq<Request>): string {
    if rs == [] then "" else Concat(Kept(LinesOf(rs[0].head))) + rs[0].body + Expected(rs[1..])
  }

  lemma {:induction false} TakesHeader(raw: string, ls: seq<string>, rest: string)
    requires ls != [] && AllLines(ls) && IsBlank(ls[|ls| - 1])
    requires forall i :: 0 <= i < |ls| - 1 ==> !IsBlank(ls[i])
    requires |raw| + |Concat(ls[..|ls| - 1])| <= 65536
    ensures Taken(raw, Concat(ls) + rest) == Block(raw + Concat(ls), rest, true)
    decreases ls
  {
    var after := Concat(ls[1..]) + rest;
    assert Concat(ls) + rest == ls[0] + after;
    FirstLine(ls[0], after);
    if |ls| == 1 {
      assert Concat(ls[1..]) == "";
    } else {
      assert ls[..|ls| - 1][1..] == ls[1..][..|ls| - 2];
      TakesHeader(raw + ls[0], ls[1..], rest);
      AppendAssoc(raw, ls[0], Concat(ls[1..]));
    }
  }

  /** A line that stays one and is not the blank one. */
  predicate IsFilled(l: TextLine) {
    IsText(l.content) && l.content != ""
  }

  lemma {:induction false} FilledLines(ls: seq<TextLine>)
    requires forall i :: 0 <= i < |ls| ==> IsFilled(ls[i])
    ensures AllLines(RawLines(ls)) && forall i :: 0 <= i < |ls| ==> !IsBlank(RawLines(ls)[i])
  {
    hide Raw;
    hide IsBlank;
    hide IsLine;
    if ls != [] {
      var later := RawLines(ls[1..]);
      assert IsFilled(ls[0]);
      FilledLines(ls[1..]);
      ChoppedLine(ls[0]);
      FilledIsNotBlank(ls[0]);
      forall i | 0 <= i < |ls|
        ensures IsLine(RawLines(ls)[i]) && !IsBlank(RawLines(ls)[i])
      {
        assert RawLines(ls)[i] == if i == 0 then Raw(ls[0]) else later[i - 1];
      }
    }
  }

  lemma FilledIsNotBlank(l: TextLine)
    requires IsFilled(l)
    ensures !IsBlank(Raw(l))
  {
    assert Raw(l)[0] == l.content[0];
  }

  lemma {:induction false} FieldsAreFilled(fields: seq<Field>)
    requires forall i :: 0 <= i < |fields| ==> ValidField(fields[i])
    ensures forall i :: 0 <= i < |FieldLines(fields)| ==> IsFilled(FieldLines(fields)[i])
  {
    if fields != [] {
      FieldsAreFilled(fields[1..]);
      FirstLineIsText(fields[0]);
    }
  }

  lemma HeadIsHeader(h: Head)
    requires ValidHead(h)
    ensures var ls := LinesOf(h);
            && ls != [] && AllLines(ls) && IsBlank(ls[|ls| - 1])
            && forall i :: 0 <= i < |ls| - 1 ==> !IsBlank(ls[i])
  {
    hide RawLines;
    hide IsStart;
    var filled := [h.start] + FieldLines(h.fields);
    RawLinesAppend(filled, [h.end]);
    assert RawLines([h.end]) == [Raw(h.end)] by { OneLine(h.end); }
    StartIsText(h.start.content);
    StartIsFilled(h.start.content);
    FieldsAreFilled(h.fields);
    FilledLines(filled);
    ChoppedLine(h.end);
  }

  lemma OneLine(l: TextLine)
    ensures RawLines([l]) == [Raw(l)]
  {
    assert [l][1..] == [];
  }

  lemma StartIsFilled(s: string)
    requires IsStart(s)
    ensures s != ""
  {
  }

  /**
   The wrapper refines its specification: well-formed requests whose lengths it sees come through
   unchanged but for repeated Host lines.
   */
  lemma {:induction false} RewritesRequests(rs: seq<Request>)
    requires AllWellFormed(rs) && AllSeen(rs)
    ensures Rewritten(Sent(rs)) == Expected(rs)
  {
    hide SeesLength;
    hide LinesOf;
    hide WellFormed;
    hide Rewritten;
    hide Kept;
    if rs != [] {
      var r, rest := rs[0], Sent(rs[1..]);
      assert WellFormed(r) && SeesLength(r.head, |r.body|);
      RewritesOne(r, rest);
      RewritesRequests(rs[1..]);
      AppendAssoc(Concat(LinesOf(r.head)), r.body, rest);
      AppendAssoc(Concat(Kept(LinesOf(r.head))), r.body, Expected(rs[1..]));
    } else {
      AfterHeaderZero("");
    }
  }

  lemma RewritesOne(r: Request, rest: string)
    requires WellFormed(r) && SeesLength(r.head, |r.body|)
    ensures Rewritten(Concat(LinesOf(r.head)) + (r.body + rest)) == Concat(Kept(LinesOf(r.head))) + (r.body + Rewritten(rest))
  {
    hide SeesLength;
    hide LinesOf;
    hide ValidHead;
    hide BodyLength;
    hide Rewritten;
    hide AfterHeader;
    hide Taken;
    hide Kept;
    var ls := LinesOf(r.head);
    LengthIsRightExactly(r.head);
    HeadIsHeader(r.head);
    TakesHeader("", ls, r.body + rest);
    assert "" + Concat(ls) == Concat(ls);
    NotEmpty(ls);
    RewritingKeepsLength(ls);
    RewrittenUnfolds(Concat(ls) + (r.body + rest));
    AfterHeaderSplit(|r.body|, r.body, rest);
    AfterHeaderZero(rest);
  }

  lemma NotEmpty(ls: seq<string>)
    requires ls != [] && AllLines(ls)
    ensures Concat(ls) != ""
  {
    assert ls[0] != "";
  }

  lemma OrdinaryRequestsAreSeen(rs: seq<Request>)
    requires AllWellFormed(rs) && forall i :: 0 <= i < |rs| ==> IsOrdinary(rs[i].head)
    ensures AllSeen(rs) && Rewritten(Sent(rs)) == Expected(rs)
  {
    hide SeesLength;
    hide Sent;
    hide Expected;
    hide ValidHead;
    hide BodyLength;
    forall i | 0 <= i < |rs|
      ensures SeesLength(rs[i].head, |rs[i].body|)
    {
      assert WellFormed(rs[i]);
      OrdinaryIsSeen(rs[i].head);
    }
    RewritesRequests(rs);
  }

  /** Requests that do not look like a TLS handshake are delivered with their repeated Host lines gone. */
  lemma DeliversRequests(rs: seq<Request>)
    requires AllWellFormed(rs) && AllSeen(rs) && !LooksLikeTLS(Sent(rs))
    ensures Delivered(Sent(rs)) == Expected(rs)
  {
    RewritesRequests(rs);
  }

  /**
   Reading a whole connection with buffers of any sizes and any network timing. If it carries
   requests whose lengths the wrapper sees, what is read is those requests with only the first
   Host line of each header.
   */
  method ReadAll(c: Conn, lens: seq<nat>, bursts: seq<nat>) returns (out: string, ended: bool)
    requires c.Valid() && |lens| == |bursts|
    requires forall i :: 0 <= i < |lens| ==> lens[i] > 0 && bursts[i] > 0
    modifies c, c.br
    ensures out <= old(c.Pending())
    ensures ended ==> out == old(c.Pending())
    ensures !ended ==> |out| >= |lens|
    ensures forall rs :: AllWellFormed(rs) && AllSeen(rs) && !LooksLikeTLS(Sent(rs)) && old(c.Pending()) == Delivered(Sent(rs)) ==>
              out <= Expected(rs) && (ended ==> out == Expected(rs))
  {
    hide Rewritten;
    hide AfterHeader;
    hide Delivered;
    hide AllWellFormed;
    hide AllSeen;
    hide LooksLikeTLS;
    hide Sent;
    hide Expected;
    ghost var all := c.Pending();
    forall rs | AllWellFormed(rs) && AllSeen(rs) && !LooksLikeTLS(Sent(rs))
      ensures Delivered(Sent(rs)) == Expected(rs)
    {
      DeliversRequests(rs);
    }
    out, ended := "", false;
    for i := 0 to |lens|
      invariant c.Valid() && out + c.Pending() == all
      invariant |out| >= i
    {
      var data := c.Read(lens[i], bursts[i]);
      if data == "" {
        return out, true;
      }
      AppendAssoc(out, data, c.Pending());
      out := out + data;
    }
  }

  // ---------- requests whose length it does not see ----------

  const START_LINE := TextLine("GET / HTTP/1.1", false)
  const BLANK_LINE := TextLine("", false)

  lemma StartLineIsStart()
    ensures IsStart(START_LINE.content)
  {
    var s := START_LINE.content;
    assert s[..3] == "GET" && IsToken("GET") && s[3] == ' ';
  }

  /** A request without a body: the second line of its field X only looks like Content-Length. */
  function FoldedHead(number: string): Head {
    Head(START_LINE, [Field("X", " a", false, [TextLine(" Content-Length: " + number, false)])], BLANK_LINE)
  }

  lemma FoldedLine(number: string)
    requires IsNumber(number) && Decimal(number) < TWO63
    ensures var c := " Content-Length: " + number;
            IsFold(TextLine(c, false)) && IsLength(c) && LengthValue(c) == Decimal(number)
  {
    hide TrimSpace;
    hide ParseInt64;
    hide AllDigits;
    hide AllPlain;
    var c := " Content-Length: " + number;
    var core := "Content-Length: " + number;
    NumberIsPlain(number);
    FoldedText(number);
    NoCr(c);
    assert c == " " + core + "" && core[0] == 'C' && core[|core| - 1] == number[|number| - 1];
    TrimsToCore(" ", core, "");
    assert core[..15] == "Content-Length:" && core[15..] == " " + number + "";
    LengthNameColon();
    TrimsToCore(" ", number, "");
    PlainNumber(number);
  }

  lemma LengthNameColon()
    ensures ToLower("Content-Length:") == "content-length:"
  {
  }

  lemma FoldedText(number: string)
    requires IsText(number)
    ensures IsFold(TextLine(" Content-Length: " + number, false))
  {
    var p := " Content-Length: ";
    assert IsText(p);
    forall i | 0 <= i < |p + number|
      ensures IsOws((p + number)[i]) || '!' <= (p + number)[i] <= '~' || '\U{80}' <= (p + number)[i] <= '\U{FF}'
    {
      assert (p + number)[i] == if i < |p| then p[i] else number[i - |p|];
    }
  }

  lemma NumberIsPlain(number: string)
    requires IsNumber(number)
    ensures AllPlain(number) && IsText(number)
    ensures '!' <= number[0] <= '~' && '!' <= number[|number| - 1] <= '~'
  {
    assert IsDigit(number[0]) && IsDigit(number[|number| - 1]);
  }

  /** The code takes the number for the length of the body; there is no body. */
  lemma FoldedExample(number: string)
    requires IsNumber(number) && Decimal(number) < TWO63
    ensures var h := FoldedHead(number);
            && ValidHead(h) && BodyLength(h) == Some(0) && LengthOf(LinesOf(h)) == Decimal(number)
            && (SeesLength(h, 0) <==> Decimal(number) == 0)
  {
    hide IsStart;
    hide IsLength;
    hide LengthValue;
    hide LinesOf;
    var h := FoldedHead(number);
    var f := h.fields[0];
    StartLineIsStart();
    FoldedLine(number);
    assert IsToken("X") && ToLower("X") == "x";
    assert !HasField(h.fields, "content-length") && !HasField(h.fields, "transfer-encoding");
    assert FirstMark(h.fields) == Posed(f.folds[0].content);
    HeadLength(h);
  }

  /** A request with one Content-Length field of this text and these continuation lines. */
  function LengthHead(text: string, folds: seq<TextLine>): Head {
    Head(START_LINE, [Field("Content-Length", text, false, folds)], BLANK_LINE)
  }

  /** A list of the same number twice is a length that the code reads as 0. */
  lemma ListExample()
    ensures var h := LengthHead(" 5, 5", []);
            ValidHead(h) && BodyLength(h) == Some(5) && LengthOf(LinesOf(h)) == 0
  {
    hide BodyLength;
    hide LinesOf;
    hide ValidHead;
    hide Elements;
    hide TrimOws;
    hide AllDigits;
    FiveElements();
    assert ValueOf(LengthHead(" 5, 5", []).fields[0]) == " 5, 5";
    FiveIsNotRead(" 5, 5", []);
  }

  /** So is a number on a continuation line. */
  lemma FoldedValueExample()
    ensures var h := LengthHead("", [TextLine(" 5", false)]);
            ValidHead(h) && BodyLength(h) == Some(5) && LengthOf(LinesOf(h)) == 0
  {
    hide BodyLength;
    hide LinesOf;
    hide ValidHead;
    hide Elements;
    hide TrimOws;
    hide AllDigits;
    FiveElements();
    var folds := [TextLine(" 5", false)];
    assert folds[1..] == [];
    assert Contents(folds) == " 5" + Contents(folds[1..]) == " 5";
    assert ValueOf(LengthHead("", folds).fields[0]) == " 5";
    FiveIsNotRead("", folds);
  }

  lemma FiveIsNotRead(text: string, folds: seq<TextLine>)
    requires AllPlain(text) && forall i :: 0 <= i < |folds| ==> IsFold(folds[i])
    requires var es := Elements(ValueOf(LengthHead(text, folds).fields[0])); es == ["5"] || es == ["5", "5"]
    requires !IsNumber(TrimOws(text))
    ensures var h := LengthHead(text, folds);
            ValidHead(h) && BodyLength(h) == Some(5) && LengthOf(LinesOf(h)) == 0
  {
    hide IsStart;
    hide LinesOf;
    hide Elements;
    hide TrimOws;
    var h := LengthHead(text, folds);
    StartLineIsStart();
    LengthName();
    PlainIsText(text);
    FiveDeclared(h);
    HeadLength(h);
  }

  lemma FiveDeclared(h: Head)
    requires |h.fields| == 1 && IsNamed(h.fields[0], "content-length")
    requires var es := Elements(ValueOf(h.fields[0])); es == ["5"] || es == ["5", "5"]
    ensures BodyLength(h) == Some(5)
  {
    hide Elements;
    OneField(h);
    assert Decimal("5") == 10 * Decimal("5"[..0]) + 5;
    assert IsNumber("5");
  }

  lemma LengthName()
    ensures IsToken("Content-Length") && ToLower("Content-Length") == "content-length"
  {
  }

  lemma OneField(h: Head)
    requires |h.fields| == 1 && IsNamed(h.fields[0], "content-length")
    ensures HasField(h.fields, "content-length") && !HasField(h.fields, "transfer-encoding")
    ensures Declared(h.fields) == Elements(ValueOf(h.fields[0]))
  {
    assert Declared(h.fields[1..]) == [];
    assert Elements(ValueOf(h.fields[0])) + [] == Elements(ValueOf(h.fields[0]));
    assert "content-length" != "transfer-encoding" by {
      assert "content-length"[0] != "transfer-encoding"[0];
    }
  }

  lemma FiveElements()
    ensures Elements(" 5, 5") == ["5", "5"] && Elements(" 5") == ["5"]
    ensures !IsNumber(TrimOws(" 5, 5")) && !IsNumber(TrimOws(""))
  {
    TrimFive();
    assert !IsDigit("5, 5"[1]);
    SplitFirst(" 5", ',', " 5");
    assert " 5" + [','] + " 5" == " 5, 5";
    var one, two := [" 5"], [" 5", " 5"];
    assert [" 5"] + [" 5"] == two && two[1..] == one && one[1..] == [];
    assert NonEmpty(one) == ["5"] + NonEmpty(one[1..]) == ["5"];
    assert NonEmpty(two) == ["5"] + NonEmpty(two[1..]) == ["5", "5"];
  }

  lemma TrimFive()
    ensures TrimOws(" 5") == "5" && TrimOws(" 5, 5") == "5, 5" && TrimOws("") == ""
  {
    assert OwsLeft(" 5") == OwsLeft(" 5"[1..]) == "5";
    assert OwsLeft(" 5, 5") == OwsLeft(" 5, 5"[1..]) == "5, 5";
  }

  /**
   What the number on the folded line does to a connection: when it is as long as all that follows,
   all of it passes as a body, with the repeated Host lines that should have gone.
   */
  lemma FoldedSwallows(number: string, rest: seq<Request>)
    requires IsNumber(number) && |Sent(rest)| <= Decimal(number) < TWO63
    requires WellFormed(Request(FoldedHead(number), ""))
    ensures var r := Request(FoldedHead(number), "");
            && Rewritten(Sent([r] + rest)) == Concat(Kept(LinesOf(r.head))) + Sent(rest)
            && Expected([r] + rest) == Concat(Kept(LinesOf(r.head))) + Expected(rest)
  {
    hide LinesOf;
    hide FoldedHead;
    hide Rewritten;
    hide AfterHeader;
    hide Taken;
    hide Kept;
    hide ValidHead;
    hide BodyLength;
    hide SeesLength;
    hide Deduped;
    hide IsBlank;
    hide ContentLengthOf;
    hide LengthOf;
    hide AllDigits;
    var r := Request(FoldedHead(number), "");
    var ls := LinesOf(r.head);
    FoldedExample(number);
    HeadIsHeader(r.head);
    assert ([r] + rest)[1..] == rest;
    assert Sent([r] + rest) == Concat(ls) + Sent(rest) by {
      assert Concat(ls) + "" + Sent(rest) == Concat(ls) + Sent(rest);
    }
    assert Concat(Kept(ls)) + "" + Expected(rest) == Concat(Kept(ls)) + Expected(rest);
    TakesHeader("", ls, Sent(rest));
    assert "" + Concat(ls) == Concat(ls);
    NotEmpty(ls);
    RewritingKeepsLength(ls);
    RewrittenUnfolds(Concat(ls) + Sent(rest));
    AllIsBody(Decimal(number), Sent(rest));
  }

  lemma AllIsBody(n: nat, src: string)
    requires |src| <= n
    ensures AfterHeader(n, src) == src
  {
  }

  /** A request with two Host lines. */
  const TWO_HOSTS: Request :=
    Request(Head(START_LINE, [Field("Host", " a", false, []), Field("Host", " b", false, [])], BLANK_LINE), "")

  lemma TwoHosts()
    ensures WellFormed(TWO_HOSTS) && |Sent([TWO_HOSTS])| < 999 && |Expected([TWO_HOSTS])| < |Sent([TWO_HOSTS])|
  {
    hide Kept;
    hide LinesOf;
    hide ValidHead;
    hide BodyLength;
    var h := TWO_HOSTS.head;
    var s, a, b, e := "GET / HTTP/1.1\r\n", "Host: a\r\n", "Host: b\r\n", "\r\n";
    TwoHostLines(s, a, b, e);
    HostLines();
    TwoHostsAreValid();
    var one := [TWO_HOSTS];
    assert Sent(one) == Concat(LinesOf(h)) + "" + Sent(one[1..]) && Expected(one) == Concat(Kept(LinesOf(h))) + "" + Expected(one[1..]);
    KeptFour(s, a, b, e);
    ConcatFour(s, a, b, e);
  }

  lemma TwoHostsAreValid()
    ensures ValidHead(TWO_HOSTS.head) && BodyLength(TWO_HOSTS.head) == Some(0)
  {
    hide IsStart;
    StartLineIsStart();
    assert IsToken("Host") && ToLower("Host") == "host";
    assert !HasField(TWO_HOSTS.head.fields, "content-length") && !HasField(TWO_HOSTS.head.fields, "transfer-encoding");
  }

  lemma TwoHostLines(s: string, a: string, b: string, e: string)
    requires s == "GET / HTTP/1.1\r\n" && a == "Host: a\r\n" && b == "Host: b\r\n" && e == "\r\n"
    ensures LinesOf(TWO_HOSTS.head) == [s, a, b, e]
  {
    var fields := TWO_HOSTS.head.fields;
    LinesSplit(TWO_HOSTS.head);
    PlainField(fields);
    PlainField(fields[1..]);
    assert fields[1..][1..] == [] && FieldLines([]) == [] && RawLines([]) == [];
    assert Raw(FirstLineOf(fields[0])) == a && Raw(FirstLineOf(fields[1])) == b;
    assert RawLines(FieldLines(fields)) == [a] + ([b] + []) == [a, b];
    assert Raw(TWO_HOSTS.head.start) == s && Raw(TWO_HOSTS.head.end) == e;
    assert [s] + ([a, b] + [e]) == [s, a, b, e];
  }

  lemma {:induction false} PlainField(fields: seq<Field>)
    requires fields != [] && fields[0].folds == []
    ensures RawLines(FieldLines(fields)) == [Raw(FirstLineOf(fields[0]))] + RawLines(FieldLines(fields[1..]))
  {
    hide Raw;
    FieldLinesCons(fields);
    assert RawLines([]) + RawLines(FieldLines(fields[1..])) == RawLines(FieldLines(fields[1..]));
  }

  lemma HostLines()
    ensures IsHost("Host: a\r\n") && IsHost("Host: b\r\n") && !IsHost("GET / HTTP/1.1\r\n") && !IsHost("\r\n")
  {
    TrimsEol("Host: a");
    TrimsEol("Host: b");
    TrimsEol("GET / HTTP/1.1");
    TrimsEol("");
    assert "Host: a" + "\r\n" == "Host: a\r\n" && "Host: b" + "\r\n" == "Host: b\r\n";
    assert "GET / HTTP/1.1" + "\r\n" == "GET / HTTP/1.1\r\n" && "" + "\r\n" == "\r\n";
    assert "Host: a"[..5] == "Host:" && "Host: b"[..5] == "Host:" && ToLower("Host:") == "host:";
    assert ToLower("GET / HTTP/1.1"[..5])[0] == 'g';
  }

  lemma TrimsEol(s: string)
    requires s == "" || s[|s| - 1] !in "\r\n"
    ensures TrimEol(s + "\r\n") == s
  {
    var t, c := s + "\r\n", s + "\r";
    assert t[|t| - 1] == '\n' && t[..|t| - 1] == c;
    assert c[|c| - 1] == '\r' && c[..|c| - 1] == s;
    assert TrimEol(t) == TrimEol(c) == TrimEol(s);
  }

  lemma KeptFour(s: string, a: string, b: string, e: string)
    requires !IsHost(s) && IsHost(a) && IsHost(b) && !IsHost(e)
    ensures Kept([s, a, b, e]) == [s, a, e]
  {
    hide IsHost;
    hide Kept;
    NoHosts();
    KeptStep([], s);
    KeptStep([s], a);
    KeptStep([s, a], b);
    KeptStep([s, a, b], e);
    assert [] + [s] == [s] && [s] + [a] == [s, a] && [s, a] + [b] == [s, a, b] && [s, a, b] + [e] == [s, a, b, e];
    HostsAmong(s, a);
  }

  lemma HostsAmong(s: string, a: string)
    requires !IsHost(s) && IsHost(a)
    ensures !HostAmong([]) && !HostAmong([s]) && HostAmong([s, a])
  {
    hide IsHost;
    assert [s, a][1] == a;
  }

  lemma ConcatFour(s: string, a: string, b: string, e: string)
    ensures |Concat([s, a, b, e])| == |s| + |a| + |b| + |e| && |Concat([s, a, e])| == |s| + |a| + |e|
    ensures |Concat([s, a, b, e][..3])| == |s| + |a| + |b|
  {
    ConcatThree(s, a, b);
    ConcatThree(s, a, e);
    ConcatThree(a, b, e);
    var four := [s, a, b, e];
    assert four[..3] == [s, a, b] && four[1..] == [a, b, e];
    assert Concat(four) == s + Concat(four[1..]);
  }

  lemma ConcatThree(s: string, a: string, b: string)
    ensures |Concat([s, a, b])| == |s| + |a| + |b|
  {
    var three, two, one := [s, a, b], [a, b], [b];
    assert three[1..] == two && two[1..] == one && one[1..] == [];
    assert Concat(three) == s + Concat(two);
    assert Concat(two) == a + Concat(one);
    assert Concat(one) == b + Concat(one[1..]);
  }

  /** Two well-formed requests of which the second keeps a Host line that should have gone. */
  lemma FoldedBreaks()
    ensures var rs := [Request(FoldedHead("999"), ""), TWO_HOSTS];
            AllWellFormed(rs) && !AllSeen(rs) && Rewritten(Sent(rs)) != Expected(rs)
  {
    hide Sent;
    hide Expected;
    hide LinesOf;
    hide ValidHead;
    hide BodyLength;
    hide SeesLength;
    hide Rewritten;
    hide FoldedHead;
    hide Kept;
    var r := Request(FoldedHead("999"), "");
    var rs := [r, TWO_HOSTS];
    assert rs == [r] + [TWO_HOSTS];
    NineNineNine();
    TwoHosts();
    FoldedExample("999");
    FoldedIsShort();
    FoldedSwallows("999", [TWO_HOSTS]);
    assert rs[0] == r && rs[1] == TWO_HOSTS;
  }

  lemma NineNineNine()
    ensures IsNumber("999") && Decimal("999") == 999
  {
    assert "999"[..2] == "99" && "99"[..1] == "9" && "9"[..0] == "";
  }

  lemma FoldedIsShort()
    ensures var ls := LinesOf(FoldedHead("999")); |Concat(ls[..|ls| - 1])| <= 65536
  {
    var h := FoldedHead("999");
    LinesSplit(h);
    FieldLinesCons(h.fields);
    assert FieldLines(h.fields[1..]) == [];
    OneLine(h.fields[0].folds[0]);
    var s, a, b, e := Raw(h.start), Raw(FirstLineOf(h.fields[0])), Raw(h.fields[0].folds[0]), Raw(h.end);
    assert LinesOf(h) == [s, a, b, e];
    ConcatFour(s, a, b, e);
  }
}
