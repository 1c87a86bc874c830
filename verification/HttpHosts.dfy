/**
 What the connection wrapper leaves of a request head, in terms of header fields (section 5 of RFC
 9112) rather than of lines.
 */
module HttpHosts {
  import opened GoLib
  import opened HttpMessage
  import opened HttpFix
  import opened HttpRequests

  /** The field's name is `host`; names are told apart without regard to case. */
  predicate IsHostField(f: Field) {
    var n := f.name;
    && |n| == 4 && (n[0] == 'h' || n[0] == 'H') && (n[1] == 'o' || n[1] == 'O')
    && (n[2] == 's' || n[2] == 'S') && (n[3] == 't' || n[3] == 'T')
  }

  /** The lines of the fields, where a Host field behind another one keeps only its continuation lines. */
  function OneHost(fields: seq<Field>, seen: bool): seq<TextLine> {
    if fields == [] then []
    else
      var f := fields[0];
      (if seen && IsHostField(f) then [] else [FirstLineOf(f)]) + f.folds + OneHost(fields[1..], seen || IsHostField(f))
  }

  // ---------- which lines are Host lines ----------

  lemma TrimsEnd(l: TextLine)
    requires IsText(l.content)
    ensures TrimEol(Raw(l)) == l.content
  {
    var c := l.content;
    if l.bare {
      assert (c + "\n")[..|c|] == c;
    } else {
      assert Raw(l) == c + "\r\n" && (c + "\r\n")[..|c| + 1] == c + "\r" && (c + "\r")[..|c|] == c;
      assert TrimEol(c + "\r\n") == TrimEol(c + "\r") == TrimEol(c) == c;
    }
  }

  lemma HostPrefixMeaning(s: string)
    ensures HasHostPrefix(s) <==>
            && |s| >= 5 && (s[0] == 'h' || s[0] == 'H') && (s[1] == 'o' || s[1] == 'O')
            && (s[2] == 's' || s[2] == 'S') && (s[3] == 't' || s[3] == 'T') && s[4] == ':'
  {
    if |s| >= 5 {
      var lower := ToLower(s[..5]);
      assert lower == [ToLowerChar(s[0]), ToLowerChar(s[1]), ToLowerChar(s[2]), ToLowerChar(s[3]), ToLowerChar(s[4])];
      assert "host:" == ['h', 'o', 's', 't', ':'];
    }
  }

  lemma FieldIsHost(f: Field)
    requires ValidField(f)
    ensures IsHost(Raw(FirstLineOf(f))) <==> IsHostField(f)
  {
    hide HasHostPrefix;
    var s := f.name + ":" + f.text;
    TcharIsPrintable(f.name);
    assert IsText(s);
    TrimsEnd(FirstLineOf(f));
    HostPrefixMeaning(s);
    assert s[|f.name|] == ':';
    assert forall i :: 0 <= i < |f.name| ==> s[i] == f.name[i];
  }

  lemma FoldIsNoHost(l: TextLine)
    requires IsFold(l)
    ensures !IsHost(Raw(l))
  {
    hide HasHostPrefix;
    TrimsEnd(l);
    HostPrefixMeaning(l.content);
  }

  lemma StartIsNoHost(l: TextLine)
    requires IsStart(l.content)
    ensures !IsHost(Raw(l))
  {
    hide HasHostPrefix;
    var s := l.content;
    TrimsEnd(l);
    HostPrefixMeaning(s);
    var k :| 0 < k < |s| && IsToken(s[..k]) && s[k] == ' ';
    TcharIsPrintable(s[..k]);
    if k > 4 {
      assert s[4] == s[..k][4] != ':';
    }
  }

  lemma EndIsNoHost(l: TextLine)
    requires l.content == ""
    ensures !IsHost(Raw(l))
  {
    hide HasHostPrefix;
    TrimsEnd(l);
    HostPrefixMeaning("");
  }

  // ---------- which lines stay ----------

  lemma {:induction false} RawOfBoth(a: seq<TextLine>, b: seq<TextLine>)
    ensures RawLines(a + b) == RawLines(a) + RawLines(b)
  {
    if a == [] {
      assert a + b == b;
    } else {
      assert (a + b)[1..] == a[1..] + b;
      RawOfBoth(a[1..], b);
    }
  }

  lemma {:induction false} FoldsStay(before: seq<string>, folds: seq<TextLine>)
    requires forall i :: 0 <= i < |folds| ==> IsFold(folds[i])
    ensures Kept(before + RawLines(folds)) == Kept(before) + RawLines(folds)
    ensures HostAmong(before + RawLines(folds)) == HostAmong(before)
  {
    hide Kept;
    hide HostAmong;
    hide IsHost;
    hide IsFold;
    if folds == [] {
      assert before + RawLines(folds) == before && Kept(before) + RawLines(folds) == Kept(before);
    } else {
      var n := |folds| - 1;
      assert IsFold(folds[n]);
      FoldIsNoHost(folds[n]);
      FoldsStay(before, folds[..n]);
      assert folds == folds[..n] + [folds[n]];
      RawOfBoth(folds[..n], [folds[n]]);
      RawOfOne(folds[n]);
      KeptStep(before + RawLines(folds[..n]), Raw(folds[n]));
      AppendAssoc(before, RawLines(folds[..n]), [Raw(folds[n])]);
      AppendAssoc(Kept(before), RawLines(folds[..n]), [Raw(folds[n])]);
    }
  }

  lemma RawOfNone()
    ensures RawLines([]) == []
  {
  }

  lemma ValidFolds(f: Field)
    requires ValidField(f)
    ensures forall i :: 0 <= i < |f.folds| ==> IsFold(f.folds[i])
  {
  }

  lemma RawOfOne(l: TextLine)
    ensures RawLines([l]) == [Raw(l)]
  {
    assert RawLines([l][1..]) == [];
  }

  lemma {:induction false} FieldsKept(before: seq<string>, fields: seq<Field>)
    requires forall i :: 0 <= i < |fields| ==> ValidField(fields[i])
    ensures Kept(before + RawLines(FieldLines(fields))) == Kept(before) + RawLines(OneHost(fields, HostAmong(before)))
    decreases |fields|
  {
    hide Kept;
    hide HostAmong;
    hide IsHost;
    hide IsHostField;
    hide RawLines;
    hide ValidField;
    if fields == [] {
      RawOfNone();
      assert before + RawLines(FieldLines(fields)) == before;
      assert Kept(before) + RawLines(OneHost(fields, HostAmong(before))) == Kept(before);
    } else {
      var f := fields[0];
      var line, folds, more := Raw(FirstLineOf(f)), RawLines(f.folds), RawLines(FieldLines(fields[1..]));
      var shown := if HostAmong(before) && IsHostField(f) then [] else [line];
      assert ValidField(f);
      FieldIsHost(f);
      KeptStep(before, line);
      ValidFolds(f);
      FoldsStay(before + [line], f.folds);
      FieldsKept(before + [line] + folds, fields[1..]);
      RawOfField(f, FieldLines(fields[1..]));
      var rest := OneHost(fields[1..], HostAmong(before) || IsHostField(f));
      RawOfShown(HostAmong(before) && IsHostField(f), f, rest);
      assert Kept(before + [line]) == Kept(before) + shown by {
        assert Kept(before) + [] == Kept(before);
      }
      Joined(before, line, folds, more, shown, RawLines(rest));
    }
  }

  lemma Joined(before: seq<string>, line: string, folds: seq<string>, more: seq<string>, shown: seq<string>, rest: seq<string>)
    requires Kept(before + [line]) == Kept(before) + shown
    requires Kept(before + [line] + folds) == Kept(before + [line]) + folds
    requires Kept(before + [line] + folds + more) == Kept(before + [line] + folds) + rest
    ensures Kept(before + ([line] + folds + more)) == Kept(before) + (shown + folds + rest)
  {
    hide Kept;
    assert before + ([line] + folds + more) == before + [line] + folds + more;
  }

  lemma RawOfField(f: Field, more: seq<TextLine>)
    ensures RawLines([FirstLineOf(f)] + f.folds + more) == [Raw(FirstLineOf(f))] + RawLines(f.folds) + RawLines(more)
  {
    RawOfOne(FirstLineOf(f));
    RawOfBoth([FirstLineOf(f)], f.folds);
    RawOfBoth([FirstLineOf(f)] + f.folds, more);
  }

  lemma RawOfShown(hidden: bool, f: Field, more: seq<TextLine>)
    ensures RawLines((if hidden then [] else [FirstLineOf(f)]) + f.folds + more) ==
            (if hidden then [] else [Raw(FirstLineOf(f))]) + RawLines(f.folds) + RawLines(more)
  {
    RawOfField(f, more);
    if hidden {
      assert [] + f.folds == f.folds && [] + RawLines(f.folds) == RawLines(f.folds);
      RawOfBoth(f.folds, more);
    }
  }

  /**
   What stays of a valid request head: everything but the first lines of the Host fields, in any
   case, behind the first one.
   */
  lemma OneHostStays(h: Head)
    requires ValidHead(h)
    ensures Kept(LinesOf(h)) == RawLines([h.start] + OneHost(h.fields, false) + [h.end])
  {
    hide Kept;
    hide HostAmong;
    hide IsHost;
    hide RawLines;
    StartIsNoHost(h.start);
    EndIsNoHost(h.end);
    RawOfOne(h.start);
    RawOfOne(h.end);
    RawOfBoth([h.start], FieldLines(h.fields));
    RawOfBoth([h.start] + FieldLines(h.fields), [h.end]);
    RawOfBoth([h.start], OneHost(h.fields, false));
    RawOfBoth([h.start] + OneHost(h.fields, false), [h.end]);
    var start, end := Raw(h.start), Raw(h.end);
    KeptNone(start);
    FieldsKept([start], h.fields);
    KeptStep([start] + RawLines(FieldLines(h.fields)), end);
  }

  lemma KeptNone(l: string)
    requires !IsHost(l)
    ensures Kept([l]) == [l] && !HostAmong([l])
  {
    hide IsHost;
    KeptStep([], l);
    assert [] + [l] == [l];
    assert Kept([]) == [];
    assert !HostAmong([]);
  }

  /** A stream that begins like a TLS record of a handshake, up to version 1.2, is passed on as it is. */
  lemma HandshakePasses(src: string)
    requires |src| >= 3 && src[0] as int == 22 && src[1] as int == 3 && src[2] as int <= 3
    ensures Delivered(src) == src
  {
  }

  // ---------- requests ----------

  /** Requests as a server should see them: of every header's Host fields only the first is left. */
  function OneHostEach(rs: seq<Request>): string {
    if rs == [] then ""
    else
      var h := rs[0].head;
      Concat(RawLines([h.start] + OneHost(h.fields, false) + [h.end])) + rs[0].body + OneHostEach(rs[1..])
  }

  lemma {:induction false} ExpectedIsOneHost(rs: seq<Request>)
    requires AllWellFormed(rs)
    ensures Expected(rs) == OneHostEach(rs)
  {
    hide Kept;
    hide RawLines;
    if rs != [] {
      assert WellFormed(rs[0]);
      OneHostStays(rs[0].head);
      ExpectedIsOneHost(rs[1..]);
    }
  }

  /** A connection with requests whose lengths the wrapper sees delivers them with one Host field each. */
  lemma DeliversOneHost(rs: seq<Request>)
    requires AllWellFormed(rs) && AllSeen(rs) && !LooksLikeTLS(Sent(rs))
    ensures Delivered(Sent(rs)) == OneHostEach(rs)
  {
    DeliversRequests(rs);
    ExpectedIsOneHost(rs);
  }

  // ---------- headers that are too long ----------

  lemma {:induction false} TakesOverlong(raw: string, ls: seq<string>, rest: string)
    requires ls != [] && AllLines(ls) && forall i :: 0 <= i < |ls| ==> !IsBlank(ls[i])
    requires |raw| + |Concat(ls[..|ls| - 1])| <= 65536 < |raw| + |Concat(ls)|
    ensures Taken(raw, Concat(ls) + rest) == Block(raw + Concat(ls), rest, false)
    decreases |ls|
  {
    var after := Concat(ls[1..]) + rest;
    assert Concat(ls) + rest == ls[0] + after;
    FirstLine(ls[0], after);
    if |ls| == 1 {
      assert Concat(ls[1..]) == "";
    } else {
      assert ls[..|ls| - 1][1..] == ls[1..][..|ls| - 2];
      TakesOverlong(raw + ls[0], ls[1..], rest);
      AppendAssoc(raw, ls[0], Concat(ls[1..]));
    }
  }

  /**
   Lines that reach beyond 65536 bytes without a blank one are passed on as they are, repeated Host
   lines included; what follows them is read as a new header.
   */
  lemma OverlongPasses(ls: seq<string>, rest: string)
    requires ls != [] && AllLines(ls) && forall i :: 0 <= i < |ls| ==> !IsBlank(ls[i])
    requires |Concat(ls[..|ls| - 1])| <= 65536 < |Concat(ls)|
    ensures Rewritten(Concat(ls) + rest) == Concat(ls) + Rewritten(rest)
  {
    hide Taken;
    TakesOverlong("", ls, rest);
    RewrittenUnfolds(Concat(ls) + rest);
    assert "" + Concat(ls) == Concat(ls);
  }
}
