/**
 The GameSpy text protocol (internal/gamespy/textwire.go) and the buffer that cuts it out of
 TCP reads (internal/gamespy/texttcp/server.go).
 */
module TextWire {
  import opened GoLib

  type Message = map<string, string>

  datatype KV = KV(key: string, value: string)

  const FINAL := "\\final\\"

  // ---------- writing ----------

  function StripLeft(s: string): string {
    if s != "" && s[0] == '\\' then StripLeft(s[1..]) else s
  }

  function StripRight(s: string): string {
    if s != "" && s[|s| - 1] == '\\' then StripRight(s[..|s| - 1]) else s
  }

  function Stripped(s: string): string {
    StripRight(StripLeft(s))
  }

  method StripBackslash(text: string) returns (s: string)
    ensures s == Stripped(text)
  {
    s := text;
    while |s| > 0 && s[0] == '\\'
      invariant StripLeft(s) == StripLeft(text)
    {
      s := s[1..];
    }
    while |s| > 0 && s[|s| - 1] == '\\'
      invariant StripRight(s) == Stripped(text)
    {
      s := s[..|s| - 1];
    }
  }

  function Field(pair: KV): string {
    "\\" + pair.key + "\\" + pair.value
  }

  /** The wire form of a list of pairs. */
  function Wire(pairs: seq<KV>): (s: string)
    ensures s != "" && s[0] == '\\'
  {
    if pairs == [] then FINAL else Field(pairs[0]) + Wire(pairs[1..])
  }

  function StripAll(pairs: seq<KV>): (r: seq<KV>)
    ensures |r| == |pairs|
  {
    seq(|pairs|, i requires 0 <= i < |pairs| => KV(Stripped(pairs[i].key), Stripped(pairs[i].value)))
  }

  method CreateGameSpyMessageOrdered(pairs: seq<KV>) returns (buf: string)
    ensures buf == Wire(StripAll(pairs))
  {
    hide Wire;
    hide Stripped;
    buf := "";
    ghost var all := StripAll(pairs);
    WireNothing();
    for i := 0 to |pairs|
      invariant buf + Wire(all[i..]) == Wire(all)
    {
      WireStep(all, i, buf);
      buf := buf + "\\";
      var key := StripBackslash(pairs[i].key);
      buf := buf + key;
      buf := buf + "\\";
      var value := StripBackslash(pairs[i].value);
      buf := buf + value;
    }
    assert all[|pairs|..] == [];
    buf := buf + FINAL;
  }

  lemma WireNothing()
    ensures Wire([]) == FINAL
  {
  }

  lemma WireStep(all: seq<KV>, i: nat, buf: string)
    requires i < |all|
    ensures buf + Wire(all[i..]) == buf + "\\" + all[i].key + "\\" + all[i].value + Wire(all[i + 1..])
  {
    hide Wire;
    WireCons(all[i..]);
    assert all[i..][1..] == all[i + 1..];
  }

  lemma WireCons(pairs: seq<KV>)
    requires pairs != []
    ensures Wire(pairs) == Field(pairs[0]) + Wire(pairs[1..])
  {
  }

  // ---------- reading ----------

  predicate OccursAt(s: string, sub: string, i: nat) {
    i + |sub| <= |s| && s[i..i + |sub|] == sub
  }

  /** bytes.Index. */
  function Index(s: string, sub: string, from: nat): (r: Option<nat>)
    ensures r.Some? ==> from <= r.value && OccursAt(s, sub, r.value)
    ensures forall i :: from <= i && (r.Some? ==> i < r.value) ==> !OccursAt(s, sub, i)
    decreases |s| - from
  {
    if from + |sub| > |s| then None
    else if s[from..from + |sub|] == sub then Some(from)
    else Index(s, sub, from + 1)
  }

  predicate Contains(s: string, sub: string) {
    Index(s, sub, 0).Some?
  }

  /** Records one field; the first one is also the command. */
  function AddField(m: Message, found: bool, key: string, value: string): Message {
    (if found then m else m["__cmd__" := key]["__cmd_val__" := value])[key := value]
  }

  /** Reads fields up to the end of the message; what is left comes second. */
  function ParseFields(msg: string, m: Message, found: bool): (r: (Message, string))
    ensures |r.1| <= |msg|
    ensures msg != "" && msg[0] == '\\' && '\\' in msg[1..] ==> |r.1| < |msg|
    decreases |msg|
  {
    if msg == "" || msg[0] != '\\' then (m, msg)
    else
      var keyEnd := IndexFrom(msg, 1, '\\');
      if keyEnd == |msg| then (m, msg)
      else
        var key, rest := msg[1..keyEnd], msg[keyEnd + 1..];
        if key == "final" then (m, rest)
        else
          var valueEnd := IndexFrom(rest, 0, '\\');
          ParseFields(rest[valueEnd..], AddField(m, found, key, rest[..valueEnd]), true)
  }

  lemma FinalMakesProgress(msg: string)
    requires Contains(msg, FINAL)
    ensures '\\' in msg[1..]
  {
    var i := Index(msg, FINAL, 0).value;
    assert msg[i..i + 7][6] == '\\';
    assert msg[1..][i + 5] == msg[i + 6];
  }

  /** The complete messages of `msg`, and the bytes after them. */
  function Parse(msg: string): (r: (seq<Message>, string))
    decreases |msg|
  {
    if msg != "" && msg[0] == '\\' && Contains(msg, FINAL) then
      FinalMakesProgress(msg);
      var (m, rest) := ParseFields(msg, map[], false);
      var (ms, tail) := Parse(rest);
      ([m] + ms, tail)
    else ([], msg)
  }

  lemma ParseUnfolds(msg: string)
    requires msg != "" && msg[0] == '\\' && Contains(msg, FINAL)
    ensures var (m, rest) := ParseFields(msg, map[], false);
            |rest| < |msg| && Parse(msg) == ([m] + Parse(rest).0, Parse(rest).1)
  {
    FinalMakesProgress(msg);
  }

  lemma ParseStops(msg: string)
    requires msg == "" || msg[0] != '\\' || !Contains(msg, FINAL)
    ensures Parse(msg) == ([], msg)
  {
  }

  method ParseGameSpyMessage(data: string) returns (commands: seq<Message>, remainder: string)
    ensures (commands, remainder) == Parse(data)
  {
    hide Parse;
    hide ParseFields;
    hide Contains;
    var msg := data;
    commands := [];
    while |msg| > 0 && msg[0] == '\\' && Contains(msg, FINAL)
      invariant commands + Parse(msg).0 == Parse(data).0 && Parse(msg).1 == Parse(data).1
      decreases |msg|
    {
      ghost var was := msg;
      ParseUnfolds(was);
      var messages;
      messages, msg := ParseOneMessage(msg);
      commands := commands + [messages];
    }
    ParseStops(msg);
    assert commands + [] == commands;
    return commands, msg;
  }

  /** The inner loop of ParseGameSpyMessage. */
  method ParseOneMessage(data: string) returns (messages: Message, msg: string)
    ensures (messages, msg) == ParseFields(data, map[], false)
  {
    hide ParseFields;
    hide IndexFrom;
    messages := map[];
    var foundCommand := false;
    msg := data;
    while |msg| > 0 && msg[0] == '\\'
      invariant ParseFields(msg, messages, foundCommand) == ParseFields(data, map[], false)
      decreases |msg|
    {
      ParseFieldsUnfolds(msg, messages, foundCommand);
      var keyEnd := IndexFrom(msg, 1, '\\');
      if keyEnd == |msg| {
        return;
      }
      var key := msg[1..keyEnd];
      msg := msg[keyEnd + 1..];
      if key == "final" {
        return;
      }
      var value := "";
      ghost var rest := msg;
      ValueStart(rest);
      if |msg| > 0 && msg[0] != '\\' {
        var valueEnd := IndexFrom(msg, 1, '\\');
        value, msg := msg[..valueEnd], msg[valueEnd..];
      }
      assert value == rest[..IndexFrom(rest, 0, '\\')] && msg == rest[IndexFrom(rest, 0, '\\')..];
      if !foundCommand {
        messages := messages["__cmd__" := key]["__cmd_val__" := value];
      }
      messages := messages[key := value];
      foundCommand := true;
    }
    ParseFieldsEnds(msg, messages, foundCommand);
  }

  lemma ParseFieldsUnfolds(msg: string, m: Message, found: bool)
    requires msg != "" && msg[0] == '\\'
    ensures ParseFields(msg, m, found) ==
            var keyEnd := IndexFrom(msg, 1, '\\');
            if keyEnd == |msg| then (m, msg)
            else
              var key, rest := msg[1..keyEnd], msg[keyEnd + 1..];
              if key == "final" then (m, rest)
              else
                var valueEnd := IndexFrom(rest, 0, '\\');
                ParseFields(rest[valueEnd..], AddField(m, found, key, rest[..valueEnd]), true)
  {
    hide IndexFrom;
    hide AddField;
  }

  lemma ParseFieldsEnds(msg: string, m: Message, found: bool)
    requires msg == "" || msg[0] != '\\'
    ensures ParseFields(msg, m, found) == (m, msg)
  {
  }

  /** The code looks for the end of a value from its second character on. */
  lemma ValueStart(rest: string)
    ensures IndexFrom(rest, 0, '\\') == if rest != "" && rest[0] != '\\' then IndexFrom(rest, 1, '\\') else 0
    ensures rest[0..] == rest
  {
  }

  /** What one call of Consume returns and leaves behind. */
  function Consumed(remaining: string, chunk: string): (seq<Message>, string) {
    var data := remaining + chunk;
    if data != "" && data[0] != '\\' then
      match Index(data, FINAL, 0)
      case Some(i) => Parse(data[i + |FINAL|..])
      case None => ([], "")
    else Parse(data)
  }

  class FrameBuffer {
    var Remaining: string

    constructor ()
      ensures Remaining == ""
    {
      Remaining := "";
    }

    method Consume(chunk: string) returns (commands: seq<Message>)
      modifies this
      ensures (commands, Remaining) == Consumed(old(Remaining), chunk)
    {
      var data := Remaining + chunk;
      if |data| > 0 && data[0] != '\\' {
        var idx := Index(data, FINAL, 0);
        if idx != None {
          data := data[idx.value + |FINAL|..];
        } else {
          Remaining := "";
          return [];
        }
      }
      var remainder;
      commands, remainder := ParseGameSpyMessage(data);
      Remaining := remainder;
    }
  }

  /** Feeding chunks one after the other. */
  function Feed(remaining: string, chunks: seq<string>): (seq<Message>, string)
    decreases chunks
  {
    if chunks == [] then ([], remaining)
    else
      var (ms, rest) := Consumed(remaining, chunks[0]);
      var (ms', rest') := Feed(rest, chunks[1..]);
      (ms + ms', rest')
  }

  // ---------- framing ----------

  /** The message a list of pairs stands for: the first pair is the command, later values win. */
  function MessageOf(pairs: seq<KV>): Message {
    if pairs == [] then map[]
    else AddField(MessageOf(pairs[..|pairs| - 1]), |pairs| > 1, pairs[|pairs| - 1].key, pairs[|pairs| - 1].value)
  }

  /** Pairs that survive on the wire: no backslash, no key `final`. */
  predicate Readable(pairs: seq<KV>) {
    forall i :: 0 <= i < |pairs| ==> '\\' !in pairs[i].key && '\\' !in pairs[i].value && pairs[i].key != "final"
  }

  /** ... and no value `final` either. */
  predicate Clean(pairs: seq<KV>) {
    Readable(pairs) && forall i :: 0 <= i < |pairs| ==> pairs[i].value != "final"
  }

  function AddFields(m: Message, found: bool, pairs: seq<KV>): Message
    decreases pairs
  {
    if pairs == [] then m
    else AddFields(AddField(m, found, pairs[0].key, pairs[0].value), true, pairs[1..])
  }

  lemma {:induction false} AddFieldsLast(m: Message, found: bool, pairs: seq<KV>)
    requires pairs != []
    ensures var n := |pairs| - 1;
            AddFields(m, found, pairs) == AddField(AddFields(m, found, pairs[..n]), found || n > 0, pairs[n].key, pairs[n].value)
    decreases pairs
  {
    var n := |pairs| - 1;
    if n > 0 {
      assert pairs[1..][..n - 1] == pairs[..n][1..];
      AddFieldsLast(AddField(m, found, pairs[0].key, pairs[0].value), true, pairs[1..]);
    }
  }

  lemma {:induction false} AddFieldsIsMessageOf(pairs: seq<KV>)
    ensures AddFields(map[], false, pairs) == MessageOf(pairs)
  {
    if pairs != [] {
      AddFieldsIsMessageOf(pairs[..|pairs| - 1]);
      AddFieldsLast(map[], false, pairs);
    }
  }

  lemma IndexSkips(pre: string, mid: string, post: string)
    requires '\\' !in mid && post != "" && post[0] == '\\'
    ensures IndexFrom(pre + mid + post, |pre|, '\\') == |pre| + |mid|
  {
    var s := pre + mid + post;
    forall i | |pre| <= i < |pre| + |mid|
      ensures s[i] != '\\'
    {
      assert s[i] == mid[i - |pre|];
    }
    IndexFromUnique(s, |pre|, '\\', |pre| + |mid|);
  }

  /** Reading one field of a wire form. */
  lemma ParseField(pair: KV, after: string, m: Message, found: bool)
    requires '\\' !in pair.key && '\\' !in pair.value && pair.key != "final"
    requires after != "" && after[0] == '\\'
    ensures ParseFields(Field(pair) + after, m, found) == ParseFields(after, AddField(m, found, pair.key, pair.value), true)
  {
    hide Field;
    hide IndexFrom;
    hide AddField;
    FieldParts(pair, after);
  }

  lemma FieldParts(pair: KV, after: string)
    requires '\\' !in pair.key && '\\' !in pair.value && after != "" && after[0] == '\\'
    ensures var msg, rest, keyEnd := Field(pair) + after, pair.value + after, 1 + |pair.key|;
            && |msg| > keyEnd && msg[0] == '\\' && IndexFrom(msg, 1, '\\') == keyEnd
            && msg[1..keyEnd] == pair.key && msg[keyEnd + 1..] == rest
            && IndexFrom(rest, 0, '\\') == |pair.value|
            && rest[..|pair.value|] == pair.value && rest[|pair.value|..] == after
  {
    hide IndexFrom;
    hide Field;
    var rest := pair.value + after;
    FieldSplits(pair, after);
    IndexSkips("\\", pair.key, "\\" + rest);
    KeyPart(pair.key, rest);
    assert rest == "" + pair.value + after;
    IndexSkips("", pair.value, after);
    Halves(pair.value, after);
  }

  lemma FieldSplits(pair: KV, after: string)
    ensures Field(pair) + after == "\\" + pair.key + ("\\" + (pair.value + after))
  {
  }

  lemma KeyPart(key: string, rest: string)
    ensures var msg := "\\" + key + ("\\" + rest);
            msg[0] == '\\' && |msg| > 1 + |key| && msg[1..1 + |key|] == key && msg[1 + |key| + 1..] == rest
  {
  }

  lemma Halves(a: string, b: string)
    ensures (a + b)[..|a|] == a && (a + b)[|a|..] == b
  {
  }

  lemma {:induction false} ParseWire(pairs: seq<KV>, after: string, m: Message, found: bool)
    requires Readable(pairs)
    decreases pairs
    ensures ParseFields(Wire(pairs) + after, m, found) == (AddFields(m, found, pairs), after)
  {
    var msg := Wire(pairs) + after;
    if pairs == [] {
      assert msg == "\\" + "final" + ("\\" + after);
      IndexSkips("\\", "final", "\\" + after);
      assert msg[1..6] == "final" && msg[7..] == after;
    } else {
      var rest := Wire(pairs[1..]) + after;
      assert msg == Field(pairs[0]) + rest;
      ParseField(pairs[0], rest, m, found);
      ParseWire(pairs[1..], after, AddField(m, found, pairs[0].key, pairs[0].value), true);
    }
  }

  // ---------- where a message ends ----------

  lemma OccursShift(pre: string, s: string, sub: string, i: nat)
    ensures OccursAt(pre + s, sub, |pre| + i) == OccursAt(s, sub, i)
  {
    if i + |sub| <= |s| {
      assert (pre + s)[|pre| + i..|pre| + i + |sub|] == s[i..i + |sub|];
    }
  }

  lemma {:induction false} WireContainsFinal(pairs: seq<KV>, after: string)
    ensures exists i :: OccursAt(Wire(pairs) + after, FINAL, i)
  {
    if pairs == [] {
      assert (FINAL + after)[0..7] == FINAL;
      assert OccursAt(Wire(pairs) + after, FINAL, 0);
    } else {
      WireContainsFinal(pairs[1..], after);
      var rest := Wire(pairs[1..]) + after;
      var i :| OccursAt(rest, FINAL, i);
      assert Wire(pairs) + after == Field(pairs[0]) + rest;
      OccursShift(Field(pairs[0]), rest, FINAL, i);
    }
  }

  /** A word that runs from a final marker's first backslash to the next backslash is `final`. */
  lemma GapIsFinal(w: string, i: nat, word: string)
    requires OccursAt(w, FINAL, i) && '\\' !in word
    requires i + 1 + |word| < |w| && w[i + 1..i + 1 + |word|] == word && w[i + 1 + |word|] == '\\'
    ensures word == "final"
  {
    forall j | 0 <= j < 7
      ensures w[i + j] == FINAL[j]
    {
      assert w[i + j] == w[i..i + 7][j];
    }
    forall j | i + 1 <= j < i + 1 + |word|
      ensures w[j] == word[j - i - 1]
    {
    }
    IndexFromUnique(w, i + 1, '\\', i + 6);
    IndexFromUnique(w, i + 1, '\\', i + 1 + |word|);
    assert word == w[i + 1..i + 6] == w[i..i + 7][1..6] == FINAL[1..6];
  }

  lemma GapNotFinal(p: string, w: string, i: nat, word: string)
    requires p <= w && '\\' !in word && word != "final"
    requires i + 1 + |word| < |w| && w[i + 1..i + 1 + |word|] == word && w[i + 1 + |word|] == '\\'
    ensures !OccursAt(p, FINAL, i)
  {
    if i + 7 <= |p| {
      assert p[i..i + 7] == w[i..i + 7];
    }
    if OccursAt(w, FINAL, i) {
      GapIsFinal(w, i, word);
    }
  }

  lemma NoMarkerHere(p: string, w: string, i: nat)
    requires p <= w && i < |w| && w[i] != '\\'
    ensures !OccursAt(p, FINAL, i)
  {
    if i + 7 <= |p| {
      assert p[i..i + 7][0] == p[i] == w[i];
    }
  }

  /** No proper prefix of a clean message looks finished. */
  lemma {:induction false} PrefixIsUnfinished(pairs: seq<KV>, p: string, i: nat)
    requires Clean(pairs) && p < Wire(pairs)
    ensures !OccursAt(p, FINAL, i)
    decreases pairs
  {
    if pairs != [] {
      var w := Wire(pairs);
      var pair, rest := pairs[0], Wire(pairs[1..]);
      var k, v := |pair.key|, |pair.value|;
      assert w == Field(pair) + rest;
      if i == 0 {
        assert w[1..1 + k] == pair.key && w[1 + k] == '\\';
        GapNotFinal(p, w, 0, pair.key);
      } else if i < 1 + k {
        assert w[i] == pair.key[i - 1];
        NoMarkerHere(p, w, i);
      } else if i == 1 + k {
        assert w[2 + k..2 + k + v] == pair.value && w[2 + k + v] == rest[0];
        GapNotFinal(p, w, i, pair.value);
      } else if i < 2 + k + v {
        assert w[i] == pair.value[i - 2 - k];
        NoMarkerHere(p, w, i);
      } else if i < |p| {
        var n := |Field(pair)|;
        assert p == Field(pair) + p[n..];
        assert p[n..] < rest;
        OccursShift(Field(pair), p[n..], FINAL, i - n);
        PrefixIsUnfinished(pairs[1..], p[n..], i - n);
      }
    }
  }

  // ---------- streams of messages ----------

  predicate AllClean(ms: seq<seq<KV>>) {
    forall i :: 0 <= i < |ms| ==> Clean(ms[i])
  }

  function Stream(ms: seq<seq<KV>>): string {
    if ms == [] then "" else Wire(ms[0]) + Stream(ms[1..])
  }

  function MessagesOf(ms: seq<seq<KV>>): (r: seq<Message>)
    ensures |r| == |ms|
  {
    if ms == [] then [] else [MessageOf(ms[0])] + MessagesOf(ms[1..])
  }

  lemma {:induction false} StreamAppend(a: seq<seq<KV>>, b: seq<seq<KV>>)
    ensures Stream(a + b) == Stream(a) + Stream(b)
  {
    if a == [] {
      assert a + b == b;
    } else {
      assert (a + b)[1..] == a[1..] + b;
      StreamAppend(a[1..], b);
      AppendAssoc(Wire(a[0]), Stream(a[1..]), Stream(b));
    }
  }

  lemma {:induction false} MessagesAppend(a: seq<seq<KV>>, b: seq<seq<KV>>)
    ensures MessagesOf(a + b) == MessagesOf(a) + MessagesOf(b)
  {
    if a == [] {
      assert a + b == b;
    } else {
      assert (a + b)[1..] == a[1..] + b;
      MessagesAppend(a[1..], b);
    }
  }

  /** Where message `n` starts in the stream. */
  function Offset(ms: seq<seq<KV>>, n: nat): nat
    requires n <= |ms|
  {
    |Stream(ms[..n])|
  }

  /** The bytes of messages `i` up to `j`. */
  lemma StreamSlice(ms: seq<seq<KV>>, i: nat, j: nat)
    requires i <= j <= |ms|
    ensures Offset(ms, i) <= Offset(ms, j) <= |Stream(ms)|
    ensures Stream(ms)[Offset(ms, i)..Offset(ms, j)] == Stream(ms[i..j])
  {
    assert ms[..j] == ms[..i] + ms[i..j] && ms == ms[..j] + ms[j..];
    StreamAppend(ms[..i], ms[i..j]);
    StreamAppend(ms[..j], ms[j..]);
  }

  lemma OneWire(ms: seq<seq<KV>>, n: nat)
    requires n < |ms|
    ensures Stream(ms[n..n + 1]) == Wire(ms[n])
  {
    assert ms[n..n + 1] == [ms[n]];
    assert Stream([ms[n]]) == Wire(ms[n]) + Stream([ms[n]][1..]);
  }

  /** How many messages the first `pos` bytes of the stream complete. */
  function Whole(ms: seq<seq<KV>>, pos: nat): (n: nat)
    ensures n <= |ms|
  {
    if ms != [] && Offset(ms, |ms|) > pos then Whole(ms[..|ms| - 1], pos) else |ms|
  }

  lemma {:induction false} WholeBounds(ms: seq<seq<KV>>, pos: nat)
    ensures var n := Whole(ms, pos);
            Offset(ms, n) <= pos && (n < |ms| ==> pos < Offset(ms, n + 1))
  {
    if ms != [] && Offset(ms, |ms|) > pos {
      var init := ms[..|ms| - 1];
      WholeBounds(init, pos);
      var n := Whole(init, pos);
      assert init[..n] == ms[..n];
      if n < |init| {
        assert init[..n + 1] == ms[..n + 1];
      }
    }
  }

  /** The bytes before `pos` that belong to a message not yet complete. */
  function Left(ms: seq<seq<KV>>, pos: nat): string
    requires pos <= |Stream(ms)|
  {
    WholeBounds(ms, pos);
    Stream(ms)[Offset(ms, Whole(ms, pos))..pos]
  }

  /** What is left is a proper prefix of the next message; nothing once all are complete. */
  lemma LeftIsProper(ms: seq<seq<KV>>, pos: nat)
    requires pos <= |Stream(ms)|
    ensures var n := Whole(ms, pos); if n < |ms| then Left(ms, pos) < Wire(ms[n]) else Left(ms, pos) == ""
  {
    var n := Whole(ms, pos);
    WholeBounds(ms, pos);
    if n < |ms| {
      StreamSlice(ms, n, n + 1);
      OneWire(ms, n);
      assert Left(ms, pos) == Stream(ms)[Offset(ms, n)..Offset(ms, n + 1)][..pos - Offset(ms, n)];
    } else {
      assert ms[..n] == ms;
    }
  }

  lemma ParsesOne(pairs: seq<KV>, rest: string)
    requires Readable(pairs)
    ensures Parse(Wire(pairs) + rest) == ([MessageOf(pairs)] + Parse(rest).0, Parse(rest).1)
  {
    WireContainsFinal(pairs, rest);
    ParseWire(pairs, rest, map[], false);
    AddFieldsIsMessageOf(pairs);
    assert Contains(Wire(pairs) + rest, FINAL);
  }

  /** Whole messages followed by something unfinished. */
  lemma {:induction false} ParsesStream(ms: seq<seq<KV>>, tail: string)
    requires AllClean(ms) && !Contains(tail, FINAL)
    ensures Parse(Stream(ms) + tail) == (MessagesOf(ms), tail)
  {
    if ms == [] {
      assert Stream(ms) + tail == tail;
    } else {
      ParsesStream(ms[1..], tail);
      ParsesOne(ms[0], Stream(ms[1..]) + tail);
      AppendAssoc(Wire(ms[0]), Stream(ms[1..]), tail);
    }
  }

  lemma LeftIsUnfinished(ms: seq<seq<KV>>, pos: nat)
    requires AllClean(ms) && pos <= |Stream(ms)|
    ensures !Contains(Left(ms, pos), FINAL)
    ensures Left(ms, pos) != "" ==> Left(ms, pos)[0] == '\\'
  {
    LeftIsProper(ms, pos);
    var n := Whole(ms, pos);
    if n < |ms| {
      forall i: nat
        ensures !OccursAt(Left(ms, pos), FINAL, i)
      {
        PrefixIsUnfinished(ms[n], Left(ms, pos), i);
      }
    }
  }

  lemma {:induction false} WholeBelow(ms: seq<seq<KV>>, pos: nat, k: nat)
    requires k <= |ms| && Offset(ms, k) > pos
    ensures Whole(ms, pos) < k
  {
    StreamSlice(ms, k, |ms|);
    assert ms[..0] == [];
    if k < |ms| {
      var init := ms[..|ms| - 1];
      assert init[..k] == ms[..k];
      WholeBelow(init, pos, k);
    }
  }

  lemma WholeMonotone(ms: seq<seq<KV>>, p: nat, q: nat)
    requires p <= q
    ensures Whole(ms, p) <= Whole(ms, q)
  {
    hide Whole;
    hide Offset;
    WholeBounds(ms, q);
    if Whole(ms, q) < |ms| {
      WholeBelow(ms, p, Whole(ms, q) + 1);
    }
  }

  /** What the buffer sees when the bytes from `pos` to `end` arrive. */
  lemma ChunkData(ms: seq<seq<KV>>, pos: nat, end: nat)
    requires pos <= end <= |Stream(ms)|
    ensures Whole(ms, pos) <= Whole(ms, end)
    ensures Left(ms, pos) + Stream(ms)[pos..end] == Stream(ms[Whole(ms, pos)..Whole(ms, end)]) + Left(ms, end)
  {
    hide Whole;
    hide Stream;
    hide Offset;
    var n, m := Whole(ms, pos), Whole(ms, end);
    var s := Stream(ms);
    WholeMonotone(ms, pos, end);
    WholeBounds(ms, pos);
    WholeBounds(ms, end);
    StreamSlice(ms, n, m);
    SliceSplit(s, Offset(ms, n), pos, end);
    SliceSplit(s, Offset(ms, n), Offset(ms, m), end);
  }

  lemma {:induction false} StreamStart(ms: seq<seq<KV>>)
    ensures Stream(ms) != "" ==> Stream(ms)[0] == '\\'
  {
  }

  /** One chunk: the bytes of the stream from `pos` to `end`. */
  lemma ConsumesChunk(ms: seq<seq<KV>>, pos: nat, end: nat)
    requires AllClean(ms) && pos <= end <= |Stream(ms)|
    ensures Whole(ms, pos) <= Whole(ms, end)
    ensures Consumed(Left(ms, pos), Stream(ms)[pos..end]) ==
            (MessagesOf(ms[Whole(ms, pos)..Whole(ms, end)]), Left(ms, end))
  {
    hide Whole;
    hide Left;
    hide Parse;
    hide Stream;
    ChunkData(ms, pos, end);
    var done := ms[Whole(ms, pos)..Whole(ms, end)];
    LeftIsUnfinished(ms, end);
    ParsesStream(done, Left(ms, end));
    StreamStart(done);
    var data := Left(ms, pos) + Stream(ms)[pos..end];
    assert data != "" ==> data[0] == '\\';
  }

  lemma CutInTwo(s: string, pos: nat, a: string, b: string)
    requires pos + |a| + |b| <= |s| && s[pos..pos + |a| + |b|] == a + b
    ensures s[pos..pos + |a|] == a && s[pos + |a|..pos + |a| + |b|] == b
  {
    var t := s[pos..pos + |a| + |b|];
    assert s[pos..pos + |a|] == t[..|a|] && s[pos + |a|..pos + |a| + |b|] == t[|a|..];
  }

  lemma NoMessages(ms: seq<seq<KV>>, n: nat)
    requires n <= |ms|
    ensures MessagesOf(ms[n..n]) == []
  {
  }

  /**
   However a stream of clean messages is cut into chunks, the frame buffer returns exactly the
   messages that have arrived in full, in order, and keeps exactly the unfinished one.
   */
  lemma {:induction false} Framing(ms: seq<seq<KV>>, pos: nat, chunks: seq<string>)
    requires AllClean(ms) && pos + |Concat(chunks)| <= |Stream(ms)|
    requires Stream(ms)[pos..pos + |Concat(chunks)|] == Concat(chunks)
    ensures var end := pos + |Concat(chunks)|;
            && Whole(ms, pos) <= Whole(ms, end)
            && Feed(Left(ms, pos), chunks) == (MessagesOf(ms[Whole(ms, pos)..Whole(ms, end)]), Left(ms, end))
    decreases chunks
  {
    hide Whole;
    hide Left;
    hide Consumed;
    hide Stream;
    hide MessagesOf;
    var n := Whole(ms, pos);
    if chunks == [] {
      NoMessages(ms, n);
    } else {
      var later := Concat(chunks[1..]);
      var mid := pos + |chunks[0]|;
      var end := mid + |later|;
      CutInTwo(Stream(ms), pos, chunks[0], later);
      ConsumesChunk(ms, pos, mid);
      Framing(ms, mid, chunks[1..]);
      WholeMonotone(ms, mid, end);
      var m, k := Whole(ms, mid), Whole(ms, end);
      assert ms[n..k] == ms[n..m] + ms[m..k];
      MessagesAppend(ms[n..m], ms[m..k]);
    }
  }

  lemma WholeAtEnds(ms: seq<seq<KV>>)
    ensures Whole(ms, 0) == 0 && Whole(ms, |Stream(ms)|) == |ms|
  {
    assert ms[..|ms|] == ms;
    if ms != [] {
      WholeBelow(ms, 0, 1);
    }
  }

  lemma LeftAtEnds(ms: seq<seq<KV>>)
    ensures Left(ms, 0) == "" && Left(ms, |Stream(ms)|) == ""
  {
    hide Stream;
    hide Whole;
    WholeBounds(ms, 0);
    WholeAtEnds(ms);
    LeftIsProper(ms, |Stream(ms)|);
  }

  /** Chunk independence: every way of cutting a whole stream yields its messages and nothing is left. */
  lemma ChunkIndependence(ms: seq<seq<KV>>, chunks: seq<string>)
    requires AllClean(ms) && Concat(chunks) == Stream(ms)
    ensures Feed("", chunks) == (MessagesOf(ms), "")
  {
    hide Whole;
    hide Stream;
    hide Left;
    Framing(ms, 0, chunks);
    WholeAtEnds(ms);
    LeftAtEnds(ms);
    var n, m := Whole(ms, 0), Whole(ms, |Stream(ms)|);
    assert ms[..0] == [] && ms[..|ms|] == ms && ms[0..|ms|] == ms;
  }

  // ---------- what a message says ----------

  /** Pair `i` is the last one with its key. */
  predicate IsLastOf(pairs: seq<KV>, i: nat) {
    i < |pairs| && forall j :: i < j < |pairs| ==> pairs[j].key != pairs[i].key
  }

  predicate HasKey(pairs: seq<KV>, key: string) {
    exists i :: 0 <= i < |pairs| && pairs[i].key == key
  }

  /**
   A message has the keys of its pairs, each with the value of the last pair that has it, and two
   more for the first pair: `__cmd__` with its key and `__cmd_val__` with its value, unless a pair
   has that very key.
   */
  ghost predicate Says(m: Message, pairs: seq<KV>) {
    && (forall key :: key in m <==> HasKey(pairs, key) || (pairs != [] && key in {"__cmd__", "__cmd_val__"}))
    && (forall i: nat :: IsLastOf(pairs, i) ==> pairs[i].key in m && m[pairs[i].key] == pairs[i].value)
    && (pairs != [] && !HasKey(pairs, "__cmd__") ==> "__cmd__" in m && m["__cmd__"] == pairs[0].key)
    && (pairs != [] && !HasKey(pairs, "__cmd_val__") ==> "__cmd_val__" in m && m["__cmd_val__"] == pairs[0].value)
  }

  lemma HasKeyLast(pairs: seq<KV>, pair: KV, key: string)
    ensures HasKey(pairs + [pair], key) <==> pair.key == key || HasKey(pairs, key)
  {
    var all := pairs + [pair];
    if HasKey(pairs, key) {
      var i :| 0 <= i < |pairs| && pairs[i].key == key;
      assert all[i].key == key;
    }
    if pair.key == key {
      assert all[|pairs|].key == key;
    }
  }

  lemma IsLastOfLast(pairs: seq<KV>, pair: KV, i: nat)
    ensures IsLastOf(pairs + [pair], i) <==> i == |pairs| || (IsLastOf(pairs, i) && pairs[i].key != pair.key)
  {
    var all := pairs + [pair];
    if i < |pairs| {
      assert all[|pairs|] == pair && all[i] == pairs[i];
      forall j | i < j < |pairs|
        ensures all[j] == pairs[j]
      {
      }
      if IsLastOf(all, i) {
        assert all[|pairs|].key != all[i].key;
        forall j | i < j < |pairs|
          ensures pairs[j].key != pairs[i].key
        {
          assert all[j].key != all[i].key;
        }
      }
    }
  }

  lemma SaysMore(m: Message, pairs: seq<KV>, pair: KV)
    requires Says(m, pairs) && (pairs == [] ==> m == map[])
    ensures Says(AddField(m, pairs != [], pair.key, pair.value), pairs + [pair])
  {
    hide HasKey;
    hide IsLastOf;
    var all := pairs + [pair];
    var m' := AddField(m, pairs != [], pair.key, pair.value);
    assert pairs == [] ==> all[0] == pair;
    forall key
      ensures HasKey(all, key) <==> pair.key == key || HasKey(pairs, key)
    {
      HasKeyLast(pairs, pair, key);
    }
    NoKeys(pairs);
    forall i: nat | IsLastOf(all, i)
      ensures i < |all| && all[i].key in m' && m'[all[i].key] == all[i].value
    {
      IsLastOfLast(pairs, pair, i);
      LastInRange(pairs, i);
      if i < |pairs| {
        LastIsKey(pairs, i);
      }
    }
  }

  lemma LastInRange(pairs: seq<KV>, i: nat)
    ensures IsLastOf(pairs, i) ==> i < |pairs|
  {
  }

  lemma LastIsKey(pairs: seq<KV>, i: nat)
    requires i < |pairs|
    ensures HasKey(pairs, pairs[i].key)
  {
  }

  lemma NoKeys(pairs: seq<KV>)
    ensures pairs == [] ==> forall key :: !HasKey(pairs, key)
  {
  }

  /** What the message of a list of pairs says. */
  lemma {:induction false} MessageSays(pairs: seq<KV>)
    ensures Says(MessageOf(pairs), pairs)
  {
    hide Says;
    hide AddField;
    if pairs == [] {
      NothingSaid();
    } else {
      var init, last := pairs[..|pairs| - 1], pairs[|pairs| - 1];
      MessageSays(init);
      SaysMore(MessageOf(init), init, last);
      assert pairs == init + [last];
    }
  }

  lemma NothingSaid()
    ensures Says(map[], [])
  {
  }

  lemma {:induction false} MessageAt(ms: seq<seq<KV>>, i: nat)
    requires i < |ms|
    ensures MessagesOf(ms)[i] == MessageOf(ms[i])
  {
    if i > 0 {
      MessageAt(ms[1..], i - 1);
    }
  }

  /** What the frame buffer returns for a stream of clean messages, however it is cut. */
  lemma FeedSays(ms: seq<seq<KV>>, chunks: seq<string>)
    requires AllClean(ms) && Concat(chunks) == Stream(ms)
    ensures |Feed("", chunks).0| == |ms|
    ensures forall i :: 0 <= i < |ms| ==> Says(Feed("", chunks).0[i], ms[i])
  {
    hide Says;
    hide Feed;
    ChunkIndependence(ms, chunks);
    forall i | 0 <= i < |ms|
      ensures Says(Feed("", chunks).0[i], ms[i])
    {
      MessageAt(ms, i);
      MessageSays(ms[i]);
    }
  }

  function Backslashed(pairs: seq<KV>): seq<string> {
    seq(|pairs|, i requires 0 <= i < |pairs| => "\\" + pairs[i].key + "\\" + pairs[i].value)
  }

  /** The wire form: every key and every value behind a backslash, and `\final\` at the end. */
  lemma {:induction false} WireSays(pairs: seq<KV>)
    ensures Wire(pairs) == Concat(Backslashed(pairs)) + "\\final\\"
  {
    if pairs != [] {
      WireSays(pairs[1..]);
      assert Backslashed(pairs)[1..] == Backslashed(pairs[1..]);
      AppendAssoc(Field(pairs[0]), Concat(Backslashed(pairs[1..])), "\\final\\");
    } else {
      assert Concat(Backslashed(pairs)) + "\\final\\" == "\\final\\";
    }
  }

  /** Stripping takes backslashes off both ends until there are none. */
  lemma StrippedMeaning(s: string) returns (a: string, b: string)
    ensures s == a + Stripped(s) + b
    ensures (forall c :: c in a ==> c == '\\') && (forall c :: c in b ==> c == '\\')
    ensures Stripped(s) != "" ==> Stripped(s)[0] != '\\' && Stripped(s)[|Stripped(s)| - 1] != '\\'
  {
    hide StripLeft;
    hide StripRight;
    a := StrippedLeft(s);
    b := StrippedRight(StripLeft(s));
    var t := StripRight(StripLeft(s));
    AppendAssoc(a, t, b);
    if t != "" {
      FirstOfBoth(t, b);
    }
  }

  lemma FirstOfBoth(a: string, b: string)
    requires a != ""
    ensures (a + b)[0] == a[0]
  {
  }

  lemma {:induction false} StrippedLeft(s: string) returns (a: string)
    ensures s == a + StripLeft(s) && forall c :: c in a ==> c == '\\'
    ensures StripLeft(s) != "" ==> StripLeft(s)[0] != '\\'
  {
    a := "";
    if s != "" && s[0] == '\\' {
      var more := StrippedLeft(s[1..]);
      a := ['\\'] + more;
    }
  }

  lemma {:induction false} StrippedRight(s: string) returns (b: string)
    ensures s == StripRight(s) + b && forall c :: c in b ==> c == '\\'
    ensures StripRight(s) != "" ==> StripRight(s)[|StripRight(s)| - 1] != '\\'
  {
    b := "";
    if s != "" && s[|s| - 1] == '\\' {
      var more := StrippedRight(s[..|s| - 1]);
      b := more + ['\\'];
    }
  }

  // ---------- what is written is read ----------

  lemma {:induction false} NothingToStrip(s: string)
    requires '\\' !in s
    ensures Stripped(s) == s
  {
  }

  lemma {:induction false} StripsNothing(pairs: seq<KV>)
    requires Clean(pairs)
    ensures StripAll(pairs) == pairs
  {
    forall i | 0 <= i < |pairs|
      ensures StripAll(pairs)[i] == pairs[i]
    {
      NothingToStrip(pairs[i].key);
      NothingToStrip(pairs[i].value);
    }
  }

  /** The bytes that CreateGameSpyMessageOrdered makes of each list of pairs. */
  function Created(ms: seq<seq<KV>>): seq<string> {
    if ms == [] then [] else [Wire(StripAll(ms[0]))] + Created(ms[1..])
  }

  lemma {:induction false} CreatedIsStream(ms: seq<seq<KV>>)
    requires AllClean(ms)
    ensures Concat(Created(ms)) == Stream(ms)
  {
    if ms != [] {
      StripsNothing(ms[0]);
      CreatedIsStream(ms[1..]);
    }
  }

  /** Messages that were created of clean pairs and sent one after the other arrive, whatever the chunks. */
  lemma CreatedMessagesArrive(ms: seq<seq<KV>>, chunks: seq<string>)
    requires AllClean(ms) && Concat(chunks) == Concat(Created(ms))
    ensures Feed("", chunks) == (MessagesOf(ms), "")
  {
    CreatedIsStream(ms);
    ChunkIndependence(ms, chunks);
  }

  // ---------- when chunk independence fails ----------

  predicate SameForEveryCut(s: string) {
    forall i :: 0 <= i <= |s| ==> Feed("", [s[..i], s[i..]]) == Feed("", [s])
  }

  ghost predicate SameForAllChunks(s: string) {
    forall chunks :: Concat(chunks) == s ==> Feed("", chunks) == Feed("", [s])
  }

  predicate AllReadable(ms: seq<seq<KV>>) {
    forall i :: 0 <= i < |ms| ==> Readable(ms[i])
  }

  lemma FeedOne(s: string)
    ensures Feed("", [s]) == Consumed("", s)
  {
    var (ms, rest) := Consumed("", s);
    assert [s][1..] == [] && ms + [] == ms;
  }

  lemma FeedTwo(p: string, q: string)
    ensures var (ms, rest) := Consumed("", p);
            Feed("", [p, q]) == (ms + Consumed(rest, q).0, Consumed(rest, q).1)
  {
    assert [p, q][1..] == [q];
    var (ms, rest) := Consumed("", p);
    var (ms', rest') := Consumed(rest, q);
    assert [q][1..] == [] && ms' + [] == ms';
    assert Feed(rest, [q]) == (ms', rest');
  }

  /** The wire form without its final marker. */
  function Open(pairs: seq<KV>): string {
    if pairs == [] then "" else Field(pairs[0]) + Open(pairs[1..])
  }

  lemma {:induction false} WireSplits(a: seq<KV>, b: seq<KV>)
    ensures Wire(a + b) == Open(a) + Wire(b)
  {
    if a == [] {
      assert a + b == b;
    } else {
      assert (a + b)[1..] == a[1..] + b;
      WireSplits(a[1..], b);
      AppendAssoc(Field(a[0]), Open(a[1..]), Wire(b));
    }
  }

  lemma {:induction false} ParseOpen(pairs: seq<KV>, m: Message, found: bool)
    requires Readable(pairs)
    ensures ParseFields(Open(pairs) + "\\", m, found) == (AddFields(m, found, pairs), "\\")
    decreases pairs
  {
    if pairs == [] {
      assert Open(pairs) + "\\" == "\\";
    } else {
      var rest := Open(pairs[1..]) + "\\";
      AppendAssoc(Field(pairs[0]), Open(pairs[1..]), "\\");
      ParseField(pairs[0], rest, m, found);
      ParseOpen(pairs[1..], AddField(m, found, pairs[0].key, pairs[0].value), true);
    }
  }

  lemma StartsClean(data: string)
    requires data != "" && data[0] == '\\'
    ensures Consumed("", data) == Parse(data)
  {
    assert "" + data == data;
  }

  lemma OpenContainsFinal(pairs: seq<KV>)
    requires pairs != [] && pairs[|pairs| - 1].value == "final"
    ensures Contains(Open(pairs) + "\\", FINAL) && (Open(pairs) + "\\")[0] == '\\'
  {
    OpenLast(pairs);
    var last := |pairs| - 1;
    OpenEndsInFinal(Open(pairs[..last]), pairs[last]);
    assert Open(pairs)[0] == Field(pairs[0])[0];
  }

  lemma OpenEndsInFinal(before: string, pair: KV)
    requires pair.value == "final"
    ensures Contains(before + Field(pair) + "\\", FINAL)
  {
    var pre := before + "\\" + pair.key;
    var data := before + Field(pair) + "\\";
    assert "\\" + pair.value + "\\" == FINAL;
    assert data == pre + FINAL;
    assert data[|pre|..|pre| + 7] == FINAL;
    assert OccursAt(data, FINAL, |pre|);
  }

  /** A value `final` makes what comes before the next field look like a finished message. */
  lemma OpenLooksFinished(pairs: seq<KV>)
    requires Readable(pairs) && pairs != [] && pairs[|pairs| - 1].value == "final"
    ensures Consumed("", Open(pairs) + "\\") == ([MessageOf(pairs)], "\\")
  {
    hide Parse;
    hide ParseFields;
    hide Contains;
    hide Consumed;
    var data := Open(pairs) + "\\";
    OpenContainsFinal(pairs);
    ParseOpen(pairs, map[], false);
    AddFieldsIsMessageOf(pairs);
    ParseUnfolds(data);
    NoMarkerInBackslash();
    ParseStops("\\");
    StartsClean(data);
    assert [MessageOf(pairs)] + [] == [MessageOf(pairs)];
  }

  lemma NoMarkerInBackslash()
    ensures !Contains("\\", FINAL)
  {
  }

  lemma {:induction false} OpenLast(pairs: seq<KV>)
    requires pairs != []
    ensures Open(pairs) == Open(pairs[..|pairs| - 1]) + Field(pairs[|pairs| - 1])
    decreases pairs
  {
    if |pairs| == 1 {
      assert Open(pairs[1..]) == "";
    } else {
      hide Field;
      var middle, last := pairs[..|pairs| - 1][1..], pairs[|pairs| - 1];
      OpenLast(pairs[1..]);
      assert pairs[1..][..|pairs| - 2] == middle && pairs[1..][|pairs| - 2] == last;
      AppendAssoc(Field(pairs[0]), Open(middle), Field(last));
    }
  }

  lemma ContinuesBackslash(q: string)
    ensures Consumed("\\", q) == Consumed("", "\\" + q)
  {
    assert "" + ("\\" + q) == "\\" + q;
  }

  lemma ReadableParts(pairs: seq<KV>, n: nat)
    requires Readable(pairs) && n <= |pairs|
    ensures Readable(pairs[..n]) && Readable(pairs[n..])
  {
  }

  /** Readable messages followed by anything. */
  lemma {:induction false} ParsesReadable(ms: seq<seq<KV>>, tail: string)
    requires AllReadable(ms)
    ensures Parse(Stream(ms) + tail) == (MessagesOf(ms) + Parse(tail).0, Parse(tail).1)
  {
    hide Parse;
    hide Wire;
    hide Readable;
    if ms == [] {
      assert Stream(ms) + tail == tail;
      assert MessagesOf(ms) + Parse(tail).0 == Parse(tail).0;
    } else {
      ParsesReadable(ms[1..], tail);
      ParsesOne(ms[0], Stream(ms[1..]) + tail);
      AppendAssoc(Wire(ms[0]), Stream(ms[1..]), tail);
      AppendAssoc([MessageOf(ms[0])], MessagesOf(ms[1..]), Parse(tail).0);
    }
  }

  /** In one piece a stream of readable messages is read completely. */
  lemma ReadsStream(ms: seq<seq<KV>>)
    requires AllReadable(ms)
    ensures Feed("", [Stream(ms)]) == Consumed("", Stream(ms)) == Parse(Stream(ms)) == (MessagesOf(ms), "")
  {
    hide Parse;
    hide MessagesOf;
    ParsesReadable(ms, "");
    ParseStops("");
    assert Stream(ms) + "" == Stream(ms) && MessagesOf(ms) + [] == MessagesOf(ms);
    StreamStart(ms);
    FeedOne(Stream(ms));
    assert "" + Stream(ms) == Stream(ms);
  }

  /** A value `final` makes a stream depend on where it is cut. */
  lemma FinalValueBreaks(ms: seq<seq<KV>>, k: nat, i: nat)
    requires AllReadable(ms) && k < |ms| && i < |ms[k]| && ms[k][i].value == "final"
    ensures !SameForEveryCut(Stream(ms))
  {
    hide Parse;
    hide Consumed;
    hide Feed;
    hide Wire;
    hide Open;
    hide Readable;
    hide MessageOf;
    hide MessagesOf;
    hide Stream;
    var before, pairs, after := ms[..k], ms[k], ms[k + 1..];
    var a, b := pairs[..i + 1], pairs[i + 1..];
    ReadableParts(pairs, i + 1);
    var p, q := Stream(before) + (Open(a) + "\\"), Wire(b)[1..] + Stream(after);
    SplitsInside(ms, k, i);
    assert a[|a| - 1] == pairs[i];
    OpenLooksFinished(a);
    OpenContainsFinal(a);
    StartsClean(Open(a) + "\\");
    ParsesReadable(before, Open(a) + "\\");
    StartsWithMessage(before, Open(a) + "\\");
    RestIsRead(b, after);
    ReadsStream(ms);
    FeedTwo(p, q);
    CutDiffers(Stream(ms), p, q);
  }

  lemma CutDiffers(s: string, p: string, q: string)
    requires s == p + q && |Feed("", [p, q]).0| != |Feed("", [s]).0|
    ensures !SameForEveryCut(s)
  {
    hide Feed;
    assert s[..|p|] == p && s[|p|..] == q;
  }

  /** The stream cut behind the backslash that follows a value `final`. */
  lemma SplitsInside(ms: seq<seq<KV>>, k: nat, i: nat)
    requires k < |ms| && i < |ms[k]|
    ensures var a, b := ms[k][..i + 1], ms[k][i + 1..];
            Stream(ms) == (Stream(ms[..k]) + (Open(a) + "\\")) + (Wire(b)[1..] + Stream(ms[k + 1..]))
  {
    hide Wire;
    hide Open;
    hide Stream;
    var a, b := ms[k][..i + 1], ms[k][i + 1..];
    assert ms == ms[..k] + ([ms[k]] + ms[k + 1..]) && ms[k] == a + b;
    StreamAppend(ms[..k], [ms[k]] + ms[k + 1..]);
    StreamCons(ms[k], ms[k + 1..]);
    WireSplits(a, b);
    assert Wire(b) == "\\" + Wire(b)[1..];
  }

  lemma StreamCons(pairs: seq<KV>, ms: seq<seq<KV>>)
    ensures Stream([pairs] + ms) == Wire(pairs) + Stream(ms)
  {
    assert ([pairs] + ms)[1..] == ms;
  }

  lemma StartsWithMessage(ms: seq<seq<KV>>, tail: string)
    requires tail != "" && tail[0] == '\\'
    ensures Consumed("", Stream(ms) + tail) == Parse(Stream(ms) + tail)
  {
    hide Parse;
    hide Wire;
    StreamStart(ms);
    StartsClean(Stream(ms) + tail);
  }

  /** After the cut, the fields behind the value `final` are read as a message of their own. */
  lemma RestIsRead(b: seq<KV>, after: seq<seq<KV>>)
    requires Readable(b) && AllReadable(after)
    ensures Consumed("\\", Wire(b)[1..] + Stream(after)) == (MessagesOf([b] + after), "")
  {
    hide Parse;
    hide Wire;
    hide Consumed;
    hide MessagesOf;
    ContinuesBackslash(Wire(b)[1..] + Stream(after));
    StreamCons(b, after);
    ReadsStream([b] + after);
    assert "\\" + (Wire(b)[1..] + Stream(after)) == Wire(b) + Stream(after);
  }

  /**
   A stream of readable messages is read the same however it is cut in two exactly when no value
   is `final`; and then it is read the same however it is cut at all.
   */
  lemma CutsAgreeExactly(ms: seq<seq<KV>>)
    requires AllReadable(ms)
    ensures SameForEveryCut(Stream(ms)) <==> AllClean(ms)
    ensures AllClean(ms) ==> SameForAllChunks(Stream(ms))
  {
    hide Feed;
    if AllClean(ms) {
      CleanIsIndependent(ms);
      AllChunksAreCuts(Stream(ms));
    } else {
      var k :| 0 <= k < |ms| && !Clean(ms[k]);
      var i :| 0 <= i < |ms[k]| && ms[k][i].value == "final";
      FinalValueBreaks(ms, k, i);
    }
  }

  lemma CleanIsIndependent(ms: seq<seq<KV>>)
    requires AllClean(ms)
    ensures SameForAllChunks(Stream(ms))
  {
    forall chunks | Concat(chunks) == Stream(ms)
      ensures Feed("", chunks) == Feed("", [Stream(ms)])
    {
      ChunkIndependence(ms, chunks);
      ReadsStream(ms);
    }
  }

  lemma AllChunksAreCuts(s: string)
    requires SameForAllChunks(s)
    ensures SameForEveryCut(s)
  {
    forall i | 0 <= i <= |s|
      ensures Feed("", [s[..i], s[i..]]) == Feed("", [s])
    {
      assert Concat([s[..i], s[i..]]) == s[..i] + Concat([s[i..]]) == s[..i] + (s[i..] + Concat([s[i..]][1..])) == s;
    }
  }

  // ---------- junk before the first message ----------

  lemma JunkIsDropped(junk: string)
    requires '\\' !in junk
    ensures Consumed("", junk) == ([], "")
  {
    assert "" + junk == junk;
    if junk == "" {
      ParseStops("");
    } else {
      forall i: nat
        ensures !OccursAt(junk, FINAL, i)
      {
        if i < |junk| {
          NoMarkerHere(junk, junk, i);
        }
      }
    }
  }

  lemma {:induction false} JunkIsDroppedInChunks(chunks: seq<string>)
    requires '\\' !in Concat(chunks)
    ensures Feed("", chunks) == ([], "")
  {
    if chunks != [] {
      var more := Concat(chunks[1..]);
      forall c | c in chunks[0]
        ensures c in Concat(chunks)
      {
      }
      forall c | c in more
        ensures c in Concat(chunks)
      {
      }
      JunkIsDropped(chunks[0]);
      JunkIsDroppedInChunks(chunks[1..]);
      assert Feed("", chunks[1..]).0 + [] == [];
    }
  }

  /** Behind junk the first final marker is that of the first message. */
  lemma FirstMarker(junk: string, pairs: seq<KV>, rest: string)
    requires '\\' !in junk && Clean(pairs)
    ensures |Wire(pairs)| >= 7
    ensures Index(junk + Wire(pairs) + rest, FINAL, 0) == Some(|junk| + |Wire(pairs)| - 7)
    ensures (junk + Wire(pairs) + rest)[|junk| + |Wire(pairs)|..] == rest
  {
    hide Clean;
    hide Index;
    hide Wire;
    var w := Wire(pairs);
    var s := junk + w + rest;
    WireEndsInMarker(pairs);
    var last := |w| - 7;
    InsideOccurs(junk, w, rest, last);
    forall j: nat | j < |junk| + last
      ensures !OccursAt(s, FINAL, j)
    {
      if j < |junk| {
        assert s[j] == junk[j];
        NoMarkerHere(s, s, j);
      } else {
        InsideOccurs(junk, w, rest, j - |junk|);
        NoMarkerBefore(pairs, j - |junk|);
      }
    }
    FirstIndex(s, FINAL, |junk| + last);
  }

  lemma InsideOccurs(a: string, w: string, b: string, j: nat)
    requires j + 7 <= |w|
    ensures OccursAt(a + w + b, FINAL, |a| + j) == OccursAt(w, FINAL, j)
  {
    assert (a + w + b)[|a| + j..|a| + j + 7] == w[j..j + 7];
  }

  /**
   A stream of clean messages behind bytes without a backslash is read the same however it is cut
   in two exactly when there are no such bytes or no message; and then however it is cut at all.
   */
  lemma JunkAgreesExactly(junk: string, ms: seq<seq<KV>>)
    requires '\\' !in junk && AllClean(ms)
    ensures SameForEveryCut(junk + Stream(ms)) <==> junk == "" || ms == []
    ensures junk == "" || ms == [] ==> SameForAllChunks(junk + Stream(ms))
  {
    hide Feed;
    var s := junk + Stream(ms);
    if junk == "" {
      assert s == Stream(ms);
      CleanIsIndependent(ms);
      AllChunksAreCuts(s);
    } else if ms == [] {
      assert s == junk;
      JunkIsIndependent(junk);
      AllChunksAreCuts(s);
    } else {
      JunkLosesOne(junk, ms);
      CutDiffers(s, junk, Stream(ms));
    }
  }

  lemma JunkIsIndependent(junk: string)
    requires '\\' !in junk
    ensures SameForAllChunks(junk)
  {
    assert Concat([junk]) == junk + Concat([junk][1..]) == junk;
    JunkIsDroppedInChunks([junk]);
    forall chunks | Concat(chunks) == junk
      ensures Feed("", chunks) == Feed("", [junk])
    {
      JunkIsDroppedInChunks(chunks);
    }
  }

  /** In one piece with junk the first message is lost; cut behind the junk it is not. */
  lemma JunkLosesOne(junk: string, ms: seq<seq<KV>>)
    requires '\\' !in junk && AllClean(ms) && junk != "" && ms != []
    ensures Feed("", [junk, Stream(ms)]) == (MessagesOf(ms), "")
    ensures Feed("", [junk + Stream(ms)]) == (MessagesOf(ms[1..]), "")
  {
    hide Feed;
    hide Parse;
    hide Index;
    hide Wire;
    hide MessagesOf;
    var s := junk + Stream(ms);
    JunkIsDropped(junk);
    ReadsStream(ms);
    FeedTwo(junk, Stream(ms));
    assert [] + MessagesOf(ms) == MessagesOf(ms);
    FeedOne(s);
    FirstMarker(junk, ms[0], Stream(ms[1..]));
    ReadsStream(ms[1..]);
    AppendAssoc(junk, Wire(ms[0]), Stream(ms[1..]));
    assert "" + s == s && s[0] == junk[0] && junk[0] in junk;
  }

  lemma WireEndsInMarker(pairs: seq<KV>)
    ensures |Wire(pairs)| >= 7 && OccursAt(Wire(pairs), FINAL, |Wire(pairs)| - 7)
  {
    WireSplits(pairs, []);
    assert pairs + [] == pairs;
    EndsHere(Open(pairs), FINAL);
  }

  lemma EndsHere(s: string, sub: string)
    ensures OccursAt(s + sub, sub, |s|)
  {
    assert (s + sub)[|s|..|s| + |sub|] == sub;
  }

  lemma NoMarkerBefore(pairs: seq<KV>, j: nat)
    requires Clean(pairs) && j < |Wire(pairs)| - 7
    ensures !OccursAt(Wire(pairs), FINAL, j)
  {
    hide Clean;
    hide Wire;
    var w := Wire(pairs);
    PrefixIsUnfinished(pairs, w[..|w| - 1], j);
    assert w[..|w| - 1][j..j + 7] == w[j..j + 7];
  }

  lemma FirstIndex(s: string, sub: string, r: nat)
    requires OccursAt(s, sub, r) && forall j: nat :: j < r ==> !OccursAt(s, sub, j)
    ensures Index(s, sub, 0) == Some(r)
  {
    hide Index;
  }
}
