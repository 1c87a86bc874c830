/**
 The connection wrapper that drops repeated Host headers (internal/httpfix/host.go).

 `BufReader.src` is everything the client will still send. How many bytes one network read
 happens to deliver is a parameter of each read.
 */
module HttpFix {
  import opened GoLib

  // ---------- lines ----------

  /** bytes.SplitAfter(s, "\n"): the last piece has no newline. */
  function Lines(s: string): (ls: seq<string>)
    ensures ls != []
  {
    var nl := IndexFrom(s, 0, '\n');
    if nl == |s| then [s] else [s[..nl + 1]] + Lines(s[nl + 1..])
  }

  /** A line: some text and one newline at its end. */
  predicate IsLine(l: string) {
    l != "" && l[|l| - 1] == '\n' && '\n' !in l[..|l| - 1]
  }

  lemma FirstLine(l: string, rest: string)
    requires IsLine(l)
    ensures IndexFrom(l + rest, 0, '\n') == |l| - 1
    ensures (l + rest)[..|l|] == l && (l + rest)[|l|..] == rest
  {
    forall i | 0 <= i < |l| - 1
      ensures (l + rest)[i] != '\n'
    {
      assert (l + rest)[i] == l[..|l| - 1][i];
    }
    IndexFromUnique(l + rest, 0, '\n', |l| - 1);
  }

  lemma {:induction false} LinesOfConcat(ls: seq<string>)
    requires forall i :: 0 <= i < |ls| ==> IsLine(ls[i])
    ensures Lines(Concat(ls)) == ls + [""]
  {
    if ls != [] {
      LinesOfConcat(ls[1..]);
      FirstLine(ls[0], Concat(ls[1..]));
      assert [ls[0]] + (ls[1..] + [""]) == ls + [""];
    }
  }

  lemma {:induction false} LinesConcat(s: string)
    ensures Concat(Lines(s)) == s
  {
    var nl := IndexFrom(s, 0, '\n');
    if nl < |s| {
      LinesConcat(s[nl + 1..]);
    } else {
      assert Concat([s]) == s + Concat([s][1..]) == s;
    }
  }

  /** bytes.TrimRight(line, "\r\n"). */
  function TrimEol(l: string): string {
    if l != "" && (l[|l| - 1] == '\r' || l[|l| - 1] == '\n') then TrimEol(l[..|l| - 1]) else l
  }

  /** bytes.TrimRight(line, "\r"). */
  function TrimCr(l: string): string {
    if l != "" && l[|l| - 1] == '\r' then TrimCr(l[..|l| - 1]) else l
  }

  // ---------- Host lines ----------

  predicate HasHostPrefix(l: string) {
    |l| >= 5 && ToLower(l[..5]) == "host:"
  }

  predicate IsHost(l: string) {
    HasHostPrefix(TrimEol(l))
  }

  predicate HostAmong(ls: seq<string>) {
    exists i :: 0 <= i < |ls| && IsHost(ls[i])
  }

  /** The lines that stay: all but the Host lines after the first one. */
  function Kept(ls: seq<string>): seq<string> {
    if ls == [] then []
    else
      var init, last := ls[..|ls| - 1], ls[|ls| - 1];
      if IsHost(last) && HostAmong(init) then Kept(init) else Kept(init) + [last]
  }

  function Deduped(headerBlock: string): string {
    Concat(Kept(Lines(headerBlock)))
  }

  method DedupeHost(headerBlock: string) returns (out: string)
    ensures out == Deduped(headerBlock)
  {
    hide Kept;
    hide HostAmong;
    hide HasHostPrefix;
    hide TrimEol;
    hide Concat;
    var lines := Lines(headerBlock);
    out := "";
    var seenHost := false;
    KeptNothing();
    for i := 0 to |lines|
      invariant out == Concat(Kept(lines[..i])) && seenHost == HostAmong(lines[..i])
    {
      var line := lines[i];
      KeptStep(lines[..i], line);
      ShortIsNoHost(line);
      assert lines[..i + 1] == lines[..i] + [line];
      var trimmed := TrimEol(line);
      if |trimmed| == 0 {
        out := out + line;
        continue;
      }
      if HasHostPrefix(trimmed) {
        if seenHost {
          continue;
        }
        seenHost := true;
      }
      out := out + line;
    }
    assert lines[..|lines|] == lines;
  }

  lemma KeptNothing()
    ensures Concat(Kept([])) == "" && !HostAmong([])
  {
  }

  lemma ShortIsNoHost(l: string)
    ensures |TrimEol(l)| == 0 ==> !IsHost(l)
  {
  }

  lemma KeptStep(init: seq<string>, last: string)
    ensures Kept(init + [last]) == if IsHost(last) && HostAmong(init) then Kept(init) else Kept(init) + [last]
    ensures Concat(Kept(init) + [last]) == Concat(Kept(init)) + last
    ensures HostAmong(init + [last]) == (HostAmong(init) || IsHost(last))
  {
    assert (init + [last])[..|init|] == init;
    ConcatAppend(Kept(init), [last]);
    assert Concat([last]) == last + Concat([last][1..]) == last;
    if HostAmong(init) {
      var i :| 0 <= i < |init| && IsHost(init[i]);
      assert (init + [last])[i] == init[i];
    }
    assert (init + [last])[|init|] == last;
  }

  function Hosts(ls: seq<string>): seq<string> {
    if ls == [] then []
    else Hosts(ls[..|ls| - 1]) + (if IsHost(ls[|ls| - 1]) then [ls[|ls| - 1]] else [])
  }

  function Others(ls: seq<string>): seq<string> {
    if ls == [] then []
    else Others(ls[..|ls| - 1]) + (if IsHost(ls[|ls| - 1]) then [] else [ls[|ls| - 1]])
  }

  lemma {:induction false} HostsNonEmpty(ls: seq<string>)
    ensures Hosts(ls) != [] <==> HostAmong(ls)
  {
    if ls != [] {
      var init, last := ls[..|ls| - 1], ls[|ls| - 1];
      HostsNonEmpty(init);
      KeptStep(init, last);
      assert ls == init + [last];
    }
  }

  /** Of the Host lines exactly the first stays; the other lines all stay, in order. */
  lemma {:induction false} KeepsFirstHost(ls: seq<string>)
    ensures Hosts(Kept(ls)) == if Hosts(ls) == [] then [] else [Hosts(ls)[0]]
    ensures Others(Kept(ls)) == Others(ls)
  {
    hide Kept;
    hide Hosts;
    hide Others;
    hide IsHost;
    hide HostAmong;
    hide Concat;
    NoHosts();
    if ls != [] {
      var init, last := ls[..|ls| - 1], ls[|ls| - 1];
      KeepsFirstHost(init);
      HostsNonEmpty(init);
      KeptStep(init, last);
      assert ls == init + [last];
      HostsStep(init, last);
      HostsStep(Kept(init), last);
    }
  }

  lemma NoHosts()
    ensures Hosts([]) == [] && Others([]) == [] && Kept([]) == []
  {
  }

  lemma HostsStep(init: seq<string>, last: string)
    ensures Hosts(init + [last]) == Hosts(init) + if IsHost(last) then [last] else []
    ensures Others(init + [last]) == Others(init) + if IsHost(last) then [] else [last]
  {
    assert (init + [last])[..|init|] == init;
  }

  // ---------- Content-Length ----------

  /** The line as contentLength compares it. */
  function LengthText(l: string): string {
    TrimSpace(TrimCr(l))
  }

  predicate IsLength(l: string) {
    |LengthText(l)| >= 15 && ToLower(LengthText(l)[..15]) == "content-length:"
  }

  function LengthValue(l: string): nat
    requires IsLength(l)
  {
    match ParseInt64(TrimSpace(LengthText(l)[15..]))
    case Some(n) => if n < 0 then 0 else n
    case None => 0
  }

  /** A line without its newline, as bytes.Split leaves it. */
  function Chopped(l: string): string {
    if l != "" && l[|l| - 1] == '\n' then l[..|l| - 1] else l
  }

  /** The value of the first Content-Length line. */
  function FirstLength(ls: seq<string>): Option<nat> {
    if ls == [] then None
    else if IsLength(Chopped(ls[0])) then Some(LengthValue(Chopped(ls[0])))
    else FirstLength(ls[1..])
  }

  function LengthOf(ls: seq<string>): nat {
    match FirstLength(ls)
    case Some(n) => n
    case None => 0
  }

  function ContentLengthOf(headerBlock: string): nat {
    LengthOf(Lines(headerBlock))
  }

  method ContentLength(headerBlock: string) returns (n: nat)
    ensures n == ContentLengthOf(headerBlock)
  {
    var lines := Lines(headerBlock);
    for i := 0 to |lines|
      invariant FirstLength(lines[i..]) == FirstLength(lines)
    {
      assert lines[i..][1..] == lines[i + 1..];
      var trimmed := LengthText(Chopped(lines[i]));
      if |trimmed| < 15 {
        continue;
      }
      if ToLower(trimmed[..15]) != "content-length:" {
        continue;
      }
      var r := ParseInt64(TrimSpace(trimmed[15..]));
      if r == None || r.value < 0 {
        return 0;
      }
      return r.value;
    }
    return 0;
  }

  lemma {:induction false} TrimsArePrefixes(l: string)
    ensures TrimEol(l) <= l && TrimCr(l) <= l && TrimRight(l) <= l
    decreases |l|
  {
    if l != "" {
      TrimsArePrefixes(l[..|l| - 1]);
    }
    if TrailingSpace(l) > 0 {
      TrimsArePrefixes(l[..|l| - TrailingSpace(l)]);
    }
  }

  /** A Host line is never taken for a Content-Length line. */
  lemma HostIsNoLength(l: string)
    requires IsHost(l)
    ensures !IsLength(Chopped(l))
  {
    hide TrailingSpace;
    TrimsArePrefixes(l);
    var first := l[0];
    assert ToLower(TrimEol(l)[..5])[0] == ToLowerChar(first) == 'h';
    var c := TrimCr(Chopped(l));
    TrimsArePrefixes(Chopped(l));
    if c != "" {
      assert c[0] == first && LeadingSpace(c) == 0;
      TrimsArePrefixes(c);
      var t := LengthText(Chopped(l));
      if |t| >= 15 {
        assert ToLower(t[..15])[0] == ToLowerChar(t[0]) == 'h';
      }
    }
  }

  lemma {:induction false} FirstLengthAppend(a: seq<string>, b: seq<string>)
    ensures FirstLength(a + b) == if FirstLength(a).Some? then FirstLength(a) else FirstLength(b)
  {
    if a == [] {
      assert a + b == b;
    } else {
      assert (a + b)[1..] == a[1..] + b;
      FirstLengthAppend(a[1..], b);
    }
  }

  /** Dropping Host lines does not change which Content-Length line comes first. */
  lemma {:induction false} FirstLengthOfKept(ls: seq<string>)
    ensures FirstLength(Kept(ls)) == FirstLength(ls)
  {
    if ls != [] {
      var init, last := ls[..|ls| - 1], ls[|ls| - 1];
      assert ls == init + [last];
      FirstLengthOfKept(init);
      KeptStep(init, last);
      FirstLengthAppend(init, [last]);
      FirstLengthAppend(Kept(init), [last]);
      if IsHost(last) {
        HostIsNoLength(last);
        assert FirstLength([last]) == FirstLength([last][1..]) == None;
      }
    }
  }

  predicate AllLines(ls: seq<string>) {
    forall i :: 0 <= i < |ls| ==> IsLine(ls[i])
  }

  lemma {:induction false} KeptLines(ls: seq<string>)
    requires AllLines(ls)
    ensures AllLines(Kept(ls))
  {
    if ls != [] {
      KeptLines(ls[..|ls| - 1]);
    }
  }

  lemma EmptyIsNoHost()
    ensures !IsHost("") && FirstLength([""]) == None
  {
    assert FirstLength([""]) == FirstLength([""][1..]);
  }

  /**
   Rewriting a header block removes all Host lines but the first, and the body length computed
   from it is that of the original.
   */
  lemma RewritingKeepsLength(ls: seq<string>)
    requires AllLines(ls)
    ensures Deduped(Concat(ls)) == Concat(Kept(ls))
    ensures ContentLengthOf(Deduped(Concat(ls))) == ContentLengthOf(Concat(ls)) == LengthOf(ls)
  {
    LinesOfConcat(ls);
    KeptStep(ls, "");
    EmptyIsNoHost();
    KeptLines(ls);
    LinesOfConcat(Kept(ls));
    FirstLengthOfKept(ls);
    FirstLengthAppend(ls, [""]);
    FirstLengthAppend(Kept(ls), [""]);
    assert Concat(Kept(ls)) + "" == Concat(Kept(ls));
  }

  // ---------- header blocks in a stream ----------

  const MAX_HEADER := 65536

  predicate IsBlank(l: string) {
    l == "\r\n" || l == "\n"
  }

  /** What loadHeaders reads: lines up to a blank one, an overlong block, or the end of the stream. */
  datatype Block = Block(raw: string, rest: string, complete: bool)

  function Taken(raw: string, src: string): (b: Block)
    ensures |b.rest| <= |src|
    ensures src != "" ==> |b.rest| < |src| && b.raw != ""
    decreases |src|
  {
    var nl := IndexFrom(src, 0, '\n');
    if nl == |src| then Block(raw + src, "", false)
    else
      var line, rest := src[..nl + 1], src[nl + 1..];
      if IsBlank(line) then Block(raw + line, rest, true)
      else if |raw + line| > MAX_HEADER then Block(raw + line, rest, false)
      else Taken(raw + line, rest)
  }

  /** What the server gets to see of a stream that starts with a header block. */
  function Rewritten(src: string): string
    decreases |src|, 0
  {
    if src == "" then ""
    else
      var b := Taken("", src);
      if b.complete then Deduped(b.raw) + AfterHeader(ContentLengthOf(Deduped(b.raw)), b.rest)
      else b.raw + Rewritten(b.rest)
  }

  /** ... and of a stream that starts with `n` bytes of body. */
  function AfterHeader(n: nat, src: string): string
    decreases |src|, 1
  {
    if n >= |src| then src else src[..n] + Rewritten(src[n..])
  }

  predicate LooksLikeTLS(src: string) {
    |src| >= 3 && src[0] == '\U{16}' && src[1] == '\U{03}' && src[2] <= '\U{03}'
  }

  /** A TLS handshake is passed through untouched. */
  function Delivered(src: string): string {
    if LooksLikeTLS(src) then src else Rewritten(src)
  }

  lemma RewrittenUnfolds(src: string)
    requires src != ""
    ensures var b := Taken("", src);
            Rewritten(src) ==
            if b.complete then Deduped(b.raw) + AfterHeader(ContentLengthOf(Deduped(b.raw)), b.rest)
            else b.raw + Rewritten(b.rest)
  {
  }

  lemma NothingAfterHeader(n: nat)
    ensures AfterHeader(n, "") == ""
  {
  }

  lemma AfterHeaderZero(src: string)
    ensures AfterHeader(0, src) == Rewritten(src) && Rewritten("") == ""
  {
    if src != "" {
      assert src[..0] == "" && src[0..] == src;
    }
  }

  lemma {:induction false} TakenEndsInNewline(raw: string, src: string)
    requires Taken(raw, src).complete
    ensures var b := Taken(raw, src); b.raw[|b.raw| - 1] == '\n'
    decreases |src|
  {
    var nl := IndexFrom(src, 0, '\n');
    if !IsBlank(src[..nl + 1]) {
      TakenEndsInNewline(raw + src[..nl + 1], src[nl + 1..]);
    }
  }

  /** A complete block never becomes empty: its blank line stays. */
  lemma DedupedNotEmpty(raw: string)
    requires raw != "" && raw[|raw| - 1] == '\n'
    ensures Deduped(raw) != ""
  {
    LinesConcat(raw);
    KeepsSomething(Lines(raw));
  }

  lemma {:induction false} KeepsSomething(ls: seq<string>)
    requires Concat(ls) != ""
    ensures Concat(Kept(ls)) != ""
  {
    if ls != [] {
      var init, last := ls[..|ls| - 1], ls[|ls| - 1];
      assert ls == init + [last];
      KeptStep(init, last);
      ConcatAppend(init, [last]);
      assert Concat([last]) == last + Concat([last][1..]) == last;
      if Concat(init) != "" {
        KeepsSomething(init);
      } else if IsHost(last) && HostAmong(init) {
        var i :| 0 <= i < |init| && IsHost(init[i]);
        ConcatMember(init, i);
        EmptyIsNoHost();
      }
    }
  }

  lemma {:induction false} ConcatMember(ls: seq<string>, i: nat)
    requires i < |ls|
    ensures |Concat(ls)| >= |ls[i]|
  {
    if i > 0 {
      ConcatMember(ls[1..], i - 1);
    }
  }

  // ---------- the connection ----------

  /** The buffered reader below the wrapper. */
  class BufReader {
    var src: string

    constructor (src: string)
      ensures this.src == src
    {
      this.src := src;
    }

    method Peek(n: nat) returns (ok: bool)
      ensures ok == (|src| >= n)
    {
      return |src| >= n;
    }

    /** ReadBytes('\n'): a line, or what is left together with an error. */
    method ReadLine() returns (line: string, eof: bool)
      modifies this
      ensures var nl := IndexFrom(old(src), 0, '\n');
              if nl == |old(src)| then eof && line == old(src) && src == ""
              else !eof && line == old(src)[..nl + 1] && src == old(src)[nl + 1..]
    {
      var nl := IndexFrom(src, 0, '\n');
      if nl == |src| {
        line, src := src, "";
        return line, true;
      }
      line, src := src[..nl + 1], src[nl + 1..];
      return line, false;
    }

    /** Up to `max` bytes, of which the network has `burst` at hand; none at the end of the stream. */
    method Read(max: nat, burst: nat) returns (data: string)
      requires max > 0 && burst > 0
      modifies this
      ensures data + src == old(src) && |data| <= max
      ensures data == "" ==> old(src) == ""
    {
      var n := if max < burst then max else burst;
      n := if n < |src| then n else |src|;
      data, src := src[..n], src[n..];
    }
  }

  class Conn {
    const br: BufReader
    var checked: bool   // whether onceTLS has run
    var tls: bool
    var needHdr: bool
    var buf: string
    var off: nat
    var bodyLeft: nat

    constructor (br: BufReader)
      ensures this.br == br && Valid() && Pending() == Delivered(br.src)
    {
      this.br := br;
      checked, tls, needHdr := false, false, true;
      buf, off, bodyLeft := "", 0, 0;
    }

    ghost predicate Valid()
      reads this
    {
      && off <= |buf|
      && (!checked ==> !tls && buf == "" && bodyLeft == 0)
      && (tls ==> bodyLeft == 0)
    }

    /** All bytes that reads have yet to deliver. */
    ghost function Pending(): string
      requires Valid()
      reads this, br
    {
      if !checked then Delivered(br.src)
      else if tls then buf[off..] + br.src
      else buf[off..] + AfterHeader(bodyLeft, br.src)
    }

    method CheckTLS(burst: nat)
      requires Valid() && !checked && burst > 0
      modifies this, br
      ensures Valid() && checked && Pending() == old(Pending())
    {
      checked := true;
      var preview := br.Peek(3);
      if !preview || !LooksLikeTLS(br.src) {
        return;
      }
      tls := true;
      buf := br.Read(512, burst);
      off := 0;
      needHdr := false;
    }

    method LoadHeaders()
      requires Valid() && checked && !tls && off == |buf| && bodyLeft == 0 && br.src != ""
      modifies this, br
      ensures Valid() && checked && !tls && off == 0 && buf != ""
      ensures Pending() == Rewritten(old(br.src))
    {
      hide Rewritten;
      hide AfterHeader;
      hide Deduped;
      hide ContentLengthOf;
      ghost var src := br.src;
      var raw := "";
      while true
        invariant Valid() && checked && !tls && off == |buf| && bodyLeft == 0
        invariant Taken(raw, br.src) == Taken("", src) && (raw == "" ==> br.src == src)
        decreases |br.src|
      {
        ghost var was := br.src;
        var line, eof := br.ReadLine();
        raw := raw + line;
        if eof {
          buf, off, bodyLeft, needHdr := raw, 0, 0, true;
          assert Taken("", src) == Block(raw, "", false);
          RewrittenUnfolds(src);
          AfterHeaderZero(br.src);
          return;
        }
        if IsBlank(line) {
          assert Taken("", src) == Block(raw, br.src, true);
          break;
        }
        if |raw| > MAX_HEADER {
          buf, off, bodyLeft, needHdr := raw, 0, 0, true;
          assert Taken("", src) == Block(raw, br.src, false);
          RewrittenUnfolds(src);
          AfterHeaderZero(br.src);
          return;
        }
      }
      TakenEndsInNewline("", src);
      DedupedNotEmpty(raw);
      RewrittenUnfolds(src);
      buf := DedupeHost(raw);
      off := 0;
      bodyLeft := ContentLength(buf);
      needHdr := bodyLeft == 0;
    }

    /**
     One read into a buffer of `len` bytes. It delivers the next bytes of the rewritten
     stream, and at least one unless the stream is over.
     */
    method Read(len: nat, burst: nat) returns (data: string)
      requires Valid() && len > 0 && burst > 0
      modifies this, br
      ensures Valid() && data + Pending() == old(Pending())
      ensures |data| <= len && (data == "" ==> old(Pending()) == "")
    {
      hide Rewritten;
      hide AfterHeader;
      hide Delivered;
      if !checked {
        CheckTLS(burst);
      }
      if tls {
        if off < |buf| {
          data := CopyPending(len);
          return;
        }
        data := br.Read(len, burst);
        return;
      }
      if off >= |buf| {
        buf, off := "", 0;
        if bodyLeft > 0 {
          data := ReadBody(len, burst);
          return;
        }
        var more := br.Peek(1);
        AfterHeaderZero(br.src);
        if !more {
          return "";
        }
        LoadHeaders();
      }
      data := CopyPending(len);
    }

    method CopyPending(len: nat) returns (data: string)
      requires Valid() && checked && off < |buf| && len > 0
      modifies `off
      ensures Valid() && data + Pending() == old(Pending())
      ensures |data| <= len && data != ""
    {
      hide Rewritten;
      hide AfterHeader;
      var n := if len < |buf| - off then len else |buf| - off;
      data := buf[off..off + n];
      off := off + n;
      assert old(buf[off..]) == data + buf[off..];
    }

    method ReadBody(len: nat, burst: nat) returns (data: string)
      requires Valid() && checked && !tls && off == |buf| && bodyLeft > 0 && len > 0 && burst > 0
      modifies this, br
      ensures Valid() && data + Pending() == old(Pending())
      ensures |data| <= len && (data == "" ==> old(Pending()) == "")
    {
      hide Rewritten;
      hide AfterHeader;
      hide Delivered;
      var toRead := if len > bodyLeft then bodyLeft else len;
      ghost var n, src := bodyLeft, br.src;
      data := br.Read(toRead, burst);
      if |data| > 0 {
        bodyLeft := bodyLeft - |data|;
        if bodyLeft == 0 {
          needHdr := true;
        }
      }
      AfterHeaderSplit(n, data, br.src);
      NothingAfterHeader(n);
    }
  }

  lemma AfterHeaderSplit(n: nat, data: string, src: string)
    requires |data| <= n
    ensures AfterHeader(n, data + src) == data + AfterHeader(n - |data|, src)
  {
    hide Rewritten;
    if n < |data + src| {
      assert (data + src)[..n] == data + src[..n - |data|];
      assert (data + src)[n..] == src[n - |data|..];
    }
  }
}
