/**
 HTTP/1.1 request heads and the body length they declare, after RFC 9112: lines (section 2.2),
 field lines (section 5), obsolete line folding (section 5.2), message body length (section 6.3).
 The list syntax of a field value is that of section 5.6.1 of RFC 9110.
 */
module HttpMessage {
  import opened GoLib

  /** A line of text and how it ends: with CR LF, or with a bare LF that a server may accept. */
  datatype TextLine = TextLine(content: string, bare: bool)

  function Raw(l: TextLine): string {
    l.content + (if l.bare then "\n" else "\r\n")
  }

  /** `text` is what follows the colon on the first line; `folds` are continuation lines. */
  datatype Field = Field(name: string, text: string, bare: bool, folds: seq<TextLine>)

  datatype Head = Head(start: TextLine, fields: seq<Field>, end: TextLine)

  predicate IsTchar(c: char) {
    IsDigit(c) || 'a' <= c <= 'z' || 'A' <= c <= 'Z' || c in "!#$%&'*+-.^_`|~"
  }

  predicate IsToken(s: string) {
    s != "" && forall i :: 0 <= i < |s| ==> IsTchar(s[i])
  }

  /** Optional white space. */
  predicate IsOws(c: char) {
    c == ' ' || c == '\t'
  }

  predicate AllOws(s: string) {
    forall i :: 0 <= i < |s| ==> IsOws(s[i])
  }

  /** White space, visible characters and bytes above 127. */
  predicate IsText(s: string) {
    forall i :: 0 <= i < |s| ==> IsOws(s[i]) || '!' <= s[i] <= '~' || '\U{80}' <= s[i] <= '\U{FF}'
  }

  /** A request line begins with a method, which is a token, and a space. */
  predicate IsStart(s: string) {
    IsText(s) && exists k :: 0 < k < |s| && IsToken(s[..k]) && s[k] == ' '
  }

  predicate IsFold(l: TextLine) {
    IsText(l.content) && l.content != "" && IsOws(l.content[0])
  }

  predicate ValidField(f: Field) {
    IsToken(f.name) && IsText(f.text) && forall i :: 0 <= i < |f.folds| ==> IsFold(f.folds[i])
  }

  predicate ValidHead(h: Head) {
    && IsStart(h.start.content) && h.end.content == ""
    && forall i :: 0 <= i < |h.fields| ==> ValidField(h.fields[i])
  }

  // ---------- lines ----------

  function FirstLineOf(f: Field): TextLine {
    TextLine(f.name + ":" + f.text, f.bare)
  }

  function RawLines(ls: seq<TextLine>): (r: seq<string>)
    ensures |r| == |ls|
  {
    if ls == [] then [] else [Raw(ls[0])] + RawLines(ls[1..])
  }

  function FieldLines(fields: seq<Field>): seq<TextLine> {
    if fields == [] then [] else [FirstLineOf(fields[0])] + fields[0].folds + FieldLines(fields[1..])
  }

  /** The lines of a request head, with the blank one at its end. */
  function LinesOf(h: Head): seq<string> {
    RawLines([h.start] + FieldLines(h.fields) + [h.end])
  }

  // ---------- values ----------

  function OwsLeft(s: string): string {
    if s != "" && IsOws(s[0]) then OwsLeft(s[1..]) else s
  }

  function OwsRight(s: string): string {
    if s != "" && IsOws(s[|s| - 1]) then OwsRight(s[..|s| - 1]) else s
  }

  function TrimOws(s: string): string {
    OwsRight(OwsLeft(s))
  }

  function Contents(ls: seq<TextLine>): string {
    if ls == [] then "" else ls[0].content + Contents(ls[1..])
  }

  /** The value of a field: a line folding stands for the white space the continuation begins with. */
  function ValueOf(f: Field): string {
    f.text + Contents(f.folds)
  }

  function NonEmpty(parts: seq<string>): seq<string> {
    if parts == [] then []
    else (if TrimOws(parts[0]) == "" then [] else [TrimOws(parts[0])]) + NonEmpty(parts[1..])
  }

  /** The elements of a list value. */
  function Elements(value: string): seq<string> {
    NonEmpty(SplitOn(value, ','))
  }

  predicate IsNamed(f: Field, name: string) {
    ToLower(f.name) == name
  }

  predicate HasField(fields: seq<Field>, name: string) {
    exists i :: 0 <= i < |fields| && IsNamed(fields[i], name)
  }

  /** All lengths declared, by however many Content-Length fields. */
  function Declared(fields: seq<Field>): seq<string> {
    if fields == [] then []
    else (if IsNamed(fields[0], "content-length") then Elements(ValueOf(fields[0])) else []) + Declared(fields[1..])
  }

  predicate IsNumber(s: string) {
    s != "" && AllDigits(s)
  }

  /** All are numbers, and the same one. */
  predicate AllAre(lengths: seq<string>, n: nat) {
    forall i :: 0 <= i < |lengths| ==> IsNumber(lengths[i]) && Decimal(lengths[i]) == n
  }

  /**
   The body length of a request without Transfer-Encoding: zero if no length is declared, else the
   length that is declared, if it is a number and always the same. None stands for requests that
   are in error or framed otherwise.
   */
  function BodyLength(h: Head): Option<nat> {
    if HasField(h.fields, "transfer-encoding") then None
    else if !HasField(h.fields, "content-length") then Some(0)
    else
      var lengths := Declared(h.fields);
      if lengths != [] && IsNumber(lengths[0]) && AllAre(lengths, Decimal(lengths[0])) then Some(Decimal(lengths[0])) else None
  }
}
