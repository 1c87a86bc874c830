/**
 The parts of Go's standard library that the server relies on, as functions.

 A Go string or text buffer is a Dafny `string` holding one char per byte; binary
 buffers are sequences of `byte`.
 */
module GoLib {

  datatype Option<+T> = None | Some(value: T)

  type byte = b: int | 0 <= b < 256

  /** Addition modulo 256, as `(a + b) & 0xff` on non-negative operands. */
  function Plus(a: int, b: int): byte {
    (a + b) % 256
  }

  /** Sequence append is associative; stated once so that proofs can name it. */
  lemma AppendAssoc<T>(a: seq<T>, b: seq<T>, c: seq<T>)
    ensures (a + b) + c == a + (b + c)
  {
  }

  /** The parts one after the other. */
  function Concat<T>(parts: seq<seq<T>>): seq<T> {
    if parts == [] then [] else parts[0] + Concat(parts[1..])
  }

  lemma {:induction false} ConcatAppend<T>(a: seq<seq<T>>, b: seq<seq<T>>)
    ensures Concat(a + b) == Concat(a) + Concat(b)
  {
    if a == [] {
      assert a + b == b;
    } else {
      assert (a + b)[1..] == a[1..] + b;
      ConcatAppend(a[1..], b);
    }
  }

  lemma SliceSplit<T>(s: seq<T>, a: nat, b: nat, c: nat)
    requires a <= b <= c <= |s|
    ensures s[a..c] == s[a..b] + s[b..c]
  {
  }

  // ---------- scanning ----------

  /** The end of the longest run of chars satisfying `f` that starts at `p`. */
  function SpanEnd(s: string, p: nat, f: char -> bool): (r: nat)
    requires p <= |s|
    ensures p <= r <= |s|
    ensures forall i :: p <= i < r ==> f(s[i])
    ensures r < |s| ==> !f(s[r])
    decreases |s| - p
  {
    if p < |s| && f(s[p]) then SpanEnd(s, p + 1, f) else p
  }

  /** `SpanEnd` is the only index with its properties. */
  lemma {:induction false} SpanEndUnique(s: string, p: nat, f: char -> bool, r: nat)
    requires p <= r <= |s|
    requires forall i :: p <= i < r ==> f(s[i])
    requires r < |s| ==> !f(s[r])
    ensures SpanEnd(s, p, f) == r
    decreases r - p
  {
    if p < r {
      SpanEndUnique(s, p + 1, f, r);
    }
  }

  /** The first index at or after `p` holding `c`, as bytes.IndexByte finds it; |s| if there is none. */
  function IndexFrom(s: string, p: nat, c: char): (r: nat)
    requires p <= |s|
    ensures p <= r <= |s|
    ensures c !in s[p..r]
    ensures r < |s| ==> s[r] == c
    decreases |s| - p
  {
    if p < |s| && s[p] != c then
      var r := IndexFrom(s, p + 1, c);
      assert s[p..r] == [s[p]] + s[p + 1..r];
      r
    else p
  }

  lemma {:induction false} IndexFromUnique(s: string, p: nat, c: char, r: nat)
    requires p <= r < |s| && s[r] == c
    requires forall i :: p <= i < r ==> s[i] != c
    ensures IndexFrom(s, p, c) == r
    decreases r - p
  {
    if p < r {
      IndexFromUnique(s, p + 1, c, r);
    }
  }

  lemma {:induction false} IndexFromNone(s: string, p: nat, c: char)
    requires p <= |s| && c !in s
    ensures IndexFrom(s, p, c) == |s|
    decreases |s| - p
  {
    if p < |s| {
      IndexFromNone(s, p + 1, c);
    }
  }

  /** strings.Split(s, string(c)). */
  function SplitOn(s: string, c: char): (parts: seq<string>)
    ensures parts != []
  {
    var i := IndexFrom(s, 0, c);
    if i == |s| then [s] else [s[..i]] + SplitOn(s[i + 1..], c)
  }

  lemma SplitFirst(p: string, c: char, rest: string)
    requires c !in p
    ensures SplitOn(p, c) == [p]
    ensures SplitOn(p + [c] + rest, c) == [p] + SplitOn(rest, c)
  {
    assert p[0..|p|] == p;
    IndexFromNone(p, 0, c);
    var s := p + [c] + rest;
    forall i | 0 <= i < |p|
      ensures s[i] != c
    {
      assert s[i] == p[i];
    }
    IndexFromUnique(s, 0, c, |p|);
    assert s[..|p|] == p && s[|p| + 1..] == rest;
  }

  predicate HasSuffix(s: string, suffix: string) {
    |suffix| <= |s| && s[|s| - |suffix|..] == suffix
  }

  // ---------- decimal numbers (package strconv) ----------

  predicate IsDigit(c: char) {
    '0' <= c <= '9'
  }

  function DigitVal(c: char): (d: nat)
    requires IsDigit(c)
    ensures d < 10
  {
    c as int - '0' as int
  }

  predicate AllDigits(s: string) {
    forall i :: 0 <= i < |s| ==> IsDigit(s[i])
  }

  function Decimal(s: string): nat
    requires AllDigits(s)
  {
    if s == "" then 0 else 10 * Decimal(s[..|s| - 1]) + DigitVal(s[|s| - 1])
  }

  predicate InInt64(n: int) {
    -0x8000_0000_0000_0000 <= n < 0x8000_0000_0000_0000
  }

  /** strconv.ParseInt(s, 10, 64) and strconv.Atoi: None stands for a syntax or range error. */
  function ParseInt64(s: string): (r: Option<int>)
    ensures r.Some? ==> InInt64(r.value)
  {
    if s == "" then None
    else
      var body := if s[0] == '-' || s[0] == '+' then s[1..] else s;
      if body == "" || !AllDigits(body) then None
      else
        var n := if s[0] == '-' then 0 - Decimal(body) else Decimal(body);
        if InInt64(n) then Some(n) else None
  }

  function Digit(d: nat): (c: char)
    requires d < 10
    ensures IsDigit(c) && DigitVal(c) == d
  {
    ('0' as int + d) as char
  }

  function FormatNat(n: nat): (s: string)
    ensures s != "" && AllDigits(s)
  {
    if n < 10 then [Digit(n)] else FormatNat(n / 10) + [Digit(n % 10)]
  }

  /** strconv.FormatInt(n, 10) and strconv.Itoa. */
  function FormatInt(n: int): (s: string)
    ensures s != ""
  {
    if n < 0 then "-" + FormatNat(-n) else FormatNat(n)
  }

  lemma {:induction false} DecimalOfFormat(n: nat)
    ensures Decimal(FormatNat(n)) == n
  {
    if n >= 10 {
      DecimalOfFormat(n / 10);
      assert FormatNat(n)[..|FormatNat(n)| - 1] == FormatNat(n / 10);
    } else {
      assert Decimal(FormatNat(n)[..0]) == 0;
    }
  }

  /** Formatting loses nothing: parsing a formatted 64-bit integer gives it back. */
  lemma ParseOfFormat(n: int)
    requires InInt64(n)
    ensures ParseInt64(FormatInt(n)) == Some(n)
  {
    if n < 0 {
      DecimalOfFormat(-n);
      assert FormatInt(n)[1..] == FormatNat(-n);
    } else {
      DecimalOfFormat(n);
      assert IsDigit(FormatInt(n)[0]);
    }
  }

  /** A formatted number has no char other than digits and a leading minus sign. */
  lemma FormatIntChars(n: int)
    ensures forall i :: 0 <= i < |FormatInt(n)| ==> IsDigit(FormatInt(n)[i]) || FormatInt(n)[i] == '-'
  {
  }

  /** Reading digits from the left, an unsigned 64-bit integer overflows. */
  predicate Overflows(digits: string) {
    exists k: nat :: k <= |digits| && AllDigits(digits[..k]) && Decimal(digits[..k]) >= 0x1_0000_0000_0000_0000
  }

  /**
   The number that ParseInt and Atoi return beside any error: 0 when the syntax is wrong, the
   nearest 64-bit integer when the number is out of range. Digits are read from the left, so an
   overflow counts even if a wrong character follows.
   */
  function NumberIn(s: string): (n: int)
    ensures ParseInt64(s).Some? ==> n == ParseInt64(s).value
  {
    if ParseInt64(s).Some? then ParseInt64(s).value
    else if s == "" then 0
    else
      var body := if s[0] == '-' || s[0] == '+' then s[1..] else s;
      if body == "" || !(AllDigits(body) || Overflows(body)) then 0
      else if s[0] == '-' then -0x8000_0000_0000_0000
      else 0x7fff_ffff_ffff_ffff
  }

  // ---------- strings as bytes ----------

  function TextOf(data: seq<byte>): string {
    seq(|data|, i requires 0 <= i < |data| => data[i] as char)
  }

  function BytesOf(s: string): seq<byte> {
    seq(|s|, i requires 0 <= i < |s| => s[i] as int % 256)
  }

  // ---------- text (packages strings and unicode) ----------

  /** unicode.IsSpace applied to one byte widened to a rune. */
  predicate IsSpace(c: char) {
    c == ' ' || '\t' <= c <= '\r' || c == '\U{85}' || c == '\U{A0}'
  }

  /** unicode.IsLetter applied to one byte widened to a rune. */
  predicate IsLetter(c: char) {
    'a' <= c <= 'z' || 'A' <= c <= 'Z' || c == '\U{AA}' || c == '\U{B5}' || c == '\U{BA}'
    || ('\U{C0}' <= c <= '\U{FF}' && c != '\U{D7}' && c != '\U{F7}')
  }

  function ToLowerChar(c: char): char {
    if 'A' <= c <= 'Z' then (c as int + 32) as char else c
  }

  /** strings.ToLower on the bytes that can matter when comparing with an ASCII word. */
  function ToLower(s: string): (r: string)
    ensures |r| == |s|
    ensures forall i :: 0 <= i < |s| ==> r[i] == ToLowerChar(s[i])
  {
    seq(|s|, i requires 0 <= i < |s| => ToLowerChar(s[i]))
  }

  predicate IsAsciiSpace(c: char) {
    c == ' ' || '\t' <= c <= '\r'
  }

  /** The UTF-8 encodings of the white space runes outside ASCII. */
  predicate IsWideSpace(s: string) {
    || s == "\U{C2}\U{85}" || s == "\U{C2}\U{A0}" || s == "\U{E1}\U{9A}\U{80}"
    || (|s| == 3 && s[..2] == "\U{E2}\U{80}" && ('\U{80}' <= s[2] <= '\U{8A}' || s[2] == '\U{A8}' || s[2] == '\U{A9}' || s[2] == '\U{AF}'))
    || s == "\U{E2}\U{81}\U{9F}" || s == "\U{E3}\U{80}\U{80}"
  }

  /** The length of the white space rune that `s` starts with; 0 if it starts with none. */
  function LeadingSpace(s: string): (n: nat)
    ensures n <= |s|
  {
    if |s| >= 1 && IsAsciiSpace(s[0]) then 1
    else if |s| >= 2 && IsWideSpace(s[..2]) then 2
    else if |s| >= 3 && IsWideSpace(s[..3]) then 3
    else 0
  }

  /** The length of the white space rune that `s` ends with; 0 if it ends with none. */
  function TrailingSpace(s: string): (n: nat)
    ensures n <= |s|
  {
    if |s| >= 1 && IsAsciiSpace(s[|s| - 1]) then 1
    else if |s| >= 2 && IsWideSpace(s[|s| - 2..]) then 2
    else if |s| >= 3 && IsWideSpace(s[|s| - 3..]) then 3
    else 0
  }

  function TrimLeft(s: string): string {
    if LeadingSpace(s) > 0 then TrimLeft(s[LeadingSpace(s)..]) else s
  }

  function TrimRight(s: string): string {
    if TrailingSpace(s) > 0 then TrimRight(s[..|s| - TrailingSpace(s)]) else s
  }

  /** strings.TrimSpace and bytes.TrimSpace. */
  function TrimSpace(s: string): string {
    TrimRight(TrimLeft(s))
  }

  /** The byte-wise string order of Go's `<`. */
  predicate LexLess(a: string, b: string) {
    b != "" && (a == "" || a[0] < b[0] || (a[0] == b[0] && LexLess(a[1..], b[1..])))
  }

  /** The order is total: exactly one of less, equal, greater. */
  lemma {:induction false} LexTrichotomy(a: string, b: string)
    ensures LexLess(a, b) ==> a != b && !LexLess(b, a)
    ensures a != b ==> LexLess(a, b) || LexLess(b, a)
    ensures a == b ==> !LexLess(a, b)
  {
    if a != "" && b != "" && a[0] == b[0] {
      LexTrichotomy(a[1..], b[1..]);
      assert a == [a[0]] + a[1..] && b == [b[0]] + b[1..];
    }
  }

  lemma {:induction false} LexTransitive(a: string, b: string, c: string)
    requires LexLess(a, b) && LexLess(b, c)
    ensures LexLess(a, c)
  {
    if a != "" && a[0] == b[0] == c[0] {
      LexTransitive(a[1..], b[1..], c[1..]);
    }
  }

  // ---------- bitwise operators ----------

  /** Two's complement `&` on integers of any width. */
  function BitAnd(a: int, b: int): int
    decreases if a < 0 then -a else a
  {
    if a == 0 || b == 0 then 0
    else if a == -1 then b
    else if b == -1 then a
    else 2 * BitAnd(a / 2, b / 2) + (a % 2) * (b % 2)
  }

  function Pow2(k: nat): (p: nat)
    ensures p >= 1
  {
    if k == 0 then 1 else 2 * Pow2(k - 1)
  }

  /** The k-th bit of a two's complement integer. */
  function BitOf(a: int, k: nat): (r: nat)
    ensures r < 2
    decreases k
  {
    if k == 0 then a % 2 else BitOf(a / 2, k - 1)
  }

  lemma BitAndHalves(a: int, b: int)
    ensures BitAnd(a, b) / 2 == BitAnd(a / 2, b / 2)
    ensures BitAnd(a, b) % 2 == if a % 2 == 1 && b % 2 == 1 then 1 else 0
  {
    if a != 0 && b != 0 && a != -1 && b != -1 {
      LowBitProduct(a % 2, b % 2);
    }
  }

  lemma LowBitProduct(x: int, y: int)
    requires 0 <= x < 2 && 0 <= y < 2
    ensures x * y == if x == 1 && y == 1 then 1 else 0
  {
  }

  /** `BitAnd` is the bit-by-bit conjunction. */
  lemma {:induction false} BitAndBits(a: int, b: int, k: nat)
    ensures BitOf(BitAnd(a, b), k) == if BitOf(a, k) == 1 && BitOf(b, k) == 1 then 1 else 0
    decreases k
  {
    BitAndHalves(a, b);
    if k > 0 {
      BitAndBits(a / 2, b / 2, k - 1);
    }
  }

  /** `n & (2^k - 1)` keeps the low k bits. */
  lemma {:induction false} BitAndMask(n: nat, k: nat)
    ensures BitAnd(n, Pow2(k) - 1) == n % Pow2(k)
    decreases k
  {
    if k > 0 {
      BitAndMask(n / 2, k - 1);
      MaskDoubles(n, Pow2(k - 1));
    }
  }

  lemma MaskDoubles(n: nat, p: nat)
    requires p > 0 && BitAnd(n / 2, p - 1) == (n / 2) % p
    ensures BitAnd(n, 2 * p - 1) == n % (2 * p)
  {
    HalfMod(n, p);
    if n > 0 {
      BitAndOdd(n, p);
    }
  }

  lemma BitAndOdd(n: nat, p: nat)
    requires n > 0 && p > 0
    ensures BitAnd(n, 2 * p - 1) == 2 * BitAnd(n / 2, p - 1) + n % 2
  {
    assert (2 * p - 1) / 2 == p - 1 && (2 * p - 1) % 2 == 1;
  }

  lemma HalfMod(n: nat, p: nat)
    requires p >= 1
    ensures n % (2 * p) == 2 * ((n / 2) % p) + n % 2
  {
    var q, r := (n / 2) / p, (n / 2) % p;
    assert n == 2 * (q * p + r) + n % 2;
    assert n == (2 * p) * q + (2 * r + n % 2);
    DivModUnique(n, 2 * p, q, 2 * r + n % 2);
  }

  lemma DivModUnique(n: int, d: int, q: int, r: int)
    requires d > 0 && 0 <= r < d && n == d * q + r
    ensures n % d == r && n / d == q
  {
    var k := n / d - q;
    assert d * (n / d) + n % d == n;
    assert d * k == d * (n / d) - d * q;
    assert d * k == r - n % d;
    MulAtLeast(d, k);
    MulAtLeast(d, -k);
  }

  lemma MulAtLeast(d: int, k: int)
    requires d > 0
    ensures k >= 1 ==> d * k >= d
    ensures d * -k == -(d * k)
  {
  }

  /** The bitwise exclusive or of two bytes. */
  function Xor(a: byte, b: byte): byte {
    assert Pow2(8) == 256;
    XorBits(a, b, 8)
  }

  function XorBits(a: nat, b: nat, k: nat): (r: nat)
    ensures r < Pow2(k)
  {
    if k == 0 then 0 else 2 * XorBits(a / 2, b / 2, k - 1) + (a % 2 + b % 2) % 2
  }

  lemma XorHalves(a: nat, b: nat, k: nat)
    requires k > 0
    ensures XorBits(a, b, k) / 2 == XorBits(a / 2, b / 2, k - 1)
    ensures XorBits(a, b, k) % 2 == if a % 2 == b % 2 then 0 else 1
  {
  }

  lemma {:induction false} XorBitsCancel(a: nat, b: nat, k: nat)
    requires a < Pow2(k)
    ensures XorBits(XorBits(a, b, k), b, k) == a
  {
    if k > 0 {
      var x := XorBits(a, b, k);
      XorHalves(a, b, k);
      XorHalves(x, b, k);
      XorBitsCancel(a / 2, b / 2, k - 1);
    }
  }

  /** Exclusive or with the same byte twice is the identity. */
  lemma XorCancel(a: byte, b: byte)
    ensures Xor(Xor(a, b), b) == a
  {
    assert Pow2(8) == 256;
    XorBitsCancel(a, b, 8);
  }

  /** Each of the low bits of the exclusive or is set where the operands differ. */
  lemma {:induction false} XorBitAt(a: nat, b: nat, k: nat, i: nat)
    requires i < k
    ensures BitOf(XorBits(a, b, k), i) == if BitOf(a, i) == BitOf(b, i) then 0 else 1
  {
    XorHalves(a, b, k);
    if i > 0 {
      XorBitAt(a / 2, b / 2, k - 1, i - 1);
    }
  }

  /** Exclusive or of two bytes, bit by bit. */
  lemma XorMeaning(a: byte, b: byte, i: nat)
    requires i < 8
    ensures BitOf(Xor(a, b), i) == if BitOf(a, i) == BitOf(b, i) then 0 else 1
  {
    assert Pow2(8) == 256;
    XorBitAt(a, b, 8, i);
  }

  lemma {:induction false} XorBitsCommute(a: nat, b: nat, k: nat)
    ensures XorBits(a, b, k) == XorBits(b, a, k)
  {
    if k > 0 {
      XorBitsCommute(a / 2, b / 2, k - 1);
    }
  }

  lemma XorCommutes(a: byte, b: byte)
    ensures Xor(a, b) == Xor(b, a)
  {
    XorBitsCommute(a, b, 8);
  }
}
