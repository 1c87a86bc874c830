/**
 IPv4 addresses in their textual and binary forms (internal/gamespy/ip.go, binwire.go).
 */
module Ip {
  import opened GoLib

  /** An address: IPv4 (mapped or not), or any other with its textual form. */
  datatype Addr = V4(a: byte, b: byte, c: byte, d: byte) | Other(text: string)

  type Quad = q: seq<byte> | |q| == 4 witness [0, 0, 0, 0]

  type Port = p: nat | p < 0x1_0000

  datatype UdpAddr = UdpAddr(ip: Addr, port: Port)
  datatype OutMsg = OutMsg(data: seq<byte>, addr: UdpAddr)

  function QuadOf(ip: Addr): Quad
    requires ip.V4?
  {
    [ip.a, ip.b, ip.c, ip.d]
  }

  // ---------- 32-bit words ----------

  const TWO32 := 0x1_0000_0000

  function FromBE(q: Quad): (v: nat)
    ensures v < TWO32
  {
    0x100_0000 * (q[0] as int) + 0x1_0000 * (q[1] as int) + 256 * (q[2] as int) + q[3] as int
  }

  function Reverse(q: Quad): Quad {
    [q[3], q[2], q[1], q[0]]
  }

  function FromLE(q: Quad): (v: nat)
    ensures v < TWO32
  {
    FromBE(Reverse(q))
  }

  /** binary.BigEndian.PutUint32. */
  function ToBE(v: nat): Quad
    requires v < TWO32
  {
    [v / 0x100_0000, v / 0x1_0000 % 256, v / 256 % 256, v % 256]
  }

  function ToLE(v: nat): Quad
    requires v < TWO32
  {
    Reverse(ToBE(v))
  }

  lemma WordBytes(a: byte, b: byte, c: byte, d: byte)
    ensures ToBE(FromBE([a, b, c, d])) == [a, b, c, d]
  {
    var v := FromBE([a, b, c, d]);
    assert v / 256 == 0x1_0000 * (a as int) + 256 * (b as int) + c as int;
    assert v / 0x1_0000 == 256 * (a as int) + b as int;
  }

  lemma WordRoundTrip(q: Quad)
    ensures ToBE(FromBE(q)) == q && ToLE(FromLE(q)) == q
  {
    assert q == [q[0], q[1], q[2], q[3]];
    WordBytes(q[0], q[1], q[2], q[3]);
    WordBytes(q[3], q[2], q[1], q[0]);
  }

  /** A word written and read again is the same, in both byte orders. */
  lemma WordReads(v: nat)
    requires v < TWO32
    ensures FromBE(ToBE(v)) == v && FromLE(ToLE(v)) == v
  {
    assert v / 256 == 256 * (v / 0x1_0000) + v / 256 % 256;
    assert v / 0x1_0000 == 256 * (v / 0x100_0000) + v / 0x1_0000 % 256;
    assert Reverse(ToLE(v)) == ToBE(v);
  }

  /** int32(v) for a 32-bit word. */
  function AsInt32(v: nat): int
    requires v < TWO32
  {
    if v < 0x8000_0000 then v else v - TWO32
  }

  /** uint32(int32(n)) for a 64-bit integer. */
  function AsUint32(n: int): (v: nat)
    ensures v < TWO32
  {
    n % TWO32
  }

  // ---------- text ----------

  /** The address as a signed decimal number: big-endian for console 1, else little-endian. */
  function SignedIPString(ip: Addr, console: int): string {
    if !ip.V4? then "0"
    else FormatInt(AsInt32(if console == 1 then FromBE(QuadOf(ip)) else FromLE(QuadOf(ip))))
  }

  function GetBytesFromIntSigned(val: int, console: int): Quad {
    if console == 1 then ToBE(AsUint32(val)) else ToLE(AsUint32(val))
  }

  /** net.IP.String for an IPv4 address. */
  function Dotted(q: Quad): string {
    FormatNat(q[0]) + "." + FormatNat(q[1]) + "." + FormatNat(q[2]) + "." + FormatNat(q[3])
  }

  predicate IsOctet(p: string) {
    p != "" && AllDigits(p) && Decimal(p) < 256 && (p[0] == '0' ==> |p| == 1)
  }

  /** net.ParseIP on the dotted decimal notation. */
  function ParseDotted(s: string): Option<Quad> {
    var p := SplitOn(s, '.');
    if |p| == 4 && IsOctet(p[0]) && IsOctet(p[1]) && IsOctet(p[2]) && IsOctet(p[3])
    then Some([Decimal(p[0]), Decimal(p[1]), Decimal(p[2]), Decimal(p[3])])
    else None
  }

  /** The addresses a stored or queried string may stand for. */
  function Ipv4Forms(s: string): seq<Quad> {
    if '.' in s then
      match ParseDotted(s)
      case Some(q) => [q]
      case None => []
    else
      match ParseInt64(s)
      case None => []
      case Some(n) => [ToLE(AsUint32(n)), ToBE(AsUint32(n))]
  }

  predicate MatchPublicIP(stored: string, candidate: string) {
    stored == candidate
    || exists i, j :: 0 <= i < |Ipv4Forms(stored)| && 0 <= j < |Ipv4Forms(candidate)|
                      && Ipv4Forms(stored)[i] == Ipv4Forms(candidate)[j]
  }

  method ParseIPv4Bytes(dotted: string) returns (out: Quad)
    ensures out == OctetsOf(dotted)
  {
    out := [0, 0, 0, 0];
    var parts := SplitOn(dotted, '.');
    if |parts| != 4 {
      return;
    }
    for i := 0 to 4
      invariant forall j :: 0 <= j < i ==> Octet(parts[j]) == Some(out[j])
    {
      var n := ParseInt64(parts[i]);
      if n == None || n.value < 0 || n.value > 255 {
        return [0, 0, 0, 0];
      }
      out := out[i := n.value];
    }
    assert out == [out[0], out[1], out[2], out[3]];
  }

  function Octet(p: string): Option<byte> {
    match ParseInt64(p)
    case Some(n) => if 0 <= n < 256 then Some(n) else None
    case None => None
  }

  /** Four numbers 0..255 separated by dots; zeros for anything else. */
  function OctetsOf(s: string): Quad {
    var p := SplitOn(s, '.');
    if |p| == 4 && Octet(p[0]).Some? && Octet(p[1]).Some? && Octet(p[2]).Some? && Octet(p[3]).Some?
    then [Octet(p[0]).value, Octet(p[1]).value, Octet(p[2]).value, Octet(p[3]).value]
    else [0, 0, 0, 0]
  }

  /** net.IP.String. */
  function AddrString(ip: Addr): string {
    if ip.V4? then Dotted(QuadOf(ip)) else ip.text
  }

  // ---------- properties ----------

  lemma SignedNumber(ip: Addr, console: int)
    requires ip.V4?
    ensures var v := if console == 1 then FromBE(QuadOf(ip)) else FromLE(QuadOf(ip));
            ParseInt64(SignedIPString(ip, console)) == Some(AsInt32(v)) && AsUint32(AsInt32(v)) == v
  {
    hide FormatInt;
    hide ParseInt64;
    hide FromBE;
    hide FromLE;
    var v := if console == 1 then FromBE(QuadOf(ip)) else FromLE(QuadOf(ip));
    ParseOfFormat(AsInt32(v));
  }

  /** The number stored: the first byte counts most for console 1, the last for the others; above 2^31 it is negative. */
  lemma StoredNumber(ip: Addr, console: int)
    requires ip.V4?
    ensures var first, last := (if console == 1 then ip.a else ip.d), (if console == 1 then ip.d else ip.a);
            var second, third := (if console == 1 then ip.b else ip.c), (if console == 1 then ip.c else ip.b);
            var n := ((first as int * 256 + second as int) * 256 + third as int) * 256 + last as int;
            ParseInt64(SignedIPString(ip, console)) == Some(if first < 128 then n else n - 4294967296)
  {
    hide ParseInt64;
    SignedNumber(ip, console);
  }

  /** What a heartbeat stores for an address is written to the room list as the original bytes. */
  lemma AddressSurvives(ip: Addr, console: int)
    requires ip.V4?
    ensures ParseInt64(SignedIPString(ip, console)).Some?
    ensures GetBytesFromIntSigned(ParseInt64(SignedIPString(ip, console)).value, console) == QuadOf(ip)
  {
    SignedNumber(ip, console);
    WordRoundTrip(QuadOf(ip));
  }

  lemma {:induction false} FormatNatIsOctet(n: nat)
    requires n < 256
    ensures IsOctet(FormatNat(n)) && Decimal(FormatNat(n)) == n && '.' !in FormatNat(n)
    ensures Octet(FormatNat(n)) == Some(n)
  {
    DecimalOfFormat(n);
    LeadingDigit(n);
    ParseOfFormat(n);
    forall c | c in FormatNat(n)
      ensures c != '.'
    {
      assert IsDigit(c);
    }
  }

  lemma {:induction false} LeadingDigit(n: nat)
    ensures FormatNat(n)[0] == '0' ==> n == 0
    ensures n < 10 ==> |FormatNat(n)| == 1
  {
    if n >= 10 {
      LeadingDigit(n / 10);
    }
  }

  lemma SplitFour(a: string, b: string, c: string, d: string)
    requires '.' !in a && '.' !in b && '.' !in c && '.' !in d
    ensures SplitOn(a + "." + b + "." + c + "." + d, '.') == [a, b, c, d]
  {
    hide SplitOn;
    SplitFirst(d, '.', "");
    SplitFirst(c, '.', d);
    SplitFirst(b, '.', c + "." + d);
    SplitFirst(a, '.', b + "." + (c + "." + d));
    Regroup(a, b, c, d);
    assert [a] + ([b] + ([c] + [d])) == [a, b, c, d];
  }

  lemma Regroup(a: string, b: string, c: string, d: string)
    ensures a + "." + b + "." + c + "." + d == a + "." + (b + "." + (c + "." + d))
  {
  }

  /** The dotted form parses back, for both parsers of it. */
  lemma DottedRoundTrip(q: Quad)
    ensures ParseDotted(Dotted(q)) == Some(q) && OctetsOf(Dotted(q)) == q
    ensures Ipv4Forms(Dotted(q)) == [q] && '.' in Dotted(q)
  {
    hide FormatNat;
    hide SplitOn;
    hide Octet;
    hide IsOctet;
    FormatNatIsOctet(q[0]);
    FormatNatIsOctet(q[1]);
    FormatNatIsOctet(q[2]);
    FormatNatIsOctet(q[3]);
    SplitFour(FormatNat(q[0]), FormatNat(q[1]), FormatNat(q[2]), FormatNat(q[3]));
    assert Dotted(q)[|FormatNat(q[0])|] == '.';
    assert q == [q[0], q[1], q[2], q[3]];
  }

  /**
   The stored number matches exactly two dotted addresses: the one it was made from, and that
   address with its bytes reversed, because the endianness is not recorded in the string.
   */
  lemma MatchesExactly(ip: Addr, console: int, q: Quad)
    requires ip.V4?
    ensures MatchPublicIP(SignedIPString(ip, console), Dotted(q)) <==> q == QuadOf(ip) || q == Reverse(QuadOf(ip))
  {
    hide SignedIPString;
    hide Dotted;
    var s := SignedIPString(ip, console);
    SignedForms(ip, console);
    DottedRoundTrip(q);
    var forms := Ipv4Forms(s);
    assert forms[0] in {QuadOf(ip), Reverse(QuadOf(ip))} && forms[1] in {QuadOf(ip), Reverse(QuadOf(ip))};
    assert Ipv4Forms(Dotted(q))[0] == q;
    assert QuadOf(ip) in forms && Reverse(QuadOf(ip)) in forms;
  }

  lemma SignedForms(ip: Addr, console: int)
    requires ip.V4?
    ensures var s := SignedIPString(ip, console);
            && '.' !in s
            && (Ipv4Forms(s) == [QuadOf(ip), Reverse(QuadOf(ip))] || Ipv4Forms(s) == [Reverse(QuadOf(ip)), QuadOf(ip)])
  {
    hide FormatInt;
    var n := AsInt32(if console == 1 then FromBE(QuadOf(ip)) else FromLE(QuadOf(ip)));
    SignedNumber(ip, console);
    WordRoundTrip(QuadOf(ip));
    FormatIntChars(n);
    forall c | c in FormatInt(n)
      ensures c != '.'
    {
    }
  }
}
