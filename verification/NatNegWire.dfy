/**
 The bytes of NAT negotiation packets, position by position, and the order in which a client's
 public port is looked for.
 */
module NatNegWire {
  import opened GoLib
  import opened Ip
  import opened Backend
  import opened NatNeg

  function U16(hi: byte, lo: byte): nat {
    256 * (hi as int) + lo as int
  }

  // ---------- INIT and its acknowledgement ----------

  /** Which packets are INITs and which acknowledge a CONNECT: by the six magic bytes, version 3, type and length. */
  lemma PacketTypes(data: seq<byte>)
    ensures var natneg := |data| >= 14 && data[0] == 253 && data[1] == 252 && data[2] == 30 && data[3] == 102
                          && data[4] == 106 && data[5] == 178 && data[6] == 3;
            && (IsInit(data) <==> natneg && data[7] == 0 && |data| >= 22)
            && (IsConnectAck(data) <==> natneg && data[7] == 6)
  {
    if |data| >= 8 {
      assert data[..6] == [data[0], data[1], data[2], data[3], data[4], data[5]];
    }
  }

  /** What the server takes from an INIT: bytes 15 to 18 are the local address, 19 and 20 its port, then the game's name. */
  lemma InitReads(data: seq<byte>, game: string)
    requires IsInit(data) && forall i :: 0 <= i < |game| ==> 0 < game[i] as int < 256
    requires 21 + |game| < |data| && data[21..21 + |game|] == BytesOf(game) && data[21 + |game|] == 0
    ensures var slot := WithInit(map[], data[13], data, UdpAddr(Other(""), 0))[data[13]];
            && slot.localAddr.ip == [data[15], data[16], data[17], data[18]]
            && slot.localAddr.port == U16(data[19], data[20])
            && slot.gameID == game && !slot.connected
  {
    CStringReads(data, 21, game);
  }

  lemma {:induction false} CStringReads(data: seq<byte>, off: nat, s: string)
    requires forall i :: 0 <= i < |s| ==> 0 < s[i] as int < 256
    requires off + |s| < |data| && data[off..off + |s|] == BytesOf(s) && data[off + |s|] == 0
    ensures CString(data, off) == s
    decreases |s|
  {
    if s != "" {
      assert data[off] == data[off..off + |s|][0] == s[0] as int;
      forall i | 0 <= i < |s| - 1
        ensures data[off + 1..off + |s|][i] == BytesOf(s[1..])[i]
      {
        assert data[off + 1 + i] == data[off..off + |s|][i + 1];
      }
      assert data[off + 1..off + |s|] == BytesOf(s[1..]);
      CStringReads(data, off + 1, s[1..]);
    }
  }

  /** The acknowledgement: the first 14 bytes of the INIT but for the type, and a fixed tail. */
  lemma InitAckSays(data: seq<byte>)
    requires IsInit(data)
    ensures var p := InitAck(data);
            && |p| == 21 && p[7] == 0x01
            && (forall j :: 0 <= j < 14 && j != 7 ==> p[j] == data[j])
            && p[14..] == [0xff, 0xff, 0x6d, 0x16, 0xb5, 0x7d, 0xea]
  {
  }

  // ---------- CONNECT ----------

  /** The text of the public port that was found, if any was. */
  function PortFound(server: Option<Fields>): Option<string> {
    if server.Some? && "publicport" in server.value then Some(server.value["publicport"]) else None
  }

  predicate IsPositive(text: Option<string>) {
    text.Some? && ParseInt64(text.value).Some? && ParseInt64(text.value).value > 0
  }

  /**
   A port tells of the sender of INIT `about`: the public port of its entry or room if that is a
   positive number; else the local port the INIT names unless that is 0; else where the INIT came from.
   */
  ghost predicate TellsPort(port: nat, about: Event, server: Option<Fields>)
    requires about.Packet? && IsInit(about.data)
  {
    var local := U16(about.data[19], about.data[20]);
    port == if IsPositive(PortFound(server)) then ParseInt64(PortFound(server).value).value % 0x1_0000
            else if local != 0 then local
            else about.addr.port
  }

  /** Packet `p` is a CONNECT for the session of `template` that tells of the sender of INIT `about`. */
  ghost predicate ConnectsTo(p: seq<byte>, template: seq<byte>, about: Event, server: Option<Fields>)
    requires about.Packet? && IsInit(about.data) && |template| >= 12
  {
    && |p| == 20 && p[..7] == [0xfd, 0xfc, 0x1e, 0x66, 0x6a, 0xb2, 0x03] && p[7] == 0x05
    && p[8..12] == template[8..12]
    && p[12..16] == (if about.addr.ip.V4? then [about.addr.ip.a, about.addr.ip.b, about.addr.ip.c, about.addr.ip.d]
                     else [0, 0, 0, 0])
    && TellsPort(U16(p[16], p[17]), about, server)
    && p[18..] == [0x42, 0x00]
  }

  lemma ConnectSays(template: seq<byte>, about: Event, server: Option<Fields>)
    requires IsInit(template) && about.Packet? && IsInit(about.data)
    ensures var port := PublicPort(server, ParseLocalAddr(about.data, 15), about.addr);
            ConnectsTo(ConnectPacket(template, about.addr, port), template, about, server)
  {
    hide ParseInt64;
    var port := PublicPort(server, ParseLocalAddr(about.data, 15), about.addr);
    ConnectBytes(template, about.addr, port);
    PortIsTold(about, server);
  }

  lemma ConnectBytes(template: seq<byte>, remote: UdpAddr, port: Port)
    requires IsInit(template)
    ensures var p := ConnectPacket(template, remote, port);
            && p[..7] == [0xfd, 0xfc, 0x1e, 0x66, 0x6a, 0xb2, 0x03] && p[7] == 0x05 && p[8..12] == template[8..12]
            && p[12..16] == (if remote.ip.V4? then [remote.ip.a, remote.ip.b, remote.ip.c, remote.ip.d] else [0, 0, 0, 0])
            && U16(p[16], p[17]) == port && p[18..] == [0x42, 0x00]
  {
    var p := ConnectPacket(template, remote, port);
    assert template[..6] == [0xfd, 0xfc, 0x1e, 0x66, 0x6a, 0xb2];
    assert p[..7] == template[..6] + [template[6]];
    assert p[8..12] == template[8..12];
    assert p[12..16] == Ip4Of(remote.ip);
  }

  lemma PortIsTold(about: Event, server: Option<Fields>)
    requires about.Packet? && IsInit(about.data)
    ensures TellsPort(PublicPort(server, ParseLocalAddr(about.data, 15), about.addr), about, server)
  {
    NoNumber();
  }

  lemma NoNumber()
    ensures ParseInt64("").None?
  {
  }

  /** The port of a registered room or entry is told as it was registered. */
  lemma RegisteredPortIsTold(port: nat, about: Event, server: Option<Fields>, registered: nat)
    requires about.Packet? && IsInit(about.data) && TellsPort(port, about, server)
    requires PortFound(server) == Some(FormatNat(registered)) && 0 < registered < 0x1_0000
    ensures port == registered
  {
    ParseOfFormat(registered);
  }

  /** So when the room of a heartbeat was found, the public port of that heartbeat is told. */
  lemma RoomPortIsTold(port: nat, about: Event, game: string, session: nat, k: Fields, console: int, registered: nat)
    requires about.Packet? && IsInit(about.data)
    requires TellsPort(port, about, Some(AsMap(RecordOf(game, session, k, console))))
    requires "publicport" in k && k["publicport"] == FormatNat(registered) && 0 < registered < 0x1_0000
    ensures port == registered
  {
    hide AsMap;
    hide TellsPort;
    FieldsComeBack(game, session, k, console, "publicport");
    RegisteredPortIsTold(port, about, Some(AsMap(RecordOf(game, session, k, console))), registered);
  }

  // ---------- where a client is looked for ----------

  ghost predicate IsFirstEntry(entries: seq<Fields>, ip: string, k: nat) {
    && k < |entries| && MatchPublicIP(Get(entries[k], "publicip"), ip)
    && forall j :: 0 <= j < k ==> !MatchPublicIP(Get(entries[j], "publicip"), ip)
  }

  lemma {:induction false} FirstEntryIs(entries: seq<Fields>, ip: string, k: nat)
    requires IsFirstEntry(entries, ip, k)
    ensures FirstEntry(entries, ip) == Some(entries[k])
  {
    hide MatchPublicIP;
    if k > 0 {
      FirstEntryIs(entries[1..], ip, k - 1);
    }
  }

  /**
   The first entry of the session at the client's address comes before every room; of the rooms,
   what the lookup by local address finds comes before what the one by public address finds.
   */
  lemma LookupOrder(rooms: Rooms, games: seq<string>, entries: seq<Fields>, slot: ClientSlot)
    ensures var ip, r := AddrString(slot.addr.ip), LookupServerAddr(rooms, games, entries, slot);
            var local := ByLocalAddress(rooms, Among(games, slot), ip, slot.localAddr);
            var public := ByAddress(rooms, Among(games, slot), ip, PortString(slot.addr.port));
            && (forall k: nat :: IsFirstEntry(entries, ip, k) ==> r == Some(entries[k]))
            && ((forall k: nat :: !IsFirstEntry(entries, ip, k)) ==>
                  r == if local.Some? then Some(AsMap(local.value)) else if public.Some? then Some(AsMap(public.value)) else None)
  {
    hide MatchPublicIP;
    hide AsMap;
    hide ByLocalAddress;
    hide ByAddress;
    hide IsFirstEntry;
    var ip := AddrString(slot.addr.ip);
    forall k: nat | IsFirstEntry(entries, ip, k)
      ensures k < |entries| && FirstEntry(entries, ip) == Some(entries[k])
    {
      InRange(entries, ip, k);
      FirstEntryIs(entries, ip, k);
    }
    NoFirstEntry(entries, ip);
  }

  lemma InRange(entries: seq<Fields>, ip: string, k: nat)
    requires IsFirstEntry(entries, ip, k)
    ensures k < |entries|
  {
  }

  lemma {:induction false} NoFirstEntry(entries: seq<Fields>, ip: string)
    ensures FirstEntry(entries, ip).Some? ==> exists k: nat :: IsFirstEntry(entries, ip, k)
  {
    hide MatchPublicIP;
    if entries != [] {
      if MatchPublicIP(Get(entries[0], "publicip"), ip) {
        assert IsFirstEntry(entries, ip, 0);
      } else if FirstEntry(entries, ip).Some? {
        NoFirstEntry(entries[1..], ip);
        var k: nat :| IsFirstEntry(entries[1..], ip, k);
        forall j | 0 <= j < k + 1
          ensures !MatchPublicIP(Get(entries[j], "publicip"), ip)
        {
          assert j > 0 ==> entries[j] == entries[1..][j - 1];
        }
        assert IsFirstEntry(entries, ip, k + 1);
      }
    }
  }

  /** With no game named, the first game in which the lookup finds anything decides. */
  lemma {:induction false} FirstGameDecides(rooms: Rooms, games: seq<string>, publicIP: string, local: LocalAddr) returns (k: nat)
    ensures k <= |games|
    ensures forall j :: 0 <= j < k ==> BestLocal(ListOf(rooms, games[j]), publicIP, local, None).None?
    ensures if k == |games| then ByLocalAddress(rooms, games, publicIP, local).None?
            else ByLocalAddress(rooms, games, publicIP, local) == BestLocal(ListOf(rooms, games[k]), publicIP, local, None)
                 && ByLocalAddress(rooms, games, publicIP, local).Some?
  {
    hide BestLocal;
    if games == [] || BestLocal(ListOf(rooms, games[0]), publicIP, local, None).Some? {
      k := 0;
    } else {
      k := FirstGameDecides(rooms, games[1..], publicIP, local);
      forall j | 0 <= j < k + 1
        ensures BestLocal(ListOf(rooms, games[j]), publicIP, local, None).None?
      {
        assert j > 0 ==> games[j] == games[1..][j - 1];
      }
      k := k + 1;
    }
  }
}
