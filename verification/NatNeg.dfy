/**
 The NAT negotiation server (internal/gamespy/natneg/server.go) as a state machine.

 Each packet and each cleanup tick is one atomic step and sends go to an outbox. Time is in
 nanoseconds. A Go map is ranged over in an unspecified order; the order is an input of a step.
 */
module NatNeg {
  import opened GoLib
  import opened ByteTable
  import opened Ip
  import opened Backend

  datatype ClientSlot = ClientSlot(
    connected: bool,
    addr: UdpAddr,
    localAddr: LocalAddr,
    gameID: string,
    serverAddr: Option<Fields>)

  datatype Session = Session(clients: map<byte, ClientSlot>, lastActivity: int)

  datatype State = State(sessions: map<nat, Session>, natneg: map<nat, seq<Fields>>, outbox: seq<OutMsg>)

  /** An order in which all client indices are visited. */
  type Order = o: seq<byte> | IsPermutation(o) ghost witness IdentityOrder()

  ghost function IdentityOrder(): (o: seq<byte>)
    ensures IsPermutation(o)
  {
    DistinctIsPermutation(Identity());
    Identity()
  }

  /** `rooms` is the room registry at the time, `games` the order in which its games are visited. */
  datatype Event =
    | Packet(data: seq<byte>, addr: UdpAddr, now: int, order: Order, rooms: Rooms, games: seq<string>)
    | Tick(now: int)
    | Register(cookie: nat, server: Fields)

  const SESSION_TTL := 30 * 60 * 1_000_000_000
  const MAGIC: seq<byte> := [0xfd, 0xfc, 0x1e, 0x66, 0x6a, 0xb2]
  const INIT_ACK_TAIL: seq<byte> := [0xff, 0xff, 0x6d, 0x16, 0xb5, 0x7d, 0xea]

  // ---------- packets ----------

  predicate IsNatNeg(data: seq<byte>) {
    |data| >= 8 && data[6] == 0x03 && data[..6] == MAGIC
  }

  function SessionId(data: seq<byte>): nat
    requires |data| >= 12
  {
    FromLE(data[8..12])
  }

  predicate IsInit(data: seq<byte>) {
    IsNatNeg(data) && data[7] == 0x00 && |data| >= 22
  }

  predicate IsConnectAck(data: seq<byte>) {
    IsNatNeg(data) && data[7] == 0x06 && |data| >= 14
  }

  function CString(data: seq<byte>, off: nat): string
    decreases |data| - off
  {
    if off >= |data| || data[off] == 0 then "" else [data[off] as char] + CString(data, off + 1)
  }

  function ParseLocalAddr(data: seq<byte>, off: nat): LocalAddr {
    if |data| < off + 6 then LocalAddr([0, 0, 0, 0], 0)
    else LocalAddr(data[off..off + 4], data[off + 4] as int * 256 + data[off + 5] as int)
  }

  function InitAck(data: seq<byte>): seq<byte>
    requires IsInit(data)
  {
    (data[..14] + INIT_ACK_TAIL)[7 := 0x01]
  }

  function Ip4Of(ip: Addr): Quad {
    if ip.V4? then QuadOf(ip) else [0, 0, 0, 0]
  }

  function PortBytes(port: Port): seq<byte> {
    [port / 256, port % 256]
  }

  /** buildConnectPacket: tells its receiver where `remote` is. */
  function ConnectPacket(template: seq<byte>, remote: UdpAddr, port: Port): (p: seq<byte>)
    requires |template| >= 12
    ensures |p| == 20
  {
    (template[..12] + Ip4Of(remote.ip) + PortBytes(port) + [0x42, 0x00])[7 := 0x05]
  }

  /** The address check of an IPv4 sender reads up to byte 20, of which it only makes sure of 14. */
  predicate Answerable(data: seq<byte>, addr: UdpAddr) {
    IsNatNeg(data) && (data[7] == 0x0a && addr.ip.V4? ==> |data| < 15 || |data| >= 21)
  }

  /** The replies that echo a packet and touch no session. */
  function Reply(data: seq<byte>, addr: UdpAddr): seq<OutMsg>
    requires Answerable(data, addr)
  {
    if data[7] == 0x08 then [OutMsg(data[7 := 0x09], addr)]
    else if data[7] == 0x0a then
      if |data| < 15 || !addr.ip.V4? then []
      else [OutMsg((data[..15] + QuadOf(addr.ip) + PortBytes(addr.port) + data[21..])[7 := 0x0b], addr)]
    else if data[7] == 0x0c then [OutMsg(data[7 := 0x02], addr)]
    else if data[7] == 0x0d then
      if |data| < 21 then [] else [OutMsg(data[..21][7 := 0x0e][14 := 0], addr)]
    else []
  }

  function AnswerType(request: byte): Option<byte> {
    if request == 0x08 then Some(0x09)
    else if request == 0x0a then Some(0x0b)
    else if request == 0x0c then Some(0x02)
    else if request == 0x0d then Some(0x0e)
    else None
  }

  /** The byte positions in which the answer to a request may differ from it. */
  function Rewritten(request: byte): set<int> {
    if request == 0x0a then {7, 15, 16, 17, 18, 19, 20} else if request == 0x0d then {7, 14} else {7}
  }

  predicate SameBut(a: seq<byte>, b: seq<byte>, but: set<int>) {
    |a| <= |b| && forall j :: 0 <= j < |a| && j !in but ==> a[j] == b[j]
  }

  /**
   A request is answered once, to its sender, or not at all. An answer is a packet of the protocol
   of the type that belongs to the request, for the same session; only a report is shortened and
   only the named bytes differ. An address check is told the sender's address and port.
   */
  lemma ReplyMeaning(data: seq<byte>, addr: UdpAddr)
    requires Answerable(data, addr)
    ensures var r, request := Reply(data, addr), data[7];
            && (r == [] <==>
                  || AnswerType(request).None?
                  || (request == 0x0a && (|data| < 15 || !addr.ip.V4?))
                  || (request == 0x0d && |data| < 21))
            && (r != [] ==>
                  && |r| == 1 && r[0].addr == addr
                  && var m := r[0].data;
                     && IsNatNeg(m) && Some(m[7]) == AnswerType(request)
                     && |m| == (if request == 0x0d then 21 else |data|)
                     && SameBut(m, data, Rewritten(request))
                     && (|data| >= 12 ==> SessionId(m) == SessionId(data))
                     && (request == 0x0a ==> m[15..19] == QuadOf(addr.ip) && 256 * (m[19] as int) + m[20] as int == addr.port)
                     && (request == 0x0d ==> m[14] == 0))
  {
    var r, request := Reply(data, addr), data[7];
    if r != [] {
      var m := r[0].data;
      if request == 0x0a {
        AddressReply(data, addr);
      }
      assert m[..6] == data[..6];
      if |data| >= 12 {
        assert m[8..12] == data[8..12];
      }
    }
  }

  lemma AddressReply(data: seq<byte>, addr: UdpAddr)
    requires |data| >= 21 && addr.ip.V4?
    ensures var m := (data[..15] + QuadOf(addr.ip) + PortBytes(addr.port) + data[21..])[7 := 0x0b];
            && |m| == |data| && SameBut(m, data, Rewritten(0x0a)) && m[7] == 0x0b
            && m[15..19] == QuadOf(addr.ip) && 256 * (m[19] as int) + m[20] as int == addr.port
  {
    var q: seq<byte> := QuadOf(addr.ip);
    var m := (data[..15] + q + PortBytes(addr.port) + data[21..])[7 := 0x0b];
    assert m[15..19] == q;
    forall j | 0 <= j < |m| && j !in Rewritten(0x0a)
      ensures m[j] == data[j]
    {
    }
  }

  // ---------- finding a client's room ----------

  function FirstEntry(entries: seq<Fields>, ip: string): Option<Fields> {
    if entries == [] then None
    else if MatchPublicIP(Get(entries[0], "publicip"), ip) then Some(entries[0])
    else FirstEntry(entries[1..], ip)
  }

  /** lookupServerAddr: a NATNEG entry of the session, else a room. */
  function LookupServerAddr(rooms: Rooms, games: seq<string>, entries: seq<Fields>, slot: ClientSlot): Option<Fields> {
    var ip := AddrString(slot.addr.ip);
    var among := Among(games, slot);
    match FirstEntry(entries, ip)
    case Some(e) => Some(e)
    case None =>
      match ByLocalAddress(rooms, among, ip, slot.localAddr)
      case Some(r) => Some(AsMap(r))
      case None =>
        match ByAddress(rooms, among, ip, PortString(slot.addr.port))
        case Some(r) => Some(AsMap(r))
        case None => None
  }

  lemma EqualMatches(ip: string)
    ensures MatchPublicIP(ip, ip)
  {
  }

  lemma {:induction false} FirstEntryMeaning(entries: seq<Fields>, ip: string)
    ensures var r := FirstEntry(entries, ip);
            && (r.None? <==> forall i :: 0 <= i < |entries| ==> !MatchPublicIP(Get(entries[i], "publicip"), ip))
            && (r.Some? ==> r.value in entries && MatchPublicIP(Get(r.value, "publicip"), ip))
  {
    if entries != [] {
      FirstEntryMeaning(entries[1..], ip);
      assert entries == [entries[0]] + entries[1..];
    }
  }

  /** The games a client's room is looked for in. */
  function Among(games: seq<string>, slot: ClientSlot): seq<string> {
    if slot.gameID == "" then games else [slot.gameID]
  }

  /**
   What is found for a client stands at its public address; nothing is found only if no entry of the
   session and no room of the game at that address and port is known.
   */
  lemma LookupMeaning(rooms: Rooms, games: seq<string>, entries: seq<Fields>, slot: ClientSlot)
    ensures var ip, r := AddrString(slot.addr.ip), LookupServerAddr(rooms, games, entries, slot);
            && (r.Some? ==>
                  || (r.value in entries && MatchPublicIP(Get(r.value, "publicip"), ip))
                  || exists g, i :: g in Among(games, slot) && 0 <= i < |ListOf(rooms, g)|
                       && MatchPublicIP(ListOf(rooms, g)[i].publicIP, ip) && r.value == AsMap(ListOf(rooms, g)[i]))
            && (r.None? ==>
                  && (forall i :: 0 <= i < |entries| ==> !MatchPublicIP(Get(entries[i], "publicip"), ip))
                  && forall g, i :: g in Among(games, slot) && 0 <= i < |ListOf(rooms, g)| ==>
                       !AtAddress(ListOf(rooms, g)[i], ip, PortString(slot.addr.port)))
  {
    hide MatchPublicIP;
    hide AsMap;
    hide FirstEntry;
    hide ByAddress;
    hide ByLocalAddress;
    var ip := AddrString(slot.addr.ip);
    FirstEntryMeaning(entries, ip);
    ByLocalAddressMeaning(rooms, Among(games, slot), ip, slot.localAddr);
    ByAddressMeaning(rooms, Among(games, slot), ip, PortString(slot.addr.port));
  }

  function PublicPort(server: Option<Fields>, local: LocalAddr, addr: UdpAddr): Port {
    var p := if server.Some? then ParseInt64(Get(server.value, "publicport")) else None;
    if p.Some? && p.value > 0 then p.value % 0x1_0000
    else if local.port != 0 then local.port
    else addr.port
  }

  // ---------- steps ----------

  function EntriesOf(natneg: map<nat, seq<Fields>>, cookie: nat): seq<Fields> {
    if cookie in natneg then natneg[cookie] else []
  }

  function SessionOf(st: State, id: nat, now: int): Session {
    if id in st.sessions then st.sessions[id] else Session(map[], now)
  }

  /** The clients of a session once `index` has sent an INIT. */
  function WithInit(clients: map<byte, ClientSlot>, index: byte, data: seq<byte>, addr: UdpAddr): map<byte, ClientSlot> {
    var server := if index in clients then clients[index].serverAddr else None;
    clients[index := ClientSlot(false, addr, ParseLocalAddr(data, 15), CString(data, 0x15), server)]
  }

  predicate Waits(clients: map<byte, ClientSlot>, me: byte, other: byte) {
    other in clients && other != me && !clients[other].connected
  }

  /** The other unconnected clients, in the order they are visited. */
  function Partners(clients: map<byte, ClientSlot>, me: byte, order: seq<byte>): seq<byte> {
    if order == [] then []
    else
      var n := |order| - 1;
      Partners(clients, me, order[..n]) + (if Waits(clients, me, order[n]) then [order[n]] else [])
  }

  type Lookup = ClientSlot -> Option<Fields>

  /** Tells `to` where `about` is. */
  function Introduction(header: seq<byte>, to: ClientSlot, about: ClientSlot, lookup: Lookup): OutMsg
    requires |header| >= 12
  {
    OutMsg(ConnectPacket(header, about.addr, PublicPort(lookup(about), about.localAddr, about.addr)), to.addr)
  }

  /** For each partner two messages: one to the client about the partner, one the other way. */
  function Introductions(header: seq<byte>, clients: map<byte, ClientSlot>, me: byte, partners: seq<byte>, lookup: Lookup)
    : (msgs: seq<OutMsg>)
    requires |header| >= 12 && me in clients && forall b :: b in partners ==> b in clients
    ensures |msgs| == 2 * |partners|
  {
    if partners == [] then []
    else
      var n := |partners| - 1;
      Introductions(header, clients, me, partners[..n], lookup)
      + [Introduction(header, clients[me], clients[partners[n]], lookup),
         Introduction(header, clients[partners[n]], clients[me], lookup)]
  }

  /** The slots of introduced clients remember what the lookup found. */
  function WithServers(clients: map<byte, ClientSlot>, introduced: set<byte>, lookup: Lookup): map<byte, ClientSlot> {
    map i | i in clients :: if i in introduced then clients[i].(serverAddr := lookup(clients[i])) else clients[i]
  }

  lemma {:induction false} PartnersWait(clients: map<byte, ClientSlot>, me: byte, order: seq<byte>)
    ensures forall b :: b in Partners(clients, me, order) <==> b in order && Waits(clients, me, b)
  {
    if order != [] {
      PartnersWait(clients, me, order[..|order| - 1]);
      assert order == order[..|order| - 1] + [order[|order| - 1]];
    }
  }

  function InitHandled(st: State, data: seq<byte>, addr: UdpAddr, now: int, order: Order, lookup: Lookup): State
    requires IsInit(data)
  {
    var id, me := SessionId(data), data[13];
    var clients := WithInit(SessionOf(st, id, now).clients, me, data, addr);
    var partners := Partners(clients, me, order);
    PartnersWait(clients, me, order);
    var introduced := if partners == [] then {} else Elements(partners) + {me};
    State(st.sessions[id := Session(WithServers(clients, introduced, lookup), now)],
          st.natneg,
          st.outbox + [OutMsg(InitAck(data), addr)] + Introductions(data, clients, me, partners, lookup))
  }

  function AckHandled(st: State, data: seq<byte>, now: int): State
    requires IsConnectAck(data)
  {
    var id, me := SessionId(data), data[13];
    if id !in st.sessions then st
    else
      var sess := st.sessions[id];
      var clients := if me in sess.clients then sess.clients[me := sess.clients[me].(connected := true)] else sess.clients;
      st.(sessions := st.sessions[id := Session(clients, now)])
  }

  /** Not an address check that the code would fail on. */
  predicate Sane(e: Event) {
    e.Packet? && IsNatNeg(e.data) ==> Answerable(e.data, e.addr)
  }

  function LookupIn(st: State, e: Event): Lookup
    requires e.Packet? && IsInit(e.data)
  {
    slot => LookupServerAddr(e.rooms, e.games, EntriesOf(st.natneg, SessionId(e.data)), slot)
  }

  function PacketHandled(st: State, e: Event): State
    requires e.Packet? && Sane(e)
  {
    if !IsNatNeg(e.data) then st
    else if e.data[7] == 0x00 then
      if IsInit(e.data) then InitHandled(st, e.data, e.addr, e.now, e.order, LookupIn(st, e)) else st
    else if e.data[7] == 0x06 then
      if IsConnectAck(e.data) then AckHandled(st, e.data, e.now) else st
    else st.(outbox := st.outbox + Reply(e.data, e.addr))
  }

  function Expired(sessions: map<nat, Session>, now: int): set<nat> {
    set id | id in sessions && now - sessions[id].lastActivity > SESSION_TTL
  }

  /** The cleanup tick: idle sessions go, and so do the registry's entries for them. */
  function TickHandled(st: State, now: int): State {
    st.(sessions := st.sessions - Expired(st.sessions, now), natneg := st.natneg - Expired(st.sessions, now))
  }

  function Registered(natneg: map<nat, seq<Fields>>, cookie: nat, server: Fields): map<nat, seq<Fields>> {
    var entries := EntriesOf(natneg, cookie);
    if KnowsEndpoint(entries, server) || |entries| >= 8 then natneg
    else natneg[cookie := entries + [server]]
  }

  function Step(st: State, e: Event): State
    requires Sane(e)
  {
    match e
    case Packet(_, _, _, _, _, _) => PacketHandled(st, e)
    case Tick(now) => TickHandled(st, now)
    case Register(cookie, server) => st.(natneg := Registered(st.natneg, cookie, server))
  }

  predicate AllSane(events: seq<Event>) {
    forall i :: 0 <= i < |events| ==> Sane(events[i])
  }

  const START := State(map[], map[], [])

  function StateAfter(events: seq<Event>): State
    requires AllSane(events)
  {
    if events == [] then START else Step(StateAfter(events[..|events| - 1]), events[|events| - 1])
  }

  // ---------- the server ----------

  class Server {
    const backend: Registry
    var sessions: map<nat, Session>
    var outbox: seq<OutMsg>

    constructor (backend: Registry)
      ensures this.backend == backend && sessions == map[] && outbox == []
    {
      this.backend := backend;
      sessions, outbox := map[], [];
    }

    ghost function View(): State
      reads this, backend
    {
      State(sessions, backend.natnegList, outbox)
    }

    method Enqueue(data: seq<byte>, addr: UdpAddr)
      modifies `outbox
      ensures outbox == old(outbox) + [OutMsg(data, addr)]
    {
      outbox := outbox + [OutMsg(data, addr)];
    }

    method HandlePacket(e: Event)
      requires e.Packet? && Sane(e) && e.rooms == backend.serverList
      modifies this
      ensures View() == PacketHandled(old(View()), e)
    {
      hide InitHandled;
      hide AckHandled;
      if !IsNatNeg(e.data) {
        return;
      }
      var recType := e.data[7];
      if recType == 0x00 {
        if IsInit(e.data) {
          HandleInit(e);
        }
      } else if recType == 0x06 {
        if IsConnectAck(e.data) {
          HandleConnectAck(e.data, e.now);
        }
      } else {
        HandleProbe(e.data, e.addr);
      }
    }

    /** The four requests that are answered without touching a session. */
    method HandleProbe(data: seq<byte>, addr: UdpAddr)
      requires Answerable(data, addr)
      modifies `outbox
      ensures outbox == old(outbox) + Reply(data, addr)
    {
      if data[7] == 0x08 {
        Enqueue(data[7 := 0x09], addr);
      } else if data[7] == 0x0a {
        if |data| < 15 || !addr.ip.V4? {
          return;
        }
        var out := data[..15] + QuadOf(addr.ip) + PortBytes(addr.port);
        if |data| > 21 {
          out := out + data[21..];
        } else {
          assert out + data[21..] == out;
        }
        Enqueue(out[7 := 0x0b], addr);
      } else if data[7] == 0x0c {
        Enqueue(data[7 := 0x02], addr);
      } else if data[7] == 0x0d {
        if |data| < 21 {
          return;
        }
        Enqueue(data[..21][7 := 0x0e][14 := 0], addr);
      }
    }

    method HandleInit(e: Event)
      requires e.Packet? && IsInit(e.data) && e.rooms == backend.serverList
      modifies this
      ensures View() == InitHandled(old(View()), e.data, e.addr, e.now, e.order, LookupIn(old(View()), e))
    {
      hide LookupServerAddr;
      var data, id, me := e.data, SessionId(e.data), e.data[13];
      ghost var lookup := LookupIn(View(), e);
      Enqueue(InitAck(data), e.addr);
      var clients := if id in sessions then sessions[id].clients else map[];
      var server := if me in clients then clients[me].serverAddr else None;
      clients := clients[me := ClientSlot(false, e.addr, ParseLocalAddr(data, 15), CString(data, 0x15), server)];
      var pairs := CollectPairs(clients, me, e.order);
      PartnersWait(clients, me, e.order);
      var servers := LookupPairs(clients, me, pairs, e);
      ghost var introduced := if pairs == [] then {} else Elements(pairs) + {me};
      assert WithServers(clients, introduced, lookup) == StoreServers(clients, servers);
      sessions := sessions[id := Session(StoreServers(clients, servers), e.now)];
      SendPairs(data, clients, me, pairs, servers, lookup);
    }

    /** The clients to pair the sender with. */
    method CollectPairs(clients: map<byte, ClientSlot>, me: byte, order: Order) returns (pairs: seq<byte>)
      ensures pairs == Partners(clients, me, order)
    {
      pairs := [];
      for i := 0 to |order|
        invariant pairs == Partners(clients, me, order[..i])
      {
        assert order[..i + 1][..i] == order[..i];
        if order[i] !in clients || order[i] == me || clients[order[i]].connected {
          continue;
        }
        pairs := pairs + [order[i]];
      }
      assert order[..|order|] == order;
    }

    /** lookupServerAddr; `games` is the order in which the registry's games are visited. */
    method FindServerAddr(slot: ClientSlot, entries: seq<Fields>, games: seq<string>) returns (found: Option<Fields>)
      ensures found == LookupServerAddr(backend.serverList, games, entries, slot)
    {
      hide MatchPublicIP;
      hide AsMap;
      hide ByAddress;
      hide ByLocalAddress;
      var ip := AddrString(slot.addr.ip);
      for i := 0 to |entries|
        invariant FirstEntry(entries, ip) == FirstEntry(entries[i..], ip)
      {
        var stored := Get(entries[i], "publicip");
        if stored == ip || MatchPublicIP(stored, ip) {
          EqualMatches(ip);
          return Some(entries[i]);
        }
      }
      var rec := backend.FindServerByLocalAddress(ip, slot.localAddr, slot.gameID, games);
      if rec == None {
        rec := backend.FindServerByAddress(ip, slot.addr.port, slot.gameID, games);
      }
      return if rec == None then None else Some(AsMap(rec.value));
    }

    /** One lookup for each client of a pair. */
    method LookupPairs(clients: map<byte, ClientSlot>, me: byte, pairs: seq<byte>, e: Event)
      returns (servers: map<byte, Option<Fields>>)
      requires e.Packet? && IsInit(e.data) && e.rooms == backend.serverList
      requires me in clients && forall b :: b in pairs ==> b in clients
      ensures servers.Keys == if pairs == [] then {} else Elements(pairs) + {me}
      ensures forall b :: b in servers ==> servers[b] == LookupIn(View(), e)(clients[b])
    {
      hide LookupServerAddr;
      servers := map[];
      var entries := backend.GetNatnegServer(SessionId(e.data));
      for i := 0 to |pairs|
        invariant servers.Keys == if i == 0 then {} else Elements(pairs[..i]) + {me}
        invariant forall b :: b in servers ==> servers[b] == LookupServerAddr(e.rooms, e.games, entries, clients[b])
      {
        assert Elements(pairs[..i + 1]) == Elements(pairs[..i]) + {pairs[i]} by {
          assert pairs[..i + 1] == pairs[..i] + [pairs[i]];
        }
        if me !in servers {
          var found := FindServerAddr(clients[me], entries, e.games);
          servers := servers[me := found];
        }
        if pairs[i] !in servers {
          var found := FindServerAddr(clients[pairs[i]], entries, e.games);
          servers := servers[pairs[i] := found];
        }
      }
      assert pairs[..|pairs|] == pairs;
    }

    function StoreServers(clients: map<byte, ClientSlot>, servers: map<byte, Option<Fields>>): map<byte, ClientSlot> {
      map i | i in clients :: if i in servers then clients[i].(serverAddr := servers[i]) else clients[i]
    }

    method SendPairs(data: seq<byte>, clients: map<byte, ClientSlot>, me: byte, pairs: seq<byte>,
                     servers: map<byte, Option<Fields>>, ghost lookup: Lookup)
      requires |data| >= 12 && me in clients && forall b :: b in pairs ==> b in clients && b in servers
      requires pairs != [] ==> me in servers
      requires forall b :: b in servers && b in clients ==> servers[b] == lookup(clients[b])
      modifies `outbox
      ensures outbox == old(outbox) + Introductions(data, clients, me, pairs, lookup)
    {
      hide ConnectPacket;
      hide PublicPort;
      for i := 0 to |pairs|
        invariant outbox == old(outbox) + Introductions(data, clients, me, pairs[..i], lookup)
      {
        assert pairs[..i + 1][..i] == pairs[..i];
        var a, b := clients[me], clients[pairs[i]];
        var portB := PublicPort(servers[pairs[i]], b.localAddr, b.addr);
        Enqueue(ConnectPacket(data, b.addr, portB), a.addr);
        var portA := PublicPort(servers[me], a.localAddr, a.addr);
        Enqueue(ConnectPacket(data, a.addr, portA), b.addr);
      }
      assert pairs[..|pairs|] == pairs;
    }

    method HandleConnectAck(data: seq<byte>, now: int)
      requires IsConnectAck(data)
      modifies `sessions
      ensures View() == AckHandled(old(View()), data, now)
    {
      var id, me := SessionId(data), data[13];
      if id !in sessions {
        return;
      }
      sessions := sessions[id := sessions[id].(lastActivity := now)];
      var clients := sessions[id].clients;
      if me !in clients {
        return;
      }
      sessions := sessions[id := sessions[id].(clients := clients[me := clients[me].(connected := true)])];
    }

    /** One tick of sessionCleanup. */
    method SessionCleanup(now: int)
      requires backend.Valid()
      modifies this, backend
      ensures backend.Valid() && View() == TickHandled(old(View()), now) && backend.serverList == old(backend.serverList)
    {
      var expired := Sweep(now);
      ghost var gone := Expired(old(sessions), now);
      ghost var done: set<nat> := {};
      while expired != {}
        invariant backend.Valid() && done + expired == gone && backend.serverList == old(backend.serverList)
        invariant backend.natnegList == old(backend.natnegList) - done
        invariant sessions == old(sessions) - gone && outbox == old(outbox)
        decreases |expired|
      {
        var id :| id in expired;
        expired := expired - {id};
        done := done + {id};
        backend.DeleteNatnegServer(id);
      }
    }

    /** Drops the sessions that were idle for too long and returns their ids. */
    method Sweep(now: int) returns (expired: set<nat>)
      modifies `sessions
      ensures expired == Expired(old(sessions), now) && sessions == old(sessions) - expired
    {
      expired := {};
      var todo := sessions.Keys;
      while todo != {}
        invariant todo <= old(sessions).Keys
        invariant expired == Expired(old(sessions), now) - todo
        invariant sessions == old(sessions) - expired
        decreases |todo|
      {
        var id :| id in todo;
        todo := todo - {id};
        if now - sessions[id].lastActivity > SESSION_TTL {
          expired := expired + {id};
          sessions := sessions - {id};
        }
      }
    }
  }
}
