/**
 The Query & Reporting server (internal/gamespy/qr/server.go) as a state machine.

 Each packet and each timer tick is one atomic step. Sends go to an outbox. The clock, the
 random part of a challenge and the profile names are inputs of a step. Time is in nanoseconds.
 */
module Qr {
  import opened GoLib
  import opened Ip
  import opened Backend
  import Rc4

  datatype QrSession = QrSession(
    addr: UdpAddr,
    challenge: string,
    secretkey: string,
    sentChallenge: bool,
    heartbeatData: Option<Fields>,
    console: int,
    playerid: int,
    gamename: string,
    ingamesn: string,
    keepalive: int)

  /** What does not change while the server runs; `b64` stands for standard base64. */
  datatype Config = Config(
    keys: map<string, string>,
    rewriteDolphinLocalIP: bool,
    hasProfiles: bool,
    b64: seq<byte> -> string)

  datatype State = State(sessions: map<nat, QrSession>, rooms: Rooms, outbox: seq<OutMsg>)

  /** `names` answers profile lookups, with "" for no name; `rnd` are the six random characters. */
  datatype Event =
    | Packet(data: seq<byte>, addr: UdpAddr, now: int, rnd: string, names: int -> string)
    | Tick(now: int)

  const TIMEOUT := 61_000_000_000

  // ---------- small pieces ----------

  function SessionId(data: seq<byte>): nat
    requires |data| >= 5
  {
    FromLE(data[1..5])
  }

  function TrimZeros(data: seq<byte>): seq<byte> {
    if data != [] && data[|data| - 1] == 0 then TrimZeros(data[..|data| - 1]) else data
  }

  /** Alternating keys and values; a key without a value is dropped and later keys win. */
  function Paired(parts: seq<string>, m: Fields): Fields
    decreases |parts|
  {
    if |parts| < 2 then m else Paired(parts[2..], m[parts[0] := parts[1]])
  }

  function ParseKV(data: seq<byte>): Fields {
    Paired(SplitOn(TextOf(TrimZeros(data)), '\U{0}'), map[])
  }

  method ParseNullDelimitedKV(data: seq<byte>) returns (k: Fields)
    ensures k == ParseKV(data)
  {
    var d := data;
    while |d| > 0 && d[|d| - 1] == 0
      invariant TrimZeros(d) == TrimZeros(data)
    {
      d := d[..|d| - 1];
    }
    var parts := SplitOn(TextOf(d), '\U{0}');
    k := map[];
    var i := 0;
    while i + 1 < |parts|
      invariant i <= |parts|
      invariant Paired(parts[i..], k) == Paired(parts, map[])
    {
      k := k[parts[i] := parts[i + 1]];
      assert parts[i..][2..] == parts[i + 2..];
      i := i + 2;
    }
  }

  function DetectConsole(gamename: string): int {
    if HasSuffix(gamename, "ds") || HasSuffix(gamename, "dsam") || HasSuffix(gamename, "dsi") || HasSuffix(gamename, "dsiam") then 0
    else if HasSuffix(gamename, "wii") || HasSuffix(gamename, "wiiam") || HasSuffix(gamename, "wiiware") || HasSuffix(gamename, "wiiwaream") then 1
    else 0
  }

  function HexDigit(d: nat): char
    requires d < 16
  {
    "0123456789ABCDEF"[d]
  }

  function Hex2(b: byte): string {
    [HexDigit(b / 16), HexDigit(b % 16)]
  }

  /** Six random characters, then the address the packet came from. */
  function ServerChallenge(rnd: string, addr: UdpAddr): (s: string)
    ensures s != ""
  {
    var ip := if addr.ip.V4? then Hex2(addr.ip.a) + Hex2(addr.ip.b) + Hex2(addr.ip.c) + Hex2(addr.ip.d) else "00000000";
    rnd + "00" + ip + Hex2(addr.port / 256) + Hex2(addr.port % 256)
  }

  function ChallengePacket(id: nat, challenge: string): seq<byte> {
    [0xfe, 0xfd, 0x01] + ToLE(id % TWO32) + BytesOf(challenge) + [0]
  }

  /** PrepareRC4Base64: the proof that a client has to send for a challenge. */
  function Proof(cfg: Config, secretkey: string, challenge: string): string {
    var encrypted := match Rc4.Encrypted(BytesOf(secretkey), BytesOf(challenge)) case Some(e) => e case None => [];
    cfg.b64(encrypted + [0])
  }

  // ---------- steps ----------

  /** Every packet but an availability probe creates or refreshes its session. */
  function Touched(st: State, id: nat, addr: UdpAddr, now: int): State {
    var sess := if id in st.sessions then st.sessions[id]
                else QrSession(addr, "", "", false, None, 0, 0, "", "", now);
    st.(sessions := st.sessions[id := sess.(addr := addr, keepalive := now)])
  }

  predicate Closing(k: Fields) {
    "statechanged" in k && k["statechanged"] == "2"
  }

  /** The game a closing heartbeat removes its room from. */
  function ClosedGame(sess: QrSession, k: Fields): string {
    if Get(k, "gamename") == "" then sess.gamename else k["gamename"]
  }

  /** updateServerList, for a session that exists. */
  function ListUpdated(st: State, id: nat, k: Fields): State
    requires id in st.sessions
  {
    var sess := st.sessions[id];
    if Closing(k) then
      st.(rooms := Deleted(st.rooms, ClosedGame(sess, k), id), sessions := st.sessions - {id})
    else if "gamename" !in k then st
    else
      st.(rooms := Updated(st.rooms, RecordOf(k["gamename"], id, k, sess.console)),
          sessions := st.sessions[id := sess.(gamename := k["gamename"])])
  }

  function ChallengeAnswered(cfg: Config, st: State, id: nat, data: seq<byte>, addr: UdpAddr): State
    requires id in st.sessions
  {
    if |data| < 6 then st
    else
      var sess := st.sessions[id];
      if TextOf(data[5..|data| - 1]) != Proof(cfg, sess.secretkey, sess.challenge) then
        st.(sessions := st.sessions[id := sess.(sentChallenge := false)],
            rooms := if sess.gamename != "" then Deleted(st.rooms, sess.gamename, id) else st.rooms)
      else
        var st' := st.(outbox := st.outbox + [OutMsg([0xfe, 0xfd, 0x0a] + ToLE(id % TWO32), addr)]);
        match sess.heartbeatData
        case Some(k) => ListUpdated(st', id, k)
        case None => st'
  }

  /** The session after a heartbeat has been read, before it is acted on. */
  function Noted(cfg: Config, sess: QrSession, k: Fields, names: int -> string): QrSession {
    var s1 := if "gamename" in k
              then sess.(secretkey := if k["gamename"] in cfg.keys then cfg.keys[k["gamename"]] else sess.secretkey,
                         console := DetectConsole(k["gamename"]))
              else sess;
    var pid := ParseInt64(Get(k, "dwc_pid"));
    var s2 := if s1.playerid == 0 && pid.Some? then s1.(playerid := pid.value) else s1;
    if cfg.hasProfiles && "gamename" in k && pid.Some? && names(pid.value) != ""
    then s2.(ingamesn := names(pid.value)) else s2
  }

  /** The heartbeat's fields with addresses and name filled in, given the noted session. */
  function Amended(cfg: Config, sess: QrSession, k: Fields, addr: UdpAddr): Fields {
    var k1 := if Get(k, "publicip") == "0" then k["publicip" := SignedIPString(addr.ip, sess.console)] else k;
    var k2 := if cfg.rewriteDolphinLocalIP && Get(k1, "localip0") == "10.0.1.30" && addr.ip.V4?
              then k1["localip0" := Dotted(QuadOf(addr.ip))] else k1;
    var k3 := if "publicport" in k2 && "localport" in k2 && k2["publicport"] != k2["localport"]
              then k2["publicport" := FormatInt(addr.port)] else k2;
    if cfg.hasProfiles && sess.ingamesn != "" && "ingamesn" !in k3 then k3["ingamesn" := sess.ingamesn] else k3
  }

  function HeartbeatHandled(cfg: Config, st: State, id: nat, data: seq<byte>, addr: UdpAddr, rnd: string, names: int -> string): State
    requires id in st.sessions
  {
    if |data| < 6 then st
    else
      var k := ParseKV(data[5..]);
      var sess := Noted(cfg, st.sessions[id], k, names);
      var k' := Amended(cfg, sess, k, addr);
      var st' := st.(sessions := st.sessions[id := sess]);
      if sess.sentChallenge then ListUpdated(st', id, k')
      else
        var challenge := ServerChallenge(rnd, addr);
        st'.(sessions := st'.sessions[id := sess.(challenge := challenge, sentChallenge := true, heartbeatData := Some(k'))],
             outbox := st'.outbox + [OutMsg(ChallengePacket(id, challenge), addr)])
  }

  function PacketHandled(cfg: Config, st: State, e: Event): State
    requires e.Packet?
  {
    if e.data == [] then st
    else if e.data[0] == 0x09 then
      st.(outbox := st.outbox + [OutMsg([0xfe, 0xfd, 0x09, 0x00, 0x00, 0x00, 0x00], e.addr)])
    else if |e.data| < 5 then st
    else
      var id := SessionId(e.data);
      var st' := Touched(st, id, e.addr, e.now);
      if e.data[0] == 0x01 then ChallengeAnswered(cfg, st', id, e.data, e.addr)
      else if e.data[0] == 0x03 then HeartbeatHandled(cfg, st', id, e.data, e.addr, e.rnd, e.names)
      else st'
  }

  predicate Expired(sess: QrSession, now: int) {
    now - sess.keepalive < 0 || now - sess.keepalive >= TIMEOUT
  }

  function Stale(sessions: map<nat, QrSession>, now: int): set<nat> {
    set id | id in sessions && Expired(sessions[id], now)
  }

  /** The rooms without those that the given sessions have recorded. */
  ghost function RoomsWithout(rooms: Rooms, sessions: map<nat, QrSession>, ids: set<nat>): Rooms {
    map g | g in rooms && Survivors(rooms[g], sessions, ids, g) != [] :: Survivors(rooms[g], sessions, ids, g)
  }

  predicate Dropped(rec: ServerRecord, sessions: map<nat, QrSession>, ids: set<nat>, g: string) {
    rec.sessionID in ids && rec.sessionID in sessions && sessions[rec.sessionID].gamename == g && g != ""
  }

  function Survivors(list: seq<ServerRecord>, sessions: map<nat, QrSession>, ids: set<nat>, g: string): seq<ServerRecord> {
    if list == [] then []
    else (if Dropped(list[0], sessions, ids, g) then [] else [list[0]]) + Survivors(list[1..], sessions, ids, g)
  }

  /** One keepalive tick: stale sessions go, and the rooms they recorded go with them. */
  ghost function TickHandled(st: State, now: int): State {
    var stale := Stale(st.sessions, now);
    st.(sessions := st.sessions - stale, rooms := RoomsWithout(st.rooms, st.sessions, stale))
  }

  ghost function Step(cfg: Config, st: State, e: Event): State {
    match e
    case Packet(_, _, _, _, _) => PacketHandled(cfg, st, e)
    case Tick(now) => TickHandled(st, now)
  }

  const START := State(map[], map[], [])

  ghost function StateAfter(cfg: Config, events: seq<Event>): State {
    if events == [] then START else Step(cfg, StateAfter(cfg, events[..|events| - 1]), events[|events| - 1])
  }

  // ---------- the server ----------

  lemma {:induction false} SurvivorsAll(list: seq<ServerRecord>, sessions: map<nat, QrSession>, g: string)
    ensures Survivors(list, sessions, {}, g) == list
  {
    if list != [] {
      SurvivorsAll(list[1..], sessions, g);
    }
  }

  /** Dropping one more session: its room goes from the game it recorded. */
  lemma {:induction false} SurvivorsStep(list: seq<ServerRecord>, sessions: map<nat, QrSession>, done: set<nat>, id: nat, g: string)
    requires id in sessions
    ensures Survivors(list, sessions, done + {id}, g) ==
            if sessions[id].gamename == g && g != "" then Remove(Survivors(list, sessions, done, g), id)
            else Survivors(list, sessions, done, g)
  {
    if list != [] {
      SurvivorsStep(list[1..], sessions, done, id, g);
      var rest := Survivors(list[1..], sessions, done, g);
      assert ([list[0]] + rest)[1..] == rest && [] + rest == rest;
      assert [] + Remove(rest, id) == Remove(rest, id);
    }
  }

  ghost predicate NoEmptyLists(rooms: Rooms) {
    forall g :: g in rooms ==> rooms[g] != []
  }

  lemma SameLists(a: Rooms, b: Rooms)
    requires NoEmptyLists(a) && NoEmptyLists(b)
    requires forall g :: ListOf(a, g) == ListOf(b, g)
    ensures a == b
  {
    forall g
      ensures g in a <==> g in b
      ensures g in a ==> a[g] == b[g]
    {
      assert ListOf(a, g) == ListOf(b, g);
    }
  }

  lemma WithoutNone(rooms: Rooms, sessions: map<nat, QrSession>)
    requires NoEmptyLists(rooms)
    ensures RoomsWithout(rooms, sessions, {}) == rooms
  {
    forall g
      ensures ListOf(RoomsWithout(rooms, sessions, {}), g) == ListOf(rooms, g)
    {
      SurvivorsAll(ListOf(rooms, g), sessions, g);
    }
    SameLists(RoomsWithout(rooms, sessions, {}), rooms);
  }

  lemma WithoutStep(rooms: Rooms, sessions: map<nat, QrSession>, done: set<nat>, id: nat)
    requires id in sessions && NoEmptyLists(rooms)
    ensures var before := RoomsWithout(rooms, sessions, done);
            RoomsWithout(rooms, sessions, done + {id}) ==
            if sessions[id].gamename != "" then Deleted(before, sessions[id].gamename, id) else before
  {
    hide Survivors;
    var before := RoomsWithout(rooms, sessions, done);
    var after := RoomsWithout(rooms, sessions, done + {id});
    var n := sessions[id].gamename;
    var deleted := if n != "" then Deleted(before, n, id) else before;
    forall g
      ensures ListOf(after, g) == ListOf(deleted, g)
    {
      WithoutList(rooms, sessions, done, g);
      WithoutList(rooms, sessions, done + {id}, g);
      SurvivorsStep(ListOf(rooms, g), sessions, done, id, g);
    }
    SameLists(after, deleted);
  }

  lemma WithoutList(rooms: Rooms, sessions: map<nat, QrSession>, ids: set<nat>, g: string)
    ensures ListOf(RoomsWithout(rooms, sessions, ids), g) == Survivors(ListOf(rooms, g), sessions, ids, g)
  {
  }

  class Server {
    const cfg: Config
    const backend: Registry
    var sessions: map<nat, QrSession>
    var outbox: seq<OutMsg>

    constructor (cfg: Config, backend: Registry)
      requires backend.Valid() && backend.serverList == map[]
      ensures this.cfg == cfg && this.backend == backend && View() == START
    {
      this.cfg, this.backend := cfg, backend;
      sessions, outbox := map[], [];
    }

    ghost function View(): State
      reads this, backend
    {
      State(sessions, backend.serverList, outbox)
    }

    method HandlePacket(data: seq<byte>, addr: UdpAddr, now: int, rnd: string, names: int -> string)
      requires backend.Valid()
      modifies this, backend
      ensures backend.Valid()
      ensures View() == PacketHandled(cfg, old(View()), Packet(data, addr, now, rnd, names))
    {
      hide ChallengeAnswered;
      hide HeartbeatHandled;
      if |data| == 0 {
        return;
      }
      var cmd := data[0];
      if cmd == 0x09 {
        outbox := outbox + [OutMsg([0xfe, 0xfd, 0x09, 0x00, 0x00, 0x00, 0x00], addr)];
        return;
      }
      if |data| < 5 {
        return;
      }
      var sessionID := SessionId(data);
      if sessionID !in sessions {
        sessions := sessions[sessionID := QrSession(addr, "", "", false, None, 0, 0, "", "", now)];
      }
      sessions := sessions[sessionID := sessions[sessionID].(addr := addr, keepalive := now)];
      assert View() == Touched(old(View()), sessionID, addr, now);
      if cmd == 0x01 {
        HandleChallengeResponse(sessionID, data, addr);
      } else if cmd == 0x03 {
        HandleHeartbeat(sessionID, data, addr, rnd, names);
      }
    }

    method HandleChallengeResponse(sessionID: nat, data: seq<byte>, addr: UdpAddr)
      requires backend.Valid() && sessionID in sessions
      modifies this, backend
      ensures backend.Valid()
      ensures View() == ChallengeAnswered(cfg, old(View()), sessionID, data, addr)
    {
      hide Proof;
      hide ListUpdated;
      if |data| < 6 {
        return;
      }
      var sess := sessions[sessionID];
      var clientChallenge := TextOf(data[5..|data| - 1]);
      var expected := Proof(cfg, sess.secretkey, sess.challenge);
      if clientChallenge != expected {
        sessions := sessions[sessionID := sess.(sentChallenge := false)];
        if sess.gamename != "" {
          backend.DeleteServer(sess.gamename, sessionID);
        }
        return;
      }
      outbox := outbox + [OutMsg([0xfe, 0xfd, 0x0a] + ToLE(sessionID % TWO32), addr)];
      if sess.heartbeatData.Some? {
        UpdateServerList(sessionID, sess.heartbeatData.value);
      }
    }

    method HandleHeartbeat(sessionID: nat, data: seq<byte>, addr: UdpAddr, rnd: string, names: int -> string)
      requires backend.Valid() && sessionID in sessions
      modifies this, backend
      ensures backend.Valid()
      ensures View() == HeartbeatHandled(cfg, old(View()), sessionID, data, addr, rnd, names)
    {
      hide ParseKV;
      hide ListUpdated;
      hide ServerChallenge;
      hide ChallengePacket;
      hide Noted;
      hide Amended;
      if |data| < 6 {
        return;
      }
      var k := ParseNullDelimitedKV(data[5..]);
      var sess := NoteHeartbeat(sessions[sessionID], k, names);
      k := AmendFields(sess, k, addr);
      sessions := sessions[sessionID := sess];
      if sess.sentChallenge {
        UpdateServerList(sessionID, k);
        return;
      }
      var serverChallenge := ServerChallenge(rnd, addr);
      sessions := sessions[sessionID := sess.(challenge := serverChallenge, sentChallenge := true, heartbeatData := Some(k))];
      outbox := outbox + [OutMsg(ChallengePacket(sessionID, serverChallenge), addr)];
    }

    /** The part of handleHeartbeat that updates the session's fields. */
    method NoteHeartbeat(old_: QrSession, k: Fields, names: int -> string) returns (sess: QrSession)
      ensures sess == Noted(cfg, old_, k, names)
    {
      sess := old_;
      if "gamename" in k {
        var gamename := k["gamename"];
        if gamename in cfg.keys {
          sess := sess.(secretkey := cfg.keys[gamename]);
        }
        sess := sess.(console := DetectConsole(gamename));
      }
      if sess.playerid == 0 && "dwc_pid" in k {
        var pid := ParseInt64(k["dwc_pid"]);
        if pid.Some? {
          sess := sess.(playerid := pid.value);
        }
      }
      if cfg.hasProfiles && "gamename" in k && "dwc_pid" in k {
        var pid := ParseInt64(k["dwc_pid"]);
        if pid.Some? && names(pid.value) != "" {
          sess := sess.(ingamesn := names(pid.value));
        }
      }
    }

    /** The part of handleHeartbeat that fills in addresses and the player's name. */
    method AmendFields(sess: QrSession, fields: Fields, addr: UdpAddr) returns (k: Fields)
      ensures k == Amended(cfg, sess, fields, addr)
    {
      k := fields;
      if "publicip" in k && k["publicip"] == "0" {
        k := k["publicip" := SignedIPString(addr.ip, sess.console)];
      }
      if cfg.rewriteDolphinLocalIP && "localip0" in k && k["localip0"] == "10.0.1.30" && addr.ip.V4? {
        k := k["localip0" := Dotted(QuadOf(addr.ip))];
      }
      if "publicport" in k && "localport" in k && k["publicport"] != k["localport"] {
        k := k["publicport" := FormatInt(addr.port)];
      }
      if cfg.hasProfiles && sess.ingamesn != "" && "ingamesn" !in k {
        k := k["ingamesn" := sess.ingamesn];
      }
    }

    method UpdateServerList(sessionID: nat, k: Fields)
      requires backend.Valid() && sessionID in sessions
      modifies this, backend
      ensures backend.Valid()
      ensures View() == ListUpdated(old(View()), sessionID, k)
    {
      var sess := sessions[sessionID];
      if "statechanged" in k && k["statechanged"] == "2" {
        var gamename := Get(k, "gamename");
        if gamename == "" {
          gamename := sess.gamename;
        }
        backend.DeleteServer(gamename, sessionID);
        sessions := sessions - {sessionID};
        return;
      }
      if "gamename" !in k {
        return;
      }
      backend.UpdateServerList(k["gamename"], sessionID, k, sess.console);
      sessions := sessions[sessionID := sess.(gamename := k["gamename"])];
    }

    /** The timer tick; the sessions are ranged over in any order. */
    method KeepaliveCheck(now: int)
      requires backend.Valid()
      modifies this, backend
      ensures backend.Valid()
      ensures View() == TickHandled(old(View()), now)
    {
      ghost var rooms := backend.serverList;
      assert NoEmptyLists(rooms);
      WithoutNone(rooms, sessions);
      hide TablesOk;
      hide RoomsWithout;
      hide NoEmptyLists;
      var todo := sessions.Keys;
      var pruned := {};
      while todo != {}
        invariant backend.Valid() && todo <= sessions.Keys
        invariant sessions == old(sessions) && outbox == old(outbox)
        invariant pruned == Stale(sessions, now) - todo
        invariant backend.serverList == RoomsWithout(rooms, sessions, pruned)
        decreases |todo|
      {
        var id :| id in todo;
        todo := todo - {id};
        var sess := sessions[id];
        if Expired(sess, now) {
          WithoutStep(rooms, sessions, pruned, id);
          pruned := pruned + {id};
          if sess.gamename != "" {
            backend.DeleteServer(sess.gamename, id);
          }
        }
      }
      sessions := sessions - pruned;
    }
  }
}
