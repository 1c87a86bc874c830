/**
 The in-memory room registry and the NATNEG registry (internal/backend/backend.go).

 `Rooms` is the registry without its index: per game an insertion-ordered list. Class
 `Registry` keeps the list and the session index side by side.
 */
module Backend {
  import opened GoLib
  import opened FilterTree
  import FilterParser
  import FilterEval
  import opened Ip

  type Fields = map<string, string>

  datatype ServerRecord = ServerRecord(
    sessionID: nat,
    console: int,
    gamename: string,
    publicIP: string,
    publicPort: string,
    localPort: string,
    localIP0: string,
    natneg: string,
    fields: Fields)

  const RESERVED: set<string> := {"publicip", "publicport", "localport", "localip0", "natneg"}

  function Get(m: Fields, key: string): string {
    if key in m then m[key] else ""
  }

  /** The record that a heartbeat's fields make. */
  function RecordOf(gameid: string, session: nat, fields: Fields, console: int): ServerRecord {
    ServerRecord(session, console, gameid,
                 Get(fields, "publicip"), Get(fields, "publicport"), Get(fields, "localport"),
                 Get(fields, "localip0"), Get(fields, "natneg"), fields - RESERVED)
  }

  function WithNonEmpty(m: Fields, key: string, value: string): Fields {
    if value != "" then m[key := value] else m
  }

  /** All fields of a record as one map. */
  function AsMap(r: ServerRecord): Fields {
    var m1 := WithNonEmpty(r.fields, "publicip", r.publicIP);
    var m2 := WithNonEmpty(m1, "publicport", r.publicPort);
    var m3 := WithNonEmpty(m2, "localport", r.localPort);
    var m4 := WithNonEmpty(m3, "localip0", r.localIP0);
    var m5 := WithNonEmpty(m4, "natneg", r.natneg);
    m5["__session__" := FormatNat(r.sessionID)]["__console__" := FormatInt(r.console)]
  }

  /** The fields a heartbeat sent come back, but for reserved ones that are empty. */
  lemma FieldsComeBack(gameid: string, session: nat, fields: Fields, console: int, key: string)
    requires key != "__session__" && key != "__console__"
    ensures var m := AsMap(RecordOf(gameid, session, fields, console));
            if key in fields && !(key in RESERVED && fields[key] == "")
            then key in m && m[key] == fields[key]
            else key !in m
  {
  }

  // ---------- the registry without its index ----------

  type Rooms = map<string, seq<ServerRecord>>

  function ListOf(rooms: Rooms, gameid: string): seq<ServerRecord> {
    if gameid in rooms then rooms[gameid] else []
  }

  /** Replaces the record of the same session where it stands, or appends. */
  function Put(list: seq<ServerRecord>, rec: ServerRecord): seq<ServerRecord> {
    if list == [] then [rec]
    else if list[0].sessionID == rec.sessionID then [rec] + list[1..]
    else [list[0]] + Put(list[1..], rec)
  }

  /** Drops the records of a session; the others keep their order. */
  function Remove(list: seq<ServerRecord>, session: nat): seq<ServerRecord> {
    if list == [] then []
    else (if list[0].sessionID == session then [] else [list[0]]) + Remove(list[1..], session)
  }

  function Updated(rooms: Rooms, rec: ServerRecord): Rooms {
    rooms[rec.gamename := Put(ListOf(rooms, rec.gamename), rec)]
  }

  function Deleted(rooms: Rooms, gameid: string, session: nat): Rooms {
    var list := Remove(ListOf(rooms, gameid), session);
    if list == [] then rooms - {gameid} else rooms[gameid := list]
  }

  ghost predicate Distinct(list: seq<ServerRecord>) {
    forall i, j :: 0 <= i < j < |list| ==> list[i].sessionID != list[j].sessionID
  }

  /** Every list is non-empty and holds one record per session, filed under its own game. */
  ghost predicate WfRooms(rooms: Rooms) {
    forall g :: g in rooms ==>
      rooms[g] != [] && Distinct(rooms[g]) && forall i :: 0 <= i < |rooms[g]| ==> rooms[g][i].gamename == g
  }

  predicate Holds(list: seq<ServerRecord>, session: nat) {
    exists i :: 0 <= i < |list| && list[i].sessionID == session
  }

  predicate HasRoom(rooms: Rooms, gameid: string, session: nat) {
    Holds(ListOf(rooms, gameid), session)
  }

  lemma {:induction false} PutAt(list: seq<ServerRecord>, rec: ServerRecord, k: nat)
    requires Distinct(list) && k < |list| && list[k].sessionID == rec.sessionID
    ensures Put(list, rec) == list[k := rec]
  {
    if k > 0 {
      PutAt(list[1..], rec, k - 1);
    }
  }

  lemma {:induction false} PutNew(list: seq<ServerRecord>, rec: ServerRecord)
    requires forall i :: 0 <= i < |list| ==> list[i].sessionID != rec.sessionID
    ensures Put(list, rec) == list + [rec]
  {
    if list != [] {
      PutNew(list[1..], rec);
    }
  }

  lemma {:induction false} PutHolds(list: seq<ServerRecord>, rec: ServerRecord) returns (i: nat)
    ensures i < |Put(list, rec)| && Put(list, rec)[i] == rec
  {
    if list == [] || list[0].sessionID == rec.sessionID {
      i := 0;
    } else {
      i := PutHolds(list[1..], rec);
      i := i + 1;
    }
  }

  lemma {:induction false} RemoveNone(list: seq<ServerRecord>, session: nat)
    requires forall i :: 0 <= i < |list| ==> list[i].sessionID != session
    ensures Remove(list, session) == list
  {
    if list != [] {
      RemoveNone(list[1..], session);
    }
  }

  lemma {:induction false} RemoveAt(list: seq<ServerRecord>, session: nat, k: nat)
    requires Distinct(list) && k < |list| && list[k].sessionID == session
    ensures Remove(list, session) == list[..k] + list[k + 1..]
  {
    if k > 0 {
      RemoveAt(list[1..], session, k - 1);
      assert list[1..][..k - 1] == list[1..k];
    } else {
      RemoveNone(list[1..], session);
    }
  }

  // ---------- lookups by address ----------

  datatype LocalAddr = LocalAddr(ip: Quad, port: Port)

  /** A port as a lookup compares it; 0 stands for any. */
  function PortString(port: Port): string {
    if port == 0 then "" else FormatNat(port)
  }

  predicate AtAddress(s: ServerRecord, ip: string, port: string) {
    MatchPublicIP(s.publicIP, ip) && (port == "" || s.publicPort == port)
  }

  function FirstByAddress(list: seq<ServerRecord>, ip: string, port: string): Option<ServerRecord> {
    if list == [] then None
    else if AtAddress(list[0], ip, port) then Some(list[0])
    else FirstByAddress(list[1..], ip, port)
  }

  /** The first room at the address, in the given games one after the other. */
  function ByAddress(rooms: Rooms, games: seq<string>, ip: string, port: string): Option<ServerRecord> {
    if games == [] then None
    else
      var r := FirstByAddress(ListOf(rooms, games[0]), ip, port);
      if r.Some? then r else ByAddress(rooms, games[1..], ip, port)
  }

  predicate LocalAt(s: ServerRecord, ip: string, x: nat) {
    var key := "localip" + FormatNat(x);
    (key in s.fields && s.fields[key] == ip) || (x == 0 && s.localIP0 == ip)
  }

  predicate HasLocalIP(s: ServerRecord, ip: string) {
    exists x: nat :: x < 10 && LocalAt(s, ip, x)
  }

  /** Among rooms at the public address: the first with the local port, else the last local match. */
  function BestLocal(list: seq<ServerRecord>, publicIP: string, local: LocalAddr, best: Option<ServerRecord>): Option<ServerRecord> {
    if list == [] then best
    else if !MatchPublicIP(list[0].publicIP, publicIP) then BestLocal(list[1..], publicIP, local, best)
    else if list[0].localPort == FormatNat(local.port) then Some(list[0])
    else
      var better := HasLocalIP(list[0], Dotted(local.ip)) || (local.port == 0 && best.None?);
      BestLocal(list[1..], publicIP, local, if better then Some(list[0]) else best)
  }

  function ByLocalAddress(rooms: Rooms, games: seq<string>, publicIP: string, local: LocalAddr): Option<ServerRecord> {
    if games == [] then None
    else
      var r := BestLocal(ListOf(rooms, games[0]), publicIP, local, None);
      if r.Some? then r else ByLocalAddress(rooms, games[1..], publicIP, local)
  }

  lemma {:induction false} FirstByAddressMeaning(list: seq<ServerRecord>, ip: string, port: string)
    ensures var r := FirstByAddress(list, ip, port);
            && (r.None? <==> forall i :: 0 <= i < |list| ==> !AtAddress(list[i], ip, port))
            && (r.Some? ==> r.value in list && AtAddress(r.value, ip, port))
  {
    if list != [] {
      FirstByAddressMeaning(list[1..], ip, port);
      assert list == [list[0]] + list[1..];
    }
  }

  /** The lookup by public address finds a room at the address exactly if there is one. */
  lemma {:induction false} ByAddressMeaning(rooms: Rooms, games: seq<string>, ip: string, port: string)
    ensures var r := ByAddress(rooms, games, ip, port);
            && (r.None? <==> forall g, i :: g in games && 0 <= i < |ListOf(rooms, g)| ==> !AtAddress(ListOf(rooms, g)[i], ip, port))
            && (r.Some? ==> exists g, i :: g in games && 0 <= i < |ListOf(rooms, g)|
                              && ListOf(rooms, g)[i] == r.value && AtAddress(r.value, ip, port))
  {
    hide AtAddress;
    hide FirstByAddress;
    if games != [] {
      FirstByAddressMeaning(ListOf(rooms, games[0]), ip, port);
      ByAddressMeaning(rooms, games[1..], ip, port);
      assert games == [games[0]] + games[1..];
    }
  }

  lemma {:induction false} BestLocalMeaning(list: seq<ServerRecord>, publicIP: string, local: LocalAddr, best: Option<ServerRecord>)
    ensures var r := BestLocal(list, publicIP, local, best);
            r == best || (r.Some? && r.value in list && MatchPublicIP(r.value.publicIP, publicIP))
  {
    hide MatchPublicIP;
    hide HasLocalIP;
    if list != [] {
      BestLocalMeaning(list[1..], publicIP, local, best);
      BestLocalMeaning(list[1..], publicIP, local, Some(list[0]));
      assert list == [list[0]] + list[1..];
    }
  }

  type Choice = ServerRecord -> bool

  ghost predicate NoneOf(list: seq<ServerRecord>, p: Choice) {
    forall j :: 0 <= j < |list| ==> !p(list[j])
  }

  ghost predicate IsFirst(list: seq<ServerRecord>, p: Choice, k: nat) {
    k < |list| && p(list[k]) && forall j :: 0 <= j < k ==> !p(list[j])
  }

  ghost predicate IsLast(list: seq<ServerRecord>, p: Choice, k: nat) {
    k < |list| && p(list[k]) && forall j :: k < j < |list| ==> !p(list[j])
  }

  function AtPublic(publicIP: string): Choice {
    (s: ServerRecord) => MatchPublicIP(s.publicIP, publicIP)
  }

  function AtLocalPort(publicIP: string, local: LocalAddr): Choice {
    (s: ServerRecord) => MatchPublicIP(s.publicIP, publicIP) && s.localPort == FormatNat(local.port)
  }

  function AtLocalIP(publicIP: string, local: LocalAddr): Choice {
    (s: ServerRecord) => MatchPublicIP(s.publicIP, publicIP) && HasLocalIP(s, Dotted(local.ip))
  }

  /**
   Of the rooms at the public address: the first with the local port; if there is none, the last
   with the local address; if there is none of those either, `best` if there was one, else, for
   a client that gives no port, the first.
   */
  ghost predicate IsBest(list: seq<ServerRecord>, publicIP: string, local: LocalAddr, best: Option<ServerRecord>, r: Option<ServerRecord>) {
    var port, ip, any := AtLocalPort(publicIP, local), AtLocalIP(publicIP, local), AtPublic(publicIP);
    && (forall k: nat :: IsFirst(list, port, k) ==> r == Some(list[k]))
    && (NoneOf(list, port) ==>
          && (forall k: nat :: IsLast(list, ip, k) ==> r == Some(list[k]))
          && (NoneOf(list, ip) ==>
                if best.Some? then r == best
                else if local.port == 0 then
                  (forall k: nat :: IsFirst(list, any, k) ==> r == Some(list[k])) && (NoneOf(list, any) ==> r == None)
                else r == None))
  }

  lemma FirstOfCons(x: ServerRecord, rest: seq<ServerRecord>, p: Choice, k: nat)
    ensures IsFirst([x] + rest, p, k) <==> if p(x) then k == 0 else k > 0 && IsFirst(rest, p, k - 1)
  {
    var list := [x] + rest;
    if k > 0 {
      if IsFirst(list, p, k) {
        assert !p(list[0]);
        forall j | 0 <= j < k - 1
          ensures !p(rest[j])
        {
          assert !p(list[j + 1]);
        }
      }
      if !p(x) && IsFirst(rest, p, k - 1) {
        assert list[k] == rest[k - 1];
        forall j | 0 <= j < k
          ensures !p(list[j])
        {
          assert j > 0 ==> list[j] == rest[j - 1];
        }
      }
    }
  }

  lemma LastOfCons(x: ServerRecord, rest: seq<ServerRecord>, p: Choice, k: nat)
    ensures IsLast([x] + rest, p, k) <==> if k == 0 then p(x) && NoneOf(rest, p) else IsLast(rest, p, k - 1)
  {
    var list := [x] + rest;
    if IsLast(list, p, k) {
      forall j | k <= j < |rest|
        ensures !p(rest[j])
      {
        assert !p(list[j + 1]);
      }
    }
    if if k == 0 then p(x) && NoneOf(rest, p) else IsLast(rest, p, k - 1) {
      forall j | k < j < |list|
        ensures !p(list[j])
      {
        assert list[j] == rest[j - 1];
      }
    }
  }

  lemma NoneOfCons(x: ServerRecord, rest: seq<ServerRecord>, p: Choice)
    ensures NoneOf([x] + rest, p) <==> !p(x) && NoneOf(rest, p)
  {
    var list := [x] + rest;
    if NoneOf(list, p) {
      assert !p(list[0]);
      forall j | 0 <= j < |rest|
        ensures !p(rest[j])
      {
        assert !p(list[j + 1]);
      }
    }
  }

  lemma {:induction false} FindsFirst(list: seq<ServerRecord>, p: Choice)
    ensures NoneOf(list, p) <==> forall k: nat :: !IsFirst(list, p, k)
  {
    if list != [] {
      var x, rest := list[0], list[1..];
      assert list == [x] + rest;
      FindsFirst(rest, p);
      NoneOfCons(x, rest, p);
      forall k: nat
        ensures IsFirst(list, p, k) <==> if p(x) then k == 0 else k > 0 && IsFirst(rest, p, k - 1)
      {
        FirstOfCons(x, rest, p, k);
      }
      if !p(x) {
        forall k: nat
          ensures IsFirst(rest, p, k) == IsFirst(list, p, k + 1)
        {
        }
      } else {
        assert IsFirst(list, p, 0);
      }
    }
  }

  /** What the lookup by local address chooses in one game. */
  lemma {:induction false} BestLocalChooses(list: seq<ServerRecord>, publicIP: string, local: LocalAddr, best: Option<ServerRecord>)
    ensures IsBest(list, publicIP, local, best, BestLocal(list, publicIP, local, best))
  {
    hide MatchPublicIP;
    hide HasLocalIP;
    hide IsFirst;
    hide IsLast;
    hide NoneOf;
    var port, ip, any := AtLocalPort(publicIP, local), AtLocalIP(publicIP, local), AtPublic(publicIP);
    if list == [] {
      EmptyChooses(port, ip, any);
    } else {
      var x, rest := list[0], list[1..];
      assert list == [x] + rest;
      BestLocalChooses(rest, publicIP, local, best);
      BestLocalChooses(rest, publicIP, local, Some(x));
      FindsFirst(rest, port);
      NoneOfCons(x, rest, port);
      NoneOfCons(x, rest, ip);
      NoneOfCons(x, rest, any);
      forall k: nat
        ensures IsFirst(list, port, k) <==> if port(x) then k == 0 else k > 0 && IsFirst(rest, port, k - 1)
        ensures IsFirst(list, any, k) <==> if any(x) then k == 0 else k > 0 && IsFirst(rest, any, k - 1)
        ensures IsLast(list, ip, k) <==> if k == 0 then ip(x) && NoneOf(rest, ip) else IsLast(rest, ip, k - 1)
        ensures k > 0 ==> IsFirst(rest, port, k - 1) || IsFirst(rest, any, k - 1) || IsLast(rest, ip, k - 1) ==> k - 1 < |rest|
      {
        FirstOfCons(x, rest, port, k);
        FirstOfCons(x, rest, any, k);
        LastOfCons(x, rest, ip, k);
        if k > 0 {
          InRange(rest, port, k - 1);
          InRange(rest, any, k - 1);
          InRange(rest, ip, k - 1);
        }
      }
    }
  }

  lemma InRange(list: seq<ServerRecord>, p: Choice, k: nat)
    ensures IsFirst(list, p, k) || IsLast(list, p, k) ==> k < |list|
  {
  }

  lemma EmptyChooses(port: Choice, ip: Choice, any: Choice)
    ensures NoneOf([], port) && NoneOf([], ip) && NoneOf([], any)
    ensures forall k: nat :: !IsFirst([], port, k) && !IsLast([], ip, k) && !IsFirst([], any, k)
  {
  }

  /** The lookup by local address finds a room at the public address or none. */
  lemma {:induction false} ByLocalAddressMeaning(rooms: Rooms, games: seq<string>, publicIP: string, local: LocalAddr)
    ensures var r := ByLocalAddress(rooms, games, publicIP, local);
            r.Some? ==> exists g, i :: g in games && 0 <= i < |ListOf(rooms, g)|
                          && ListOf(rooms, g)[i] == r.value && MatchPublicIP(r.value.publicIP, publicIP)
  {
    hide MatchPublicIP;
    hide BestLocal;
    if games != [] {
      BestLocalMeaning(ListOf(rooms, games[0]), publicIP, local, None);
      ByLocalAddressMeaning(rooms, games[1..], publicIP, local);
      assert games == [games[0]] + games[1..];
    }
  }

  // ---------- the registry with its index ----------

  ghost predicate IndexOk(list: seq<ServerRecord>, idx: map<nat, nat>) {
    && (forall i :: 0 <= i < |list| ==> list[i].sessionID in idx && idx[list[i].sessionID] == i)
    && (forall s :: s in idx ==> idx[s] < |list| && list[idx[s]].sessionID == s)
  }

  lemma EmptyIndex()
    ensures IndexOk([], map[]) && Distinct([])
  {
  }

  /** The index and the list after an update that finds its session. */
  lemma ReplacesAt(list: seq<ServerRecord>, idx: map<nat, nat>, rec: ServerRecord)
    requires IndexOk(list, idx) && Distinct(list) && rec.sessionID in idx
    ensures idx[rec.sessionID] < |list|
    ensures var list' := list[idx[rec.sessionID] := rec];
            list' == Put(list, rec) && IndexOk(list', idx) && Distinct(list')
  {
    PutAt(list, rec, idx[rec.sessionID]);
  }

  /** ... and one that does not. */
  lemma AppendsNew(list: seq<ServerRecord>, idx: map<nat, nat>, rec: ServerRecord)
    requires IndexOk(list, idx) && Distinct(list) && rec.sessionID !in idx
    ensures list + [rec] == Put(list, rec)
    ensures IndexOk(list + [rec], idx[rec.sessionID := |list|]) && Distinct(list + [rec])
  {
    forall i | 0 <= i < |list|
      ensures list[i].sessionID != rec.sessionID
    {
    }
    PutNew(list, rec);
  }

  /** The list after a deletion, and the stale index that is to be rebuilt. */
  lemma DropsAt(list: seq<ServerRecord>, idx: map<nat, nat>, session: nat)
    requires IndexOk(list, idx) && Distinct(list) && session in idx
    ensures idx[session] < |list|
    ensures var k := idx[session];
            var list' := list[..k] + list[k + 1..];
            && list' == Remove(list, session) && Distinct(list')
            && (forall s :: s in idx - {session} ==> exists i :: 0 <= i < |list'| && list'[i].sessionID == s)
  {
    var k := idx[session];
    var list' := list[..k] + list[k + 1..];
    RemoveAt(list, session, k);
    forall s | s in idx - {session}
      ensures exists i :: 0 <= i < |list'| && list'[i].sessionID == s
    {
      var i := if idx[s] < k then idx[s] else idx[s] - 1;
      assert list'[i] == list[idx[s]];
    }
  }

  lemma NothingToDrop(list: seq<ServerRecord>, idx: map<nat, nat>, session: nat)
    requires IndexOk(list, idx) && session !in idx
    ensures Remove(list, session) == list
  {
    forall i | 0 <= i < |list|
      ensures list[i].sessionID != session
    {
    }
    RemoveNone(list, session);
  }

  lemma {:induction false} PutKeepsGame(list: seq<ServerRecord>, rec: ServerRecord, g: string)
    requires rec.gamename == g && forall i :: 0 <= i < |list| ==> list[i].gamename == g
    ensures Put(list, rec) != [] && forall i :: 0 <= i < |Put(list, rec)| ==> Put(list, rec)[i].gamename == g
  {
    if list != [] {
      PutKeepsGame(list[1..], rec, g);
    }
  }

  lemma {:induction false} RemoveKeepsGame(list: seq<ServerRecord>, session: nat, g: string)
    requires forall i :: 0 <= i < |list| ==> list[i].gamename == g
    ensures forall i :: 0 <= i < |Remove(list, session)| ==> Remove(list, session)[i].gamename == g
  {
    if list != [] {
      RemoveKeepsGame(list[1..], session, g);
    }
  }

  /** The lists and the indices of all games agree. */
  ghost predicate TablesOk(rooms: Rooms, index: map<string, map<nat, nat>>) {
    && rooms.Keys == index.Keys
    && WfRooms(rooms)
    && forall g :: g in rooms ==> IndexOk(rooms[g], index[g])
  }

  lemma TablesAt(rooms: Rooms, index: map<string, map<nat, nat>>, g: string)
    requires TablesOk(rooms, index)
    ensures g in rooms <==> g in index
    ensures var list := ListOf(rooms, g);
            Distinct(list) && IndexOk(list, if g in index then index[g] else map[])
            && forall i :: 0 <= i < |list| ==> list[i].gamename == g
  {
    EmptyIndex();
  }

  lemma TablesNonEmpty(rooms: Rooms, index: map<string, map<nat, nat>>, g: string)
    requires TablesOk(rooms, index) && g in rooms
    ensures rooms[g] != []
  {
  }

  lemma TablesWith(rooms: Rooms, index: map<string, map<nat, nat>>, g: string, list: seq<ServerRecord>, idx: map<nat, nat>)
    requires TablesOk(rooms, index)
    requires list != [] && Distinct(list) && IndexOk(list, idx) && forall i :: 0 <= i < |list| ==> list[i].gamename == g
    ensures TablesOk(rooms[g := list], index[g := idx])
  {
    hide Distinct;
    hide IndexOk;
  }

  lemma TablesWithout(rooms: Rooms, index: map<string, map<nat, nat>>, g: string)
    requires TablesOk(rooms, index)
    ensures TablesOk(rooms - {g}, index - {g})
  {
    hide Distinct;
    hide IndexOk;
  }

  const MAX_NATNEG_ENTRIES := 8

  predicate SameEndpoint(a: Fields, b: Fields) {
    Get(a, "publicip") == Get(b, "publicip") && Get(a, "publicport") == Get(b, "publicport")
  }

  predicate KnowsEndpoint(entries: seq<Fields>, server: Fields) {
    exists i :: 0 <= i < |entries| && SameEndpoint(entries[i], server)
  }

  /** At most eight entries, no two for the same endpoint. */
  ghost predicate EntriesOk(entries: seq<Fields>) {
    && |entries| <= 8
    && forall i, j :: 0 <= i < j < |entries| ==> !SameEndpoint(entries[i], entries[j])
  }

  class Registry {
    var serverList: map<string, seq<ServerRecord>>
    var sessionIdx: map<string, map<nat, nat>>
    var natnegList: map<nat, seq<Fields>>

    ghost predicate Valid()
      reads this
    {
      && TablesOk(serverList, sessionIdx)
      && (forall c :: c in natnegList ==> natnegList[c] != [] && EntriesOk(natnegList[c]))
    }

    constructor ()
      ensures Valid() && serverList == map[] && natnegList == map[]
    {
      serverList, sessionIdx, natnegList := map[], map[], map[];
    }

    /** Sorts the fields into a record, in whatever order the map is ranged over. */
    method BuildRecord(gameid: string, session: nat, fields: Fields, console: int) returns (rec: ServerRecord)
      ensures rec == RecordOf(gameid, session, fields, console)
    {
      rec := ServerRecord(session, console, gameid, "", "", "", "", "", map[]);
      var todo := fields.Keys;
      while todo != {}
        invariant todo <= fields.Keys
        invariant rec == RecordOf(gameid, session, fields - todo, console)
        decreases |todo|
      {
        var k :| k in todo;
        var v := fields[k];
        ghost var before := fields - todo;
        todo := todo - {k};
        assert fields - todo == before[k := v];
        if k == "publicip" {
          rec := rec.(publicIP := v);
        } else if k == "publicport" {
          rec := rec.(publicPort := v);
        } else if k == "localport" {
          rec := rec.(localPort := v);
        } else if k == "localip0" {
          rec := rec.(localIP0 := v);
        } else if k == "natneg" {
          rec := rec.(natneg := v);
        } else {
          rec := rec.(fields := rec.fields[k := v]);
        }
        assert before[k := v] - RESERVED == if k in RESERVED then before - RESERVED else (before - RESERVED)[k := v];
      }
      assert fields - {} == fields;
    }

    method UpdateServerList(gameid: string, session: nat, fields: Fields, console: int)
      requires Valid()
      modifies this
      ensures Valid() && natnegList == old(natnegList)
      ensures serverList == Updated(old(serverList), RecordOf(gameid, session, fields, console))
    {
      hide IndexOk;
      hide Distinct;
      hide Put;
      hide TablesOk;
      var rec := BuildRecord(gameid, session, fields, console);
      TablesAt(serverList, sessionIdx, gameid);
      var idxMap: map<nat, nat> := if gameid in sessionIdx then sessionIdx[gameid] else map[];
      var list := if gameid in serverList then serverList[gameid] else [];
      PutKeepsGame(list, rec, gameid);
      if session in idxMap {
        ReplacesAt(list, idxMap, rec);
        list := list[idxMap[session] := rec];
      } else {
        AppendsNew(list, idxMap, rec);
        idxMap := idxMap[session := |list|];
        list := list + [rec];
      }
      TablesWith(serverList, sessionIdx, gameid, list, idxMap);
      serverList := serverList[gameid := list];
      sessionIdx := sessionIdx[gameid := idxMap];
    }

    method DeleteServer(gameid: string, session: nat)
      requires Valid()
      modifies this
      ensures Valid() && natnegList == old(natnegList)
      ensures serverList == Deleted(old(serverList), gameid, session)
    {
      hide IndexOk;
      hide Distinct;
      hide TablesOk;
      hide Remove;
      TablesAt(serverList, sessionIdx, gameid);
      if gameid !in sessionIdx {
        RemoveNone([], session);
        assert serverList - {gameid} == serverList;
        return;
      }
      var idxMap: map<nat, nat> := sessionIdx[gameid];
      var servers := serverList[gameid];
      RemoveKeepsGame(servers, session, gameid);
      if session !in idxMap {
        NothingToDrop(servers, idxMap, session);
        TablesNonEmpty(serverList, sessionIdx, gameid);
        assert serverList[gameid := servers] == serverList;
        return;
      }
      DropsAt(servers, idxMap, session);
      var idx := idxMap[session];
      servers := servers[..idx] + servers[idx + 1..];
      idxMap := idxMap - {session};
      idxMap := Reindex(servers, idxMap);
      if |servers| == 0 {
        TablesWithout(serverList, sessionIdx, gameid);
        serverList := serverList - {gameid};
        sessionIdx := sessionIdx - {gameid};
        return;
      }
      TablesWith(serverList, sessionIdx, gameid, servers, idxMap);
      serverList := serverList[gameid := servers];
      sessionIdx := sessionIdx[gameid := idxMap];
    }

    /** The loop that rebuilds the index of a game after a deletion. */
    method Reindex(servers: seq<ServerRecord>, old_: map<nat, nat>) returns (idxMap: map<nat, nat>)
      requires Distinct(servers)
      requires forall s :: s in old_ ==> exists i :: 0 <= i < |servers| && servers[i].sessionID == s
      ensures IndexOk(servers, idxMap)
    {
      idxMap := old_;
      for i := 0 to |servers|
        invariant forall j :: 0 <= j < i ==> servers[j].sessionID in idxMap && idxMap[servers[j].sessionID] == j
        invariant forall s :: s in idxMap ==> exists j :: 0 <= j < |servers| && servers[j].sessionID == s
      {
        idxMap := idxMap[servers[i].sessionID := i];
      }
    }

    method AddNatnegServer(cookie: nat, server: Fields)
      requires Valid()
      modifies `natnegList
      ensures Valid()
      ensures var entries := if cookie in old(natnegList) then old(natnegList)[cookie] else [];
              natnegList ==
              if KnowsEndpoint(entries, server) || |entries| >= 8 then old(natnegList)
              else old(natnegList)[cookie := entries + [server]]
    {
      var entries := if cookie in natnegList then natnegList[cookie] else [];
      for i := 0 to |entries|
        invariant forall j :: 0 <= j < i ==> !SameEndpoint(entries[j], server)
      {
        if SameEndpoint(entries[i], server) {
          return;
        }
      }
      if |entries| >= MAX_NATNEG_ENTRIES {
        return;
      }
      natnegList := natnegList[cookie := entries + [server]];
    }

    function GetNatnegServer(cookie: nat): seq<Fields>
      reads this
    {
      if cookie in natnegList then natnegList[cookie] else []
    }

    method DeleteNatnegServer(cookie: nat)
      requires Valid()
      modifies `natnegList
      ensures Valid() && natnegList == old(natnegList) - {cookie}
    {
      if cookie in natnegList {
        natnegList := natnegList - {cookie};
      } else {
        assert natnegList - {cookie} == natnegList;
      }
    }

    /** Lookups give a copy of the record; `order` is that in which the games are visited. */
    method FindServerByAddress(ip: string, port: Port, gameid: string, order: seq<string>) returns (r: Option<ServerRecord>)
      ensures r == ByAddress(serverList, if gameid == "" then order else [gameid], ip, PortString(port))
    {
      hide AtAddress;
      hide FirstByAddress;
      var portStr := if port == 0 then "" else FormatNat(port);
      if gameid != "" {
        r := SearchAddress(ListOf(serverList, gameid), ip, portStr);
        return;
      }
      for i := 0 to |order|
        invariant ByAddress(serverList, order, ip, portStr) == ByAddress(serverList, order[i..], ip, portStr)
      {
        r := SearchAddress(ListOf(serverList, order[i]), ip, portStr);
        if r != None {
          return;
        }
      }
      r := None;
    }

    method SearchAddress(servers: seq<ServerRecord>, ip: string, portStr: string) returns (r: Option<ServerRecord>)
      ensures r == FirstByAddress(servers, ip, portStr)
    {
      hide MatchPublicIP;
      for i := 0 to |servers|
        invariant FirstByAddress(servers, ip, portStr) == FirstByAddress(servers[i..], ip, portStr)
      {
        if !MatchPublicIP(servers[i].publicIP, ip) {
          continue;
        }
        if portStr == "" || servers[i].publicPort == portStr {
          return Some(servers[i]);
        }
      }
      return None;
    }

    method FindServerByLocalAddress(publicIP: string, local: LocalAddr, gameid: string, order: seq<string>)
      returns (r: Option<ServerRecord>)
      ensures r == ByLocalAddress(serverList, if gameid == "" then order else [gameid], publicIP, local)
    {
      hide BestLocal;
      if gameid != "" {
        r := FindInGame(ListOf(serverList, gameid), publicIP, local);
        return;
      }
      for i := 0 to |order|
        invariant ByLocalAddress(serverList, order, publicIP, local) == ByLocalAddress(serverList, order[i..], publicIP, local)
      {
        r := FindInGame(ListOf(serverList, order[i]), publicIP, local);
        if r != None {
          return;
        }
      }
      r := None;
    }

    method FindInGame(servers: seq<ServerRecord>, publicIP: string, local: LocalAddr) returns (bestMatch: Option<ServerRecord>)
      ensures bestMatch == BestLocal(servers, publicIP, local, None)
    {
      hide MatchPublicIP;
      hide LocalAt;
      bestMatch := None;
      for i := 0 to |servers|
        invariant BestLocal(servers, publicIP, local, None) == BestLocal(servers[i..], publicIP, local, bestMatch)
      {
        var s := servers[i];
        if !MatchPublicIP(s.publicIP, publicIP) {
          continue;
        }
        if s.localPort == FormatNat(local.port) {
          return Some(s);
        }
        ghost var before := bestMatch;
        for x := 0 to 10
          invariant bestMatch == if exists y: nat :: y < x && LocalAt(s, Dotted(local.ip), y) then Some(s) else before
        {
          if LocalAt(s, Dotted(local.ip), x) {
            bestMatch := Some(s);
          }
        }
        if local.port == 0 && bestMatch == None {
          bestMatch := Some(s);
        }
      }
    }

    method FindServers(fold: FilterEval.Folding, gameid: string, filter: string, fields: seq<string>, maxCount: int)
      returns (r: Option<seq<ServerResult>>)
      requires Valid()
      ensures r == Found(fold, serverList, gameid, filter, fields, maxCount)
    {
      hide Matching;
      hide FirstOf;
      var compiled, calls := FilterParser.CompileFilter(filter);
      if compiled == None {
        return None;
      }
      NoneFound(fold, compiled.value, fields, maxCount);
      if gameid !in serverList {
        return Some([]);
      }
      var matched := CollectMatches(fold, compiled.value, serverList[gameid], fields, maxCount);
      return Some(matched);
    }

    /** The loop of FindServers. */
    method CollectMatches(fold: FilterEval.Folding, root: BoolExpr, servers: seq<ServerRecord>, fields: seq<string>, maxCount: int)
      returns (matched: seq<ServerResult>)
      ensures matched == FirstOf(Results(Matching(fold, root, servers), fields), maxCount)
    {
      hide AsMap;
      hide FilterEval.EvalBool;
      hide Matching;
      matched := [];
      NoneFound(fold, root, fields, maxCount);
      for i := 0 to |servers|
        invariant matched == Results(Matching(fold, root, servers[..i]), fields)
        invariant maxCount > 0 ==> |matched| < maxCount
      {
        var rec := servers[i];
        MatchingStep(fold, root, servers, i);
        var ok := FilterEval.EvalBool(fold, root, AsMap(rec));
        if ok != FilterEval.Ok(true) {
          continue;
        }
        ResultsStep(Matching(fold, root, servers[..i]), rec, fields);
        var one := BuildServerResult(rec, fields);
        matched := matched + [one];
        if maxCount > 0 && |matched| >= maxCount {
          MatchingPrefix(fold, root, servers, i + 1);
          ResultsPrefix(Matching(fold, root, servers), fields, |matched|);
          return;
        }
      }
      assert servers[..|servers|] == servers;
    }

    method BuildServerResult(rec: ServerRecord, fields: seq<string>) returns (r: ServerResult)
      ensures r == ResultOf(rec, fields)
    {
      hide AsMap;
      var fm := AsMap(rec);
      var requested: Fields := map[];
      for i := 0 to |fields|
        invariant requested == map f | f in fields[..i] :: Get(fm, f)
      {
        requested := requested[fields[i] := if fields[i] in fm then fm[fields[i]] else ""];
        assert fields[..i + 1] == fields[..i] + [fields[i]];
      }
      assert fields[..|fields|] == fields;
      return ServerResult(rec, requested);
    }
  }

  // ---------- queries ----------

  datatype ServerResult = ServerResult(record: ServerRecord, requested: Fields)

  /** A match with the requested fields, absent ones empty. */
  function ResultOf(rec: ServerRecord, fields: seq<string>): ServerResult {
    ServerResult(rec, map f | f in fields :: Get(AsMap(rec), f))
  }

  function Results(list: seq<ServerRecord>, fields: seq<string>): (r: seq<ServerResult>)
    ensures |r| == |list|
  {
    seq(|list|, i requires 0 <= i < |list| => ResultOf(list[i], fields))
  }

  /** The records, in list order, whose filter evaluates to true without an error. */
  function Matching(fold: FilterEval.Folding, root: BoolExpr, list: seq<ServerRecord>): seq<ServerRecord> {
    if list == [] then []
    else
      var n := |list| - 1;
      Matching(fold, root, list[..n])
      + (if FilterEval.EvalBool(fold, root, AsMap(list[n])) == FilterEval.Ok(true) then [list[n]] else [])
  }

  function FirstOf<T>(s: seq<T>, maxCount: int): seq<T> {
    if 0 < maxCount < |s| then s[..maxCount] else s
  }

  /** What FindServers returns: None when the filter does not compile. */
  function Found(fold: FilterEval.Folding, rooms: Rooms, gameid: string, filter: string, fields: seq<string>, maxCount: int)
    : Option<seq<ServerResult>>
  {
    match FilterParser.Compiled(filter)
    case None => None
    case Some(root) => Some(FirstOf(Results(Matching(fold, root, ListOf(rooms, gameid)), fields), maxCount))
  }

  lemma NoneFound(fold: FilterEval.Folding, root: BoolExpr, fields: seq<string>, maxCount: int)
    ensures Matching(fold, root, []) == [] && FirstOf(Results([], fields), maxCount) == []
  {
  }

  lemma ResultsStep(list: seq<ServerRecord>, rec: ServerRecord, fields: seq<string>)
    ensures Results(list + [rec], fields) == Results(list, fields) + [ResultOf(rec, fields)]
  {
  }

  lemma MatchingStep(fold: FilterEval.Folding, root: BoolExpr, list: seq<ServerRecord>, i: nat)
    requires i < |list|
    ensures Matching(fold, root, list[..i + 1]) ==
            Matching(fold, root, list[..i])
            + (if FilterEval.EvalBool(fold, root, AsMap(list[i])) == FilterEval.Ok(true) then [list[i]] else [])
  {
    assert list[..i + 1][..i] == list[..i];
  }

  lemma {:induction false} MatchingPrefix(fold: FilterEval.Folding, root: BoolExpr, list: seq<ServerRecord>, i: nat)
    requires i <= |list|
    ensures Matching(fold, root, list[..i]) <= Matching(fold, root, list)
    decreases |list|
  {
    hide Matching;
    hide AsMap;
    if i < |list| {
      var n := |list| - 1;
      MatchingPrefix(fold, root, list[..n], i);
      assert list[..n][..i] == list[..i];
      MatchingStep(fold, root, list, n);
      assert list[..n + 1] == list;
    } else {
      assert list[..i] == list;
    }
  }

  lemma ResultsPrefix(list: seq<ServerRecord>, fields: seq<string>, n: nat)
    requires n <= |list|
    ensures Results(list[..n], fields) == Results(list, fields)[..n]
  {
  }

  // ---------- whole histories ----------

  datatype Op = Update(rec: ServerRecord) | Delete(gameid: string, session: nat)

  function Applied(rooms: Rooms, op: Op): Rooms {
    match op
    case Update(rec) => Updated(rooms, rec)
    case Delete(gameid, session) => Deleted(rooms, gameid, session)
  }

  function Run(ops: seq<Op>): Rooms {
    if ops == [] then map[] else Applied(Run(ops[..|ops| - 1]), ops[|ops| - 1])
  }

  /** The current life of a room: when it began, and the record of its latest update. */
  datatype Life = Dead | Alive(birth: nat, rec: ServerRecord)

  /** Read off the history alone: a deletion ends a life, the next update begins one. */
  function LifeOf(ops: seq<Op>, g: string, session: nat): Life {
    if ops == [] then Dead
    else
      var n := |ops| - 1;
      var before := LifeOf(ops[..n], g, session);
      match ops[n]
      case Update(rec) =>
        if rec.gamename == g && rec.sessionID == session
        then Alive(if before.Alive? then before.birth else n, rec)
        else before
      case Delete(gameid, s) => if gameid == g && s == session then Dead else before
  }

  type Lives = nat -> Life

  function LivesOf(ops: seq<Op>, g: string): Lives {
    (s: nat) => LifeOf(ops, g, s)
  }

  predicate IsAlive(lives: Lives, now: nat, rec: ServerRecord) {
    var life := lives(rec.sessionID);
    life.Alive? && life.rec == rec && life.birth < now
  }

  function BirthOf(lives: Lives, rec: ServerRecord): nat {
    match lives(rec.sessionID)
    case Alive(birth, _) => birth
    case Dead => 0
  }

  /** The list holds exactly the living rooms, each with its latest record, oldest life first. */
  ghost predicate Explains(lives: Lives, now: nat, list: seq<ServerRecord>) {
    && Distinct(list)
    && (forall i :: 0 <= i < |list| ==> IsAlive(lives, now, list[i]))
    && (forall s :: lives(s).Alive? ==> Holds(list, s))
    && (forall i, j :: 0 <= i < j < |list| ==> BirthOf(lives, list[i]) < BirthOf(lives, list[j]))
  }

  ghost predicate SameBut(lives: Lives, lives': Lives, session: nat) {
    forall s :: s != session ==> lives'(s) == lives(s)
  }

  lemma ReplaceExplained(lives: Lives, lives': Lives, now: nat, list: seq<ServerRecord>, k: nat, rec: ServerRecord)
    requires Explains(lives, now, list) && k < |list| && list[k].sessionID == rec.sessionID
    requires SameBut(lives, lives', rec.sessionID)
    requires lives'(rec.sessionID) == Alive(BirthOf(lives, list[k]), rec)
    ensures Explains(lives', now + 1, list[k := rec])
  {
    var list' := list[k := rec];
    forall i | 0 <= i < |list|
      ensures IsAlive(lives', now + 1, list'[i]) && BirthOf(lives', list'[i]) == BirthOf(lives, list[i])
    {
      assert IsAlive(lives, now, list[i]);
    }
    forall s | lives'(s).Alive?
      ensures Holds(list', s)
    {
      if s == rec.sessionID {
        assert list'[k].sessionID == s;
      } else {
        assert Holds(list, s);
        var i :| 0 <= i < |list| && list[i].sessionID == s;
        assert list'[i].sessionID == s;
      }
    }
  }

  lemma AppendExplained(lives: Lives, lives': Lives, now: nat, list: seq<ServerRecord>, rec: ServerRecord)
    requires Explains(lives, now, list) && !lives(rec.sessionID).Alive?
    requires SameBut(lives, lives', rec.sessionID)
    requires lives'(rec.sessionID) == Alive(now, rec)
    ensures Explains(lives', now + 1, list + [rec])
  {
    var list' := list + [rec];
    forall i | 0 <= i < |list|
      ensures IsAlive(lives', now + 1, list'[i]) && BirthOf(lives', list'[i]) == BirthOf(lives, list[i]) < now
    {
      assert IsAlive(lives, now, list[i]);
    }
    forall s | lives'(s).Alive?
      ensures Holds(list', s)
    {
      if s == rec.sessionID {
        assert list'[|list|].sessionID == s;
      } else {
        assert Holds(list, s);
        var i :| 0 <= i < |list| && list[i].sessionID == s;
        assert list'[i].sessionID == s;
      }
    }
  }

  lemma DropExplained(lives: Lives, lives': Lives, now: nat, list: seq<ServerRecord>, k: nat)
    requires Explains(lives, now, list) && k < |list|
    requires SameBut(lives, lives', list[k].sessionID) && lives'(list[k].sessionID) == Dead
    ensures Explains(lives', now + 1, list[..k] + list[k + 1..])
  {
    var list' := list[..k] + list[k + 1..];
    forall i | 0 <= i < |list'|
      ensures list'[i] == list[if i < k then i else i + 1]
      ensures IsAlive(lives', now + 1, list'[i]) && BirthOf(lives', list'[i]) == BirthOf(lives, list'[i])
    {
      assert IsAlive(lives, now, list[if i < k then i else i + 1]);
    }
    forall s | lives'(s).Alive?
      ensures Holds(list', s)
    {
      assert Holds(list, s);
      var i :| 0 <= i < |list| && list[i].sessionID == s;
      assert list'[if i < k then i else i - 1] == list[i];
    }
  }

  lemma KeepExplained(lives: Lives, lives': Lives, now: nat, list: seq<ServerRecord>)
    requires Explains(lives, now, list)
    requires forall s :: lives'(s) == lives(s)
    ensures Explains(lives', now + 1, list)
  {
    forall i | 0 <= i < |list|
      ensures IsAlive(lives', now + 1, list[i]) && BirthOf(lives', list[i]) == BirthOf(lives, list[i])
    {
      assert IsAlive(lives, now, list[i]);
    }
  }

  lemma FindHeld(list: seq<ServerRecord>, session: nat) returns (k: nat)
    requires Holds(list, session)
    ensures k < |list| && list[k].sessionID == session
  {
    k :| 0 <= k < |list| && list[k].sessionID == session;
  }

  lemma UpdateExplained(ops: seq<Op>, rec: ServerRecord, list: seq<ServerRecord>)
    requires Explains(LivesOf(ops, rec.gamename), |ops|, list)
    ensures Explains(LivesOf(ops + [Update(rec)], rec.gamename), |ops| + 1, Put(list, rec))
  {
    var ops' := ops + [Update(rec)];
    var lives, lives' := LivesOf(ops, rec.gamename), LivesOf(ops', rec.gamename);
    assert ops'[..|ops|] == ops;
    assert SameBut(lives, lives', rec.sessionID);
    if lives(rec.sessionID).Alive? {
      var k := FindHeld(list, rec.sessionID);
      PutAt(list, rec, k);
      ReplaceExplained(lives, lives', |ops|, list, k, rec);
    } else {
      forall i | 0 <= i < |list|
        ensures list[i].sessionID != rec.sessionID
      {
        assert IsAlive(lives, |ops|, list[i]);
      }
      PutNew(list, rec);
      AppendExplained(lives, lives', |ops|, list, rec);
    }
  }

  lemma DeleteExplained(ops: seq<Op>, g: string, session: nat, list: seq<ServerRecord>)
    requires Explains(LivesOf(ops, g), |ops|, list)
    ensures Explains(LivesOf(ops + [Delete(g, session)], g), |ops| + 1, Remove(list, session))
  {
    var ops' := ops + [Delete(g, session)];
    var lives, lives' := LivesOf(ops, g), LivesOf(ops', g);
    assert ops'[..|ops|] == ops;
    assert SameBut(lives, lives', session);
    if lives(session).Alive? {
      var k := FindHeld(list, session);
      RemoveAt(list, session, k);
      DropExplained(lives, lives', |ops|, list, k);
    } else {
      forall i | 0 <= i < |list|
        ensures list[i].sessionID != session
      {
        assert IsAlive(lives, |ops|, list[i]);
      }
      RemoveNone(list, session);
      KeepExplained(lives, lives', |ops|, list);
    }
  }

  lemma OtherExplained(ops: seq<Op>, op: Op, g: string, list: seq<ServerRecord>)
    requires Explains(LivesOf(ops, g), |ops|, list)
    requires match op case Update(rec) => rec.gamename != g case Delete(g', _) => g' != g
    ensures Explains(LivesOf(ops + [op], g), |ops| + 1, list)
  {
    assert (ops + [op])[..|ops|] == ops;
    KeepExplained(LivesOf(ops, g), LivesOf(ops + [op], g), |ops|, list);
  }

  /** After every history, each game's list is what the history alone says it should be. */
  lemma {:induction false} RunMeaning(ops: seq<Op>, g: string)
    ensures Explains(LivesOf(ops, g), |ops|, ListOf(Run(ops), g))
    ensures g in Run(ops) ==> Run(ops)[g] != []
  {
    hide Put;
    hide Remove;
    hide Explains;
    if ops == [] {
      NothingExplained(g);
    } else {
      var n := |ops| - 1;
      var init, op := ops[..n], ops[n];
      assert ops == init + [op];
      RunMeaning(init, g);
      var list := ListOf(Run(init), g);
      match op
      case Update(rec) =>
        if rec.gamename == g {
          UpdateExplained(init, rec, list);
          PutNonEmpty(list, rec);
        } else {
          OtherExplained(init, op, g, list);
        }
      case Delete(g', session) =>
        if g' == g {
          DeleteExplained(init, g, session, list);
        } else {
          OtherExplained(init, op, g, list);
        }
    }
  }

  lemma PutNonEmpty(list: seq<ServerRecord>, rec: ServerRecord)
    ensures Put(list, rec) != []
  {
  }

  lemma NothingExplained(g: string)
    ensures Explains(LivesOf([], g), 0, [])
  {
  }
}
