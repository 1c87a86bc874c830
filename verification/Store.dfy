/**
 The account store (internal/database/json/store.go): four lists in memory, each saved to its
 own file after a change by writing a temporary file and renaming it.

 MD5, the GameSpy base64 and the random source are inputs.
 */
module Store {
  import opened GoLib
  import opened Backend

  datatype User = User(
    profileID: int,
    userID: string,
    password: string,
    gsbrcd: string,
    email: string,
    uniquenick: string,
    firstname: string,
    lastname: string,
    console: int,
    device: Device,
    extra: Extra,
    gameID: string,
    enabled: int)

  datatype Device = Device(csnum: string, cfc: string, bssid: string, devname: string, birth: string)

  /** Fields that a new user gets and no operation changes. */
  datatype Extra = Extra(
    pid: string, lon: string, lat: string, loc: string, stat: string, partnerID: string, zipcode: string, aim: string)

  const NEW_EXTRA := Extra("11", "0.000000", "0.000000", "", "", "", "", "")

  datatype SessionRow = SessionRow(session: string, profileID: int, loginTicket: string)
  datatype Ban = Ban(gameID: string, ipAddr: string)
  datatype NasLogin = NasLogin(userID: string, authToken: string, data: Fields)

  /** The library functions the store calls. */
  datatype Lib = Lib(md5: string -> string, base64: string -> string)

  datatype Mem = Mem(users: seq<User>, sessions: seq<SessionRow>, nas: seq<NasLogin>, banned: seq<Ban>)

  // ---------- files ----------

  /** A temporary file: `Torn` is one that was opened and not written to its end. */
  datatype Temp<T> = Absent | Torn | Whole(rows: seq<T>)
  datatype File<T> = File(rows: Option<seq<T>>, temp: Temp<T>)

  datatype Disk = Disk(users: File<User>, sessions: File<SessionRow>, nas: File<NasLogin>, banned: File<Ban>)

  datatype Write = Written | WriteFails | RenameFails

  /** The states a file passes through while it is saved. */
  function Moments<T>(f: File<T>, rows: seq<T>): seq<File<T>> {
    [f, f.(temp := Torn), f.(temp := Whole(rows)), File(Some(rows), Absent)]
  }

  function Saved<T>(f: File<T>, rows: seq<T>, w: Write): File<T> {
    match w
    case Written => File(Some(rows), Absent)
    case WriteFails => f.(temp := Torn)
    case RenameFails => f.(temp := Absent)
  }

  /** persistFileLocked. `passed` are the states the file was in, and could be found in after a crash. */
  method PersistFile<T>(f: File<T>, rows: seq<T>, w: Write) returns (f': File<T>, ok: bool, ghost passed: seq<File<T>>)
    ensures f' == Saved(f, rows, w) && ok == w.Written?
    ensures passed <= Moments(f, rows) && (ok ==> passed == Moments(f, rows))
  {
    f', ok := f, false;
    passed := [f'];
    f' := f'.(temp := Torn);
    passed := passed + [f'];
    if w == WriteFails {
      return;
    }
    f' := f'.(temp := Whole(rows));
    passed := passed + [f'];
    if w == RenameFails {
      f' := f'.(temp := Absent);
      return;
    }
    f' := File(Some(f'.temp.rows), Absent);
    passed := passed + [f'];
    ok := true;
  }

  function RowsOf<T>(f: File<T>): seq<T> {
    if f.rows.Some? then f.rows.value else []
  }

  /** loadAll: only the files themselves are read, never the temporary ones. */
  function Loaded(d: Disk): Mem {
    Mem(RowsOf(d.users), RowsOf(d.sessions), RowsOf(d.nas), RowsOf(d.banned))
  }

  // ---------- operations on the lists ----------

  function Base32Alpha(d: nat): char
    requires d < 32
  {
    if d < 10 then '0' + d as char else 'a' + (d - 10) as char
  }

  function Base32Encode(num: int): string {
    if num <= 0 then "" else Base32Encode(num / 32) + [Base32Alpha(num % 32)]
  }

  function FindUser(users: seq<User>, userid: string, gsbrcd: string): Option<User> {
    if users == [] then None
    else if users[0].userID == userid && users[0].gsbrcd == gsbrcd then Some(users[0])
    else FindUser(users[1..], userid, gsbrcd)
  }

  predicate ProfileExists(users: seq<User>, id: int) {
    exists i :: 0 <= i < |users| && users[i].profileID == id
  }

  function MaxID(users: seq<User>): int {
    if users == [] then 0
    else
      var n := |users| - 1;
      if users[n].profileID > MaxID(users[..n]) then users[n].profileID else MaxID(users[..n])
  }

  const MAX_INT64 := 0x7fff_ffff_ffff_ffff

  /** The next profile id, an int64 that wraps around. */
  function NextID(users: seq<User>): int {
    if MaxID(users) == MAX_INT64 then -0x8000_0000_0000_0000 else MaxID(users) + 1
  }

  /** What a login's data must have: a numeric user id and a game code. */
  predicate Acceptable(data: Option<Fields>) {
    data.Some? && Get(data.value, "userid") != "" && Get(data.value, "gsbrcd") != ""
    && ParseInt64(Get(data.value, "userid")).Some?
  }

  function NickOf(data: Fields): string
    requires Acceptable(Some(data))
  {
    Base32Encode(ParseInt64(Get(data, "userid")).value) + Get(data, "gsbrcd")
  }

  function NewUser(lib: Lib, users: seq<User>, data: Fields): User
    requires Acceptable(Some(data))
  {
    var gsbrcd, nick := Get(data, "gsbrcd"), NickOf(data);
    User(NextID(users), Get(data, "userid"), lib.md5(gsbrcd), gsbrcd, nick + "@nds", nick, "", "",
         if "passwd" !in data || "csnum" in data || "cfc" in data then 1 else 0,
         Device(Get(data, "csnum"), Get(data, "cfc"), Get(data, "bssid"), Get(data, "devname"), Get(data, "birth")), NEW_EXTRA,
         if |gsbrcd| >= 4 then gsbrcd[..4] else gsbrcd, 1)
  }

  function EncodedAt(lib: Lib, data: Fields, key: string): Fields {
    if key in data then data[key := lib.base64(data[key])] else data
  }

  function StoredData(lib: Lib, data: Fields): Fields {
    EncodedAt(lib, EncodedAt(lib, data, "devname"), "ingamesn")
  }

  predicate TokenTaken(nas: seq<NasLogin>, userid: string, token: string) {
    exists i :: 0 <= i < |nas| && nas[i].authToken == token && nas[i].userID != userid
  }

  /** Replaces the row of the same user where it stands, or appends. */
  function PutLogin(nas: seq<NasLogin>, row: NasLogin): seq<NasLogin> {
    if nas == [] then [row]
    else if nas[0].userID == row.userID then [row] + nas[1..]
    else [nas[0]] + PutLogin(nas[1..], row)
  }

  function LoginData(nas: seq<NasLogin>, token: string): Option<Fields> {
    if nas == [] then None
    else if nas[0].authToken == token then Some(nas[0].data)
    else LoginData(nas[1..], token)
  }

  function WithoutProfile(sessions: seq<SessionRow>, id: int): seq<SessionRow> {
    if sessions == [] then []
    else
      var n := |sessions| - 1;
      WithoutProfile(sessions[..n], id) + if sessions[n].profileID == id then [] else [sessions[n]]
  }

  function WithoutKey(sessions: seq<SessionRow>, key: string): seq<SessionRow> {
    if sessions == [] then []
    else
      var n := |sessions| - 1;
      WithoutKey(sessions[..n], key) + if sessions[n].session == key then [] else [sessions[n]]
  }

  predicate KeyUsed(sessions: seq<SessionRow>, key: string) {
    exists i :: 0 <= i < |sessions| && sessions[i].session == key
  }

  /** The first draw of the random source that is not in use; none if the source fails before. */
  function FreshKey(sessions: seq<SessionRow>, draws: seq<string>): Option<string> {
    if draws == [] then None
    else if !KeyUsed(sessions, draws[0]) then Some(draws[0])
    else FreshKey(sessions, draws[1..])
  }

  type Changes = seq<(string, string)>

  /** The profile changes that are made before one that is not supported. */
  function Renamed(u: User, changes: Changes): User
    decreases |changes|
  {
    if changes == [] then u
    else if changes[0].0 == "firstname" then Renamed(u.(firstname := changes[0].1), changes[1..])
    else if changes[0].0 == "lastname" then Renamed(u.(lastname := changes[0].1), changes[1..])
    else u
  }

  predicate Supported(changes: Changes) {
    forall i :: 0 <= i < |changes| ==> changes[i].0 == "firstname" || changes[i].0 == "lastname"
  }

  function RenameUser(users: seq<User>, id: int, changes: Changes): seq<User> {
    if users == [] then []
    else if users[0].profileID == id then [Renamed(users[0], changes)] + users[1..]
    else [users[0]] + RenameUser(users[1..], id, changes)
  }

  // ---------- operations as steps ----------

  /** `draws` and `ticket` are what the random source gives. `changes` is in the order of the visit. */
  datatype Call =
    | StoreNas(userid: string, token: string, data: Fields)
    | Login(auth: Option<Fields>)
    | NewSession(profileID: int, draws: seq<string>, ticket: Option<string>)
    | EndSession(key: string)
    | UpdateProfile(id: int, changes: Changes)
    | Flush(file: Target)

  datatype Target = NoFile | UsersFile | SessionsFile | NasFile | BannedFile

  datatype Reply =
    | Failed
    | Done
    | LoggedIn(userid: string, profileID: int, gsbrcd: string, nick: string)
    | Disabled
    | NewKey(key: string, ticket: string)

  predicate IsNewUser(m: Mem, op: Call) {
    op.Login? && Acceptable(op.auth)
    && FindUser(m.users, Get(op.auth.value, "userid"), Get(op.auth.value, "gsbrcd")).None?
  }

  function Effect(lib: Lib, m: Mem, op: Call): Mem {
    match op
    case StoreNas(userid, token, data) =>
      if TokenTaken(m.nas, userid, token) then m
      else m.(nas := PutLogin(m.nas, NasLogin(userid, token, StoredData(lib, data))))
    case Login(auth) =>
      if IsNewUser(m, op) then m.(users := m.users + [NewUser(lib, m.users, auth.value)]) else m
    case NewSession(id, draws, ticket) =>
      if !ProfileExists(m.users, id) then m
      else
        var rest := WithoutProfile(m.sessions, id);
        var key := FreshKey(rest, draws);
        m.(sessions := if key.Some? && ticket.Some? then rest + [SessionRow(key.value, id, ticket.value)] else rest)
    case EndSession(key) => m.(sessions := WithoutKey(m.sessions, key))
    case UpdateProfile(id, changes) => m.(users := RenameUser(m.users, id, changes))
    case Flush(_) => m
  }

  /** The file that the operation saves. */
  function TargetOf(m: Mem, op: Call): Target {
    match op
    case StoreNas(userid, token, _) => if TokenTaken(m.nas, userid, token) then NoFile else NasFile
    case Login(_) => if IsNewUser(m, op) then UsersFile else NoFile
    case NewSession(id, draws, ticket) =>
      if ProfileExists(m.users, id) && FreshKey(WithoutProfile(m.sessions, id), draws).Some? && ticket.Some?
      then SessionsFile else NoFile
    case EndSession(_) => SessionsFile
    case UpdateProfile(id, changes) =>
      if ProfileExists(m.users, id) && Supported(changes) && changes != [] then UsersFile else NoFile
    case Flush(file) => file
  }

  /** What the caller is told if the file was saved. */
  function ReplyOf(lib: Lib, m: Mem, op: Call): Reply {
    match op
    case StoreNas(userid, token, _) => if TokenTaken(m.nas, userid, token) then Failed else Done
    case Login(auth) =>
      if !Acceptable(auth) then Failed
      else
        var userid, gsbrcd, nick := Get(auth.value, "userid"), Get(auth.value, "gsbrcd"), NickOf(auth.value);
        (match FindUser(m.users, userid, gsbrcd)
         case None => LoggedIn(userid, NextID(m.users), gsbrcd, nick)
         case Some(u) => if u.enabled == 1 then LoggedIn(userid, u.profileID, gsbrcd, nick) else Disabled)
    case NewSession(id, draws, ticket) =>
      var key := FreshKey(WithoutProfile(m.sessions, id), draws);
      if ProfileExists(m.users, id) && key.Some? && ticket.Some? then NewKey(key.value, ticket.value) else Failed
    case EndSession(_) => Done
    case UpdateProfile(id, changes) => if ProfileExists(m.users, id) && Supported(changes) then Done else Failed
    case Flush(_) => Done
  }

  function SavedTo(d: Disk, target: Target, m: Mem, w: Write): Disk {
    match target
    case NoFile => d
    case UsersFile => d.(users := Saved(d.users, m.users, w))
    case SessionsFile => d.(sessions := Saved(d.sessions, m.sessions, w))
    case NasFile => d.(nas := Saved(d.nas, m.nas, w))
    case BannedFile => d.(banned := Saved(d.banned, m.banned, w))
  }

  // ---------- the store ----------

  class Store {
    const lib: Lib
    var users: seq<User>
    var sessions: seq<SessionRow>
    var nasLogins: seq<NasLogin>
    var banned: seq<Ban>
    var disk: Disk

    ghost function Memory(): Mem
      reads this
    {
      Mem(users, sessions, nasLogins, banned)
    }

    /** Open: reads the files. */
    constructor (lib: Lib, disk: Disk)
      ensures this.lib == lib && this.disk == disk && Memory() == Loaded(disk)
    {
      this.lib, this.disk := lib, disk;
      users, sessions, nasLogins := RowsOf(disk.users), RowsOf(disk.sessions), RowsOf(disk.nas);
      banned := RowsOf(disk.banned);
    }

    /** What a call leaves behind: the lists, the file that was saved, the reply. */
    twostate predicate Performs(op: Call, w: Write, reply: Reply)
      reads this
    {
      var m, target := old(Memory()), TargetOf(old(Memory()), op);
      && Memory() == Effect(lib, m, op)
      && disk == SavedTo(old(disk), target, Effect(lib, m, op), w)
      && reply == if target != NoFile && w != Written then Failed else ReplyOf(lib, m, op)
    }

    method PersistUsers(w: Write) returns (ok: bool)
      modifies `disk
      ensures disk == SavedTo(old(disk), UsersFile, Memory(), w) && ok == w.Written?
    {
      var f: File<User>;
      ghost var passed;
      f, ok, passed := PersistFile(disk.users, users, w);
      disk := disk.(users := f);
    }

    method PersistSessions(w: Write) returns (ok: bool)
      modifies `disk
      ensures disk == SavedTo(old(disk), SessionsFile, Memory(), w) && ok == w.Written?
    {
      var f: File<SessionRow>;
      ghost var passed;
      f, ok, passed := PersistFile(disk.sessions, sessions, w);
      disk := disk.(sessions := f);
    }

    method PersistLogins(w: Write) returns (ok: bool)
      modifies `disk
      ensures disk == SavedTo(old(disk), NasFile, Memory(), w) && ok == w.Written?
    {
      var f: File<NasLogin>;
      ghost var passed;
      f, ok, passed := PersistFile(disk.nas, nasLogins, w);
      disk := disk.(nas := f);
    }

    method PersistBanned(w: Write) returns (ok: bool)
      modifies `disk
      ensures disk == SavedTo(old(disk), BannedFile, Memory(), w) && ok == w.Written?
    {
      var f: File<Ban>;
      ghost var passed;
      f, ok, passed := PersistFile(disk.banned, banned, w);
      disk := disk.(banned := f);
    }

    /** Initialize: saves the files one after the other, up to the first failure. */
    method Initialize(w1: Write, w2: Write, w3: Write, w4: Write) returns (ok: bool)
      modifies `disk
      ensures ok == (w1.Written? && w2.Written? && w3.Written? && w4.Written?)
      ensures disk.users == Saved(old(disk).users, users, w1)
      ensures disk.sessions == if w1.Written? then Saved(old(disk).sessions, sessions, w2) else old(disk).sessions
      ensures disk.nas == if w1.Written? && w2.Written? then Saved(old(disk).nas, nasLogins, w3) else old(disk).nas
      ensures disk.banned == if w1.Written? && w2.Written? && w3.Written? then Saved(old(disk).banned, banned, w4)
                             else old(disk).banned
      ensures ok ==> Loaded(disk) == Memory()
    {
      ok := PersistUsers(w1);
      if !ok {
        return;
      }
      ok := PersistSessions(w2);
      if !ok {
        return;
      }
      ok := PersistLogins(w3);
      if !ok {
        return;
      }
      ok := PersistBanned(w4);
    }

    /** Whether the game of a game code, without its region letter, is banned at an address. */
    method IsBanned(gamecd: string, ipaddr: string) returns (r: bool)
      ensures r <==> Ban(if gamecd == "" then "" else gamecd[..|gamecd| - 1], ipaddr) in banned
    {
      var gameid := if |gamecd| > 0 then gamecd[..|gamecd| - 1] else gamecd;
      for i := 0 to |banned|
        invariant Ban(gameid, ipaddr) !in banned[..i]
      {
        if banned[i].gameID == gameid && banned[i].ipAddr == ipaddr {
          return true;
        }
      }
      assert banned[..|banned|] == banned;
      return false;
    }

    method StoreNasLogin(userid: string, token: string, data: Fields, w: Write) returns (reply: Reply)
      modifies this
      ensures Performs(StoreNas(userid, token, data), w, reply)
    {
      var stored := data;
      if "devname" in stored {
        stored := stored["devname" := lib.base64(stored["devname"])];
      }
      if "ingamesn" in stored {
        stored := stored["ingamesn" := lib.base64(stored["ingamesn"])];
      }
      for i := 0 to |nasLogins|
        invariant forall j :: 0 <= j < i ==> nasLogins[j].authToken != token || nasLogins[j].userID == userid
      {
        if nasLogins[i].authToken == token && nasLogins[i].userID != userid {
          return Failed;
        }
      }
      Upsert(NasLogin(userid, token, stored));
      var ok := PersistLogins(w);
      reply := if ok then Done else Failed;
    }

    /** One row per user: a later login replaces the token. */
    method Upsert(row: NasLogin)
      modifies `nasLogins
      ensures nasLogins == PutLogin(old(nasLogins), row)
    {
      for i := 0 to |nasLogins|
        invariant forall j :: 0 <= j < i ==> nasLogins[j].userID != row.userID
        invariant nasLogins == old(nasLogins)
      {
        if nasLogins[i].userID == row.userID {
          PutLoginAt(nasLogins, row, i);
          nasLogins := nasLogins[i := nasLogins[i].(authToken := row.authToken, data := row.data)];
          return;
        }
      }
      PutLoginNew(nasLogins, row);
      nasLogins := nasLogins + [row];
    }

    method GetNasLogin(token: string) returns (data: Option<Fields>)
      ensures data == LoginData(nasLogins, token)
    {
      for i := 0 to |nasLogins|
        invariant LoginData(nasLogins, token) == LoginData(nasLogins[i..], token)
      {
        if nasLogins[i].authToken == token {
          return Some(nasLogins[i].data);
        }
      }
      return None;
    }

    method FindUserLocked(userid: string, gsbrcd: string) returns (i: int)
      ensures -1 <= i < |users|
      ensures FindUser(users, userid, gsbrcd) == if i == -1 then None else Some(users[i])
    {
      i := 0;
      while i < |users|
        invariant 0 <= i <= |users|
        invariant FindUser(users, userid, gsbrcd) == FindUser(users[i..], userid, gsbrcd)
      {
        if users[i].userID == userid && users[i].gsbrcd == gsbrcd {
          return i;
        }
        i := i + 1;
      }
      return -1;
    }

    method NextProfileID() returns (id: int)
      ensures id == NextID(users)
    {
      var maxID := 0;
      for i := 0 to |users|
        invariant maxID == MaxID(users[..i])
      {
        assert users[..i + 1][..i] == users[..i];
        if users[i].profileID > maxID {
          maxID := users[i].profileID;
        }
      }
      assert users[..|users|] == users;
      id := if maxID == MAX_INT64 then -0x8000_0000_0000_0000 else maxID + 1;
    }

    method LoginProfileFromAuth(auth: Option<Fields>, w: Write) returns (reply: Reply)
      modifies this
      ensures Performs(Login(auth), w, reply)
    {
      if auth == None || Get(auth.value, "userid") == "" || Get(auth.value, "gsbrcd") == "" {
        return Failed;
      }
      var data := auth.value;
      var userid, gsbrcd := Get(data, "userid"), Get(data, "gsbrcd");
      var userNum := ParseInt64(userid);
      if userNum == None {
        return Failed;
      }
      var nick := Base32Encode(userNum.value) + gsbrcd;
      var idx := FindUserLocked(userid, gsbrcd);
      if idx < 0 {
        reply := CreateUser(data, nick, w);
      } else if users[idx].enabled != 1 {
        reply := Disabled;
      } else {
        reply := LoggedIn(userid, users[idx].profileID, gsbrcd, nick);
      }
    }

    /** createUserLocked, for data that names no user yet. */
    method CreateUser(data: Fields, nick: string, w: Write) returns (reply: Reply)
      requires Acceptable(Some(data)) && nick == NickOf(data)
      requires FindUser(users, Get(data, "userid"), Get(data, "gsbrcd")).None?
      modifies this
      ensures Performs(Login(Some(data)), w, reply)
    {
      hide ParseInt64;
      hide FindUser;
      hide Base32Encode;
      var userid, gsbrcd := Get(data, "userid"), Get(data, "gsbrcd");
      var console := 0;
      if "passwd" !in data {
        console := 1;
      }
      if "csnum" in data {
        console := 1;
      }
      if "cfc" in data {
        console := 1;
      }
      var gameid := gsbrcd;
      if |gsbrcd| >= 4 {
        gameid := gsbrcd[..4];
      }
      var device := Device(Get(data, "csnum"), Get(data, "cfc"), Get(data, "bssid"), Get(data, "devname"), Get(data, "birth"));
      var id := NextProfileID();
      users := users + [User(id, userid, lib.md5(gsbrcd), gsbrcd, nick + "@nds", nick, "", "", console, device, NEW_EXTRA, gameid, 1)];
      var ok := PersistUsers(w);
      reply := if ok then LoggedIn(userid, id, gsbrcd, nick) else Failed;
    }

    method CreateSession(id: int, draws: seq<string>, ticket: Option<string>, w: Write) returns (reply: Reply)
      modifies this
      ensures Performs(NewSession(id, draws, ticket), w, reply)
    {
      if !ProfileExists(users, id) {
        return Failed;
      }
      var filtered := [];
      for i := 0 to |sessions|
        invariant filtered == WithoutProfile(sessions[..i], id)
      {
        assert sessions[..i + 1][..i] == sessions[..i];
        if sessions[i].profileID != id {
          filtered := filtered + [sessions[i]];
        }
      }
      assert sessions[..|sessions|] == sessions;
      sessions := filtered;
      var key := GenerateSessionKey(draws);
      if key == None || ticket == None {
        return Failed;
      }
      sessions := sessions + [SessionRow(key.value, id, ticket.value)];
      var ok := PersistSessions(w);
      reply := if ok then NewKey(key.value, ticket.value) else Failed;
    }

    method GenerateSessionKey(draws: seq<string>) returns (key: Option<string>)
      ensures key == FreshKey(sessions, draws)
    {
      for i := 0 to |draws|
        invariant FreshKey(sessions, draws) == FreshKey(sessions, draws[i..])
      {
        if !KeyUsed(sessions, draws[i]) {
          return Some(draws[i]);
        }
      }
      return None;
    }

    method DeleteSession(key: string, w: Write) returns (reply: Reply)
      modifies this
      ensures Performs(EndSession(key), w, reply)
    {
      var filtered := [];
      for i := 0 to |sessions|
        invariant filtered == WithoutKey(sessions[..i], key)
      {
        assert sessions[..i + 1][..i] == sessions[..i];
        if sessions[i].session != key {
          filtered := filtered + [sessions[i]];
        }
      }
      assert sessions[..|sessions|] == sessions;
      sessions := filtered;
      var ok := PersistSessions(w);
      reply := if ok then Done else Failed;
    }

    method UpdateProfileNames(id: int, changes: Changes, w: Write) returns (reply: Reply)
      modifies this
      ensures Performs(UpdateProfile(id, changes), w, reply)
    {
      hide Renamed;
      hide RenameUser;
      hide Supported;
      var idx := 0;
      while idx < |users| && users[idx].profileID != id
        invariant 0 <= idx <= |users|
        invariant forall j :: 0 <= j < idx ==> users[j].profileID != id
      {
        idx := idx + 1;
      }
      if idx == |users| {
        RenameNobody(users, id, changes);
        return Failed;
      }
      RenameAt(users, id, changes, idx);
      var u, all := ApplyChanges(users[idx], changes);
      users := users[idx := u];
      if !all {
        return Failed;
      }
      if |changes| == 0 {
        return Done;
      }
      var ok := PersistUsers(w);
      reply := if ok then Done else Failed;
    }
  }

  /** Makes the changes up to the first that is not supported. */
  method ApplyChanges(old_: User, changes: Changes) returns (u: User, all: bool)
    ensures u == Renamed(old_, changes) && all == Supported(changes)
  {
    u := old_;
    for i := 0 to |changes|
      invariant Renamed(old_, changes) == Renamed(u, changes[i..])
      invariant Supported(changes[..i])
    {
      if changes[i].0 == "firstname" {
        u := u.(firstname := changes[i].1);
      } else if changes[i].0 == "lastname" {
        u := u.(lastname := changes[i].1);
      } else {
        return u, false;
      }
    }
    assert changes[..|changes|] == changes;
    return u, true;
  }

  // ---------- what the list operations do ----------

  lemma {:induction false} PutLoginAt(nas: seq<NasLogin>, row: NasLogin, k: nat)
    requires k < |nas| && nas[k].userID == row.userID
    requires forall j :: 0 <= j < k ==> nas[j].userID != row.userID
    ensures PutLogin(nas, row) == nas[k := row]
  {
    if k > 0 {
      PutLoginAt(nas[1..], row, k - 1);
    }
  }

  lemma {:induction false} PutLoginNew(nas: seq<NasLogin>, row: NasLogin)
    requires forall j :: 0 <= j < |nas| ==> nas[j].userID != row.userID
    ensures PutLogin(nas, row) == nas + [row]
  {
    if nas != [] {
      PutLoginNew(nas[1..], row);
    }
  }

  lemma {:induction false} RenameNobody(users: seq<User>, id: int, changes: Changes)
    requires forall j :: 0 <= j < |users| ==> users[j].profileID != id
    ensures RenameUser(users, id, changes) == users
  {
    if users != [] {
      RenameNobody(users[1..], id, changes);
    }
  }

  lemma {:induction false} RenameAt(users: seq<User>, id: int, changes: Changes, k: nat)
    requires k < |users| && users[k].profileID == id
    requires forall j :: 0 <= j < k ==> users[j].profileID != id
    ensures RenameUser(users, id, changes) == users[k := Renamed(users[k], changes)]
  {
    if k > 0 {
      RenameAt(users[1..], id, changes, k - 1);
    }
  }
}
