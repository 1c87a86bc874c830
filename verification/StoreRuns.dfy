/**
 What every run of the account store keeps: operations, failed writes, and crashes at any moment
 of a save, after which the store is opened again on the files it finds.
 */
module StoreRuns {
  import opened GoLib
  import opened Backend
  import opened Store

  // ---------- runs ----------

  /** A call runs to its end, or the process dies when the file to save was in its `at`-th state. */
  datatype Outcome = Completed(w: Write) | Crashed(at: nat)
  datatype Event = Event(op: Call, outcome: Outcome)
  datatype State = State(mem: Mem, disk: Disk)

  function FoundAfter<T>(f: File<T>, rows: seq<T>, at: nat): File<T> {
    if at < 4 then Moments(f, rows)[at] else Moments(f, rows)[3]
  }

  function DiskAtCrash(d: Disk, target: Target, m: Mem, at: nat): Disk {
    match target
    case NoFile => d
    case UsersFile => d.(users := FoundAfter(d.users, m.users, at))
    case SessionsFile => d.(sessions := FoundAfter(d.sessions, m.sessions, at))
    case NasFile => d.(nas := FoundAfter(d.nas, m.nas, at))
    case BannedFile => d.(banned := FoundAfter(d.banned, m.banned, at))
  }

  function Step(lib: Lib, st: State, e: Event): State {
    var m, target := Effect(lib, st.mem, e.op), TargetOf(st.mem, e.op);
    match e.outcome
    case Completed(w) => State(m, SavedTo(st.disk, target, m, w))
    case Crashed(at) =>
      var d := DiskAtCrash(st.disk, target, m, at);
      State(Loaded(d), d)
  }

  /** What the caller is told; nothing if the process died. */
  function Answer(lib: Lib, st: State, e: Event): Option<Reply> {
    match e.outcome
    case Completed(w) =>
      if TargetOf(st.mem, e.op) != NoFile && w != Written then Some(Failed) else Some(ReplyOf(lib, st.mem, e.op))
    case Crashed(_) => None
  }

  function Run(lib: Lib, st: State, events: seq<Event>): State {
    if events == [] then st
    else Step(lib, Run(lib, st, events[..|events| - 1]), events[|events| - 1])
  }

  const EMPTY_DISK: Disk := Disk(File(None, Absent), File(None, Absent), File(None, Absent), File(None, Absent))
  const START := State(Loaded(EMPTY_DISK), EMPTY_DISK)

  // ---------- what is kept ----------

  ghost predicate UsersOk(users: seq<User>) {
    && (forall i :: 0 <= i < |users| ==> 0 < users[i].profileID <= MAX_INT64)
    && (forall i, j :: 0 <= i < j < |users| ==> users[i].profileID != users[j].profileID)
    && (forall i, j :: 0 <= i < j < |users| ==>
          !(users[i].userID == users[j].userID && users[i].gsbrcd == users[j].gsbrcd))
  }

  ghost predicate NasOk(nas: seq<NasLogin>) {
    && (forall i, j :: 0 <= i < j < |nas| ==> nas[i].userID != nas[j].userID)
    && (forall i, j :: 0 <= i < j < |nas| ==> nas[i].authToken != nas[j].authToken)
  }

  ghost predicate SessionsOk(sessions: seq<SessionRow>) {
    && (forall i, j :: 0 <= i < j < |sessions| ==> sessions[i].profileID != sessions[j].profileID)
    && (forall i, j :: 0 <= i < j < |sessions| ==> sessions[i].session != sessions[j].session)
  }

  /** What is kept list by list. */
  ghost predicate ListsOk(m: Mem) {
    UsersOk(m.users) && NasOk(m.nas) && SessionsOk(m.sessions)
  }

  /** Every session belongs to a profile that exists. */
  ghost predicate Owned(m: Mem) {
    forall i :: 0 <= i < |m.sessions| ==> ProfileExists(m.users, m.sessions[i].profileID)
  }

  /** Who is who, in the order of creation. */
  function Identities(users: seq<User>): seq<(int, string, string)> {
    seq(|users|, i requires 0 <= i < |users| => (users[i].profileID, users[i].userID, users[i].gsbrcd))
  }

  // ---------- users ----------

  lemma {:induction false} MaxIDBounds(users: seq<User>)
    ensures MaxID(users) >= 0
    ensures forall i :: 0 <= i < |users| ==> users[i].profileID <= MaxID(users)
  {
    if users != [] {
      MaxIDBounds(users[..|users| - 1]);
    }
  }

  lemma {:induction false} FindUserMeaning(users: seq<User>, userid: string, gsbrcd: string)
    ensures var u := FindUser(users, userid, gsbrcd);
            && (u.None? <==> forall i :: 0 <= i < |users| ==> !(users[i].userID == userid && users[i].gsbrcd == gsbrcd))
            && (u.Some? ==> u.value in users && u.value.userID == userid && u.value.gsbrcd == gsbrcd)
  {
    if users != [] {
      FindUserMeaning(users[1..], userid, gsbrcd);
      assert users == [users[0]] + users[1..];
    }
  }

  /** A new user fits in exactly if the largest id is not the largest int64. */
  lemma NewUserFitsExactly(lib: Lib, users: seq<User>, data: Fields)
    requires UsersOk(users) && Acceptable(Some(data))
    requires FindUser(users, Get(data, "userid"), Get(data, "gsbrcd")).None?
    ensures UsersOk(users + [NewUser(lib, users, data)]) <==> MaxID(users) < MAX_INT64
  {
    hide FindUser;
    hide Acceptable;
    MaxIDBounds(users);
    MaxIDFits(users);
    FindUserMeaning(users, Get(data, "userid"), Get(data, "gsbrcd"));
    AppendedUser(users, NewUser(lib, users, data));
  }

  lemma AppendedUser(users: seq<User>, u: User)
    requires UsersOk(users)
    requires forall i :: 0 <= i < |users| ==> users[i].profileID < u.profileID || u.profileID < 0
    requires forall i :: 0 <= i < |users| ==> !(users[i].userID == u.userID && users[i].gsbrcd == u.gsbrcd)
    ensures UsersOk(users + [u]) <==> 0 < u.profileID <= MAX_INT64
  {
    var users' := users + [u];
    assert users'[|users|] == u;
  }

  lemma {:induction false} MaxIDFits(users: seq<User>)
    requires UsersOk(users)
    ensures MaxID(users) <= MAX_INT64
  {
    if users != [] {
      MaxIDFits(users[..|users| - 1]);
    }
  }

  lemma {:induction false} RenamedKeepsIdentity(u: User, changes: Changes)
    ensures var u' := Renamed(u, changes);
            u'.profileID == u.profileID && u'.userID == u.userID && u'.gsbrcd == u.gsbrcd && u'.enabled == u.enabled
    decreases |changes|
  {
    if changes != [] {
      RenamedKeepsIdentity(u.(firstname := changes[0].1), changes[1..]);
      RenamedKeepsIdentity(u.(lastname := changes[0].1), changes[1..]);
    }
  }

  lemma {:induction false} RenamingKeepsIdentities(users: seq<User>, id: int, changes: Changes)
    ensures Identities(RenameUser(users, id, changes)) == Identities(users)
  {
    if users != [] {
      RenamedKeepsIdentity(users[0], changes);
      RenamingKeepsIdentities(users[1..], id, changes);
      IdentitiesCons(users);
      IdentitiesCons(RenameUser(users, id, changes));
    }
  }

  lemma IdentitiesCons(users: seq<User>)
    requires users != []
    ensures Identities(users) == [(users[0].profileID, users[0].userID, users[0].gsbrcd)] + Identities(users[1..])
  {
  }

  /** What is kept about users depends on their identities alone. */
  lemma SameIdentities(users: seq<User>, users': seq<User>)
    requires Identities(users') == Identities(users)
    ensures UsersOk(users') == UsersOk(users)
    ensures forall id :: ProfileExists(users', id) == ProfileExists(users, id)
  {
    forall i | 0 <= i < |users|
      ensures users'[i].profileID == users[i].profileID && users'[i].userID == users[i].userID
              && users'[i].gsbrcd == users[i].gsbrcd
    {
      assert Identities(users')[i] == Identities(users)[i];
    }
  }

  // ---------- sessions ----------

  lemma {:induction false} WithoutProfileMeaning(sessions: seq<SessionRow>, id: int)
    ensures forall s :: s in WithoutProfile(sessions, id) <==> s in sessions && s.profileID != id
    ensures SessionsOk(sessions) ==> SessionsOk(WithoutProfile(sessions, id))
  {
    if sessions != [] {
      var n := |sessions| - 1;
      WithoutProfileMeaning(sessions[..n], id);
      assert sessions == sessions[..n] + [sessions[n]];
      if SessionsOk(sessions) && sessions[n].profileID != id {
        AppendedSession(WithoutProfile(sessions[..n], id), sessions[n]);
      }
    }
  }

  lemma {:induction false} WithoutKeyMeaning(sessions: seq<SessionRow>, key: string)
    ensures forall s :: s in WithoutKey(sessions, key) <==> s in sessions && s.session != key
    ensures SessionsOk(sessions) ==> SessionsOk(WithoutKey(sessions, key))
  {
    if sessions != [] {
      var n := |sessions| - 1;
      WithoutKeyMeaning(sessions[..n], key);
      assert sessions == sessions[..n] + [sessions[n]];
      if SessionsOk(sessions) && sessions[n].session != key {
        AppendedSession(WithoutKey(sessions[..n], key), sessions[n]);
      }
    }
  }

  lemma AppendedSession(sessions: seq<SessionRow>, row: SessionRow)
    requires SessionsOk(sessions)
    requires forall s :: s in sessions ==> s.profileID != row.profileID && s.session != row.session
    ensures SessionsOk(sessions + [row])
  {
  }

  lemma {:induction false} FreshKeyIsFresh(sessions: seq<SessionRow>, draws: seq<string>)
    ensures var key := FreshKey(sessions, draws);
            && (key.Some? ==> key.value in draws && forall s :: s in sessions ==> s.session != key.value)
            && (key.None? <==> forall d :: d in draws ==> KeyUsed(sessions, d))
  {
    if draws != [] {
      FreshKeyIsFresh(sessions, draws[1..]);
      assert draws == [draws[0]] + draws[1..];
      if !KeyUsed(sessions, draws[0]) {
        forall s | s in sessions
          ensures s.session != draws[0]
        {
          var i :| 0 <= i < |sessions| && sessions[i] == s;
        }
      }
    }
  }

  /** A login leaves the profile with exactly the new session, under a key nobody had. */
  lemma NewSessionMeaning(lib: Lib, m: Mem, id: int, draws: seq<string>, ticket: Option<string>)
    requires SessionsOk(m.sessions)
    ensures var op := NewSession(id, draws, ticket);
            var m', r := Effect(lib, m, op), ReplyOf(lib, m, op);
            && SessionsOk(m'.sessions)
            && (ProfileExists(m.users, id) ==>
                  forall s :: s in m'.sessions <==>
                    || (s in m.sessions && s.profileID != id)
                    || (r.NewKey? && s == SessionRow(r.key, id, r.ticket)))
            && (!ProfileExists(m.users, id) ==> m' == m && r == Failed)
            && (r.NewKey? ==> forall s :: s in m.sessions && s.profileID != id ==> s.session != r.key)
  {
    var rest := WithoutProfile(m.sessions, id);
    WithoutProfileMeaning(m.sessions, id);
    FreshKeyIsFresh(rest, draws);
    var key := FreshKey(rest, draws);
    if key.Some? && ticket.Some? {
      AppendedSession(rest, SessionRow(key.value, id, ticket.value));
    }
  }

  // ---------- NAS logins ----------

  lemma {:induction false} LoginDataMeaning(nas: seq<NasLogin>, token: string)
    ensures var d := LoginData(nas, token);
            && (d.None? <==> forall i :: 0 <= i < |nas| ==> nas[i].authToken != token)
            && (d.Some? ==> exists i :: 0 <= i < |nas| && nas[i].authToken == token && nas[i].data == d.value)
  {
    if nas != [] {
      LoginDataMeaning(nas[1..], token);
    }
  }

  lemma RowAnswers(nas: seq<NasLogin>, i: nat)
    requires NasOk(nas) && i < |nas|
    ensures LoginData(nas, nas[i].authToken) == Some(nas[i].data)
  {
    LoginDataMeaning(nas, nas[i].authToken);
  }

  /** The row that a login writes to. */
  lemma PutLoginMeaning(nas: seq<NasLogin>, row: NasLogin) returns (k: nat)
    requires NasOk(nas)
    ensures k <= |nas| && (k < |nas| ==> nas[k].userID == row.userID)
    ensures PutLogin(nas, row) == if k < |nas| then nas[k := row] else nas + [row]
    ensures forall j :: 0 <= j < |nas| && j != k ==> nas[j].userID != row.userID
  {
    k := 0;
    while k < |nas| && nas[k].userID != row.userID
      invariant k <= |nas| && forall j :: 0 <= j < k ==> nas[j].userID != row.userID
    {
      k := k + 1;
    }
    if k < |nas| {
      PutLoginAt(nas, row, k);
    } else {
      PutLoginNew(nas, row);
    }
  }

  lemma PutLoginKeepsNasOk(nas: seq<NasLogin>, row: NasLogin)
    requires NasOk(nas) && !TokenTaken(nas, row.userID, row.authToken)
    ensures NasOk(PutLogin(nas, row))
  {
    var k := PutLoginMeaning(nas, row);
  }

  /**
   After a login was stored its token gives the stored data, the user's earlier token gives
   nothing, and every other token gives what it gave.
   */
  lemma TokenGivesData(lib: Lib, m: Mem, userid: string, token: string, data: Fields, asked: string)
    requires NasOk(m.nas) && ReplyOf(lib, m, StoreNas(userid, token, data)) == Done
    ensures var nas' := Effect(lib, m, StoreNas(userid, token, data)).nas;
            LoginData(nas', asked) ==
            if asked == token then Some(StoredData(lib, data))
            else if exists i :: 0 <= i < |m.nas| && m.nas[i].userID == userid && m.nas[i].authToken == asked then None
            else LoginData(m.nas, asked)
  {
    var row := NasLogin(userid, token, StoredData(lib, data));
    var k := PutLoginMeaning(m.nas, row);
    PutLoginKeepsNasOk(m.nas, row);
    if asked == token {
      RowAnswers(PutLogin(m.nas, row), k);
    } else {
      OtherTokens(m.nas, row, k, asked);
    }
  }

  lemma OtherTokens(nas: seq<NasLogin>, row: NasLogin, k: nat, asked: string)
    requires k <= |nas| && (k < |nas| ==> nas[k].userID == row.userID) && asked != row.authToken
    requires forall j :: 0 <= j < |nas| && j != k ==> nas[j].userID != row.userID
    requires NasOk(nas) && NasOk(if k < |nas| then nas[k := row] else nas + [row])
    ensures LoginData(if k < |nas| then nas[k := row] else nas + [row], asked) ==
            if exists i :: 0 <= i < |nas| && nas[i].userID == row.userID && nas[i].authToken == asked then None
            else LoginData(nas, asked)
  {
    hide LoginData;
    var nas' := if k < |nas| then nas[k := row] else nas + [row];
    LoginDataMeaning(nas', asked);
    LoginDataMeaning(nas, asked);
    if i: nat :| i < |nas| && nas[i].authToken == asked && i != k {
      assert nas'[i] == nas[i];
      RowAnswers(nas, i);
      RowAnswers(nas', i);
    }
  }

  // ---------- one step ----------

  /** Not a new user when the profile ids have run out. */
  predicate IdLeft(m: Mem, op: Call) {
    IsNewUser(m, op) ==> MaxID(m.users) < MAX_INT64
  }

  lemma EffectKeepsLists(lib: Lib, m: Mem, op: Call)
    requires ListsOk(m) && IdLeft(m, op)
    ensures ListsOk(Effect(lib, m, op))
  {
    hide UsersOk;
    hide NasOk;
    hide SessionsOk;
    match op
    case StoreNas(userid, token, data) =>
      if !TokenTaken(m.nas, userid, token) {
        PutLoginKeepsNasOk(m.nas, NasLogin(userid, token, StoredData(lib, data)));
      }
    case Login(auth) =>
      if IsNewUser(m, op) {
        NewUserFitsExactly(lib, m.users, auth.value);
      }
    case NewSession(id, draws, ticket) =>
      NewSessionMeaning(lib, m, id, draws, ticket);
    case EndSession(key) =>
      WithoutKeyMeaning(m.sessions, key);
    case UpdateProfile(id, changes) =>
      RenamingKeepsIdentities(m.users, id, changes);
      SameIdentities(m.users, RenameUser(m.users, id, changes));
    case Flush(_) =>
  }

  /** Users are only ever added. */
  lemma UsersGrow(lib: Lib, m: Mem, op: Call)
    ensures Identities(m.users) <= Identities(Effect(lib, m, op).users)
    ensures !IsNewUser(m, op) ==> Identities(Effect(lib, m, op).users) == Identities(m.users)
  {
    match op
    case Login(auth) =>
      if IsNewUser(m, op) {
        var users' := Effect(lib, m, op).users;
        assert Identities(users')[..|m.users|] == Identities(m.users);
      }
    case UpdateProfile(id, changes) => RenamingKeepsIdentities(m.users, id, changes);
    case _ =>
  }

  lemma MoreProfiles(users: seq<User>, users': seq<User>, id: int)
    requires Identities(users) <= Identities(users') && ProfileExists(users, id)
    ensures ProfileExists(users', id)
  {
    var i :| 0 <= i < |users| && users[i].profileID == id;
    assert Identities(users')[i] == Identities(users)[i];
  }

  lemma EffectKeepsOwners(lib: Lib, m: Mem, op: Call)
    requires SessionsOk(m.sessions) && Owned(m)
    ensures Owned(Effect(lib, m, op))
  {
    hide SessionsOk;
    hide ProfileExists;
    var m' := Effect(lib, m, op);
    UsersGrow(lib, m, op);
    if op.NewSession? {
      NewSessionMeaning(lib, m, op.profileID, op.draws, op.ticket);
    } else if op.EndSession? {
      WithoutKeyMeaning(m.sessions, op.key);
    }
    forall i | 0 <= i < |m'.sessions|
      ensures ProfileExists(m'.users, m'.sessions[i].profileID)
    {
      var s := m'.sessions[i];
      assert s in m'.sessions;
      if s in m.sessions {
        MoreProfiles(m.users, m'.users, s.profileID);
      }
    }
  }

  // ---------- files after a step ----------

  /** The new rows got to the file. */
  predicate Reached(o: Outcome) {
    match o
    case Completed(w) => w == Written
    case Crashed(at) => at >= 3
  }

  /** What a restart after the step reads: the saved list if it got to its file, the others as before. */
  lemma FilesAfterStep(lib: Lib, st: State, e: Event)
    ensures var m, was, now := Effect(lib, st.mem, e.op), Loaded(st.disk), Loaded(Step(lib, st, e).disk);
            var target := if Reached(e.outcome) then TargetOf(st.mem, e.op) else NoFile;
            && now.users == (if target == UsersFile then m.users else was.users)
            && now.sessions == (if target == SessionsFile then m.sessions else was.sessions)
            && now.nas == (if target == NasFile then m.nas else was.nas)
            && now.banned == (if target == BannedFile then m.banned else was.banned)
    ensures Step(lib, st, e).mem == if e.outcome.Crashed? then Loaded(Step(lib, st, e).disk) else Effect(lib, st.mem, e.op)
  {
    hide Effect;
    hide TargetOf;
  }

  /**
   A crash leaves the list that was being saved as its file was before the call or as the call made
   it, and the others as their files were; nothing in between.
   */
  lemma CrashIsAllOrNothing(lib: Lib, st: State, op: Call, at: nat)
    ensures var m, was, made := Step(lib, st, Event(op, Crashed(at))).mem, Loaded(st.disk), Effect(lib, st.mem, op);
            var target := if at >= 3 then TargetOf(st.mem, op) else NoFile;
            && m.users == (if target == UsersFile then made.users else was.users)
            && m.sessions == (if target == SessionsFile then made.sessions else was.sessions)
            && m.nas == (if target == NasFile then made.nas else was.nas)
            && m.banned == (if target == BannedFile then made.banned else was.banned)
    ensures Loaded(st.disk) == st.mem ==>
              Step(lib, st, Event(op, Crashed(at))).mem ==
              if at >= 3 && TargetOf(st.mem, op) != NoFile then Effect(lib, st.mem, op) else st.mem
  {
    FilesAfterStep(lib, st, Event(op, Crashed(at)));
  }

  /** Success is only reported when a restart would find the list as the call left it. */
  lemma AcknowledgedIsDurable(lib: Lib, st: State, e: Event)
    requires Answer(lib, st, e).Some? && Answer(lib, st, e) != Some(Failed)
    ensures var st' := Step(lib, st, e);
            var now := Loaded(st'.disk);
            match TargetOf(st.mem, e.op)
            case NoFile => st'.mem == st.mem
            case UsersFile => now.users == st'.mem.users
            case SessionsFile => now.sessions == st'.mem.sessions
            case NasFile => now.nas == st'.mem.nas
            case BannedFile => now.banned == st'.mem.banned
  {
    FilesAfterStep(lib, st, e);
    if e.op.UpdateProfile? && e.op.changes == [] {
      RenameByNothing(st.mem.users, e.op.id);
    }
  }

  lemma {:induction false} RenameByNothing(users: seq<User>, id: int)
    ensures RenameUser(users, id, []) == users
  {
    if users != [] {
      RenameByNothing(users[1..], id);
    }
  }

  // ---------- whole runs ----------

  ghost predicate AllListsOk(st: State) {
    ListsOk(st.mem) && ListsOk(Loaded(st.disk))
  }

  ghost predicate AllIdsLeft(lib: Lib, st: State, events: seq<Event>) {
    forall k :: 0 <= k < |events| ==> IdLeft(Run(lib, st, events[..k]).mem, events[k].op)
  }

  lemma StepKeepsLists(lib: Lib, st: State, e: Event)
    requires AllListsOk(st) && IdLeft(st.mem, e.op)
    ensures AllListsOk(Step(lib, st, e))
  {
    hide Step;
    hide Effect;
    EffectKeepsLists(lib, st.mem, e.op);
    FilesAfterStep(lib, st, e);
  }

  /** Whatever fails and wherever it crashes: what is kept list by list stays so, in memory and on disk. */
  lemma {:induction false} ListsSurviveAnything(lib: Lib, st: State, events: seq<Event>)
    requires AllListsOk(st) && AllIdsLeft(lib, st, events)
    ensures AllListsOk(Run(lib, st, events))
  {
    hide AllListsOk;
    hide IdLeft;
    if events != [] {
      var n := |events| - 1;
      IdsLeftBefore(lib, st, events, n);
      ListsSurviveAnything(lib, st, events[..n]);
      StepKeepsLists(lib, Run(lib, st, events[..n]), events[n]);
    }
  }

  lemma IdsLeftBefore(lib: Lib, st: State, events: seq<Event>, n: nat)
    requires AllIdsLeft(lib, st, events) && n <= |events|
    ensures AllIdsLeft(lib, st, events[..n])
  {
    hide Run;
    hide IdLeft;
    forall k | 0 <= k < n
      ensures IdLeft(Run(lib, st, events[..n][..k]).mem, events[..n][k].op)
    {
      assert events[..n][..k] == events[..k];
    }
  }

  /** Not a login of a new user whose save failed, or for whom no id was left. */
  predicate NewUserSaved(st: State, e: Event) {
    IdLeft(st.mem, e.op) && (e.outcome.Completed? && IsNewUser(st.mem, e.op) ==> e.outcome.w == Written)
  }

  ghost predicate AllSaved(lib: Lib, st: State, events: seq<Event>) {
    forall k :: 0 <= k < |events| ==> NewUserSaved(Run(lib, st, events[..k]), events[k])
  }

  /** Everything that is kept while no save of a new user fails. */
  ghost predicate Good(st: State) {
    && AllListsOk(st) && Owned(st.mem) && Owned(Loaded(st.disk))
    && Identities(Loaded(st.disk).users) == Identities(st.mem.users)
  }

  lemma StepStaysGood(lib: Lib, st: State, e: Event)
    requires Good(st) && NewUserSaved(st, e)
    ensures Good(Step(lib, st, e))
    ensures Identities(st.mem.users) <= Identities(Step(lib, st, e).mem.users)
  {
    hide ListsOk;
    hide Effect;
    hide Step;
    hide Owned;
    hide Loaded;
    hide TargetOf;
    var m, was, now := Effect(lib, st.mem, e.op), Loaded(st.disk), Loaded(Step(lib, st, e).disk);
    StepKeepsLists(lib, st, e);
    EffectKeepsOwnersOk(lib, st.mem, e.op);
    UsersGrow(lib, st.mem, e.op);
    FilesAfterStep(lib, st, e);
    NewUserTargetsFile(st.mem, e.op);
    OwnedByMore(was, now);
    OwnedByMore(m, now);
    if now.sessions == was.sessions {
    } else {
      assert now.sessions == m.sessions;
      SessionCallKeepsUsers(lib, st.mem, e.op);
    }
  }

  lemma EffectKeepsOwnersOk(lib: Lib, m: Mem, op: Call)
    requires ListsOk(m) && Owned(m)
    ensures Owned(Effect(lib, m, op))
  {
    EffectKeepsOwners(lib, m, op);
  }

  lemma NewUserTargetsFile(m: Mem, op: Call)
    ensures IsNewUser(m, op) ==> TargetOf(m, op) == UsersFile
  {
  }

  lemma SessionCallKeepsUsers(lib: Lib, m: Mem, op: Call)
    ensures TargetOf(m, op) == SessionsFile ==> Effect(lib, m, op).users == m.users
  {
  }

  lemma OwnedByMore(m: Mem, m': Mem)
    requires Owned(m)
    ensures m'.sessions == m.sessions && Identities(m.users) <= Identities(m'.users) ==> Owned(m')
  {
    hide ProfileExists;
    if m'.sessions == m.sessions && Identities(m.users) <= Identities(m'.users) {
      forall i | 0 <= i < |m'.sessions|
        ensures ProfileExists(m'.users, m'.sessions[i].profileID)
      {
        MoreProfiles(m.users, m'.users, m.sessions[i].profileID);
      }
    }
  }

  /** Everything is kept over a run in which no save of a new user fails. */
  lemma {:induction false} RunStaysGood(lib: Lib, st: State, events: seq<Event>)
    requires Good(st) && AllSaved(lib, st, events)
    ensures Good(Run(lib, st, events))
  {
    if events != [] {
      var n := |events| - 1;
      SavedBefore(lib, st, events, n);
      RunStaysGood(lib, st, events[..n]);
      StepStaysGood(lib, Run(lib, st, events[..n]), events[n]);
    }
  }

  lemma SavedBefore(lib: Lib, st: State, events: seq<Event>, n: nat)
    requires AllSaved(lib, st, events) && n <= |events|
    ensures AllSaved(lib, st, events[..n])
  {
    hide Run;
    forall k | 0 <= k < n
      ensures NewUserSaved(Run(lib, st, events[..n][..k]), events[..n][k])
    {
      assert events[..n][..k] == events[..k];
    }
  }

  lemma StartIsGood()
    ensures Good(START)
  {
  }

  // ---------- how long the ids last ----------

  lemma MaxIDStep(lib: Lib, m: Mem, op: Call)
    ensures MaxID(Effect(lib, m, op).users) <= MaxID(m.users) + 1
  {
    MaxIDBounds(m.users);
    if IsNewUser(m, op) {
      var users' := Effect(lib, m, op).users;
      assert users'[..|users'| - 1] == m.users;
    } else {
      UsersGrow(lib, m, op);
      SameMaxID(m.users, Effect(lib, m, op).users);
    }
  }

  lemma {:induction false} IdsGrowSlowly(lib: Lib, events: seq<Event>)
    ensures MaxID(Run(lib, START, events).mem.users) <= |events|
    ensures MaxID(Loaded(Run(lib, START, events).disk).users) <= |events|
  {
    hide Effect;
    hide Step;
    hide MaxID;
    if events == [] {
      NoIdsAtStart();
    } else {
      var n := |events| - 1;
      var before := Run(lib, START, events[..n]);
      IdsGrowSlowly(lib, events[..n]);
      MaxIDStep(lib, before.mem, events[n].op);
      FilesAfterStep(lib, before, events[n]);
    }
  }

  lemma NoIdsAtStart()
    ensures MaxID(START.mem.users) == 0 && MaxID(Loaded(START.disk).users) == 0
  {
  }

  /** From an empty directory the ids last for 2^63 - 1 calls, and all is kept that long whatever happens. */
  lemma EmptyStoreSurvives(lib: Lib, events: seq<Event>)
    requires |events| <= MAX_INT64
    ensures AllIdsLeft(lib, START, events) && AllListsOk(Run(lib, START, events))
  {
    hide Run;
    hide MaxID;
    forall k | 0 <= k < |events|
      ensures IdLeft(Run(lib, START, events[..k]).mem, events[k].op)
    {
      IdsGrowSlowly(lib, events[..k]);
    }
    StartIsGood();
    ListsSurviveAnything(lib, START, events);
  }

  /** Users keep their place, number and names for ever. */
  lemma {:induction false} IdentitiesStay(lib: Lib, st: State, events: seq<Event>, n: nat)
    requires Good(st) && AllSaved(lib, st, events) && n <= |events|
    ensures Identities(Run(lib, st, events[..n]).mem.users) <= Identities(Run(lib, st, events).mem.users)
  {
    if n == |events| {
      assert events[..n] == events;
    } else {
      var last := |events| - 1;
      SavedBefore(lib, st, events, last);
      IdentitiesStay(lib, st, events[..last], n);
      assert events[..last][..n] == events[..n];
      RunStaysGood(lib, st, events[..last]);
      StepStaysGood(lib, Run(lib, st, events[..last]), events[last]);
    }
  }

  /** A successful login names a user that is in the list afterwards. */
  lemma LoginNamesUser(lib: Lib, st: State, e: Event)
    requires var a := Answer(lib, st, e); a.Some? && a.value.LoggedIn?
    ensures var r := Answer(lib, st, e).value;
            (r.profileID, r.userid, r.gsbrcd) in Identities(Step(lib, st, e).mem.users)
  {
    var users, r := st.mem.users, Answer(lib, st, e).value;
    var users' := Step(lib, st, e).mem.users;
    FindUserMeaning(users, r.userid, r.gsbrcd);
    if IsNewUser(st.mem, e.op) {
      assert Identities(users')[|users|] == (r.profileID, r.userid, r.gsbrcd);
    } else {
      var u := FindUser(users, r.userid, r.gsbrcd).value;
      var i :| 0 <= i < |users| && users[i] == u;
      assert Identities(users')[i] == (r.profileID, r.userid, r.gsbrcd);
    }
  }

  lemma LoginStays(lib: Lib, st: State, events: seq<Event>, n: nat)
    requires Good(st) && AllSaved(lib, st, events) && n < |events|
    requires var a := Answer(lib, Run(lib, st, events[..n]), events[n]); a.Some? && a.value.LoggedIn?
    ensures var r := Answer(lib, Run(lib, st, events[..n]), events[n]).value;
            (r.profileID, r.userid, r.gsbrcd) in Identities(Run(lib, st, events).mem.users)
  {
    hide Step;
    hide Answer;
    LoginNamesUser(lib, Run(lib, st, events[..n]), events[n]);
    assert events[..n + 1][..n] == events[..n];
    IdentitiesStay(lib, st, events, n + 1);
  }

  lemma IdentitiesDistinct(users: seq<User>, a: (int, string, string), b: (int, string, string))
    requires UsersOk(users) && a in Identities(users) && b in Identities(users)
    ensures a.0 > 0 && (a.0 == b.0 <==> a.1 == b.1 && a.2 == b.2)
  {
    var i :| 0 <= i < |users| && Identities(users)[i] == a;
    var j :| 0 <= j < |users| && Identities(users)[j] == b;
  }

  /**
   Over a whole run, with crashes, any two successful logins are told the same profile id exactly
   if they are for the same user id and game code.
   */
  lemma ProfileForLife(lib: Lib, st: State, events: seq<Event>, i: nat, j: nat)
    requires Good(st) && AllSaved(lib, st, events) && i < |events| && j < |events|
    requires var a := Answer(lib, Run(lib, st, events[..i]), events[i]); a.Some? && a.value.LoggedIn?
    requires var b := Answer(lib, Run(lib, st, events[..j]), events[j]); b.Some? && b.value.LoggedIn?
    ensures var a := Answer(lib, Run(lib, st, events[..i]), events[i]).value;
            var b := Answer(lib, Run(lib, st, events[..j]), events[j]).value;
            a.profileID > 0 && (a.profileID == b.profileID <==> a.userid == b.userid && a.gsbrcd == b.gsbrcd)
  {
    hide Answer;
    hide Run;
    LoginStays(lib, st, events, i);
    LoginStays(lib, st, events, j);
    RunStaysGood(lib, st, events);
    var a := Answer(lib, Run(lib, st, events[..i]), events[i]).value;
    var b := Answer(lib, Run(lib, st, events[..j]), events[j]).value;
    IdentitiesDistinct(Run(lib, st, events).mem.users,
                       (a.profileID, a.userid, a.gsbrcd), (b.profileID, b.userid, b.gsbrcd));
  }

  // ---------- when a save of a new user fails ----------

  /** A session is opened and saved, and then the process dies. */
  function OpenedThenCrashed(lib: Lib, st: State, id: int, draws: seq<string>, ticket: Option<string>): Mem {
    Loaded(Step(lib, st, Event(NewSession(id, draws, ticket), Completed(Written))).disk)
  }

  function LongKey(sessions: seq<SessionRow>): string {
    if sessions == [] then "0" else LongKey(sessions[1..]) + sessions[0].session
  }

  lemma {:induction false} LongKeyIsFresh(sessions: seq<SessionRow>)
    ensures LongKey(sessions) != ""
    ensures forall i :: 0 <= i < |sessions| ==> |sessions[i].session| < |LongKey(sessions)|
  {
    if sessions != [] {
      LongKeyIsFresh(sessions[1..]);
    }
  }

  /** Every opened session has an owner after a crash exactly if every profile is in its file. */
  lemma OwnersSurviveExactly(lib: Lib, st: State)
    requires AllListsOk(st) && Owned(st.mem) && Owned(Loaded(st.disk))
    ensures (forall id, draws, ticket :: Owned(OpenedThenCrashed(lib, st, id, draws, ticket))) <==>
            (forall id :: ProfileExists(st.mem.users, id) ==> ProfileExists(Loaded(st.disk).users, id))
  {
    hide ProfileExists;
    if forall id :: ProfileExists(st.mem.users, id) ==> ProfileExists(Loaded(st.disk).users, id) {
      forall id, draws, ticket
        ensures Owned(OpenedThenCrashed(lib, st, id, draws, ticket))
      {
        OwnedWhenSaved(lib, st, id, draws, ticket);
      }
    }
    forall id | ProfileExists(st.mem.users, id) && !ProfileExists(Loaded(st.disk).users, id)
      ensures !Owned(OpenedThenCrashed(lib, st, id, [LongKey(st.mem.sessions)], Some("")))
    {
      UnownedWhenNot(lib, st, id);
    }
  }

  lemma OwnedWhenSaved(lib: Lib, st: State, id: int, draws: seq<string>, ticket: Option<string>)
    requires AllListsOk(st) && Owned(st.mem) && Owned(Loaded(st.disk))
    requires forall id :: ProfileExists(st.mem.users, id) ==> ProfileExists(Loaded(st.disk).users, id)
    ensures Owned(OpenedThenCrashed(lib, st, id, draws, ticket))
  {
    hide ProfileExists;
    hide Effect;
    var op := NewSession(id, draws, ticket);
    FilesAfterStep(lib, st, Event(op, Completed(Written)));
    EffectKeepsOwnersOk(lib, st.mem, op);
    SessionCallKeepsUsers(lib, st.mem, op);
  }

  lemma LongKeyUnused(sessions: seq<SessionRow>, id: int)
    ensures FreshKey(WithoutProfile(sessions, id), [LongKey(sessions)]) == Some(LongKey(sessions))
  {
    hide LongKey;
    hide WithoutProfile;
    var rest := WithoutProfile(sessions, id);
    LongKeyIsFresh(sessions);
    WithoutProfileMeaning(sessions, id);
    forall i | 0 <= i < |rest|
      ensures rest[i].session != LongKey(sessions)
    {
      assert rest[i] in sessions;
    }
  }

  lemma UnownedWhenNot(lib: Lib, st: State, id: int)
    requires AllListsOk(st)
    requires ProfileExists(st.mem.users, id) && !ProfileExists(Loaded(st.disk).users, id)
    ensures !Owned(OpenedThenCrashed(lib, st, id, [LongKey(st.mem.sessions)], Some("")))
  {
    hide ProfileExists;
    hide WithoutProfile;
    var key := LongKey(st.mem.sessions);
    var rest := WithoutProfile(st.mem.sessions, id);
    LongKeyUnused(st.mem.sessions, id);
    var op := NewSession(id, [key], Some(""));
    FilesAfterStep(lib, st, Event(op, Completed(Written)));
    var sessions := OpenedThenCrashed(lib, st, id, [key], Some("")).sessions;
    assert sessions[|sessions| - 1].profileID == id;
  }

  /**
   When a new user logs in, a session can be left without its owner by a later crash exactly if
   the save of that login failed.
   */
  lemma FailedSaveLosesOwners(lib: Lib, st: State, e: Event)
    requires Good(st) && IsNewUser(st.mem, e.op) && IdLeft(st.mem, e.op)
    ensures (forall id, draws, ticket :: Owned(OpenedThenCrashed(lib, Step(lib, st, e), id, draws, ticket))) <==>
            !(e.outcome.Completed? && e.outcome.w != Written)
  {
    hide Good;
    hide Owned;
    hide ProfileExists;
    var st' := Step(lib, st, e);
    GoodSaysOwned(lib, st, e);
    OwnersSurviveExactly(lib, st');
    if e.outcome.Completed? && e.outcome.w != Written {
      NewUserOnlyInMemory(lib, st, e);
    } else {
      StepStaysGood(lib, st, e);
      GoodSaysSame(st');
    }
  }

  lemma GoodSaysSame(st: State)
    requires Good(st)
    ensures forall id :: ProfileExists(st.mem.users, id) ==> ProfileExists(Loaded(st.disk).users, id)
  {
    SameIdentities(st.mem.users, Loaded(st.disk).users);
  }

  lemma GoodSaysOwned(lib: Lib, st: State, e: Event)
    requires Good(st) && IsNewUser(st.mem, e.op) && IdLeft(st.mem, e.op)
    ensures var st' := Step(lib, st, e); AllListsOk(st') && Owned(st'.mem) && Owned(Loaded(st'.disk))
  {
    hide ListsOk;
    StepKeepsLists(lib, st, e);
    if NewUserSaved(st, e) {
      StepStaysGood(lib, st, e);
    } else {
      EffectKeepsOwnersOk(lib, st.mem, e.op);
      FilesAfterStep(lib, st, e);
    }
  }

  lemma NewUserOnlyInMemory(lib: Lib, st: State, e: Event)
    requires Good(st) && IsNewUser(st.mem, e.op) && IdLeft(st.mem, e.op) && e.outcome.Completed? && e.outcome.w != Written
    ensures var st', id := Step(lib, st, e), MaxID(st.mem.users) + 1;
            ProfileExists(st'.mem.users, id) && !ProfileExists(Loaded(st'.disk).users, id)
  {
    var st', id := Step(lib, st, e), NextID(st.mem.users);
    assert st'.mem.users[|st.mem.users|].profileID == id;
    FilesAfterStep(lib, st, e);
    MaxIDBounds(st.mem.users);
    SameIdentities(st.mem.users, Loaded(st.disk).users);
    assert !ProfileExists(st.mem.users, id);
  }

  lemma {:induction false} SameMaxID(users: seq<User>, users': seq<User>)
    requires Identities(users') == Identities(users)
    ensures MaxID(users') == MaxID(users)
  {
    assert |users'| == |Identities(users')| == |users|;
    if users != [] {
      var n := |users| - 1;
      assert Identities(users')[n] == Identities(users)[n];
      assert Identities(users'[..n]) == Identities(users')[..n];
      assert Identities(users[..n]) == Identities(users)[..n];
      SameMaxID(users[..n], users'[..n]);
    }
  }

  /**
   ... and its profile id goes to someone else: the next attempt succeeds from memory, and after a
   restart the same id is given to the next new user.
   */
  lemma UnsavedIdIsReused(lib: Lib, st: State, a: Fields, b: Fields, w: Write)
    requires Good(st) && w != Written
    requires IsNewUser(st.mem, Login(Some(a))) && IsNewUser(st.mem, Login(Some(b)))
    ensures var retry, other := Event(Login(Some(a)), Completed(Written)), Event(Login(Some(b)), Completed(Written));
            var st1 := Step(lib, st, Event(Login(Some(a)), Completed(w)));
            var st2 := State(Loaded(st1.disk), st1.disk);
            && Answer(lib, st, Event(Login(Some(a)), Completed(w))) == Some(Failed)
            && Answer(lib, st1, retry)
               == Some(LoggedIn(Get(a, "userid"), NextID(st.mem.users), Get(a, "gsbrcd"), NickOf(a)))
            && Answer(lib, st2, other)
               == Some(LoggedIn(Get(b, "userid"), NextID(st.mem.users), Get(b, "gsbrcd"), NickOf(b)))
  {
    hide MaxID;
    hide ListsOk;
    hide Owned;
    hide Acceptable;
    hide ParseInt64;
    var users, users' := st.mem.users, Loaded(st.disk).users;
    FindInLonger(users, NewUser(lib, users, a));
    FilesAfterStep(lib, st, Event(Login(Some(a)), Completed(w)));
    SameMaxID(users, users');
    FindUserMeaning(users, Get(b, "userid"), Get(b, "gsbrcd"));
    FindUserMeaning(users', Get(b, "userid"), Get(b, "gsbrcd"));
    SameNames(users, users');
  }

  lemma {:induction false} FindInLonger(users: seq<User>, u: User)
    requires FindUser(users, u.userID, u.gsbrcd).None?
    ensures FindUser(users + [u], u.userID, u.gsbrcd) == Some(u)
  {
    if users != [] {
      assert (users + [u])[1..] == users[1..] + [u];
      FindInLonger(users[1..], u);
    }
  }

  lemma SameNames(users: seq<User>, users': seq<User>)
    requires Identities(users') == Identities(users)
    ensures |users'| == |users|
    ensures forall i :: 0 <= i < |users| ==> users'[i].userID == users[i].userID && users'[i].gsbrcd == users[i].gsbrcd
  {
    assert |users'| == |Identities(users')| == |users|;
    forall i | 0 <= i < |users|
      ensures users'[i].userID == users[i].userID && users'[i].gsbrcd == users[i].gsbrcd
    {
      assert Identities(users')[i] == Identities(users)[i];
    }
  }
}
