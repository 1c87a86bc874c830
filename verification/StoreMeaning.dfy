/**
 What the calls of the account store do, told row by row: which rows are there afterwards and in
 what order, what a new row says, what the caller is told, and what a restart would find.
 */
module StoreMeaning {
  import opened GoLib
  import opened Backend
  import opened Store
  import opened StoreRuns

  // ---------- rows that go and rows that stay ----------

  /** Which sessions a call ends. */
  datatype Ended = OfKey(key: string) | OfProfile(id: int)

  predicate Ends(gone: Ended, row: SessionRow) {
    match gone
    case OfKey(key) => row.session == key
    case OfProfile(id) => row.profileID == id
  }

  /** `t` is what is left of `s`, in its order, without the rows that are `gone`; `at` says where they stood. */
  ghost predicate StoodAt(at: seq<int>, s: seq<SessionRow>, t: seq<SessionRow>, gone: Ended) {
    && |at| == |t|
    && (forall j :: 0 <= j < |at| ==> 0 <= at[j] < |s| && t[j] == s[at[j]] && !Ends(gone, s[at[j]]))
    && (forall j, k :: 0 <= j < k < |at| ==> at[j] < at[k])
    && (forall k: nat :: k < |s| && !Ends(gone, s[k]) ==> k in at)
  }

  ghost predicate LeftOf(s: seq<SessionRow>, t: seq<SessionRow>, gone: Ended) {
    exists at: seq<int> :: StoodAt(at, s, t, gone)
  }

  lemma LeftOfEmpty(gone: Ended)
    ensures LeftOf([], [], gone)
  {
    assert StoodAt([], [], [], gone);
  }

  lemma LeftOfMore(s: seq<SessionRow>, t: seq<SessionRow>, row: SessionRow, gone: Ended)
    requires LeftOf(s, t, gone)
    ensures LeftOf(s + [row], if Ends(gone, row) then t else t + [row], gone)
  {
    var at :| StoodAt(at, s, t, gone);
    if Ends(gone, row) {
      assert StoodAt(at, s + [row], t, gone);
    } else {
      StoodAtMore(at, s, t, row, gone);
    }
  }

  lemma StoodAtMore(at: seq<int>, s: seq<SessionRow>, t: seq<SessionRow>, row: SessionRow, gone: Ended)
    requires StoodAt(at, s, t, gone) && !Ends(gone, row)
    ensures StoodAt(at + [|s|], s + [row], t + [row], gone)
  {
    hide Ends;
    var s', t', at' := s + [row], t + [row], at + [|s|];
    forall j | 0 <= j < |at'|
      ensures 0 <= at'[j] < |s'| && t'[j] == s'[at'[j]] && !Ends(gone, s'[at'[j]])
    {
      assert j < |at| ==> at'[j] == at[j] && t'[j] == t[j] && s'[at[j]] == s[at[j]];
    }
    forall k: nat | k < |s'| && !Ends(gone, s'[k])
      ensures k in at'
    {
      if k < |s| {
        assert s'[k] == s[k] && k in at;
      }
    }
  }

  lemma {:induction false} LeftWithoutKey(s: seq<SessionRow>, key: string)
    ensures LeftOf(s, WithoutKey(s, key), OfKey(key))
  {
    hide LeftOf;
    var gone := OfKey(key);
    if s == [] {
      LeftOfEmpty(gone);
    } else {
      var n := |s| - 1;
      LeftWithoutKey(s[..n], key);
      assert s == s[..n] + [s[n]];
      LeftOfMore(s[..n], WithoutKey(s[..n], key), s[n], gone);
      assert WithoutKey(s, key) == if Ends(gone, s[n]) then WithoutKey(s[..n], key) else WithoutKey(s[..n], key) + [s[n]];
    }
  }

  lemma {:induction false} LeftWithoutProfile(s: seq<SessionRow>, id: int)
    ensures LeftOf(s, WithoutProfile(s, id), OfProfile(id))
  {
    hide LeftOf;
    var gone := OfProfile(id);
    if s == [] {
      LeftOfEmpty(gone);
    } else {
      var n := |s| - 1;
      LeftWithoutProfile(s[..n], id);
      assert s == s[..n] + [s[n]];
      LeftOfMore(s[..n], WithoutProfile(s[..n], id), s[n], gone);
      assert WithoutProfile(s, id) ==
             if Ends(gone, s[n]) then WithoutProfile(s[..n], id) else WithoutProfile(s[..n], id) + [s[n]];
    }
  }

  // ---------- sessions ----------

  /** A restart finds the new list if the save got through, and the old files if not. */
  ghost predicate SessionsSaved(st: State, st': State, w: Write) {
    Loaded(st'.disk) == if w == Written then Loaded(st.disk).(sessions := st'.mem.sessions) else Loaded(st.disk)
  }

  /**
   Ending a session takes exactly the rows with its key out of memory and leaves the rest in order;
   the caller is told so exactly if a restart would no longer find the key.
   */
  lemma SessionEnds(lib: Lib, st: State, key: string, w: Write)
    ensures var e := Event(EndSession(key), Completed(w));
            var st', answer := Step(lib, st, e), Answer(lib, st, e);
            && LeftOf(st.mem.sessions, st'.mem.sessions, OfKey(key))
            && (forall row :: row in st'.mem.sessions <==> row in st.mem.sessions && row.session != key)
            && st'.mem == st.mem.(sessions := st'.mem.sessions)
            && SessionsSaved(st, st', w)
            && answer == Some(if w == Written then Done else Failed)
            && (answer == Some(Done) ==> forall row :: row in Loaded(st'.disk).sessions ==> row.session != key)
  {
    hide LeftOf;
    LeftWithoutKey(st.mem.sessions, key);
    WithoutKeyMeaning(st.mem.sessions, key);
  }

  /** A session of another profile has the key. */
  ghost predicate TakenByOther(sessions: seq<SessionRow>, id: int, key: string) {
    exists row :: row in sessions && row.profileID != id && row.session == key
  }

  /** The first draw that no session of another profile has as its key. */
  ghost predicate IsFirstFree(sessions: seq<SessionRow>, id: int, draws: seq<string>, k: nat) {
    && k < |draws| && !TakenByOther(sessions, id, draws[k])
    && forall j :: 0 <= j < k ==> TakenByOther(sessions, id, draws[j])
  }

  /** A draw can be used and the ticket is there. */
  ghost predicate CanOpen(sessions: seq<SessionRow>, id: int, draws: seq<string>, ticket: Option<string>) {
    ticket.Some? && exists d :: d in draws && !TakenByOther(sessions, id, d)
  }

  lemma UsedByOthers(sessions: seq<SessionRow>, id: int, key: string)
    ensures KeyUsed(WithoutProfile(sessions, id), key) <==> TakenByOther(sessions, id, key)
  {
    var rest := WithoutProfile(sessions, id);
    WithoutProfileMeaning(sessions, id);
    if KeyUsed(rest, key) {
      var i :| 0 <= i < |rest| && rest[i].session == key;
      assert rest[i] in sessions;
    }
    if TakenByOther(sessions, id, key) {
      var row :| row in sessions && row.profileID != id && row.session == key;
      assert row in rest;
    }
  }

  lemma {:induction false} FreshIsFirst(sessions: seq<SessionRow>, id: int, draws: seq<string>) returns (k: nat)
    ensures var key := FreshKey(WithoutProfile(sessions, id), draws);
            && (key.Some? ==> IsFirstFree(sessions, id, draws, k) && key.value == draws[k])
            && (key.None? ==> forall d :: d in draws ==> TakenByOther(sessions, id, d))
  {
    hide WithoutProfile;
    k := 0;
    if draws != [] {
      UsedByOthers(sessions, id, draws[0]);
      if KeyUsed(WithoutProfile(sessions, id), draws[0]) {
        k := FreshIsFirst(sessions, id, draws[1..]);
        k := k + 1;
        assert draws == [draws[0]] + draws[1..];
      }
    }
  }

  /** The state and the answer when a profile that exists logs in. */
  ghost predicate SessionOpened(st: State, st': State, answer: Reply, id: int, k: nat, draws: seq<string>, ticket: string, w: Write) {
    var sessions := st'.mem.sessions;
    && IsFirstFree(st.mem.sessions, id, draws, k)
    && sessions != [] && sessions[|sessions| - 1] == SessionRow(draws[k], id, ticket)
    && LeftOf(st.mem.sessions, sessions[..|sessions| - 1], OfProfile(id))
    && SessionsSaved(st, st', w)
    && answer == if w == Written then NewKey(draws[k], ticket) else Failed
  }

  /**
   A login of a profile that exists ends its other sessions and opens one under the first free key
   drawn; when the random source fails, the other sessions are ended in memory alone.
   */
  lemma SessionOpens(lib: Lib, st: State, id: int, draws: seq<string>, ticket: Option<string>, w: Write)
    ensures var e := Event(NewSession(id, draws, ticket), Completed(w));
            var st', answer := Step(lib, st, e), Answer(lib, st, e);
            && answer.Some?
            && st'.mem == st.mem.(sessions := st'.mem.sessions)
            && ((forall u :: u in st.mem.users ==> u.profileID != id) ==> st' == st && answer == Some(Failed))
            && ((exists u :: u in st.mem.users && u.profileID == id) ==>
                  if CanOpen(st.mem.sessions, id, draws, ticket)
                  then exists k :: SessionOpened(st, st', answer.value, id, k, draws, ticket.value, w)
                  else LeftOf(st.mem.sessions, st'.mem.sessions, OfProfile(id))
                       && st'.disk == st.disk && answer == Some(Failed))
  {
    hide FreshKey;
    hide LeftOf;
    hide TakenByOther;
    hide WithoutProfile;
    hide Step;
    hide Answer;
    var e := Event(NewSession(id, draws, ticket), Completed(w));
    var st', answer := Step(lib, st, e), Answer(lib, st, e);
    NewSessionStep(lib, st, id, draws, ticket, w);
    if u :| u in st.mem.users && u.profileID == id {
      var i :| 0 <= i < |st.mem.users| && st.mem.users[i] == u;
      assert ProfileExists(st.mem.users, id);
      LeftWithoutProfile(st.mem.sessions, id);
      var k := FreshIsFirst(st.mem.sessions, id, draws);
      var rest := WithoutProfile(st.mem.sessions, id);
      var key := FreshKey(rest, draws);
      assert key.Some? ==> draws[k] in draws;
      assert CanOpen(st.mem.sessions, id, draws, ticket) <==> ticket.Some? && key.Some?;
      if key.Some? && ticket.Some? {
        assert st'.mem.sessions[..|st'.mem.sessions| - 1] == rest;
        assert SessionOpened(st, st', answer.value, id, k, draws, ticket.value, w);
      }
    }
  }

  lemma NewSessionStep(lib: Lib, st: State, id: int, draws: seq<string>, ticket: Option<string>, w: Write)
    ensures var e := Event(NewSession(id, draws, ticket), Completed(w));
            var st', answer := Step(lib, st, e), Answer(lib, st, e);
            var rest := WithoutProfile(st.mem.sessions, id);
            var key := FreshKey(rest, draws);
            if !ProfileExists(st.mem.users, id) then st' == st && answer == Some(Failed)
            else if key.Some? && ticket.Some? then
              && st'.mem == st.mem.(sessions := rest + [SessionRow(key.value, id, ticket.value)])
              && SessionsSaved(st, st', w)
              && answer == Some(if w == Written then NewKey(key.value, ticket.value) else Failed)
            else st' == State(st.mem.(sessions := rest), st.disk) && answer == Some(Failed)
  {
    hide FreshKey;
    hide WithoutProfile;
    hide ProfileExists;
  }

  // ---------- users ----------

  /** The value of the digits `0` to `9` and `a` to `v` in base 32. */
  function DigitValue(c: char): int {
    match c
    case '0' => 0 case '1' => 1 case '2' => 2 case '3' => 3 case '4' => 4 case '5' => 5 case '6' => 6 case '7' => 7
    case '8' => 8 case '9' => 9 case 'a' => 10 case 'b' => 11 case 'c' => 12 case 'd' => 13 case 'e' => 14 case 'f' => 15
    case 'g' => 16 case 'h' => 17 case 'i' => 18 case 'j' => 19 case 'k' => 20 case 'l' => 21 case 'm' => 22
    case 'n' => 23 case 'o' => 24 case 'p' => 25 case 'q' => 26 case 'r' => 27 case 's' => 28 case 't' => 29
    case 'u' => 30 case 'v' => 31
    case _ => -1
  }

  function Base32Value(s: string): int {
    if s == "" then 0 else 32 * Base32Value(s[..|s| - 1]) + DigitValue(s[|s| - 1])
  }

  /** The base-32 text of a positive number reads back as that number and has no leading zero; all others have none. */
  lemma {:induction false} Base32Reads(num: int)
    ensures var s := Base32Encode(num);
            && (forall c :: c in s ==> DigitValue(c) >= 0)
            && (num > 0 ==> s != "" && s[0] != '0' && Base32Value(s) == num)
            && (num <= 0 ==> s == "")
  {
    if num > 0 {
      var more := Base32Encode(num / 32);
      Base32Reads(num / 32);
      DigitOfAlpha(num % 32);
      assert Base32Encode(num)[..|more|] == more;
    }
  }

  lemma DigitOfAlpha(d: nat)
    requires d < 32
    ensures DigitValue(Base32Alpha(d)) == d
  {
    assert Base32Alpha(d) == "0123456789abcdefghijklmnopqrstuv"[d];
  }

  /** The nickname of a user: its number in base 32 and the game code. */
  ghost predicate IsNick(nick: string, number: int, gsbrcd: string) {
    exists digits: string ::
      && nick == digits + gsbrcd
      && (forall c :: c in digits ==> DigitValue(c) >= 0)
      && (number > 0 ==> digits != "" && digits[0] != '0' && Base32Value(digits) == number)
      && (number <= 0 ==> digits == "")
  }

  lemma NickMeaning(data: Fields)
    requires Acceptable(Some(data))
    ensures IsNick(NickOf(data), ParseInt64(Get(data, "userid")).value, Get(data, "gsbrcd"))
  {
    hide ParseInt64;
    hide Base32Encode;
    var number := ParseInt64(Get(data, "userid")).value;
    Base32Reads(number);
    assert NickOf(data) == Base32Encode(number) + Get(data, "gsbrcd");
  }

  /** The id after the largest there is, from 1 on; past the largest int64 it wraps around. */
  ghost predicate IsNextID(users: seq<User>, id: int) {
    exists max :: IsLargest(users, max) && id == if max == 0x7fff_ffff_ffff_ffff then -0x8000_0000_0000_0000 else max + 1
  }

  /** The largest id, 0 if there is none or only negative ones. */
  ghost predicate IsLargest(users: seq<User>, max: int) {
    && max >= 0
    && (forall u :: u in users ==> u.profileID <= max)
    && (max == 0 || exists u :: u in users && u.profileID == max)
  }

  lemma {:induction false} MaxIDMeaning(users: seq<User>)
    ensures IsLargest(users, MaxID(users))
  {
    if users != [] {
      var n := |users| - 1;
      MaxIDMeaning(users[..n]);
      assert users == users[..n] + [users[n]];
      assert users[n] in users;
      if u :| u in users[..n] && u.profileID == MaxID(users[..n]) {
        assert u in users;
      }
    }
  }

  /** What the row of a user made of `data` says. */
  ghost predicate MadeOf(lib: Lib, u: User, data: Fields, number: int) {
    var gsbrcd := Get(data, "gsbrcd");
    && u.userID == Get(data, "userid") && u.gsbrcd == gsbrcd && u.password == lib.md5(gsbrcd)
    && IsNick(u.uniquenick, number, gsbrcd) && u.email == u.uniquenick + "@nds"
    && u.firstname == "" && u.lastname == ""
    && u.device.csnum == Get(data, "csnum") && u.device.cfc == Get(data, "cfc") && u.device.bssid == Get(data, "bssid")
    && u.device.devname == Get(data, "devname") && u.device.birth == Get(data, "birth")
    && u.extra.pid == "11" && u.extra.lon == "0.000000" && u.extra.lat == "0.000000"
    && u.extra.loc == "" && u.extra.stat == "" && u.extra.partnerID == "" && u.extra.zipcode == "" && u.extra.aim == ""
    && u.console == (if "passwd" in data && "csnum" !in data && "cfc" !in data then 0 else 1)
    && u.gameID <= gsbrcd && |u.gameID| == (if |gsbrcd| < 4 then |gsbrcd| else 4)
    && u.enabled == 1
  }

  /** The first user with the id and the game code of the login. */
  ghost predicate IsFirstUser(users: seq<User>, data: Fields, k: nat) {
    && k < |users| && users[k].userID == Get(data, "userid") && users[k].gsbrcd == Get(data, "gsbrcd")
    && forall j :: 0 <= j < k ==> users[j].userID != Get(data, "userid") || users[j].gsbrcd != Get(data, "gsbrcd")
  }

  lemma {:induction false} FindsFirst(users: seq<User>, data: Fields)
    ensures var u := FindUser(users, Get(data, "userid"), Get(data, "gsbrcd"));
            && (u.None? <==> forall k: nat :: !IsFirstUser(users, data, k))
            && forall k: nat :: IsFirstUser(users, data, k) ==> u == Some(users[k])
  {
    if users != [] {
      FindsFirst(users[1..], data);
      forall k: nat
        ensures IsFirstUser(users, data, k + 1) <==>
                IsFirstUser(users[1..], data, k) && !IsFirstUser(users, data, 0)
      {
        if IsFirstUser(users, data, k + 1) {
          assert !IsFirstUser(users, data, 0);
          forall j | 0 <= j < k
            ensures users[1..][j].userID != Get(data, "userid") || users[1..][j].gsbrcd != Get(data, "gsbrcd")
          {
            assert users[1..][j] == users[j + 1];
          }
        }
      }
      if !IsFirstUser(users, data, 0) {
        forall k: nat | IsFirstUser(users, data, k)
          ensures k > 0 && IsFirstUser(users[1..], data, k - 1)
        {
          assert IsFirstUser(users, data, (k - 1) + 1);
        }
        if k: nat :| IsFirstUser(users[1..], data, k) {
          assert IsFirstUser(users, data, k + 1);
        }
      } else {
        forall k: nat | IsFirstUser(users, data, k)
          ensures k == 0
        {
        }
      }
    }
  }

  /** A restart finds the new list of users if the save got through, and the old files if not. */
  ghost predicate UsersSaved(st: State, st': State, w: Write) {
    Loaded(st'.disk) == if w == Written then Loaded(st.disk).(users := st'.mem.users) else Loaded(st.disk)
  }

  /** The data has a user id that is a number and a game code. */
  ghost predicate NamesUser(auth: Option<Fields>) {
    && auth.Some? && "userid" in auth.value && "gsbrcd" in auth.value
    && auth.value["userid"] != "" && auth.value["gsbrcd"] != "" && ParseInt64(auth.value["userid"]).Some?
  }

  lemma LoginWithoutName(lib: Lib, st: State, auth: Option<Fields>, w: Write)
    requires !NamesUser(auth)
    ensures var e := Event(Login(auth), Completed(w));
            Step(lib, st, e) == st && Answer(lib, st, e) == Some(Failed)
  {
    hide ParseInt64;
  }

  /** A known user is told its own id, or that it is disabled; nothing changes. */
  lemma KnownUserLogsIn(lib: Lib, st: State, data: Fields, w: Write, k: nat)
    requires NamesUser(Some(data)) && IsFirstUser(st.mem.users, data, k)
    ensures var e, u := Event(Login(Some(data)), Completed(w)), st.mem.users[k];
            && Step(lib, st, e) == st
            && if u.enabled != 1 then Answer(lib, st, e) == Some(Disabled)
               else exists nick ::
                 && IsNick(nick, ParseInt64(data["userid"]).value, data["gsbrcd"])
                 && Answer(lib, st, e) == Some(LoggedIn(data["userid"], u.profileID, data["gsbrcd"], nick))
  {
    hide ParseInt64;
    hide IsNick;
    hide NickOf;
    FindsFirst(st.mem.users, data);
    NickMeaning(data);
  }

  lemma NewUserMade(lib: Lib, users: seq<User>, data: Fields)
    requires NamesUser(Some(data))
    ensures MadeOf(lib, NewUser(lib, users, data), data, ParseInt64(data["userid"]).value)
    ensures IsNextID(users, NewUser(lib, users, data).profileID)
    ensures NewUser(lib, users, data).uniquenick == NickOf(data)
  {
    hide ParseInt64;
    hide IsNick;
    hide NickOf;
    hide MaxID;
    NickMeaning(data);
    MaxIDMeaning(users);
  }

  /** An unknown user is appended under the next id and told it, if the save got through. */
  lemma NewUserLogsIn(lib: Lib, st: State, data: Fields, w: Write)
    requires NamesUser(Some(data)) && forall k: nat :: !IsFirstUser(st.mem.users, data, k)
    ensures var e := Event(Login(Some(data)), Completed(w));
            var st', users := Step(lib, st, e), Step(lib, st, e).mem.users;
            && users != [] && users[..|users| - 1] == st.mem.users
            && var u := users[|users| - 1];
            && MadeOf(lib, u, data, ParseInt64(data["userid"]).value) && IsNextID(st.mem.users, u.profileID)
            && st'.mem == st.mem.(users := users) && UsersSaved(st, st', w)
            && Answer(lib, st, e)
               == Some(if w == Written then LoggedIn(data["userid"], u.profileID, data["gsbrcd"], u.uniquenick) else Failed)
  {
    hide ParseInt64;
    hide NewUser;
    hide MadeOf;
    hide IsNextID;
    hide NickOf;
    hide FindUser;
    FindsFirst(st.mem.users, data);
    NewUserMade(lib, st.mem.users, data);
    var users := Step(lib, st, Event(Login(Some(data)), Completed(w))).mem.users;
    assert users == st.mem.users + [NewUser(lib, st.mem.users, data)];
    assert users[..|users| - 1] == st.mem.users;
    NewUserIdIs(lib, st.mem.users, data);
  }

  lemma NewUserIdIs(lib: Lib, users: seq<User>, data: Fields)
    requires Acceptable(Some(data))
    ensures NewUser(lib, users, data).profileID == NextID(users)
  {
  }

  // ---------- profile names ----------

  /** `now` is the last value that the first `n` changes give a field, or what it was. */
  ghost predicate LastChange(changes: Changes, n: nat, field: string, was: string, now: string)
    requires n <= |changes|
  {
    && (forall k :: 0 <= k < n && changes[k].0 == field && (forall j :: k < j < n ==> changes[j].0 != field)
                    ==> now == changes[k].1)
    && ((forall k :: 0 <= k < n ==> changes[k].0 != field) ==> now == was)
  }

  predicate IsName(field: string) {
    field == "firstname" || field == "lastname"
  }

  /** The changes before the first that is not of a name. */
  ghost predicate NamesUpTo(changes: Changes, n: nat) {
    && n <= |changes| && (n == |changes| || !IsName(changes[n].0))
    && forall k :: 0 <= k < n ==> IsName(changes[k].0)
  }

  ghost predicate NamesChanged(u: User, u': User, changes: Changes, n: nat) {
    && NamesUpTo(changes, n)
    && LastChange(changes, n, "firstname", u.firstname, u'.firstname)
    && LastChange(changes, n, "lastname", u.lastname, u'.lastname)
    && u' == u.(firstname := u'.firstname, lastname := u'.lastname)
  }

  /** A further change in front matters only where nothing later changes the same field. */
  lemma ChangeInFront(changes: Changes, n: nat, field: string, was: string, now: string)
    requires changes != [] && n < |changes|
    requires LastChange(changes[1..], n, field, if changes[0].0 == field then changes[0].1 else was, now)
    ensures LastChange(changes, n + 1, field, was, now)
  {
    var rest := changes[1..];
    forall k | 0 <= k < n + 1 && changes[k].0 == field && (forall j :: k < j < n + 1 ==> changes[j].0 != field)
      ensures now == changes[k].1
    {
      if k > 0 {
        forall j | k - 1 < j < n
          ensures rest[j].0 != field
        {
          assert rest[j] == changes[j + 1];
        }
        assert rest[k - 1] == changes[k];
      } else {
        forall j | 0 <= j < n
          ensures rest[j].0 != field
        {
          assert rest[j] == changes[j + 1];
        }
      }
    }
    if forall k :: 0 <= k < n + 1 ==> changes[k].0 != field {
      forall j | 0 <= j < n
        ensures rest[j].0 != field
      {
        assert rest[j] == changes[j + 1];
      }
    }
  }

  lemma {:induction false} RenamedMeaning(u: User, changes: Changes) returns (n: nat)
    ensures NamesChanged(u, Renamed(u, changes), changes, n)
    decreases |changes|
  {
    n := 0;
    if changes != [] && IsName(changes[0].0) {
      var next := if changes[0].0 == "firstname" then u.(firstname := changes[0].1) else u.(lastname := changes[0].1);
      n := RenamedMeaning(next, changes[1..]);
      var u' := Renamed(u, changes);
      ChangeInFront(changes, n, "firstname", u.firstname, u'.firstname);
      ChangeInFront(changes, n, "lastname", u.lastname, u'.lastname);
      n := n + 1;
    }
  }

  lemma FirstWithID(users: seq<User>, id: int) returns (k: nat)
    requires exists u :: u in users && u.profileID == id
    ensures k < |users| && users[k].profileID == id && forall j :: 0 <= j < k ==> users[j].profileID != id
  {
    k := 0;
    while users[k].profileID != id
      invariant k < |users| && forall j :: 0 <= j < k ==> users[j].profileID != id
      invariant exists i :: k <= i < |users| && users[i].profileID == id
      decreases |users| - k
    {
      k := k + 1;
    }
  }

  /**
   Updating a profile gives its names their last values, up to the first field that is no name, and
   changes no other field and no other user; the caller is told so exactly if every field was a name
   and the list, if there was anything to change, was saved.
   */
  lemma ProfileUpdates(lib: Lib, st: State, id: int, changes: Changes, w: Write)
    ensures var e := Event(UpdateProfile(id, changes), Completed(w));
            var st', answer := Step(lib, st, e), Answer(lib, st, e);
            if forall u :: u in st.mem.users ==> u.profileID != id
            then st' == st && answer == Some(Failed)
            else
              && st'.mem == st.mem.(users := st'.mem.users) && |st'.mem.users| == |st.mem.users|
              && (exists k, n :: 0 <= k < |st.mem.users| && st.mem.users[k].profileID == id
                    && NamesChanged(st.mem.users[k], st'.mem.users[k], changes, n)
                    && forall j :: 0 <= j < |st.mem.users| && j != k ==> st'.mem.users[j] == st.mem.users[j])
              && (if changes != [] && (forall k :: 0 <= k < |changes| ==> IsName(changes[k].0))
                  then UsersSaved(st, st', w) && answer == Some(if w == Written then Done else Failed)
                  else st'.disk == st.disk && answer == Some(if changes == [] then Done else Failed))
  {
    var e := Event(UpdateProfile(id, changes), Completed(w));
    if forall u :: u in st.mem.users ==> u.profileID != id {
      RenameNobody(st.mem.users, id, changes);
    } else {
      var k := FirstWithID(st.mem.users, id);
      RenameAt(st.mem.users, id, changes, k);
      var n := RenamedMeaning(st.mem.users[k], changes);
      var users' := Step(lib, st, e).mem.users;
      assert NamesChanged(st.mem.users[k], users'[k], changes, n);
      assert ProfileExists(st.mem.users, id);
    }
  }

  // ---------- NAS logins ----------

  /** The data as stored: the two names encoded, everything else as it came. */
  lemma StoredSays(lib: Lib, data: Fields)
    ensures var stored := StoredData(lib, data);
            && stored.Keys == data.Keys
            && (forall key :: key in data ==>
                  stored[key] == if key == "devname" || key == "ingamesn" then lib.base64(data[key]) else data[key])
  {
  }

  /** A restart finds the new list of logins if the save got through, and the old files if not. */
  ghost predicate LoginsSaved(st: State, st': State, w: Write) {
    Loaded(st'.disk) == if w == Written then Loaded(st.disk).(nas := st'.mem.nas) else Loaded(st.disk)
  }

  ghost predicate IsStoredRow(lib: Lib, row: NasLogin, userid: string, token: string, data: Fields) {
    && row.userID == userid && row.authToken == token
    && row.data.Keys == data.Keys
    && forall key :: key in data ==>
         row.data[key] == if key == "devname" || key == "ingamesn" then lib.base64(data[key]) else data[key]
  }

  /** The first row of the user is replaced; a user without a row gets one at the end. */
  ghost predicate RowPut(lib: Lib, nas: seq<NasLogin>, nas': seq<NasLogin>, k: nat, userid: string, token: string, data: Fields) {
    && k <= |nas| && (k < |nas| ==> nas[k].userID == userid) && (forall j :: 0 <= j < k ==> nas[j].userID != userid)
    && |nas'| == (if k < |nas| then |nas| else |nas| + 1)
    && IsStoredRow(lib, nas'[k], userid, token, data)
    && forall j :: 0 <= j < |nas| && j != k ==> nas'[j] == nas[j]
  }

  lemma PutsRow(lib: Lib, nas: seq<NasLogin>, userid: string, token: string, data: Fields) returns (k: nat)
    ensures RowPut(lib, nas, PutLogin(nas, NasLogin(userid, token, StoredData(lib, data))), k, userid, token, data)
  {
    hide StoredData;
    var row := NasLogin(userid, token, StoredData(lib, data));
    StoredSays(lib, data);
    k := 0;
    while k < |nas| && nas[k].userID != userid
      invariant k <= |nas| && forall j :: 0 <= j < k ==> nas[j].userID != userid
    {
      k := k + 1;
    }
    if k < |nas| {
      PutLoginAt(nas, row, k);
    } else {
      PutLoginNew(nas, row);
    }
  }

  /** A token that another user has is refused; otherwise the user's row is put, saved and reported. */
  lemma LoginStored(lib: Lib, st: State, userid: string, token: string, data: Fields, w: Write)
    ensures var e := Event(StoreNas(userid, token, data), Completed(w));
            var st', answer := Step(lib, st, e), Answer(lib, st, e);
            if exists row :: row in st.mem.nas && row.authToken == token && row.userID != userid
            then st' == st && answer == Some(Failed)
            else
              && st'.mem == st.mem.(nas := st'.mem.nas)
              && (exists k :: RowPut(lib, st.mem.nas, st'.mem.nas, k, userid, token, data))
              && LoginsSaved(st, st', w) && answer == Some(if w == Written then Done else Failed)
  {
    hide StoredData;
    hide RowPut;
    hide PutLogin;
    var k := PutsRow(lib, st.mem.nas, userid, token, data);
    if row :| row in st.mem.nas && row.authToken == token && row.userID != userid {
      var i :| 0 <= i < |st.mem.nas| && st.mem.nas[i] == row;
      assert TokenTaken(st.mem.nas, userid, token);
    }
  }

  /** Writing one file out makes it say what memory says and touches nothing else. */
  lemma FlushWrites(lib: Lib, st: State, file: Target, w: Write)
    ensures var e := Event(Flush(file), Completed(w));
            var st', was := Step(lib, st, e), Loaded(st.disk);
            && st'.mem == st.mem
            && Loaded(st'.disk) ==
               (if w != Written then was
                else match file
                     case NoFile => was
                     case UsersFile => was.(users := st.mem.users)
                     case SessionsFile => was.(sessions := st.mem.sessions)
                     case NasFile => was.(nas := st.mem.nas)
                     case BannedFile => was.(banned := st.mem.banned))
  {
  }
}
