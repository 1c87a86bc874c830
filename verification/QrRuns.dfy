/**
 What holds in every run of the Query & Reporting server: who owns the rooms, and when they
 are challenged, refreshed and pruned.
 */
module QrRuns {
  import opened GoLib
  import opened Ip
  import opened Backend
  import opened Qr

  // ---------- rooms under the registry operations ----------

  lemma {:induction false} HoldsPut(list: seq<ServerRecord>, rec: ServerRecord, id: nat)
    ensures Holds(Put(list, rec), id) <==> id == rec.sessionID || Holds(list, id)
  {
    if list == [] {
      assert [rec][0] == rec;
    } else {
      HoldsPut(list[1..], rec, id);
      HoldsCons(list[0], list[1..], id);
      HoldsCons(rec, list[1..], id);
      HoldsCons(list[0], Put(list[1..], rec), id);
      assert list == [list[0]] + list[1..];
    }
  }

  lemma HoldsCons(rec: ServerRecord, list: seq<ServerRecord>, id: nat)
    ensures Holds([rec] + list, id) <==> rec.sessionID == id || Holds(list, id)
  {
    var all := [rec] + list;
    if rec.sessionID == id {
      assert all[0].sessionID == id;
    }
    if Holds(list, id) {
      var i := FindHeld(list, id);
      assert all[i + 1] == list[i];
    }
  }

  lemma {:induction false} HoldsRemove(list: seq<ServerRecord>, session: nat, id: nat)
    ensures Holds(Remove(list, session), id) <==> id != session && Holds(list, id)
  {
    if list != [] {
      HoldsRemove(list[1..], session, id);
      HoldsCons(list[0], list[1..], id);
      HoldsCons(list[0], Remove(list[1..], session), id);
      assert list == [list[0]] + list[1..];
      assert [] + Remove(list[1..], session) == Remove(list[1..], session);
    }
  }

  lemma {:induction false} HoldsSurvivors(list: seq<ServerRecord>, sessions: map<nat, QrSession>, ids: set<nat>, g: string, id: nat)
    ensures Holds(Survivors(list, sessions, ids, g), id) <==>
            Holds(list, id) && !(id in ids && id in sessions && sessions[id].gamename == g && g != "")
  {
    if list != [] {
      HoldsSurvivors(list[1..], sessions, ids, g, id);
      HoldsCons(list[0], list[1..], id);
      HoldsCons(list[0], Survivors(list[1..], sessions, ids, g), id);
      assert list == [list[0]] + list[1..];
      assert [] + Survivors(list[1..], sessions, ids, g) == Survivors(list[1..], sessions, ids, g);
    }
  }

  lemma RoomAfterUpdate(rooms: Rooms, rec: ServerRecord, g: string, id: nat)
    ensures HasRoom(Updated(rooms, rec), g, id) <==> (g == rec.gamename && id == rec.sessionID) || HasRoom(rooms, g, id)
  {
    HoldsPut(ListOf(rooms, rec.gamename), rec, id);
  }

  lemma RoomAfterDelete(rooms: Rooms, gameid: string, session: nat, g: string, id: nat)
    ensures HasRoom(Deleted(rooms, gameid, session), g, id) <==> HasRoom(rooms, g, id) && !(g == gameid && id == session)
  {
    HoldsRemove(ListOf(rooms, gameid), session, id);
  }

  lemma RoomAfterTick(st: State, now: int, g: string, id: nat)
    ensures HasRoom(TickHandled(st, now).rooms, g, id) <==>
            && HasRoom(st.rooms, g, id)
            && !(id in st.sessions && Expired(st.sessions[id], now) && st.sessions[id].gamename == g && g != "")
  {
    HoldsSurvivors(ListOf(st.rooms, g), st.sessions, Stale(st.sessions, now), g, id);
  }

  // ---------- ownership, step by step ----------

  /** Every room belongs to a live session that has recorded the room's game. */
  ghost predicate Owned(st: State) {
    forall g, id :: HasRoom(st.rooms, g, id) ==> id in st.sessions && st.sessions[id].gamename == g && g != ""
  }

  /** The game that acting on fields `k` touches is the one whose room the session may hold. */
  predicate FieldsAgree(st: State, id: nat, k: Fields)
    requires id in st.sessions
  {
    var sess := st.sessions[id];
    if Closing(k) then HasRoom(st.rooms, sess.gamename, id) ==> ClosedGame(sess, k) == sess.gamename
    else if "gamename" in k then k["gamename"] != "" && (HasRoom(st.rooms, sess.gamename, id) ==> k["gamename"] == sess.gamename)
    else true
  }

  lemma ListUpdatedOwned(st: State, id: nat, k: Fields)
    requires id in st.sessions && Owned(st)
    ensures Owned(ListUpdated(st, id, k)) <==> FieldsAgree(st, id, k)
  {
    var sess := st.sessions[id];
    var st' := ListUpdated(st, id, k);
    if Closing(k) {
      var n := ClosedGame(sess, k);
      forall g, i
        ensures HasRoom(st'.rooms, g, i) <==> HasRoom(st.rooms, g, i) && !(g == n && i == id)
      {
        RoomAfterDelete(st.rooms, n, id, g, i);
      }
      if !FieldsAgree(st, id, k) {
        assert HasRoom(st'.rooms, sess.gamename, id);
      }
    } else if "gamename" in k {
      var rec := RecordOf(k["gamename"], id, k, sess.console);
      forall g, i
        ensures HasRoom(st'.rooms, g, i) <==> (g == k["gamename"] && i == id) || HasRoom(st.rooms, g, i)
      {
        RoomAfterUpdate(st.rooms, rec, g, i);
      }
      assert HasRoom(st'.rooms, k["gamename"], id);
      if !FieldsAgree(st, id, k) && k["gamename"] != "" {
        assert HasRoom(st'.rooms, sess.gamename, id);
      }
    }
  }

  lemma TouchedOwned(st: State, id: nat, addr: UdpAddr, now: int)
    requires Owned(st)
    ensures Owned(Touched(st, id, addr, now))
  {
    assert Touched(st, id, addr, now).rooms == st.rooms;
  }

  /** Whether a packet may be handled without orphaning a room: a check on state and packet. */
  predicate PacketAgrees(cfg: Config, st: State, e: Event)
    requires e.Packet?
  {
    if |e.data| < 6 || e.data[0] !in {0x01, 0x03} then true
    else
      var id := SessionId(e.data);
      var st' := Touched(st, id, e.addr, e.now);
      var sess := st'.sessions[id];
      if e.data[0] == 0x01 then
        sess.heartbeatData.Some? && TextOf(e.data[5..|e.data| - 1]) == Proof(cfg, sess.secretkey, sess.challenge)
        ==> FieldsAgree(st', id, sess.heartbeatData.value)
      else
        var k := ParseKV(e.data[5..]);
        var noted := Noted(cfg, sess, k, e.names);
        sess.sentChallenge ==>
          FieldsAgree(st'.(sessions := st'.sessions[id := noted]), id, Amended(cfg, noted, k, e.addr))
  }

  lemma SameRoomsOwned(st: State, st': State, id: nat)
    requires Owned(st) && st'.rooms == st.rooms && id in st.sessions && id in st'.sessions
    requires st'.sessions == st.sessions[id := st'.sessions[id]]
    requires st'.sessions[id].gamename == st.sessions[id].gamename
    ensures Owned(st')
  {
  }

  lemma AnsweredOwned(cfg: Config, st: State, id: nat, data: seq<byte>, addr: UdpAddr)
    requires id in st.sessions && Owned(st) && |data| >= 6
    ensures var sess := st.sessions[id];
            Owned(ChallengeAnswered(cfg, st, id, data, addr)) <==>
            (sess.heartbeatData.Some? && TextOf(data[5..|data| - 1]) == Proof(cfg, sess.secretkey, sess.challenge)
             ==> FieldsAgree(st, id, sess.heartbeatData.value))
  {
    hide Proof;
    hide ListUpdated;
    var sess := st.sessions[id];
    var st' := ChallengeAnswered(cfg, st, id, data, addr);
    if TextOf(data[5..|data| - 1]) != Proof(cfg, sess.secretkey, sess.challenge) {
      var st1 := st.(sessions := st.sessions[id := sess.(sentChallenge := false)]);
      SameRoomsOwned(st, st1, id);
      if sess.gamename != "" {
        forall g, i
          ensures HasRoom(st'.rooms, g, i) ==> HasRoom(st1.rooms, g, i)
        {
          RoomAfterDelete(st.rooms, sess.gamename, id, g, i);
        }
      }
    } else {
      var st1 := st.(outbox := st.outbox + [OutMsg([0xfe, 0xfd, 0x0a] + ToLE(id % TWO32), addr)]);
      SameRoomsOwned(st, st1, id);
      if sess.heartbeatData.Some? {
        ListUpdatedOwned(st1, id, sess.heartbeatData.value);
      }
    }
  }

  lemma HeartbeatOwned(cfg: Config, st: State, id: nat, data: seq<byte>, addr: UdpAddr, rnd: string, names: int -> string)
    requires id in st.sessions && Owned(st) && |data| >= 6
    ensures var k := ParseKV(data[5..]);
            var noted := Noted(cfg, st.sessions[id], k, names);
            Owned(HeartbeatHandled(cfg, st, id, data, addr, rnd, names)) <==>
            (st.sessions[id].sentChallenge ==>
               FieldsAgree(st.(sessions := st.sessions[id := noted]), id, Amended(cfg, noted, k, addr)))
  {
    hide Amended;
    hide ListUpdated;
    var k := ParseKV(data[5..]);
    var noted := Noted(cfg, st.sessions[id], k, names);
    var st1 := st.(sessions := st.sessions[id := noted]);
    SameRoomsOwned(st, st1, id);
    if noted.sentChallenge {
      ListUpdatedOwned(st1, id, Amended(cfg, noted, k, addr));
    } else {
      SameRoomsOwned(st1, HeartbeatHandled(cfg, st, id, data, addr, rnd, names), id);
    }
  }

  /**
   Ownership is kept by a packet exactly when the packet agrees with what its session has
   recorded; otherwise a room is left without an owner.
   */
  lemma PacketKeepsOwnershipExactly(cfg: Config, st: State, e: Event)
    requires e.Packet? && Owned(st)
    ensures Owned(Step(cfg, st, e)) <==> PacketAgrees(cfg, st, e)
  {
    hide ChallengeAnswered;
    hide HeartbeatHandled;
    hide Noted;
    hide Amended;
    hide FieldsAgree;
    if e.data != [] && e.data[0] != 0x09 && |e.data| >= 5 {
      var id := SessionId(e.data);
      TouchedOwned(st, id, e.addr, e.now);
      var st' := Touched(st, id, e.addr, e.now);
      ShortPackets(cfg, st', id, e);
      if |e.data| >= 6 && e.data[0] == 0x01 {
        AnsweredOwned(cfg, st', id, e.data, e.addr);
      } else if |e.data| >= 6 && e.data[0] == 0x03 {
        HeartbeatOwned(cfg, st', id, e.data, e.addr, e.rnd, e.names);
      }
    }
  }

  lemma ShortPackets(cfg: Config, st: State, id: nat, e: Event)
    requires e.Packet? && id in st.sessions
    ensures |e.data| < 6 ==>
              && ChallengeAnswered(cfg, st, id, e.data, e.addr) == st
              && HeartbeatHandled(cfg, st, id, e.data, e.addr, e.rnd, e.names) == st
  {
  }

  lemma TickKeepsOwnership(st: State, now: int)
    requires Owned(st)
    ensures Owned(TickHandled(st, now))
  {
    hide TickHandled;
    var st' := TickHandled(st, now);
    forall g, id | HasRoom(st'.rooms, g, id)
      ensures id in st'.sessions && st'.sessions[id].gamename == g && g != ""
    {
      RoomAfterTick(st, now, g, id);
      TickSessions(st, now, id);
    }
  }

  lemma TickSessions(st: State, now: int, id: nat)
    ensures var st' := TickHandled(st, now);
            && (id in st'.sessions <==> id in st.sessions && !Expired(st.sessions[id], now))
            && (id in st'.sessions ==> st'.sessions[id] == st.sessions[id])
  {
  }

  // ---------- challenges ----------

  /** The session's challenge has been sent out. */
  ghost predicate ChallengeSent(outbox: seq<OutMsg>, id: nat, sess: QrSession) {
    sess.challenge != "" && exists i :: 0 <= i < |outbox| && outbox[i].data == ChallengePacket(id, sess.challenge)
  }

  /** Sessions that wait for a proof, hold a heartbeat or record a game were sent a challenge. */
  ghost predicate Challenged(st: State) {
    forall id :: id in st.sessions ==>
      var sess := st.sessions[id];
      sess.sentChallenge || sess.heartbeatData.Some? || sess.gamename != "" ==> ChallengeSent(st.outbox, id, sess)
  }

  lemma StillSent(outbox: seq<OutMsg>, more: seq<OutMsg>, id: nat, sess: QrSession)
    requires ChallengeSent(outbox, id, sess)
    ensures ChallengeSent(outbox + more, id, sess)
  {
    var i :| 0 <= i < |outbox| && outbox[i].data == ChallengePacket(id, sess.challenge);
    assert (outbox + more)[i] == outbox[i];
  }

  /** Growing the outbox and changing one session, which is challenged if it needs to be. */
  lemma ChallengedAfter(st: State, st': State, id: nat, more: seq<OutMsg>)
    requires Challenged(st) && st'.outbox == st.outbox + more
    requires id in st'.sessions && st'.sessions == st.sessions[id := st'.sessions[id]]
    requires var sess := st'.sessions[id];
             sess.sentChallenge || sess.heartbeatData.Some? || sess.gamename != "" ==> ChallengeSent(st'.outbox, id, sess)
    ensures Challenged(st')
  {
    forall i | i in st'.sessions && i != id
      ensures ChallengeSent(st.outbox, i, st.sessions[i]) ==> ChallengeSent(st'.outbox, i, st'.sessions[i])
    {
      if ChallengeSent(st.outbox, i, st.sessions[i]) {
        StillSent(st.outbox, more, i, st.sessions[i]);
      }
    }
  }

  lemma ListUpdatedChallenged(st: State, id: nat, k: Fields)
    requires Challenged(st) && id in st.sessions && ChallengeSent(st.outbox, id, st.sessions[id])
    ensures Challenged(ListUpdated(st, id, k))
  {
    var st' := ListUpdated(st, id, k);
    assert st.outbox + [] == st.outbox;
    if !Closing(k) && "gamename" in k {
      ChallengedAfter(st, st', id, []);
    }
  }

  lemma PacketChallenged(cfg: Config, st: State, e: Event)
    requires e.Packet? && Challenged(st)
    ensures Challenged(Step(cfg, st, e))
  {
    hide Noted;
    hide Amended;
    hide ListUpdated;
    hide Proof;
    hide ServerChallenge;
    hide ChallengePacket;
    if e.data == [] {
    } else if e.data[0] == 0x09 {
      OutboxChallenged(st, [OutMsg([0xfe, 0xfd, 0x09, 0x00, 0x00, 0x00, 0x00], e.addr)]);
    } else if |e.data| >= 5 {
      var id := SessionId(e.data);
      var st' := Touched(st, id, e.addr, e.now);
      assert st.outbox + [] == st.outbox;
      TouchedSent(st, id, e.addr, e.now);
      ChallengedAfter(st, st', id, []);
      if e.data[0] == 0x01 {
        AnsweredChallenged(cfg, st', id, e.data, e.addr);
      } else if e.data[0] == 0x03 {
        HeartbeatChallenged(cfg, st', id, e.data, e.addr, e.rnd, e.names);
      }
    }
  }

  lemma TouchedSent(st: State, id: nat, addr: UdpAddr, now: int)
    requires Challenged(st)
    ensures var st' := Touched(st, id, addr, now);
            var sess := st'.sessions[id];
            sess.sentChallenge || sess.heartbeatData.Some? || sess.gamename != "" ==> ChallengeSent(st'.outbox, id, sess)
  {
    if id in st.sessions {
      var sess := st.sessions[id];
      if sess.sentChallenge || sess.heartbeatData.Some? || sess.gamename != "" {
        assert ChallengeSent(st.outbox, id, sess);
      }
    }
  }

  lemma OutboxChallenged(st: State, more: seq<OutMsg>)
    requires Challenged(st)
    ensures Challenged(st.(outbox := st.outbox + more))
  {
    forall id | id in st.sessions && ChallengeSent(st.outbox, id, st.sessions[id])
      ensures ChallengeSent(st.outbox + more, id, st.sessions[id])
    {
      StillSent(st.outbox, more, id, st.sessions[id]);
    }
  }

  lemma AnsweredChallenged(cfg: Config, st: State, id: nat, data: seq<byte>, addr: UdpAddr)
    requires id in st.sessions && Challenged(st)
    ensures Challenged(ChallengeAnswered(cfg, st, id, data, addr))
  {
    hide ListUpdated;
    hide Proof;
    var st' := ChallengeAnswered(cfg, st, id, data, addr);
    var sess := st.sessions[id];
    assert st.outbox + [] == st.outbox;
    if |data| >= 6 {
      if TextOf(data[5..|data| - 1]) != Proof(cfg, sess.secretkey, sess.challenge) {
        ChallengedAfter(st, st', id, []);
      } else {
        var more := [OutMsg([0xfe, 0xfd, 0x0a] + ToLE(id % TWO32), addr)];
        OutboxChallenged(st, more);
        if sess.heartbeatData.Some? {
          StillSent(st.outbox, more, id, sess);
          ListUpdatedChallenged(st.(outbox := st.outbox + more), id, sess.heartbeatData.value);
        }
      }
    }
  }

  lemma HeartbeatChallenged(cfg: Config, st: State, id: nat, data: seq<byte>, addr: UdpAddr, rnd: string, names: int -> string)
    requires id in st.sessions && Challenged(st)
    ensures Challenged(HeartbeatHandled(cfg, st, id, data, addr, rnd, names))
  {
    hide ListUpdated;
    hide Amended;
    hide ServerChallenge;
    hide ChallengePacket;
    if |data| >= 6 {
      var k := ParseKV(data[5..]);
      var sess := Noted(cfg, st.sessions[id], k, names);
      var st1 := st.(sessions := st.sessions[id := sess]);
      assert st.outbox + [] == st.outbox;
      assert sess.challenge == st.sessions[id].challenge;
      ChallengedAfter(st, st1, id, []);
      if sess.sentChallenge {
        ListUpdatedChallenged(st1, id, Amended(cfg, sess, k, addr));
      } else {
        var challenge := ServerChallenge(rnd, addr);
        var st' := HeartbeatHandled(cfg, st, id, data, addr, rnd, names);
        hide Noted;
        hide ParseKV;
        var more := [OutMsg(ChallengePacket(id, challenge), addr)];
        assert st'.outbox == st1.outbox + more;
        assert st'.outbox[|st1.outbox|].data == ChallengePacket(id, challenge);
        ChallengedAfter(st1, st', id, more);
      }
    }
  }

  /** In every run, a session that awaits a proof, holds a heartbeat or records a game was sent its challenge. */
  lemma {:induction false} RunsChallenge(cfg: Config, events: seq<Event>)
    ensures Challenged(StateAfter(cfg, events))
  {
    hide TickHandled;
    hide PacketHandled;
    if events != [] {
      var init, e := events[..|events| - 1], events[|events| - 1];
      RunsChallenge(cfg, init);
      var st := StateAfter(cfg, init);
      match e
      case Packet(_, _, _, _, _) => PacketChallenged(cfg, st, e);
      case Tick(now) =>
        TickOutbox(st, now);
        forall id | id in TickHandled(st, now).sessions
          ensures id in st.sessions && TickHandled(st, now).sessions[id] == st.sessions[id]
        {
          TickSessions(st, now, id);
        }
    }
  }

  lemma TickOutbox(st: State, now: int)
    ensures TickHandled(st, now).outbox == st.outbox
  {
  }

  // ---------- one game per life ----------

  predicate NamesGame(e: Event) {
    e.Packet? && |e.data| >= 6 && e.data[0] == 0x03 && "gamename" in ParseKV(e.data[5..])
  }

  function NamedGame(e: Event): string
    requires NamesGame(e)
  {
    ParseKV(e.data[5..])["gamename"]
  }

  /** Per live session, the game first named in its current life. A life ends when the session goes. */
  ghost function Named(cfg: Config, events: seq<Event>): map<nat, string> {
    if events == [] then map[]
    else
      var init, e := events[..|events| - 1], events[|events| - 1];
      var before := Named(cfg, init);
      var after := if NamesGame(e) && SessionId(e.data) !in before then before[SessionId(e.data) := NamedGame(e)] else before;
      map id | id in after && id in StateAfter(cfg, events).sessions :: after[id]
  }

  /** Within each life of a session, every heartbeat that names a game names the same, non-empty one. */
  ghost predicate OneGamePerLife(cfg: Config, events: seq<Event>) {
    events != [] ==>
      var init, e := events[..|events| - 1], events[|events| - 1];
      && OneGamePerLife(cfg, init)
      && (NamesGame(e) ==>
            var before := Named(cfg, init);
            NamedGame(e) != "" && (SessionId(e.data) in before ==> before[SessionId(e.data)] == NamedGame(e)))
  }

  /** What sessions have recorded is what was named in their life. */
  ghost predicate Faithful(st: State, named: map<nat, string>) {
    forall id :: id in st.sessions ==>
      var sess := st.sessions[id];
      && (sess.gamename != "" ==> id in named && named[id] == sess.gamename)
      && (sess.heartbeatData.Some? && "gamename" in sess.heartbeatData.value ==>
            id in named && named[id] == sess.heartbeatData.value["gamename"] && named[id] != "")
  }

  lemma AmendedNames(cfg: Config, sess: QrSession, k: Fields, addr: UdpAddr)
    ensures var k' := Amended(cfg, sess, k, addr);
            && ("gamename" in k' <==> "gamename" in k) && ("gamename" in k ==> k'["gamename"] == k["gamename"])
  {
  }

  lemma NotedNames(cfg: Config, sess: QrSession, k: Fields, names: int -> string)
    ensures var s := Noted(cfg, sess, k, names);
            s.gamename == sess.gamename && s.heartbeatData == sess.heartbeatData && s.sentChallenge == sess.sentChallenge
  {
  }

  /** Fields that name only the session's own game agree with it. */
  lemma NamedFieldsAgree(st: State, id: nat, k: Fields, game: string)
    requires id in st.sessions && Owned(st)
    requires "gamename" in k ==> k["gamename"] == game && game != ""
    requires "gamename" in k && st.sessions[id].gamename != "" ==> st.sessions[id].gamename == game
    ensures FieldsAgree(st, id, k)
  {
  }

  lemma ListUpdatedFaithful(st: State, id: nat, k: Fields, named: map<nat, string>)
    requires id in st.sessions && Faithful(st, named)
    requires "gamename" in k ==> id in named && named[id] == k["gamename"]
    ensures Faithful(ListUpdated(st, id, k), named)
  {
  }

  /** One packet under the assumption: it agrees, and what is recorded stays what was named. */
  lemma TouchedFaithful(st: State, id: nat, addr: UdpAddr, now: int, before: map<nat, string>, after: map<nat, string>)
    requires Faithful(st, before) && forall i :: i in before ==> i in after && after[i] == before[i]
    ensures Faithful(Touched(st, id, addr, now), after)
  {
  }

  lemma PacketFaithful(cfg: Config, st: State, e: Event, before: map<nat, string>, after: map<nat, string>)
    requires e.Packet? && Owned(st) && Faithful(st, before)
    requires forall id :: id in before ==> id in st.sessions
    requires NamesGame(e) ==> NamedGame(e) != "" && (SessionId(e.data) in before ==> before[SessionId(e.data)] == NamedGame(e))
    requires after == if NamesGame(e) && SessionId(e.data) !in before then before[SessionId(e.data) := NamedGame(e)] else before
    ensures PacketAgrees(cfg, st, e) && Faithful(Step(cfg, st, e), after)
  {
    hide Noted;
    hide Amended;
    hide ListUpdated;
    hide FieldsAgree;
    hide Proof;
    hide ChallengeAnswered;
    hide HeartbeatHandled;
    hide ParseKV;
    if e.data != [] && e.data[0] != 0x09 && |e.data| >= 5 {
      var id := SessionId(e.data);
      var st' := Touched(st, id, e.addr, e.now);
      TouchedOwned(st, id, e.addr, e.now);
      TouchedFaithful(st, id, e.addr, e.now, before, after);
      ShortPackets(cfg, st', id, e);
      if |e.data| >= 6 && e.data[0] == 0x01 {
        AnsweredFaithful(cfg, st', id, e.data, e.addr, after);
      } else if |e.data| >= 6 && e.data[0] == 0x03 {
        HeartbeatFaithful(cfg, st', id, e, after);
      }
    }
  }

  lemma AnsweredFaithful(cfg: Config, st: State, id: nat, data: seq<byte>, addr: UdpAddr, named: map<nat, string>)
    requires id in st.sessions && Owned(st) && Faithful(st, named) && |data| >= 6
    ensures Faithful(ChallengeAnswered(cfg, st, id, data, addr), named)
    ensures st.sessions[id].heartbeatData.Some? ==> FieldsAgree(st, id, st.sessions[id].heartbeatData.value)
  {
    hide Proof;
    var sess := st.sessions[id];
    if sess.heartbeatData.Some? {
      var k := sess.heartbeatData.value;
      NamedFieldsAgree(st, id, k, if "gamename" in k then k["gamename"] else "");
      var st1 := st.(outbox := st.outbox + [OutMsg([0xfe, 0xfd, 0x0a] + ToLE(id % TWO32), addr)]);
      ListUpdatedFaithful(st1, id, k, named);
    }
  }

  lemma HeartbeatFaithful(cfg: Config, st: State, id: nat, e: Event, named: map<nat, string>)
    requires e.Packet? && |e.data| >= 6 && e.data[0] == 0x03
    requires id in st.sessions && Owned(st) && Faithful(st, named)
    requires "gamename" in ParseKV(e.data[5..]) ==>
               id in named && named[id] == ParseKV(e.data[5..])["gamename"] && named[id] != ""
    ensures Faithful(HeartbeatHandled(cfg, st, id, e.data, e.addr, e.rnd, e.names), named)
    ensures var k := ParseKV(e.data[5..]);
            var noted := Noted(cfg, st.sessions[id], k, e.names);
            FieldsAgree(st.(sessions := st.sessions[id := noted]), id, Amended(cfg, noted, k, e.addr))
  {
    hide Noted;
    hide Amended;
    hide ListUpdated;
    hide ServerChallenge;
    hide ChallengePacket;
    var k := ParseKV(e.data[5..]);
    var noted := Noted(cfg, st.sessions[id], k, e.names);
    NotedNames(cfg, st.sessions[id], k, e.names);
    var k' := Amended(cfg, noted, k, e.addr);
    AmendedNames(cfg, noted, k, e.addr);
    var st1 := st.(sessions := st.sessions[id := noted]);
    SameRoomsOwned(st, st1, id);
    assert Faithful(st1, named);
    NamedFieldsAgree(st1, id, k', if id in named then named[id] else "");
    ListUpdatedFaithful(st1, id, k', named);
  }

  lemma FaithfulRestricted(st: State, after: map<nat, string>)
    requires Faithful(st, after)
    ensures Faithful(st, map id | id in after && id in st.sessions :: after[id])
  {
  }

  lemma {:induction false} RunsAreFaithful(cfg: Config, events: seq<Event>)
    requires OneGamePerLife(cfg, events)
    ensures Owned(StateAfter(cfg, events)) && Faithful(StateAfter(cfg, events), Named(cfg, events))
    ensures forall id :: id in Named(cfg, events) ==> id in StateAfter(cfg, events).sessions
  {
    hide Step;
    hide Owned;
    hide Faithful;
    hide PacketAgrees;
    if events == [] {
      StartIsFaithful();
    } else {
      var init, e := events[..|events| - 1], events[|events| - 1];
      RunsAreFaithful(cfg, init);
      var st, before := StateAfter(cfg, init), Named(cfg, init);
      var after := if NamesGame(e) && SessionId(e.data) !in before then before[SessionId(e.data) := NamedGame(e)] else before;
      if e.Packet? {
        PacketFaithful(cfg, st, e, before, after);
        PacketKeepsOwnershipExactly(cfg, st, e);
      } else {
        TickKeepsOwnership(st, e.now);
        TickFaithful(cfg, st, e.now, after);
      }
      FaithfulRestricted(StateAfter(cfg, events), after);
    }
  }

  lemma StartIsFaithful()
    ensures Owned(START) && Faithful(START, map[])
  {
    forall g, id
      ensures !HasRoom(START.rooms, g, id)
    {
    }
  }

  lemma TickFaithful(cfg: Config, st: State, now: int, named: map<nat, string>)
    requires Faithful(st, named)
    ensures Step(cfg, st, Tick(now)) == TickHandled(st, now) && Faithful(TickHandled(st, now), named)
  {
  }

  // ---------- freshness ----------

  predicate IsFrom(e: Event, id: nat) {
    e.Packet? && |e.data| >= 5 && e.data[0] != 0x09 && SessionId(e.data) == id
  }

  /** Handlers drop sessions or leave their keepalive alone. */
  ghost predicate KeepsTimes(st: State, st': State) {
    forall id :: id in st'.sessions ==> id in st.sessions && st'.sessions[id].keepalive == st.sessions[id].keepalive
  }

  lemma ListUpdatedTimes(st: State, id: nat, k: Fields)
    requires id in st.sessions
    ensures KeepsTimes(st, ListUpdated(st, id, k))
  {
  }

  lemma AnsweredTimes(cfg: Config, st: State, id: nat, data: seq<byte>, addr: UdpAddr)
    requires id in st.sessions
    ensures KeepsTimes(st, ChallengeAnswered(cfg, st, id, data, addr))
  {
    hide Proof;
    hide ListUpdated;
    var st1 := st.(outbox := st.outbox + [OutMsg([0xfe, 0xfd, 0x0a] + ToLE(id % TWO32), addr)]);
    if st.sessions[id].heartbeatData.Some? {
      ListUpdatedTimes(st1, id, st.sessions[id].heartbeatData.value);
    }
  }

  lemma HeartbeatTimes(cfg: Config, st: State, id: nat, data: seq<byte>, addr: UdpAddr, rnd: string, names: int -> string)
    requires id in st.sessions
    ensures KeepsTimes(st, HeartbeatHandled(cfg, st, id, data, addr, rnd, names))
  {
    hide Amended;
    hide ListUpdated;
    hide ServerChallenge;
    hide ChallengePacket;
    if |data| >= 6 {
      var k := ParseKV(data[5..]);
      var sess := Noted(cfg, st.sessions[id], k, names);
      assert sess.keepalive == st.sessions[id].keepalive;
      ListUpdatedTimes(st.(sessions := st.sessions[id := sess]), id, Amended(cfg, sess, k, addr));
    }
  }

  lemma PacketKeepalive(cfg: Config, st: State, e: Event, id: nat)
    requires e.Packet? && id in Step(cfg, st, e).sessions
    ensures if IsFrom(e, id) then Step(cfg, st, e).sessions[id].keepalive == e.now
            else id in st.sessions && Step(cfg, st, e).sessions[id].keepalive == st.sessions[id].keepalive
  {
    hide ChallengeAnswered;
    hide HeartbeatHandled;
    if e.data != [] && e.data[0] != 0x09 && |e.data| >= 5 {
      var from := SessionId(e.data);
      var st' := Touched(st, from, e.addr, e.now);
      AnsweredTimes(cfg, st', from, e.data, e.addr);
      HeartbeatTimes(cfg, st', from, e.data, e.addr, e.rnd, e.names);
    }
  }

  /** A session's keepalive is the time of some packet it sent. */
  lemma {:induction false} KeepaliveIsPacketTime(cfg: Config, events: seq<Event>, id: nat) returns (i: nat)
    requires id in StateAfter(cfg, events).sessions
    ensures i < |events| && IsFrom(events[i], id) && events[i].now == StateAfter(cfg, events).sessions[id].keepalive
  {
    var init, e := events[..|events| - 1], events[|events| - 1];
    var st := StateAfter(cfg, init);
    if e.Packet? {
      PacketKeepalive(cfg, st, e, id);
      if IsFrom(e, id) {
        i := |events| - 1;
        return;
      }
    } else {
      TickSessions(st, e.now, id);
    }
    i := KeepaliveIsPacketTime(cfg, init, id);
  }

  // ---------- challenges in the present life ----------

  predicate IsBeat(e: Event, id: nat) {
    e.Packet? && |e.data| >= 6 && e.data[0] == 0x03 && SessionId(e.data) == id
  }

  /** A session's challenge stays what it was, or a heartbeat of the session has it sent just now. */
  lemma ChallengeStep(cfg: Config, st: State, e: Event, id: nat)
    requires id in Step(cfg, st, e).sessions
    ensures var c := Step(cfg, st, e).sessions[id].challenge;
            || c == ""
            || (id in st.sessions && st.sessions[id].challenge == c)
            || (IsBeat(e, id) && Step(cfg, st, e).outbox == st.outbox + [OutMsg(ChallengePacket(id, c), e.addr)])
  {
    hide Proof;
    hide Noted;
    hide Amended;
    hide ListUpdated;
    hide ParseKV;
    hide ServerChallenge;
    hide ChallengePacket;
    match e
    case Tick(now) => TickSessions(st, now, id);
    case Packet(data, addr, now, rnd, names) =>
      if data != [] && data[0] != 0x09 && |data| >= 5 {
        var from := SessionId(data);
        var st' := Touched(st, from, addr, now);
        if data[0] == 0x01 && |data| >= 6 {
          AnsweredChallenge(cfg, st', from, data, addr, id);
        } else if data[0] == 0x03 && |data| >= 6 {
          BeatChallenge(cfg, st', from, e, id);
        }
      }
  }

  lemma ListUpdatedChallenge(st: State, from: nat, k: Fields, id: nat)
    requires from in st.sessions
    ensures var st' := ListUpdated(st, from, k);
            id in st'.sessions ==> id in st.sessions && st'.sessions[id].challenge == st.sessions[id].challenge
  {
  }

  lemma AnsweredChallenge(cfg: Config, st: State, from: nat, data: seq<byte>, addr: UdpAddr, id: nat)
    requires from in st.sessions
    ensures var st' := ChallengeAnswered(cfg, st, from, data, addr);
            id in st'.sessions ==> id in st.sessions && st'.sessions[id].challenge == st.sessions[id].challenge
  {
    hide Proof;
    hide ListUpdated;
    var st1 := st.(outbox := st.outbox + [OutMsg([0xfe, 0xfd, 0x0a] + ToLE(from % TWO32), addr)]);
    if st.sessions[from].heartbeatData.Some? {
      ListUpdatedChallenge(st1, from, st.sessions[from].heartbeatData.value, id);
    }
  }

  lemma BeatChallenge(cfg: Config, st: State, from: nat, e: Event, id: nat)
    requires e.Packet? && from in st.sessions && |e.data| >= 6
    ensures var st' := HeartbeatHandled(cfg, st, from, e.data, e.addr, e.rnd, e.names);
            id in st'.sessions ==>
              || (id in st.sessions && st'.sessions[id].challenge == st.sessions[id].challenge)
              || (id == from && st'.outbox == st.outbox + [OutMsg(ChallengePacket(id, st'.sessions[id].challenge), e.addr)])
  {
    hide Noted;
    hide Amended;
    hide ListUpdated;
    hide ParseKV;
    hide ServerChallenge;
    hide ChallengePacket;
    var k := ParseKV(e.data[5..]);
    var noted := Noted(cfg, st.sessions[from], k, e.names);
    NotedChallenge(cfg, st.sessions[from], k, e.names);
    ListUpdatedChallenge(st.(sessions := st.sessions[from := noted]), from, Amended(cfg, noted, k, e.addr), id);
  }

  lemma NotedChallenge(cfg: Config, sess: QrSession, k: Fields, names: int -> string)
    ensures var s := Noted(cfg, sess, k, names); s.challenge == sess.challenge && s.sentChallenge == sess.sentChallenge
  {
  }

  ghost predicate SessionAt(cfg: Config, events: seq<Event>, id: nat, k: nat)
    requires k <= |events|
  {
    id in StateAfter(cfg, events[..k]).sessions
  }

  ghost function ChallengeAt(cfg: Config, events: seq<Event>, id: nat, k: nat): string
    requires k <= |events| && SessionAt(cfg, events, id, k)
  {
    StateAfter(cfg, events[..k]).sessions[id].challenge
  }

  /** Event `i` is a heartbeat of the session, and what it added to the outbox is challenge `c`. */
  ghost predicate IssuedAt(cfg: Config, events: seq<Event>, id: nat, c: string, i: nat) {
    && i < |events| && IsBeat(events[i], id)
    && StateAfter(cfg, events[..i + 1]).outbox
       == StateAfter(cfg, events[..i]).outbox + [OutMsg(ChallengePacket(id, c), events[i].addr)]
  }

  /** Challenge `c` was issued at event `i`, and the session has lived from then until before event `n`. */
  ghost predicate IssuedInLife(cfg: Config, events: seq<Event>, id: nat, c: string, i: nat, n: nat)
    requires n <= |events|
  {
    IssuedAt(cfg, events, id, c, i) && i < n && forall k :: i < k <= n ==> SessionAt(cfg, events, id, k)
  }

  /** In every run the challenge that a session has was sent to it in its present life. */
  lemma {:induction false} FindChallenge(cfg: Config, events: seq<Event>, id: nat, n: nat) returns (i: nat)
    requires n <= |events| && SessionAt(cfg, events, id, n) && ChallengeAt(cfg, events, id, n) != ""
    ensures IssuedInLife(cfg, events, id, ChallengeAt(cfg, events, id, n), i, n)
    decreases n
  {
    hide Step;
    hide IsBeat;
    hide ChallengePacket;
    NobodyAtStart(cfg, events, id);
    var c := ChallengeAt(cfg, events, id, n);
    assert events[..n][..n - 1] == events[..n - 1];
    ChallengeStep(cfg, StateAfter(cfg, events[..n - 1]), events[n - 1], id);
    if SessionAt(cfg, events, id, n - 1) && ChallengeAt(cfg, events, id, n - 1) == c {
      i := FindChallenge(cfg, events, id, n - 1);
    } else {
      i := n - 1;
    }
  }

  lemma NobodyAtStart(cfg: Config, events: seq<Event>, id: nat)
    ensures !SessionAt(cfg, events, id, 0)
  {
  }

  /**
   Room ownership in every run: a room belongs to a live session that records its game and was
   sent its challenge in its present life; right after a tick, that session has sent a packet in
   the last 61 seconds.
   */
  lemma RoomOwnership(cfg: Config, events: seq<Event>, g: string, id: nat)
    requires OneGamePerLife(cfg, events) && HasRoom(StateAfter(cfg, events).rooms, g, id)
    ensures var st := StateAfter(cfg, events);
            && id in st.sessions && st.sessions[id].gamename == g && g != ""
            && st.sessions[id].challenge != ""
            && exists i: nat :: IssuedInLife(cfg, events, id, st.sessions[id].challenge, i, |events|)
    ensures events != [] && events[|events| - 1].Tick? ==>
              exists i :: 0 <= i < |events| && IsFrom(events[i], id) && 0 <= events[|events| - 1].now - events[i].now < 61_000_000_000
  {
    hide Step;
    var st := StateAfter(cfg, events);
    RunsAreFaithful(cfg, events);
    RunsChallenge(cfg, events);
    assert events[..|events|] == events;
    var issued := FindChallenge(cfg, events, id, |events|);
    assert IssuedInLife(cfg, events, id, st.sessions[id].challenge, issued, |events|);
    if events != [] && events[|events| - 1].Tick? {
      var i := KeepaliveIsPacketTime(cfg, events, id);
      SurvivesTick(cfg, StateAfter(cfg, events[..|events| - 1]), events[|events| - 1].now, id);
    }
  }

  lemma SurvivesTick(cfg: Config, st: State, now: int, id: nat)
    ensures var st' := Step(cfg, st, Tick(now)); id in st'.sessions ==> !Expired(st'.sessions[id], now)
  {
    TickSessions(st, now, id);
  }

  /** The first heartbeat of a session is answered with a challenge; a later one makes the room. */
  lemma HeartbeatEffect(cfg: Config, st: State, e: Event)
    requires NamesGame(e) && !Closing(ParseKV(e.data[5..]))
    ensures var id := SessionId(e.data);
            var st' := Step(cfg, st, e);
            && id in st'.sessions
            && (if id in st.sessions && st.sessions[id].sentChallenge
                then HasRoom(st'.rooms, NamedGame(e), id) && st'.sessions[id].gamename == NamedGame(e)
                     && st'.sessions[id].sentChallenge && st'.outbox == st.outbox
                else st'.sessions[id].sentChallenge && st'.rooms == st.rooms && exists m :: st'.outbox == st.outbox + [m] && |m.data| > 2 && m.data[2] == 0x01)
  {
    hide Noted;
    hide Amended;
    hide ServerChallenge;
    var id := SessionId(e.data);
    var k := ParseKV(e.data[5..]);
    var st' := Touched(st, id, e.addr, e.now);
    var noted := Noted(cfg, st'.sessions[id], k, e.names);
    NotedNames(cfg, st'.sessions[id], k, e.names);
    var k' := Amended(cfg, noted, k, e.addr);
    AmendedNames(cfg, noted, k, e.addr);
    AmendedCloses(cfg, noted, k, e.addr);
    if noted.sentChallenge {
      RoomAfterUpdate(st.rooms, RecordOf(k'["gamename"], id, k', noted.console), NamedGame(e), id);
    } else {
      var m := OutMsg(ChallengePacket(id, ServerChallenge(e.rnd, e.addr)), e.addr);
      assert Step(cfg, st, e).outbox == st.outbox + [m] && m.data[2] == 0x01;
    }
  }

  lemma AmendedCloses(cfg: Config, sess: QrSession, k: Fields, addr: UdpAddr)
    ensures Closing(Amended(cfg, sess, k, addr)) == Closing(k)
  {
  }
}
