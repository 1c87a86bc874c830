/**
 How rooms come and go in the Query & Reporting server, packet by packet and over whole runs:
 which of them stand without a verified proof, and how one is left without an owner.
 */
module QrRooms {
  import opened GoLib
  import opened Ip
  import opened Backend
  import opened Qr
  import opened QrRuns

  // ---------- one packet or tick ----------

  /** The packet is a challenge response of session `id`. */
  predicate Answers(st: State, e: Event, id: nat) {
    e.Packet? && |e.data| >= 6 && e.data[0] == 0x01 && SessionId(e.data) == id && id in st.sessions
  }

  /** ... and its proof is right. */
  predicate AnswersRight(cfg: Config, st: State, e: Event, id: nat) {
    && Answers(st, e, id)
    && TextOf(e.data[5..|e.data| - 1]) == Proof(cfg, st.sessions[id].secretkey, st.sessions[id].challenge)
  }

  /** The packet is a heartbeat of a session that was sent a challenge; whether it answered is not asked. */
  predicate Beats(st: State, e: Event, id: nat) {
    && e.Packet? && |e.data| >= 6 && e.data[0] == 0x03 && SessionId(e.data) == id
    && id in st.sessions && st.sessions[id].sentChallenge
  }

  /** Acting on these fields makes a room of game `g`. */
  predicate Opens(k: Fields, g: string) {
    !Closing(k) && "gamename" in k && k["gamename"] == g
  }

  /** Acting on these fields removes the session's room of game `g`. */
  predicate Shuts(sess: QrSession, k: Fields, g: string) {
    Closing(k) && ClosedGame(sess, k) == g
  }

  predicate ByProof(cfg: Config, st: State, e: Event, g: string, id: nat) {
    AnswersRight(cfg, st, e, id) && st.sessions[id].heartbeatData.Some? && Opens(st.sessions[id].heartbeatData.value, g)
  }

  predicate ByHeartbeat(st: State, e: Event, g: string, id: nat) {
    Beats(st, e, id) && Opens(ParseKV(e.data[5..]), g)
  }

  predicate Removes(cfg: Config, st: State, e: Event, g: string, id: nat) {
    id in st.sessions &&
    var sess := st.sessions[id];
    match e
    case Tick(now) => Expired(sess, now) && sess.gamename == g && g != ""
    case Packet(_, _, _, _, _) =>
      || (Answers(st, e, id) && !AnswersRight(cfg, st, e, id) && sess.gamename == g && g != "")
      || (AnswersRight(cfg, st, e, id) && sess.heartbeatData.Some? && Shuts(sess, sess.heartbeatData.value, g))
      || (Beats(st, e, id) && Shuts(sess, ParseKV(e.data[5..]), g))
  }

  lemma RoomAfterFields(st: State, id: nat, k: Fields, g: string, i: nat)
    requires id in st.sessions
    ensures HasRoom(ListUpdated(st, id, k).rooms, g, i) <==>
            || (i == id && Opens(k, g))
            || (HasRoom(st.rooms, g, i) && !(i == id && Shuts(st.sessions[id], k, g)))
  {
    if Closing(k) {
      RoomAfterDelete(st.rooms, ClosedGame(st.sessions[id], k), id, g, i);
    } else if "gamename" in k {
      RoomAfterUpdate(st.rooms, RecordOf(k["gamename"], id, k, st.sessions[id].console), g, i);
    }
  }

  lemma RoomAfterAnswer(cfg: Config, st: State, id: nat, data: seq<byte>, addr: UdpAddr, g: string, i: nat)
    requires id in st.sessions && |data| >= 6
    ensures var sess := st.sessions[id];
            var right := TextOf(data[5..|data| - 1]) == Proof(cfg, sess.secretkey, sess.challenge);
            HasRoom(ChallengeAnswered(cfg, st, id, data, addr).rooms, g, i) <==>
            || (i == id && right && sess.heartbeatData.Some? && Opens(sess.heartbeatData.value, g))
            || (HasRoom(st.rooms, g, i)
                && !(i == id && !right && sess.gamename == g && g != "")
                && !(i == id && right && sess.heartbeatData.Some? && Shuts(sess, sess.heartbeatData.value, g)))
  {
    hide Proof;
    hide ListUpdated;
    hide Opens;
    hide Shuts;
    var sess := st.sessions[id];
    RoomAfterDelete(st.rooms, sess.gamename, id, g, i);
    var st1 := st.(outbox := st.outbox + [OutMsg([0xfe, 0xfd, 0x0a] + ToLE(id % TWO32), addr)]);
    if sess.heartbeatData.Some? {
      RoomAfterFields(st1, id, sess.heartbeatData.value, g, i);
    }
  }

  lemma SameFields(cfg: Config, sess: QrSession, k: Fields, addr: UdpAddr, names: int -> string, g: string)
    ensures var noted := Noted(cfg, sess, k, names);
            && Opens(Amended(cfg, noted, k, addr), g) == Opens(k, g)
            && Shuts(noted, Amended(cfg, noted, k, addr), g) == Shuts(sess, k, g)
  {
    hide Noted;
    hide Amended;
    NotedNames(cfg, sess, k, names);
    AmendedNames(cfg, Noted(cfg, sess, k, names), k, addr);
    AmendedCloses(cfg, Noted(cfg, sess, k, names), k, addr);
  }

  lemma RoomAfterBeat(cfg: Config, st: State, id: nat, e: Event, g: string, i: nat)
    requires e.Packet? && id in st.sessions && |e.data| >= 6
    ensures var sess, k := st.sessions[id], ParseKV(e.data[5..]);
            HasRoom(HeartbeatHandled(cfg, st, id, e.data, e.addr, e.rnd, e.names).rooms, g, i) <==>
            || (i == id && sess.sentChallenge && Opens(k, g))
            || (HasRoom(st.rooms, g, i) && !(i == id && sess.sentChallenge && Shuts(sess, k, g)))
  {
    hide Noted;
    hide Amended;
    hide ListUpdated;
    hide Opens;
    hide Shuts;
    hide ParseKV;
    hide ServerChallenge;
    hide ChallengePacket;
    var sess, k := st.sessions[id], ParseKV(e.data[5..]);
    var noted := Noted(cfg, sess, k, e.names);
    var k' := Amended(cfg, noted, k, e.addr);
    NotedNames(cfg, sess, k, e.names);
    SameFields(cfg, sess, k, e.addr, e.names, g);
    if sess.sentChallenge {
      RoomAfterFields(st.(sessions := st.sessions[id := noted]), id, k', g, i);
    }
  }

  /**
   What a packet or tick does to a room: it is there afterwards exactly if it was registered, by a
   right proof or by a heartbeat of a challenged session, or was there and was not removed.
   */
  lemma RoomStepExactly(cfg: Config, st: State, e: Event, g: string, id: nat)
    ensures HasRoom(Step(cfg, st, e).rooms, g, id) <==>
            || ByProof(cfg, st, e, g, id)
            || ByHeartbeat(st, e, g, id)
            || (HasRoom(st.rooms, g, id) && !Removes(cfg, st, e, g, id))
  {
    hide ChallengeAnswered;
    hide HeartbeatHandled;
    hide TickHandled;
    hide Opens;
    hide Closing;
    hide Proof;
    hide ParseKV;
    hide HasRoom;
    match e
    case Tick(now) => RoomAfterTick(st, now, g, id);
    case Packet(data, addr, now, _, _) =>
      if data != [] && data[0] != 0x09 && |data| >= 5 {
        var from := SessionId(data);
        var st' := Touched(st, from, addr, now);
        ShortPackets(cfg, st', from, e);
        if |data| >= 6 {
          RoomAfterAnswer(cfg, st', from, data, addr, g, id);
          RoomAfterBeat(cfg, st', from, e, g, id);
        }
      }
  }

  // ---------- whole runs ----------

  ghost predicate RoomAt(cfg: Config, events: seq<Event>, g: string, id: nat, k: nat)
    requires k <= |events|
  {
    HasRoom(StateAfter(cfg, events[..k]).rooms, g, id)
  }

  /** The room has stood ever since event `i`. */
  ghost predicate StoodSince(cfg: Config, events: seq<Event>, g: string, id: nat, i: nat) {
    forall k :: i < k <= |events| ==> RoomAt(cfg, events, g, id, k)
  }

  ghost predicate Registers(cfg: Config, events: seq<Event>, g: string, id: nat, i: nat)
    requires i < |events|
  {
    ByProof(cfg, StateAfter(cfg, events[..i]), events[i], g, id) || ByHeartbeat(StateAfter(cfg, events[..i]), events[i], g, id)
  }

  /** The present life of the room began with event `i`. */
  ghost predicate BeganAt(cfg: Config, events: seq<Event>, g: string, id: nat, i: nat) {
    i < |events| && !RoomAt(cfg, events, g, id, i) && Registers(cfg, events, g, id, i) && StoodSince(cfg, events, g, id, i)
  }

  lemma RoomAtNext(cfg: Config, events: seq<Event>, g: string, id: nat, i: nat)
    requires i < |events|
    ensures RoomAt(cfg, events, g, id, i + 1) <==>
            || Registers(cfg, events, g, id, i)
            || (RoomAt(cfg, events, g, id, i) && !Removes(cfg, StateAfter(cfg, events[..i]), events[i], g, id))
  {
    hide Step;
    hide ByProof;
    hide ByHeartbeat;
    hide Removes;
    hide HasRoom;
    assert events[..i + 1][..i] == events[..i];
    RoomStepExactly(cfg, StateAfter(cfg, events[..i]), events[i], g, id);
  }

  lemma {:induction false} FindBeginning(cfg: Config, events: seq<Event>, g: string, id: nat, n: nat) returns (i: nat)
    requires n <= |events| && RoomAt(cfg, events, g, id, n)
    ensures i < n && !RoomAt(cfg, events, g, id, i) && Registers(cfg, events, g, id, i)
    ensures forall k :: i < k <= n ==> RoomAt(cfg, events, g, id, k)
    decreases n
  {
    NoRoomAtStart(cfg, events, g, id);
    hide RoomAt;
    hide Registers;
    RoomAtNext(cfg, events, g, id, n - 1);
    if RoomAt(cfg, events, g, id, n - 1) {
      i := FindBeginning(cfg, events, g, id, n - 1);
    } else {
      i := n - 1;
    }
  }

  lemma NoRoomAtStart(cfg: Config, events: seq<Event>, g: string, id: nat)
    ensures !RoomAt(cfg, events, g, id, 0)
  {
  }

  /** A room stands exactly if some packet began its life by a proof or a heartbeat. */
  lemma RoomsFromHistory(cfg: Config, events: seq<Event>, g: string, id: nat)
    ensures RoomAt(cfg, events, g, id, |events|) <==> exists i: nat :: BeganAt(cfg, events, g, id, i)
  {
    hide RoomAt;
    hide Registers;
    if RoomAt(cfg, events, g, id, |events|) {
      var i := FindBeginning(cfg, events, g, id, |events|);
      assert BeganAt(cfg, events, g, id, i);
    }
  }

  ghost predicate RightAt(cfg: Config, events: seq<Event>, id: nat, k: nat)
    requires k < |events|
  {
    AnswersRight(cfg, StateAfter(cfg, events[..k]), events[k], id)
  }

  /** In the room's present life its session gave a right answer. */
  ghost predicate Proven(cfg: Config, events: seq<Event>, g: string, id: nat) {
    exists k: nat :: k < |events| && RightAt(cfg, events, id, k) && StoodSince(cfg, events, g, id, k)
  }

  /** The room's life began with a heartbeat, event `i`, and there was no right answer since. */
  ghost predicate UnprovenSince(cfg: Config, events: seq<Event>, g: string, id: nat, i: nat) {
    && i < |events| && !RoomAt(cfg, events, g, id, i)
    && ByHeartbeat(StateAfter(cfg, events[..i]), events[i], g, id)
    && StoodSince(cfg, events, g, id, i)
    && forall k :: i < k < |events| ==> !RightAt(cfg, events, id, k)
  }

  /** A room stands unproven exactly if a heartbeat began its life and no right answer came since. */
  lemma UnprovenExactly(cfg: Config, events: seq<Event>, g: string, id: nat)
    ensures RoomAt(cfg, events, g, id, |events|) && !Proven(cfg, events, g, id) <==>
            exists i: nat :: UnprovenSince(cfg, events, g, id, i)
  {
    hide RoomAt;
    hide RightAt;
    hide ByProof;
    if RoomAt(cfg, events, g, id, |events|) && !Proven(cfg, events, g, id) {
      var i := FindBeginning(cfg, events, g, id, |events|);
      ProofsAreRight(cfg, events, g, id, i);
      assert StoodSince(cfg, events, g, id, i);
      assert UnprovenSince(cfg, events, g, id, i);
    }
    forall i: nat | UnprovenSince(cfg, events, g, id, i)
      ensures !Proven(cfg, events, g, id)
    {
      HeartbeatIsNoAnswer(cfg, events, g, id, i);
    }
  }

  lemma ProofsAreRight(cfg: Config, events: seq<Event>, g: string, id: nat, i: nat)
    requires i < |events|
    ensures ByProof(cfg, StateAfter(cfg, events[..i]), events[i], g, id) ==> RightAt(cfg, events, id, i)
  {
  }

  lemma HeartbeatIsNoAnswer(cfg: Config, events: seq<Event>, g: string, id: nat, i: nat)
    requires i < |events| && ByHeartbeat(StateAfter(cfg, events[..i]), events[i], g, id)
    ensures !RightAt(cfg, events, id, i)
  {
  }

  // ---------- every room's session was sent a challenge ----------

  /**
   In every run, with no assumption: the life of a room began with a packet of a session that had
   been sent its challenge in the life it was in then.
   */
  lemma RoomsWereChallenged(cfg: Config, events: seq<Event>, g: string, id: nat) returns (j: nat, i: nat)
    requires HasRoom(StateAfter(cfg, events).rooms, g, id)
    ensures BeganAt(cfg, events, g, id, j) && SessionAt(cfg, events, id, j)
    ensures IssuedInLife(cfg, events, id, ChallengeAt(cfg, events, id, j), i, j)
  {
    hide RoomAt;
    hide IssuedInLife;
    assert events[..|events|] == events;
    assert RoomAt(cfg, events, g, id, |events|) by { RoomAtEnd(cfg, events, g, id); }
    j := FindBeginning(cfg, events, g, id, |events|);
    ChallengedToRegister(cfg, events, g, id, j);
    i := FindChallenge(cfg, events, id, j);
  }

  lemma RoomAtEnd(cfg: Config, events: seq<Event>, g: string, id: nat)
    ensures RoomAt(cfg, events, g, id, |events|) <==> HasRoom(StateAfter(cfg, events).rooms, g, id)
  {
    assert events[..|events|] == events;
  }

  /** A session that registers a room has a challenge. */
  lemma ChallengedToRegister(cfg: Config, events: seq<Event>, g: string, id: nat, j: nat)
    requires j < |events| && Registers(cfg, events, g, id, j)
    ensures SessionAt(cfg, events, id, j) && ChallengeAt(cfg, events, id, j) != ""
  {
    hide Proof;
    hide ParseKV;
    hide Opens;
    hide ChallengePacket;
    RunsChallenge(cfg, events[..j]);
  }

  // ---------- real packets ----------

  /** The heartbeat of a session that names a game, as a client sends it. */
  function HeartbeatData(id: nat, game: string): seq<byte>
    requires id < TWO32
  {
    [0x03] + ToLE(id) + (BytesOf("gamename") + [0] + BytesOf(game) + [0])
  }

  lemma HeartbeatReads(id: nat, game: string)
    requires id < TWO32 && game != "" && forall i :: 0 <= i < |game| ==> 0 < game[i] as int < 256
    ensures var data := HeartbeatData(id, game);
            |data| >= 6 && SessionId(data) == id && ParseKV(data[5..]) == map["gamename" := game]
  {
    hide SplitOn;
    var data := HeartbeatData(id, game);
    var key := "gamename";
    var body := BytesOf(key) + [0] + BytesOf(game);
    assert data[1..5] == ToLE(id);
    WordReads(id);
    assert data[5..] == body + [0];
    assert (body + [0])[..|body|] == body;
    assert body[|body| - 1] == game[|game| - 1] as int;
    assert TrimZeros(body + [0]) == TrimZeros(body) == body;
    TextOfParts(key, game);
    assert TextOf(TrimZeros(data[5..])) == key + ['\U{0}'] + game;
    SplitFirst(key, '\U{0}', game);
    SplitFirst(game, '\U{0}', "");
    var parts := [key, game];
    assert [key] + [game] == parts;
    assert Paired(parts, map[]) == Paired(parts[2..], map[key := game]) == map[key := game];
  }

  lemma TextOfParts(key: string, game: string)
    requires forall i :: 0 <= i < |key| ==> key[i] as int < 256
    requires forall i :: 0 <= i < |game| ==> game[i] as int < 256
    ensures TextOf(BytesOf(key) + [0] + BytesOf(game)) == key + ['\U{0}'] + game
  {
  }

  /** The heartbeat of `game` from session 1. */
  function Beat(game: string, addr: UdpAddr): Event {
    Packet(HeartbeatData(1, game), addr, 0, "abcdef", (pid: int) => "")
  }

  /** A room needs no proof: any heartbeat that names a game, sent twice, registers one. */
  lemma UnprovenRoom(cfg: Config, e: Event)
    requires NamesGame(e) && !Closing(ParseKV(e.data[5..]))
    ensures HasRoom(StateAfter(cfg, [e, e]).rooms, NamedGame(e), SessionId(e.data))
    ensures forall m :: m in StateAfter(cfg, [e, e]).outbox ==> |m.data| > 2 && m.data[2] == 0x01
  {
    hide Step;
    hide ParseKV;
    assert [e, e][..1] == [e] && [e][..0] == [];
    assert StateAfter(cfg, [e]) == Step(cfg, START, e);
    HeartbeatEffect(cfg, START, e);
    HeartbeatEffect(cfg, StateAfter(cfg, [e]), e);
  }

  /** A heartbeat of one game twice and then of another: the first room is left without an owner. */
  lemma OrphanedRoom(cfg: Config, addr: UdpAddr)
    ensures var st := StateAfter(cfg, [Beat("a", addr), Beat("a", addr), Beat("b", addr)]);
            && HasRoom(st.rooms, "a", 1) && 1 in st.sessions && st.sessions[1].gamename == "b" && !Owned(st)
  {
    hide Step;
    hide ParseKV;
    hide HeartbeatData;
    var a, b := Beat("a", addr), Beat("b", addr);
    HeartbeatReads(1, "a");
    HeartbeatReads(1, "b");
    BeatNames("a", addr);
    BeatNames("b", addr);
    assert [a, a, b][..2] == [a, a] && [a, a][..1] == [a] && [a][..0] == [];
    assert StateAfter(cfg, [a]) == Step(cfg, START, a);
    var st1, st2 := StateAfter(cfg, [a]), StateAfter(cfg, [a, a]);
    HeartbeatEffect(cfg, START, a);
    HeartbeatEffect(cfg, st1, a);
    HeartbeatEffect(cfg, st2, b);
    RoomStepExactly(cfg, st2, b, "a", 1);
  }

  lemma BeatNames(game: string, addr: UdpAddr)
    requires game != "" && forall i :: 0 <= i < |game| ==> 0 < game[i] as int < 256
    ensures var e := Beat(game, addr);
            && NamesGame(e) && NamedGame(e) == game && SessionId(e.data) == 1 && !Closing(ParseKV(e.data[5..]))
            && e.data[0] == 0x03
  {
    HeartbeatReads(1, game);
  }
}
