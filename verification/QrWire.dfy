/**
 What the Query & Reporting server reads from a heartbeat, sends as a challenge and takes for the
 right answer, told from the client's side.
 */
module QrWire {
  import opened GoLib
  import opened Ip
  import opened Backend
  import opened Qr
  import opened QrRuns
  import opened QrRooms
  import Rc4
  import Rc4Meaning

  // ---------- heartbeat fields ----------

  /** A field as a client writes it. */
  datatype Sent = Sent(key: string, value: string)

  /** Characters of one byte other than NUL. */
  predicate IsPlain(s: string) {
    forall i :: 0 <= i < |s| ==> 0 < s[i] as int < 256
  }

  /** Keys and values with a NUL between any two. */
  function FieldText(fields: seq<Sent>): string
    requires fields != []
  {
    var first := fields[0].key + ['\U{0}'] + fields[0].value;
    if |fields| == 1 then first else first + ['\U{0}'] + FieldText(fields[1..])
  }

  function Flat(fields: seq<Sent>): seq<string> {
    if fields == [] then [] else [fields[0].key, fields[0].value] + Flat(fields[1..])
  }

  predicate AllPlain(fields: seq<Sent>) {
    forall i :: 0 <= i < |fields| ==> IsPlain(fields[i].key) && IsPlain(fields[i].value)
  }

  lemma {:induction false} SplitsFields(fields: seq<Sent>)
    requires fields != [] && AllPlain(fields)
    ensures SplitOn(FieldText(fields), '\U{0}') == Flat(fields)
  {
    hide SplitOn;
    var key, value := fields[0].key, fields[0].value;
    if |fields| == 1 {
      SplitFirst(key, '\U{0}', value);
      SplitFirst(value, '\U{0}', "");
      assert Flat(fields[1..]) == [];
      assert [key] + [value] == [key, value] + [];
    } else {
      var more := FieldText(fields[1..]);
      SplitsFields(fields[1..]);
      SplitFirst(value, '\U{0}', more);
      SplitFirst(key, '\U{0}', value + ['\U{0}'] + more);
      assert key + ['\U{0}'] + value + ['\U{0}'] + more == key + ['\U{0}'] + (value + ['\U{0}'] + more);
      assert [key] + ([value] + Flat(fields[1..])) == [key, value] + Flat(fields[1..]);
    }
  }

  /** The last value that was written for a key, or what was there before. */
  ghost predicate Overwrites(before: Fields, fields: seq<Sent>, after: Fields) {
    && (forall key :: key in after <==> key in before || exists i :: 0 <= i < |fields| && fields[i].key == key)
    && (forall key :: key in before && (forall i :: 0 <= i < |fields| ==> fields[i].key != key) ==> after[key] == before[key])
    && (forall i :: 0 <= i < |fields| && (forall j :: i < j < |fields| ==> fields[j].key != fields[i].key) ==>
          after[fields[i].key] == fields[i].value)
  }

  lemma {:induction false} PairsOverwrite(fields: seq<Sent>, m: Fields)
    ensures Overwrites(m, fields, Paired(Flat(fields), m))
    decreases |fields|
  {
    if fields != [] {
      var m' := m[fields[0].key := fields[0].value];
      PairsOverwrite(fields[1..], m');
      assert Flat(fields)[2..] == Flat(fields[1..]);
      OverwritesFirst(m, fields, Paired(Flat(fields), m));
    }
  }

  lemma OverwritesFirst(m: Fields, fields: seq<Sent>, after: Fields)
    requires fields != [] && Overwrites(m[fields[0].key := fields[0].value], fields[1..], after)
    ensures Overwrites(m, fields, after)
  {
    var rest := fields[1..];
    assert forall i :: 0 < i < |fields| ==> fields[i] == rest[i - 1];
    assert forall i :: 0 <= i < |rest| ==> rest[i] == fields[i + 1];
    forall i | 0 <= i < |fields| && (forall j :: i < j < |fields| ==> fields[j].key != fields[i].key)
      ensures fields[i].key in after && after[fields[i].key] == fields[i].value
    {
      if i > 0 {
        forall j | i - 1 < j < |rest|
          ensures rest[j].key != rest[i - 1].key
        {
          assert rest[j] == fields[j + 1];
        }
      }
    }
  }

  lemma {:induction false} TrimsZeros(b: seq<byte>, zeros: seq<byte>)
    requires forall i :: 0 <= i < |zeros| ==> zeros[i] == 0
    requires b != [] && b[|b| - 1] != 0
    ensures TrimZeros(b + zeros) == b
    decreases |zeros|
  {
    if zeros == [] {
      assert b + zeros == b;
    } else {
      assert (b + zeros)[..|b + zeros| - 1] == b + zeros[..|zeros| - 1];
      TrimsZeros(b, zeros[..|zeros| - 1]);
    }
  }

  lemma {:induction false} FieldTextIsBytes(fields: seq<Sent>)
    requires fields != [] && AllPlain(fields) && fields[|fields| - 1].value != ""
    ensures var text := FieldText(fields);
            && text != "" && text[|text| - 1] as int != 0
            && forall i :: 0 <= i < |text| ==> text[i] as int < 256
  {
    if |fields| > 1 {
      FieldTextIsBytes(fields[1..]);
    }
  }

  /**
   The fields of a heartbeat are read as they were written, the last value of a key counting, however
   many zero bytes end the packet; a last value that is empty is the one thing the zeros hide.
   */
  lemma FieldsRead(fields: seq<Sent>, zeros: seq<byte>)
    requires fields != [] && AllPlain(fields) && fields[|fields| - 1].value != ""
    requires forall i :: 0 <= i < |zeros| ==> zeros[i] == 0
    ensures Overwrites(map[], fields, ParseKV(BytesOf(FieldText(fields)) + zeros))
  {
    hide SplitOn;
    hide TrimZeros;
    hide Paired;
    hide Overwrites;
    hide FieldText;
    hide AllPlain;
    var text := FieldText(fields);
    FieldTextIsBytes(fields);
    TrimsZeros(BytesOf(text), zeros);
    assert TextOf(BytesOf(text)) == text;
    SplitsFields(fields);
    PairsOverwrite(fields, map[]);
  }

  predicate EndsWith(s: string, end: string) {
    |end| <= |s| && forall i :: 0 <= i < |end| ==> s[|s| - |end| + i] == end[i]
  }

  lemma SuffixMeaning(s: string, end: string)
    ensures HasSuffix(s, end) <==> EndsWith(s, end)
  {
  }

  /** The games of the Wii, by their names. */
  lemma ConsoleMeaning(game: string)
    ensures DetectConsole(game) ==
            if EndsWith(game, "wii") || EndsWith(game, "wiiam") || EndsWith(game, "wiiware") || EndsWith(game, "wiiwaream")
            then 1 else 0
  {
    forall end
      ensures HasSuffix(game, end) <==> EndsWith(game, end)
    {
      SuffixMeaning(game, end);
    }
    LastChars(game);
  }

  lemma CharFromEnd(s: string, end: string, k: nat)
    requires 0 < k <= |end|
    ensures EndsWith(s, end) ==> |s| >= |end| && s[|s| - k] == end[|end| - k]
  {
    if EndsWith(s, end) {
      var i := |end| - k;
      assert s[|s| - |end| + i] == end[i];
    }
  }

  /** No name ends both like a Wii game and like a DS game. */
  lemma LastChars(game: string)
    ensures EndsWith(game, "wii") || EndsWith(game, "wiiam") || EndsWith(game, "wiiware") || EndsWith(game, "wiiwaream") ==>
              !(EndsWith(game, "ds") || EndsWith(game, "dsam") || EndsWith(game, "dsi") || EndsWith(game, "dsiam"))
  {
    hide EndsWith;
    CharFromEnd(game, "ds", 1);
    CharFromEnd(game, "dsam", 1);
    CharFromEnd(game, "dsam", 3);
    CharFromEnd(game, "dsi", 1);
    CharFromEnd(game, "dsi", 2);
    CharFromEnd(game, "dsiam", 1);
    CharFromEnd(game, "dsiam", 3);
    CharFromEnd(game, "dsiam", 4);
    CharFromEnd(game, "wii", 1);
    CharFromEnd(game, "wii", 2);
    CharFromEnd(game, "wiiam", 1);
    CharFromEnd(game, "wiiam", 3);
    CharFromEnd(game, "wiiam", 4);
    CharFromEnd(game, "wiiware", 1);
    CharFromEnd(game, "wiiwaream", 1);
    CharFromEnd(game, "wiiwaream", 3);
  }

  /** What becomes of every field of a heartbeat. */
  lemma FieldsAmended(cfg: Config, sess: QrSession, k: Fields, addr: UdpAddr, key: string)
    ensures var k' := Amended(cfg, sess, k, addr);
            var named := key == "ingamesn" && key !in k && cfg.hasProfiles && sess.ingamesn != "";
            && (key in k' <==> key in k || named)
            && (named ==> k'[key] == sess.ingamesn)
            && (key in k ==>
                  k'[key] ==
                  if key == "publicip" && k[key] == "0" then SignedIPString(addr.ip, sess.console)
                  else if key == "localip0" && cfg.rewriteDolphinLocalIP && k[key] == "10.0.1.30" && addr.ip.V4?
                  then FormatNat(addr.ip.a) + "." + FormatNat(addr.ip.b) + "." + FormatNat(addr.ip.c) + "." + FormatNat(addr.ip.d)
                  else if key == "publicport" && "localport" in k && k[key] != k["localport"] then FormatNat(addr.port)
                  else k[key])
  {
  }

  /** What a session takes from a heartbeat. */
  lemma SessionNotes(cfg: Config, sess: QrSession, k: Fields, names: int -> string)
    ensures var s := Noted(cfg, sess, k, names);
            var pid := if "dwc_pid" in k then ParseInt64(k["dwc_pid"]) else None;
            && s.secretkey == (if "gamename" in k && k["gamename"] in cfg.keys then cfg.keys[k["gamename"]] else sess.secretkey)
            && s.console == (if "gamename" in k then DetectConsole(k["gamename"]) else sess.console)
            && s.playerid == (if sess.playerid == 0 && pid.Some? then pid.value else sess.playerid)
            && s.ingamesn == (if cfg.hasProfiles && "gamename" in k && pid.Some? && names(pid.value) != ""
                              then names(pid.value) else sess.ingamesn)
            && s == sess.(secretkey := s.secretkey, console := s.console, playerid := s.playerid, ingamesn := s.ingamesn)
  {
    assert ParseInt64("").None?;
  }

  // ---------- the challenge ----------

  /** The value of a hexadecimal digit, `0` to `9` or `A` to `F`. */
  function HexValue(b: byte): int {
    if 48 <= b <= 57 then b - 48 else if 65 <= b <= 70 then b - 55 else -1
  }

  function HexPair(p: seq<byte>, i: nat): int
    requires i + 1 < |p|
  {
    16 * HexValue(p[i]) + HexValue(p[i + 1])
  }

  lemma HexReads(b: byte)
    ensures var p := BytesOf(Hex2(b)); |p| == 2 && HexPair(p, 0) == b
  {
    HexDigitReads(b / 16);
    HexDigitReads(b % 16);
  }

  lemma HexDigitReads(d: nat)
    requires d < 16
    ensures HexDigit(d) as int < 256 && HexValue(HexDigit(d) as int) == d
  {
  }

  /** A challenge names the session and the address and port it was sent to. */
  lemma ChallengeSays(id: nat, rnd: string, addr: UdpAddr)
    requires id < TWO32 && |rnd| == 6 && addr.ip.V4?
    ensures var p := ChallengePacket(id, ServerChallenge(rnd, addr));
            && |p| == 28 && p[..3] == [0xfe, 0xfd, 0x01] && FromLE(p[3..7]) == id
            && p[7..13] == BytesOf(rnd) && p[13..15] == [48, 48]
            && HexPair(p, 15) == addr.ip.a && HexPair(p, 17) == addr.ip.b
            && HexPair(p, 19) == addr.ip.c && HexPair(p, 21) == addr.ip.d
            && 256 * HexPair(p, 23) + HexPair(p, 25) == addr.port
            && p[27] == 0
  {
    hide ToLE;
    hide FromLE;
    hide Hex2;
    WordReads(id);
    var ip, port := addr.ip, addr.port;
    HexReads(ip.a);
    HexReads(ip.b);
    HexReads(ip.c);
    HexReads(ip.d);
    HexReads(port / 256);
    HexReads(port % 256);
    var p := ChallengePacket(id, ServerChallenge(rnd, addr));
    assert p[3..7] == ToLE(id);
    assert p == [0xfe, 0xfd, 0x01] + ToLE(id) + BytesOf(rnd) + [48, 48]
           + BytesOf(Hex2(ip.a)) + BytesOf(Hex2(ip.b)) + BytesOf(Hex2(ip.c)) + BytesOf(Hex2(ip.d))
           + BytesOf(Hex2(port / 256)) + BytesOf(Hex2(port % 256)) + [0];
  }

  /** The right answer to a challenge packet: its text encrypted with the game's key, a zero byte, all in base64. */
  ghost predicate IsRightAnswer(cfg: Config, key: string, packet: seq<byte>, answer: seq<byte>)
    requires |packet| >= 8 && |answer| >= 6
  {
    exists cipher :: Rc4Meaning.IsEncryption(BytesOf(key), packet[7..|packet| - 1], cipher)
                     && TextOf(answer[5..|answer| - 1]) == cfg.b64(cipher + [0])
  }

  lemma ProofMeaning(cfg: Config, key: string, id: nat, challenge: string, answer: seq<byte>)
    requires |answer| >= 6 && key != "" && challenge != ""
    ensures TextOf(answer[5..|answer| - 1]) == Proof(cfg, key, challenge) <==>
            IsRightAnswer(cfg, key, ChallengePacket(id, challenge), answer)
  {
    hide Rc4.Encrypted;
    hide Rc4Meaning.IsEncryption;
    var packet := ChallengePacket(id, challenge);
    assert packet[7..|packet| - 1] == BytesOf(challenge);
    forall cipher
      ensures Rc4Meaning.IsEncryption(BytesOf(key), BytesOf(challenge), cipher) <==>
              Rc4.Encrypted(BytesOf(key), BytesOf(challenge)) == Some(cipher)
    {
      Rc4Meaning.EncryptsExactly(BytesOf(key), BytesOf(challenge), cipher);
    }
    HasKey(key, challenge);
  }

  lemma HasKey(key: string, challenge: string)
    requires key != ""
    ensures Rc4.Encrypted(BytesOf(key), BytesOf(challenge)).Some?
  {
  }

  /** A game whose key is unknown asks for the proof of the empty text. */
  lemma ProofWithoutKey(cfg: Config, challenge: string)
    ensures Proof(cfg, "", challenge) == cfg.b64([0])
  {
    assert [] + [0 as byte] == [0];
  }

  // ---------- admission ----------

  lemma FirstHeartbeat(cfg: Config, st: State, e: Event)
    requires NamesGame(e) && !Closing(ParseKV(e.data[5..]))
    requires var id := SessionId(e.data); id in st.sessions ==> !st.sessions[id].sentChallenge
    ensures var id := SessionId(e.data);
            var st', k := Step(cfg, st, e), ParseKV(e.data[5..]);
            var noted := Noted(cfg, Touched(st, id, e.addr, e.now).sessions[id], k, e.names);
            var challenge := ServerChallenge(e.rnd, e.addr);
            && st'.outbox == st.outbox + [OutMsg(ChallengePacket(id, challenge), e.addr)]
            && st'.rooms == st.rooms
            && id in st'.sessions
            && st'.sessions[id] == noted.(challenge := challenge, sentChallenge := true,
                                          heartbeatData := Some(Amended(cfg, noted, k, e.addr)))
  {
    hide Noted;
    hide Amended;
    hide ParseKV;
    hide ServerChallenge;
    hide ChallengePacket;
    var id := SessionId(e.data);
    NotedNames(cfg, Touched(st, id, e.addr, e.now).sessions[id], ParseKV(e.data[5..]), e.names);
  }

  lemma AnswerHandled(cfg: Config, st: State, e: Event, id: nat)
    requires e.Packet? && |e.data| >= 6 && e.data[0] == 0x01 && SessionId(e.data) == id && id in st.sessions
    ensures var st' := Step(cfg, st, e);
            var sess := st.sessions[id].(addr := e.addr, keepalive := e.now);
            if TextOf(e.data[5..|e.data| - 1]) == Proof(cfg, sess.secretkey, sess.challenge)
            then && st'.outbox == st.outbox + [OutMsg([0xfe, 0xfd, 0x0a] + e.data[1..5], e.addr)]
                 && (sess.heartbeatData.Some? && Opens(sess.heartbeatData.value, Get(sess.heartbeatData.value, "gamename")) ==>
                       var k := sess.heartbeatData.value;
                       st'.rooms == Updated(st.rooms, RecordOf(k["gamename"], id, k, sess.console)))
            else && st'.outbox == st.outbox
                 && id in st'.sessions && !st'.sessions[id].sentChallenge
                 && st'.rooms == if sess.gamename == "" then st.rooms else Deleted(st.rooms, sess.gamename, id)
  {
    hide Proof;
    hide TextOf;
    WordRoundTrip(e.data[1..5]);
    assert SessionId(e.data) % TWO32 == SessionId(e.data);
  }

  /**
   A host that names a game with a known key is sent a challenge; if it then encrypts that with the
   key it is told so and its room is registered with the heartbeat's fields, and if it answers
   anything else it gets no word and no room and has to ask for a new challenge.
   */
  lemma AdmittedExactly(cfg: Config, st: State, beat: Event, answer: Event)
    requires NamesGame(beat) && !Closing(ParseKV(beat.data[5..]))
    requires NamedGame(beat) in cfg.keys && cfg.keys[NamedGame(beat)] != ""
    requires SessionId(beat.data) !in st.sessions && !HasRoom(st.rooms, NamedGame(beat), SessionId(beat.data))
    requires answer.Packet? && |answer.data| >= 6 && answer.data[0] == 0x01 && SessionId(answer.data) == SessionId(beat.data)
    ensures var game, id := NamedGame(beat), SessionId(beat.data);
            var st1 := Step(cfg, st, beat);
            var st2 := Step(cfg, st1, answer);
            && |st1.outbox| == |st.outbox| + 1 && st1.outbox[..|st.outbox|] == st.outbox && st1.rooms == st.rooms
            && var sent := st1.outbox[|st.outbox|];
            && sent.addr == beat.addr && |sent.data| >= 8
            && if IsRightAnswer(cfg, cfg.keys[game], sent.data, answer.data)
               then st2.outbox == st1.outbox + [OutMsg([0xfe, 0xfd, 0x0a] + answer.data[1..5], answer.addr)]
                    && RoomSays(cfg, ListOf(st2.rooms, game), beat)
               else st2.outbox == st1.outbox && st2.rooms == st.rooms
                    && id in st2.sessions && !st2.sessions[id].sentChallenge
  {
    hide Step;
    hide Noted;
    hide Amended;
    hide ParseKV;
    hide ServerChallenge;
    hide Proof;
    hide IsRightAnswer;
    var game, id, k := NamedGame(beat), SessionId(beat.data), ParseKV(beat.data[5..]);
    var sess := Touched(st, id, beat.addr, beat.now).sessions[id];
    var noted := Noted(cfg, sess, k, beat.names);
    FirstHeartbeat(cfg, st, beat);
    var challenge := ServerChallenge(beat.rnd, beat.addr);
    SessionNotes(cfg, sess, k, beat.names);
    var st1 := Step(cfg, st, beat);
    AnswerHandled(cfg, st1, answer, id);
    ProofMeaning(cfg, cfg.keys[game], id, challenge, answer.data);
    AmendedNames(cfg, noted, k, beat.addr);
    AmendedCloses(cfg, noted, k, beat.addr);
    HoldsRecord(cfg, st.rooms, beat);
  }

  /** The list has a record of the host's session with the amended fields of its heartbeat. */
  ghost predicate RoomSays(cfg: Config, list: seq<ServerRecord>, beat: Event)
    requires NamesGame(beat)
  {
    var game, k := NamedGame(beat), ParseKV(beat.data[5..]);
    var sess := Noted(cfg, QrSession(beat.addr, "", "", false, None, 0, 0, "", "", beat.now), k, beat.names);
    RecordOf(game, SessionId(beat.data), Amended(cfg, sess, k, beat.addr), DetectConsole(game)) in list
  }

  lemma HoldsRecord(cfg: Config, rooms: Rooms, beat: Event)
    requires NamesGame(beat)
    ensures var game, k := NamedGame(beat), ParseKV(beat.data[5..]);
            var sess := Noted(cfg, QrSession(beat.addr, "", "", false, None, 0, 0, "", "", beat.now), k, beat.names);
            var rec := RecordOf(game, SessionId(beat.data), Amended(cfg, sess, k, beat.addr), DetectConsole(game));
            RoomSays(cfg, ListOf(Updated(rooms, rec), game), beat)
  {
    hide ParseKV;
    hide Noted;
    hide Amended;
    var game, k := NamedGame(beat), ParseKV(beat.data[5..]);
    var sess := Noted(cfg, QrSession(beat.addr, "", "", false, None, 0, 0, "", "", beat.now), k, beat.names);
    var i := PutHolds(ListOf(rooms, game), RecordOf(game, SessionId(beat.data), Amended(cfg, sess, k, beat.addr), DetectConsole(game)));
  }

  // ---------- staying and going ----------

  /**
   A tick keeps exactly the sessions that were heard of in the last 61 seconds, as they are, and
   every room but those that a session that goes has recorded.
   */
  lemma TickKeepsExactly(cfg: Config, st: State, now: int, g: string, id: nat)
    ensures var st' := Step(cfg, st, Tick(now));
            var recent := id in st.sessions && 0 <= now - st.sessions[id].keepalive < 61_000_000_000;
            && (id in st'.sessions <==> recent)
            && (recent ==> st'.sessions[id] == st.sessions[id])
            && (HasRoom(st'.rooms, g, id) <==>
                  HasRoom(st.rooms, g, id) && (recent || id !in st.sessions || st.sessions[id].gamename != g || g == ""))
            && st'.outbox == st.outbox
  {
    hide TickHandled;
    hide HasRoom;
    TickSessions(st, now, id);
    RoomAfterTick(st, now, g, id);
    TickIsSilent(st, now);
  }

  lemma TickIsSilent(st: State, now: int)
    ensures TickHandled(st, now).outbox == st.outbox
  {
  }

  /** An availability probe is answered with "available" and changes nothing else. */
  lemma ProbeIsAnswered(cfg: Config, st: State, e: Event)
    requires e.Packet? && e.data != [] && e.data[0] == 9
    ensures Step(cfg, st, e) == st.(outbox := st.outbox + [OutMsg([254, 253, 9, 0, 0, 0, 0], e.addr)])
  {
  }

  // ---------- heartbeats of a challenged session ----------

  /** A heartbeat of a session that was sent a challenge registers its room with the amended fields. */
  lemma LaterHeartbeat(cfg: Config, st: State, e: Event)
    requires NamesGame(e) && !Closing(ParseKV(e.data[5..]))
    requires SessionId(e.data) in st.sessions && st.sessions[SessionId(e.data)].sentChallenge
    ensures var id, game, k, st' := SessionId(e.data), NamedGame(e), ParseKV(e.data[5..]), Step(cfg, st, e);
            var noted := Noted(cfg, st.sessions[id].(addr := e.addr, keepalive := e.now), k, e.names);
            && st'.rooms == Updated(st.rooms, RecordOf(game, id, Amended(cfg, noted, k, e.addr), DetectConsole(game)))
            && st'.sessions == st.sessions[id := noted.(gamename := game)]
            && st'.outbox == st.outbox
  {
    hide Noted;
    hide Amended;
    hide ParseKV;
    hide Closing;
    var id, k := SessionId(e.data), ParseKV(e.data[5..]);
    var sess := st.sessions[id].(addr := e.addr, keepalive := e.now);
    var noted := Noted(cfg, sess, k, e.names);
    SessionNotes(cfg, sess, k, e.names);
    AmendedNames(cfg, noted, k, e.addr);
    AmendedCloses(cfg, noted, k, e.addr);
  }

  /** A heartbeat of a challenged session that says it closes ends the session and its room. */
  lemma ClosingHeartbeat(cfg: Config, st: State, e: Event, g: string, i: nat)
    requires e.Packet? && |e.data| >= 6 && e.data[0] == 0x03
    requires var k := ParseKV(e.data[5..]); "statechanged" in k && k["statechanged"] == "2"
    requires SessionId(e.data) in st.sessions && st.sessions[SessionId(e.data)].sentChallenge
    ensures var id, k, st' := SessionId(e.data), ParseKV(e.data[5..]), Step(cfg, st, e);
            var game := if "gamename" in k && k["gamename"] != "" then k["gamename"] else st.sessions[id].gamename;
            && st'.sessions == st.sessions - {id} && st'.outbox == st.outbox
            && (HasRoom(st'.rooms, g, i) <==> HasRoom(st.rooms, g, i) && !(g == game && i == id))
  {
    hide Noted;
    hide Amended;
    hide ParseKV;
    hide HasRoom;
    var id, k := SessionId(e.data), ParseKV(e.data[5..]);
    var sess := st.sessions[id].(addr := e.addr, keepalive := e.now);
    var noted := Noted(cfg, sess, k, e.names);
    SessionNotes(cfg, sess, k, e.names);
    AmendedNames(cfg, noted, k, e.addr);
    AmendedCloses(cfg, noted, k, e.addr);
    var game := if "gamename" in k && k["gamename"] != "" then k["gamename"] else st.sessions[id].gamename;
    RoomAfterDelete(st.rooms, game, id, g, i);
  }
}
