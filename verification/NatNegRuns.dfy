/** What holds of every run of the NAT negotiation server, told from the events alone. */
module NatNegRuns {
  import opened GoLib
  import opened ByteTable
  import opened Ip
  import opened Backend
  import opened NatNeg
  import opened NatNegWire

  // ---------- one INIT ----------

  /** Every client that waits is visited once. */
  lemma {:induction false} PartnersOnce(clients: map<byte, ClientSlot>, me: byte, order: seq<byte>)
    requires ByteTable.Distinct(order)
    ensures ByteTable.Distinct(Partners(clients, me, order))
  {
    if order != [] {
      var init, last := order[..|order| - 1], order[|order| - 1];
      PartnersOnce(clients, me, init);
      PartnersWait(clients, me, init);
      assert last !in init;
    }
  }

  lemma {:induction false} IntroductionsAt(
      header: seq<byte>, clients: map<byte, ClientSlot>, me: byte, partners: seq<byte>, lookup: Lookup, k: nat)
    requires |header| >= 12 && me in clients && (forall b :: b in partners ==> b in clients) && k < |partners|
    ensures var msgs := Introductions(header, clients, me, partners, lookup);
            && msgs[2 * k] == Introduction(header, clients[me], clients[partners[k]], lookup)
            && msgs[2 * k + 1] == Introduction(header, clients[partners[k]], clients[me], lookup)
  {
    hide Introduction;
    var n := |partners| - 1;
    var init := partners[..n];
    var earlier := Introductions(header, clients, me, init, lookup);
    assert |earlier| == 2 * n;
    if k < n {
      assert init[k] == partners[k];
      IntroductionsAt(header, clients, me, partners[..n], lookup, k);
    }
  }

  /** A connect packet carries the session, the remote address and the port, byte for byte. */
  lemma ConnectPacketNames(template: seq<byte>, remote: UdpAddr, port: Port)
    requires IsInit(template) && remote.ip.V4?
    ensures var p := ConnectPacket(template, remote, port);
            && IsNatNeg(p) && p[7] == 0x05 && SessionId(p) == SessionId(template)
            && p[12..16] == QuadOf(remote.ip) && 256 * (p[16] as int) + p[17] as int == port && p[18..] == [0x42, 0x00]
  {
    var p := ConnectPacket(template, remote, port);
    assert p[8..12] == template[8..12];
    assert p[..6] == template[..6];
    assert p[12..16] == QuadOf(remote.ip);
  }

  // ---------- histories ----------

  /** An INIT of client `index` of session `id`. */
  predicate Joins(e: Event, id: nat, index: byte) {
    e.Packet? && IsInit(e.data) && SessionId(e.data) == id && e.data[13] == index
  }

  predicate Acks(e: Event, id: nat, index: byte) {
    e.Packet? && IsConnectAck(e.data) && SessionId(e.data) == id && e.data[13] == index
  }

  /** The session has been there since event `i`. */
  ghost predicate AliveSince(events: seq<Event>, id: nat, i: nat)
    requires AllSane(events)
  {
    forall k :: i < k <= |events| ==> AliveAt(events, id, k)
  }

  /** Event `i` is the client's latest INIT, in the session's present life. */
  ghost predicate Standing(events: seq<Event>, id: nat, index: byte, i: nat)
    requires AllSane(events)
  {
    && i < |events| && Joins(events[i], id, index)
    && (forall k :: i < k < |events| ==> !Joins(events[k], id, index))
    && AliveSince(events, id, i)
  }

  predicate AckedSince(events: seq<Event>, id: nat, index: byte, i: nat) {
    exists k :: i < k < |events| && Acks(events[k], id, index)
  }

  function Client(st: State, id: nat, index: byte): Option<ClientSlot> {
    if id in st.sessions && index in st.sessions[id].clients then Some(st.sessions[id].clients[index]) else None
  }

  /** The slot says what INIT `e` said. */
  predicate Says(slot: ClientSlot, e: Event)
    requires e.Packet?
  {
    && slot.addr == e.addr
    && slot.localAddr == ParseLocalAddr(e.data, 15)
    && slot.gameID == CString(e.data, 0x15)
  }

  // ---------- what one step does to one client ----------

  lemma InitSetsSlot(st: State, e: Event, id: nat, index: byte)
    requires Sane(e) && Joins(e, id, index)
    ensures var c := Client(Step(st, e), id, index);
            e.Packet? && c.Some? && Says(c.value, e) && !c.value.connected
  {
  }

  /** No other event changes a client but to acknowledge it or to drop the whole session. */
  lemma OthersKeepSlot(st: State, e: Event, id: nat, index: byte)
    requires Sane(e) && !Joins(e, id, index) && id in Step(st, e).sessions
    ensures var c, c' := Client(st, id, index), Client(Step(st, e), id, index);
            && (c'.Some? <==> c.Some?)
            && (c.Some? ==> c'.value.addr == c.value.addr && c'.value.localAddr == c.value.localAddr
                            && c'.value.gameID == c.value.gameID
                            && c'.value.connected == (c.value.connected || Acks(e, id, index)))
  {
    hide LookupServerAddr;
    hide Introductions;
    hide Partners;
    if e.Packet? && IsInit(e.data) {
      PartnersWait(WithInit(SessionOf(st, SessionId(e.data), e.now).clients, e.data[13], e.data, e.addr), e.data[13], e.order);
    }
  }

  lemma StandingNow(events: seq<Event>, id: nat, index: byte)
    requires events != [] && AllSane(events) && Joins(events[|events| - 1], id, index)
    ensures Standing(events, id, index, |events| - 1)
  {
    InitSetsSlot(StateAfter(events[..|events| - 1]), events[|events| - 1], id, index);
    assert events[..|events|] == events;
  }

  predicate AliveAt(events: seq<Event>, id: nat, k: nat)
    requires AllSane(events) && k <= |events|
  {
    id in StateAfter(events[..k]).sessions
  }

  lemma AliveAtPrefix(events: seq<Event>, id: nat, n: nat, k: nat)
    requires AllSane(events) && k <= n <= |events|
    ensures AliveAt(events[..n], id, k) == AliveAt(events, id, k)
  {
    assert events[..n][..k] == events[..k];
  }

  lemma AliveBefore(events: seq<Event>, id: nat, i: nat)
    requires events != [] && AllSane(events) && i < |events| - 1
    ensures AliveSince(events, id, i) <==>
            AliveSince(events[..|events| - 1], id, i) && id in StateAfter(events).sessions
  {
    hide AliveAt;
    hide StateAfter;
    hide Sane;
    var n := |events| - 1;
    var init := events[..n];
    AliveAtEnd(events, id);
    if AliveSince(events, id, i) {
      forall k | i < k <= n
        ensures AliveAt(init, id, k)
      {
        AliveAtPrefix(events, id, n, k);
      }
    }
    if AliveSince(init, id, i) && AliveAt(events, id, n + 1) {
      forall k | i < k <= n + 1
        ensures AliveAt(events, id, k)
      {
        if k <= n {
          AliveAtPrefix(events, id, n, k);
        }
      }
    }
  }

  lemma AliveAtEnd(events: seq<Event>, id: nat)
    requires AllSane(events)
    ensures AliveAt(events, id, |events|) <==> id in StateAfter(events).sessions
  {
    assert events[..|events|] == events;
  }

  lemma StandingBefore(events: seq<Event>, id: nat, index: byte, i: nat)
    requires events != [] && AllSane(events) && i < |events| - 1
    ensures Standing(events, id, index, i) <==>
            && Standing(events[..|events| - 1], id, index, i)
            && !Joins(events[|events| - 1], id, index)
            && id in StateAfter(events).sessions
  {
    hide StateAfter;
    hide Joins;
    hide AliveSince;
    AliveBefore(events, id, i);
    NoneLater(events, id, index, i);
  }

  lemma NoneLater(events: seq<Event>, id: nat, index: byte, i: nat)
    requires events != [] && i < |events| - 1
    ensures var init := events[..|events| - 1];
            (forall k :: i < k < |events| ==> !Joins(events[k], id, index)) <==>
            && (forall k :: i < k < |init| ==> !Joins(init[k], id, index))
            && !Joins(events[|events| - 1], id, index)
  {
    hide Joins;
    var init := events[..|events| - 1];
    forall k | i < k < |events| - 1
      ensures Joins(init[k], id, index) == Joins(events[k], id, index)
    {
    }
  }

  /**
   A client is in a session exactly if it sent an INIT in the session's present life; its slot then
   says what the latest INIT said, and it counts as connected exactly if it acknowledged since.
   */
  lemma {:induction false} ClientsFromHistory(events: seq<Event>, id: nat, index: byte)
    requires AllSane(events)
    ensures var c := Client(StateAfter(events), id, index);
            && (c.Some? <==> exists i: nat :: Standing(events, id, index, i))
            && (forall i: nat :: Standing(events, id, index, i) && c.Some? ==> FromEvent(events, id, index, c.value, i))
  {
    if events != [] {
      var n := |events| - 1;
      ClientsFromHistory(events[..n], id, index);
      if Joins(events[n], id, index) {
        ClientJoined(events, id, index);
      } else if id in StateAfter(events).sessions {
        ClientKept(events, id, index);
      } else {
        StandingInRange(events, id, index);
      }
    }
  }

  ghost predicate FromEvent(events: seq<Event>, id: nat, index: byte, slot: ClientSlot, i: nat) {
    && i < |events| && events[i].Packet? && Says(slot, events[i])
    && slot.connected == AckedSince(events, id, index, i)
  }

  lemma ClientJoined(events: seq<Event>, id: nat, index: byte)
    requires events != [] && AllSane(events) && Joins(events[|events| - 1], id, index)
    ensures var c := Client(StateAfter(events), id, index);
            && c.Some? && Standing(events, id, index, |events| - 1)
            && forall i: nat :: Standing(events, id, index, i) ==> FromEvent(events, id, index, c.value, i)
  {
    hide Joins;
    hide Step;
    hide Says;
    hide Standing;
    var n := |events| - 1;
    InitSetsSlot(StateAfter(events[..n]), events[n], id, index);
    StandingNow(events, id, index);
    forall i: nat | Standing(events, id, index, i)
      ensures i == n
    {
      OnlyLatest(events, id, index, i);
    }
  }

  lemma OnlyLatest(events: seq<Event>, id: nat, index: byte, i: nat)
    requires AllSane(events) && Standing(events, id, index, i) && Joins(events[|events| - 1], id, index)
    ensures i == |events| - 1
  {
    hide Joins;
    hide AliveSince;
  }

  lemma ClientKept(events: seq<Event>, id: nat, index: byte)
    requires events != [] && AllSane(events) && !Joins(events[|events| - 1], id, index)
    requires id in StateAfter(events).sessions
    requires var init := events[..|events| - 1];
             var c := Client(StateAfter(init), id, index);
             && (c.Some? <==> exists i: nat :: Standing(init, id, index, i))
             && forall i: nat :: Standing(init, id, index, i) && c.Some? ==> FromEvent(init, id, index, c.value, i)
    ensures var c := Client(StateAfter(events), id, index);
            && (c.Some? <==> exists i: nat :: Standing(events, id, index, i))
            && forall i: nat :: Standing(events, id, index, i) && c.Some? ==> FromEvent(events, id, index, c.value, i)
  {
    hide Joins;
    hide Acks;
    hide Step;
    hide Says;
    hide Standing;
    hide FromEvent;
    var n := |events| - 1;
    var init := events[..n];
    OthersKeepSlot(StateAfter(init), events[n], id, index);
    var c, c' := Client(StateAfter(init), id, index), Client(StateAfter(events), id, index);
    StandingInRange(events, id, index);
    StandingInRange(init, id, index);
    forall i: nat
      ensures Standing(events, id, index, i) <==> Standing(init, id, index, i)
    {
      if i < n {
        StandingBefore(events, id, index, i);
      }
    }
    forall i: nat | Standing(events, id, index, i) && c'.Some?
      ensures FromEvent(events, id, index, c'.value, i)
    {
      FromEventKept(events, id, index, c.value, c'.value, i);
    }
  }

  lemma FromEventKept(events: seq<Event>, id: nat, index: byte, slot: ClientSlot, slot': ClientSlot, i: nat)
    requires events != [] && FromEvent(events[..|events| - 1], id, index, slot, i)
    requires slot'.addr == slot.addr && slot'.localAddr == slot.localAddr && slot'.gameID == slot.gameID
    requires slot'.connected == (slot.connected || Acks(events[|events| - 1], id, index))
    ensures FromEvent(events, id, index, slot', i)
  {
    hide Acks;
    hide AckedSince;
    AckedStep(events, id, index, i);
  }

  lemma StandingInRange(events: seq<Event>, id: nat, index: byte)
    requires AllSane(events)
    ensures forall i: nat :: Standing(events, id, index, i) ==>
              i < |events| && Joins(events[i], id, index) && id in StateAfter(events).sessions
  {
    hide StateAfter;
    hide Joins;
    hide AliveAt;
    AliveAtEnd(events, id);
  }

  lemma AckedStep(events: seq<Event>, id: nat, index: byte, i: nat)
    requires i < |events| - 1
    ensures var n := |events| - 1;
            AckedSince(events, id, index, i) <==> AckedSince(events[..n], id, index, i) || Acks(events[n], id, index)
  {
    var n := |events| - 1;
    if AckedSince(events[..n], id, index, i) {
      var k :| i < k < n && Acks(events[..n][k], id, index);
      assert Acks(events[k], id, index);
    }
    if AckedSince(events, id, index, i) && !Acks(events[n], id, index) {
      var k :| i < k < |events| && Acks(events[k], id, index);
      assert Acks(events[..n][k], id, index);
    }
  }

  // ---------- pairing ----------

  /** By its history, the client waits to be introduced. */
  ghost predicate Waiting(events: seq<Event>, id: nat, index: byte)
    requires AllSane(events)
  {
    exists i: nat :: Standing(events, id, index, i) && !AckedSince(events, id, index, i)
  }

  function SlotOf(e: Event): ClientSlot
    requires e.Packet?
  {
    ClientSlot(false, e.addr, ParseLocalAddr(e.data, 15), CString(e.data, 0x15), None)
  }

  /** While INIT `e` is handled: what the sender of `to` is told about the sender of `about`. */
  function Tells(natneg: map<nat, seq<Fields>>, e: Event, to: Event, about: Event): OutMsg
    requires e.Packet? && IsInit(e.data) && to.Packet? && about.Packet?
  {
    OutMsg(ConnectPacket(e.data, about.addr, PublicPort(ServerOf(natneg, e, about), ParseLocalAddr(about.data, 15), about.addr)),
           to.addr)
  }

  /** The entry or room that is found, while INIT `e` is handled, for the sender of `about`. */
  function ServerOf(natneg: map<nat, seq<Fields>>, e: Event, about: Event): Option<Fields>
    requires e.Packet? && IsInit(e.data) && about.Packet?
  {
    LookupServerAddr(e.rooms, e.games, EntriesOf(natneg, SessionId(e.data)), SlotOf(about))
  }

  /** What is told, in bytes. */
  lemma TellsInBytes(natneg: map<nat, seq<Fields>>, e: Event, to: Event, about: Event)
    requires e.Packet? && IsInit(e.data) && to.Packet? && about.Packet? && IsInit(about.data)
    ensures var m := Tells(natneg, e, to, about);
            m.addr == to.addr && ConnectsTo(m.data, e.data, about, ServerOf(natneg, e, about))
  {
    hide LookupServerAddr;
    hide ConnectsTo;
    ConnectSays(e.data, about, ServerOf(natneg, e, about));
  }

  function ClientsAt(st: State, e: Event): map<byte, ClientSlot>
    requires e.Packet? && IsInit(e.data)
  {
    WithInit(SessionOf(st, SessionId(e.data), e.now).clients, e.data[13], e.data, e.addr)
  }

  /** The clients that INIT `e` is paired with. */
  function PartnersAt(st: State, e: Event): (partners: seq<byte>)
    requires e.Packet? && IsInit(e.data)
    ensures ByteTable.Distinct(partners) && forall b :: b in partners ==> b in ClientsAt(st, e)
  {
    PartnersOnce(ClientsAt(st, e), e.data[13], e.order);
    PartnersWait(ClientsAt(st, e), e.data[13], e.order);
    Partners(ClientsAt(st, e), e.data[13], e.order)
  }

  lemma InitOutbox(st: State, e: Event)
    requires Sane(e) && e.Packet? && IsInit(e.data)
    ensures Step(st, e).outbox ==
            st.outbox + [OutMsg(InitAck(e.data), e.addr)]
            + Introductions(e.data, ClientsAt(st, e), e.data[13], PartnersAt(st, e), LookupIn(st, e))
  {
    hide LookupServerAddr;
  }

  lemma IntroductionTells(st: State, e: Event, to: ClientSlot, about: ClientSlot, toInit: Event, aboutInit: Event)
    requires e.Packet? && IsInit(e.data) && toInit.Packet? && aboutInit.Packet?
    requires Says(to, toInit) && Says(about, aboutInit)
    ensures Introduction(e.data, to, about, LookupIn(st, e)) == Tells(st.natneg, e, toInit, aboutInit)
  {
    hide BestLocal;
    hide FirstEntry;
    hide FirstByAddress;
    hide ByAddress;
    hide ByLocalAddress;
    hide ConnectPacket;
    hide PublicPort;
  }

  /** The partners of an INIT are exactly the other clients that wait, each once. */
  lemma PartnersAreWaiting(events: seq<Event>, e: Event, index: byte)
    requires AllSane(events) && e.Packet? && IsInit(e.data)
    ensures index in PartnersAt(StateAfter(events), e) <==>
            index != e.data[13] && Waiting(events, SessionId(e.data), index)
  {
    hide Standing;
    hide AckedSince;
    hide StateAfter;
    hide Says;
    var st, id := StateAfter(events), SessionId(e.data);
    ClientsFromHistory(events, id, index);
    PartnersWait(ClientsAt(st, e), e.data[13], e.order);
    var order: seq<byte> := e.order;
    assert index in order;
    if index != e.data[13] {
      assert index in ClientsAt(st, e) <==> Client(st, id, index).Some?;
    }
  }

  /**
   Every INIT enqueues its acknowledgement and two packets for each of its partners, nothing else;
   an INIT that meets nobody enqueues the acknowledgement alone.
   */
  lemma InitSendsExactly(events: seq<Event>, e: Event)
    requires AllSane(events) && Sane(e) && e.Packet? && IsInit(e.data)
    ensures var was, sent := StateAfter(events).outbox, Step(StateAfter(events), e).outbox;
            && |sent| == |was| + 1 + 2 * |PartnersAt(StateAfter(events), e)|
            && sent[..|was|] == was && sent[|was|] == OutMsg(InitAck(e.data), e.addr)
    ensures (forall index :: index != e.data[13] ==> !Waiting(events, SessionId(e.data), index)) ==>
              Step(StateAfter(events), e).outbox == StateAfter(events).outbox + [OutMsg(InitAck(e.data), e.addr)]
  {
    hide Waiting;
    hide StateAfter;
    hide Step;
    hide PartnersAt;
    hide Introductions;
    hide IsPermutation;
    var st := StateAfter(events);
    InitOutbox(st, e);
    if forall index :: index != e.data[13] ==> !Waiting(events, SessionId(e.data), index) {
      var partners := PartnersAt(st, e);
      if partners != [] {
        assert partners[0] in partners;
        PartnersAreWaiting(events, e, partners[0]);
      }
      assert st.outbox + [OutMsg(InitAck(e.data), e.addr)] + [] == st.outbox + [OutMsg(InitAck(e.data), e.addr)];
    }
  }

  /** Both messages say in bytes whom they are for and what they tell. */
  ghost predicate AreIntroduced(natneg: map<nat, seq<Fields>>, e: Event, other: Event)
    requires e.Packet? && IsInit(e.data) && other.Packet? && IsInit(other.data)
  {
    var m1, m2 := Tells(natneg, e, e, other), Tells(natneg, e, other, e);
    && m1.addr == e.addr && ConnectsTo(m1.data, e.data, other, ServerOf(natneg, e, other))
    && m2.addr == other.addr && ConnectsTo(m2.data, e.data, e, ServerOf(natneg, e, e))
  }

  lemma IntroducesInBytes(natneg: map<nat, seq<Fields>>, e: Event, other: Event)
    requires e.Packet? && IsInit(e.data) && other.Packet? && IsInit(other.data)
    ensures AreIntroduced(natneg, e, other)
  {
    hide Tells;
    hide ConnectsTo;
    hide ServerOf;
    TellsInBytes(natneg, e, e, other);
    TellsInBytes(natneg, e, other, e);
  }

  lemma StandingIsInit(events: seq<Event>, id: nat, index: byte, i: nat)
    requires AllSane(events) && Standing(events, id, index, i)
    ensures events[i].Packet? && IsInit(events[i].data)
  {
  }

  /** The message `offset` places behind the old outbox tells the sender of `to` about that of `about`. */
  predicate IntroducedAt(st: State, e: Event, offset: nat, to: Event, about: Event)
    requires Sane(e) && e.Packet? && IsInit(e.data) && to.Packet? && about.Packet?
  {
    var sent := Step(st, e).outbox;
    && |st.outbox| + offset < |sent|
    && sent[|st.outbox| + offset] == Tells(st.natneg, e, to, about)
  }

  /**
   An INIT enqueues its acknowledgement and, for the k-th of the waiting clients, two packets: one
   to the sender naming the client's latest INIT address, one to that address naming the sender's.
   */
  lemma PairsTheWaiting(events: seq<Event>, e: Event, k: nat, i: nat)
    requires AllSane(events) && Sane(e) && e.Packet? && IsInit(e.data)
    requires var partners := PartnersAt(StateAfter(events), e);
             k < |partners| && Standing(events, SessionId(e.data), partners[k], i)
    ensures events[i].Packet? && IsInit(events[i].data)
    ensures IntroducedAt(StateAfter(events), e, 1 + 2 * k, e, events[i])
    ensures IntroducedAt(StateAfter(events), e, 2 + 2 * k, events[i], e)
    ensures AreIntroduced(StateAfter(events).natneg, e, events[i])
    ensures var was, sent := StateAfter(events).outbox, Step(StateAfter(events), e).outbox;
            && |sent| == |was| + 1 + 2 * |PartnersAt(StateAfter(events), e)|
            && sent[..|was|] == was && sent[|was|] == OutMsg(InitAck(e.data), e.addr)
  {
    hide Standing;
    hide StateAfter;
    hide Step;
    hide PartnersAt;
    hide IntroducedAt;
    hide AreIntroduced;
    var st := StateAfter(events);
    var other := PartnersAt(st, e)[k];
    StandingIsInit(events, SessionId(e.data), other, i);
    OtherSlot(events, e, other, i);
    IntroducesBoth(st, e, k, events[i]);
    IntroducesInBytes(st.natneg, e, events[i]);
    SendsToPartners(st, e);
  }

  lemma SendsToPartners(st: State, e: Event)
    requires Sane(e) && e.Packet? && IsInit(e.data)
    ensures var sent := Step(st, e).outbox;
            && |sent| == |st.outbox| + 1 + 2 * |PartnersAt(st, e)|
            && sent[..|st.outbox|] == st.outbox && sent[|st.outbox|] == OutMsg(InitAck(e.data), e.addr)
  {
    hide Step;
    hide PartnersAt;
    hide Introductions;
    InitOutbox(st, e);
  }

  lemma IntroducesBoth(st: State, e: Event, k: nat, other: Event)
    requires Sane(e) && e.Packet? && IsInit(e.data) && other.Packet?
    requires var partners := PartnersAt(st, e);
             k < |partners| && partners[k] in ClientsAt(st, e) && Says(ClientsAt(st, e)[partners[k]], other)
    ensures IntroducedAt(st, e, 1 + 2 * k, e, other) && IntroducedAt(st, e, 2 + 2 * k, other, e)
  {
    hide Step;
    hide Says;
    hide PartnersAt;
    hide Introductions;
    hide Introduction;
    hide Tells;
    hide IsPermutation;
    var me := e.data[13];
    var clients, partners, lookup := ClientsAt(st, e), PartnersAt(st, e), LookupIn(st, e);
    InitOutbox(st, e);
    IntroductionsAt(e.data, clients, me, partners, lookup, k);
    OwnSlot(st, e);
    IntroductionTells(st, e, clients[me], clients[partners[k]], e, other);
    IntroductionTells(st, e, clients[partners[k]], clients[me], other, e);
  }

  lemma OwnSlot(st: State, e: Event)
    requires e.Packet? && IsInit(e.data)
    ensures Says(ClientsAt(st, e)[e.data[13]], e)
  {
  }

  lemma OtherSlot(events: seq<Event>, e: Event, index: byte, i: nat)
    requires AllSane(events) && e.Packet? && IsInit(e.data)
    requires index in PartnersAt(StateAfter(events), e) && Standing(events, SessionId(e.data), index, i)
    ensures i < |events| && events[i].Packet? && Says(ClientsAt(StateAfter(events), e)[index], events[i])
  {
    hide Standing;
    hide AckedSince;
    hide StateAfter;
    hide Says;
    PartnersAreWaiting(events, e, index);
    ClientsFromHistory(events, SessionId(e.data), index);
  }

  // ---------- whole runs ----------

  lemma {:induction false} OutboxGrows(events: seq<Event>, n: nat)
    requires AllSane(events) && n <= |events|
    ensures StateAfter(events[..n]).outbox <= StateAfter(events).outbox
  {
    if n == |events| {
      assert events[..n] == events;
    } else {
      var init := events[..|events| - 1];
      OutboxGrows(init, n);
      assert init[..n] == events[..n];
      StepSends(StateAfter(init), events[|events| - 1]);
    }
  }

  lemma StepSends(st: State, e: Event)
    requires Sane(e)
    ensures st.outbox <= Step(st, e).outbox
  {
    hide LookupServerAddr;
    hide Introductions;
  }

  /**
   Two clients of a session that both sent an INIT in the same life of it, the first not having
   acknowledged or sent another INIT before the second's, are each told about the other.
   */
  lemma TwoClientsMeet(events: seq<Event>, id: nat, a: byte, b: byte, i: nat, j: nat)
    requires AllSane(events) && a != b && i < j < |events|
    requires Standing(events[..j], id, a, i) && !AckedSince(events[..j], id, a, i) && Joins(events[j], id, b)
    ensures events[i].Packet? && IsInit(events[i].data)
    ensures var natneg := StateAfter(events[..j]).natneg;
            && Tells(natneg, events[j], events[i], events[j]) in StateAfter(events).outbox
            && Tells(natneg, events[j], events[j], events[i]) in StateAfter(events).outbox
            && AreIntroduced(natneg, events[j], events[i])
  {
    hide Standing;
    hide AckedSince;
    hide Step;
    hide Tells;
    hide PartnersAt;
    hide StateAfter;
    hide IsPermutation;
    hide AreIntroduced;
    var init, e := events[..j], events[j];
    var st := StateAfter(init);
    PartnersAreWaiting(init, e, a);
    var partners := PartnersAt(st, e);
    var k :| 0 <= k < |partners| && partners[k] == a;
    PairsTheWaiting(init, e, k, i);
    assert init[i] == events[i];
    IntroductionStays(events, j, 1 + 2 * k, e, events[i]);
    IntroductionStays(events, j, 2 + 2 * k, events[i], e);
  }

  /** What a step sent is in the outbox at the end of the run. */
  lemma IntroductionStays(events: seq<Event>, j: nat, offset: nat, to: Event, about: Event)
    requires AllSane(events) && j < |events|
    requires events[j].Packet? && IsInit(events[j].data) && to.Packet? && about.Packet?
    requires IntroducedAt(StateAfter(events[..j]), events[j], offset, to, about)
    ensures Tells(StateAfter(events[..j]).natneg, events[j], to, about) in StateAfter(events).outbox
  {
    hide Step;
    hide Tells;
    hide StateAfter;
    StateNext(events, j);
    OutboxGrows(events, j + 1);
    InPrefix(Step(StateAfter(events[..j]), events[j]).outbox, StateAfter(events).outbox,
             |StateAfter(events[..j]).outbox| + offset);
  }

  lemma StateNext(events: seq<Event>, j: nat)
    requires AllSane(events) && j < |events|
    ensures StateAfter(events[..j + 1]) == Step(StateAfter(events[..j]), events[j])
  {
    assert events[..j + 1][..j] == events[..j];
  }

  lemma InPrefix<T>(a: seq<T>, b: seq<T>, p: nat)
    requires a <= b && p < |a|
    ensures a[p] in b
  {
    assert b[p] == a[p];
  }

  // ---------- the registry and the clean-up ----------

  ghost predicate EntriesAllOk(natneg: map<nat, seq<Fields>>) {
    forall c :: c in natneg ==> natneg[c] != [] && EntriesOk(natneg[c])
  }

  /** Over every run a cookie has at most eight entries, for distinct endpoints. */
  lemma {:induction false} EntriesStayOk(events: seq<Event>)
    requires AllSane(events)
    ensures EntriesAllOk(StateAfter(events).natneg)
  {
    if events != [] {
      EntriesStayOk(events[..|events| - 1]);
    }
  }

  predicate Touches(e: Event, id: nat) {
    e.Packet? && (IsInit(e.data) || IsConnectAck(e.data)) && SessionId(e.data) == id
  }

  /** Event `k` is the last INIT or acknowledgement in session `id`. */
  predicate LastTouch(events: seq<Event>, id: nat, k: nat) {
    k < |events| && Touches(events[k], id) && forall m :: k < m < |events| ==> !Touches(events[m], id)
  }

  lemma {:induction false} ActivityFromHistory(events: seq<Event>, id: nat) returns (k: nat)
    requires AllSane(events) && id in StateAfter(events).sessions
    ensures LastTouch(events, id, k) && events[k].Packet? && StateAfter(events).sessions[id].lastActivity == events[k].now
  {
    hide Step;
    hide Touches;
    hide LastTouch;
    var n := |events| - 1;
    StepActivity(StateAfter(events[..n]), events[n], id);
    if Touches(events[n], id) {
      k := n;
      LastTouchNow(events, id);
    } else {
      k := ActivityFromHistory(events[..n], id);
      LastTouchKept(events, id, k);
    }
  }

  lemma LastTouchNow(events: seq<Event>, id: nat)
    requires events != [] && Touches(events[|events| - 1], id)
    ensures LastTouch(events, id, |events| - 1) && events[|events| - 1].Packet?
  {
  }

  lemma LastTouchKept(events: seq<Event>, id: nat, k: nat)
    requires events != [] && LastTouch(events[..|events| - 1], id, k) && !Touches(events[|events| - 1], id)
    ensures LastTouch(events, id, k) && events[..|events| - 1][k] == events[k]
  {
    hide Touches;
    var init := events[..|events| - 1];
    forall m | k <= m < |events| - 1
      ensures init[m] == events[m] && (m > k ==> !Touches(events[m], id))
    {
      assert m > k ==> !Touches(init[m], id);
    }
  }

  lemma StepActivity(st: State, e: Event, id: nat)
    requires Sane(e) && id in Step(st, e).sessions
    ensures if Touches(e, id) then Step(st, e).sessions[id].lastActivity == e.now
            else id in st.sessions && Step(st, e).sessions[id].lastActivity == st.sessions[id].lastActivity
  {
    hide LookupServerAddr;
    hide Introductions;
  }

  /** After a clean-up, a session is left exactly if it was there and was used in the last 30 minutes. */
  lemma CleanUpLeavesTheActive(events: seq<Event>, now: int, id: nat)
    requires AllSane(events)
    ensures var before, after := StateAfter(events), StateAfter(events + [Tick(now)]);
            && (id in after.sessions <==>
                  id in before.sessions && exists k: nat :: LastTouch(events, id, k) && now - events[k].now <= 1_800_000_000_000)
            && (id in before.sessions && id !in after.sessions ==> id !in after.natneg)
            && (id !in before.sessions || id in after.sessions ==> EntriesOf(after.natneg, id) == EntriesOf(before.natneg, id))
  {
    assert (events + [Tick(now)])[..|events|] == events;
    if id in StateAfter(events).sessions {
      var k := ActivityFromHistory(events, id);
      forall m: nat | LastTouch(events, id, m)
        ensures m == k
      {
      }
    }
  }
}
