/**
 A host's public address from its heartbeat to the server list: QR stores it as a signed decimal
 number, the browser writes it as four bytes (qr/server.go, ip.go, binwire.go, browser/server.go).
 */
module PublicAddress {
  import opened GoLib
  import opened Ip
  import opened Backend
  import Qr
  import QrRuns
  import opened Browser
  import opened BrowserReply

  /**
   A heartbeat that asks the server to fill in its address (publicip=0) makes a record that is
   listed with the four bytes the packet came from, whichever console the game is for; lookups
   by the dotted form find it.
   */
  lemma ListedAddress(
      cfg: Qr.Config, sess: Qr.QrSession, k: Fields, addr: UdpAddr, game: string, id: nat, fields: seq<string>)
    requires addr.ip.V4? && Get(k, "publicip") == "0"
    ensures var rec := RecordOf(game, id, Qr.Amended(cfg, sess, k, addr), sess.console);
            && Listed(rec)
            && EntryOf(fields, rec).ip == QuadOf(addr.ip)
            && MatchPublicIP(rec.publicIP, Dotted(QuadOf(addr.ip)))
  {
    hide AsMap;
    hide MatchPublicIP;
    hide SignedIPString;
    hide GetBytesFromIntSigned;
    hide OctetsOf;
    var k' := Qr.Amended(cfg, sess, k, addr);
    assert Get(k', "publicip") == SignedIPString(addr.ip, sess.console);
    AddressSurvives(addr.ip, sess.console);
    MatchesExactly(addr.ip, sess.console, QuadOf(addr.ip));
  }

  /** ... so a step of the QR server that registers a room puts an entry with that address in the list. */
  lemma HeartbeatIsListed(cfg: Qr.Config, st: Qr.State, e: Qr.Event, fields: seq<string>)
    requires QrRuns.NamesGame(e) && !Qr.Closing(Qr.ParseKV(e.data[5..]))
    requires Qr.SessionId(e.data) in st.sessions && st.sessions[Qr.SessionId(e.data)].sentChallenge
    requires e.addr.ip.V4? && Get(Qr.ParseKV(e.data[5..]), "publicip") == "0"
    ensures var list := ListOf(Qr.Step(cfg, st, e).rooms, QrRuns.NamedGame(e));
            exists i :: 0 <= i < |list| && list[i].sessionID == Qr.SessionId(e.data)
                        && Listed(list[i]) && EntryOf(fields, list[i]).ip == QuadOf(e.addr.ip)
  {
    hide Qr.Noted;
    hide Qr.Amended;
    hide Qr.ParseKV;
    hide EntryOf;
    hide Put;
    var id, k := Qr.SessionId(e.data), Qr.ParseKV(e.data[5..]);
    var noted := Qr.Noted(cfg, Qr.Touched(st, id, e.addr, e.now).sessions[id], k, e.names);
    QrRuns.NotedNames(cfg, Qr.Touched(st, id, e.addr, e.now).sessions[id], k, e.names);
    var k' := Qr.Amended(cfg, noted, k, e.addr);
    QrRuns.AmendedNames(cfg, noted, k, e.addr);
    QrRuns.AmendedCloses(cfg, noted, k, e.addr);
    var game := QrRuns.NamedGame(e);
    var rec := RecordOf(game, id, k', noted.console);
    ListedAddress(cfg, noted, k, e.addr, game, id, fields);
    var i := PutHolds(ListOf(st.rooms, game), rec);
    assert ListOf(Qr.Step(cfg, st, e).rooms, game) == Put(ListOf(st.rooms, game), rec);
  }
}
