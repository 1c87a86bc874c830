/**
 The server browser's reply to a list query (internal/gamespy/browser/server.go): the plaintext
 layout, its cutting into blocks, and the encryption of every block by itself.
 */
module Browser {
  import opened GoLib
  import opened Ip
  import opened Backend
  import EncTypeX
  import FilterEval

  const MAX_PACKET := 1022

  const PRIVATE_IP := 2
  const CONNECT_NEGOTIATE := 4
  const ICMP_IP := 8
  const NONSTANDARD_PORT := 16
  const NONSTANDARD_PRIVATE_PORT := 32
  const HAS_KEYS := 64

  /** The 20 random bytes of one encrypted block. */
  type Salt = s: seq<byte> | |s| == 20 witness seq(20, _ => 0)

  // ---------- layout ----------

  function U16BE(n: int): seq<byte> {
    [n % 0x1_0000 / 256, n % 256]
  }

  function U16LE(n: int): seq<byte> {
    [n % 256, n % 0x1_0000 / 256]
  }

  function FieldBytes(fields: seq<string>): seq<byte> {
    if fields == [] then []
    else
      var n := |fields| - 1;
      FieldBytes(fields[..n]) + BytesOf(fields[n]) + [0, 0]
  }

  /** The client's own address, then the number of fields and their names. */
  function ListHeader(remote: UdpAddr, fields: seq<string>): seq<byte> {
    if !remote.ip.V4? then []
    else QuadOf(remote.ip) + U16BE(remote.port) + U16LE(|fields|) + FieldBytes(fields)
  }

  /** The public port, or the local one when there is none. */
  function PortText(rec: ServerRecord): string {
    if rec.publicPort != "" && rec.publicPort != "0" then rec.publicPort else rec.localPort
  }

  function FlagsOf(rec: ServerRecord): byte {
    HAS_KEYS + NONSTANDARD_PORT + ICMP_IP
    + (if rec.natneg != "" then CONNECT_NEGOTIATE else 0)
    + (if rec.localIP0 != "" then PRIVATE_IP else 0)
    + (if rec.localPort != "" then NONSTANDARD_PRIVATE_PORT else 0)
  }

  function Addresses(rec: ServerRecord): seq<byte> {
    GetBytesFromIntSigned(NumberIn(rec.publicIP), rec.console)
    + U16BE(NumberIn(PortText(rec)))
    + (if rec.localIP0 != "" then OctetsOf(rec.localIP0) else [])
    + (if rec.localPort != "" then U16BE(NumberIn(rec.localPort)) else [])
    + [0, 0, 0, 0]
  }

  function Values(fields: seq<string>, requested: Fields): seq<byte> {
    if fields == [] then []
    else
      var n := |fields| - 1;
      Values(fields[..n], requested) + [0xff] + BytesOf(Get(requested, fields[n])) + [0]
  }

  /** A room without a session and an address is not listed. */
  predicate Listed(rec: ServerRecord) {
    rec.sessionID != 0 || rec.publicIP != ""
  }

  function ListEntry(fields: seq<string>, result: ServerResult): seq<byte> {
    if !Listed(result.record) then []
    else [FlagsOf(result.record)] + Addresses(result.record) + Values(fields, result.requested)
  }

  const TERMINATOR: seq<byte> := [0, 0xff, 0xff, 0xff, 0xff]

  /** A room that was asked for fields and has none of them at all. */
  predicate DropsRoom(fields: seq<string>, result: ServerResult) {
    |fields| > 0 && result.requested == map[]
  }

  function Entries(fields: seq<string>, results: seq<ServerResult>): seq<seq<byte>> {
    seq(|results|, i requires 0 <= i < |results| =>
      if DropsRoom(fields, results[i]) then [] else ListEntry(fields, results[i]))
  }

  /** What stands for a query without results: one result that lists nothing. */
  const NO_RESULT := ServerResult(ServerRecord(0, 0, "", "", "", "", "", "", map[]), map[])

  function AtLeastOne(results: seq<ServerResult>): seq<ServerResult> {
    if results == [] then [NO_RESULT] else results
  }

  /** The console of the last room listed. */
  function ConsoleAfter(fields: seq<string>, results: seq<ServerResult>, console: int): int {
    if results == [] then console
    else
      var n := |results| - 1;
      if !DropsRoom(fields, results[n]) && Listed(results[n].record) then results[n].record.console
      else ConsoleAfter(fields, results[..n], console)
  }

  /** The blocks that are sent: one is sent as soon as it is full, the last ends the list. */
  function Blocks(data: seq<byte>, entries: seq<seq<byte>>): seq<seq<byte>>
    decreases |entries|
  {
    if entries == [] then [data + TERMINATOR]
    else if |data + entries[0]| >= MAX_PACKET then [data + entries[0]] + Blocks([], entries[1..])
    else Blocks(data + entries[0], entries[1..])
  }

  /** The plaintext of the whole reply. */
  function Reply(remote: UdpAddr, fields: seq<string>, results: seq<ServerResult>): seq<byte> {
    ListHeader(remote, fields) + Concat(Entries(fields, results)) + TERMINATOR
  }

  function Sealed(secret: seq<byte>, challenge: seq<byte>, salt: nat -> Salt, blocks: seq<seq<byte>>): seq<seq<byte>>
    requires |challenge| == 8
  {
    seq(|blocks|, i requires 0 <= i < |blocks| => EncTypeX.Encrypted(secret, challenge, salt(i), blocks[i]))
  }

  lemma SealedNothing(secret: seq<byte>, challenge: seq<byte>, salt: nat -> Salt)
    requires |challenge| == 8
    ensures Sealed(secret, challenge, salt, []) == []
  {
  }

  lemma SealedStep(secret: seq<byte>, challenge: seq<byte>, salt: nat -> Salt, blocks: seq<seq<byte>>, data: seq<byte>)
    requires |challenge| == 8
    ensures Sealed(secret, challenge, salt, blocks + [data]) ==
            Sealed(secret, challenge, salt, blocks) + [EncTypeX.Encrypted(secret, challenge, salt(|blocks|), data)]
  {
    hide EncTypeX.Encrypted;
    var blocks' := blocks + [data];
    var sealed := Sealed(secret, challenge, salt, blocks);
    forall i | 0 <= i < |blocks'|
      ensures Sealed(secret, challenge, salt, blocks')[i] ==
              (sealed + [EncTypeX.Encrypted(secret, challenge, salt(|blocks|), data)])[i]
    {
      assert i < |blocks| ==> blocks'[i] == blocks[i];
    }
  }

  lemma ConsoleNone(fields: seq<string>, console: int)
    ensures ConsoleAfter(fields, [], console) == console
  {
  }

  lemma ConsoleStep(fields: seq<string>, results: seq<ServerResult>, i: nat, console: int)
    requires i < |results|
    ensures ConsoleAfter(fields, results[..i + 1], console) ==
            if !DropsRoom(fields, results[i]) && Listed(results[i].record) then results[i].record.console
            else ConsoleAfter(fields, results[..i], console)
  {
    assert results[..i + 1][..i] == results[..i];
  }

  /** The result is a room that is sent to the client. */
  predicate IsSent(fields: seq<string>, result: ServerResult) {
    && (fields == [] || result.requested != map[])
    && (result.record.sessionID != 0 || result.record.publicIP != "")
  }

  ghost predicate IsLastSent(fields: seq<string>, results: seq<ServerResult>, k: nat) {
    k < |results| && IsSent(fields, results[k]) && forall j :: k < j < |results| ==> !IsSent(fields, results[j])
  }

  /** The console that is kept is that of the last room sent; without one it stays. */
  lemma {:induction false} ConsoleIsLast(fields: seq<string>, results: seq<ServerResult>, console: int)
    ensures forall k: nat :: IsLastSent(fields, results, k) ==> ConsoleAfter(fields, results, console) == results[k].record.console
    ensures (forall k :: 0 <= k < |results| ==> !IsSent(fields, results[k])) ==> ConsoleAfter(fields, results, console) == console
  {
    if results != [] {
      var n := |results| - 1;
      ConsoleIsLast(fields, results[..n], console);
      SentMeaning(fields, results[n]);
      hide IsSent;
      if IsSent(fields, results[n]) {
        assert forall k: nat :: IsLastSent(fields, results, k) ==> k == n;
      } else {
        forall k: nat | IsLastSent(fields, results, k)
          ensures IsLastSent(fields, results[..n], k)
        {
        }
      }
    }
  }

  lemma SentMeaning(fields: seq<string>, result: ServerResult)
    ensures IsSent(fields, result) <==> !DropsRoom(fields, result) && Listed(result.record)
  {
  }

  lemma BlocksEnd(data: seq<byte>, entries: seq<seq<byte>>)
    ensures Blocks(data, entries[|entries|..]) == [data + TERMINATOR]
  {
  }

  lemma BlocksStep(data: seq<byte>, entries: seq<seq<byte>>, i: nat)
    requires i < |entries|
    ensures var data' := data + entries[i];
            Blocks(data, entries[i..]) ==
            if |data'| >= MAX_PACKET then [data'] + Blocks([], entries[i + 1..]) else Blocks(data', entries[i + 1..])
  {
    assert entries[i..][0] == entries[i] && entries[i..][1..] == entries[i + 1..];
  }

  // ---------- the connection ----------

  class ConnSession {
    const backend: Registry
    const keys: map<string, string>
    const remote: UdpAddr
    var console: int
    var written: seq<seq<byte>>

    constructor (backend: Registry, keys: map<string, string>, remote: UdpAddr)
      ensures this.backend == backend && this.keys == keys && this.remote == remote
      ensures console == 0 && written == []
    {
      this.backend, this.keys, this.remote := backend, keys, remote;
      console, written := 0, [];
    }

    function Secret(gameName: string): seq<byte> {
      BytesOf(Get(keys, gameName))
    }

    /** An unknown game has no key; then nothing is written. */
    method SendEncrypted(gameName: string, challenge: seq<byte>, salt: Salt, data: seq<byte>)
      requires |challenge| == 8 && data != []
      modifies `written
      ensures written == if Secret(gameName) == [] then old(written)
                         else old(written) + [EncTypeX.Encrypted(Secret(gameName), challenge, salt, data)]
    {
      var enc := EncTypeX.EncTypeXEncrypt(Secret(gameName), challenge, salt, data);
      if Secret(gameName) != [] {
        written := written + [enc];
      }
    }

    /** What is written for a query. */
    twostate predicate Sent(gameName: string, challenge: seq<byte>, salt: nat -> Salt, blocks: seq<seq<byte>>)
      requires |challenge| == 8
      reads this
    {
      written == if Secret(gameName) == [] then old(written)
                 else old(written) + Sealed(Secret(gameName), challenge, salt, blocks)
    }

    method FindServer(
        fold: FilterEval.Folding, queryGame: string, filter: string, fields: seq<string>, maxServers: int,
        gameName: string, challenge: seq<byte>, salt: nat -> Salt)
      requires backend.Valid() && |challenge| == 8
      modifies this
      ensures var found := Found(fold, backend.serverList, queryGame, filter, fields, maxServers);
              var results := if found.Some? then found.value else [];
              && Sent(gameName, challenge, salt, Blocks(ListHeader(remote, fields), Entries(fields, AtLeastOne(results))))
              && console == ConsoleAfter(fields, AtLeastOne(results), old(console))
    {
      var found := backend.FindServers(fold, queryGame, filter, fields, maxServers);
      var results := if found == None then [] else found.value;
      if |results| == 0 {
        results := [NO_RESULT];
      }
      WriteList(fields, results, gameName, challenge, salt);
    }

    /** The loop of findServer. */
    method WriteList(fields: seq<string>, results: seq<ServerResult>, gameName: string, challenge: seq<byte>, salt: nat -> Salt)
      requires |challenge| == 8
      modifies this
      ensures Sent(gameName, challenge, salt, Blocks(ListHeader(remote, fields), Entries(fields, results)))
      ensures console == ConsoleAfter(fields, results, old(console))
    {
      hide EncTypeX.Encrypted;
      hide ListEntry;
      hide Sealed;
      hide DropsRoom;
      hide Listed;
      hide ConsoleAfter;
      hide Blocks;
      var data := GenerateServerListHeader(fields);
      ghost var done: seq<seq<byte>> := [];
      var blocks := 0;
      ghost var all := Blocks(data, Entries(fields, results));
      SealedNothing(Secret(gameName), challenge, salt);
      ConsoleNone(fields, console);
      for i := 0 to |results|
        invariant all == done + Blocks(data, Entries(fields, results)[i..])
        invariant Sent(gameName, challenge, salt, done) && blocks == |done|
        invariant console == ConsoleAfter(fields, results[..i], old(console))
      {
        ConsoleStep(fields, results, i, old(console));
        var entry := ShownEntry(fields, results[i]);
        BlocksStep(data, Entries(fields, results), i);
        data := data + entry;
        if |data| >= MAX_PACKET {
          SealedStep(Secret(gameName), challenge, salt, done, data);
          SendEncrypted(gameName, challenge, salt(blocks), data);
          done, blocks := done + [data], blocks + 1;
          data := [];
        }
      }
      assert results[..|results|] == results;
      BlocksEnd(data, Entries(fields, results));
      data := data + TERMINATOR;
      SealedStep(Secret(gameName), challenge, salt, done, data);
      SendEncrypted(gameName, challenge, salt(blocks), data);
    }

    /** One round of the loop: the entry, unless the room is dropped. */
    method ShownEntry(fields: seq<string>, server: ServerResult) returns (entry: seq<byte>)
      modifies `console
      ensures entry == if DropsRoom(fields, server) then [] else ListEntry(fields, server)
      ensures console == if !DropsRoom(fields, server) && Listed(server.record) then server.record.console else old(console)
    {
      if DropsRoom(fields, server) {
        return [];
      }
      if server.record.sessionID != 0 || server.record.publicIP != "" {
        console := server.record.console;
      }
      entry := GenerateServerEntry(fields, server);
    }

    method GenerateServerListHeader(fields: seq<string>) returns (out: seq<byte>)
      ensures out == ListHeader(remote, fields)
    {
      if !remote.ip.V4? {
        return [];
      }
      out := [remote.ip.a, remote.ip.b, remote.ip.c, remote.ip.d] + U16BE(remote.port) + U16LE(|fields|);
      ghost var fixed := out;
      for i := 0 to |fields|
        invariant out == fixed + FieldBytes(fields[..i])
      {
        assert fields[..i + 1][..i] == fields[..i];
        out := out + BytesOf(fields[i]) + [0, 0];
      }
      assert fields[..|fields|] == fields;
    }
  }

  method GenerateServerEntry(fields: seq<string>, result: ServerResult) returns (out: seq<byte>)
    ensures out == ListEntry(fields, result)
  {
    hide Addresses;
    hide FlagsOf;
    var rec := result.record;
    if rec.sessionID == 0 && rec.publicIP == "" {
      return [];
    }
    var flags, buf := GenerateAddresses(rec);
    out := [flags] + buf;
    for i := 0 to |fields|
      invariant out == [FlagsOf(rec)] + Addresses(rec) + Values(fields[..i], result.requested)
    {
      assert fields[..i + 1][..i] == fields[..i];
      out := out + [0xff] + BytesOf(Get(result.requested, fields[i])) + [0];
    }
    assert fields[..|fields|] == fields;
  }

  /** The flags of an entry and the bytes they announce. */
  method GenerateAddresses(rec: ServerRecord) returns (flags: byte, buf: seq<byte>)
    ensures flags == FlagsOf(rec) && buf == Addresses(rec)
  {
    hide NumberIn;
    hide OctetsOf;
    hide GetBytesFromIntSigned;
    hide U16BE;
    flags := HAS_KEYS;
    if rec.natneg != "" {
      flags := flags + CONNECT_NEGOTIATE;
    }
    buf := GetBytesFromIntSigned(NumberIn(rec.publicIP), rec.console);
    flags := flags + NONSTANDARD_PORT;
    var port := rec.localPort;
    if rec.publicPort != "" && rec.publicPort != "0" {
      port := rec.publicPort;
    }
    buf := buf + U16BE(NumberIn(port));
    ghost var fixed := buf;
    if rec.localIP0 != "" {
      flags := flags + PRIVATE_IP;
      var localIP := ParseIPv4Bytes(rec.localIP0);
      buf := buf + localIP;
    }
    assert buf == fixed + if rec.localIP0 != "" then OctetsOf(rec.localIP0) else [];
    fixed := buf;
    if rec.localPort != "" {
      flags := flags + NONSTANDARD_PRIVATE_PORT;
      buf := buf + U16BE(NumberIn(rec.localPort));
    }
    assert buf == fixed + if rec.localPort != "" then U16BE(NumberIn(rec.localPort)) else [];
    flags := flags + ICMP_IP;
    buf := buf + [0, 0, 0, 0];
  }
}
