/**
 The reader of a server list, as a client would write it, and the proof that it gets back what
 the server put in.
 */
module BrowserReply {
  import opened GoLib
  import opened Ip
  import opened Backend
  import opened Browser
  import EncTypeX
  import EncTypeXClient
  import FilterEval
  import FilterParser

  datatype Entry = Entry(
    negotiate: bool,
    ip: seq<byte>,
    port: Option<nat>,
    privateIP: Option<seq<byte>>,
    privatePort: Option<nat>,
    icmp: Option<seq<byte>>,
    values: Option<seq<string>>)

  datatype ServerList = ServerList(ip: seq<byte>, port: nat, fields: seq<string>, entries: seq<Entry>)

  // ---------- the reader ----------

  /** A value and the bytes that are left. */
  type Taken<T> = Option<(T, seq<byte>)>

  predicate Has(flags: byte, bit: nat)
    requires bit > 0
  {
    flags / bit % 2 == 1
  }

  function TakeBytes(present: bool, b: seq<byte>, n: nat): (r: Taken<Option<seq<byte>>>)
    ensures r.Some? ==> |r.value.1| <= |b|
  {
    if !present then Some((None, b)) else if |b| < n then None else Some((Some(b[..n]), b[n..]))
  }

  function TakePort(present: bool, b: seq<byte>): (r: Taken<Option<nat>>)
    ensures r.Some? ==> |r.value.1| <= |b|
  {
    if !present then Some((None, b))
    else if |b| < 2 then None
    else Some((Some(256 * (b[0] as int) + b[1] as int), b[2..]))
  }

  function TakeCString(b: seq<byte>): (r: Taken<string>)
    ensures r.Some? ==> |r.value.1| < |b|
  {
    if b == [] then None
    else if b[0] == 0 then Some(("", b[1..]))
    else
      match TakeCString(b[1..])
      case None => None
      case Some((s, rest)) => Some(([b[0] as char] + s, rest))
  }

  /** A name, its NUL and another one. */
  function TakeName(b: seq<byte>): (r: Taken<string>)
    ensures r.Some? ==> |r.value.1| < |b|
  {
    match TakeCString(b)
    case None => None
    case Some((s, rest)) => if rest == [] || rest[0] != 0 then None else Some((s, rest[1..]))
  }

  /** 0xff, a value and its NUL. */
  function TakeValue(b: seq<byte>): (r: Taken<string>)
    ensures r.Some? ==> |r.value.1| < |b|
  {
    if b == [] || b[0] != 0xff then None else TakeCString(b[1..])
  }

  function TakeMany(take: seq<byte> -> Taken<string>, b: seq<byte>, n: nat): (r: Taken<seq<string>>)
    requires forall b :: take(b).Some? ==> |take(b).value.1| <= |b|
    ensures r.Some? ==> |r.value.1| <= |b|
    decreases n
  {
    if n == 0 then Some(([], b))
    else
      match take(b)
      case None => None
      case Some((s, rest)) =>
        match TakeMany(take, rest, n - 1)
        case None => None
        case Some((more, rest')) => Some(([s] + more, rest'))
  }

  datatype AddressPart = AddressPart(
    ip: seq<byte>, port: Option<nat>, privateIP: Option<seq<byte>>, privatePort: Option<nat>, icmp: Option<seq<byte>>)

  /**
   What the flags announce, in the order of the layout: 16 a port, 2 a private address, 32 a private
   port, 8 an address for ICMP.
   */
  function TakeAddresses(flags: byte, b: seq<byte>): (r: Taken<AddressPart>)
    ensures r.Some? ==> |r.value.1| <= |b|
  {
    match TakeBytes(true, b, 4)
    case None => None
    case Some((ip, b1)) =>
      match TakePort(Has(flags, 16), b1)
      case None => None
      case Some((port, b2)) =>
        match TakeBytes(Has(flags, 2), b2, 4)
        case None => None
        case Some((privateIP, b3)) =>
          match TakePort(Has(flags, 32), b3)
          case None => None
          case Some((privatePort, b4)) =>
            match TakeBytes(Has(flags, 8), b4, 4)
            case None => None
            case Some((icmp, b5)) => Some((AddressPart(ip.value, port, privateIP, privatePort, icmp), b5))
  }

  function TakeEntry(b: seq<byte>, fieldCount: nat): (r: Taken<Entry>)
    requires b != []
    ensures r.Some? ==> |r.value.1| < |b|
  {
    match TakeAddresses(b[0], b[1..])
    case None => None
    case Some((a, rest)) =>
      var e := Entry(Has(b[0], 4), a.ip, a.port, a.privateIP, a.privatePort, a.icmp, None);
      if !Has(b[0], 64) then Some((e, rest))
      else
        match TakeMany(TakeValue, rest, fieldCount)
        case None => None
        case Some((values, rest')) => Some((e.(values := Some(values)), rest'))
  }

  /** Entries up to one whose flags are zero. */
  function TakeEntries(b: seq<byte>, fieldCount: nat): Option<seq<Entry>>
    decreases |b|
  {
    if b == [] then None
    else if b[0] == 0 then if b == [0, 255, 255, 255, 255] then Some([]) else None
    else
      match TakeEntry(b, fieldCount)
      case None => None
      case Some((e, rest)) =>
        match TakeEntries(rest, fieldCount)
        case None => None
        case Some(more) => Some([e] + more)
  }

  function Read(b: seq<byte>): Option<ServerList> {
    if |b| < 8 then None
    else
      var count := b[6] as int + 256 * (b[7] as int);
      match TakeMany(TakeName, b[8..], count)
      case None => None
      case Some((fields, rest)) =>
        match TakeEntries(rest, count)
        case None => None
        case Some(entries) => Some(ServerList(b[..4], 256 * (b[4] as int) + b[5] as int, fields, entries))
  }

  /** What a client makes of the blocks it received. */
  function ReadBlocks(secret: seq<byte>, challenge: seq<byte>, sealed: seq<seq<byte>>): Option<ServerList>
    requires secret != [] && |challenge| >= 8
  {
    if forall i :: 0 <= i < |sealed| ==> EncTypeXClient.Decrypted(secret, challenge, sealed[i]).Some? then
      Read(Concat(seq(|sealed|, i requires 0 <= i < |sealed| => EncTypeXClient.Decrypted(secret, challenge, sealed[i]).value)))
    else None
  }

  // ---------- what it should get ----------

  function PortOf(text: string): nat {
    NumberIn(text) % 0x1_0000
  }

  /** A room as the reply shows it. */
  function EntryOf(fields: seq<string>, rec: ServerRecord): Entry {
    Entry(rec.natneg != "",
          GetBytesFromIntSigned(NumberIn(rec.publicIP), rec.console),
          Some(PortOf(PortText(rec))),
          if rec.localIP0 != "" then Some(OctetsOf(rec.localIP0)) else None,
          if rec.localPort != "" then Some(PortOf(rec.localPort)) else None,
          Some([0, 0, 0, 0]),
          Some(seq(|fields|, i requires 0 <= i < |fields| => Get(AsMap(rec), fields[i]))))
  }

  /** The port that a text stands for: its number, 0 if it is none. */
  ghost predicate TellsPort(port: nat, text: string) {
    && (forall p: nat :: p < 0x1_0000 && text == FormatNat(p) ==> port == p)
    && (text == "" ==> port == 0)
  }

  lemma PortReads(text: string)
    ensures TellsPort(PortOf(text), text)
  {
    forall p: nat | p < 0x1_0000 && text == FormatNat(p)
      ensures PortOf(text) == p
    {
      ParseOfFormat(p);
      assert FormatInt(p) == FormatNat(p);
    }
  }

  /**
   How the room of a heartbeat is shown: the public port, unless it is empty or 0, and otherwise the
   local one; the private address and port if they were sent; and the values of the fields asked for.
   */
  lemma EntrySays(fields: seq<string>, game: string, id: nat, k: Fields, console: int)
    ensures var e := EntryOf(fields, RecordOf(game, id, k, console));
            && (e.negotiate <==> "natneg" in k && k["natneg"] != "")
            && e.port.Some? && e.icmp == Some([0, 0, 0, 0])
            && ("publicport" in k && k["publicport"] != "" && k["publicport"] != "0" ==>
                  TellsPort(e.port.value, k["publicport"]))
            && (("publicport" !in k || k["publicport"] == "" || k["publicport"] == "0") ==>
                  TellsPort(e.port.value, if "localport" in k then k["localport"] else ""))
            && (e.privateIP.Some? <==> "localip0" in k && k["localip0"] != "")
            && (forall q: Quad :: "localip0" in k && k["localip0"] == Dotted(q) ==> e.privateIP == Some(q))
            && (e.privatePort.Some? <==> "localport" in k && k["localport"] != "")
            && (e.privatePort.Some? ==> TellsPort(e.privatePort.value, k["localport"]))
            && e.values.Some? && |e.values.value| == |fields|
            && forall i :: 0 <= i < |fields| ==>
                 e.values.value[i] ==
                 if fields[i] == "__session__" then FormatNat(id)
                 else if fields[i] == "__console__" then FormatInt(console)
                 else if fields[i] in k then k[fields[i]] else ""
  {
    hide FormatNat;
    hide FormatInt;
    hide Dotted;
    hide PortOf;
    hide TellsPort;
    hide OctetsOf;
    hide AsMap;
    hide GetBytesFromIntSigned;
    hide NumberIn;
    var rec := RecordOf(game, id, k, console);
    PortReads(PortText(rec));
    PortReads(rec.localPort);
    forall q: Quad | rec.localIP0 == Dotted(q)
      ensures OctetsOf(rec.localIP0) == q && rec.localIP0 != ""
    {
      DottedRoundTrip(q);
    }
    forall i | 0 <= i < |fields|
      ensures Get(AsMap(rec), fields[i]) ==
              if fields[i] == "__session__" then FormatNat(id)
              else if fields[i] == "__console__" then FormatInt(console)
              else if fields[i] in k then k[fields[i]] else ""
    {
      ValueOfField(game, id, k, console, fields[i]);
    }
  }

  lemma ValueOfField(game: string, id: nat, k: Fields, console: int, key: string)
    ensures Get(AsMap(RecordOf(game, id, k, console)), key) ==
            if key == "__session__" then FormatNat(id)
            else if key == "__console__" then FormatInt(console)
            else if key in k then k[key] else ""
  {
    if key != "__session__" && key != "__console__" {
      FieldsComeBack(game, id, k, console, key);
    }
  }

  /** The rooms that are shown, in order. */
  function Shown(fields: seq<string>, list: seq<ServerRecord>): seq<Entry> {
    if list == [] then []
    else
      var rec := list[0];
      (if rec.sessionID != 0 || rec.publicIP != "" then [EntryOf(fields, rec)] else []) + Shown(fields, list[1..])
  }

  /** A string of bytes without a NUL. */
  predicate Clean(s: string) {
    forall i :: 0 <= i < |s| ==> 0 < s[i] as int < 256
  }

  predicate AllClean(fields: seq<string>) {
    forall i :: 0 <= i < |fields| ==> Clean(fields[i])
  }

  /** All the values that are asked for are clean. */
  predicate CleanRoom(fields: seq<string>, rec: ServerRecord) {
    forall i :: 0 <= i < |fields| ==> Clean(Get(AsMap(rec), fields[i]))
  }

  // ---------- proofs, part by part ----------

  lemma {:induction false} CStringComesBack(s: string, tail: seq<byte>)
    requires Clean(s)
    ensures TakeCString(BytesOf(s) + [0] + tail) == Some((s, tail))
  {
    var b := BytesOf(s) + [0] + tail;
    if s == "" {
      assert b[1..] == tail;
    } else {
      assert b[1..] == BytesOf(s[1..]) + [0] + tail;
      CStringComesBack(s[1..], tail);
      assert s == [s[0]] + s[1..];
    }
  }

  lemma Regroup5(a: seq<byte>, b: seq<byte>, c: seq<byte>, d: seq<byte>, e: seq<byte>)
    ensures a + b + c + d + e == a + b + (c + d + e)
  {
  }

  lemma {:induction false} FieldBytesCons(fields: seq<string>)
    requires fields != []
    ensures FieldBytes(fields) == BytesOf(fields[0]) + [0, 0] + FieldBytes(fields[1..])
  {
    hide BytesOf;
    var n := |fields| - 1;
    if n > 0 {
      var middle := fields[1..][..n - 1];
      FieldBytesCons(fields[..n]);
      assert fields[..n][1..] == middle && fields[1..][n - 1] == fields[n];
      Regroup5(BytesOf(fields[0]), [0, 0], FieldBytes(middle), BytesOf(fields[n]), [0, 0]);
    } else {
      assert fields[..0] == [] && fields[1..] == [];
    }
  }

  lemma NameComesBack(s: string, more: seq<byte>)
    requires Clean(s)
    ensures TakeName(BytesOf(s) + [0, 0] + more) == Some((s, more))
  {
    CStringComesBack(s, [0] + more);
    assert BytesOf(s) + [0, 0] + more == BytesOf(s) + [0] + ([0] + more);
    assert ([0] + more)[1..] == more;
  }

  lemma ValueComesBack(s: string, more: seq<byte>)
    requires Clean(s)
    ensures TakeValue([0xff] + BytesOf(s) + [0] + more) == Some((s, more))
  {
    CStringComesBack(s, more);
    assert ([0xff] + BytesOf(s) + [0] + more)[1..] == BytesOf(s) + [0] + more;
  }

  lemma TakeOneMore(
      take: seq<byte> -> Taken<string>, b: seq<byte>, n: nat, s: string, rest: seq<byte>, more: seq<string>, rest': seq<byte>)
    requires forall b :: take(b).Some? ==> |take(b).value.1| <= |b|
    requires n > 0 && take(b) == Some((s, rest)) && TakeMany(take, rest, n - 1) == Some((more, rest'))
    ensures TakeMany(take, b, n) == Some(([s] + more, rest'))
  {
  }

  lemma {:induction false} NamesComeBack(fields: seq<string>, tail: seq<byte>)
    requires AllClean(fields)
    ensures TakeMany(TakeName, FieldBytes(fields) + tail, |fields|) == Some((fields, tail))
  {
    hide TakeName;
    hide TakeValue;
    hide Clean;
    hide BytesOf;
    if fields != [] {
      var more := FieldBytes(fields[1..]) + tail;
      FieldBytesCons(fields);
      NamesComeBack(fields[1..], tail);
      AppendAssoc(BytesOf(fields[0]) + [0, 0], FieldBytes(fields[1..]), tail);
      NameComesBack(fields[0], more);
      assert fields == [fields[0]] + fields[1..];
      hide FieldBytes;
      TakeOneMore(TakeName, FieldBytes(fields) + tail, |fields|, fields[0], more, fields[1..], tail);
    } else {
      assert FieldBytes(fields) + tail == tail;
    }
  }

  lemma {:induction false} ValuesCons(fields: seq<string>, requested: Fields)
    requires fields != []
    ensures Values(fields, requested) == [0xff] + BytesOf(Get(requested, fields[0])) + [0] + Values(fields[1..], requested)
  {
    hide BytesOf;
    var n := |fields| - 1;
    if n > 0 {
      var middle := fields[1..][..n - 1];
      ValuesCons(fields[..n], requested);
      assert fields[..n][1..] == middle && fields[1..][n - 1] == fields[n];
      var last: seq<byte> := [0xff] + BytesOf(Get(requested, fields[n]));
      Regroup5([0xff] + BytesOf(Get(requested, fields[0])), [0], Values(middle, requested), last, [0]);
      AppendAssoc([0xff] + BytesOf(Get(requested, fields[0])) + [0] + Values(middle, requested), [0xff], BytesOf(Get(requested, fields[n])));
      AppendAssoc(Values(middle, requested), [0xff], BytesOf(Get(requested, fields[n])));
    } else {
      assert fields[..0] == [] && fields[1..] == [];
    }
  }

  function ValuesOf(fields: seq<string>, requested: Fields): seq<string> {
    seq(|fields|, i requires 0 <= i < |fields| => Get(requested, fields[i]))
  }

  lemma CleanRest(fields: seq<string>, requested: Fields)
    requires fields != [] && AllClean(ValuesOf(fields, requested))
    ensures AllClean(ValuesOf(fields[1..], requested))
  {
    hide Clean;
    forall i | 0 <= i < |fields| - 1
      ensures Clean(ValuesOf(fields[1..], requested)[i])
    {
      assert Clean(ValuesOf(fields, requested)[i + 1]);
    }
  }

  lemma {:induction false} ValuesComeBack(fields: seq<string>, requested: Fields, tail: seq<byte>)
    requires AllClean(ValuesOf(fields, requested))
    ensures TakeMany(TakeValue, Values(fields, requested) + tail, |fields|) == Some((ValuesOf(fields, requested), tail))
  {
    hide TakeName;
    hide TakeValue;
    hide Clean;
    hide BytesOf;
    if fields != [] {
      var more := Values(fields[1..], requested) + tail;
      var v := Get(requested, fields[0]);
      ValuesCons(fields, requested);
      AppendAssoc([0xff] + BytesOf(v) + [0], Values(fields[1..], requested), tail);
      assert ValuesOf(fields, requested) == [v] + ValuesOf(fields[1..], requested);
      assert Clean(ValuesOf(fields, requested)[0]);
      CleanRest(fields, requested);
      ValuesComeBack(fields[1..], requested, tail);
      ValueComesBack(v, more);
      hide Values;
      TakeOneMore(TakeValue, Values(fields, requested) + tail, |fields|, v, more, ValuesOf(fields[1..], requested), tail);
    } else {
      assert Values(fields, requested) + tail == tail;
    }
  }

  lemma PortComesBack(n: int, tail: seq<byte>)
    ensures TakePort(true, U16BE(n) + tail) == Some((Some(n % 0x1_0000), tail))
  {
    var m := n % 0x1_0000;
    DivModUnique(n, 256, 256 * (n / 0x1_0000) + m / 256, m % 256);
    assert (U16BE(n) + tail)[2..] == tail;
  }

  lemma BytesComeBack(q: seq<byte>, tail: seq<byte>)
    ensures TakeBytes(true, q + tail, |q|) == Some((Some(q), tail))
  {
    assert (q + tail)[..|q|] == q && (q + tail)[|q|..] == tail;
  }

  lemma FlagsComeBack(rec: ServerRecord)
    ensures var f := FlagsOf(rec);
            && f != 0 && Has(f, 64) && Has(f, 16) && Has(f, 8)
            && Has(f, 4) == (rec.natneg != "")
            && Has(f, 2) == (rec.localIP0 != "")
            && Has(f, 32) == (rec.localPort != "")
  {
  }

  lemma OptionalBytes(present: bool, q: seq<byte>, tail: seq<byte>)
    requires present ==> |q| == 4
    ensures TakeBytes(present, (if present then q else []) + tail, 4) == Some((if present then Some(q) else None, tail))
  {
    if present {
      BytesComeBack(q, tail);
    } else {
      assert [] + tail == tail;
    }
  }

  lemma OptionalPort(present: bool, n: int, tail: seq<byte>)
    ensures TakePort(present, (if present then U16BE(n) else []) + tail) ==
            Some((if present then Some(n % 0x1_0000) else None, tail))
  {
    if present {
      PortComesBack(n, tail);
    } else {
      assert [] + tail == tail;
    }
  }

  lemma Regroup(a: seq<byte>, b: seq<byte>, c: seq<byte>, d: seq<byte>, e: seq<byte>, f: seq<byte>)
    ensures a + b + c + d + e + f == a + (b + (c + (d + (e + f))))
  {
  }

  lemma AddressesComeBack(rec: ServerRecord, tail: seq<byte>)
    ensures TakeAddresses(FlagsOf(rec), Addresses(rec) + tail) ==
            Some((AddressPart(GetBytesFromIntSigned(NumberIn(rec.publicIP), rec.console), Some(PortOf(PortText(rec))),
                              if rec.localIP0 != "" then Some(OctetsOf(rec.localIP0)) else None,
                              if rec.localPort != "" then Some(PortOf(rec.localPort)) else None,
                              Some([0, 0, 0, 0])), tail))
  {
    hide NumberIn;
    hide OctetsOf;
    hide GetBytesFromIntSigned;
    hide PortText;
    hide U16BE;
    hide TakeBytes;
    hide TakePort;
    hide FlagsOf;
    hide Has;
    FlagsComeBack(rec);
    var ip: seq<byte> := GetBytesFromIntSigned(NumberIn(rec.publicIP), rec.console);
    var port := U16BE(NumberIn(PortText(rec)));
    var local := OctetsOf(rec.localIP0);
    var privateIP: seq<byte> := if rec.localIP0 != "" then local else [];
    var privatePort := if rec.localPort != "" then U16BE(NumberIn(rec.localPort)) else [];
    var icmp: seq<byte> := [0, 0, 0, 0];
    Regroup(ip, port, privateIP, privatePort, icmp, tail);
    BytesComeBack(icmp, tail);
    OptionalPort(rec.localPort != "", NumberIn(rec.localPort), icmp + tail);
    OptionalBytes(rec.localIP0 != "", local, privatePort + (icmp + tail));
    PortComesBack(NumberIn(PortText(rec)), privateIP + (privatePort + (icmp + tail)));
    BytesComeBack(ip, port + (privateIP + (privatePort + (icmp + tail))));
  }

  // ---------- entries ----------

  lemma EntryComesBack(fields: seq<string>, rec: ServerRecord, tail: seq<byte>)
    requires Listed(rec) && CleanRoom(fields, rec)
    ensures var b := ListEntry(fields, ResultOf(rec, fields));
            && b != [] && b[0] != 0
            && TakeEntry(b + tail, |fields|) == Some((EntryOf(fields, rec), tail))
  {
    hide TakeAddresses;
    hide TakeMany;
    hide Addresses;
    hide FlagsOf;
    hide Has;
    hide Clean;
    hide AsMap;
    hide PortOf;
    hide PortText;
    hide NumberIn;
    hide OctetsOf;
    hide GetBytesFromIntSigned;
    var requested := ResultOf(rec, fields).requested;
    var values := Values(fields, requested);
    var b := ListEntry(fields, ResultOf(rec, fields));
    assert (b + tail)[1..] == Addresses(rec) + (values + tail);
    FlagsComeBack(rec);
    AddressesComeBack(rec, values + tail);
    RequestedValues(fields, rec);
    ValuesComeBack(fields, requested, tail);
  }

  lemma RequestedValues(fields: seq<string>, rec: ServerRecord)
    ensures ValuesOf(fields, ResultOf(rec, fields).requested) ==
            seq(|fields|, i requires 0 <= i < |fields| => Get(AsMap(rec), fields[i]))
    ensures CleanRoom(fields, rec) ==> AllClean(ValuesOf(fields, ResultOf(rec, fields).requested))
  {
    hide AsMap;
    hide Clean;
  }

  /** A room that is found has all the fields that were asked for, so none is ever dropped. */
  lemma NoneDropped(fields: seq<string>, rec: ServerRecord)
    ensures !DropsRoom(fields, ResultOf(rec, fields))
  {
    hide AsMap;
    if |fields| > 0 {
      assert fields[0] in ResultOf(rec, fields).requested;
    }
  }

  lemma EntriesCons(fields: seq<string>, list: seq<ServerRecord>)
    requires list != []
    ensures Entries(fields, Results(list, fields)) ==
            [ListEntry(fields, ResultOf(list[0], fields))] + Entries(fields, Results(list[1..], fields))
  {
    hide ListEntry;
    hide ResultOf;
    hide DropsRoom;
    var all := Entries(fields, Results(list, fields));
    NoneDropped(fields, list[0]);
    forall i | 0 < i < |list|
      ensures all[i] == Entries(fields, Results(list[1..], fields))[i - 1]
    {
      assert Results(list, fields)[i] == Results(list[1..], fields)[i - 1];
    }
  }

  lemma {:induction false} EntriesComeBack(fields: seq<string>, list: seq<ServerRecord>)
    requires forall i :: 0 <= i < |list| ==> CleanRoom(fields, list[i])
    ensures TakeEntries(Concat(Entries(fields, Results(list, fields))) + TERMINATOR, |fields|) == Some(Shown(fields, list))
  {
    hide TakeEntry;
    hide ListEntry;
    hide ResultOf;
    hide EntryOf;
    hide CleanRoom;
    hide DropsRoom;
    hide Listed;
    if list == [] {
      assert Concat(Entries(fields, Results(list, fields))) + TERMINATOR == TERMINATOR;
    } else {
      var more := Concat(Entries(fields, Results(list[1..], fields))) + TERMINATOR;
      var b := ListEntry(fields, ResultOf(list[0], fields));
      EntriesComeBack(fields, list[1..]);
      EntriesCons(fields, list);
      ListedMeaning(list[0]);
      assert Concat(Entries(fields, Results(list, fields))) + TERMINATOR == b + more;
      if Listed(list[0]) {
        EntryComesBack(fields, list[0], more);
        assert (b + more)[0] == b[0];
      } else {
        UnlistedIsEmpty(fields, list[0]);
        assert b + more == more;
        assert Shown(fields, list) == Shown(fields, list[1..]);
      }
    }
  }

  lemma ListedMeaning(rec: ServerRecord)
    ensures Listed(rec) <==> rec.sessionID != 0 || rec.publicIP != ""
  {
  }

  lemma UnlistedIsEmpty(fields: seq<string>, rec: ServerRecord)
    requires !Listed(rec)
    ensures ListEntry(fields, ResultOf(rec, fields)) == []
  {
  }

  // ---------- the whole reply ----------

  /** The client's own address and the requested rooms, as a client should read them. */
  function Expected(remote: UdpAddr, fields: seq<string>, list: seq<ServerRecord>): ServerList
    requires remote.ip.V4?
  {
    ServerList(QuadOf(remote.ip), remote.port, fields, Shown(fields, list))
  }

  ghost predicate Readable(remote: UdpAddr, fields: seq<string>, list: seq<ServerRecord>) {
    && remote.ip.V4? && |fields| < 0x1_0000 && AllClean(fields)
    && forall i :: 0 <= i < |list| ==> CleanRoom(fields, list[i])
  }

  lemma HeaderParts(b: seq<byte>, q: seq<byte>, port: Port, count: nat, rest: seq<byte>)
    requires |q| == 4 && count < 0x1_0000 && b == q + U16BE(port) + U16LE(count) + rest
    ensures b[..4] == q && b[8..] == rest
    ensures 256 * (b[4] as int) + b[5] as int == port
    ensures b[6] as int + 256 * (b[7] as int) == count
  {
  }

  /** The plaintext has one reading: the field names and every shown room, in order. */
  lemma ReplyComesBack(remote: UdpAddr, fields: seq<string>, list: seq<ServerRecord>)
    requires Readable(remote, fields, list)
    ensures Read(Reply(remote, fields, Results(list, fields))) == Some(Expected(remote, fields, list))
  {
    hide TakeEntries;
    hide TakeMany;
    hide Shown;
    hide Entries;
    hide CleanRoom;
    hide FieldBytes;
    hide U16BE;
    hide U16LE;
    hide AllClean;
    var b := Reply(remote, fields, Results(list, fields));
    var entries := Concat(Entries(fields, Results(list, fields))) + TERMINATOR;
    var q: seq<byte> := QuadOf(remote.ip);
    assert b == q + U16BE(remote.port) + U16LE(|fields|) + (FieldBytes(fields) + entries);
    HeaderParts(b, q, remote.port, |fields|, FieldBytes(fields) + entries);
    NamesComeBack(fields, entries);
    EntriesComeBack(fields, list);
  }

  /** The cutting into blocks loses nothing; all blocks but the last are full, none is empty. */
  lemma {:induction false} BlocksMakeTheReply(data: seq<byte>, entries: seq<seq<byte>>)
    ensures Concat(Blocks(data, entries)) == data + Concat(entries) + TERMINATOR
    ensures var blocks := Blocks(data, entries);
            && blocks != []
            && (forall i :: 0 <= i < |blocks| ==> blocks[i] != [])
            && (forall i :: 0 <= i < |blocks| - 1 ==> |blocks[i]| >= 1022)
    decreases |entries|
  {
    if entries == [] {
      assert Concat([data + TERMINATOR]) == data + TERMINATOR;
      assert data + [] + TERMINATOR == data + TERMINATOR;
    } else {
      var data' := data + entries[0];
      assert data + Concat(entries) + TERMINATOR == data' + (Concat(entries[1..]) + TERMINATOR);
      assert [] + Concat(entries[1..]) + TERMINATOR == Concat(entries[1..]) + TERMINATOR;
      if |data'| >= MAX_PACKET {
        BlocksMakeTheReply([], entries[1..]);
      } else {
        BlocksMakeTheReply(data', entries[1..]);
      }
    }
  }

  /** No block is longer than one entry, or the end of the list, makes it beyond 1021 bytes. */
  lemma {:induction false} BlocksAreShort(data: seq<byte>, entries: seq<seq<byte>>, longest: nat)
    requires |data| < 1022 && longest >= 5 && forall i :: 0 <= i < |entries| ==> |entries[i]| <= longest
    ensures forall i :: 0 <= i < |Blocks(data, entries)| ==> |Blocks(data, entries)[i]| < 1022 + longest
    decreases |entries|
  {
    if entries != [] {
      var data' := data + entries[0];
      BlocksAreShort(if |data'| >= 1022 then [] else data', entries[1..], longest);
    }
  }

  /** Decrypting every block by itself and joining the plaintexts gives the reply. */
  lemma BlocksOpen(secret: seq<byte>, challenge: seq<byte>, salt: nat -> Salt, blocks: seq<seq<byte>>)
    requires secret != [] && |challenge| == 8 && forall i :: 0 <= i < |blocks| ==> blocks[i] != []
    ensures ReadBlocks(secret, challenge, Sealed(secret, challenge, salt, blocks)) == Read(Concat(blocks))
  {
    hide EncTypeX.Encrypted;
    hide EncTypeXClient.Decrypted;
    hide Read;
    var sealed := Sealed(secret, challenge, salt, blocks);
    forall i | 0 <= i < |sealed|
      ensures EncTypeXClient.Decrypted(secret, challenge, sealed[i]) == Some(blocks[i])
    {
      EncTypeXClient.EncTypeXInvertible(secret, challenge, salt(i), blocks[i]);
    }
    assert seq(|sealed|, i requires 0 <= i < |sealed| => EncTypeXClient.Decrypted(secret, challenge, sealed[i]).value) == blocks;
  }

  /**
   What a client reads from the reply to a query, through blocks and encryption: its own address,
   the fields it asked for, and exactly the first matching rooms, in list order, with their values.
   */
  lemma QueryIsAnswered(
      fold: FilterEval.Folding, rooms: Rooms, game: string, filter: string, fields: seq<string>, maxServers: int,
      remote: UdpAddr, secret: seq<byte>, challenge: seq<byte>, salt: nat -> Salt)
    requires secret != [] && |challenge| == 8
    requires Readable(remote, fields, AnswerTo(fold, rooms, game, filter, maxServers))
    ensures var found := Found(fold, rooms, game, filter, fields, maxServers);
            var results := if found.Some? then found.value else [];
            var blocks := Blocks(ListHeader(remote, fields), Entries(fields, AtLeastOne(results)));
            ReadBlocks(secret, challenge, Sealed(secret, challenge, salt, blocks))
            == Some(Expected(remote, fields, AnswerTo(fold, rooms, game, filter, maxServers)))
  {
    hide Read;
    hide ReadBlocks;
    hide Expected;
    hide Entries;
    hide ListHeader;
    hide Sealed;
    hide Blocks;
    hide Readable;
    hide Found;
    hide AnswerTo;
    var found := Found(fold, rooms, game, filter, fields, maxServers);
    var results := if found.Some? then found.value else [];
    var list := AnswerTo(fold, rooms, game, filter, maxServers);
    FoundIsAnswer(fold, rooms, game, filter, fields, maxServers);
    var blocks := Blocks(ListHeader(remote, fields), Entries(fields, AtLeastOne(results)));
    BlocksMakeTheReply(ListHeader(remote, fields), Entries(fields, AtLeastOne(results)));
    NoResultShowsNothing(fields, results);
    BlocksOpen(secret, challenge, salt, blocks);
    ReplyComesBack(remote, fields, list);
  }

  lemma NoResultShowsNothing(fields: seq<string>, results: seq<ServerResult>)
    ensures Concat(Entries(fields, AtLeastOne(results))) == Concat(Entries(fields, results))
  {
    if results == [] {
      assert Entries(fields, [NO_RESULT]) == [[]] && Entries(fields, results) == [];
      assert Concat<byte>([[]]) == [] + Concat<byte>([[]][1..]) == [];
    }
  }

  /** The rooms that a query is for: none when the filter is wrong. */
  function AnswerTo(fold: FilterEval.Folding, rooms: Rooms, game: string, filter: string, maxServers: int): seq<ServerRecord> {
    match FilterParser.Compiled(filter)
    case None => []
    case Some(root) => FirstOf(Matching(fold, root, ListOf(rooms, game)), maxServers)
  }

  lemma FoundIsAnswer(fold: FilterEval.Folding, rooms: Rooms, game: string, filter: string, fields: seq<string>, maxServers: int)
    ensures var found := Found(fold, rooms, game, filter, fields, maxServers);
            (if found.Some? then found.value else []) == Results(AnswerTo(fold, rooms, game, filter, maxServers), fields)
  {
    hide FilterParser.Compiled;
    hide Matching;
    var compiled := FilterParser.Compiled(filter);
    if compiled.Some? {
      var list := Matching(fold, compiled.value, ListOf(rooms, game));
      if 0 < maxServers < |list| {
        ResultsPrefix(list, fields, maxServers);
      }
    }
  }
}
