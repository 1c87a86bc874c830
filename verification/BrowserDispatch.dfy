/**
 How the server browser cuts the TCP stream of a client into packets (`dispatch` in
 internal/gamespy/browser/server.go). Handing a packet to its handler is recorded in `handled`.
 */
module BrowserDispatch {
  import opened GoLib

  /** maxBufferSize: four times 256 + 511 + 255. */
  const MAX_BUFFER := 4088

  function LengthOf(b: seq<byte>): nat
    requires |b| >= 2
  {
    256 * (b[0] as int) + b[1] as int
  }

  predicate GoodLength(b: seq<byte>)
    requires |b| >= 2
  {
    3 <= LengthOf(b) <= MAX_BUFFER
  }

  datatype Cutting = Cutting(packets: seq<seq<byte>>, rest: seq<byte>, ok: bool)

  /** The packets at the front of `b`; not ok if a length is not one of a packet. */
  function Cut(b: seq<byte>): (r: Cutting)
    ensures r.ok ==> |r.rest| <= |b|
    decreases |b|
  {
    if |b| < 2 then Cutting([], b, true)
    else if !GoodLength(b) then Cutting([], b, false)
    else if |b| < LengthOf(b) then Cutting([], b, true)
    else
      var more := Cut(b[LengthOf(b)..]);
      Cutting([b[..LengthOf(b)]] + more.packets, more.rest, more.ok)
  }

  datatype Conn = Conn(handled: seq<seq<byte>>, buffer: seq<byte>, open: bool)

  /** One call of dispatch. */
  function Feed(c: Conn, chunk: seq<byte>): Conn {
    if !c.open then c
    else if |c.buffer + chunk| > MAX_BUFFER then Conn(c.handled, c.buffer + chunk, false)
    else
      var cut := Cut(c.buffer + chunk);
      Conn(c.handled + cut.packets, cut.rest, cut.ok)
  }

  function Fed(chunks: seq<seq<byte>>): Conn {
    if chunks == [] then Conn([], [], true)
    else Feed(Fed(chunks[..|chunks| - 1]), chunks[|chunks| - 1])
  }

  lemma ConcatLast(chunks: seq<seq<byte>>)
    requires chunks != []
    ensures Concat(chunks) == Concat(chunks[..|chunks| - 1]) + chunks[|chunks| - 1]
  {
    var init, last := chunks[..|chunks| - 1], chunks[|chunks| - 1];
    assert chunks == init + [last] && Concat([last]) == last + Concat([last][1..]) == last;
    ConcatAppend(init, [last]);
  }

  class Connection {
    var buffer: seq<byte>
    var handled: seq<seq<byte>>

    constructor ()
      ensures buffer == [] && handled == []
    {
      buffer, handled := [], [];
    }

    /** Returns whether the connection stays open. */
    method Dispatch(chunk: seq<byte>) returns (open: bool)
      modifies this
      ensures Conn(handled, buffer, open) == Feed(Conn(old(handled), old(buffer), true), chunk)
    {
      buffer := buffer + chunk;
      if |buffer| > MAX_BUFFER {
        return false;
      }
      ghost var whole := Cut(buffer);
      while |buffer| > 0
        invariant whole.rest == Cut(buffer).rest && whole.ok == Cut(buffer).ok
        invariant old(handled) + whole.packets == handled + Cut(buffer).packets
        decreases |buffer|
      {
        if |buffer| < 2 {
          return true;
        }
        var packetLen := 256 * (buffer[0] as int) + buffer[1] as int;
        if packetLen < 3 || packetLen > MAX_BUFFER {
          return false;
        }
        if |buffer| < packetLen {
          return true;
        }
        ghost var more := Cut(buffer[packetLen..]).packets;
        AppendAssoc(handled, [buffer[..packetLen]], more);
        Handle(buffer[..packetLen]);
        buffer := buffer[packetLen..];
      }
      return true;
    }

    method Handle(packet: seq<byte>)
      modifies `handled
      ensures handled == old(handled) + [packet]
    {
      handled := handled + [packet];
    }
  }

  // ---------- chunks do not matter, but for the limit on the buffer ----------

  /** Cutting can stop anywhere and go on with what is left and what comes next. */
  lemma {:induction false} CutGoesOn(a: seq<byte>, b: seq<byte>)
    ensures var first := Cut(a);
            Cut(a + b) ==
            (if first.ok then
               var second := Cut(first.rest + b);
               Cutting(first.packets + second.packets, second.rest, second.ok)
             else Cutting(first.packets, first.rest + b, false))
    decreases |a|
  {
    if |a| >= 2 {
      assert LengthOf(a + b) == LengthOf(a);
      if GoodLength(a) && |a| >= LengthOf(a) {
        var n := LengthOf(a);
        assert (a + b)[..n] == a[..n] && (a + b)[n..] == a[n..] + b;
        CutGoesOn(a[n..], b);
        AppendAssoc([a[..n]], Cut(a[n..]).packets, Cut(Cut(a[n..]).rest + b).packets);
      }
    }
  }

  /** While the connection is open it has handled, and kept, exactly what the stream says. */
  lemma {:induction false} OpenIsExact(chunks: seq<seq<byte>>)
    requires Fed(chunks).open
    ensures Cut(Concat(chunks)) == Cutting(Fed(chunks).handled, Fed(chunks).buffer, true)
  {
    hide Cut;
    if chunks == [] {
      CutNothing();
    } else {
      var n := |chunks| - 1;
      OpenIsExact(chunks[..n]);
      ConcatLast(chunks);
      CutGoesOn(Concat(chunks[..n]), chunks[n]);
    }
  }

  lemma CutNothing()
    ensures Cut([]) == Cutting([], [], true)
  {
  }

  /** Chunk `k` makes the buffer too long while there is a packet in it. */
  ghost predicate LosesAt(chunks: seq<seq<byte>>, k: nat) {
    && k < |chunks|
    && var c := Fed(chunks[..k]);
       var b := c.buffer + chunks[k];
       c.open && |b| > MAX_BUFFER && GoodLength(b)
  }

  ghost predicate Loses(chunks: seq<seq<byte>>) {
    exists k: nat :: LosesAt(chunks, k)
  }

  lemma LosesStep(chunks: seq<seq<byte>>)
    requires chunks != []
    ensures Loses(chunks) <==> Loses(chunks[..|chunks| - 1]) || LosesAt(chunks, |chunks| - 1)
  {
    hide Fed;
    hide GoodLength;
    var n := |chunks| - 1;
    forall k: nat | k < n
      ensures LosesAt(chunks, k) == LosesAt(chunks[..n], k)
    {
      assert chunks[..n][..k] == chunks[..k];
    }
  }

  /**
   However the stream is cut into chunks, the packets handled are a prefix of the stream's packets,
   and they are all of them exactly if no chunk overfills the buffer while a packet is in it.
   */
  lemma {:induction false} ChunksHandleTheStream(chunks: seq<seq<byte>>)
    ensures Fed(chunks).handled <= Cut(Concat(chunks)).packets
    ensures Fed(chunks).handled == Cut(Concat(chunks)).packets <==> !Loses(chunks)
    ensures !Loses(chunks) ==> Fed(chunks).open == Cut(Concat(chunks)).ok
  {
    hide Cut;
    if chunks == [] {
      CutNothing();
    } else {
      var n := |chunks| - 1;
      var before := Fed(chunks[..n]);
      ChunksHandleTheStream(chunks[..n]);
      LosesStep(chunks);
      ConcatLast(chunks);
      CutGoesOn(Concat(chunks[..n]), chunks[n]);
      if before.open {
        OpenIsExact(chunks[..n]);
        if |before.buffer + chunks[n]| > MAX_BUFFER {
          Overfull(before.buffer + chunks[n]);
        }
      }
    }
  }

  lemma Overfull(b: seq<byte>)
    requires |b| > MAX_BUFFER
    ensures GoodLength(b) <==> Cut(b).packets != []
    ensures !GoodLength(b) ==> !Cut(b).ok
  {
  }

  // ---------- a chunk that loses its packets ----------

  const KEEP_ALIVE: seq<byte> := [0, 3, 3]

  function KeepAlives(n: nat): (b: seq<byte>)
    ensures |b| == 3 * n
  {
    if n == 0 then [] else KEEP_ALIVE + KeepAlives(n - 1)
  }

  lemma {:induction false} KeepAlivesCut(n: nat)
    ensures var cut := Cut(KeepAlives(n)); |cut.packets| == n && cut.rest == [] && cut.ok
  {
    hide Cut;
    if n == 0 {
      CutNothing();
    } else {
      KeepAlivesCut(n - 1);
      OneMore(KeepAlives(n - 1));
    }
  }

  lemma OneMore(b: seq<byte>)
    ensures Cut(KEEP_ALIVE + b) == Cutting([KEEP_ALIVE] + Cut(b).packets, Cut(b).rest, Cut(b).ok)
  {
    var all := KEEP_ALIVE + b;
    assert all[..3] == KEEP_ALIVE && all[3..] == b && LengthOf(all) == 3;
  }

  lemma KeepAlivesGood(n: nat)
    requires n > 0
    ensures GoodLength(KeepAlives(n))
  {
  }

  lemma FedOne(chunk: seq<byte>)
    ensures Fed([chunk]) == Feed(Conn([], [], true), chunk)
  {
    assert [chunk][..0] == [];
  }

  /**
   1363 whole packets in one chunk of 4089 bytes, less than what is read at once: none is handled
   and the connection is closed. In two chunks all are handled.
   */
  lemma WholePacketsLost()
    ensures var chunk := KeepAlives(1363);
            && |chunk| == 4089 && Cut(chunk).ok && |Cut(chunk).packets| == 1363 && Cut(chunk).rest == []
            && Loses([chunk]) && Fed([chunk]).handled == [] && !Fed([chunk]).open
            && |Fed([KEEP_ALIVE, KeepAlives(1362)]).handled| == 1363 && Fed([KEEP_ALIVE, KeepAlives(1362)]).open
  {
    hide KeepAlives;
    hide Cut;
    hide GoodLength;
    var chunk, more := KeepAlives(1363), KeepAlives(1362);
    KeepAlivesCut(1363);
    KeepAlivesGood(1363);
    FedOne(chunk);
    var one := [chunk];
    assert [] + chunk == chunk && one[..0] == [];
    assert LosesAt(one, 0);
    KeepAlivesCut(1362);
    OneKeepAlive();
    FedOne(KEEP_ALIVE);
    assert [] + KEEP_ALIVE == KEEP_ALIVE && [] + more == more;
    assert [KEEP_ALIVE, more][..1] == [KEEP_ALIVE];
    assert Fed([KEEP_ALIVE, more]) == Feed(Fed([KEEP_ALIVE]), more);
  }

  lemma OneKeepAlive()
    ensures Cut(KEEP_ALIVE) == Cutting([KEEP_ALIVE], [], true)
  {
    assert KEEP_ALIVE[3..] == [] && KEEP_ALIVE[..3] == KEEP_ALIVE;
  }

  // ---------- real packets ----------

  /** A packet of 3 to 4088 bytes that begins with its own length, the high byte first. */
  predicate IsPacket(p: seq<byte>) {
    3 <= |p| <= 4088 && p[0] as int == |p| / 256 && p[1] as int == |p| % 256
  }

  /** Packets sent one after the other, and the beginning of another, are cut where they were joined. */
  lemma {:induction false} PacketsAreCut(packets: seq<seq<byte>>, next: seq<byte>, n: nat)
    requires forall i :: 0 <= i < |packets| ==> IsPacket(packets[i])
    requires IsPacket(next) && n < |next|
    ensures Cut(Concat(packets) + next[..n]) == Cutting(packets, next[..n], true)
  {
    if packets == [] {
      assert Concat(packets) + next[..n] == next[..n];
      assert n >= 2 ==> LengthOf(next[..n]) == |next|;
    } else {
      var p, rest := packets[0], Concat(packets[1..]) + next[..n];
      var b := Concat(packets) + next[..n];
      assert b == p + rest;
      assert IsPacket(p) && LengthOf(b) == LengthOf(p) == |p|;
      assert b[..|p|] == p && b[|p|..] == rest;
      PacketsAreCut(packets[1..], next, n);
      assert packets == [p] + packets[1..];
    }
  }

  /** A length that no packet has ends the connection. */
  lemma BadLengthCloses(b: seq<byte>)
    requires |b| >= 2 && !(3 <= 256 * (b[0] as int) + b[1] as int <= 4088)
    ensures Cut(b) == Cutting([], b, false)
  {
  }
}
