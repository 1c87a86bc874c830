/**
 The decoder of a game client for EncTypeX messages, written apart from the encoder: a table and
 five named registers, keyed and stepped by rules of its own. It reads what the server encrypts.
 */
module EncTypeXClient {
  import opened GoLib
  import opened ByteTable
  import opened EncTypeX

  type Table = t: seq<byte> | |t| == 256 witness seq(256, i => 0)

  /** `next` walks through the table, `mix` and `sum` wander, `plain` and `cipher` are the last byte. */
  datatype Client = Client(table: Table, next: byte, mix: byte, sum: byte, plain: byte, cipher: byte)

  // ---------- keying ----------

  /** The challenge with the bytes of the header mixed in, from the `i`-th on. */
  function Blend(key: seq<byte>, challenge: seq<byte>, noise: seq<byte>, i: nat): (v: seq<byte>)
    requires key != [] && |challenge| >= 8 && i <= |noise|
    ensures |v| == |challenge|
    decreases |noise| - i
  {
    if i == |noise| then challenge
    else
      var at := key[i % |key|] as int * i % 8;
      Blend(key, challenge[at := Xor(challenge[at], Xor(challenge[i % 8], noise[i]))], noise, i + 1)
  }

  /** The number of bits that hold `limit`. */
  function Bits(limit: nat): nat {
    if limit < 2 then 1 else 1 + Bits(limit / 2)
  }

  /** A source of indices: a running value and a position in the key bytes. */
  datatype Source = Source(value: nat, at: nat)

  function Advanced(t: Table, id: seq<byte>, s: Source): (s': Source)
    requires s.at < |id|
    ensures s'.at < |id|
  {
    var value := t[s.value % 256] as int + id[s.at] as int;
    if s.at + 1 == |id| then Source(value + |id|, 0) else Source(value, s.at + 1)
  }

  /** An index up to `limit`: low bits of the running value, tried eleven times and then reduced. */
  function Pick(t: Table, id: seq<byte>, s: Source, limit: nat, tries: nat): (r: (nat, Source))
    requires 0 < limit < 256 && s.at < |id|
    ensures r.0 <= limit && r.1.at < |id|
    decreases tries
  {
    var s' := Advanced(t, id, s);
    var index := s'.value % Pow2(Bits(limit));
    if tries == 0 then (index % limit, s')
    else if index <= limit then (index, s')
    else Pick(t, id, s', limit, tries - 1)
  }

  /** The entries up to `i` are exchanged, the last of them first. */
  function Dealt(t: Table, id: seq<byte>, s: Source, i: nat): (r: (Table, Source))
    requires i < 256 && s.at < |id|
    ensures r.1.at < |id|
    decreases i
  {
    if i == 0 then (t, s)
    else
      var (j, s') := Pick(t, id, s, i, 11);
      Dealt(t[i := t[j]][j := t[i]], id, s', i - 1)
  }

  function Keyed(id: seq<byte>): Client
    requires id != []
  {
    var (t, s) := Dealt(Identity(), id, Source(0, 0), 255);
    Client(t, t[1], t[3], t[5], t[7], t[s.value % 256])
  }

  // ---------- one byte ----------

  /** Four entries move on by one place, one after the other. */
  function Rotated(t: Table, cipher: byte, mix: byte, plain: byte, next: byte): Table {
    var t1 := t[cipher := t[mix]];
    var t2 := t1[mix := t1[plain]];
    var t3 := t2[plain := t2[next]];
    t3[next := t[cipher]]
  }

  function ReadByte(c: Client, e: byte): (Client, byte) {
    var next, mix := Plus(c.next, 1), Plus(c.mix, c.table[c.next]);
    var t := Rotated(c.table, c.cipher, mix, c.plain, next);
    var sum := Plus(t[c.table[c.cipher]], c.sum);
    var left := t[Plus(t[mix], Plus(t[c.plain], t[c.cipher]))];
    var right := Plus(t[sum], t[next]);
    var d := Xor(Xor(t[left], t[right]), e);
    (Client(t, next, mix, sum, d, e), d)
  }

  function ReadRun(c: Client, data: seq<byte>): (r: (Client, seq<byte>))
    ensures |r.1| == |data|
    decreases |data|
  {
    if data == [] then (c, [])
    else
      var (c', d) := ReadByte(c, data[0]);
      var (c'', rest) := ReadRun(c', data[1..]);
      (c'', [d] + rest)
  }

  // ---------- whole messages ----------

  /** The first byte tells where the noise begins, the byte before that how long it is. */
  function Decrypted(key: seq<byte>, challenge: seq<byte>, msg: seq<byte>): Option<seq<byte>>
    requires key != [] && |challenge| >= 8
  {
    if msg == [] then None
    else
      var skip := Xor(msg[0], 0xec) + 2;
      if skip > |msg| then None
      else
        var noise := Xor(msg[skip - 1], 0xea);
        if skip + noise > |msg| then None
        else
          var id := Blend(key, challenge, msg[skip..skip + noise], 0)[..8];
          Some(ReadRun(Keyed(id), msg[skip + noise..]).1)
  }

  // ---------- the client and the cipher state ----------

  function StateOf(c: Client): CipherState {
    c.table + [c.next, c.mix, c.sum, c.plain, c.cipher]
  }

  lemma RotatedIsStirred(k: CipherState, c: Client)
    requires k == StateOf(c)
    ensures var next, mix := Plus(c.next, 1), Plus(c.mix, c.table[c.next]);
            var r := Rotated(c.table, c.cipher, mix, c.plain, next);
            var sum := Plus(r[c.table[c.cipher]], c.sum);
            Stir(k) == r + [next, mix, sum, c.plain, c.cipher]
  {
    var next, mix := Plus(c.next, 1), Plus(c.mix, c.table[c.next]);
    var k0 := k[256 := next][257 := mix];
    var regs: seq<byte> := [next, mix, c.sum, c.plain, c.cipher];
    assert k0 == c.table + regs;
    var t1 := c.table[c.cipher := c.table[mix]];
    SetEntry(c.table, regs, c.cipher, c.table[mix]);
    var t2 := t1[mix := t1[c.plain]];
    SetEntry(t1, regs, mix, t1[c.plain]);
    var t3 := t2[c.plain := t2[next]];
    SetEntry(t2, regs, c.plain, t2[next]);
    var t4 := t3[next := c.table[c.cipher]];
    SetEntry(t3, regs, next, c.table[c.cipher]);
  }

  lemma SetEntry(t: Table, regs: seq<byte>, i: byte, v: byte)
    requires |regs| == 5
    ensures (t + regs)[i := v] == t[i := v] + regs
    ensures forall j: byte :: (t + regs)[j] == t[j]
  {
  }

  /** The client reads the byte that the encoder wrote, and then is in the encoder's state again. */
  lemma ReadsByte(c: Client, d: byte)
    ensures var (k, e) := EncryptByte(StateOf(c), d);
            ReadByte(c, e).1 == d && StateOf(ReadByte(c, e).0) == k
  {
    hide Stir;
    hide Xor;
    hide Rotated;
    var k := StateOf(c);
    RotatedIsStirred(k, c);
    var next, mix := Plus(c.next, 1), Plus(c.mix, c.table[c.next]);
    var t := Rotated(c.table, c.cipher, mix, c.plain, next);
    var sum := Plus(t[c.table[c.cipher]], c.sum);
    PadOf(t, next, mix, sum, c.plain, c.cipher);
    PadCancels(Pad(Stir(k)), d);
  }

  lemma PadCancels(pad: byte, d: byte)
    ensures Xor(pad, Xor(pad, d)) == d
  {
    XorCommutes(pad, Xor(pad, d));
    XorCommutes(pad, d);
    XorCancel(d, pad);
  }

  lemma PadOf(t: Table, next: byte, mix: byte, sum: byte, plain: byte, cipher: byte)
    ensures var k: CipherState := t + [next, mix, sum, plain, cipher];
            Pad(k) == Xor(t[t[Plus(t[mix], Plus(t[plain], t[cipher]))]], t[Plus(t[sum], t[next])])
  {
    hide Xor;
    SetEntry(t, [next, mix, sum, plain, cipher], 0, 0);
    PlusRegroups(t[mix], t[plain], t[cipher]);
  }

  lemma PlusRegroups(a: byte, b: byte, c: byte)
    ensures Plus(c, Plus(a, b)) == Plus(a, Plus(b, c))
  {
  }

  lemma {:induction false} ReadRunLast(c: Client, a: seq<byte>, e: byte)
    ensures var r := ReadRun(c, a);
            ReadRun(c, a + [e]) == (ReadByte(r.0, e).0, r.1 + [ReadByte(r.0, e).1])
    decreases |a|
  {
    hide ReadByte;
    if a == [] {
      var (c', d) := ReadByte(c, e);
      var one := [e];
      assert a + [e] == one && one[1..] == [];
      assert ReadRun(c, one) == (c', [d] + []) && [d] + [] == [d] && [] + [d] == [d];
    } else {
      assert (a + [e])[1..] == a[1..] + [e];
      ReadRunLast(ReadByte(c, a[0]).0, a[1..], e);
      var (c', d) := ReadByte(c, a[0]);
      var r := ReadRun(c', a[1..]);
      assert [d] + (r.1 + [ReadByte(r.0, e).1]) == ([d] + r.1) + [ReadByte(r.0, e).1];
    }
  }

  /** Client and encoder go through the same states, and the client reads the plaintext. */
  lemma {:induction false} Lockstep(c: Client, data: seq<byte>)
    ensures var (k, out) := EncryptRun(StateOf(c), data);
            ReadRun(c, out).1 == data && StateOf(ReadRun(c, out).0) == k
  {
    hide ReadByte;
    hide EncryptByte;
    hide StateOf;
    if data != [] {
      var n := |data| - 1;
      Lockstep(c, data[..n]);
      var (k, out) := EncryptRun(StateOf(c), data[..n]);
      var e := EncryptByte(k, data[n]).1;
      var c' := ReadRun(c, out).0;
      ReadsByte(c', data[n]);
      ReadRunLast(c, out, e);
      assert data == data[..n] + [data[n]];
    }
  }

  // ---------- the client keys itself as the encoder does ----------

  lemma {:induction false} BlendIsMixed(key: seq<byte>, challenge: seq<byte>, noise: seq<byte>, i: nat)
    requires key != [] && |challenge| >= 8 && i <= |noise|
    ensures Blend(key, Mixed(key, challenge, noise, i), noise, i) == Mixed(key, challenge, noise, |noise|)
    decreases |noise| - i
  {
    hide Xor;
    if i < |noise| {
      BlendIsMixed(key, challenge, noise, i + 1);
    }
  }

  lemma {:induction false} BitsHold(limit: nat)
    requires limit > 0
    ensures limit < Pow2(Bits(limit)) <= 2 * limit
  {
    if limit >= 2 {
      BitsHold(limit / 2);
      assert Pow2(Bits(limit)) == 2 * Pow2(Bits(limit / 2));
    } else {
      assert Pow2(1) == 2 * Pow2(0);
    }
  }

  lemma {:induction false} MaskIsBits(b: nat, limit: nat)
    requires 0 < b <= Bits(limit) && limit > 0
    ensures MaskFrom(Pow2(b) - 1, limit) == Pow2(Bits(limit)) - 1
    decreases Bits(limit) - b
  {
    BitsHold(limit);
    if b < Bits(limit) {
      Pow2Grows(b, Bits(limit) - 1);
      assert Pow2(Bits(limit)) == 2 * Pow2(Bits(limit) - 1);
      assert Pow2(b + 1) == 2 * Pow2(b);
      MaskIsBits(b + 1, limit);
    }
  }

  lemma {:induction false} Pow2Grows(a: nat, b: nat)
    requires a <= b
    ensures Pow2(a) <= Pow2(b)
  {
    if a < b {
      Pow2Grows(a, b - 1);
    }
  }

  lemma {:induction false} PickIsDraw(t: Table, id: seq<byte>, s: Source, limit: nat, i: nat)
    requires 0 < limit < 256 && s.at < |id| && i <= 11
    ensures var mask := Pow2(Bits(limit)) - 1;
            var (j, s') := Pick(t, id, s, limit, 11 - i);
            mask >= limit && Draw(t + [0, 0, 0, 0, 0], limit, mask, id, s.value, s.at, i) == (j, s'.value, s'.at)
    decreases 11 - i
  {
    hide BitAnd;
    hide Pow2;
    hide Bits;
    BitsHold(limit);
    var s' := Advanced(t, id, s);
    BitAndMask(s'.value, Bits(limit));
    if i < 11 {
      PickIsDraw(t, id, s', limit, i + 1);
    }
  }

  lemma FirstMask(limit: nat)
    requires 0 < limit
    ensures MaskFrom(1, limit) == Pow2(Bits(limit)) - 1
  {
    assert Pow2(1) == 2 * Pow2(0);
    MaskIsBits(1, limit);
  }

  lemma {:induction false} DealtIsShuffled(t: Table, id: seq<byte>, s: Source, i: nat)
    requires i < 256 && s.at < |id| && Shuffled(id, i + 1) == (t + [0, 0, 0, 0, 0], s.value, s.at)
    ensures var (t', s') := Dealt(t, id, s, i);
            Shuffled(id, 0) == (t' + [0, 0, 0, 0, 0], s'.value, s'.at)
    decreases i
  {
    hide Pick;
    hide Draw;
    hide MaskFrom;
    hide Pow2;
    hide Bits;
    var k := t + [0, 0, 0, 0, 0];
    if i == 0 {
      assert Swap(k, 0, 0) == k;
    } else {
      FirstMask(i);
      PickIsDraw(t, id, s, i, 0);
      var (j, s') := Pick(t, id, s, i, 11);
      var t' := t[i := t[j]][j := t[i]];
      assert Swap(k, i, j) == t' + [0, 0, 0, 0, 0];
      DealtIsShuffled(t', id, s', i - 1);
    }
  }

  lemma KeyedIsKey(id: seq<byte>)
    requires id != []
    ensures StateOf(Keyed(id)) == KeyFrom(id)
  {
    hide Dealt;
    hide Shuffled;
    ShuffleStarts(id);
    DealtIsShuffled(Identity(), id, Source(0, 0), 255);
    var (t, s) := Dealt(Identity(), id, Source(0, 0), 255);
    assert (t + [0, 0, 0, 0, 0])[..256] == t;
  }

  lemma ShuffleStarts(id: seq<byte>)
    requires id != []
    ensures Shuffled(id, 256) == (Identity() + [0, 0, 0, 0, 0], 0, 0)
  {
  }

  // ---------- the client reads every message ----------

  lemma Reads(key: seq<byte>, challenge: seq<byte>, rnd: seq<byte>, body: seq<byte>)
    requires key != [] && |challenge| >= 8 && |rnd| == 20
    ensures var header := Header(key, challenge, rnd);
            Decrypted(key, challenge, header + body)
            == Some(ReadRun(Keyed(Mixed(key, challenge, header[7..], 13)[..8]), body).1)
  {
    hide Xor;
    hide Keyed;
    hide ReadRun;
    hide Blend;
    var header := Header(key, challenge, rnd);
    var msg := header + body;
    XorCancel(5, 0xec);
    XorCancel(13, 0xea);
    assert msg[0] == header[0] && msg[6] == header[6];
    assert msg[7..20] == header[7..] && msg[20..] == body;
    BlendIsMixed(key, challenge, header[7..], 0);
  }

  /** Every message is read by the client as its payload, and is twenty bytes longer. */
  lemma EncTypeXInvertible(key: seq<byte>, validate: seq<byte>, rnd: seq<byte>, data: seq<byte>)
    requires key != [] && |validate| >= 8 && |rnd| == 20 && data != []
    ensures var msg := Encrypted(key, validate, rnd, data);
            |msg| == 20 + |data| && Decrypted(key, validate, msg) == Some(data)
  {
    hide KeyFrom;
    hide Keyed;
    hide Init;
    hide Mixed;
    hide Decrypted;
    hide ReadRun;
    hide EncryptRun;
    hide StateOf;
    var header := Header(key, validate, rnd);
    InitOfHeader(key, validate, rnd, data);
    var id := Mixed(key, validate, header[7..], 13)[..8];
    assert (header + data)[20..] == data;
    KeyedIsKey(id);
    Reads(key, validate, rnd, EncryptRun(KeyFrom(id), data).1);
    Lockstep(Keyed(id), data);
  }
}
