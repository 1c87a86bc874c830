/**
 GameSpy's EncTypeX cipher (internal/gamespy/crypto.go).

 The cipher state is one sequence of 261 bytes: a table of 256 bytes and five registers.
 The random header bytes are a parameter.
 */
module EncTypeX {
  import opened GoLib
  import opened ByteTable

  type CipherState = k: seq<byte> | |k| == 261 witness seq(261, i => 0)

  // ---------- the key schedule ----------

  function MaskFrom(mask: nat, cnt: nat): (r: nat)
    ensures r >= mask && r >= cnt
    decreases cnt - mask
  {
    if mask < cnt then MaskFrom(2 * mask + 1, cnt) else mask
  }

  /** The loop of enctypexFunc5: draw, mask, and from the twelfth draw on reduce; stop in range. */
  function Draw(k: CipherState, cnt: nat, mask: nat, id: seq<byte>, n1: nat, n2: nat, i: nat): (r: (nat, nat, nat))
    requires 0 < cnt < 256 && id != [] && n2 < |id| && i <= 12 && mask >= cnt
    ensures r.0 <= cnt && r.2 < |id|
    decreases 12 - i
  {
    var n1': nat := k[n1 % 256] as int + id[n2];
    var wraps := n2 + 1 >= |id|;
    var n1'' := if wraps then n1' + |id| else n1';
    var n2' := if wraps then 0 else n2 + 1;
    MaskedIsNat(n1'', mask);
    var tmp := BitAnd(n1'', mask);
    var tmp' := if i + 1 > 11 then tmp % cnt else tmp;
    if tmp' <= cnt then (tmp', n1'', n2') else Draw(k, cnt, mask, id, n1'', n2', i + 1)
  }

  lemma {:induction false} MaskedIsNat(a: nat, b: nat)
    ensures BitAnd(a, b) >= 0
    decreases a
  {
    if a != 0 && b != 0 {
      MaskedIsNat(a / 2, b / 2);
      LowBitProduct(a % 2, b % 2);
    }
  }

  /** enctypexFunc5: an index in 0..cnt, and the two running values. */
  function Func5(k: CipherState, cnt: nat, id: seq<byte>, n1: nat, n2: nat): (r: (nat, nat, nat))
    requires cnt < 256 && id != [] && n2 < |id|
    ensures r.0 <= cnt && r.2 < |id|
  {
    if cnt == 0 then (0, n1, n2) else Draw(k, cnt, MaskFrom(1, cnt), id, n1, n2, 0)
  }

  function Swap(k: CipherState, i: nat, j: nat): CipherState
    requires i < 261 && j < 261
  {
    k[i := k[j]][j := k[i]]
  }

  function Fresh(): (k: CipherState)
    ensures forall i :: 0 <= i < 256 ==> k[i] == i
    ensures forall i :: 256 <= i < 261 ==> k[i] == 0
  {
    Identity() + [0, 0, 0, 0, 0]
  }

  /** The state and running values once the entries from `i` up have been swapped. */
  function Shuffled(id: seq<byte>, i: nat): (r: (CipherState, nat, nat))
    requires id != [] && i <= 256
    ensures r.2 < |id|
    decreases 256 - i
  {
    if i == 256 then (Fresh(), 0, 0)
    else
      var (k, n1, n2) := Shuffled(id, i + 1);
      var (t1, n1', n2') := Func5(k, i, id, n1, n2);
      (Swap(k, i, t1), n1', n2')
  }

  function WithRegisters(k: CipherState, n1: nat): CipherState {
    k[..256] + [k[1], k[3], k[5], k[7], k[n1 % 256]]
  }

  /** enctypexFunc4. */
  function KeyFrom(id: seq<byte>): CipherState
    requires id != []
  {
    WithRegisters(Shuffled(id, 0).0, Shuffled(id, 0).1)
  }

  /** The index of enctypexFuncx that step `i` changes. */
  function MixIndex(k: byte, i: nat): (idx: nat)
    ensures idx < 8
  {
    (k * i) % 8
  }

  /** The validate string after mixing in `n` bytes of `data`, as enctypexFuncx does. */
  function Mixed(key: seq<byte>, validate: seq<byte>, data: seq<byte>, n: nat): (v: seq<byte>)
    requires key != [] && |validate| >= 8 && n <= |data|
    ensures |v| == |validate|
  {
    if n == 0 then validate
    else
      var v := Mixed(key, validate, data, n - 1);
      var i := n - 1;
      var idx := MixIndex(key[i % |key|], i);
      v[idx := Xor(v[idx], Xor(v[i % 8], data[i]))]
  }

  // ---------- one byte ----------

  /** The table moves and register updates of enctypexFunc7e before its output is computed. */
  function Stir(k: CipherState): CipherState {
    var k0 := k[256 := Plus(k[256], 1)][257 := Plus(k[257], k[k[256]])];
    var c := k0[k0[260]];
    var k1 := k0[k0[260] := k0[k0[257]]];
    var k2 := k1[k1[257] := k1[k1[259]]];
    var k3 := k2[k2[259] := k2[k2[256]]];
    var k4 := k3[k3[256] := c];
    k4[258 := Plus(k4[c], k4[258])]
  }

  /** The keystream byte that a stirred state yields. */
  function Pad(k: CipherState): byte {
    var c := Plus(k[k[257]], k[k[259]]);
    var c' := Plus(k[k[260]], c);
    var b := k[c'];
    var a := Plus(k[k[258]], k[k[256]]);
    Xor(k[b], k[a])
  }

  /** After a byte the last two registers hold its ciphertext and its plaintext. */
  function Remember(k: CipherState, plain: byte, cipher: byte): CipherState {
    k[260 := cipher][259 := plain]
  }

  function EncryptByte(k: CipherState, d: byte): (CipherState, byte) {
    var s := Stir(k);
    var e := Xor(Pad(s), d);
    (Remember(s, d, e), e)
  }

  function EncryptRun(k: CipherState, data: seq<byte>): (r: (CipherState, seq<byte>))
    ensures |r.1| == |data|
  {
    if data == [] then (k, [])
    else
      var (k', out) := EncryptRun(k, data[..|data| - 1]);
      var (k'', e) := EncryptByte(k', data[|data| - 1]);
      (k'', out + [e])
  }

  // ---------- whole messages ----------

  /** enctypexInit: where the body starts, and the state keyed by the header before it. */
  function Init(key: seq<byte>, validate: seq<byte>, msg: seq<byte>): (r: Option<(CipherState, nat)>)
    requires key != [] && |validate| >= 8
    ensures r.Some? ==> r.value.1 <= |msg|
  {
    if |msg| < 1 then None
    else
      var headerLen := Xor(msg[0], 0xec) + 2;
      if |msg| < headerLen then None
      else
        var dataStart := Xor(msg[headerLen - 1], 0xea);
        if |msg| < headerLen + dataStart then None
        else Some((KeyFrom(Mixed(key, validate, msg[headerLen..], dataStart)[..8]), headerLen + dataStart))
  }

  /** The header: random bytes mixed with the keys, then the two lengths and two zeros. */
  function Header(key: seq<byte>, validate: seq<byte>, rnd: seq<byte>): (h: seq<byte>)
    requires key != [] && validate != [] && |rnd| == 20
    ensures |h| == 20
  {
    var noise := seq(20, i requires 0 <= i < 20 => Xor(Xor(rnd[i], key[i % |key|]), validate[i % |validate|]));
    noise[0 := Xor(5, 0xec)][1 := 0][2 := 0][6 := Xor(13, 0xea)]
  }

  /** EncTypeXEncrypt; the empty sequence is the nil it returns for empty arguments. */
  function Encrypted(key: seq<byte>, validate: seq<byte>, rnd: seq<byte>, data: seq<byte>): seq<byte>
    requires |rnd| == 20 && (validate == [] || |validate| >= 8)
  {
    if key == [] || validate == [] || data == [] then []
    else
      var header := Header(key, validate, rnd);
      match Init(key, validate, header + data)
      case None => header
      case Some((k, start)) => header + EncryptRun(k, (header + data)[start..]).1
  }

  // ---------- the code ----------

  method FindMask(cnt: nat) returns (mask: nat)
    ensures mask == MaskFrom(1, cnt)
  {
    mask := 1;
    while mask < cnt
      invariant MaskFrom(mask, cnt) == MaskFrom(1, cnt)
    {
      mask := 2 * mask + 1;
    }
  }

  method EncTypeXFunc5(encxkey: array<byte>, cnt: nat, id: array<byte>, idLen: nat, n1In: nat, n2In: nat)
    returns (tmp: nat, n1: nat, n2: nat, ghost draws: nat)
    requires encxkey.Length == 261 && cnt < 256 && 0 < idLen <= id.Length && n2In < idLen
    ensures (tmp, n1, n2) == Func5(encxkey[..], cnt, id[..idLen], n1In, n2In)
    ensures tmp <= cnt && n2 < idLen && draws <= 12
  {
    hide BitAnd;
    hide MaskFrom;
    n1, n2 := n1In, n2In;
    if cnt == 0 {
      return 0, n1, n2, 0;
    }
    var mask := FindMask(cnt);
    ghost var k, ids := encxkey[..], id[..idLen];
    var i := 0;
    tmp := cnt + 1;
    while tmp > cnt
      invariant i <= 12 && n2 < idLen && (i == 12 ==> tmp <= cnt)
      invariant if tmp > cnt then Draw(k, cnt, mask, ids, n1, n2, i) == Draw(k, cnt, mask, ids, n1In, n2In, 0)
                else (tmp, n1, n2) == Draw(k, cnt, mask, ids, n1In, n2In, 0)
      decreases 12 - i, if tmp > cnt then 1 else 0
    {
      n1 := encxkey[n1 % 256] as int + id[n2];
      n2 := n2 + 1;
      if n2 >= idLen {
        n2 := 0;
        n1 := n1 + idLen;
      }
      MaskedIsNat(n1, mask);
      tmp := BitAnd(n1, mask);
      i := i + 1;
      if i > 11 {
        tmp := tmp % cnt;
      }
    }
    draws := i;
  }

  method EncTypeXFunc4(encxkey: array<byte>, id: array<byte>, idLen: nat)
    requires encxkey.Length == 261 && encxkey != id && 0 < idLen <= id.Length
    requires forall i :: 256 <= i < 261 ==> encxkey[i] == 0
    modifies encxkey
    ensures encxkey[..] == KeyFrom(id[..idLen])
  {
    hide Func5;
    ghost var ids := id[..idLen];
    for i := 0 to 256
      invariant forall j :: 0 <= j < i ==> encxkey[j] == j
      invariant forall j :: 256 <= j < 261 ==> encxkey[j] == 0
    {
      encxkey[i] := i;
    }
    assert encxkey[..] == Fresh();
    var n1, n2 := 0, 0;
    for i := 256 downto 0
      invariant (encxkey[..], n1, n2) == Shuffled(ids, i)
    {
      ghost var k := encxkey[..];
      var t1;
      ghost var draws;
      t1, n1, n2, draws := EncTypeXFunc5(encxkey, i, id, idLen, n1, n2);
      var t2 := encxkey[i];
      encxkey[i] := encxkey[t1];
      encxkey[t1] := t2;
      assert encxkey[..] == Swap(k, i, t1);
    }
    encxkey[256] := encxkey[1];
    encxkey[257] := encxkey[3];
    encxkey[258] := encxkey[5];
    encxkey[259] := encxkey[7];
    encxkey[260] := encxkey[n1 % 256];
    assert encxkey[..] == KeyFrom(ids);
  }

  method EncTypeXFuncx(encxkey: array<byte>, key: seq<byte>, validate: seq<byte>, data: seq<byte>, datalen: nat)
    requires encxkey.Length == 261 && key != [] && |validate| >= 8 && datalen <= |data|
    requires forall i :: 256 <= i < 261 ==> encxkey[i] == 0
    modifies encxkey
    ensures encxkey[..] == KeyFrom(Mixed(key, validate, data, datalen)[..8])
  {
    hide KeyFrom;
    hide Xor;
    hide MixIndex;
    var valCopy := new byte[|validate|](i requires 0 <= i < |validate| => validate[i]);
    assert valCopy[..] == validate;
    for i := 0 to datalen
      invariant valCopy[..] == Mixed(key, validate, data, i)
      invariant forall j :: 256 <= j < 261 ==> encxkey[j] == 0
    {
      var idx := MixIndex(key[i % |key|], i);
      valCopy[idx] := Xor(valCopy[idx], Xor(valCopy[i % 8], data[i]));
    }
    EncTypeXFunc4(encxkey, valCopy, 8);
    assert valCopy[..8] == valCopy[..][..8];
  }

  /** enctypexInit, in place on the state; the result is where the body starts. */
  method EncTypeXInit(encxkey: array<byte>, key: seq<byte>, validate: seq<byte>, data: seq<byte>)
    returns (start: Option<nat>)
    requires encxkey.Length == 261 && key != [] && |validate| >= 8
    requires forall i :: 256 <= i < 261 ==> encxkey[i] == 0
    modifies encxkey
    ensures match Init(key, validate, data)
            case None => start == None
            case Some((k, from)) => start == Some(from) && encxkey[..] == k
  {
    hide KeyFrom;
    hide Xor;
    if |data| < 1 {
      return None;
    }
    var headerLen := Xor(data[0], 0xec) + 2;
    if |data| < headerLen {
      return None;
    }
    var dataStart := Xor(data[headerLen - 1], 0xea);
    if |data| < headerLen + dataStart {
      return None;
    }
    EncTypeXFuncx(encxkey, key, validate, data[headerLen..], dataStart);
    return Some(headerLen + dataStart);
  }

  method EncTypeXFunc7e(encxkey: array<byte>, d: byte) returns (result: byte)
    requires encxkey.Length == 261
    modifies encxkey
    ensures (encxkey[..], result) == EncryptByte(old(encxkey[..]), d)
  {
    hide Xor;
    Rotate(encxkey);
    ghost var s := encxkey[..];
    var a := encxkey[258];
    var c := encxkey[259];
    c := encxkey[c];
    var b := encxkey[257];
    b := encxkey[b];
    a := encxkey[a];
    c := Plus(b, c);
    b := encxkey[260];
    b := encxkey[b];
    c := Plus(b, c);
    b := encxkey[c];
    c := encxkey[256];
    c := encxkey[c];
    a := Plus(a, c);
    c := encxkey[b];
    b := encxkey[a];
    assert Xor(c, b) == Pad(s);
    result := Xor(Xor(c, b), d);
    encxkey[260] := result;
    encxkey[259] := d;
  }

  /** The first half of enctypexFunc7e. */
  method Rotate(encxkey: array<byte>)
    requires encxkey.Length == 261
    modifies encxkey
    ensures encxkey[..] == Stir(old(encxkey[..]))
  {
    var a := encxkey[256];
    var b := encxkey[257];
    var c := encxkey[a];
    encxkey[256] := Plus(a, 1);
    encxkey[257] := Plus(b, c);

    a := encxkey[260];
    b := encxkey[257];
    b := encxkey[b];
    c := encxkey[a];
    encxkey[a] := b;

    a := encxkey[259];
    b := encxkey[257];
    a := encxkey[a];
    encxkey[b] := a;

    a := encxkey[256];
    b := encxkey[259];
    a := encxkey[a];
    encxkey[b] := a;

    a := encxkey[256];
    encxkey[a] := c;

    b := encxkey[258];
    a := encxkey[c];
    b := Plus(a, b);
    encxkey[258] := b;
  }

  method EncTypeXFunc6e(encxkey: array<byte>, data: array<byte>)
    requires encxkey.Length == 261 && encxkey != data
    modifies encxkey, data
    ensures (encxkey[..], data[..]) == EncryptRun(old(encxkey[..]), old(data[..]))
  {
    hide EncryptByte;
    ghost var k, plain := encxkey[..], data[..];
    for i := 0 to data.Length
      invariant forall j :: i <= j < data.Length ==> data[j] == plain[j]
      invariant (encxkey[..], data[..i]) == EncryptRun(k, plain[..i])
    {
      assert plain[..i + 1][..i] == plain[..i];
      data[i] := EncTypeXFunc7e(encxkey, data[i]);
      assert data[..i + 1] == data[..i] + [data[i]];
    }
    assert plain[..data.Length] == plain && data[..data.Length] == data[..];
  }

  method EncTypeXEncrypt(key: seq<byte>, validate: seq<byte>, rnd: seq<byte>, data: seq<byte>)
    returns (out: seq<byte>)
    requires |rnd| == 20 && (validate == [] || |validate| >= 8)
    ensures out == Encrypted(key, validate, rnd, data)
  {
    hide Init;
    if key == [] || validate == [] || |data| == 0 {
      return [];
    }
    var header := Header(key, validate, rnd);
    var buf := header + data;
    var encxkey := new byte[261](i => 0);
    var start := EncTypeXInit(encxkey, key, validate, buf);
    if start == None {
      return header;
    }
    var rest := buf[start.value..];
    var body := new byte[|rest|](i requires 0 <= i < |rest| => rest[i]);
    assert body[..] == rest;
    EncTypeXFunc6e(encxkey, body);
    return header + body[..];
  }

  // ---------- what keys a message ----------

  /** The header of every message is twenty bytes: seven, then thirteen that key the state. */
  lemma InitOfHeader(key: seq<byte>, validate: seq<byte>, rnd: seq<byte>, body: seq<byte>)
    requires key != [] && |validate| >= 8 && |rnd| == 20
    ensures var header := Header(key, validate, rnd);
            Init(key, validate, header + body) == Some((KeyFrom(Mixed(key, validate, header[7..], 13)[..8]), 20))
  {
    hide KeyFrom;
    hide Xor;
    var header := Header(key, validate, rnd);
    var msg := header + body;
    XorCancel(5, 0xec);
    XorCancel(13, 0xea);
    assert msg[0] == header[0] && msg[6] == header[6];
    assert msg[7..] == header[7..] + body;
    MixedPrefix(key, validate, header[7..], body, 13);
  }

  lemma {:induction false} MixedPrefix(key: seq<byte>, validate: seq<byte>, a: seq<byte>, b: seq<byte>, n: nat)
    requires key != [] && |validate| >= 8 && n <= |a|
    ensures Mixed(key, validate, a + b, n) == Mixed(key, validate, a, n)
    decreases n
  {
    hide Xor;
    if n > 0 {
      MixedPrefix(key, validate, a, b, n - 1);
    }
  }

  // ---------- the registers ----------

  /**
   The registers over a run: the first counts the bytes, the second adds up the entries the first
   points at, and the last two hold the last cipher byte and the last plain byte.
   */
  lemma RegistersOfRun(k: CipherState, data: seq<byte>)
    requires data != []
    ensures var n := |data| - 1;
            var before, after, out := EncryptRun(k, data[..n]).0, EncryptRun(k, data).0, EncryptRun(k, data).1;
            && after[256] == (k[256] as int + |data|) % 256
            && after[257] == Plus(before[257], before[before[256]])
            && after[259] == data[n] && after[260] == out[n]
  {
    hide Pad;
    hide Stir;
    var n := |data| - 1;
    FirstRegister(k, data);
    StirRegisters(EncryptRun(k, data[..n]).0);
  }

  lemma {:induction false} FirstRegister(k: CipherState, data: seq<byte>)
    ensures EncryptRun(k, data).0[256] == (k[256] as int + |data|) % 256
  {
    hide Pad;
    hide Stir;
    if data != [] {
      var n := |data| - 1;
      FirstRegister(k, data[..n]);
      StirRegisters(EncryptRun(k, data[..n]).0);
    }
  }

  lemma StirRegisters(k: CipherState)
    ensures Stir(k)[256] == Plus(k[256], 1) && Stir(k)[257] == Plus(k[257], k[k[256]])
  {
  }

  // ---------- the table stays a permutation ----------

  ghost predicate TableOk(k: CipherState) {
    Distinct(k[..256])
  }

  /** The table is distinct but for entry `h`, and `c` is missing from the rest. */
  ghost predicate Hole(k: CipherState, h: byte, c: byte) {
    && (forall i, j :: 0 <= i < j < 256 && i != h && j != h ==> k[i] != k[j])
    && (forall i :: 0 <= i < 256 && i != h ==> k[i] != c)
  }

  lemma DigHole(k: CipherState, h: byte)
    requires TableOk(k)
    ensures Hole(k, h, k[h])
  {
    forall i | 0 <= i < 256 && i != h
      ensures k[i] != k[h]
    {
      assert k[..256][i] == k[i] && k[..256][h] == k[h];
    }
    forall i, j | 0 <= i < j < 256 && i != h && j != h
      ensures k[i] != k[j]
    {
      assert k[..256][i] == k[i] && k[..256][j] == k[j];
    }
  }

  lemma MoveHole(k: CipherState, h: byte, g: byte, c: byte)
    requires Hole(k, h, c)
    ensures Hole(k[h := k[g]], g, c)
  {
  }

  lemma FillHole(k: CipherState, h: byte, c: byte)
    requires Hole(k, h, c)
    ensures TableOk(k[h := c])
  {
  }

  lemma RegistersDoNotMatter(k: CipherState, k': CipherState)
    requires TableOk(k) && k[..256] == k'[..256]
    ensures TableOk(k')
  {
  }

  /** Stirring rotates four table entries, whichever of the four coincide. */
  lemma StirKeepsTable(k: CipherState)
    requires TableOk(k)
    ensures TableOk(Stir(k))
  {
    hide TableOk;
    hide Hole;
    var k0 := k[256 := Plus(k[256], 1)][257 := Plus(k[257], k[k[256]])];
    RegistersDoNotMatter(k, k0);
    var x0, x1, x2, x3 := k0[260], k0[257], k0[259], k0[256];
    var c := k0[x0];
    DigHole(k0, x0);
    var k1 := k0[x0 := k0[x1]];
    MoveHole(k0, x0, x1, c);
    var k2 := k1[x1 := k1[x2]];
    MoveHole(k1, x1, x2, c);
    var k3 := k2[x2 := k2[x3]];
    MoveHole(k2, x2, x3, c);
    var k4 := k3[x3 := c];
    FillHole(k3, x3, c);
    RegistersDoNotMatter(k4, k4[258 := Plus(k4[c], k4[258])]);
  }

  lemma {:induction false} RunKeepsTable(k: CipherState, data: seq<byte>)
    requires TableOk(k)
    ensures TableOk(EncryptRun(k, data).0)
  {
    hide Stir;
    hide Pad;
    if data != [] {
      RunKeepsTable(k, data[..|data| - 1]);
      var k' := EncryptRun(k, data[..|data| - 1]).0;
      StirKeepsTable(k');
      RegistersDoNotMatter(Stir(k'), EncryptRun(k, data).0);
    }
  }

  lemma SwapKeepsTable(k: CipherState, i: nat, j: nat)
    requires i < 256 && j < 256 && TableOk(k)
    ensures TableOk(Swap(k, i, j))
  {
    SwapKeepsDistinct(k[..256], i, j);
    assert Swap(k, i, j)[..256] == k[..256][i := k[j]][j := k[i]];
  }

  lemma {:induction false} ShuffleKeepsTable(id: seq<byte>, i: nat)
    requires id != [] && i <= 256
    ensures TableOk(Shuffled(id, i).0)
    decreases 256 - i
  {
    hide Func5;
    if i < 256 {
      ShuffleKeepsTable(id, i + 1);
      var (k, n1, n2) := Shuffled(id, i + 1);
      SwapKeepsTable(k, i, Func5(k, i, id, n1, n2).0);
    }
  }

  /** After keying and after any number of bytes the table is a permutation of 0..255. */
  lemma TableIsPermutation(id: seq<byte>, data: seq<byte>)
    requires id != []
    ensures IsPermutation(EncryptRun(KeyFrom(id), data).0[..256])
  {
    hide EncryptRun;
    ShuffleKeepsTable(id, 0);
    RegistersDoNotMatter(Shuffled(id, 0).0, KeyFrom(id));
    RunKeepsTable(KeyFrom(id), data);
    DistinctIsPermutation(EncryptRun(KeyFrom(id), data).0[..256]);
  }
}
