/** GameSpy's modified RC4 (internal/gamespy/crypto.go). */
module Rc4 {
  import opened GoLib
  import opened ByteTable

  datatype State = State(s: seq<byte>, i: byte, j: byte)

  /** The table and `j` after the first `n` steps of the key schedule. */
  function Scheduled(key: seq<byte>, n: nat): (r: (seq<byte>, byte))
    requires key != [] && n <= 256
    ensures |r.0| == 256
  {
    if n == 0 then (Identity(), 0)
    else
      var (s, j) := Scheduled(key, n - 1);
      var i := n - 1;
      var j' := Plus(j + s[i], key[i % |key|]);
      (s[i := s[j']][j' := s[i]], j')
  }

  lemma ScheduleUnfolds(key: seq<byte>)
    requires key != []
    ensures Scheduled(key, 0) == (Identity(), 0)
  {
  }

  lemma ScheduleStep(key: seq<byte>, n: nat)
    requires key != [] && 0 < n <= 256
    ensures var (s, j) := Scheduled(key, n - 1);
            var j' := Plus(j + s[n - 1], key[(n - 1) % |key|]);
            Scheduled(key, n) == (s[n - 1 := s[j']][j' := s[n - 1]], j')
  {
  }

  /** One plaintext byte: it moves `i`, then the table is swapped and read. */
  function Advance(st: State, b: byte): (r: (State, byte))
    requires |st.s| == 256
    ensures |r.0.s| == 256
  {
    var i := Plus(st.i + 1, b);
    var j := Plus(st.j, st.s[i]);
    var s := st.s[i := st.s[j]][j := st.s[i]];
    (State(s, i, j), Xor(b, s[Plus(s[i], s[j])]))
  }

  /** The state and the output after the bytes of `data`. */
  function Run(st: State, data: seq<byte>): (r: (State, seq<byte>))
    requires |st.s| == 256
    ensures |r.0.s| == 256 && |r.1| == |data|
  {
    if data == [] then (st, [])
    else
      var (st', out) := Run(st, data[..|data| - 1]);
      var (st'', c) := Advance(st', data[|data| - 1]);
      (st'', out + [c])
  }

  function Start(key: seq<byte>): State
    requires key != []
  {
    State(Scheduled(key, 256).0, 0, 0)
  }

  /** The ciphertext; None is the nil slice an empty key gives. */
  function Encrypted(key: seq<byte>, data: seq<byte>): (r: Option<seq<byte>>)
    ensures r.Some? ==> |r.value| == |data|
  {
    if key == [] then None else Some(Run(Start(key), data).1)
  }

  method RC4Encrypt(key: seq<byte>, data: seq<byte>) returns (r: Option<seq<byte>>)
    ensures r == Encrypted(key, data)
  {
    if |key| == 0 {
      return None;
    }
    var out := new byte[|data|](i requires 0 <= i < |data| => data[i]);
    assert out[..] == data;
    var S := ScheduleKey(key);
    EncryptInPlace(S, out);
    return Some(out[..]);
  }

  /** The key schedule. */
  method ScheduleKey(key: seq<byte>) returns (S: array<byte>)
    requires key != []
    ensures fresh(S) && S[..] == Scheduled(key, 256).0
  {
    hide Scheduled;
    S := new byte[256](i => if 0 <= i < 256 then i else 0);
    ScheduleUnfolds(key);
    assert S[..] == Identity();
    var j: byte := 0;
    for i := 0 to 256
      invariant (S[..], j) == Scheduled(key, i)
    {
      ScheduleStep(key, i + 1);
      j := Plus(j + S[i], key[i % |key|]);
      S[i], S[j] := S[j], S[i];
    }
  }

  /** The output loop, which overwrites the plaintext. */
  method EncryptInPlace(S: array<byte>, out: array<byte>)
    requires S.Length == 256 && S != out
    modifies S, out
    ensures out[..] == Run(State(old(S[..]), 0, 0), old(out[..])).1
  {
    hide Advance;
    hide Run;
    ghost var start, data := State(S[..], 0, 0), out[..];
    var i: byte, j: byte := 0, 0;
    RunNothing(start);
    for x := 0 to out.Length
      invariant forall y :: x <= y < out.Length ==> out[y] == data[y]
      invariant (State(S[..], i, j), out[..x]) == Run(start, data[..x])
    {
      RunStep(start, data, x);
      ghost var written := out[..x];
      var c;
      i, j, c := EncryptByte(S, i, j, out[x]);
      out[x] := c;
      assert out[..x + 1] == written + [c];
    }
    assert data[..out.Length] == data && out[..out.Length] == out[..];
  }

  lemma RunNothing(st: State)
    requires |st.s| == 256
    ensures Run(st, []) == (st, [])
  {
  }

  lemma RunStep(st: State, data: seq<byte>, x: nat)
    requires |st.s| == 256 && x < |data|
    ensures var before := Run(st, data[..x]);
            var next := Advance(before.0, data[x]);
            Run(st, data[..x + 1]) == (next.0, before.1 + [next.1])
  {
    hide Advance;
    assert data[..x + 1][..x] == data[..x];
  }

  /** The body of the output loop. */
  method EncryptByte(S: array<byte>, i: byte, j: byte, val: byte) returns (i': byte, j': byte, c: byte)
    requires S.Length == 256
    modifies S
    ensures (State(S[..], i', j'), c) == Advance(State(old(S[..]), i, j), val)
  {
    hide Xor;
    i' := Plus(i + 1, val);
    j' := Plus(j, S[i']);
    S[i'], S[j'] := S[j'], S[i'];
    c := Xor(val, S[Plus(S[i'], S[j'])]);
  }

  // ---------- properties ----------

  lemma {:induction false} ScheduleIsPermutation(key: seq<byte>, n: nat)
    requires key != [] && n <= 256
    ensures IsPermutation(Scheduled(key, n).0)
  {
    if n > 0 {
      ScheduleIsPermutation(key, n - 1);
      var (s, j) := Scheduled(key, n - 1);
      SwapKeepsDistinct(s, n - 1, Scheduled(key, n).1);
    }
    DistinctIsPermutation(Scheduled(key, n).0);
  }

  lemma {:induction false} RunKeepsPermutation(st: State, data: seq<byte>)
    requires IsPermutation(st.s)
    ensures IsPermutation(Run(st, data).0.s)
  {
    if data != [] {
      RunKeepsPermutation(st, data[..|data| - 1]);
      var (st', _) := Run(st, data[..|data| - 1]);
      var st'' := Run(st, data).0;
      SwapKeepsDistinct(st'.s, st''.i, st''.j);
      DistinctIsPermutation(st''.s);
    }
  }

  /** The table is a permutation of the bytes after any key and any amount of data. */
  lemma TableIsPermutation(key: seq<byte>, data: seq<byte>)
    requires key != []
    ensures IsPermutation(Run(Start(key), data).0.s)
  {
    ScheduleIsPermutation(key, 256);
    RunKeepsPermutation(Start(key), data);
  }

  /** Two plaintext bytes that one state encrypts to the same byte: there is no general inverse. */
  lemma NotInjective()
    ensures var st := State(Identity()[0 := 6][6 := 0], 0, 0);
            IsPermutation(st.s) && Advance(st, 0).1 == Advance(st, 2).1 == 2
  {
    hide Xor;
    var s := Identity()[0 := 6][6 := 0];
    SwapKeepsDistinct(Identity(), 0, 6);
    assert s == Identity()[0 := Identity()[6]][6 := Identity()[0]];
    DistinctIsPermutation(s);
    assert s[1 := s[1]][1 := s[1]] == s && s[3 := s[3]][3 := s[3]] == s;
    XorWithZero();
  }

  lemma XorWithZero()
    ensures Xor(0, 2) == 2 && Xor(2, 0) == 2
  {
    assert XorBits(0, 2, 8) == 2 * XorBits(0, 1, 7) && XorBits(0, 1, 7) == 1 + 2 * XorBits(0, 0, 6);
    assert XorBits(2, 0, 8) == 2 * XorBits(1, 0, 7) && XorBits(1, 0, 7) == 1 + 2 * XorBits(0, 0, 6);
    ZeroBits(6);
  }

  lemma {:induction false} ZeroBits(k: nat)
    ensures XorBits(0, 0, k) == 0
  {
    if k > 0 {
      ZeroBits(k - 1);
    }
  }

  lemma {:induction false} RunAppend(st: State, a: seq<byte>, b: seq<byte>)
    requires |st.s| == 256
    ensures var r := Run(st, a);
            Run(st, a + b) == (Run(r.0, b).0, r.1 + Run(r.0, b).1)
    decreases |b|
  {
    hide Advance;
    if b == [] {
      assert a + b == a && Run(st, a).1 + [] == Run(st, a).1;
    } else {
      var n := |b| - 1;
      assert (a + b)[..|a + b| - 1] == a + b[..n];
      RunAppend(st, a, b[..n]);
      var (st1, out1) := Run(st, a);
      var (st2, out2) := Run(st1, b[..n]);
      var (st3, c) := Advance(st2, b[n]);
      assert Run(st, a + b) == (st3, (out1 + out2) + [c]);
      assert Run(st1, b) == (st3, out2 + [c]);
      assert (out1 + out2) + [c] == out1 + (out2 + [c]);
    }
  }

  /** Encrypting a prefix gives the prefix of the encryption. */
  lemma EncryptsPrefixes(key: seq<byte>, data: seq<byte>, n: nat)
    requires key != [] && n <= |data|
    ensures Encrypted(key, data[..n]).value == Encrypted(key, data).value[..n]
  {
    assert data == data[..n] + data[n..];
    RunAppend(Start(key), data[..n], data[n..]);
  }
}
