/**
 GameSpy's modified RC4 told by its registers and tables: what the key makes of the table, where
 the two registers stand after any number of bytes, which two entries change places and which entry
 goes into the output. No other output fits.
 */
module Rc4Meaning {
  import opened GoLib
  import opened ByteTable
  import opened Rc4

  function Sum(data: seq<byte>): nat {
    if data == [] then 0 else Sum(data[..|data| - 1]) + data[|data| - 1]
  }

  /** `t` is `s` with two entries exchanged. */
  ghost predicate Swapped(s: seq<byte>, t: seq<byte>, i: byte, j: byte) {
    && |s| == |t| == 256
    && t[i] == s[j] && t[j] == s[i]
    && forall k :: 0 <= k < 256 && k != i && k != j ==> t[k] == s[k]
  }

  lemma SwappedIs(s: seq<byte>, t: seq<byte>, i: byte, j: byte)
    requires |s| == 256
    ensures Swapped(s, t, i, j) <==> t == s[i := s[j]][j := s[i]]
  {
  }

  // ---------- the key ----------

  /** Step `n` of the schedule: 0 to 255 in turn meet the entry that the key's next byte moves to. */
  ghost predicate KeyStep(key: seq<byte>, n: byte, s: seq<byte>, j: byte, t: seq<byte>, j': byte)
    requires key != []
  {
    && |s| == 256 && j' == (j + s[n] + key[n % |key|]) % 256
    && Swapped(s, t, n, j')
  }

  /** The tables the key goes through, from 0 to 255 in order on. */
  ghost predicate KeyTables(key: seq<byte>, tables: seq<seq<byte>>, js: seq<byte>) {
    && key != [] && |tables| == |js| == 257
    && |tables[0]| == 256 && (forall k :: 0 <= k < 256 ==> tables[0][k] == k)
    && js[0] == 0
    && forall n :: 0 <= n < 256 ==> KeyStep(key, n, tables[n], js[n], tables[n + 1], js[n + 1])
  }

  lemma KeyStepIs(key: seq<byte>, n: byte, t: seq<byte>, j': byte)
    requires key != []
    ensures KeyStep(key, n, Scheduled(key, n).0, Scheduled(key, n).1, t, j') <==> (t, j') == Scheduled(key, n + 1)
  {
    var (s, j) := Scheduled(key, n);
    ScheduleStep(key, n + 1);
    SwappedIs(s, t, n, j');
    SwappedIs(s, Scheduled(key, n + 1).0, n, Scheduled(key, n + 1).1);
  }

  lemma {:induction false} KeyTablesAre(key: seq<byte>, tables: seq<seq<byte>>, js: seq<byte>, n: nat)
    requires KeyTables(key, tables, js) && n <= 256
    ensures (tables[n], js[n]) == Scheduled(key, n)
  {
    hide KeyStep;
    ScheduleUnfolds(key);
    if n == 0 {
      assert tables[0] == Identity();
    } else {
      KeyTablesAre(key, tables, js, n - 1);
      KeyStepIs(key, n - 1, tables[n], js[n]);
      assert KeyStep(key, n - 1, tables[n - 1], js[n - 1], tables[n - 1 + 1], js[n - 1 + 1]);
    }
  }

  function TablesOf(key: seq<byte>): seq<seq<byte>>
    requires key != []
  {
    seq(257, n requires 0 <= n < 257 => Scheduled(key, n).0)
  }

  function IndexesOf(key: seq<byte>): seq<byte>
    requires key != []
  {
    seq(257, n requires 0 <= n < 257 => Scheduled(key, n).1)
  }

  lemma HasKeyTables(key: seq<byte>)
    requires key != []
    ensures KeyTables(key, TablesOf(key), IndexesOf(key))
  {
    hide KeyStep;
    ScheduleUnfolds(key);
    forall n | 0 <= n < 256
      ensures KeyStep(key, n, TablesOf(key)[n], IndexesOf(key)[n], TablesOf(key)[n + 1], IndexesOf(key)[n + 1])
    {
      KeyStepIs(key, n, TablesOf(key)[n + 1], IndexesOf(key)[n + 1]);
    }
  }

  // ---------- the data ----------

  /**
   Byte `n`: `i` has moved by one and by the plaintext for every byte so far, `j` moves by the entry
   there, the two entries change places, and the entry at their sum goes into the byte.
   */
  ghost predicate ByteStep(data: seq<byte>, n: nat, s: seq<byte>, j: byte, t: seq<byte>, j': byte, c: byte)
    requires n < |data|
  {
    var i := (n + 1 + Sum(data[..n + 1])) % 256;
    && |s| == 256 && j' == (j + s[i]) % 256
    && Swapped(s, t, i, j')
    && Xor(c, data[n]) == t[(t[i] as int + t[j'] as int) % 256]
  }

  /** The tables and second registers that the bytes go through, from `table` and 0 on, and what they become. */
  ghost predicate DataTables(table: seq<byte>, data: seq<byte>, tables: seq<seq<byte>>, js: seq<byte>, out: seq<byte>) {
    && |tables| == |js| == |data| + 1 && |out| == |data|
    && tables[0] == table && js[0] == 0
    && forall n :: 0 <= n < |data| ==> ByteStep(data, n, tables[n], js[n], tables[n + 1], js[n + 1], out[n])
  }

  lemma NextRegister(st: State, b: byte)
    requires |st.s| == 256
    ensures Advance(st, b).0.i == Plus(st.i + 1, b)
  {
  }

  /** The first register: as many steps as bytes, and all their values. */
  lemma {:induction false} FirstRegister(table: seq<byte>, data: seq<byte>)
    requires |table| == 256
    ensures Run(State(table, 0, 0), data).0.i == (|data| + Sum(data)) % 256
  {
    hide Advance;
    hide Plus;
    if data != [] {
      var n := |data| - 1;
      FirstRegister(table, data[..n]);
      NextRegister(Run(State(table, 0, 0), data[..n]).0, data[n]);
      NextOfSum(n + Sum(data[..n]), data[n]);
    }
  }

  lemma NextOfSum(x: nat, b: byte)
    ensures Plus(x % 256 + 1, b) == (x + 1 + b) % 256
  {
  }

  lemma XorUndone(c: byte, b: byte, p: byte)
    ensures Xor(c, b) == p <==> c == Xor(b, p)
  {
    XorCancel(c, b);
    XorCancel(p, b);
    XorCommutes(p, b);
  }

  lemma ByteStepIs(table: seq<byte>, data: seq<byte>, n: nat, t: seq<byte>, j': byte, c: byte)
    requires |table| == 256 && n < |data|
    ensures var before, after := Run(State(table, 0, 0), data[..n]), Run(State(table, 0, 0), data[..n + 1]);
            && after.1[..n] == before.1
            && (ByteStep(data, n, before.0.s, before.0.j, t, j', c) <==>
                t == after.0.s && j' == after.0.j && c == after.1[n])
  {
    hide Run;
    hide Xor;
    var start := State(table, 0, 0);
    RunStep(start, data, n);
    FirstRegister(table, data[..n + 1]);
    var before, after := Run(start, data[..n]).0, Run(start, data[..n + 1]).0;
    var i := (n + 1 + Sum(data[..n + 1])) % 256;
    assert after.i == i;
    SwappedIs(before.s, t, i, after.j);
    XorUndone(c, data[n], after.s[Plus(after.s[i], after.s[after.j])]);
  }

  lemma {:induction false} DataTablesAre(table: seq<byte>, data: seq<byte>, tables: seq<seq<byte>>, js: seq<byte>, out: seq<byte>, n: nat)
    requires |table| == 256 && DataTables(table, data, tables, js, out) && n <= |data|
    ensures var r := Run(State(table, 0, 0), data[..n]); (tables[n], js[n], out[..n]) == (r.0.s, r.0.j, r.1)
  {
    hide ByteStep;
    RunNothing(State(table, 0, 0));
    if n > 0 {
      DataTablesAre(table, data, tables, js, out, n - 1);
      ByteStepIs(table, data, n - 1, tables[n], js[n], out[n - 1]);
      assert ByteStep(data, n - 1, tables[n - 1], js[n - 1], tables[n - 1 + 1], js[n - 1 + 1], out[n - 1]);
      var r := Run(State(table, 0, 0), data[..n]).1;
      assert out[..n] == out[..n - 1] + [out[n - 1]] && r == r[..n - 1] + [r[n - 1]];
    }
  }

  function RunTables(table: seq<byte>, data: seq<byte>): seq<seq<byte>>
    requires |table| == 256
  {
    seq(|data| + 1, n requires 0 <= n < |data| + 1 => Run(State(table, 0, 0), data[..n]).0.s)
  }

  function RunIndexes(table: seq<byte>, data: seq<byte>): seq<byte>
    requires |table| == 256
  {
    seq(|data| + 1, n requires 0 <= n < |data| + 1 => Run(State(table, 0, 0), data[..n]).0.j)
  }

  lemma OutputSoFar(st: State, data: seq<byte>, n: nat)
    requires |st.s| == 256 && n <= |data|
    ensures Run(st, data[..n]).1 == Run(st, data).1[..n]
  {
    assert data == data[..n] + data[n..];
    RunAppend(st, data[..n], data[n..]);
  }

  lemma RunSteps(table: seq<byte>, data: seq<byte>, n: nat)
    requires |table| == 256 && n < |data|
    ensures var start := State(table, 0, 0);
            var s, t := Run(start, data[..n]).0, Run(start, data[..n + 1]).0;
            ByteStep(data, n, s.s, s.j, t.s, t.j, Run(start, data).1[n])
  {
    hide ByteStep;
    hide Run;
    var start := State(table, 0, 0);
    var t := Run(start, data[..n + 1]);
    OutputSoFar(start, data, n + 1);
    assert Run(start, data).1[n] == t.1[n];
    ByteStepIs(table, data, n, t.0.s, t.0.j, t.1[n]);
  }

  lemma HasDataTables(table: seq<byte>, data: seq<byte>)
    requires |table| == 256
    ensures DataTables(table, data, RunTables(table, data), RunIndexes(table, data), Run(State(table, 0, 0), data).1)
  {
    hide ByteStep;
    hide Run;
    var tables, js := RunTables(table, data), RunIndexes(table, data);
    RunNothing(State(table, 0, 0));
    assert data[..0] == [];
    forall n | 0 <= n < |data|
      ensures ByteStep(data, n, tables[n], js[n], tables[n + 1], js[n + 1], Run(State(table, 0, 0), data).1[n])
    {
      RunSteps(table, data, n);
    }
  }

  // ---------- the cipher ----------

  /** `out` is `data` encrypted with `key`, table by table. */
  ghost predicate IsEncryption(key: seq<byte>, data: seq<byte>, out: seq<byte>) {
    exists keyTables, keyJs, tables, js ::
      KeyTables(key, keyTables, keyJs) && DataTables(keyTables[256], data, tables, js, out)
  }

  /** What the cipher gives is the encryption, and the only one; there is none without a key. */
  lemma EncryptsExactly(key: seq<byte>, data: seq<byte>, out: seq<byte>)
    ensures IsEncryption(key, data, out) <==> Encrypted(key, data) == Some(out)
  {
    hide KeyStep;
    hide ByteStep;
    assert data[..|data|] == data;
    forall keyTables, keyJs, tables, js
      | KeyTables(key, keyTables, keyJs) && DataTables(keyTables[256], data, tables, js, out)
      ensures Encrypted(key, data) == Some(out)
    {
      KeyTablesAre(key, keyTables, keyJs, 256);
      DataTablesAre(keyTables[256], data, tables, js, out, |data|);
      assert out[..|data|] == out;
    }
    if key != [] && Encrypted(key, data) == Some(out) {
      var table := TablesOf(key)[256];
      HasKeyTables(key);
      HasDataTables(table, data);
      assert KeyTables(key, TablesOf(key), IndexesOf(key))
             && DataTables(TablesOf(key)[256], data, RunTables(table, data), RunIndexes(table, data), out);
    }
  }
}
