/** Tables of the 256 byte values, as the ciphers keep and shuffle them. */
module ByteTable {
  import opened GoLib

  ghost predicate Distinct(t: seq<byte>) {
    forall i, j :: 0 <= i < j < |t| ==> t[i] != t[j]
  }

  /** `t` holds every byte value exactly once. */
  ghost predicate IsPermutation(t: seq<byte>) {
    && |t| == 256 && Distinct(t)
    && forall b: byte :: b in t
  }

  function Bytes(n: nat): (s: set<byte>)
    requires n <= 256
    ensures |s| == n
    ensures forall b: byte :: b in s <==> b < n
  {
    if n == 0 then {} else Bytes(n - 1) + {n - 1}
  }

  function Elements(t: seq<byte>): set<byte> {
    set b | b in t
  }

  lemma {:induction false} DistinctCount(t: seq<byte>)
    requires Distinct(t)
    ensures |Elements(t)| == |t|
  {
    if t != [] {
      var init, last := t[..|t| - 1], t[|t| - 1];
      DistinctCount(init);
      assert last !in init;
      assert Elements(t) == Elements(init) + {last} by {
        assert t == init + [last];
      }
    }
  }

  /** 256 distinct bytes are all the bytes there are. */
  lemma DistinctIsPermutation(t: seq<byte>)
    requires |t| == 256 && Distinct(t)
    ensures IsPermutation(t)
  {
    DistinctCount(t);
    forall b: byte
      ensures b in t
    {
      if b !in t {
        TooMany(Elements(t) + {b});
      }
    }
  }

  lemma TooMany(s: set<byte>)
    ensures |s| <= 256
  {
    SubsetSize(s, Bytes(256));
  }

  lemma {:induction false} SubsetSize<T>(a: set<T>, b: set<T>)
    requires a <= b
    ensures |a| <= |b|
  {
    assert b == a + (b - a);
  }

  function Identity(): (t: seq<byte>)
    ensures |t| == 256 && forall i :: 0 <= i < 256 ==> t[i] == i
  {
    seq(256, i requires 0 <= i < 256 => i)
  }

  lemma SwapKeepsDistinct(t: seq<byte>, i: nat, j: nat)
    requires i < |t| && j < |t| && Distinct(t)
    ensures Distinct(t[i := t[j]][j := t[i]])
  {
  }
}
