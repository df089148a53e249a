/** Bytes, 64-bit words and the big-endian encoding shared by the CPU and the FMan. */
module Bytes {

  type byte = b: int | 0 <= b < 256

  const U32: int := 0x1_0000_0000
  const U64: int := 0x1_0000_0000_0000_0000

  type u32 = x: int | 0 <= x < U32
  type u64 = x: int | 0 <= x < U64

  /** The value of a big-endian byte string. */
  function Val(s: seq<byte>): nat {
    if s == [] then 0 else 256 * Val(s[..|s| - 1]) + s[|s| - 1]
  }

  /** The low n bytes of v, most significant first. */
  function Be(v: nat, n: nat): (s: seq<byte>)
    ensures |s| == n
  {
    if n == 0 then [] else Be(v / 256, n - 1) + [v % 256]
  }

  function Pow256(n: nat): (p: nat)
    ensures p > 0
  {
    if n == 0 then 1 else 256 * Pow256(n - 1)
  }

  lemma {:induction false} ValOfBe(v: nat, n: nat)
    requires v < Pow256(n)
    ensures Val(Be(v, n)) == v
  {
    if n > 0 {
      ValOfBe(v / 256, n - 1);
      assert Be(v, n)[..n - 1] == Be(v / 256, n - 1);
    }
  }

  lemma {:induction false} BeOfVal(s: seq<byte>)
    ensures Val(s) < Pow256(|s|)
    ensures Be(Val(s), |s|) == s
  {
    if s != [] {
      var front, last := s[..|s| - 1], s[|s| - 1];
      BeOfVal(front);
      assert Val(s) / 256 == Val(front) && Val(s) % 256 == last;
      assert s == front + [last];
    }
  }

  lemma DivTwice(v: nat, p: nat)
    requires p > 0
    ensures v / 256 / p == v / (256 * p)
  {
    var a := v / 256;
    var q, r := a / p, a % p;
    assert v == 256 * a + v % 256 && a == p * q + r;
    assert 256 * (p * q) == (256 * p) * q;
    DivIs(v, 256 * p, q, 256 * r + v % 256);
  }

  lemma DivIs(v: nat, d: nat, q: nat, r: nat)
    requires v == d * q + r && r < d
    ensures v / d == q
  {
    var e := v / d;
    assert e < q ==> d * (e + 1) <= d * q;
    assert e > q ==> d * (q + 1) <= d * e;
  }

  /** Byte i of an n-byte encoding has weight 256 to the n - 1 - i: the first byte is the most significant. */
  lemma {:induction false} BeByte(v: nat, n: nat, i: nat)
    requires i < n
    ensures Be(v, n)[i] == v / Pow256(n - 1 - i) % 256
  {
    if i + 1 < n {
      BeByte(v / 256, n - 1, i);
      DivTwice(v, Pow256(n - 2 - i));
    } else {
      assert Pow256(0) == 1;
    }
  }

  lemma Pow256s()
    ensures Pow256(0) == 1 && Pow256(1) == 0x100 && Pow256(2) == 0x1_0000 && Pow256(3) == 0x100_0000
    ensures Pow256(4) == 0x1_0000_0000 && Pow256(5) == 0x100_0000_0000
    ensures Pow256(6) == 0x1_0000_0000_0000 && Pow256(7) == 0x100_0000_0000_0000
  {
    assert Pow256(0) == 1;
    assert Pow256(3) == 256 * Pow256(2);
    assert Pow256(5) == 256 * Pow256(4);
  }

  /** A 64-bit word in memory, byte by byte: most significant first. */
  lemma Be64Bytes(v: u64)
    ensures Be64(v)[0] == v / 0x100_0000_0000_0000 % 256 && Be64(v)[1] == v / 0x1_0000_0000_0000 % 256
    ensures Be64(v)[2] == v / 0x100_0000_0000 % 256 && Be64(v)[3] == v / 0x1_0000_0000 % 256
    ensures Be64(v)[4] == v / 0x100_0000 % 256 && Be64(v)[5] == v / 0x1_0000 % 256
    ensures Be64(v)[6] == v / 0x100 % 256 && Be64(v)[7] == v % 256
  {
    hide Be, Pow256;
    Pow256s();
    forall i | 0 <= i < 8 ensures Be64(v)[i] == v / Pow256(7 - i) % 256 {
      BeByte(v, 8, i);
    }
  }

  lemma Pow256Of8()
    ensures Pow256(8) == U64
  {
    assert Pow256(4) == 256 * Pow256(3) == U32;
    assert Pow256(8) == 256 * (256 * (256 * (256 * Pow256(4))));
  }

  /** put_unaligned_be64 / get_unaligned_be64 on a 64-bit word. */
  function Be64(v: u64): (s: seq<byte>)
    ensures |s| == 8
  {
    Be(v, 8)
  }

  function Get64(s: seq<byte>): (v: u64)
    requires |s| == 8
  {
    BeOfVal(s);
    Pow256Of8();
    Val(s)
  }

  lemma Get64OfBe64(v: u64)
    ensures Get64(Be64(v)) == v
  {
    Pow256Of8();
    ValOfBe(v, 8);
  }

  function Reverse(s: seq<byte>): (r: seq<byte>)
    ensures |r| == |s|
    ensures forall i :: 0 <= i < |s| ==> r[i] == s[|s| - 1 - i]
  {
    seq(|s|, i requires 0 <= i < |s| => s[|s| - 1 - i])
  }

  /** swab64: the byte swap between a DMA address and the head word the walker reads. */
  function Swab64(v: u64): u64 {
    Get64(Reverse(Be64(v)))
  }

  /** The swapped word is the same eight bytes in reverse order. */
  lemma SwabReverses(v: u64)
    ensures Be64(Swab64(v)) == Reverse(Be64(v))
  {
    BeOfVal(Reverse(Be64(v)));
  }

  /** The walker recovers exactly the address the CPU stored. */
  lemma SwabIsInvolutive(v: u64)
    ensures Swab64(Swab64(v)) == v
  {
    var r := Reverse(Be64(v));
    BeOfVal(r);
    assert Be64(Get64(r)) == r;
    assert Reverse(r) == Be64(v);
    Get64OfBe64(v);
  }

  /** A head word is zero (empty bucket) only for the null address. */
  lemma SwabIsZeroOnlyForNull(v: u64)
    ensures Swab64(v) == 0 <==> v == 0
  {
    assert Be(0, 8) == seq(8, i => 0) by {
      assert Be(0, 4) == Be(0, 3) + [0] == [0, 0, 0, 0];
      assert Be(0, 8) == Be(0, 4) + [0] + [0] + [0] + [0];
    }
    assert Swab64(0) == 0 by {
      assert Reverse(Be64(0)) == Be64(0);
      Get64OfBe64(0);
    }
    SwabIsInvolutive(v);
  }

  /** A block with the bytes from off on replaced by data (memcpy). */
  function Splice(b: seq<byte>, off: nat, data: seq<byte>): (r: seq<byte>)
    requires off + |data| <= |b|
    ensures |r| == |b|
  {
    b[..off] + data + b[off + |data|..]
  }

  lemma SpliceContent(b: seq<byte>, off: nat, data: seq<byte>)
    requires off + |data| <= |b|
    ensures var r := Splice(b, off, data);
            && r[off..off + |data|] == data
            && forall i :: 0 <= i < |b| && !(off <= i < off + |data|) ==> r[i] == b[i]
  {
  }

  /** A splice leaves every range it does not touch as it was. */
  lemma SpliceElsewhere(b: seq<byte>, off: nat, data: seq<byte>, lo: nat, hi: nat)
    requires off + |data| <= |b| && lo <= hi <= |b|
    requires hi <= off || off + |data| <= lo
    ensures Splice(b, off, data)[lo..hi] == b[lo..hi]
  {
    var r := Splice(b, off, data);
    SpliceContent(b, off, data);
    forall i | 0 <= i < hi - lo ensures r[lo..hi][i] == b[lo..hi][i] {
    }
  }

  lemma SpliceAll(b: seq<byte>, data: seq<byte>)
    requires |data| == |b|
    ensures Splice(b, 0, data) == data
  {
  }
}
