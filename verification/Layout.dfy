/**
 * The 256-byte cumulative node: header, next link, packed keys, one zero byte,
 * big-endian record pointers. NodePartial is what the publish loop has written
 * after k entries; ScanNode is what the walker reads back.
 */
module Layout {
  import opened Bytes

  const CU_SIZE := 256
  const CU_NODE := 0x80
  const CU_INVALID := 0x40
  const CU_NEXT := 0x20
  const CU_KEYS_OFF := 12
  const CU_PTR_SIZE := 8
  const FLOW_KEY_OFF := 8
  const FLOW_BLK_SIZE := 512

  /** fman_pcd_ehash_cu_stride on a u8 key size; the mask 0x38 keeps bits 3..5. */
  function Stride(keySize: nat): nat {
    if keySize <= 2 then keySize
    else if keySize <= 4 then 4
    else (keySize + 7) / 8 % 8 * 8
  }

  /** Entries per full node. */
  function Per(keySize: nat): nat {
    (CU_SIZE - CU_KEYS_OFF - 1) / (Stride(keySize) + CU_PTR_SIZE)
  }

  /** The stride can hold a key exactly for key sizes up to 56: 57 wraps it to zero. */
  lemma StrideHoldsKeyUpTo56(keySize: nat)
    requires 1 <= keySize <= 255
    ensures keySize <= Stride(keySize) <==> keySize <= 56
  {
    if 5 <= keySize <= 56 {
      assert (keySize + 7) / 8 < 8;
    } else if 56 < keySize {
      assert (keySize + 7) / 8 % 8 <= 7;
      assert Stride(57) == 0;
    }
  }

  /** A stride the node format allows. */
  predicate IsStride(s: nat) {
    s == 1 || s == 2 || s == 4 || s % 8 == 0
  }

  /** For every legal key size the stride is the least allowed one that holds the key. */
  lemma StrideIsLeast(keySize: nat, s: nat)
    requires KeySizeOk(keySize)
    ensures IsStride(Stride(keySize)) && keySize <= Stride(keySize)
    ensures IsStride(s) && keySize <= s ==> Stride(keySize) <= s
  {
    StrideHoldsKeyUpTo56(keySize);
    if keySize > 4 {
      assert (keySize + 7) / 8 < 8;
    }
  }

  predicate KeySizeOk(keySize: nat) {
    1 <= keySize <= 56
  }

  function KeyOff(keySize: nat, k: nat): nat {
    CU_KEYS_OFF + k * Stride(keySize)
  }

  function PtrBase(keySize: nat, m: nat): nat {
    CU_KEYS_OFF + 1 + m * Stride(keySize)
  }

  function PtrOff(keySize: nat, m: nat, k: nat): nat {
    PtrBase(keySize, m) + k * CU_PTR_SIZE
  }

  lemma MulMonotone(a: nat, b: nat, c: nat)
    requires a <= b
    ensures a * c <= b * c
  {
  }

  lemma StrideRange(keySize: nat)
    requires KeySizeOk(keySize)
    ensures 1 <= keySize <= Stride(keySize) <= 56
  {
    StrideHoldsKeyUpTo56(keySize);
  }

  lemma QuotientRange(n: nat, w: nat)
    requires 9 <= w <= 64 && n == 243 / w
    ensures 3 <= n <= 27 && n * w <= 243
  {
    MulMonotone(w, 64, 3);
    assert 3 * w <= 192;
  }

  lemma PerRange(keySize: nat)
    requires KeySizeOk(keySize)
    ensures 3 <= Per(keySize) <= 27 && Per(keySize) * (Stride(keySize) + CU_PTR_SIZE) <= 243
  {
    StrideRange(keySize);
    QuotientRange(Per(keySize), Stride(keySize) + CU_PTR_SIZE);
  }

  lemma SplitProduct(m: nat, per: nat, s: nat)
    requires m <= per && per * (s + 8) <= 243
    ensures m * s + m * 8 <= 243
  {
    MulMonotone(m, per, s + 8);
    assert m * (s + 8) == m * s + m * 8;
  }

  /** At least three entries fit, all fields lie in the node and the pointer offset fits a byte. */
  lemma NodeFits(keySize: nat, m: nat)
    requires KeySizeOk(keySize) && m <= Per(keySize)
    ensures 3 <= Per(keySize) <= 27
    ensures keySize <= Stride(keySize) <= 56
    ensures PtrBase(keySize, m) < 256
    ensures PtrOff(keySize, m, m) <= CU_SIZE
  {
    hide Stride, Per;
    StrideRange(keySize);
    PerRange(keySize);
    SplitProduct(m, Per(keySize), Stride(keySize));
  }

  /** A full node could not take one entry more. */
  lemma PerIsMost(keySize: nat)
    requires KeySizeOk(keySize)
    ensures PtrOff(keySize, Per(keySize), Per(keySize)) <= CU_SIZE
    ensures PtrOff(keySize, Per(keySize) + 1, Per(keySize) + 1) > CU_SIZE
  {
    NodeFits(keySize, Per(keySize));
    var w := Stride(keySize) + CU_PTR_SIZE;
    assert Per(keySize) == 243 / w && 243 < (Per(keySize) + 1) * w;
    assert (Per(keySize) + 1) * w == (Per(keySize) + 1) * Stride(keySize) + (Per(keySize) + 1) * CU_PTR_SIZE;
  }

  /** Header, next link, keys, the zero byte and the pointers do not overlap. */
  lemma FieldsAreDisjoint(keySize: nat, m: nat, j: nat, k: nat)
    requires KeySizeOk(keySize) && m <= Per(keySize) && j < k < m
    ensures CU_KEYS_OFF <= KeyOff(keySize, j)
    ensures KeyOff(keySize, j) + keySize <= KeyOff(keySize, k)
    ensures KeyOff(keySize, k) + keySize <= PtrBase(keySize, m) - 1
    ensures PtrOff(keySize, m, j) + CU_PTR_SIZE <= PtrOff(keySize, m, k)
    ensures PtrOff(keySize, m, k) + CU_PTR_SIZE <= CU_SIZE
  {
    hide Stride, Per;
    NodeFits(keySize, m);
    EntryFits(keySize, m, j);
    EntryFits(keySize, m, k);
    StepsApart(j, k, Stride(keySize));
  }

  lemma StepsApart(j: nat, k: nat, s: nat)
    requires j < k
    ensures j * s + s <= k * s
  {
    MulMonotone(j + 1, k, s);
    assert (j + 1) * s == j * s + s;
  }

  lemma EntryFits(keySize: nat, m: nat, k: nat)
    requires KeySizeOk(keySize) && m <= Per(keySize) && k < m
    ensures KeyOff(keySize, k) + keySize <= PtrBase(keySize, m) - 1
    ensures PtrOff(keySize, m, k) + CU_PTR_SIZE <= CU_SIZE
  {
    NodeFits(keySize, m);
    MulMonotone(k + 1, m, Stride(keySize));
    assert (k + 1) * Stride(keySize) == k * Stride(keySize) + Stride(keySize);
  }

  predicate EntriesOk(keySize: nat, m: nat, keys: seq<seq<byte>>, ptrs: seq<u64>) {
    && KeySizeOk(keySize)
    && 1 <= m <= Per(keySize)
    && |keys| == |ptrs| == m
    && (forall j :: 0 <= j < m ==> |keys[j]| == keySize)
  }

  ghost predicate HeaderOk(b: seq<byte>, keySize: nat, m: nat, next: u64)
    requires |b| == CU_SIZE
  {
    && b[0] == (if next == 0 then CU_NODE else CU_NODE + CU_NEXT)
    && b[1] == m
    && b[2] == Stride(keySize)
    && b[3] == PtrBase(keySize, m)
    && (next != 0 ==> b[4..12] == Be64(next))
  }

  ghost predicate EntryOk(b: seq<byte>, keySize: nat, m: nat, key: seq<byte>, ptr: u64, j: nat)
    requires |b| == CU_SIZE && KeySizeOk(keySize) && j < m <= Per(keySize)
  {
    EntryFits(keySize, m, j);
    && b[KeyOff(keySize, j)..KeyOff(keySize, j) + keySize] == key
    && b[PtrOff(keySize, m, j)..PtrOff(keySize, m, j) + CU_PTR_SIZE] == Be64(ptr)
  }

  /** The node after its first k of m entries have been written; untouched (all zero) for k = 0. */
  ghost predicate NodePartial(b: seq<byte>, keySize: nat, k: nat, keys: seq<seq<byte>>, ptrs: seq<u64>, next: u64)
    requires EntriesOk(keySize, |keys|, keys, ptrs)
  {
    var m := |keys|;
    NodeFits(keySize, m);
    && k <= m
    && |b| == CU_SIZE
    && b[PtrBase(keySize, m) - 1] == 0
    && (k == 0 ==> forall i :: 0 <= i < CU_SIZE ==> b[i] == 0)
    && (k > 0 ==> HeaderOk(b, keySize, m, next))
    && (forall j :: 0 <= j < k ==> EntryOk(b, keySize, m, keys[j], ptrs[j], j))
  }

  /** A finished node. */
  ghost predicate NodeOk(b: seq<byte>, keySize: nat, keys: seq<seq<byte>>, ptrs: seq<u64>, next: u64) {
    EntriesOk(keySize, |keys|, keys, ptrs) && NodePartial(b, keySize, |keys|, keys, ptrs, next)
  }

  /** data stands at offset off of b. */
  predicate StandsAt(b: seq<byte>, off: nat, data: seq<byte>) {
    off + |data| <= |b| && b[off..off + |data|] == data
  }

  /** A finished node, read as the format describes it: where each field is, from the header's own bytes. */
  lemma NodeBytes(b: seq<byte>, keySize: nat, keys: seq<seq<byte>>, ptrs: seq<u64>, next: u64, j: nat)
    requires NodeOk(b, keySize, keys, ptrs, next) && j < |keys|
    ensures |b| == 256 && |ptrs| == |keys|
    ensures b[0] == (if next == 0 then 0x80 else 0xa0) && b[1] == |keys|
    ensures b[2] == (if keySize <= 2 then keySize else if keySize <= 4 then 4 else (keySize + 7) / 8 * 8)
    ensures b[3] == 13 + |keys| * b[2] && b[b[3] - 1] == 0
    ensures next != 0 ==> StandsAt(b, 4, Be64(next))
    ensures |keys[j]| == keySize && StandsAt(b, 12 + j * b[2], keys[j])
    ensures StandsAt(b, b[3] + 8 * j, Be64(ptrs[j]))
  {
    hide Stride, Per, EntryOk;
    var m := |keys|;
    NodeFits(keySize, m);
    EntryFits(keySize, m, j);
    StrideIs(keySize);
    assert EntryOk(b, keySize, m, keys[j], ptrs[j], j);
    EntryIs(b, keySize, m, keys[j], ptrs[j], j);
  }

  lemma StrideIs(keySize: nat)
    requires KeySizeOk(keySize)
    ensures Stride(keySize) == if keySize <= 2 then keySize else if keySize <= 4 then 4 else (keySize + 7) / 8 * 8
  {
  }

  lemma EntryIs(b: seq<byte>, keySize: nat, m: nat, key: seq<byte>, ptr: u64, j: nat)
    requires |b| == CU_SIZE && KeySizeOk(keySize) && j < m <= Per(keySize) && EntryOk(b, keySize, m, key, ptr, j)
    requires |key| == keySize
    ensures StandsAt(b, KeyOff(keySize, j), key) && StandsAt(b, PtrOff(keySize, m, j), Be64(ptr))
  {
    EntryFits(keySize, m, j);
  }

  /** The header bytes the publish loop stores when it opens a node. */
  function WithHeader(b: seq<byte>, keySize: nat, m: nat, next: u64): (r: seq<byte>)
    requires |b| == CU_SIZE && KeySizeOk(keySize) && m <= Per(keySize)
    ensures |r| == CU_SIZE
  {
    NodeFits(keySize, m);
    var h := Splice(b, 0, [CU_NODE, m, Stride(keySize), PtrBase(keySize, m)]);
    if next == 0 then h else Splice(Splice(h, 0, [CU_NODE + CU_NEXT]), 4, Be64(next))
  }

  lemma HeaderWritten(b: seq<byte>, keySize: nat, m: nat, next: u64)
    requires |b| == CU_SIZE && KeySizeOk(keySize) && m <= Per(keySize)
    ensures HeaderOk(WithHeader(b, keySize, m, next), keySize, m, next)
    ensures WithHeader(b, keySize, m, next)[12..] == b[12..]
  {
    NodeFits(keySize, m);
    var head := [CU_NODE, m, Stride(keySize), PtrBase(keySize, m)];
    var h := Splice(b, 0, head);
    SpliceContent(b, 0, head);
    assert h[..4] == head;
    assert h[0] == head[0] && h[1] == head[1] && h[2] == head[2] && h[3] == head[3];
    if next != 0 {
      var g := Splice(h, 0, [CU_NODE + CU_NEXT]);
      SpliceContent(h, 0, [CU_NODE + CU_NEXT]);
      SpliceContent(g, 4, Be64(next));
      assert g[0] == g[0..1][0] == CU_NODE + CU_NEXT;
    }
  }

  /** One entry: the key at its stride, then the record pointer. */
  function WithEntry(b: seq<byte>, keySize: nat, m: nat, k: nat, key: seq<byte>, ptr: u64): (r: seq<byte>)
    requires |b| == CU_SIZE && KeySizeOk(keySize) && k < m <= Per(keySize) && |key| == keySize
    ensures |r| == CU_SIZE
  {
    EntryFits(keySize, m, k);
    Splice(Splice(b, KeyOff(keySize, k), key), PtrOff(keySize, m, k), Be64(ptr))
  }

  lemma EntryKept(b: seq<byte>, keySize: nat, m: nat, k: nat, key: seq<byte>, ptr: u64, j: nat, keyJ: seq<byte>,
                  ptrJ: u64)
    requires |b| == CU_SIZE && KeySizeOk(keySize) && j < k < m <= Per(keySize) && |key| == keySize
    requires EntryOk(b, keySize, m, keyJ, ptrJ, j)
    ensures EntryOk(WithEntry(b, keySize, m, k, key, ptr), keySize, m, keyJ, ptrJ, j)
  {
    FieldsAreDisjoint(keySize, m, j, k);
    EntryFits(keySize, m, j);
    EntryFits(keySize, m, k);
    var b1 := Splice(b, KeyOff(keySize, k), key);
    SpliceElsewhere(b, KeyOff(keySize, k), key, KeyOff(keySize, j), KeyOff(keySize, j) + keySize);
    SpliceElsewhere(b, KeyOff(keySize, k), key, PtrOff(keySize, m, j), PtrOff(keySize, m, j) + 8);
    SpliceElsewhere(b1, PtrOff(keySize, m, k), Be64(ptr), KeyOff(keySize, j), KeyOff(keySize, j) + keySize);
    SpliceElsewhere(b1, PtrOff(keySize, m, k), Be64(ptr), PtrOff(keySize, m, j), PtrOff(keySize, m, j) + 8);
  }

  lemma EntryAdded(b: seq<byte>, keySize: nat, m: nat, k: nat, key: seq<byte>, ptr: u64)
    requires |b| == CU_SIZE && KeySizeOk(keySize) && k < m <= Per(keySize) && |key| == keySize
    ensures EntryOk(WithEntry(b, keySize, m, k, key, ptr), keySize, m, key, ptr, k)
    ensures WithEntry(b, keySize, m, k, key, ptr)[..12] == b[..12]
    ensures PtrBase(keySize, m) <= CU_SIZE
    ensures WithEntry(b, keySize, m, k, key, ptr)[PtrBase(keySize, m) - 1] == b[PtrBase(keySize, m) - 1]
  {
    EntryFits(keySize, m, k);
    var b1 := Splice(b, KeyOff(keySize, k), key);
    SpliceContent(b, KeyOff(keySize, k), key);
    SpliceContent(b1, PtrOff(keySize, m, k), Be64(ptr));
    SpliceElsewhere(b1, PtrOff(keySize, m, k), Be64(ptr), KeyOff(keySize, k), KeyOff(keySize, k) + keySize);
    SpliceElsewhere(b, KeyOff(keySize, k), key, 0, 12);
    SpliceElsewhere(b1, PtrOff(keySize, m, k), Be64(ptr), 0, 12);
  }

  /** Writing entry k (and the header before entry 0) takes a k-entry node to a k+1-entry one. */
  lemma NodeGrows(b: seq<byte>, keySize: nat, k: nat, keys: seq<seq<byte>>, ptrs: seq<u64>, next: u64)
    requires EntriesOk(keySize, |keys|, keys, ptrs) && k < |keys|
    requires NodePartial(b, keySize, k, keys, ptrs, next)
    ensures var h := if k == 0 then WithHeader(b, keySize, |keys|, next) else b;
            NodePartial(WithEntry(h, keySize, |keys|, k, keys[k], ptrs[k]), keySize, k + 1, keys, ptrs, next)
  {
    hide Stride, Per, EntryOk, WithEntry, WithHeader;
    var m := |keys|;
    NodeFits(keySize, m);
    if k == 0 {
      HeaderWritten(b, keySize, m, next);
      EntryFits(keySize, m, 0);
      var w := WithHeader(b, keySize, m, next);
      assert w[12..][PtrBase(keySize, m) - 13] == b[12..][PtrBase(keySize, m) - 13];
    }
    var h := if k == 0 then WithHeader(b, keySize, m, next) else b;
    var r := WithEntry(h, keySize, m, k, keys[k], ptrs[k]);
    EntryAdded(h, keySize, m, k, keys[k], ptrs[k]);
    assert forall i :: 0 <= i < 12 ==> r[..12][i] == h[..12][i];
    assert r[4..12] == r[..12][4..12] == h[..12][4..12] == h[4..12];
    forall j | 0 <= j < k ensures EntryOk(r, keySize, m, keys[j], ptrs[j], j) {
      EntryKept(h, keySize, m, k, keys[k], ptrs[k], j, keys[j], ptrs[j]);
    }
  }

  predicate HasBit(b: byte, bit: nat)
    requires bit > 0
  {
    b / bit % 2 == 1
  }

  /** The header checks of the walker on a node block. */
  predicate NodeReadable(b: seq<byte>, keySize: nat) {
    && |b| == CU_SIZE
    && HasBit(b[0], CU_NODE) && !HasBit(b[0], CU_INVALID)
    && var n: nat, w: nat := b[1], b[2];
    && n >= 1 && w >= keySize
    && b[3] == CU_KEYS_OFF + 1 + n * w
    && CU_KEYS_OFF + 1 + n * w + n * CU_PTR_SIZE <= CU_SIZE
    && b[CU_KEYS_OFF + n * w] == 0
  }

  /** Offset of key i of the node as its own header gives it. */
  function KeyPos(b: seq<byte>, i: nat): nat
    requires |b| == CU_SIZE
  {
    var w: nat := b[2];
    CU_KEYS_OFF + i * w
  }

  function PtrPos(b: seq<byte>, i: nat): nat
    requires |b| == CU_SIZE
  {
    var base: nat := b[3];
    base + i * CU_PTR_SIZE
  }

  lemma ReadableFits(b: seq<byte>, keySize: nat, i: nat)
    requires NodeReadable(b, keySize) && i < b[1]
    ensures KeyPos(b, i) + keySize <= CU_SIZE
    ensures PtrPos(b, i) + CU_PTR_SIZE <= CU_SIZE
  {
    var w: nat := b[2];
    MulMonotone(i + 1, b[1], w);
    assert (i + 1) * w == i * w + w;
  }

  function KeyAt(b: seq<byte>, keySize: nat, i: nat): (k: seq<byte>)
    requires NodeReadable(b, keySize) && i < b[1]
  {
    ReadableFits(b, keySize, i);
    b[KeyPos(b, i)..KeyPos(b, i) + keySize]
  }

  function PtrAt(b: seq<byte>, keySize: nat, i: nat): u64
    requires NodeReadable(b, keySize) && i < b[1]
  {
    ReadableFits(b, keySize, i);
    Get64(b[PtrPos(b, i)..PtrPos(b, i) + CU_PTR_SIZE])
  }

  /** The link to the next node, 0 when the flag is clear. */
  function NextOf(b: seq<byte>): u64
    requires |b| == CU_SIZE
  {
    if HasBit(b[0], CU_NEXT) then Get64(b[4..12]) else 0
  }

  /** The header checks of the walker pass on a finished node, and its link reads back. */
  lemma HeaderReadsBack(b: seq<byte>, keySize: nat, keys: seq<seq<byte>>, ptrs: seq<u64>, next: u64)
    requires NodeOk(b, keySize, keys, ptrs, next)
    ensures NodeReadable(b, keySize) && b[1] == |keys| && b[2] == Stride(keySize) && b[3] == PtrBase(keySize, |keys|)
    ensures NextOf(b) == next
  {
    hide EntryOk, Stride, Per;
    NodeFits(keySize, |keys|);
    if next != 0 { Get64OfBe64(next); }
  }

  lemma EntryReadsBack(b: seq<byte>, keySize: nat, m: nat, key: seq<byte>, ptr: u64, i: nat)
    requires NodeReadable(b, keySize) && b[1] == m && b[2] == Stride(keySize) && b[3] == PtrBase(keySize, m)
    requires KeySizeOk(keySize) && i < m <= Per(keySize) && EntryOk(b, keySize, m, key, ptr, i)
    ensures KeyAt(b, keySize, i) == key && PtrAt(b, keySize, i) == ptr
  {
    hide NodeReadable, Stride, Per;
    EntryFits(keySize, m, i);
    Get64OfBe64(ptr);
  }

  /** A finished node reads back as exactly the entries and link that were written. */
  lemma NodeReadsBack(b: seq<byte>, keySize: nat, keys: seq<seq<byte>>, ptrs: seq<u64>, next: u64)
    requires NodeOk(b, keySize, keys, ptrs, next)
    ensures NodeReadable(b, keySize) && b[1] == |keys|
    ensures forall i :: 0 <= i < |keys| ==> KeyAt(b, keySize, i) == keys[i] && PtrAt(b, keySize, i) == ptrs[i]
    ensures NextOf(b) == next
  {
    hide EntryOk, HeaderOk, NodeReadable, KeyAt, PtrAt, Stride, Per, NextOf;
    HeaderReadsBack(b, keySize, keys, ptrs, next);
    forall i | 0 <= i < |keys| ensures KeyAt(b, keySize, i) == keys[i] && PtrAt(b, keySize, i) == ptrs[i] {
      EntryReadsBack(b, keySize, |keys|, keys[i], ptrs[i], i);
    }
  }
}
