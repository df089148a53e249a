/**
 * What one bucket head exposes to the FMan: nothing, one bare record, or a chain of
 * cumulative nodes. FetchBlock is one DMA fetch of the hardware walker; Walk is a whole
 * lookup. Both see bytes only.
 */
module Bucket {
  import opened Bytes
  import opened Layout

  type Addr = u64
  type Memory = map<Addr, seq<byte>>

  /** The content of a bucket: its nodes, and the records and keys they lead to, in index order. */
  datatype Pub = Pub(nodes: seq<Addr>, recs: seq<Addr>, keys: seq<seq<byte>>)

  const EMPTY := Pub([], [], [])

  function Elems(s: seq<Addr>): (r: set<Addr>)
    ensures forall a :: a in r <==> a in s
  {
    set a | a in s
  }

  function Blocks(p: Pub): set<Addr> {
    Elems(p.nodes) + Elems(p.recs)
  }

  /** A live, aligned 512-byte record block holding key, with byte 0 bit 7 clear. */
  predicate RecOk(mem: Memory, keySize: nat, a: Addr, key: seq<byte>) {
    && a in mem && a != 0 && a % 256 == 0
    && |mem[a]| == FLOW_BLK_SIZE
    && !HasBit(mem[a][0], CU_NODE)
    && FLOW_KEY_OFF + keySize <= FLOW_BLK_SIZE
    && mem[a][FLOW_KEY_OFF..FLOW_KEY_OFF + keySize] == key
  }

  /** DIV_ROUND_UP */
  function CeilDiv(n: nat, d: nat): nat
    requires d > 0
  {
    (n + d - 1) / d
  }

  function NodeCount(n: nat, keySize: nat): nat {
    if n > 1 then CeilDiv(n, Per1(keySize)) else 0
  }

  /** Per, which is never zero for a legal key size. */
  function Per1(keySize: nat): (p: nat)
    ensures p > 0
    ensures KeySizeOk(keySize) ==> p == Per(keySize)
  {
    if KeySizeOk(keySize) then NodeFits(keySize, 0); Per(keySize) else 1
  }

  function Lo(keySize: nat, i: nat): nat {
    i * Per1(keySize)
  }

  function Hi(keySize: nat, n: nat, i: nat): nat {
    if (i + 1) * Per1(keySize) <= n then (i + 1) * Per1(keySize) else n
  }

  lemma CeilBounds(n: nat, p: nat)
    requires p > 0 && n > 0
    ensures n <= CeilDiv(n, p) * p <= n + p - 1
  {
    var c := CeilDiv(n, p);
    assert n + p - 1 == c * p + (n + p - 1) % p;
  }

  lemma OneMoreTimes(i: nat, p: nat)
    ensures (i + 1) * p == i * p + p
  {
  }

  /** Node i covers a nonempty slice; all nodes but the last are full, the last ends the bucket. */
  lemma SliceBounds(keySize: nat, n: nat, i: nat)
    requires n > 1 && i < NodeCount(n, keySize)
    ensures Lo(keySize, i) < Hi(keySize, n, i) <= n
    ensures Hi(keySize, n, i) - Lo(keySize, i) <= Per1(keySize)
    ensures i + 1 < NodeCount(n, keySize) ==> Hi(keySize, n, i) == Lo(keySize, i + 1) == Lo(keySize, i) + Per1(keySize)
    ensures i + 1 == NodeCount(n, keySize) ==> Hi(keySize, n, i) == n
  {
    hide Per1, CeilDiv;
    var p, c := Per1(keySize), NodeCount(n, keySize);
    CeilBounds(n, p);
    MulMonotone(i + 1, c, p);
    OneMoreTimes(i, p);
    if i + 1 < c {
      MulMonotone(i + 2, c, p);
      OneMoreTimes(i + 1, p);
    } else {
      OneMoreTimes(c - 1, p);
    }
  }

  function NextNode(nodes: seq<Addr>, i: nat): Addr {
    if i + 1 < |nodes| then nodes[i + 1] else 0
  }

  ghost predicate NodeSliceOk(mem: Memory, keySize: nat, p: Pub, i: nat)
    requires |p.keys| == |p.recs| && |p.nodes| == NodeCount(|p.recs|, keySize) && i < |p.nodes|
  {
    SliceBounds(keySize, |p.recs|, i);
    var lo, hi := Lo(keySize, i), Hi(keySize, |p.recs|, i);
    && p.nodes[i] in mem && p.nodes[i] != 0 && p.nodes[i] % 256 == 0
    && NodeOk(mem[p.nodes[i]], keySize, p.keys[lo..hi], p.recs[lo..hi], NextNode(p.nodes, i))
  }

  /** The blocks of p hold exactly the bytes that p describes. */
  ghost predicate Content(mem: Memory, keySize: nat, p: Pub) {
    && KeySizeOk(keySize)
    && |p.keys| == |p.recs|
    && (forall j :: 0 <= j < |p.recs| ==> RecOk(mem, keySize, p.recs[j], p.keys[j]))
    && |p.nodes| == NodeCount(|p.recs|, keySize)
    && (forall i :: 0 <= i < |p.nodes| ==> NodeSliceOk(mem, keySize, p, i))
  }

  /** The address a walker starts from, 0 for an empty bucket. */
  function Entry(p: Pub): Addr {
    if |p.nodes| > 0 then p.nodes[0] else if |p.recs| > 0 then p.recs[0] else 0
  }

  ghost predicate Published(mem: Memory, keySize: nat, head: u64, p: Pub) {
    Content(mem, keySize, p) && head == Swab64(Entry(p))
  }

  /** Bytes outside the blocks of p do not matter to p. */
  lemma ContentDependsOnBlocks(mem: Memory, mem': Memory, keySize: nat, p: Pub)
    requires Content(mem, keySize, p)
    requires forall a :: a in Blocks(p) && a in mem ==> a in mem' && mem'[a] == mem[a]
    ensures Content(mem', keySize, p)
  {
    forall j | 0 <= j < |p.recs| ensures RecOk(mem', keySize, p.recs[j], p.keys[j]) {
      assert p.recs[j] in Blocks(p);
    }
    forall i | 0 <= i < |p.nodes| ensures NodeSliceOk(mem', keySize, p, i) {
      assert NodeSliceOk(mem, keySize, p, i);
      assert p.nodes[i] in Blocks(p);
    }
  }

  lemma BlocksAreLive(mem: Memory, keySize: nat, p: Pub)
    requires Content(mem, keySize, p)
    ensures forall a :: a in Blocks(p) ==> a in mem && a != 0
  {
    forall a | a in Blocks(p) ensures a in mem && a != 0 {
      if a in p.nodes {
        var i :| 0 <= i < |p.nodes| && p.nodes[i] == a;
        assert NodeSliceOk(mem, keySize, p, i);
      } else {
        var j :| 0 <= j < |p.recs| && p.recs[j] == a;
      }
    }
  }

  /** The first record in index order whose key is key, 0 if there is none. */
  function FirstMatch(recs: seq<Addr>, keys: seq<seq<byte>>, key: seq<byte>): (hit: Addr)
    requires |recs| == |keys|
    ensures key !in keys ==> hit == 0
    ensures hit != 0 ==> hit in recs && key in keys
  {
    if recs == [] then 0
    else if keys[0] == key then recs[0]
    else FirstMatch(recs[1..], keys[1..], key)
  }

  function Answer(p: Pub, key: seq<byte>): Addr
    requires |p.recs| == |p.keys|
  {
    FirstMatch(p.recs, p.keys, key)
  }

  lemma {:induction false} FirstMatchAt(recs: seq<Addr>, keys: seq<seq<byte>>, key: seq<byte>, i: nat)
    requires |recs| == |keys| && i < |recs| && keys[i] == key
    requires forall j :: 0 <= j < i ==> keys[j] != key
    ensures FirstMatch(recs, keys, key) == recs[i]
  {
    if i > 0 {
      FirstMatchAt(recs[1..], keys[1..], key, i - 1);
    }
  }

  lemma {:induction false} FirstMatchSplit(recs: seq<Addr>, keys: seq<seq<byte>>, key: seq<byte>, i: nat)
    requires |recs| == |keys| && i <= |recs|
    requires forall j :: 0 <= j < |recs| ==> recs[j] != 0
    ensures FirstMatch(recs, keys, key) ==
            var h := FirstMatch(recs[..i], keys[..i], key);
            if h != 0 then h else FirstMatch(recs[i..], keys[i..], key)
  {
    if i > 0 {
      FirstMatchSplit(recs[1..], keys[1..], key, i - 1);
      assert recs[..i][1..] == recs[1..][..i - 1] && keys[..i][1..] == keys[1..][..i - 1];
      assert recs[i..] == recs[1..][i - 1..] && keys[i..] == keys[1..][i - 1..];
    } else {
      assert recs[i..] == recs && keys[i..] == keys;
    }
  }

  // ------------------------------------------------------------------ the walker

  datatype Fetch = Fault | End(hit: Addr) | Follow(next: Addr, hit: Addr)

  /** The first matching entry of a node from entry i on. */
  function Scan(b: seq<byte>, keySize: nat, key: seq<byte>, i: nat): Addr
    requires NodeReadable(b, keySize) && i <= b[1]
    decreases b[1] - i
  {
    if i == b[1] then 0
    else if KeyAt(b, keySize, i) == key then PtrAt(b, keySize, i)
    else Scan(b, keySize, key, i + 1)
  }

  /** Every entry of a node leads to a live record that carries the entry's key. */
  predicate EntriesLive(mem: Memory, keySize: nat, b: seq<byte>)
    requires NodeReadable(b, keySize)
  {
    forall i :: 0 <= i < b[1] ==> RecOk(mem, keySize, PtrAt(b, keySize, i), KeyAt(b, keySize, i))
  }

  /** One fetch at p. A freed, misaligned, half-built or wrong-kind block is a fault. */
  function FetchBlock(mem: Memory, keySize: nat, p: Addr, key: seq<byte>, hit: Addr): Fetch {
    if p !in mem || p % 256 != 0 then Fault
    else
      var b := mem[p];
      if |b| == FLOW_BLK_SIZE && FLOW_KEY_OFF + keySize <= FLOW_BLK_SIZE && !HasBit(b[0], CU_NODE) then
        End(if hit == 0 && b[FLOW_KEY_OFF..FLOW_KEY_OFF + keySize] == key then p else hit)
      else if NodeReadable(b, keySize) && EntriesLive(mem, keySize, b) then
        var h := if hit != 0 then hit else Scan(b, keySize, key, 0);
        if HasBit(b[0], CU_NEXT) then Follow(Get64(b[4..12]), h) else End(h)
      else Fault
  }

  lemma {:induction false} ScanIsFirstMatch(b: seq<byte>, keySize: nat, key: seq<byte>, i: nat,
                                            recs: seq<Addr>, keys: seq<seq<byte>>)
    requires NodeReadable(b, keySize) && i <= b[1] && b[1] == |recs| == |keys|
    requires forall j :: 0 <= j < |keys| ==> KeyAt(b, keySize, j) == keys[j] && PtrAt(b, keySize, j) == recs[j]
    ensures Scan(b, keySize, key, i) == FirstMatch(recs[i..], keys[i..], key)
    decreases |recs| - i
  {
    if i < |recs| {
      ScanIsFirstMatch(b, keySize, key, i + 1, recs, keys);
      assert recs[i..][1..] == recs[i + 1..] && keys[i..][1..] == keys[i + 1..];
    }
  }

  /** What the walker has found once it is past the first c entries of p. */
  function Before(p: Pub, c: nat, key: seq<byte>): Addr
    requires |p.recs| == |p.keys| && c <= |p.recs|
  {
    FirstMatch(p.recs[..c], p.keys[..c], key)
  }

  /** Fetching a finished node: the first match of its slice, then its link. */
  lemma FetchOkNode(mem: Memory, keySize: nat, a: Addr, recs: seq<Addr>, keys: seq<seq<byte>>, next: Addr,
                    key: seq<byte>, found: Addr)
    requires a in mem && a % 256 == 0 && NodeOk(mem[a], keySize, keys, recs, next)
    requires forall j :: 0 <= j < |recs| ==> RecOk(mem, keySize, recs[j], keys[j])
    ensures NodeReadable(mem[a], keySize) && EntriesLive(mem, keySize, mem[a])
    ensures FetchBlock(mem, keySize, a, key, found) ==
            var h := if found != 0 then found else FirstMatch(recs, keys, key);
            if next != 0 then Follow(next, h) else End(h)
  {
    var b := mem[a];
    NodeReadsBack(b, keySize, keys, recs, next);
    forall j | 0 <= j < b[1] ensures RecOk(mem, keySize, PtrAt(b, keySize, j), KeyAt(b, keySize, j)) {
      assert RecOk(mem, keySize, recs[j], keys[j]);
    }
    ScanIsFirstMatch(b, keySize, key, 0, recs, keys);
    assert recs[0..] == recs && keys[0..] == keys;
    if next != 0 { Get64OfBe64(next); }
  }

  lemma BeforeGrows(p: Pub, lo: nat, hi: nat, key: seq<byte>)
    requires |p.recs| == |p.keys| && lo <= hi <= |p.recs|
    requires forall j :: 0 <= j < |p.recs| ==> p.recs[j] != 0
    ensures Before(p, hi, key) ==
            if Before(p, lo, key) != 0 then Before(p, lo, key) else FirstMatch(p.recs[lo..hi], p.keys[lo..hi], key)
    ensures hi == |p.recs| ==> Before(p, hi, key) == Answer(p, key)
  {
    FirstMatchSplit(p.recs[..hi], p.keys[..hi], key, lo);
    assert p.recs[..hi][..lo] == p.recs[..lo] && p.keys[..hi][..lo] == p.keys[..lo];
    assert p.recs[..hi][lo..] == p.recs[lo..hi] && p.keys[..hi][lo..] == p.keys[lo..hi];
    if hi == |p.recs| { assert p.recs[..hi] == p.recs && p.keys[..hi] == p.keys; }
  }

  /** Fetching node i of a published bucket never faults and advances the search by its slice. */
  lemma FetchNode(mem: Memory, keySize: nat, p: Pub, i: nat, key: seq<byte>)
    requires Content(mem, keySize, p) && i < |p.nodes|
    ensures |p.recs| > 1 && Lo(keySize, i) <= Hi(keySize, |p.recs|, i) <= |p.recs|
    ensures FetchBlock(mem, keySize, p.nodes[i], key, Before(p, Lo(keySize, i), key)) ==
            if i + 1 < |p.nodes| then Follow(p.nodes[i + 1], Before(p, Hi(keySize, |p.recs|, i), key))
            else End(Answer(p, key))
  {
    SliceBounds(keySize, |p.recs|, i);
    var lo, hi := Lo(keySize, i), Hi(keySize, |p.recs|, i);
    assert NodeSliceOk(mem, keySize, p, i);
    if i + 1 < |p.nodes| { assert NodeSliceOk(mem, keySize, p, i + 1); }
    forall j | 0 <= j < hi - lo ensures RecOk(mem, keySize, p.recs[lo..hi][j], p.keys[lo..hi][j]) {
      assert RecOk(mem, keySize, p.recs[lo + j], p.keys[lo + j]);
    }
    FetchOkNode(mem, keySize, p.nodes[i], p.recs[lo..hi], p.keys[lo..hi], NextNode(p.nodes, i),
                key, Before(p, lo, key));
    BeforeGrows(p, lo, hi, key);
  }

  lemma OneNodeAtLeast(keySize: nat, n: nat)
    ensures n > 1 ==> NodeCount(n, keySize) >= 1
  {
    if n > 1 {
      MulMonotone(1, n, Per1(keySize));
      assert n + Per1(keySize) - 1 >= Per1(keySize);
    }
  }

  /** Fetching the bare record of a one-flow bucket ends the lookup with its answer. */
  lemma FetchRecord(mem: Memory, keySize: nat, p: Pub, key: seq<byte>)
    requires Content(mem, keySize, p) && p.nodes == [] && p.recs != [] && |key| == keySize
    ensures FetchBlock(mem, keySize, p.recs[0], key, 0) == End(Answer(p, key))
  {
    NodeFits(keySize, 0);
    OneNodeAtLeast(keySize, |p.recs|);
    assert RecOk(mem, keySize, p.recs[0], p.keys[0]);
    assert p.recs[1..] == [] && p.keys[1..] == [];
  }

  /** The walker's loop over the packed keys of one node. */
  method ScanNode(mem: Memory, keySize: nat, b: seq<byte>, key: seq<byte>, found: Addr) returns (hit: Addr)
    requires NodeReadable(b, keySize) && EntriesLive(mem, keySize, b)
    ensures hit == if found != 0 then found else Scan(b, keySize, key, 0)
  {
    hit := found;
    var count: nat := b[1];
    var e := 0;
    while e < count
      invariant 0 <= e <= count
      invariant found != 0 ==> hit == found
      invariant found == 0 && hit != 0 ==> Scan(b, keySize, key, 0) == hit
      invariant found == 0 && hit == 0 ==> Scan(b, keySize, key, 0) == Scan(b, keySize, key, e)
    {
      if hit == 0 && KeyAt(b, keySize, e) == key {
        hit := PtrAt(b, keySize, e);
      }
      e := e + 1;
    }
  }

  lemma EntryIsNull(mem: Memory, keySize: nat, p: Pub, key: seq<byte>)
    requires Content(mem, keySize, p)
    ensures Swab64(Entry(p)) == 0 <==> p.recs == []
    ensures Swab64(Swab64(Entry(p))) == Entry(p)
    ensures p.recs != [] ==> WalkAt(p, keySize, 0, Entry(p), 0, key)
  {
    SwabIsInvolutive(Entry(p));
    SwabIsZeroOnlyForNull(Entry(p));
    OneNodeAtLeast(keySize, |p.recs|);
    if p.nodes != [] { assert NodeSliceOk(mem, keySize, p, 0); }
  }

  /** Where the walker stands before its fetch number i. */
  ghost predicate WalkAt(p: Pub, keySize: nat, i: nat, ptr: Addr, hit: Addr, key: seq<byte>) {
    && |p.recs| == |p.keys|
    && if p.nodes == [] then i == 0 && p.recs != [] && ptr == p.recs[0] && hit == 0
       else i < |p.nodes| && ptr == p.nodes[i] && Lo(keySize, i) <= |p.recs| && hit == Before(p, Lo(keySize, i), key)
  }

  /** The outcome of that fetch: the next stand, or the answer after the last node. */
  ghost predicate WalkFetch(mem: Memory, p: Pub, keySize: nat, i: nat, ptr: Addr, hit: Addr, key: seq<byte>) {
    && |p.recs| == |p.keys|
    && match FetchBlock(mem, keySize, ptr, key, hit)
       case Fault => false
       case End(r) => r == Answer(p, key) && i + 1 == if p.nodes == [] then 1 else |p.nodes|
       case Follow(next, h) => i + 1 < |p.nodes| && WalkAt(p, keySize, i + 1, next, h, key)
  }

  /** No fetch of a published bucket faults; each one leads on towards the bucket's answer. */
  lemma WalkStep(mem: Memory, p: Pub, keySize: nat, i: nat, ptr: Addr, hit: Addr, key: seq<byte>)
    requires Content(mem, keySize, p) && |key| == keySize
    requires WalkAt(p, keySize, i, ptr, hit, key)
    ensures WalkFetch(mem, p, keySize, i, ptr, hit, key)
    ensures |p.nodes| == if |p.recs| <= 1 then 0 else CeilDiv(|p.recs|, Per(keySize))
    ensures p.nodes == [] ==> |p.recs| == 1
  {
    OneNodeAtLeast(keySize, |p.recs|);
    if p.nodes == [] {
      FetchRecord(mem, keySize, p, key);
    } else {
      FetchNode(mem, keySize, p, i, key);
      SliceBounds(keySize, |p.recs|, i);
    }
  }

  /** The outcome of a fetch in the walker's own terms. */
  lemma WalkReads(mem: Memory, p: Pub, keySize: nat, i: nat, ptr: Addr, hit: Addr, key: seq<byte>)
    requires WalkFetch(mem, p, keySize, i, ptr, hit, key)
    ensures ptr in mem && |mem[ptr]| >= CU_SIZE
    ensures !HasBit(mem[ptr][0], CU_NODE) ==> FLOW_KEY_OFF + keySize <= |mem[ptr]|
    ensures var b := mem[ptr];
            if !HasBit(b[0], CU_NODE) then
              && (if hit == 0 && b[FLOW_KEY_OFF..FLOW_KEY_OFF + keySize] == key then ptr else hit) == Answer(p, key)
              && i + 1 == if p.nodes == [] then 1 else |p.nodes|
            else
              && NodeReadable(b, keySize) && EntriesLive(mem, keySize, b)
              && var h := if hit != 0 then hit else Scan(b, keySize, key, 0);
              if HasBit(b[0], CU_NEXT) then i + 1 < |p.nodes| && WalkAt(p, keySize, i + 1, Get64(b[4..12]), h, key)
              else h == Answer(p, key) && i + 1 == if p.nodes == [] then 1 else |p.nodes|
  {
  }

  lemma PublishedIs(mem: Memory, keySize: nat, head: u64, p: Pub)
    requires Published(mem, keySize, head, p)
    ensures Content(mem, keySize, p) && head == Swab64(Entry(p)) && KeySizeOk(keySize) && |p.recs| == |p.keys|
    ensures p.recs == [] ==> forall key :: Answer(p, key) == 0
  {
  }

  /** A whole lookup on bytes: the record that key hits (0 for a miss) and the blocks fetched on the way. */
  method Walk(mem: Memory, keySize: nat, head: u64, key: seq<byte>, ghost p: Pub) returns (hit: Addr, fetched: nat)
    requires Published(mem, keySize, head, p) && |key| == keySize
    ensures hit == Answer(p, key)
    ensures fetched == if |p.recs| <= 1 then |p.recs| else CeilDiv(|p.recs|, Per(keySize))
  {
    hide Published, Content, Swab64, WalkAt, WalkFetch, NodeReadable, EntriesLive, Scan, Answer, Entry, HasBit, Get64,
      CeilDiv, Per;
    PublishedIs(mem, keySize, head, p);
    hit, fetched := 0, 0;
    EntryIsNull(mem, keySize, p, key);
    if head == 0 {
      return;
    }
    var ptr := Swab64(head);
    ghost var i := 0;
    while true
      invariant WalkAt(p, keySize, i, ptr, hit, key)
      invariant fetched == i
      decreases |p.nodes| - i
    {
      WalkStep(mem, p, keySize, i, ptr, hit, key);
      WalkReads(mem, p, keySize, i, ptr, hit, key);
      var b := mem[ptr];
      fetched := fetched + 1;
      if !HasBit(b[0], CU_NODE) {
        if hit == 0 && b[FLOW_KEY_OFF..FLOW_KEY_OFF + keySize] == key {
          hit := ptr;
        }
        return;
      }
      hit := ScanNode(mem, keySize, b, key, hit);
      if !HasBit(b[0], CU_NEXT) {
        return;
      }
      ptr := Get64(b[4..12]);
      i := i + 1;
    }
  }
}
