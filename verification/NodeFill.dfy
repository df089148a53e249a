/** How the publish loop fills a chain of zeroed nodes one entry at a time. */
module NodeFill {
  import opened Bytes
  import opened Layout
  import opened Bucket
  import opened Epoch
  import opened Options
  import opened EhashView

  /** Entries of node t written once the first done entries of the bucket are. */
  function Progress(keySize: nat, n: nat, t: nat, done: nat): nat
    requires n > 1 && t < NodeCount(n, keySize)
  {
    SliceBounds(keySize, n, t);
    var lo, hi := Lo(keySize, t), Hi(keySize, n, t);
    if done <= lo then 0 else if done >= hi then hi - lo else done - lo
  }

  ghost predicate PubShape(keySize: nat, p: Pub) {
    && KeySizeOk(keySize)
    && |p.keys| == |p.recs| > 1
    && |p.nodes| == NodeCount(|p.recs|, keySize)
    && (forall j :: 0 <= j < |p.keys| ==> |p.keys[j]| == keySize)
  }

  lemma SliceEntriesOk(keySize: nat, p: Pub, t: nat)
    requires PubShape(keySize, p) && t < |p.nodes|
    ensures Lo(keySize, t) < Hi(keySize, |p.recs|, t) <= |p.recs|
    ensures var lo, hi := Lo(keySize, t), Hi(keySize, |p.recs|, t);
            EntriesOk(keySize, hi - lo, p.keys[lo..hi], p.recs[lo..hi])
  {
    SliceBounds(keySize, |p.recs|, t);
  }

  ghost predicate NodeFilled(mem: Memory, keySize: nat, p: Pub, t: nat, k: nat)
    requires PubShape(keySize, p) && t < |p.nodes|
  {
    SliceEntriesOk(keySize, p, t);
    var lo, hi := Lo(keySize, t), Hi(keySize, |p.recs|, t);
    && p.nodes[t] in mem && p.nodes[t] != 0 && p.nodes[t] % 256 == 0
    && NodePartial(mem[p.nodes[t]], keySize, k, p.keys[lo..hi], p.recs[lo..hi], NextNode(p.nodes, t))
  }

  /** The chain after done entries. */
  ghost predicate Filling(mem: Memory, keySize: nat, p: Pub, done: nat)
    requires PubShape(keySize, p)
  {
    forall t :: 0 <= t < |p.nodes| ==> NodeFilled(mem, keySize, p, t, Progress(keySize, |p.recs|, t, done))
  }

  lemma FillStart(mem: Memory, keySize: nat, p: Pub)
    requires PubShape(keySize, p)
    requires forall a :: a in p.nodes ==> a in mem && a != 0 && a % 256 == 0 && mem[a] == Zeros(CU_SIZE)
    ensures Filling(mem, keySize, p, 0)
  {
    hide NodeFilled, Progress;
    forall t | 0 <= t < |p.nodes| ensures NodeFilled(mem, keySize, p, t, Progress(keySize, |p.recs|, t, 0)) {
      NodeStart(mem, keySize, p, t);
    }
  }

  /** A zeroed node holds none of its entries. */
  lemma NodeStart(mem: Memory, keySize: nat, p: Pub, t: nat)
    requires PubShape(keySize, p) && t < |p.nodes|
    requires forall a :: a in p.nodes ==> a in mem && a != 0 && a % 256 == 0 && mem[a] == Zeros(CU_SIZE)
    ensures Progress(keySize, |p.recs|, t, 0) == 0 && NodeFilled(mem, keySize, p, t, 0)
  {
    hide EntriesOk, NodePartial, Lo, Hi;
    SliceEntriesOk(keySize, p, t);
    assert p.nodes[t] in p.nodes;
    var lo, hi := Lo(keySize, t), Hi(keySize, |p.recs|, t);
    ZeroedIsPartial(keySize, p.keys[lo..hi], p.recs[lo..hi], NextNode(p.nodes, t));
  }

  lemma ZeroedIsPartial(keySize: nat, keys: seq<seq<byte>>, ptrs: seq<u64>, next: u64)
    requires EntriesOk(keySize, |keys|, keys, ptrs)
    ensures NodePartial(Zeros(CU_SIZE), keySize, 0, keys, ptrs, next)
  {
    hide HeaderOk, EntryOk;
    NodeFits(keySize, |keys|);
  }

  /** Writing entry k of node i completes entry done of the bucket and no other. */
  lemma FillNext(mem: Memory, mem': Memory, keySize: nat, p: Pub, done: nat, i: nat, k: nat)
    requires PubShape(keySize, p) && Filling(mem, keySize, p, done)
    requires i < |p.nodes| && done == Lo(keySize, i) + k < Hi(keySize, |p.recs|, i)
    requires NodeFilled(mem', keySize, p, i, k + 1)
    requires forall t :: 0 <= t < |p.nodes| && t != i ==> p.nodes[t] in mem && p.nodes[t] in mem' && mem'[p.nodes[t]] == mem[p.nodes[t]]
    ensures Filling(mem', keySize, p, done + 1)
  {
    var d := done + 1;
    forall t | 0 <= t < |p.nodes| ensures NodeFilled(mem', keySize, p, t, Progress(keySize, |p.recs|, t, d)) {
      SliceBounds(keySize, |p.recs|, t);
      if t < i {
        MulMonotone(t + 1, i, Per1(keySize));
      } else if i < t {
        MulMonotone(i + 1, t, Per1(keySize));
      }
      assert NodeFilled(mem, keySize, p, t, Progress(keySize, |p.recs|, t, done));
    }
  }

  lemma FillDone(mem: Memory, keySize: nat, p: Pub)
    requires PubShape(keySize, p) && Filling(mem, keySize, p, |p.recs|)
    requires forall j :: 0 <= j < |p.recs| ==> RecOk(mem, keySize, p.recs[j], p.keys[j])
    ensures Content(mem, keySize, p)
  {
    forall t | 0 <= t < |p.nodes| ensures NodeSliceOk(mem, keySize, p, t) {
      SliceEntriesOk(keySize, p, t);
      assert NodeFilled(mem, keySize, p, t, Progress(keySize, |p.recs|, t, |p.recs|));
    }
  }

  /** The node before entry k is stored: opened if k is its first entry. */
  function Opened(b: seq<byte>, keySize: nat, m: nat, k: nat, next: Addr): (r: seq<byte>)
    requires |b| == CU_SIZE && KeySizeOk(keySize) && m <= Per(keySize)
    ensures |r| == CU_SIZE
  {
    if k == 0 then WithHeader(b, keySize, m, next) else b
  }

  /** The node after entry k is stored at the offsets the publish loop computes. */
  function Stored(b: seq<byte>, keySize: nat, m: nat, k: nat, key: seq<byte>, ptr: Addr, next: Addr): (r: seq<byte>)
    requires |b| == CU_SIZE && KeySizeOk(keySize) && k < m <= Per(keySize) && |key| == keySize
    requires k > 0 ==> b[3] == PtrBase(keySize, m)
    ensures |r| == CU_SIZE
  {
    OpenedHeader(b, keySize, m, k, next);
    var h := Opened(b, keySize, m, k, next);
    Splice(Splice(h, KeyOff(keySize, k), key), PtrPos(h, k), Be64(ptr))
  }

  lemma OpenedHeader(b: seq<byte>, keySize: nat, m: nat, k: nat, next: Addr)
    requires |b| == CU_SIZE && KeySizeOk(keySize) && k < m <= Per(keySize)
    requires k > 0 ==> b[3] == PtrBase(keySize, m)
    ensures Opened(b, keySize, m, k, next)[3] == PtrBase(keySize, m)
    ensures PtrPos(Opened(b, keySize, m, k, next), k) == PtrOff(keySize, m, k)
    ensures KeyOff(keySize, k) >= CU_KEYS_OFF && KeyOff(keySize, k) + keySize <= CU_SIZE
    ensures PtrOff(keySize, m, k) + CU_PTR_SIZE <= CU_SIZE
  {
    NodeFits(keySize, m);
    EntryFits(keySize, m, k);
    if k == 0 { HeaderWritten(b, keySize, m, next); }
  }

  /** Stored in terms of the two stores after the header. */
  lemma StoredBytes(b: seq<byte>, keySize: nat, m: nat, k: nat, key: seq<byte>, ptr: Addr, next: Addr)
    requires |b| == CU_SIZE && KeySizeOk(keySize) && k < m <= Per(keySize) && |key| == keySize
    requires k > 0 ==> b[3] == PtrBase(keySize, m)
    ensures var h := Opened(b, keySize, m, k, next);
            && |h| == CU_SIZE && KeyOff(keySize, k) + |key| <= CU_SIZE && PtrPos(h, k) + 8 <= CU_SIZE
            && Stored(b, keySize, m, k, key, ptr, next) == Splice(Splice(h, KeyOff(keySize, k), key), PtrPos(h, k), Be64(ptr))
  {
    OpenedHeader(b, keySize, m, k, next);
  }

  lemma StoredGrows(b: seq<byte>, keySize: nat, k: nat, keys: seq<seq<byte>>, recs: seq<Addr>, next: Addr)
    requires EntriesOk(keySize, |keys|, keys, recs) && k < |keys|
    requires NodePartial(b, keySize, k, keys, recs, next)
    ensures NodePartial(Stored(b, keySize, |keys|, k, keys[k], recs[k], next), keySize, k + 1, keys, recs, next)
  {
    NodeGrows(b, keySize, k, keys, recs, next);
    OpenedHeader(b, keySize, |keys|, k, next);
  }

  /** The entry after the first done ones: its key, its record, its node's count and link. */
  lemma FillStep(mem: Memory, keySize: nat, p: Pub, done: nat, i: nat, k: nat)
    requires PubShape(keySize, p) && Filling(mem, keySize, p, done) && NoDup(p.nodes)
    requires i < |p.nodes| && done == Lo(keySize, i) + k < Hi(keySize, |p.recs|, i)
    ensures done < |p.recs| && p.nodes[i] in mem && |mem[p.nodes[i]]| == CU_SIZE
    ensures var m := Hi(keySize, |p.recs|, i) - Lo(keySize, i);
            && m <= Per(keySize) && (k > 0 ==> mem[p.nodes[i]][3] == PtrBase(keySize, m))
            && Filling(mem[p.nodes[i] := Stored(mem[p.nodes[i]], keySize, m, k, p.keys[done], p.recs[done], NextNode(p.nodes, i))],
                       keySize, p, done + 1)
  {
    SliceEntriesOk(keySize, p, i);
    SliceBounds(keySize, |p.recs|, i);
    var lo, hi := Lo(keySize, i), Hi(keySize, |p.recs|, i);
    assert NodeFilled(mem, keySize, p, i, Progress(keySize, |p.recs|, i, done));
    var keys, recs := p.keys[lo..hi], p.recs[lo..hi];
    assert keys[k] == p.keys[done] && recs[k] == p.recs[done];
    StoredGrows(mem[p.nodes[i]], keySize, k, keys, recs, NextNode(p.nodes, i));
    var mem' := mem[p.nodes[i] := Stored(mem[p.nodes[i]], keySize, hi - lo, k, keys[k], recs[k], NextNode(p.nodes, i))];
    forall t | 0 <= t < |p.nodes| && t != i ensures p.nodes[t] in mem && p.nodes[t] in mem' && mem'[p.nodes[t]] == mem[p.nodes[t]] {
      assert NodeFilled(mem, keySize, p, t, Progress(keySize, |p.recs|, t, done));
    }
    FillNext(mem, mem', keySize, p, done, i, k);
  }

  /** Entries in node i: min(per, n - i * per). */
  function SlotCount(keySize: nat, n: nat, i: nat): nat {
    if Per1(keySize) <= n - i * Per1(keySize) then Per1(keySize)
    else if i * Per1(keySize) <= n then n - i * Per1(keySize) else 0
  }

  /** Entry done of the bucket is entry k of node i. */
  predicate Slot(keySize: nat, n: nat, done: nat, i: nat, k: nat) {
    && i < NodeCount(n, keySize)
    && done == Lo(keySize, i) + k
    && k < SlotCount(keySize, n, i)
  }

  lemma SlotIs(keySize: nat, n: nat, done: nat, i: nat, k: nat)
    requires n > 1 && i < NodeCount(n, keySize) && done == Lo(keySize, i) + k
    ensures Lo(keySize, i) < Hi(keySize, n, i) <= n
    ensures SlotCount(keySize, n, i) == Hi(keySize, n, i) - Lo(keySize, i)
    ensures Slot(keySize, n, done, i, k) <==> done < Hi(keySize, n, i)
  {
    SliceBounds(keySize, n, i);
    assert (i + 1) * Per1(keySize) == i * Per1(keySize) + Per1(keySize);
  }

  lemma FirstSlot(keySize: nat, n: nat)
    requires n > 1
    ensures Slot(keySize, n, 0, 0, 0)
  {
    OneNodeAtLeast(keySize, n);
    SlotIs(keySize, n, 0, 0, 0);
  }

  /** Where the loop goes after entry done: the next entry of node i, or entry 0 of node i + 1. */
  lemma NextSlot(keySize: nat, n: nat, done: nat, i: nat, k: nat)
    requires n > 1 && Slot(keySize, n, done, i, k) && done + 1 < n
    ensures if k + 1 == SlotCount(keySize, n, i) then Slot(keySize, n, done + 1, i + 1, 0)
            else Slot(keySize, n, done + 1, i, k + 1)
  {
    SlotIs(keySize, n, done, i, k);
    SliceBounds(keySize, n, i);
    if k + 1 == SlotCount(keySize, n, i) {
      SlotIs(keySize, n, done + 1, i + 1, 0);
      SliceBounds(keySize, n, i + 1);
    } else {
      SlotIs(keySize, n, done + 1, i, k + 1);
    }
  }

  /** The loop counters after done entries: node i, entry k. */
  function Counters(keySize: nat, n: nat, done: nat): (nat, nat) {
    if done == 0 then (0, 0)
    else
      var (i, k) := Counters(keySize, n, done - 1);
      if k + 1 == SlotCount(keySize, n, i) then (i + 1, 0) else (i, k + 1)
  }

  lemma {:induction false} CountersAreSlot(keySize: nat, n: nat, done: nat)
    requires n > 1 && done < n
    ensures Slot(keySize, n, done, Counters(keySize, n, done).0, Counters(keySize, n, done).1)
  {
    if done == 0 {
      FirstSlot(keySize, n);
    } else {
      CountersAreSlot(keySize, n, done - 1);
      var (i, k) := Counters(keySize, n, done - 1);
      NextSlot(keySize, n, done - 1, i, k);
    }
  }

  lemma CountersStep(keySize: nat, n: nat, done: nat, i: nat, k: nat)
    requires (i, k) == Counters(keySize, n, done)
    ensures Counters(keySize, n, done + 1) == if k + 1 == SlotCount(keySize, n, i) then (i + 1, 0) else (i, k + 1)
  {
  }

  /** The node that entry done goes to can take it. */
  predicate Ready(mem: Memory, keySize: nat, p: Pub, done: nat, i: nat, k: nat) {
    && KeySizeOk(keySize)
    && |p.keys| == |p.recs| && done < |p.recs| && |p.keys[done]| == keySize
    && i < |p.nodes| && p.nodes[i] in mem && |mem[p.nodes[i]]| == CU_SIZE
    && k < SlotCount(keySize, |p.recs|, i) <= Per(keySize)
    && (k > 0 ==> mem[p.nodes[i]][3] == PtrBase(keySize, SlotCount(keySize, |p.recs|, i)))
  }

  /** The node after its entry k has been stored. */
  function StoredIn(mem: Memory, keySize: nat, p: Pub, done: nat, i: nat, k: nat): seq<byte>
    requires Ready(mem, keySize, p, done, i, k)
  {
    Stored(mem[p.nodes[i]], keySize, SlotCount(keySize, |p.recs|, i), k, p.keys[done], p.recs[done], NextNode(p.nodes, i))
  }

  /** Memory after the first done entries. */
  function FillTo(mem: Memory, keySize: nat, p: Pub, done: nat): Memory {
    if done == 0 then mem
    else
      var before := FillTo(mem, keySize, p, done - 1);
      var (i, k) := Counters(keySize, |p.recs|, done - 1);
      if Ready(before, keySize, p, done - 1, i, k) then
        before[p.nodes[i] := StoredIn(before, keySize, p, done - 1, i, k)]
      else before
  }

  ghost predicate Zeroed(mem: Memory, keySize: nat, p: Pub) {
    && PubShape(keySize, p) && NoDup(p.nodes)
    && forall a :: a in p.nodes ==> a in mem && a != 0 && a % 256 == 0 && mem[a] == Zeros(CU_SIZE)
  }

  lemma FillReady(mem: Memory, keySize: nat, p: Pub, done: nat, i: nat, k: nat)
    requires PubShape(keySize, p) && NoDup(p.nodes) && done < |p.recs| && Slot(keySize, |p.recs|, done, i, k)
    requires Filling(mem, keySize, p, done)
    ensures Ready(mem, keySize, p, done, i, k)
    ensures Filling(mem[p.nodes[i] := StoredIn(mem, keySize, p, done, i, k)], keySize, p, done + 1)
  {
    hide Filling, NodeFilled, Stored;
    SlotIs(keySize, |p.recs|, done, i, k);
    FillStep(mem, keySize, p, done, i, k);
    SliceEntriesOk(keySize, p, i);
  }

  lemma {:induction false} FillToFills(mem: Memory, keySize: nat, p: Pub, done: nat)
    requires Zeroed(mem, keySize, p) && done <= |p.recs|
    ensures Filling(FillTo(mem, keySize, p, done), keySize, p, done)
  {
    if done == 0 {
      FillStart(mem, keySize, p);
    } else {
      var (i, k) := Counters(keySize, |p.recs|, done - 1);
      FillToFills(mem, keySize, p, done - 1);
      CountersAreSlot(keySize, |p.recs|, done - 1);
      FillReady(FillTo(mem, keySize, p, done - 1), keySize, p, done - 1, i, k);
    }
  }

  /** Filling touches nothing but the nodes. */
  lemma {:induction false} FillToFrame(mem: Memory, keySize: nat, p: Pub, done: nat)
    ensures FillTo(mem, keySize, p, done).Keys == mem.Keys
    ensures forall a :: a in mem && a !in p.nodes ==> FillTo(mem, keySize, p, done)[a] == mem[a]
  {
    if done > 0 {
      FillToFrame(mem, keySize, p, done - 1);
    }
  }

  /** What one iteration of the loop needs and does. */
  lemma FillIteration(mem: Memory, keySize: nat, p: Pub, done: nat, i: nat, k: nat)
    requires Zeroed(mem, keySize, p) && done < |p.recs| && (i, k) == Counters(keySize, |p.recs|, done)
    ensures Ready(FillTo(mem, keySize, p, done), keySize, p, done, i, k)
    ensures FillTo(mem, keySize, p, done + 1) ==
            FillTo(mem, keySize, p, done)[p.nodes[i] := StoredIn(FillTo(mem, keySize, p, done), keySize, p, done, i, k)]
  {
    FillToFills(mem, keySize, p, done);
    CountersAreSlot(keySize, |p.recs|, done);
    FillReady(FillTo(mem, keySize, p, done), keySize, p, done, i, k);
  }

  /** Memory with freshly allocated nodes. */
  function Grown(mem: Memory, nodes: seq<Addr>): Memory {
    mem + map a | a in Elems(nodes) :: Zeros(CU_SIZE)
  }

  /** mem is m0 plus the blocks nodes, everything else as it was. */
  ghost predicate Built(m0: Memory, mem: Memory, nodes: seq<Addr>) {
    && NoDup(nodes) && Elems(nodes) !! m0.Keys
    && mem.Keys == m0.Keys + Elems(nodes)
    && (forall a :: a in m0 ==> mem[a] == m0[a])
  }

  lemma GrownByOne(mem: Memory, nodes: seq<Addr>, a: Addr)
    requires a !in nodes
    ensures Grown(mem, nodes)[a := Zeros(CU_SIZE)] == Grown(mem, nodes + [a])
  {
    assert Elems(nodes + [a]) == Elems(nodes) + {a};
  }

  ghost predicate FlowsReadable(mem: Memory, keySize: nat, fs: seq<Flow>) {
    forall f :: f in fs ==> RecOk(mem, keySize, f.rec, KeyOf(mem, keySize, f.rec))
  }

  /** No flow or one: the head names nothing or the bare record. */
  lemma SmallPublished(mem: Memory, keySize: nat, fs: seq<Flow>)
    requires KeySizeOk(keySize) && |fs| <= 1 && FlowsReadable(mem, keySize, fs)
    ensures Published(mem, keySize, Swab64(if |fs| == 1 then fs[0].rec else 0), PubOf(mem, keySize, [], fs))
    ensures fs == [] ==> Published(mem, keySize, 0, PubOf(mem, keySize, [], fs))
  {
    SwabIsZeroOnlyForNull(0);
    if fs != [] { assert fs[0] in fs; }
  }

  /** More flows: the filled chain is the bucket's image. */
  lemma ChainPublished(m0: Memory, keySize: nat, nodes: seq<Addr>, fs: seq<Flow>)
    requires KeySizeOk(keySize) && |fs| > 1 && FlowsReadable(m0, keySize, fs)
    requires NoDup(nodes) && |nodes| == NodeCount(|fs|, keySize) && Elems(nodes) !! m0.Keys
    requires forall a :: a in nodes ==> a != 0 && a % 256 == 0
    ensures |nodes| > 0
    ensures var p := PubOf(m0, keySize, nodes, fs);
            && PubOf(Grown(m0, nodes), keySize, nodes, fs) == p
            && Zeroed(Grown(m0, nodes), keySize, p)
            && Built(m0, FillTo(Grown(m0, nodes), keySize, p, |fs|), nodes)
            && Published(FillTo(Grown(m0, nodes), keySize, p, |fs|), keySize, Swab64(nodes[0]), p)
  {
    OneNodeAtLeast(keySize, |fs|);
    NodeFits(keySize, 0);
    var m1 := Grown(m0, nodes);
    var p := PubOf(m0, keySize, nodes, fs);
    forall i | 0 <= i < |fs| ensures RecOk(m0, keySize, fs[i].rec, p.keys[i]) && fs[i].rec !in nodes && |p.keys[i]| == keySize {
      assert fs[i] in fs;
    }
    forall i | 0 <= i < |fs| ensures KeyOf(m1, keySize, fs[i].rec) == p.keys[i] {
      assert fs[i] in fs;
    }
    assert KeysOf(m1, keySize, fs) == p.keys;
    FillToFills(m1, keySize, p, |fs|);
    FillToFrame(m1, keySize, p, |fs|);
    FillDone(FillTo(m1, keySize, p, |fs|), keySize, p);
  }

  /** The kept flows of a list prefix are a prefix of the kept flows; a kept flow comes right after it. */
  lemma {:induction false} KeepPrefix(fs: seq<Flow>, skip: Option<Flow>, j: nat)
    requires j <= |fs|
    ensures KeepTo(fs, skip, j) <= Keep(fs, skip)
    ensures j < |fs| && skip != Some(fs[j]) ==>
              |KeepTo(fs, skip, j)| < |Keep(fs, skip)| && Keep(fs, skip)[|KeepTo(fs, skip, j)|] == fs[j]
    decreases |fs| - j
  {
    if j < |fs| {
      KeepPrefix(fs, skip, j + 1);
    }
  }

  /** Everything the loop over the bucket list needs about its flow number j. */
  lemma ListIteration(m0: Memory, keySize: nat, fs: seq<Flow>, skip: Option<Flow>, p: Pub, j: nat)
    requires j < |fs| && KeySizeOk(keySize) && FlowsReadable(m0, keySize, fs)
    requires p.recs == RecsOf(Keep(fs, skip)) && p.keys == KeysOf(m0, keySize, Keep(fs, skip))
    requires forall f :: f in fs ==> f.rec !in p.nodes
    ensures var done := |KeepTo(fs, skip, j)|;
            var mem := FillTo(m0, keySize, p, done);
            if skip == Some(fs[j]) then |KeepTo(fs, skip, j + 1)| == done
            else
              && |KeepTo(fs, skip, j + 1)| == done + 1 <= |p.recs|
              && p.recs[done] == fs[j].rec && fs[j].rec in mem && FLOW_KEY_OFF + keySize <= |mem[fs[j].rec]|
              && KeyOf(mem, keySize, fs[j].rec) == p.keys[done]
  {
    KeepPrefix(fs, skip, j);
    assert fs[j] in fs;
    FillToFrame(m0, keySize, p, |KeepTo(fs, skip, j)|);
  }
}
