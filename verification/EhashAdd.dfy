/** Insert, on values: from the table before the call to the table after it. */
module EhashAdd {
  import opened Bytes
  import opened Layout
  import opened Bucket
  import opened Epoch
  import opened Options
  import opened EhashView
  import opened EhashSteps
  import opened NodeFill

  /** A complete record block as the emitter leaves it. */
  predicate RecordBytesOk(rec: seq<byte>) {
    |rec| == FLOW_BLK_SIZE && !HasBit(rec[0], CU_NODE)
  }

  /** The key a record block carries. */
  function KeyIn(rec: seq<byte>, keySize: nat): seq<byte>
    requires |rec| == FLOW_BLK_SIZE && KeySizeOk(keySize)
  {
    rec[FLOW_KEY_OFF..FLOW_KEY_OFF + keySize]
  }

  /** fman_pcd_ehash_bucket_index */
  function BucketIndex(crc: seq<byte> -> nat, key: seq<byte>, buckets: nat): (b: nat)
    requires buckets > 0
    ensures b < buckets
  {
    crc(key) % buckets
  }

  /** SYNC touches nothing but the SYNC state. */
  predicate SyncOnly(w: World, w': World) {
    w' == w.(armed := w'.armed, mark := w'.mark)
  }

  lemma SyncKeeps(v: View, crc: seq<byte> -> nat, w': World)
    requires Coherent(v, crc) && SyncOnly(v.w, w') && WorldOk(w')
    ensures Coherent(v.(w := w'), crc)
    ensures DarkOk(v) ==> DarkOk(v.(w := w'))
    ensures KeptRecords(v.(w := w')) == KeptRecords(v) && KeptNodes(v.(w := w')) == KeptNodes(v)
  {
    var v' := v.(w := w');
    forall b, f | 0 <= b < |v.bidx| && f in v.bidx[b] ensures FlowOk(w', crc, |v.bidx|, b, f) {
      assert FlowOk(v.w, crc, |v.bidx|, b, f);
    }
    forall a | a in v'.owner ensures OwnedAs(v', a, v'.owner[a]) {
      assert OwnedAs(v, a, v.owner[a]);
    }
  }

  /** Blocks outside s that were live before are live and untouched after. */
  ghost predicate Untouched(mem: Memory, mem': Memory, s: set<Addr>) {
    forall a :: a in mem && a !in s ==> a in mem' && mem'[a] == mem[a]
  }

  /** Every bucket but b exposes what it exposed. */
  ghost predicate OthersAsBefore(w: World, w': World, b: nat) {
    && |w'.heads| == |w.heads| && |w'.pubs| == |w.pubs|
    && (forall c :: 0 <= c < |w.heads| && c != b ==> w'.heads[c] == w.heads[c])
    && (forall c :: 0 <= c < |w.pubs| && c != b ==> w'.pubs[c] == w.pubs[c])
  }

  /** The table with the new record written but linked nowhere. */
  lemma AddBegin(v: View, crc: seq<byte> -> nat, a: Addr, rec: seq<byte>, b: nat)
    requires ViewOk(v, crc) && RecordBytesOk(rec) && b == BucketIndex(crc, KeyIn(rec, v.w.keySize), |v.bidx|)
    requires a != 0 && a % 256 == 0 && a !in v.w.mem
    ensures a !in v.w.stamp && a !in v.owner
    ensures WithLoose(WithLoose(v, a, Zeros(FLOW_BLK_SIZE)), a, rec) == WithLoose(v, a, rec)
    ensures var v1 := WithLoose(v, a, rec);
            && ViewOk(v1, crc) && AllKept(v1, {a})
            && Without(v1, {a}) == v
            && a !in Reach(v1.w) && Quiet(v1.w, a) && a in v1.w.mem
            && KeptRecords(v1) == KeptRecords(v) + {a} && KeptNodes(v1) == KeptNodes(v)
            && FlowsFit(v1, crc, b, [Flow(a, b, v.w.keySize)] + v.bidx[b])
  {
    var v1 := WithLoose(v, a, rec);
    LooseKeeps(v, crc, a, rec);
    LooseTwice(v, a, Zeros(FLOW_BLK_SIZE), rec);
    LooseUndone(v, a, rec);
    KeptIsUnreachable(v1, crc, {a});
    NewFlowFits(v, v1, crc, a, rec, b);
  }

  lemma LooseTwice(v: View, a: Addr, x: seq<byte>, y: seq<byte>)
    ensures WithLoose(WithLoose(v, a, x), a, y) == WithLoose(v, a, y)
  {
    assert v.w.mem[a := x][a := y] == v.w.mem[a := y];
    assert v.owner[a := KeptRecord][a := KeptRecord] == v.owner[a := KeptRecord];
  }

  lemma LooseUndone(v: View, a: Addr, x: seq<byte>)
    requires a !in v.w.mem && a !in v.owner && a !in v.w.stamp
    ensures Without(WithLoose(v, a, x), {a}) == v
  {
    assert v.w.mem[a := x] - {a} == v.w.mem;
    assert v.owner[a := KeptRecord] - {a} == v.owner;
    assert v.w.stamp - {a} == v.w.stamp;
  }

  lemma NewFlowFits(v: View, v1: View, crc: seq<byte> -> nat, a: Addr, rec: seq<byte>, b: nat)
    requires Coherent(v, crc) && KeySizeOk(v.w.keySize) && RecordBytesOk(rec)
    requires b == BucketIndex(crc, KeyIn(rec, v.w.keySize), |v.bidx|)
    requires a != 0 && a % 256 == 0 && a !in v.owner
    requires v1 == WithLoose(v, a, rec) && Coherent(v1, crc)
    ensures FlowsFit(v1, crc, b, [Flow(a, b, v.w.keySize)] + v.bidx[b])
  {
    hide WorldOk, HeadsOk, AllOwned, NodesOwned;
    var f := Flow(a, b, v.w.keySize);
    assert FlowOk(v1.w, crc, |v1.bidx|, b, f);
    forall i | 0 <= i < |v.bidx[b]| ensures v.bidx[b][i].rec != a {
      assert v.bidx[b][i] in v.bidx[b];
    }
    assert RecsOf([f] + v.bidx[b]) == [a] + RecsOf(v.bidx[b]);
  }

  lemma FitIsReadable(v: View, crc: seq<byte> -> nat, b: nat, fs: seq<Flow>)
    requires FlowsFit(v, crc, b, fs)
    ensures FlowsReadable(v.w.mem, v.w.keySize, fs)
  {
    forall f | f in fs ensures RecOk(v.w.mem, v.w.keySize, f.rec, KeyOf(v.w.mem, v.w.keySize, f.rec)) {
      assert FlowOk(v.w, crc, |v.bidx|, b, f);
    }
  }

  /** Bucket b rebuilt around the flows fs: everything but the flow list and the block owners. */
  function Switched(v: View, b: nat, nodes: seq<Addr>, head: u64, pub: Pub, mem: Memory): View
    requires b < |v.cu|
  {
    v.(w := Apply(v.w.(mem := mem), HeadStore(b, head, pub)), cu := v.cu[b := nodes])
  }

  /** A successful bucket_publish of fs. */
  ghost predicate Publishes(v: View, b: nat, fs: seq<Flow>, nodes: seq<Addr>, head: u64, mem: Memory) {
    && Built(v.w.mem, mem, nodes)
    && Published(mem, v.w.keySize, head, PubOf(v.w.mem, v.w.keySize, nodes, fs))
  }

  lemma PublishesFits(v: View, crc: seq<byte> -> nat, b: nat, fs: seq<Flow>, nodes: seq<Addr>, head: u64, mem: Memory,
                      dark: set<nat>)
    requires Coherent(v, crc) && FlowsFit(v, crc, b, fs) && Publishes(v, b, fs, nodes, head, mem)
    requires b !in dark && forall c :: c != b ==> (c in dark <==> c in v.dark)
    ensures PubOf(mem, v.w.keySize, nodes, fs) == PubOf(v.w.mem, v.w.keySize, nodes, fs)
    ensures NodesFit(v, b, nodes, mem)
    ensures ImageFits(v, b, fs, nodes, head, PubOf(mem, v.w.keySize, nodes, fs), mem, dark)
  {
    hide WorldOk, HeadsOk, ListsOk, FlowsOk, AllOwned, NodesOwned, IndexOwned;
    forall i | 0 <= i < |fs| ensures KeyOf(mem, v.w.keySize, fs[i].rec) == KeyOf(v.w.mem, v.w.keySize, fs[i].rec) {
      assert fs[i] in fs;
    }
    var p := PubOf(v.w.mem, v.w.keySize, nodes, fs);
    forall a | a in nodes ensures |mem[a]| == CU_SIZE {
      var i :| 0 <= i < |nodes| && nodes[i] == a;
      assert NodeSliceOk(mem, v.w.keySize, p, i);
    }
  }

  /** After the SYNC either the replaced blocks s are freed or, if it timed out, they stay kept. */
  function Settle(v: View, w': World, s: set<Addr>, freed: bool): View {
    if freed then Without(v.(w := w'), s) else v.(w := w')
  }

  lemma SettleKeeps(v: View, crc: seq<byte> -> nat, w': World, s: set<Addr>, freed: bool)
    requires Coherent(v, crc) && DarkOk(v) && AllKept(v, s)
    requires SyncOnly(v.w, w') && WorldOk(w')
    ensures s !! Reach(w') && s <= w'.mem.Keys
    ensures w'.mark == w'.stores ==> forall a :: a in s ==> Quiet(w', a)
    ensures ViewOk(Settle(v, w', s, freed), crc)
    ensures KeptRecords(Settle(v, w', s, freed)) == KeptRecords(v) - if freed then s else {}
    ensures KeptNodes(Settle(v, w', s, freed)) == KeptNodes(v) - if freed then s else {}
  {
    var v' := v.(w := w');
    hide Coherent, DarkOk, KeptRecords, KeptNodes;
    SyncKeeps(v, crc, w');
    KeptIsUnreachable(v', crc, s);
    WithoutKeeps(v', crc, s);
  }

  /** The table with flow f inserted: v1 holds its record, bucket f.index is rebuilt with f first. */
  function Inserted(v1: View, f: Flow, nodes: seq<Addr>, head: u64, mem: Memory): View
    requires f.index < |v1.bidx| == |v1.cu|
  {
    var fs := [f] + v1.bidx[f.index];
    var pub := PubOf(v1.w.mem, v1.w.keySize, nodes, fs);
    Rebuild(v1, Change(f.index, fs, nodes, head, pub, mem, [f] + v1.flows, v1.dark - {f.index}))
  }

  lemma NewListFits(v1: View, crc: seq<byte> -> nat, f: Flow)
    requires Coherent(v1, crc) && f.index < |v1.bidx| && f.rec in v1.owner && v1.owner[f.rec] == KeptRecord
    ensures ListFits(v1, f.index, [f] + v1.bidx[f.index], [f] + v1.flows)
  {
    hide WorldOk, HeadsOk, FlowsOk, AllOwned, NodesOwned;
    assert f !in v1.flows;
  }

  /** What bucket b had is neither kept nor new. */
  lemma BucketIsNotKept(v: View, crc: seq<byte> -> nat, b: nat)
    requires Coherent(v, crc) && b < |v.bidx|
    ensures Elems(RecsOf(v.bidx[b])) !! KeptRecords(v) && Elems(RecsOf(v.bidx[b])) <= v.owner.Keys
    ensures Elems(v.cu[b]) !! KeptNodes(v) && Elems(v.cu[b]) !! KeptRecords(v) && Elems(v.cu[b]) <= v.owner.Keys
    ensures v.owner.Keys == v.w.mem.Keys
  {
    hide WorldOk, HeadsOk, FlowsOk, ListsOk;
    RecordsOfBucket(v, b);
    NodesOfBucket(v, b);
  }

  lemma Sizes(v: View, crc: seq<byte> -> nat)
    requires Coherent(v, crc)
    ensures |v.w.heads| == |v.w.pubs| == |v.bidx| == |v.cu| > 0 && KeySizeOk(v.w.keySize)
    ensures v.owner.Keys == v.w.mem.Keys && v.w.stamp.Keys <= v.w.mem.Keys && Reach(v.w) <= v.w.stamp.Keys
  {
  }

  lemma InsertedKept(v: View, v1: View, v2: View, crc: seq<byte> -> nat, f: Flow, nodes: seq<Addr>)
    requires Coherent(v, crc) && f.index < |v.bidx| && f.rec !in v.owner
    requires v1.bidx == v.bidx && v1.cu == v.cu
    requires KeptRecords(v1) == KeptRecords(v) + {f.rec} && KeptNodes(v1) == KeptNodes(v)
    requires Elems(nodes) !! v.w.mem.Keys + {f.rec}
    requires KeptRecords(v2) == KeptRecords(v1) + Elems(RecsOf(v1.bidx[f.index])) - Elems(RecsOf([f] + v1.bidx[f.index]))
    requires KeptNodes(v2) == KeptNodes(v1) + Elems(v1.cu[f.index]) - Elems(nodes)
    ensures var s := Elems(v.cu[f.index]);
            && AllKept(v2, s) && KeptRecords(v2) == KeptRecords(v) && KeptNodes(v2) == KeptNodes(v) + s
            && s !! KeptNodes(v) && s !! KeptRecords(v) && f.rec !in s
  {
    hide Coherent, KeptRecords, KeptNodes;
    var b := f.index;
    Sizes(v, crc);
    BucketIsNotKept(v, crc, b);
    KeptAreOwned(v);
    KeptAreOwned(v2);
    RecsOfMore(f, v.bidx[b]);
    InsertedSums(KeptRecords(v), KeptNodes(v), Elems(RecsOf(v.bidx[b])), Elems(v.cu[b]), f.rec, Elems(nodes));
  }

  lemma KeptAreOwned(v: View)
    ensures KeptRecords(v) <= v.owner.Keys && KeptNodes(v) <= v.owner.Keys
    ensures AllKept(v, KeptRecords(v)) && AllKept(v, KeptNodes(v))
  {
  }

  lemma RecsOfMore(f: Flow, fs: seq<Flow>)
    ensures Elems(RecsOf([f] + fs)) == Elems(RecsOf(fs)) + {f.rec}
  {
    assert RecsOf([f] + fs) == [f.rec] + RecsOf(fs);
  }

  lemma InsertedSums<T>(kr: set<T>, kn: set<T>, recs: set<T>, was: set<T>, a: T, nodes: set<T>)
    requires recs !! kr && a !in kr && nodes !! kn + was
    ensures kr + {a} + recs - (recs + {a}) == kr
    ensures kn + was - nodes == kn + was
  {
  }

  lemma InsertedShape(v: View, f: Flow, rec: seq<byte>, nodes: seq<Addr>, head: u64, mem: Memory)
    requires f.index < |v.bidx| == |v.cu| == |v.w.pubs| == |v.w.heads| && DarkOk(v)
    requires f.rec !in v.w.mem && Built(WithLoose(v, f.rec, rec).w.mem, mem, nodes)
    requires f.index in v.dark ==> v.bidx[f.index] != []
    ensures var v2 := Inserted(WithLoose(v, f.rec, rec), f, nodes, head, mem);
            && DarkOk(v2) && v2.dark == v.dark - {f.index}
            && v2.bidx == v.bidx[f.index := [f] + v.bidx[f.index]] && v2.flows == [f] + v.flows
            && v2.w.mem == mem && f.rec in mem && mem[f.rec] == rec
            && OthersAsBefore(v.w, v2.w, f.index)
            && Untouched(v.w.mem, mem, {})
  {
  }

  lemma NewNodes(m0: Memory, mem: Memory, nodes: seq<Addr>)
    requires Built(m0, mem, nodes)
    ensures Elems(nodes) !! m0.Keys
  {
  }

  lemma InsertKeeps(v: View, crc: seq<byte> -> nat, f: Flow, rec: seq<byte>, nodes: seq<Addr>, head: u64, mem: Memory)
    requires ViewOk(v, crc) && RecordBytesOk(rec) && f.keySize == v.w.keySize
    requires f.index == BucketIndex(crc, KeyIn(rec, f.keySize), |v.bidx|)
    requires f.rec != 0 && f.rec % 256 == 0 && f.rec !in v.w.mem
    requires Publishes(WithLoose(v, f.rec, rec), f.index, [f] + v.bidx[f.index], nodes, head, mem)
    ensures var v1, s := WithLoose(v, f.rec, rec), Elems(v.cu[f.index]);
            var v2 := Inserted(v1, f, nodes, head, mem);
            && Coherent(v2, crc) && DarkOk(v2)
            && AllKept(v2, s) && KeptRecords(v2) == KeptRecords(v) && KeptNodes(v2) == KeptNodes(v) + s && s !! KeptNodes(v)
            && s !! KeptRecords(v)
            && Untouched(v.w.mem, v2.w.mem, {}) && f.rec in v2.w.mem && v2.w.mem[f.rec] == rec && f.rec !in s
            && OthersAsBefore(v.w, v2.w, f.index)
  {
    hide WorldOk, FlowsOk, OwnersOk, ListsOk, HeadsOk, FlowsFit, NodesFit, ImageFits, ListFits, Held, Built, Published,
      Reown, Apply, Untouched, OthersAsBefore, AllKept, PubOf, RecsOf;
    var b, a := f.index, f.rec;
    var v1, s := WithLoose(v, a, rec), Elems(v.cu[b]);
    var fs := [f] + v.bidx[b];
    var v2 := Inserted(v1, f, nodes, head, mem);
    var pub := PubOf(v1.w.mem, v.w.keySize, nodes, fs);
    Sizes(v, crc);
    AddBegin(v, crc, a, rec, b);
    assert Elems(nodes) !! v1.w.mem.Keys by { NewNodes(v1.w.mem, mem, nodes); }
    PublishesFits(v1, crc, b, fs, nodes, head, mem, v.dark - {b});
    NewListFits(v1, crc, f);
    var c := Change(b, fs, nodes, head, pub, mem, [f] + v.flows, v.dark - {b});
    RebuildKeeps(v1, crc, c);
    RebuildKept(v1, crc, c);
    InsertedKept(v, v1, v2, crc, f, nodes);
    InsertedShape(v, f, rec, nodes, head, mem);
  }

  /** After an insert's head store, the bucket's old nodes are the blocks to give back. */
  lemma InsertLeaves(v: View, crc: seq<byte> -> nat, f: Flow, rec: seq<byte>, nodes: seq<Addr>, head: u64, mem: Memory)
    requires ViewOk(v, crc) && RecordBytesOk(rec) && f.keySize == v.w.keySize
    requires f.index == BucketIndex(crc, KeyIn(rec, f.keySize), |v.bidx|)
    requires f.rec != 0 && f.rec % 256 == 0 && f.rec !in v.w.mem
    requires Publishes(WithLoose(v, f.rec, rec), f.index, [f] + v.bidx[f.index], nodes, head, mem)
    ensures |v.bidx| == |v.cu| && NoDup(v.cu[f.index])
    ensures var v1 := WithLoose(v, f.rec, rec); f.index < |v1.bidx| == |v1.cu|
    ensures var v1 := WithLoose(v, f.rec, rec);
            var v2 := Inserted(v1, f, nodes, head, mem);
            && Coherent(v2, crc) && DarkOk(v2) && AllKept(v2, Elems(v.cu[f.index]))
            && v1.flows == v.flows && v2.flows == [f] + v.flows && SyncOnly(v2.w, v2.w) && WorldOk(v2.w)
  {
    hide DarkOk, WorldOk, FlowsOk, OwnersOk, ListsOk, HeadsOk, WithLoose, Inserted, Publishes, AllKept, NoDup, KeyIn,
      KeptRecords, KeptNodes, Untouched, OthersAsBefore;
    Sizes(v, crc);
    LooseIs(v, f.rec, rec);
    InsertKeeps(v, crc, f, rec, nodes, head, mem);
    BucketNodes(v, crc, f.index);
    SwitchedIsInserted(WithLoose(v, f.rec, rec), f, nodes, head, mem);
    SyncNothing(Inserted(WithLoose(v, f.rec, rec), f, nodes, head, mem).w);
  }

  /** What a successful insert of f does to the table, and nothing else. */
  ghost predicate Added(v: View, v': View, f: Flow, rec: seq<byte>, freed: bool)
    requires f.index < |v.bidx| == |v.cu|
  {
    && f.rec !in v.w.mem && f.rec in v'.w.mem && v'.w.mem[f.rec] == rec
    && v'.bidx == v.bidx[f.index := [f] + v.bidx[f.index]]
    && v'.flows == [f] + v.flows
    && v'.dark == v.dark - {f.index}
    && KeptRecords(v') == KeptRecords(v)
    && KeptNodes(v') == KeptNodes(v) + (if freed then {} else Elems(v.cu[f.index]))
    && OthersAsBefore(v.w, v'.w, f.index)
    && Untouched(v.w.mem, v'.w.mem, if freed then Elems(v.cu[f.index]) else {})
    && (freed ==> Elems(v.cu[f.index]) !! v'.w.mem.Keys)
  }

  lemma InsertDone(v: View, crc: seq<byte> -> nat, f: Flow, rec: seq<byte>, nodes: seq<Addr>, head: u64, mem: Memory,
                   w': World, freed: bool)
    requires ViewOk(v, crc) && RecordBytesOk(rec) && f.keySize == v.w.keySize
    requires f.index == BucketIndex(crc, KeyIn(rec, f.keySize), |v.bidx|)
    requires f.rec != 0 && f.rec % 256 == 0 && f.rec !in v.w.mem
    requires Publishes(WithLoose(v, f.rec, rec), f.index, [f] + v.bidx[f.index], nodes, head, mem)
    requires var v2 := Inserted(WithLoose(v, f.rec, rec), f, nodes, head, mem); SyncOnly(v2.w, w') && WorldOk(w')
    ensures var v3 := Settle(Inserted(WithLoose(v, f.rec, rec), f, nodes, head, mem), w', Elems(v.cu[f.index]), freed);
            ViewOk(v3, crc) && Added(v, v3, f, rec, freed)
    ensures var s := Elems(v.cu[f.index]);
            && s !! Reach(w') && s <= w'.mem.Keys
            && (w'.mark == w'.stores ==> forall a :: a in s ==> Quiet(w', a))
  {
    hide WorldOk, FlowsOk, OwnersOk, ListsOk, HeadsOk, KeptRecords, KeptNodes, Publishes, Inserted, WithLoose, Settle,
      OthersAsBefore, Untouched, AllKept, SyncOnly, Quiet;
    Sizes(v, crc);
    LooseIs(v, f.rec, rec);
    var v2 := Inserted(WithLoose(v, f.rec, rec), f, nodes, head, mem);
    var s := Elems(v.cu[f.index]);
    InsertKeeps(v, crc, f, rec, nodes, head, mem);
    SettleKeeps(v2, crc, w', s, freed);
    SettleShape(v2, w', s, freed);
    MinusSame(KeptNodes(v), s);
    MinusSame(KeptRecords(v), s);
    InsertedIs(WithLoose(v, f.rec, rec), f, nodes, head, mem);
    OthersMore(v.w, v2.w, Settle(v2, w', s, freed).w, f.index);
    SettledUntouched(v2, w', s, freed);
    UntouchedMore(v.w.mem, v2.w.mem, Settle(v2, w', s, freed).w.mem, if freed then s else {});
  }

  lemma MinusSame<T>(k: set<T>, s: set<T>)
    requires s !! k
    ensures k + s - s == k && k - s == k && k + {} == k && k - {} == k
  {
  }

  lemma LooseIs(v: View, a: Addr, rec: seq<byte>)
    ensures var v1 := WithLoose(v, a, rec);
            && v1.bidx == v.bidx && v1.cu == v.cu && v1.flows == v.flows && v1.dark == v.dark && v1.w.keySize == v.w.keySize
            && v1.w.heads == v.w.heads && v1.w.pubs == v.w.pubs && v1.w.stamp == v.w.stamp
            && v1.w.stores == v.w.stores
            && a in v1.w.mem && v1.w.mem[a] == rec && v1.w.mem.Keys == v.w.mem.Keys + {a}
  {
  }

  /** A SYNC and the frees after it change no index, list, head or other block. */
  lemma SettleShape(v: View, w': World, s: set<Addr>, freed: bool)
    requires SyncOnly(v.w, w')
    ensures var v' := Settle(v, w', s, freed);
            && v'.bidx == v.bidx && v'.cu == v.cu && v'.flows == v.flows && v'.dark == v.dark && v'.w.keySize == v.w.keySize
            && v'.w.heads == v.w.heads && v'.w.pubs == v.w.pubs
  {
  }

  lemma SettledUntouched(v: View, w': World, s: set<Addr>, freed: bool)
    requires SyncOnly(v.w, w')
    ensures Untouched(v.w.mem, Settle(v, w', s, freed).w.mem, if freed then s else {})
    ensures freed ==> s !! Settle(v, w', s, freed).w.mem.Keys
  {
  }

  lemma OthersMore(w: World, w1: World, w2: World, b: nat)
    requires OthersAsBefore(w, w1, b) && w2.heads == w1.heads && w2.pubs == w1.pubs
    ensures OthersAsBefore(w, w2, b)
  {
  }

  lemma UntouchedMore(m: Memory, m1: Memory, m2: Memory, s: set<Addr>)
    requires Untouched(m, m1, {}) && Untouched(m1, m2, s)
    ensures Untouched(m, m2, s)
    ensures forall a :: a in m1 && a !in s ==> a in m2 && m2[a] == m1[a]
  {
  }

  lemma InsertedIs(v1: View, f: Flow, nodes: seq<Addr>, head: u64, mem: Memory)
    requires f.index < |v1.bidx| == |v1.cu| == |v1.w.pubs| == |v1.w.heads|
    ensures var v2 := Inserted(v1, f, nodes, head, mem);
            && v2.bidx == v1.bidx[f.index := [f] + v1.bidx[f.index]] && v2.flows == [f] + v1.flows
            && v2.dark == v1.dark - {f.index} && v2.w.mem == mem
  {
  }

  lemma SwitchedIsInserted(v1: View, f: Flow, nodes: seq<Addr>, head: u64, mem: Memory)
    requires f.index < |v1.bidx| == |v1.cu|
    ensures var fs := [f] + v1.bidx[f.index];
            var vb, v2 := v1.(bidx := v1.bidx[f.index := fs]), Inserted(v1, f, nodes, head, mem);
            && Switched(vb, f.index, nodes, head, PubOf(v1.w.mem, v1.w.keySize, nodes, fs), mem)
               == v2.(flows := v1.flows, owner := v1.owner, dark := v1.dark)
            && (Publishes(vb, f.index, fs, nodes, head, mem) ==> Publishes(v1, f.index, fs, nodes, head, mem))
            && v2.flows == [f] + v1.flows
  {
  }

  lemma SettledLate(v: View, flows: seq<Flow>, w': World, s: set<Addr>)
    ensures Without(v.(flows := flows, w := w'), s).(flows := v.flows) == Settle(v, w', s, true)
    ensures v.(flows := flows, w := w').(flows := v.flows) == Settle(v, w', s, false)
  {
  }

  lemma KeepAll(fs: seq<Flow>, j: nat)
    requires j <= |fs|
    ensures KeepTo(fs, None, j) == fs[..j]
  {
    if j > 0 { assert fs[..j] == fs[..j - 1] + [fs[j - 1]]; }
  }

  lemma KeepNone(fs: seq<Flow>)
    ensures Keep(fs, None) == fs
  {
    KeepAll(fs, |fs|);
  }

  /** Head insertion and its undo. */
  lemma IndexUndone(bidx: seq<seq<Flow>>, b: nat, f: Flow)
    requires b < |bidx|
    ensures bidx[b := [f] + bidx[b]][b := ([f] + bidx[b])[1..]] == bidx
  {
    assert ([f] + bidx[b])[1..] == bidx[b];
  }

  lemma SyncNothing(w: World)
    ensures SyncOnly(w, w)
  {
  }

  lemma BucketNodes(v: View, crc: seq<byte> -> nat, b: nat)
    requires Coherent(v, crc) && b < |v.cu|
    ensures NoDup(v.cu[b])
  {
  }

  /** A step that leaves the flow list for later ends where it would have ended. */
  lemma LateList(v: View, flows: seq<Flow>, w': World, s: set<Addr>, ok: bool)
    requires SyncOnly(v.w, w')
    ensures Settle(v, w', s, ok).(flows := flows).(flows := v.flows) == Settle(v, w', s, ok)
    ensures v.(flows := flows).(flows := v.flows) == Settle(v, v.w, s, false)
  {
  }
}
