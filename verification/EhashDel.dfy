/** Delete, on values: from the table before the call to the table after it. */
module EhashDel {
  import opened Bytes
  import opened Layout
  import opened Bucket
  import opened Epoch
  import opened Options
  import opened EhashView
  import opened EhashSteps
  import opened EhashAdd
  import opened NodeFill

  /** What the list search of del_key and get_stats finds. */
  ghost predicate FoundIn(v: View, b: nat, key: seq<byte>, x: Option<Flow>)
    requires b < |v.bidx|
  {
    match x
    case None => Indexed(v, b, key) == 0 && forall f :: f in v.bidx[b] ==> KeyOf(v.w.mem, v.w.keySize, f.rec) != key
    case Some(f) =>
      && f in v.bidx[b] && f.rec == Indexed(v, b, key) && f.rec != 0
      && KeyOf(v.w.mem, v.w.keySize, f.rec) == key
  }

  /** The search may stop at the first flow whose record carries the key. */
  lemma SearchHit(v: View, crc: seq<byte> -> nat, b: nat, key: seq<byte>, i: nat)
    requires Coherent(v, crc) && b < |v.bidx| && i < |v.bidx[b]|
    requires forall j :: 0 <= j < i ==> KeyOf(v.w.mem, v.w.keySize, v.bidx[b][j].rec) != key
    requires KeyOf(v.w.mem, v.w.keySize, v.bidx[b][i].rec) == key
    ensures FoundIn(v, b, key, Some(v.bidx[b][i]))
  {
    hide WorldOk, OwnersOk, ListsOk, HeadsOk;
    FirstMatchAt(RecsOf(v.bidx[b]), KeysOf(v.w.mem, v.w.keySize, v.bidx[b]), key, i);
    assert v.bidx[b][i] in v.bidx[b];
    assert FlowOk(v.w, crc, |v.bidx|, b, v.bidx[b][i]);
  }

  lemma SearchMiss(v: View, b: nat, key: seq<byte>)
    requires b < |v.bidx|
    requires forall j :: 0 <= j < |v.bidx[b]| ==> KeyOf(v.w.mem, v.w.keySize, v.bidx[b][j].rec) != key
    ensures FoundIn(v, b, key, None)
  {
    assert key !in KeysOf(v.w.mem, v.w.keySize, v.bidx[b]);
  }

  /** Every flow of the index has the table's key size. */
  lemma SizeOfFlow(v: View, crc: seq<byte> -> nat, b: nat, i: nat)
    requires Coherent(v, crc) && b < |v.bidx| && i < |v.bidx[b]|
    ensures v.bidx[b][i].keySize == v.w.keySize && v.bidx[b][i].index == b
  {
    assert FlowOk(v.w, crc, |v.bidx|, b, v.bidx[b][i]);
  }

  lemma {:induction false} KeepNoDup(fs: seq<Flow>, x: Flow, j: nat)
    requires NoDup(fs) && j <= |fs|
    ensures NoDup(KeepTo(fs, Some(x), j))
    ensures forall f :: f in KeepTo(fs, Some(x), j) ==> f in fs[..j]
  {
    if j > 0 {
      KeepNoDup(fs, x, j - 1);
      assert fs[j - 1] !in fs[..j - 1];
      assert fs[..j] == fs[..j - 1] + [fs[j - 1]];
    }
  }

  lemma {:induction false} KeepRecsNoDup(fs: seq<Flow>, x: Flow, j: nat)
    requires NoDup(RecsOf(fs)) && j <= |fs|
    ensures NoDup(RecsOf(KeepTo(fs, Some(x), j)))
    ensures forall a :: a in RecsOf(KeepTo(fs, Some(x), j)) ==> a in RecsOf(fs)[..j]
  {
    if j > 0 {
      KeepRecsNoDup(fs, x, j - 1);
      var k := KeepTo(fs, Some(x), j - 1);
      assert RecsOf(fs)[j - 1] !in RecsOf(fs)[..j - 1];
      assert RecsOf(fs)[..j] == RecsOf(fs)[..j - 1] + [RecsOf(fs)[j - 1]];
      assert RecsOf(k + [fs[j - 1]]) == RecsOf(k) + [fs[j - 1].rec];
    }
  }

  /** Removing a flow removes exactly its record. */
  lemma KeepRecs(fs: seq<Flow>, x: Flow)
    requires NoDup(RecsOf(fs)) && x in fs
    ensures NoDup(RecsOf(Keep(fs, Some(x))))
    ensures Elems(RecsOf(Keep(fs, Some(x)))) == Elems(RecsOf(fs)) - {x.rec}
  {
    KeepRecsNoDup(fs, x, |fs|);
    var rest := Keep(fs, Some(x));
    var i :| 0 <= i < |fs| && fs[i] == x;
    forall a | a in RecsOf(rest) ensures a in RecsOf(fs) && a != x.rec {
      var f := ListedRecord(rest, a);
      var k :| 0 <= k < |fs| && fs[k] == f;
      assert RecsOf(fs)[k] == a && RecsOf(fs)[i] == x.rec;
    }
    forall a | a in RecsOf(fs) && a != x.rec ensures a in RecsOf(rest) {
      var f := ListedRecord(fs, a);
      RecordIsListed(rest, f);
    }
  }

  /** The table without flow x: its bucket rebuilt, or taken out of hardware. */
  function Removed(v: View, x: Flow, nodes: seq<Addr>, head: u64, pub: Pub, mem: Memory, dark: set<nat>): View
    requires x.index < |v.bidx| == |v.cu|
  {
    Rebuild(v, Change(x.index, Keep(v.bidx[x.index], Some(x)), nodes, head, pub, mem, Keep(v.flows, Some(x)), dark))
  }

  /** The two ways a delete leaves its bucket: rebuilt, or dark because there was no memory. */
  ghost predicate Leaves(v: View, x: Flow, nodes: seq<Addr>, head: u64, pub: Pub, mem: Memory, dark: set<nat>)
    requires x.index < |v.bidx| == |v.cu|
  {
    var b, rest := x.index, Keep(v.bidx[x.index], Some(x));
    || (pub == PubOf(v.w.mem, v.w.keySize, nodes, rest) && Publishes(v, b, rest, nodes, head, mem) && dark == v.dark - {b})
    || (pub == EMPTY && nodes == [] && head == 0 && mem == v.w.mem && |rest| > 1 && dark == v.dark + {b})
  }

  lemma EmptyPublished(mem: Memory, keySize: nat)
    requires KeySizeOk(keySize)
    ensures Published(mem, keySize, 0, EMPTY)
  {
    SwabIsZeroOnlyForNull(0);
  }

  lemma RestFits(v: View, crc: seq<byte> -> nat, x: Flow)
    requires Coherent(v, crc) && x.index < |v.bidx| && x in v.bidx[x.index]
    ensures var rest := Keep(v.bidx[x.index], Some(x));
            && FlowsFit(v, crc, x.index, rest) && ListFits(v, x.index, rest, Keep(v.flows, Some(x)))
            && Elems(RecsOf(rest)) == Elems(RecsOf(v.bidx[x.index])) - {x.rec}
  {
    hide WorldOk, HeadsOk, NodesOwned, AllOwned, RecsOf;
    KeepRecs(v.bidx[x.index], x);
    KeepNoDup(v.flows, x, |v.flows|);
  }

  lemma LeavesFits(v: View, crc: seq<byte> -> nat, x: Flow, nodes: seq<Addr>, head: u64, pub: Pub, mem: Memory,
                   dark: set<nat>)
    requires Coherent(v, crc) && x.index < |v.bidx| && x in v.bidx[x.index]
    requires Leaves(v, x, nodes, head, pub, mem, dark)
    ensures NodesFit(v, x.index, nodes, mem)
    ensures ImageFits(v, x.index, Keep(v.bidx[x.index], Some(x)), nodes, head, pub, mem, dark)
    ensures Elems(nodes) !! v.w.mem.Keys && mem.Keys == v.w.mem.Keys + Elems(nodes) && Untouched(v.w.mem, mem, {})
  {
    hide FlowsOk, OwnersOk, ListsOk, HeadsOk, FlowsFit, ListFits;
    RestFits(v, crc, x);
    if x.index in dark {
      EmptyPublished(mem, v.w.keySize);
    } else {
      PublishesFits(v, crc, x.index, Keep(v.bidx[x.index], Some(x)), nodes, head, mem, dark);
    }
  }

  /** The blocks a delete may free: the record and the nodes it replaced. */
  function Retired(v: View, x: Flow): set<Addr>
    requires x.index < |v.cu|
  {
    Elems(v.cu[x.index]) + {x.rec}
  }

  lemma RemovedSums<T>(kr: set<T>, kn: set<T>, recs: set<T>, was: set<T>, a: T, nodes: set<T>)
    requires a in recs && recs !! kr && nodes !! kn + was && was !! kn && was !! kr && was !! recs && recs !! kn
    ensures kr + recs - (recs - {a}) == kr + {a}
    ensures kn + was - nodes == kn + was
    ensures (kr + {a}) - (was + {a}) == kr
    ensures (kn + was) - (was + {a}) == kn
  {
  }

  lemma RemovedKept(v: View, crc: seq<byte> -> nat, v2: View, x: Flow, nodes: seq<Addr>)
    requires Coherent(v, crc) && x.index < |v.bidx| && x in v.bidx[x.index]
    requires Elems(nodes) !! v.w.mem.Keys
    requires KeptRecords(v2) == KeptRecords(v) + Elems(RecsOf(v.bidx[x.index])) - (Elems(RecsOf(v.bidx[x.index])) - {x.rec})
    requires x.index < |v.cu|
    requires KeptNodes(v2) == KeptNodes(v) + Elems(v.cu[x.index]) - Elems(nodes)
    ensures AllKept(v2, Retired(v, x))
    ensures KeptRecords(v2) == KeptRecords(v) + {x.rec} && KeptNodes(v2) == KeptNodes(v) + Elems(v.cu[x.index])
    ensures KeptRecords(v2) - Retired(v, x) == KeptRecords(v) && KeptNodes(v2) - Retired(v, x) == KeptNodes(v)
    ensures x.rec !in v.cu[x.index]
  {
    hide Coherent, KeptRecords, KeptNodes, AllKept;
    Sizes(v, crc);
    var b := x.index;
    BucketIsNotKept(v, crc, b);
    RecordsAndNodes(v, crc, b);
    KeptAreOwned(v);
    KeptAreOwned(v2);
    RecordIsListed(v.bidx[b], x);
    RemovedSums(KeptRecords(v), KeptNodes(v), Elems(RecsOf(v.bidx[b])), Elems(v.cu[b]), x.rec, Elems(nodes));
    KeptTogether(v2, Retired(v, x));
  }

  lemma KeptTogether(v: View, s: set<Addr>)
    requires s <= KeptRecords(v) + KeptNodes(v)
    ensures AllKept(v, s)
  {
  }

  lemma RecordsAndNodes(v: View, crc: seq<byte> -> nat, b: nat)
    requires Coherent(v, crc) && b < |v.bidx| == |v.cu|
    ensures Elems(v.cu[b]) !! Elems(RecsOf(v.bidx[b])) && Elems(RecsOf(v.bidx[b])) !! KeptNodes(v)
  {
    hide WorldOk, HeadsOk, FlowsOk, ListsOk;
    RecordsOfBucket(v, b);
    NodesOfBucket(v, b);
  }

  lemma RemovedShape(v: View, x: Flow, nodes: seq<Addr>, head: u64, pub: Pub, mem: Memory, dark: set<nat>)
    requires x.index < |v.bidx| == |v.cu| == |v.w.pubs| == |v.w.heads| && DarkOk(v)
    requires Leaves(v, x, nodes, head, pub, mem, dark)
    ensures var v2 := Removed(v, x, nodes, head, pub, mem, dark);
            && DarkOk(v2) && v2.dark == dark && v2.bidx == v.bidx[x.index := Keep(v.bidx[x.index], Some(x))]
            && v2.flows == Keep(v.flows, Some(x)) && v2.w.mem == mem && OthersAsBefore(v.w, v2.w, x.index)
  {
    hide Publishes, Keep, PubOf;
  }

  lemma RemoveKeeps(v: View, crc: seq<byte> -> nat, x: Flow, nodes: seq<Addr>, head: u64, pub: Pub, mem: Memory,
                    dark: set<nat>)
    requires ViewOk(v, crc) && x.index < |v.bidx| && x in v.bidx[x.index]
    requires Leaves(v, x, nodes, head, pub, mem, dark)
    ensures var v2, s := Removed(v, x, nodes, head, pub, mem, dark), Retired(v, x);
            && Coherent(v2, crc) && DarkOk(v2) && AllKept(v2, s)
            && KeptRecords(v2) == KeptRecords(v) + {x.rec} && KeptNodes(v2) == KeptNodes(v) + Elems(v.cu[x.index])
            && KeptRecords(v2) - s == KeptRecords(v) && KeptNodes(v2) - s == KeptNodes(v)
            && Untouched(v.w.mem, v2.w.mem, {}) && OthersAsBefore(v.w, v2.w, x.index)
            && x.rec !in v.cu[x.index]
  {
    hide WorldOk, FlowsOk, OwnersOk, ListsOk, HeadsOk, FlowsFit, NodesFit, ImageFits, ListFits, Held, Leaves, Keep,
      Reown, Apply, Untouched, OthersAsBefore, AllKept, PubOf, RecsOf, Retired;
    Sizes(v, crc);
    var b := x.index;
    var rest, flows := Keep(v.bidx[b], Some(x)), Keep(v.flows, Some(x));
    RestFits(v, crc, x);
    LeavesFits(v, crc, x, nodes, head, pub, mem, dark);
    var c := Change(b, rest, nodes, head, pub, mem, flows, dark);
    RebuildKeeps(v, crc, c);
    RebuildKept(v, crc, c);
    RemovedKept(v, crc, Removed(v, x, nodes, head, pub, mem, dark), x, nodes);
    RemovedShape(v, x, nodes, head, pub, mem, dark);
  }

  /** What a delete of x does to the table, and nothing else. */
  ghost predicate Deleted(v: View, v': View, x: Flow, darkened: bool, freed: bool)
    requires x.index < |v.bidx| == |v.cu|
  {
    && v'.bidx == v.bidx[x.index := Keep(v.bidx[x.index], Some(x))]
    && v'.flows == Keep(v.flows, Some(x))
    && v'.dark == (if darkened then v.dark + {x.index} else v.dark - {x.index})
    && (darkened ==> |Keep(v.bidx[x.index], Some(x))| > 1)
    && KeptRecords(v') == KeptRecords(v) + (if freed then {} else {x.rec})
    && KeptNodes(v') == KeptNodes(v) + (if freed then {} else Elems(v.cu[x.index]))
    && OthersAsBefore(v.w, v'.w, x.index)
    && Untouched(v.w.mem, v'.w.mem, if freed then Retired(v, x) else {})
    && (freed ==> Retired(v, x) !! v'.w.mem.Keys)
  }

  lemma LeavesDark(v: View, x: Flow, nodes: seq<Addr>, head: u64, pub: Pub, mem: Memory, dark: set<nat>)
    requires x.index < |v.bidx| == |v.cu| && Leaves(v, x, nodes, head, pub, mem, dark)
    ensures dark == if x.index in dark then v.dark + {x.index} else v.dark - {x.index}
    ensures x.index in dark ==> |Keep(v.bidx[x.index], Some(x))| > 1
  {
  }

  lemma DeleteDone(v: View, crc: seq<byte> -> nat, x: Flow, nodes: seq<Addr>, head: u64, pub: Pub, mem: Memory,
                   dark: set<nat>, w': World, freed: bool)
    requires ViewOk(v, crc) && x.index < |v.bidx| && x in v.bidx[x.index]
    requires Leaves(v, x, nodes, head, pub, mem, dark)
    requires SyncOnly(Removed(v, x, nodes, head, pub, mem, dark).w, w') && WorldOk(w')
    ensures var v3 := Settle(Removed(v, x, nodes, head, pub, mem, dark), w', Retired(v, x), freed);
            ViewOk(v3, crc) && Deleted(v, v3, x, x.index in dark, freed)
    ensures var s := Retired(v, x);
            && s !! Reach(w') && s <= w'.mem.Keys
            && (w'.mark == w'.stores ==> forall a :: a in s ==> Quiet(w', a))
  {
    hide WorldOk, FlowsOk, OwnersOk, ListsOk, HeadsOk, KeptRecords, KeptNodes, Leaves, Removed, Settle, Keep, Retired,
      OthersAsBefore, Untouched, AllKept, SyncOnly, Quiet, Reach;
    Sizes(v, crc);
    var v2, s := Removed(v, x, nodes, head, pub, mem, dark), Retired(v, x);
    RemoveKeeps(v, crc, x, nodes, head, pub, mem, dark);
    SettleKeeps(v2, crc, w', s, freed);
    SettleShape(v2, w', s, freed);
    var v3 := Settle(v2, w', s, freed);
    SettledUntouched(v2, w', s, freed);
    LeavesDark(v, x, nodes, head, pub, mem, dark);
    RemovedShape(v, x, nodes, head, pub, mem, dark);
    OthersMore(v.w, v2.w, v3.w, x.index);
    UntouchedMore(v.w.mem, v2.w.mem, v3.w.mem, if freed then s else {});
  }

  /** fman_pcd_ehash_cu_free and then dma_pool_free of the record. */
  lemma WithoutBoth(v: View, s: set<Addr>, a: Addr)
    requires a !in s
    ensures Without(Without(v, s), {a}) == Without(v, s + {a})
  {
    assert v.w.mem - s - {a} == v.w.mem - (s + {a});
    assert v.w.stamp - s - {a} == v.w.stamp - (s + {a});
    assert v.owner - s - {a} == v.owner - (s + {a});
  }

  /** Publication, unlinking and the ghost bookkeeping together are the removal. */
  lemma SwitchedIsRemoved(v: View, x: Flow, nodes: seq<Addr>, head: u64, pub: Pub, mem: Memory, dark: set<nat>)
    requires x.index < |v.bidx| == |v.cu|
    ensures var v2 := Removed(v, x, nodes, head, pub, mem, dark);
            Switched(v, x.index, nodes, head, pub, mem).(bidx := v2.bidx, flows := v2.flows, owner := v2.owner, dark := v2.dark) == v2
    ensures var v2 := Removed(v, x, nodes, head, pub, mem, dark);
            v2.bidx == v.bidx[x.index := Keep(v.bidx[x.index], Some(x))] && v2.flows == Keep(v.flows, Some(x))
  {
  }

  /** The failed rebuild's two stores, seen as a publication of nothing. */
  lemma DarkIsSwitched(v: View, b: nat)
    requires b < |v.cu|
    ensures v.(w := Apply(v.w, HeadStore(b, 0, EMPTY)), cu := v.cu[b := []]) == Switched(v, b, [], 0, EMPTY, v.w.mem)
  {
    assert v.w.(mem := v.w.mem) == v.w;
  }

  lemma WithoutLeaves(v: View, s: set<Addr>, a: Addr)
    requires a !in s && a in v.w.mem && a !in Reach(v.w)
    ensures var v' := Without(v, s); a in v'.w.mem && a !in Reach(v'.w) && (Quiet(v.w, a) ==> Quiet(v'.w, a))
  {
    assert Reach(Without(v, s).w) == Reach(v.w);
  }

  lemma SettleIs(v: View, w': World, s: set<Addr>, ok: bool)
    ensures Settle(v, w', s, ok) == if ok then Without(v.(w := w'), s) else v.(w := w')
  {
  }

  lemma LeavesIs(v: View, x: Flow, nodes: seq<Addr>, head: u64, pub: Pub, mem: Memory, dark: set<nat>)
    requires x.index < |v.bidx| == |v.cu|
    requires var b, rest := x.index, Keep(v.bidx[x.index], Some(x));
             || (pub == PubOf(v.w.mem, v.w.keySize, nodes, rest) && Publishes(v, b, rest, nodes, head, mem) && dark == v.dark - {b})
             || (pub == EMPTY && nodes == [] && head == 0 && mem == v.w.mem && |rest| > 1 && dark == v.dark + {b})
    ensures Leaves(v, x, nodes, head, pub, mem, dark)
  {
  }

  lemma FlowsAreReadable(v: View, crc: seq<byte> -> nat, b: nat)
    requires Coherent(v, crc) && b < |v.bidx|
    ensures FlowsReadable(v.w.mem, v.w.keySize, v.bidx[b])
  {
    hide WorldOk, HeadsOk, OwnersOk, ListsOk;
    forall f | f in v.bidx[b] ensures RecOk(v.w.mem, v.w.keySize, f.rec, KeyOf(v.w.mem, v.w.keySize, f.rec)) {
      assert FlowOk(v.w, crc, |v.bidx|, b, f);
    }
  }

  lemma RetiredIs(v: View, x: Flow)
    requires x.index < |v.cu|
    ensures Retired(v, x) == Elems(v.cu[x.index]) + {x.rec}
  {
  }

  lemma FoundIs(v: View, crc: seq<byte> -> nat, b: nat, key: seq<byte>, x: Option<Flow>)
    requires Coherent(v, crc) && b < |v.bidx| && FoundIn(v, b, key, x)
    ensures x.None? <==> Indexed(v, b, key) == 0
    ensures x.Some? ==> x.value in v.bidx[b] && x.value.index == b && x.value.rec == Indexed(v, b, key)
                        && KeyOf(v.w.mem, v.w.keySize, x.value.rec) == key
  {
    if x.Some? {
      var i :| 0 <= i < |v.bidx[b]| && v.bidx[b][i] == x.value;
      SizeOfFlow(v, crc, b, i);
    }
  }
}
