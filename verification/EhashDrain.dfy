/** Drain, on values: every head cleared, every indexed record and every node freed. */
module EhashDrain {
  import opened Bytes
  import opened Layout
  import opened Bucket
  import opened Epoch
  import opened Options
  import opened EhashView
  import opened EhashSteps
  import opened EhashAdd
  import opened EhashDel

  /** Draining never touches the blocks that earlier wedged SYNCs left behind. */
  ghost predicate Draining(v0: View, v: View, crc: seq<byte> -> nat) {
    && Coherent(v, crc)
    && |v.bidx| == |v0.bidx| && v.w.keySize == v0.w.keySize
    && KeptRecords(v) == KeptRecords(v0) && KeptNodes(v) == KeptNodes(v0)
    && !v.w.attached
    && forall a :: a in KeptRecords(v0) + KeptNodes(v0) && a in v0.w.mem ==> a in v.w.mem && v.w.mem[a] == v0.w.mem[a]
  }

  /** The head store and the unlinking of one drained flow. */
  function Cleared(v: View, f: Flow): View
    requires f.index < |v.bidx| == |v.cu|
  {
    var b, rest := f.index, Keep(v.bidx[f.index], Some(f));
    Rebuild(v, Change(b, rest, v.cu[b], 0, EMPTY, v.w.mem, Keep(v.flows, Some(f)), v.dark + {b}))
  }

  lemma ListedFlow(v: View, crc: seq<byte> -> nat, f: Flow)
    requires Coherent(v, crc) && f in v.flows
    ensures f.index < |v.bidx| == |v.cu| && f in v.bidx[f.index]
  {
  }

  lemma ClearFits(v: View, crc: seq<byte> -> nat, b: nat, fs: seq<Flow>)
    requires Coherent(v, crc) && b < |v.bidx|
    ensures NodesFit(v, b, v.cu[b], v.w.mem)
    ensures ImageFits(v, b, fs, v.cu[b], 0, EMPTY, v.w.mem, v.dark + {b})
  {
    hide FlowsOk, HeadsOk;
    EmptyPublished(v.w.mem, v.w.keySize);
    NodesOfBucket(v, b);
    forall a | a in v.cu[b] ensures |v.w.mem[a]| == CU_SIZE {
      assert OwnedAs(v, a, v.owner[a]);
    }
  }

  lemma ClearedSums<T>(kr: set<T>, kn: set<T>, recs: set<T>, was: set<T>, a: T)
    requires a in recs && recs !! kr && was !! kn && recs !! kn
    ensures kr + recs - (recs - {a}) == kr + {a} && kn + was - was == kn
    ensures kr + {a} - {a} == kr && kn - {a} == kn
  {
  }

  /** After its head is cleared and it is unlinked, a drained flow's record is nobody's. */
  lemma ClearKeeps(v0: View, v: View, crc: seq<byte> -> nat, f: Flow)
    requires Draining(v0, v, crc) && f in v.flows
    ensures f.index < |v.bidx| == |v.cu|
    ensures var v2 := Cleared(v, f);
            && Coherent(v2, crc) && AllKept(v2, {f.rec})
            && Draining(v0, Without(v2, {f.rec}), crc)
            && f.rec !in Reach(v2.w) && f.rec in v2.w.mem && Quiet(v2.w, f.rec)
  {
    hide WorldOk, FlowsOk, OwnersOk, ListsOk, HeadsOk, FlowsFit, NodesFit, ImageFits, ListFits, Held, Keep,
      Reown, AllKept, PubOf, RecsOf, Published, Without, KeptRecords, KeptNodes, DarkOk;
    ListedFlow(v, crc, f);
    var b := f.index;
    var rest := Keep(v.bidx[b], Some(f));
    RestFits(v, crc, f);
    ClearFits(v, crc, b, rest);
    var c := Change(b, rest, v.cu[b], 0, EMPTY, v.w.mem, Keep(v.flows, Some(f)), v.dark + {b});
    RebuildKeeps(v, crc, c);
    RebuildKept(v, crc, c);
    var v2 := Cleared(v, f);
    BucketIsNotKept(v, crc, b);
    RecordsAndNodes(v, crc, b);
    RecordIsListed(v.bidx[b], f);
    ClearedSums(KeptRecords(v), KeptNodes(v), Elems(RecsOf(v.bidx[b])), Elems(v.cu[b]), f.rec);
    KeptTogether(v2, {f.rec});
    KeptIsUnreachable(v2, crc, {f.rec});
    WithoutKeeps(v2, crc, {f.rec});
    WithoutIs(v2, {f.rec});
    ClearedIs(v, f);
  }

  lemma ClearedIs(v: View, f: Flow)
    requires f.index < |v.bidx| == |v.cu|
    ensures var v2 := Cleared(v, f);
            && v2.w.mem == v.w.mem && v2.w.attached == v.w.attached && v2.w.keySize == v.w.keySize && |v2.bidx| == |v.bidx|
            && v2.flows == Keep(v.flows, Some(f))
  {
  }

  lemma WithoutIs(v: View, s: set<Addr>)
    ensures var v' := Without(v, s);
            && v'.w.mem == v.w.mem - s && v'.w.attached == v.w.attached && v'.w.keySize == v.w.keySize && v'.bidx == v.bidx
            && v'.cu == v.cu && v'.flows == v.flows && v'.dark == v.dark
  {
  }

  lemma {:induction false} KeepLength(fs: seq<Flow>, x: Flow, j: nat)
    requires j <= |fs|
    ensures |KeepTo(fs, Some(x), j)| <= j
    ensures x in fs[..j] ==> |KeepTo(fs, Some(x), j)| < j
  {
    if j > 0 {
      KeepLength(fs, x, j - 1);
      assert fs[..j] == fs[..j - 1] + [fs[j - 1]];
    }
  }

  lemma KeepShorter(fs: seq<Flow>, x: Flow)
    requires x in fs
    ensures |Keep(fs, Some(x))| < |fs|
  {
    KeepLength(fs, x, |fs|);
    assert fs[..|fs|] == fs;
  }

  /** The store, the list removals and the bookkeeping of one drained flow together. */
  lemma SwitchedIsCleared(v: View, f: Flow)
    requires f.index < |v.bidx| == |v.cu|
    ensures var v2 := Cleared(v, f);
            && v.(w := Apply(v.w, HeadStore(f.index, 0, EMPTY)), flows := Keep(v.flows, Some(f)),
                  bidx := v.bidx[f.index := Keep(v.bidx[f.index], Some(f))], owner := v2.owner, dark := v2.dark) == v2
  {
    assert v.w.(mem := v.w.mem) == v.w;
    assert v.cu[f.index := v.cu[f.index]] == v.cu;
  }

  /** Bucket b without its node list; the nodes are nobody's. */
  function Disowned(v: View, b: nat): View
    requires b < |v.cu|
  {
    v.(cu := v.cu[b := []], owner := Reown(v.owner, b, [], []))
  }

  lemma NoRecords(v: View, b: nat)
    requires Shape(v) && b < |v.bidx| && v.bidx[b] == []
    ensures forall a :: a in v.owner ==> v.owner[a] != Record(b)
  {
    forall a | a in v.owner ensures v.owner[a] != Record(b) {
      assert OwnedAs(v, a, v.owner[a]);
    }
  }

  lemma DisownOwners(v: View, b: nat)
    requires Shape(v) && b < |v.bidx| && v.bidx[b] == []
    ensures OwnersOk(Disowned(v, b))
  {
    NoRecords(v, b);
    var v' := Disowned(v, b);
    forall a | a in v'.owner ensures OwnedAs(v', a, v'.owner[a]) {
      assert OwnedAs(v, a, v.owner[a]);
    }
  }

  /** An empty bucket exposes nothing, dark or not. */
  lemma EmptyBucket(v: View, crc: seq<byte> -> nat, b: nat)
    requires Coherent(v, crc) && b < |v.bidx| && v.bidx[b] == []
    ensures v.w.pubs[b] == EMPTY && v.w.heads[b] == 0
    ensures b !in v.dark ==> v.cu[b] == []
  {
    hide FlowsOk, OwnersOk, ListsOk;
    assert Published(v.w.mem, v.w.keySize, v.w.heads[b], v.w.pubs[b]);
    SwabIsZeroOnlyForNull(0);
  }

  lemma DisownHeads(v: View, crc: seq<byte> -> nat, b: nat)
    requires Coherent(v, crc) && b < |v.bidx| && v.bidx[b] == []
    ensures HeadsOk(Disowned(v, b)) && FlowsOk(Disowned(v, b), crc) && ListsOk(Disowned(v, b))
  {
    EmptyBucket(v, crc, b);
    hide OwnersOk, WorldOk;
  }

  lemma DisownKept(v: View, crc: seq<byte> -> nat, b: nat)
    requires Coherent(v, crc) && b < |v.bidx| && v.bidx[b] == []
    ensures KeptRecords(Disowned(v, b)) == KeptRecords(v)
    ensures KeptNodes(Disowned(v, b)) == KeptNodes(v) + Elems(v.cu[b])
    ensures Elems(v.cu[b]) !! KeptNodes(v) && Elems(v.cu[b]) !! KeptRecords(v) && NoDup(v.cu[b])
  {
    hide WorldOk, FlowsOk, HeadsOk, Held;
    BucketIsNotKept(v, crc, b);
    RecordsOfBucket(v, b);
    NodesOfBucket(v, b);
    KeptInMap(v.owner, b, [], v.cu[b], [], []);
    assert KeptRecords(v) + Elems([]) - Elems([]) == KeptRecords(v);
    assert KeptNodes(v) + Elems(v.cu[b]) - Elems([]) == KeptNodes(v) + Elems(v.cu[b]);
  }

  /** Freeing the nodes of an emptied bucket. */
  lemma DropKeeps(v0: View, v: View, crc: seq<byte> -> nat, b: nat)
    requires Draining(v0, v, crc) && b < |v.bidx| && v.bidx[b] == []
    ensures b < |v.cu| && NoDup(v.cu[b])
    ensures var v1, s := Disowned(v, b), Elems(v.cu[b]);
            && s !! Reach(v.w) && s <= v.w.mem.Keys
            && Draining(v0, Without(v1, s), crc)
            && Without(v.(owner := v1.owner), s).(cu := v.cu[b := []]) == Without(v1, s)
  {
    hide WorldOk, FlowsOk, OwnersOk, ListsOk, HeadsOk, Held, Reown, KeptRecords, KeptNodes, AllKept, NoDup;
    var v1, s := Disowned(v, b), Elems(v.cu[b]);
    DisownOwners(v, b);
    DisownHeads(v, crc, b);
    DisownKept(v, crc, b);
    assert v1.w == v.w;
    KeptTogether(v1, s);
    KeptIsUnreachable(v1, crc, s);
    WithoutKeeps(v1, crc, s);
    MinusSame(KeptNodes(v), s);
    MinusSame(KeptRecords(v), s);
  }

  lemma IndexedIsListed(v: View, crc: seq<byte> -> nat, b: nat, i: nat)
    requires Coherent(v, crc) && b < |v.bidx| && i < |v.bidx[b]|
    ensures v.bidx[b][i] in v.flows
  {
    assert FlowOk(v.w, crc, |v.bidx|, b, v.bidx[b][i]);
  }

  lemma NothingListed(v: View, crc: seq<byte> -> nat)
    requires Coherent(v, crc) && v.flows == []
    ensures forall b :: 0 <= b < |v.bidx| ==> v.bidx[b] == []
  {
    forall b | 0 <= b < |v.bidx| ensures v.bidx[b] == [] {
      if v.bidx[b] != [] {
        IndexedIsListed(v, crc, b, 0);
      }
    }
  }

  /** A drained table: nothing indexed, no nodes, all heads zero, only kept blocks live. */
  ghost predicate Drained(v0: View, v: View) {
    && v.flows == [] && v.dark == {}
    && (forall b :: 0 <= b < |v.bidx| ==> v.bidx[b] == [])
    && (forall b :: 0 <= b < |v.cu| ==> v.cu[b] == [])
    && (forall b :: 0 <= b < |v.w.heads| ==> v.w.heads[b] == 0)
    && v.w.mem.Keys == KeptRecords(v0) + KeptNodes(v0)
    && (forall a :: a in v.w.mem && a in v0.w.mem ==> v.w.mem[a] == v0.w.mem[a])
    && KeptRecords(v) == KeptRecords(v0) && KeptNodes(v) == KeptNodes(v0)
  }

  lemma OnlyKeptLeft(v: View)
    requires Shape(v)
    requires forall b :: 0 <= b < |v.bidx| ==> v.bidx[b] == [] && v.cu[b] == []
    ensures v.w.mem.Keys == KeptRecords(v) + KeptNodes(v)
  {
    forall a | a in v.owner ensures a in KeptRecords(v) + KeptNodes(v) {
      assert OwnedAs(v, a, v.owner[a]);
    }
  }

  lemma DrainDone(v0: View, v: View, crc: seq<byte> -> nat)
    requires Draining(v0, v, crc) && v.flows == []
    requires forall b :: 0 <= b < |v.cu| ==> v.cu[b] == []
    ensures ViewOk(v.(dark := {}), crc) && Drained(v0, v.(dark := {}))
  {
    NothingListed(v, crc);
    DrainedOwners(v, crc);
    DrainedHeads(v, crc);
    hide WorldOk, FlowsOk, OwnersOk, ListsOk, HeadsOk, Held;
  }

  lemma DrainedOwners(v: View, crc: seq<byte> -> nat)
    requires Coherent(v, crc)
    requires forall b :: 0 <= b < |v.bidx| ==> v.bidx[b] == [] && v.cu[b] == []
    ensures OwnersOk(v.(dark := {})) && v.w.mem.Keys == KeptRecords(v) + KeptNodes(v)
    ensures KeptRecords(v.(dark := {})) == KeptRecords(v) && KeptNodes(v.(dark := {})) == KeptNodes(v)
  {
    OnlyKeptLeft(v);
    var v' := v.(dark := {});
    forall a | a in v'.owner ensures OwnedAs(v', a, v'.owner[a]) {
      assert OwnedAs(v, a, v.owner[a]);
    }
  }

  lemma DrainedHeads(v: View, crc: seq<byte> -> nat)
    requires Coherent(v, crc)
    requires forall b :: 0 <= b < |v.bidx| ==> v.bidx[b] == [] && v.cu[b] == []
    ensures HeadsOk(v.(dark := {})) && FlowsOk(v.(dark := {}), crc) && ListsOk(v.(dark := {}))
    ensures forall b :: 0 <= b < |v.w.heads| ==> v.w.heads[b] == 0
  {
    forall b | 0 <= b < |v.bidx| ensures v.w.pubs[b] == EMPTY && v.w.heads[b] == 0 {
      EmptyBucket(v, crc, b);
    }
  }

  lemma DrainStart(v: View, crc: seq<byte> -> nat)
    requires ViewOk(v, crc) && !v.w.attached
    ensures Draining(v, v, crc)
  {
  }

  lemma DrainingIs(v0: View, v: View, crc: seq<byte> -> nat)
    requires Draining(v0, v, crc)
    ensures Coherent(v, crc) && |v.bidx| == |v0.bidx| == |v.cu| == |v.w.heads| && !v.w.attached
    ensures forall a :: Quiet(v.w, a)
  {
  }

  lemma DisownedIs(v: View, b: nat)
    requires b < |v.cu|
    ensures Disowned(v, b).w == v.w && Disowned(v, b).bidx == v.bidx && Disowned(v, b).flows == v.flows
    ensures Disowned(v, b).cu == v.cu[b := []]
  {
  }
}
