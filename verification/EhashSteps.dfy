/** The steps the table takes, on values: each one keeps the table coherent. */
module EhashSteps {
  import opened Bytes
  import opened Layout
  import opened Bucket
  import opened Epoch
  import opened EhashView

  /** Owners once bucket b holds exactly these flows and nodes; what it held before is kept. */
  function Reown(owner: map<Addr, Owner>, b: nat, recs: seq<Addr>, nodes: seq<Addr>): map<Addr, Owner> {
    map a | a in owner.Keys + Elems(nodes) ::
      if a in nodes then Node(b)
      else if a in recs then Record(b)
      else if owner[a] == Record(b) then KeptRecord
      else if owner[a] == Node(b) then KeptNode
      else owner[a]
  }

  /** A rebuild of bucket b: its flows, nodes, head word and image, and the memory, list and dark buckets after it. */
  datatype Change = Change(
    b: nat, fs: seq<Flow>, nodes: seq<Addr>, head: u64, pub: Pub, mem: Memory, flows: seq<Flow>, dark: set<nat>)

  /** The table after the one head store of a rebuild. */
  function Rebuild(v: View, c: Change): View
    requires c.b < |v.bidx| == |v.cu|
  {
    View(Apply(v.w.(mem := c.mem), HeadStore(c.b, c.head, c.pub)), v.bidx[c.b := c.fs], v.cu[c.b := c.nodes], c.flows,
         Reown(v.owner, c.b, RecsOf(c.fs), c.nodes), c.dark)
  }

  /** mem is the old memory plus the new nodes, which belong to nobody else. */
  ghost predicate NodesFit(v: View, b: nat, nodes: seq<Addr>, mem: Memory) {
    && NoDup(nodes)
    && mem.Keys == v.w.mem.Keys + Elems(nodes)
    && (forall a :: a in v.w.mem ==> mem[a] == v.w.mem[a])
    && (forall a :: a in nodes ==> |mem[a]| == CU_SIZE && (a in v.owner ==> v.owner[a] == Node(b)))
  }

  /** fs are good flows for bucket b whose records are its own or not linked anywhere. */
  ghost predicate FlowsFit(v: View, crc: seq<byte> -> nat, b: nat, fs: seq<Flow>) {
    && |v.bidx| > 0
    && NoDup(RecsOf(fs))
    && forall f :: f in fs ==>
         && FlowOk(v.w, crc, |v.bidx|, b, f)
         && f.rec in v.owner && (v.owner[f.rec] == Record(b) || v.owner[f.rec] == KeptRecord)
  }

  ghost predicate ListFits(v: View, b: nat, fs: seq<Flow>, flows: seq<Flow>) {
    NoDup(flows) && forall f :: f in flows <==> if f.index == b then f in fs else f in v.flows
  }

  ghost predicate ImageFits(v: View, b: nat, fs: seq<Flow>, nodes: seq<Addr>, head: u64, pub: Pub, mem: Memory,
                            dark: set<nat>) {
    && Published(mem, v.w.keySize, head, pub)
    && pub == (if b in dark then EMPTY else PubOf(mem, v.w.keySize, nodes, fs))
    && forall c :: c != b ==> (c in dark <==> c in v.dark)
  }

  lemma KeyKept(v: View, crc: seq<byte> -> nat, b: nat, f: Flow, mem: Memory)
    requires |v.bidx| > 0 && FlowOk(v.w, crc, |v.bidx|, b, f)
    requires f.rec in mem && f.rec in v.w.mem && mem[f.rec] == v.w.mem[f.rec]
    ensures FlowOk(v.w.(mem := mem), crc, |v.bidx|, b, f)
    ensures KeyOf(mem, v.w.keySize, f.rec) == KeyOf(v.w.mem, v.w.keySize, f.rec)
  {
  }

  lemma RebuildWorld(v: View, crc: seq<byte> -> nat, c: Change)
    requires Coherent(v, crc) && c.b < |v.bidx|
    requires NodesFit(v, c.b, c.nodes, c.mem) && ImageFits(v, c.b, c.fs, c.nodes, c.head, c.pub, c.mem, c.dark)
    ensures WorldOk(v.w.(mem := c.mem)) && WorldOk(Rebuild(v, c).w)
  {
    var w1 := v.w.(mem := c.mem);
    PublishedElsewhere(v.w, c.mem);
    assert Reach(w1) == Reach(v.w);
    ApplyKeepsWorldOk(w1, HeadStore(c.b, c.head, c.pub), false);
  }

  lemma RebuildFlows(v: View, crc: seq<byte> -> nat, c: Change)
    requires Coherent(v, crc) && c.b < |v.bidx|
    requires NodesFit(v, c.b, c.nodes, c.mem) && FlowsFit(v, crc, c.b, c.fs)
    ensures FlowsOk(Rebuild(v, c), crc)
  {
    hide WorldOk, OwnersOk, ListsOk, HeadsOk, FlowOk;
    var v' := Rebuild(v, c);
    forall d, f | 0 <= d < |v'.bidx| && f in v'.bidx[d] ensures FlowOk(v'.w, crc, |v'.bidx|, d, f) {
      RebuiltFlow(v, crc, c, d, f);
    }
  }

  /** A flow that was good for its bucket, or is one of the new ones, is good after the rebuild. */
  lemma RebuiltFlow(v: View, crc: seq<byte> -> nat, c: Change, d: nat, f: Flow)
    requires |v.bidx| == |v.cu| && FlowsOk(v, crc) && c.b < |v.bidx| && d < |v.bidx|
    requires NodesFit(v, c.b, c.nodes, c.mem) && FlowsFit(v, crc, c.b, c.fs)
    requires f in if d == c.b then c.fs else v.bidx[d]
    ensures FlowOk(Rebuild(v, c).w, crc, |v.bidx|, d, f)
  {
    assert FlowOk(v.w, crc, |v.bidx|, d, f);
    KeyKept(v, crc, d, f, c.mem);
  }

  lemma RecordIsListed(fs: seq<Flow>, f: Flow)
    requires f in fs
    ensures f.rec in RecsOf(fs)
  {
    var i :| 0 <= i < |fs| && fs[i] == f;
    assert RecsOf(fs)[i] == f.rec;
  }

  lemma ListedRecord(fs: seq<Flow>, a: Addr) returns (f: Flow)
    requires a in RecsOf(fs)
    ensures f in fs && f.rec == a
  {
    var i :| 0 <= i < |fs| && fs[i].rec == a;
    f := fs[i];
  }

  /** The records of fs are the bucket's own or linked nowhere, and none is a new node. */
  lemma RecordsFit(v: View, crc: seq<byte> -> nat, b: nat, fs: seq<Flow>, nodes: seq<Addr>, mem: Memory)
    requires NodesFit(v, b, nodes, mem) && FlowsFit(v, crc, b, fs)
    ensures forall a :: a in RecsOf(fs) ==>
              a in v.owner && (v.owner[a] == Record(b) || v.owner[a] == KeptRecord) && a !in nodes
  {
    forall a | a in RecsOf(fs) ensures a in v.owner && (v.owner[a] == Record(b) || v.owner[a] == KeptRecord) && a !in nodes {
      var f := ListedRecord(fs, a);
    }
  }

  lemma RebuildIndexOwned(v: View, crc: seq<byte> -> nat, c: Change)
    requires |v.cu| == |v.bidx| && OwnersOk(v) && c.b < |v.bidx|
    requires NodesFit(v, c.b, c.nodes, c.mem) && FlowsFit(v, crc, c.b, c.fs)
    ensures IndexOwned(Rebuild(v, c))
  {
    var v' := Rebuild(v, c);
    hide Apply, AllOwned, NodesOwned;
    RecordsFit(v, crc, c.b, c.fs, c.nodes, c.mem);
    hide FlowsFit;
    forall d, f | 0 <= d < |v'.bidx| && f in v'.bidx[d] ensures f.rec in v'.owner && v'.owner[f.rec] == Record(d) {
      if d == c.b { RecordIsListed(c.fs, f); }
    }
  }

  lemma RebuildNodesOwned(v: View, crc: seq<byte> -> nat, c: Change)
    requires |v.cu| == |v.bidx| && OwnersOk(v) && c.b < |v.bidx|
    requires NodesFit(v, c.b, c.nodes, c.mem) && FlowsFit(v, crc, c.b, c.fs)
    ensures NodesOwned(Rebuild(v, c))
  {
    var v' := Rebuild(v, c);
    hide Apply, AllOwned, IndexOwned;
    RecordsFit(v, crc, c.b, c.fs, c.nodes, c.mem);
    hide FlowsFit;
    forall d, a | 0 <= d < |v'.cu| && a in v'.cu[d] ensures a in v'.owner && v'.owner[a] == Node(d) {
      if d != c.b { assert a in v.owner && v.owner[a] == Node(d); }
    }
  }

  /** A block keeps an owner that fits it. */
  lemma RebuildOwned(v: View, crc: seq<byte> -> nat, c: Change, a: Addr)
    requires |v.cu| == |v.bidx| && OwnersOk(v) && c.b < |v.bidx|
    requires NodesFit(v, c.b, c.nodes, c.mem) && FlowsFit(v, crc, c.b, c.fs)
    requires a in Reown(v.owner, c.b, RecsOf(c.fs), c.nodes)
    ensures var v' := Rebuild(v, c); v'.w.mem == c.mem && OwnedAs(v', a, v'.owner[a])
  {
    hide IndexOwned, NodesOwned, AllOwned, FlowsFit, OwnedAs, Apply;
    RecordsFit(v, crc, c.b, c.fs, c.nodes, c.mem);
    if a in c.nodes || a in RecsOf(c.fs) {
      TakenOver(v, crc, c, a);
    } else {
      StillOwned(v, c, a);
    }
  }

  /** A new node, or a record of the new list. */
  lemma TakenOver(v: View, crc: seq<byte> -> nat, c: Change, a: Addr)
    requires |v.cu| == |v.bidx| && OwnersOk(v) && c.b < |v.bidx| && NodesFit(v, c.b, c.nodes, c.mem)
    requires if a in c.nodes then true else a in RecsOf(c.fs) && a in v.owner
    requires a !in c.nodes ==> v.owner[a] == Record(c.b) || v.owner[a] == KeptRecord
    ensures var v' := Rebuild(v, c); v'.w.mem == c.mem && a in v'.owner && OwnedAs(v', a, v'.owner[a])
  {
    hide IndexOwned, NodesOwned;
    if a !in c.nodes { assert OwnedAs(v, a, v.owner[a]); }
  }

  /** Any other block: kept now if it was the bucket's, otherwise owned as before. */
  lemma StillOwned(v: View, c: Change, a: Addr)
    requires |v.cu| == |v.bidx| && OwnersOk(v) && c.b < |v.bidx| && NodesFit(v, c.b, c.nodes, c.mem)
    requires a in v.owner && a !in c.nodes && a !in RecsOf(c.fs)
    ensures var v' := Rebuild(v, c); v'.w.mem == c.mem && a in v'.owner && OwnedAs(v', a, v'.owner[a])
  {
    hide IndexOwned, NodesOwned;
    assert OwnedAs(v, a, v.owner[a]);
  }

  lemma RebuildOwners(v: View, crc: seq<byte> -> nat, c: Change)
    requires Coherent(v, crc) && c.b < |v.bidx|
    requires NodesFit(v, c.b, c.nodes, c.mem) && FlowsFit(v, crc, c.b, c.fs)
    ensures OwnersOk(Rebuild(v, c))
  {
    hide IndexOwned, NodesOwned, FlowsFit, OwnedAs, WorldOk, FlowsOk, ListsOk, HeadsOk;
    var v' := Rebuild(v, c);
    RebuildIndexOwned(v, crc, c);
    RebuildNodesOwned(v, crc, c);
    forall a | a in v'.owner ensures OwnedAs(v', a, v'.owner[a]) {
      RebuildOwned(v, crc, c, a);
    }
  }

  lemma RebuildLists(v: View, crc: seq<byte> -> nat, c: Change)
    requires Coherent(v, crc) && c.b < |v.bidx|
    requires NodesFit(v, c.b, c.nodes, c.mem) && FlowsFit(v, crc, c.b, c.fs) && ListFits(v, c.b, c.fs, c.flows)
    ensures ListsOk(Rebuild(v, c))
  {
  }

  lemma RebuildHeads(v: View, crc: seq<byte> -> nat, c: Change)
    requires Coherent(v, crc) && c.b < |v.bidx|
    requires NodesFit(v, c.b, c.nodes, c.mem) && ImageFits(v, c.b, c.fs, c.nodes, c.head, c.pub, c.mem, c.dark)
    ensures HeadsOk(Rebuild(v, c))
  {
    var v' := Rebuild(v, c);
    forall d | 0 <= d < |v'.bidx|
      ensures v'.w.pubs[d] == if d in c.dark then EMPTY else PubOf(c.mem, v.w.keySize, v'.cu[d], v'.bidx[d])
    {
      if d != c.b {
        forall f | f in v.bidx[d] ensures KeyOf(c.mem, v.w.keySize, f.rec) == KeyOf(v.w.mem, v.w.keySize, f.rec) {
          KeyKept(v, crc, d, f, c.mem);
        }
        assert forall i :: 0 <= i < |v.bidx[d]| ==> v.bidx[d][i] in v.bidx[d];
        assert KeysOf(c.mem, v.w.keySize, v.bidx[d]) == KeysOf(v.w.mem, v.w.keySize, v.bidx[d]);
      }
    }
  }

  /** A rebuild of one bucket keeps the whole table coherent. */
  lemma RebuildKeeps(v: View, crc: seq<byte> -> nat, c: Change)
    requires Coherent(v, crc) && c.b < |v.bidx|
    requires NodesFit(v, c.b, c.nodes, c.mem) && ImageFits(v, c.b, c.fs, c.nodes, c.head, c.pub, c.mem, c.dark)
    requires FlowsFit(v, crc, c.b, c.fs) && ListFits(v, c.b, c.fs, c.flows)
    ensures Coherent(Rebuild(v, c), crc)
  {
    hide HeadsOk, ListsOk, OwnersOk, FlowsOk, WorldOk, FlowsFit, NodesFit, ListFits, Reown;
    RebuildWorld(v, crc, c);
    RebuildFlows(v, crc, c);
    RebuildOwners(v, crc, c);
    RebuildLists(v, crc, c);
    RebuildHeads(v, crc, c);
  }

  lemma KeptInMap(owner: map<Addr, Owner>, b: nat, recs0: seq<Addr>, nodes0: seq<Addr>, recs: seq<Addr>,
                  nodes: seq<Addr>)
    requires forall a :: a in recs0 <==> a in owner && owner[a] == Record(b)
    requires forall a :: a in nodes0 <==> a in owner && owner[a] == Node(b)
    requires forall a :: a in recs ==> a in owner && (owner[a] == Record(b) || owner[a] == KeptRecord) && a !in nodes
    requires forall a :: a in nodes && a in owner ==> owner[a] == Node(b)
    ensures Held(Reown(owner, b, recs, nodes), KeptRecord) == Held(owner, KeptRecord) + Elems(recs0) - Elems(recs)
    ensures Held(Reown(owner, b, recs, nodes), KeptNode) == Held(owner, KeptNode) + Elems(nodes0) - Elems(nodes)
  {
  }

  /** What a rebuild leaves over: the bucket's blocks it no longer uses. */
  lemma RebuildKept(v: View, crc: seq<byte> -> nat, c: Change)
    requires Coherent(v, crc) && c.b < |v.bidx|
    requires NodesFit(v, c.b, c.nodes, c.mem) && FlowsFit(v, crc, c.b, c.fs)
    ensures var v' := Rebuild(v, c);
            && KeptRecords(v') == KeptRecords(v) + Elems(RecsOf(v.bidx[c.b])) - Elems(RecsOf(c.fs))
            && KeptNodes(v') == KeptNodes(v) + Elems(v.cu[c.b]) - Elems(c.nodes)
  {
    hide FlowsOk, ListsOk, HeadsOk, WorldOk, IndexOwned, NodesOwned, AllOwned, FlowsFit, Apply, RecsOf, Reown, Held;
    RecordsOfBucket(v, c.b);
    NodesOfBucket(v, c.b);
    RecordsFit(v, crc, c.b, c.fs, c.nodes, c.mem);
    KeptInMap(v.owner, c.b, RecsOf(v.bidx[c.b]), v.cu[c.b], RecsOf(c.fs), c.nodes);
  }

  /** The table with a block that is linked nowhere, allocated or rewritten. */
  function WithLoose(v: View, a: Addr, bytes: seq<byte>): View {
    v.(w := v.w.(mem := v.w.mem[a := bytes]), owner := v.owner[a := KeptRecord])
  }

  lemma LooseKeeps(v: View, crc: seq<byte> -> nat, a: Addr, bytes: seq<byte>)
    requires Coherent(v, crc)
    requires |bytes| == FLOW_BLK_SIZE
    requires a in v.owner ==> v.owner[a] == KeptRecord
    ensures Coherent(WithLoose(v, a, bytes), crc)
    ensures DarkOk(v) ==> DarkOk(WithLoose(v, a, bytes))
    ensures KeptRecords(WithLoose(v, a, bytes)) == KeptRecords(v) + {a}
    ensures KeptNodes(WithLoose(v, a, bytes)) == KeptNodes(v)
  {
    hide WorldOk, FlowsOk, HeadsOk, OwnersOk, Held;
    LooseWorld(v, crc, a, bytes);
    LooseOwners(v, a, bytes);
    LooseFlows(v, crc, a, bytes);
    LooseHeld(v.owner, a);
  }

  lemma LooseHeld(owner: map<Addr, Owner>, a: Addr)
    requires a in owner ==> owner[a] == KeptRecord
    ensures Held(owner[a := KeptRecord], KeptRecord) == Held(owner, KeptRecord) + {a}
    ensures Held(owner[a := KeptRecord], KeptNode) == Held(owner, KeptNode)
  {
  }

  lemma LooseWorld(v: View, crc: seq<byte> -> nat, a: Addr, bytes: seq<byte>)
    requires Coherent(v, crc) && (a in v.owner ==> v.owner[a] == KeptRecord)
    ensures WorldOk(WithLoose(v, a, bytes).w)
  {
    var w' := WithLoose(v, a, bytes).w;
    if a in Reach(v.w) { ReachIsOwned(v, crc, a); }
    hide FlowsOk, HeadsOk, OwnersOk, ListsOk;
    PublishedElsewhere(v.w, w'.mem);
    assert Reach(w') == Reach(v.w);
  }

  lemma LooseOwners(v: View, a: Addr, bytes: seq<byte>)
    requires |v.cu| == |v.bidx| && OwnersOk(v) && |bytes| == FLOW_BLK_SIZE
    requires a in v.owner ==> v.owner[a] == KeptRecord
    ensures OwnersOk(WithLoose(v, a, bytes))
  {
    var v' := WithLoose(v, a, bytes);
    forall x | x in v'.owner ensures OwnedAs(v', x, v'.owner[x]) {
      if x != a { assert OwnedAs(v, x, v.owner[x]); }
    }
  }

  lemma LooseFlows(v: View, crc: seq<byte> -> nat, a: Addr, bytes: seq<byte>)
    requires |v.cu| == |v.bidx| == |v.w.pubs| && OwnersOk(v) && FlowsOk(v, crc) && HeadsOk(v)
    requires a in v.owner ==> v.owner[a] == KeptRecord
    ensures FlowsOk(WithLoose(v, a, bytes), crc) && HeadsOk(WithLoose(v, a, bytes))
  {
    var v' := WithLoose(v, a, bytes);
    forall b, f | 0 <= b < |v.bidx| && f in v.bidx[b] ensures FlowOk(v'.w, crc, |v.bidx|, b, f) && f.rec != a {
      assert FlowOk(v.w, crc, |v.bidx|, b, f) && v.owner[f.rec] == Record(b);
      KeyKept(v, crc, b, f, v'.w.mem);
    }
    SameHeads(v, v', crc);
  }

  /** Images only depend on the blocks the index names. */
  lemma SameHeads(v: View, v': View, crc: seq<byte> -> nat)
    requires |v.bidx| > 0 && |v.cu| == |v.bidx| == |v.w.pubs| && HeadsOk(v)
    requires v'.bidx == v.bidx && v'.cu == v.cu && v'.w.pubs == v.w.pubs && v'.dark == v.dark
    requires v'.w.keySize == v.w.keySize
    requires forall b, f :: 0 <= b < |v.bidx| && f in v.bidx[b] ==>
               f.rec in v.w.mem && f.rec in v'.w.mem && v'.w.mem[f.rec] == v.w.mem[f.rec]
    ensures HeadsOk(v')
  {
    forall b | 0 <= b < |v.bidx| ensures KeysOf(v'.w.mem, v.w.keySize, v.bidx[b]) == KeysOf(v.w.mem, v.w.keySize, v.bidx[b]) {
      assert forall i :: 0 <= i < |v.bidx[b]| ==> v.bidx[b][i] in v.bidx[b];
    }
  }

  /** The table without the kept blocks s. */
  function Without(v: View, s: set<Addr>): View {
    v.(w := v.w.(mem := v.w.mem - s, stamp := v.w.stamp - s), owner := v.owner - s)
  }

  ghost predicate AllKept(v: View, s: set<Addr>) {
    forall a :: a in s ==> a in v.owner && (v.owner[a] == KeptRecord || v.owner[a] == KeptNode)
  }

  lemma KeptIsUnreachable(v: View, crc: seq<byte> -> nat, s: set<Addr>)
    requires Coherent(v, crc) && AllKept(v, s)
    ensures s !! Reach(v.w) && s <= v.w.mem.Keys
    ensures v.w.mark == v.w.stores ==> forall a :: a in s ==> Quiet(v.w, a)
  {
    forall a | a in s ensures a !in Reach(v.w) {
      if a in Reach(v.w) { ReachIsOwned(v, crc, a); }
    }
  }

  lemma WithoutKeeps(v: View, crc: seq<byte> -> nat, s: set<Addr>)
    requires Coherent(v, crc) && AllKept(v, s)
    ensures Coherent(Without(v, s), crc)
    ensures DarkOk(v) ==> DarkOk(Without(v, s))
    ensures KeptRecords(Without(v, s)) == KeptRecords(v) - s && KeptNodes(Without(v, s)) == KeptNodes(v) - s
  {
    hide WorldOk, FlowsOk, HeadsOk, OwnersOk, AllKept;
    WithoutWorld(v, crc, s);
    WithoutOwners(v, s);
    WithoutFlows(v, crc, s);
  }

  lemma WithoutWorld(v: View, crc: seq<byte> -> nat, s: set<Addr>)
    requires Coherent(v, crc) && AllKept(v, s)
    ensures WorldOk(Without(v, s).w)
  {
    var w' := Without(v, s).w;
    KeptIsUnreachable(v, crc, s);
    hide FlowsOk, HeadsOk, OwnersOk, ListsOk, AllKept;
    PublishedElsewhere(v.w, w'.mem);
    assert Reach(w') == Reach(v.w);
  }

  lemma WithoutOwners(v: View, s: set<Addr>)
    requires |v.cu| == |v.bidx| && OwnersOk(v) && AllKept(v, s)
    ensures OwnersOk(Without(v, s))
  {
    var v' := Without(v, s);
    forall x | x in v'.owner ensures OwnedAs(v', x, v'.owner[x]) {
      assert OwnedAs(v, x, v.owner[x]);
    }
  }

  lemma WithoutFlows(v: View, crc: seq<byte> -> nat, s: set<Addr>)
    requires |v.cu| == |v.bidx| == |v.w.pubs| && OwnersOk(v) && FlowsOk(v, crc) && HeadsOk(v) && AllKept(v, s)
    ensures FlowsOk(Without(v, s), crc) && HeadsOk(Without(v, s))
  {
    var v' := Without(v, s);
    forall b, f | 0 <= b < |v.bidx| && f in v.bidx[b] ensures FlowOk(v'.w, crc, |v.bidx|, b, f) && f.rec !in s {
      assert FlowOk(v.w, crc, |v.bidx|, b, f) && v.owner[f.rec] == Record(b);
      KeyKept(v, crc, b, f, v'.w.mem);
    }
    SameHeads(v, v', crc);
  }
}
