/**
 * The flow table between calls, as a value: index, published nodes, flow list, the owner of
 * every pool block, and the buckets a failed delete rebuild took out of hardware.
 */
module EhashView {
  import opened Bytes
  import opened Layout
  import opened Bucket
  import opened Epoch
  import opened Options

  /** struct fman_pcd_ehash_flow; the record address is its identity. */
  datatype Flow = Flow(rec: Addr, index: nat, keySize: nat)

  /** Who holds a live pool block. Kept blocks are not linked: those a wedged SYNC left behind. */
  datatype Owner = Record(b: nat) | Node(b: nat) | KeptRecord | KeptNode

  /** bidx[b] lists bucket b's flows, cu[b] its published nodes, dark the buckets left to software. */
  datatype View = View(
    w: World, bidx: seq<seq<Flow>>, cu: seq<seq<Addr>>, flows: seq<Flow>,
    owner: map<Addr, Owner>, dark: set<nat>)

  predicate NoDup<T(==)>(s: seq<T>) {
    forall i, j :: 0 <= i < j < |s| ==> s[i] != s[j]
  }

  function RecsOf(fs: seq<Flow>): (r: seq<Addr>)
    ensures |r| == |fs|
    ensures forall i :: 0 <= i < |fs| ==> r[i] == fs[i].rec
  {
    seq(|fs|, i requires 0 <= i < |fs| => fs[i].rec)
  }

  /** The key stored in a record block. */
  function KeyOf(mem: Memory, keySize: nat, a: Addr): seq<byte> {
    if a in mem && FLOW_KEY_OFF + keySize <= |mem[a]| then mem[a][FLOW_KEY_OFF..FLOW_KEY_OFF + keySize] else []
  }

  function KeysOf(mem: Memory, keySize: nat, fs: seq<Flow>): (r: seq<seq<byte>>)
    ensures |r| == |fs|
    ensures forall i :: 0 <= i < |fs| ==> r[i] == KeyOf(mem, keySize, fs[i].rec)
  {
    seq(|fs|, i requires 0 <= i < |fs| => KeyOf(mem, keySize, fs[i].rec))
  }

  /** What a bucket with these nodes and flows exposes. */
  function PubOf(mem: Memory, keySize: nat, nodes: seq<Addr>, fs: seq<Flow>): Pub {
    Pub(nodes, RecsOf(fs), KeysOf(mem, keySize, fs))
  }

  /** The first j flows of a bucket without the one being deleted. */
  function KeepTo(fs: seq<Flow>, skip: Option<Flow>, j: nat): (r: seq<Flow>)
    requires j <= |fs|
    ensures forall f :: f in r ==> f in fs && skip != Some(f)
    ensures forall i :: 0 <= i < j && skip != Some(fs[i]) ==> fs[i] in r
  {
    if j == 0 then []
    else if skip == Some(fs[j - 1]) then KeepTo(fs, skip, j - 1)
    else KeepTo(fs, skip, j - 1) + [fs[j - 1]]
  }

  function Keep(fs: seq<Flow>, skip: Option<Flow>): (r: seq<Flow>)
    ensures forall f :: f in r <==> f in fs && skip != Some(f)
  {
    KeepTo(fs, skip, |fs|)
  }

  ghost predicate FlowOk(w: World, crc: seq<byte> -> nat, buckets: nat, b: nat, f: Flow)
    requires buckets > 0
  {
    && f.index == b && f.keySize == w.keySize
    && RecOk(w.mem, w.keySize, f.rec, KeyOf(w.mem, w.keySize, f.rec))
    && crc(KeyOf(w.mem, w.keySize, f.rec)) % buckets == b
  }

  ghost predicate OwnedAs(v: View, a: Addr, o: Owner)
    requires |v.cu| == |v.bidx|
  {
    && a in v.w.mem
    && match o
       case Record(b) => b < |v.bidx| && a in RecsOf(v.bidx[b]) && |v.w.mem[a]| == FLOW_BLK_SIZE
       case Node(b) => b < |v.cu| && a in v.cu[b] && |v.w.mem[a]| == CU_SIZE
       case KeptRecord => |v.w.mem[a]| == FLOW_BLK_SIZE
       case KeptNode => |v.w.mem[a]| == CU_SIZE
  }

  ghost predicate IndexOwned(v: View) {
    forall b, f :: 0 <= b < |v.bidx| && f in v.bidx[b] ==> f.rec in v.owner && v.owner[f.rec] == Record(b)
  }

  ghost predicate NodesOwned(v: View) {
    forall b, a :: 0 <= b < |v.cu| && a in v.cu[b] ==> a in v.owner && v.owner[a] == Node(b)
  }

  ghost predicate AllOwned(v: View)
    requires |v.cu| == |v.bidx|
  {
    forall a :: a in v.owner ==> OwnedAs(v, a, v.owner[a])
  }

  /** Every live block has one owner, and the index, the node lists and the owners agree. */
  ghost predicate OwnersOk(v: View)
    requires |v.cu| == |v.bidx|
  {
    v.owner.Keys == v.w.mem.Keys && IndexOwned(v) && NodesOwned(v) && AllOwned(v)
  }

  ghost predicate ListsOk(v: View) {
    && (forall b :: 0 <= b < |v.bidx| ==> NoDup(RecsOf(v.bidx[b])))
    && (forall b :: 0 <= b < |v.cu| ==> NoDup(v.cu[b]))
    && NoDup(v.flows)
    && (forall f :: f in v.flows <==> f.index < |v.bidx| && f in v.bidx[f.index])
  }

  /** Each head exposes exactly its bucket's index, except in dark buckets, which expose nothing. */
  ghost predicate HeadsOk(v: View)
    requires |v.cu| == |v.bidx| == |v.w.pubs|
  {
    forall b :: 0 <= b < |v.bidx| ==>
      v.w.pubs[b] == if b in v.dark then EMPTY else PubOf(v.w.mem, v.w.keySize, v.cu[b], v.bidx[b])
  }

  ghost predicate FlowsOk(v: View, crc: seq<byte> -> nat) {
    && |v.bidx| > 0
    && forall b, f :: 0 <= b < |v.bidx| && f in v.bidx[b] ==> FlowOk(v.w, crc, |v.bidx|, b, f)
  }

  /** What holds at every head store, drain included. */
  ghost predicate Coherent(v: View, crc: seq<byte> -> nat) {
    && WorldOk(v.w)
    && |v.bidx| == |v.cu| == |v.w.pubs|
    && FlowsOk(v, crc)
    && OwnersOk(v)
    && ListsOk(v)
    && HeadsOk(v)
    && (forall b :: b in v.dark ==> b < |v.bidx|)
  }

  /** Between calls only a bucket of several flows can be dark, and it has no nodes. */
  ghost predicate DarkOk(v: View)
    requires |v.cu| == |v.bidx|
  {
    forall b :: 0 <= b < |v.bidx| && b in v.dark ==> |v.bidx[b]| > 1 && v.cu[b] == []
  }

  ghost predicate ViewOk(v: View, crc: seq<byte> -> nat) {
    Coherent(v, crc) && DarkOk(v)
  }

  /** The record a software lookup (del_key, get_stats) of key finds in a bucket, 0 if none. */
  function Indexed(v: View, b: nat, key: seq<byte>): Addr
    requires b < |v.bidx|
  {
    FirstMatch(RecsOf(v.bidx[b]), KeysOf(v.w.mem, v.w.keySize, v.bidx[b]), key)
  }

  /** Hardware and software lookups agree on every key of every bucket that is not dark. */
  lemma HardwareSeesIndex(v: View, crc: seq<byte> -> nat, b: nat, key: seq<byte>)
    requires ViewOk(v, crc) && b < |v.bidx|
    ensures |v.w.pubs[b].recs| == |v.w.pubs[b].keys|
    ensures Answer(v.w.pubs[b], key) == if b in v.dark then 0 else Indexed(v, b, key)
    ensures v.w.heads[b] == 0 <==> v.bidx[b] == [] || b in v.dark
  {
    var p := v.w.pubs[b];
    SwabIsZeroOnlyForNull(Entry(p));
    OneNodeAtLeast(v.w.keySize, |p.recs|);
    BlocksAreLive(v.w.mem, v.w.keySize, p);
    if p.nodes != [] { assert NodeSliceOk(v.w.mem, v.w.keySize, p, 0); }
    if p.recs != [] { assert RecOk(v.w.mem, v.w.keySize, p.recs[0], p.keys[0]); }
  }

  /** Every block a head leads to belongs to that head's bucket. */
  lemma ReachIsOwned(v: View, crc: seq<byte> -> nat, a: Addr)
    requires Coherent(v, crc) && a in Reach(v.w)
    ensures a in v.owner && (v.owner[a].Record? || v.owner[a].Node?)
  {
    var b :| 0 <= b < |v.w.pubs| && a in Blocks(v.w.pubs[b]);
    if a in v.w.pubs[b].recs {
      var i :| 0 <= i < |v.bidx[b]| && v.bidx[b][i].rec == a;
      assert v.bidx[b][i] in v.bidx[b];
    }
    assert v.owner[a] == Record(b) || v.owner[a] == Node(b);
  }

  // ------------------------------------------------------------------ conservation

  function Total<T>(s: seq<seq<T>>): nat {
    if s == [] then 0 else Total(s[..|s| - 1]) + |s[|s| - 1]|
  }

  function NodeTotal(bidx: seq<seq<Flow>>, dark: set<nat>, keySize: nat): nat {
    if bidx == [] then 0
    else
      var b := |bidx| - 1;
      NodeTotal(bidx[..b], dark, keySize) + if b in dark then 0 else NodeCount(|bidx[b]|, keySize)
  }

  /** The blocks with owner o. */
  function Held(owner: map<Addr, Owner>, o: Owner): set<Addr> {
    set a | a in owner && owner[a] == o
  }

  function KeptRecords(v: View): set<Addr> {
    Held(v.owner, KeptRecord)
  }

  function KeptNodes(v: View): set<Addr> {
    Held(v.owner, KeptNode)
  }

  function LiveRecords(v: View): set<Addr> {
    set a | a in v.w.mem && |v.w.mem[a]| == FLOW_BLK_SIZE
  }

  function LiveNodes(v: View): set<Addr> {
    set a | a in v.w.mem && |v.w.mem[a]| == CU_SIZE
  }

  lemma {:induction false} NoDupCount(s: seq<Addr>)
    requires NoDup(s)
    ensures |Elems(s)| == |s|
  {
    if s != [] {
      var front, last := s[..|s| - 1], s[|s| - 1];
      NoDupCount(front);
      assert Elems(s) == Elems(front) + {last};
      assert last !in front;
    }
  }

  /** Records indexed in the first n buckets. */
  function RecordsBelow(v: View, n: nat): set<Addr> {
    set a | a in v.owner && v.owner[a].Record? && v.owner[a].b < n
  }

  function NodesBelow(v: View, n: nat): set<Addr> {
    set a | a in v.owner && v.owner[a].Node? && v.owner[a].b < n
  }

  ghost predicate Shape(v: View) {
    |v.cu| == |v.bidx| && OwnersOk(v)
  }

  /** Bucket b's records are exactly the blocks it owns as records. */
  lemma RecordsOfBucket(v: View, b: nat)
    requires Shape(v) && b < |v.bidx|
    ensures forall a :: a in RecsOf(v.bidx[b]) <==> a in v.owner && v.owner[a] == Record(b)
  {
    forall a | a in RecsOf(v.bidx[b]) ensures a in v.owner && v.owner[a] == Record(b) {
      var i :| 0 <= i < |v.bidx[b]| && v.bidx[b][i].rec == a;
      assert v.bidx[b][i] in v.bidx[b];
    }
    forall a | a in v.owner && v.owner[a] == Record(b) ensures a in RecsOf(v.bidx[b]) {
      assert OwnedAs(v, a, v.owner[a]);
    }
  }

  lemma NodesOfBucket(v: View, b: nat)
    requires Shape(v) && b < |v.cu|
    ensures forall a :: a in v.cu[b] <==> a in v.owner && v.owner[a] == Node(b)
  {
    forall a | a in v.owner && v.owner[a] == Node(b) ensures a in v.cu[b] {
      assert OwnedAs(v, a, v.owner[a]);
    }
  }

  lemma {:induction false} CountRecords(v: View, n: nat)
    requires Shape(v) && n <= |v.bidx|
    requires forall b :: 0 <= b < |v.bidx| ==> NoDup(RecsOf(v.bidx[b]))
    ensures |RecordsBelow(v, n)| == Total(v.bidx[..n])
  {
    hide AllOwned, IndexOwned, NodesOwned, NodeTotal;
    if n > 0 {
      CountRecords(v, n - 1);
      assert v.bidx[..n][..n - 1] == v.bidx[..n - 1];
      var rs := RecsOf(v.bidx[n - 1]);
      NoDupCount(rs);
      RecordsOfBucket(v, n - 1);
      assert RecordsBelow(v, n) == RecordsBelow(v, n - 1) + Elems(rs);
    } else {
      assert RecordsBelow(v, 0) == {};
    }
  }

  lemma {:induction false} CountNodes(v: View, n: nat)
    requires Shape(v) && n <= |v.bidx|
    requires forall b :: 0 <= b < |v.cu| ==> NoDup(v.cu[b])
    requires forall b :: 0 <= b < |v.cu| ==>
               |v.cu[b]| == if b in v.dark then 0 else NodeCount(|v.bidx[b]|, v.w.keySize)
    ensures |NodesBelow(v, n)| == NodeTotal(v.bidx[..n], v.dark, v.w.keySize)
  {
    hide AllOwned, IndexOwned, NodesOwned, NodeCount;
    if n > 0 {
      CountNodes(v, n - 1);
      assert v.bidx[..n][..n - 1] == v.bidx[..n - 1];
      NoDupCount(v.cu[n - 1]);
      NodesOfBucket(v, n - 1);
      assert NodesBelow(v, n) == NodesBelow(v, n - 1) + Elems(v.cu[n - 1]);
    } else {
      assert NodesBelow(v, 0) == {};
    }
  }

  lemma NodeListSize(v: View, crc: seq<byte> -> nat, b: nat)
    requires ViewOk(v, crc) && b < |v.cu|
    ensures |v.cu[b]| == if b in v.dark then 0 else NodeCount(|v.bidx[b]|, v.w.keySize)
  {
    assert Published(v.w.mem, v.w.keySize, v.w.heads[b], v.w.pubs[b]);
  }

  /** The live blocks fall into indexed and kept ones. */
  lemma LiveBlocksSplit(v: View)
    requires Shape(v)
    ensures LiveRecords(v) == RecordsBelow(v, |v.bidx|) + KeptRecords(v)
    ensures LiveNodes(v) == NodesBelow(v, |v.bidx|) + KeptNodes(v)
    ensures LiveRecords(v) + LiveNodes(v) == v.w.mem.Keys
  {
    forall a | a in v.owner ensures OwnedAs(v, a, v.owner[a]) {
    }
    assert forall a :: a in v.w.mem ==> a in v.owner;
  }

  /**
   * Conservation of pool blocks: every live record is indexed or kept, every live node belongs
   * to a published bucket of more than one flow or is kept.
   */
  lemma BlocksAreConserved(v: View, crc: seq<byte> -> nat)
    requires ViewOk(v, crc)
    ensures |LiveRecords(v)| == Total(v.bidx) + |KeptRecords(v)|
    ensures |LiveNodes(v)| == NodeTotal(v.bidx, v.dark, v.w.keySize) + |KeptNodes(v)|
    ensures LiveRecords(v) + LiveNodes(v) == v.w.mem.Keys
  {
    var n := |v.bidx|;
    forall b | 0 <= b < |v.cu| ensures |v.cu[b]| == if b in v.dark then 0 else NodeCount(|v.bidx[b]|, v.w.keySize) {
      NodeListSize(v, crc, b);
    }
    CountRecords(v, n);
    CountNodes(v, n);
    assert v.bidx[..n] == v.bidx;
    LiveBlocksSplit(v);
    assert RecordsBelow(v, n) !! KeptRecords(v) && NodesBelow(v, n) !! KeptNodes(v);
  }
}
