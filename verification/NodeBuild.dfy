/**
 * The loops of fman_pcd_ehash_bucket_publish and fman_pcd_ehash_cu_free, on the block pools.
 * Each returns the bus events of its stores, allocations and frees.
 */
module NodeBuild {
  import opened Bytes
  import opened Layout
  import opened Bucket
  import opened Epoch
  import opened Options
  import opened EhashView
  import opened EhashHistory
  import opened NodeFill
  import opened Pools

  /** From world w, the events evs are disciplined and change memory to mem and stamps to stamp, no more. */
  ghost predicate Track(w: World, evs: seq<Event>, mem: Memory, stamp: map<Addr, nat>, quiet: bool) {
    match Replay(w, evs)
    case World(keySize, m, heads, pubs, st, stores, armed, mark, attached) =>
      && Disciplined(w, evs, quiet) && Plain(evs, false)
      && m == mem && st == stamp
      && w == World(keySize, w.mem, heads, pubs, w.stamp, stores, armed, mark, attached)
  }

  lemma TrackIs(w: World, evs: seq<Event>, mem: Memory, stamp: map<Addr, nat>, quiet: bool)
    requires Track(w, evs, mem, stamp, quiet)
    ensures Disciplined(w, evs, quiet) && Replay(w, evs) == w.(mem := mem, stamp := stamp)
    ensures forall hasFman :: Plain(evs, hasFman)
  {
  }

  lemma TrackNothing(w: World, quiet: bool)
    ensures Track(w, [], w.mem, w.stamp, quiet)
  {
  }

  /** A CPU store into a pool block. */
  datatype Store = Store(a: Addr, off: nat, data: seq<byte>)

  /** Memory after the stores, ignoring any that do not fit a live block. */
  function Play(mem: Memory, stores: seq<Store>): Memory {
    if stores == [] then mem
    else
      var m, s := Play(mem, stores[..|stores| - 1]), stores[|stores| - 1];
      if s.a in m && s.off + |s.data| <= |m[s.a]| then m[s.a := Splice(m[s.a], s.off, s.data)] else m
  }

  /** The stores all fit live blocks among targets and take m0 to mem. */
  ghost predicate Played(m0: Memory, targets: set<Addr>, stores: seq<Store>, mem: Memory)
    decreases |stores|
  {
    match stores
    case _ =>
      if stores == [] then mem == m0
      else
        var before, s := Play(m0, stores[..|stores| - 1]), stores[|stores| - 1];
        && s.a in targets && s.a in before && s.off + |s.data| <= |before[s.a]|
        && mem == before[s.a := Splice(before[s.a], s.off, s.data)]
        && Played(m0, targets, stores[..|stores| - 1], before)
  }

  function Events(stores: seq<Store>): (evs: seq<Event>)
    ensures |evs| == |stores|
  {
    if stores == [] then []
    else Events(stores[..|stores| - 1]) + [Write(stores[|stores| - 1].a, stores[|stores| - 1].off, stores[|stores| - 1].data)]
  }

  lemma {:induction false} PlayedIsPlay(m0: Memory, targets: set<Addr>, stores: seq<Store>, mem: Memory)
    requires Played(m0, targets, stores, mem)
    ensures mem == Play(m0, stores)
  {
  }

  lemma PlayedMore(m0: Memory, targets: set<Addr>, stores: seq<Store>, mem: Memory, a: Addr, off: nat, data: seq<byte>)
    requires Played(m0, targets, stores, mem) && a in targets && a in mem && off + |data| <= |mem[a]|
    ensures Played(m0, targets, stores + [Store(a, off, data)], mem[a := Splice(mem[a], off, data)])
  {
    PlayedIsPlay(m0, targets, stores, mem);
    assert (stores + [Store(a, off, data)])[..|stores|] == stores;
  }

  /** Stores to blocks no walker was ever led to are disciplined. */
  lemma {:induction false} PlayedIsTracked(w: World, evs: seq<Event>, m0: Memory, targets: set<Addr>,
                                           stores: seq<Store>, mem: Memory, quiet: bool)
    requires Track(w, evs, m0, w.stamp, quiet)
    requires Played(m0, targets, stores, mem) && targets !! w.stamp.Keys
    ensures Track(w, evs + Events(stores), mem, w.stamp, quiet)
    decreases |stores|
  {
    hide Track;
    if stores == [] {
      assert evs + [] == evs;
    } else {
      var front, s := stores[..|stores| - 1], stores[|stores| - 1];
      var before := Play(m0, front);
      PlayedIsTracked(w, evs, m0, targets, front, before, quiet);
      TrackWrite(w, evs + Events(front), before, quiet, s);
      assert evs + Events(stores) == evs + Events(front) + [Write(s.a, s.off, s.data)];
    }
  }

  lemma TrackWrite(w: World, evs: seq<Event>, mem: Memory, quiet: bool, s: Store)
    requires Track(w, evs, mem, w.stamp, quiet)
    requires s.a in mem && s.off + |s.data| <= |mem[s.a]| && s.a !in w.stamp
    ensures Track(w, evs + [Write(s.a, s.off, s.data)], mem[s.a := Splice(mem[s.a], s.off, s.data)], w.stamp, quiet)
  {
    Extend(w, evs, Write(s.a, s.off, s.data), quiet);
  }

  /** A log and the tracked events after it make one disciplined log. */
  lemma {:induction false} Concatenate(w0: World, log: seq<Event>, evs: seq<Event>, quiet: bool)
    requires Disciplined(w0, log, quiet) && Disciplined(Replay(w0, log), evs, quiet)
    ensures Disciplined(w0, log + evs, quiet) && Replay(w0, log + evs) == Replay(Replay(w0, log), evs)
  {
    hide *;
    if evs == [] {
      assert log + [] == log;
      ReplayNothing(Replay(w0, log), quiet);
    } else {
      var front, e := evs[..|evs| - 1], evs[|evs| - 1];
      Front(Replay(w0, log), evs, quiet);
      Concatenate(w0, log, front, quiet);
      Extend(w0, log + front, e, quiet);
      assert log + evs == log + front + [e];
    }
  }

  lemma TrackAlloc(w: World, evs: seq<Event>, mem: Memory, quiet: bool, a: Addr, size: nat)
    requires Track(w, evs, mem, w.stamp, quiet)
    requires a != 0 && a % 256 == 0 && a !in mem && size > 0
    ensures Track(w, evs + [Alloc(a, size)], mem[a := Zeros(size)], w.stamp, quiet)
  {
    Extend(w, evs, Alloc(a, size), quiet);
  }

  lemma TrackFree(w: World, evs: seq<Event>, mem: Memory, stamp: map<Addr, nat>, quiet: bool, a: Addr)
    requires Track(w, evs, mem, stamp, quiet)
    requires a in mem && a !in Reach(w)
    requires quiet ==> a !in stamp || w.mark > stamp[a] || !w.attached
    ensures Track(w, evs + [Free(a)], mem - {a}, stamp - {a}, quiet)
  {
    assert Reach(w.(mem := mem, stamp := stamp)) == Reach(w);
    Extend(w, evs, Free(a), quiet);
  }

  lemma SelfUpdate(m: Memory, a: Addr)
    requires a in m
    ensures m[a := m[a]] == m
  {
  }

  lemma PutPut(m: Memory, a: Addr, x: seq<byte>, y: seq<byte>)
    ensures m[a := x][a := y] == m[a := y]
  {
  }

  /** A store to the node at a, whose bytes so far are node. */
  lemma NodeStore(m0: Memory, targets: set<Addr>, stores: seq<Store>, mem: Memory, a: Addr, node: seq<byte>, off: nat,
                  data: seq<byte>)
    requires Played(m0, targets, stores, mem[a := node]) && a in targets && off + |data| <= |node|
    ensures Played(m0, targets, stores + [Store(a, off, data)], mem[a := Splice(node, off, data)])
  {
    PlayedMore(m0, targets, stores, mem[a := node], a, off, data);
    PutPut(mem, a, node, Splice(node, off, data));
  }

  /** The stores that open a node: its four header bytes, and its link if it has one. */
  lemma HeaderStores(m0: Memory, targets: set<Addr>, stores: seq<Store>, mem: Memory, a: Addr, node: seq<byte>,
                     keySize: nat, m: nat, next: Addr)
      returns (stores': seq<Store>)
    requires Played(m0, targets, stores, mem[a := node]) && a in targets
    requires |node| == CU_SIZE && KeySizeOk(keySize) && m <= Per(keySize)
    ensures Played(m0, targets, stores', mem[a := WithHeader(node, keySize, m, next)])
  {
    NodeFits(keySize, m);
    var head := [CU_NODE, m, Stride(keySize), PtrBase(keySize, m)];
    NodeStore(m0, targets, stores, mem, a, node, 0, head);
    var h := Splice(node, 0, head);
    stores' := stores + [Store(a, 0, head)];
    if next != 0 {
      NodeStore(m0, targets, stores', mem, a, h, 0, [CU_NODE + CU_NEXT]);
      stores' := stores' + [Store(a, 0, [CU_NODE + CU_NEXT])];
      NodeStore(m0, targets, stores', mem, a, Splice(h, 0, [CU_NODE + CU_NEXT]), 4, Be64(next));
      stores' := stores' + [Store(a, 4, Be64(next))];
    }
  }

  lemma OpenStores(m0: Memory, targets: set<Addr>, stores: seq<Store>, mem: Memory, a: Addr, keySize: nat, m: nat,
                   k: nat, next: Addr)
      returns (stores': seq<Store>)
    requires Played(m0, targets, stores, mem) && a in targets
    requires a in mem && KeySizeOk(keySize) && |mem[a]| == CU_SIZE && m <= Per(keySize)
    ensures Played(m0, targets, stores', mem[a := Opened(mem[a], keySize, m, k, next)])
  {
    SelfUpdate(mem, a);
    stores' := stores;
    if k == 0 {
      stores' := HeaderStores(m0, targets, stores, mem, a, mem[a], keySize, m, next);
    }
  }

  /** The stores of one entry: header first if it is the node's first, then key and pointer. */
  lemma EntryStores(m0: Memory, targets: set<Addr>, stores: seq<Store>, mem: Memory, a: Addr,
                    keySize: nat, m: nat, k: nat, key: seq<byte>, ptr: Addr, next: Addr)
      returns (stores': seq<Store>)
    requires Played(m0, targets, stores, mem) && a in targets
    requires a in mem && KeySizeOk(keySize)
    requires |mem[a]| == CU_SIZE && k < m <= Per(keySize) && |key| == keySize
    requires k > 0 ==> mem[a][3] == PtrBase(keySize, m)
    ensures Played(m0, targets, stores', mem[a := Stored(mem[a], keySize, m, k, key, ptr, next)])
  {
    hide *;
    var h := Opened(mem[a], keySize, m, k, next);
    StoredBytes(mem[a], keySize, m, k, key, ptr, next);
    stores' := OpenStores(m0, targets, stores, mem, a, keySize, m, k, next);
    NodeStore(m0, targets, stores', mem, a, h, KeyOff(keySize, k), key);
    stores' := stores' + [Store(a, KeyOff(keySize, k), key)];
    NodeStore(m0, targets, stores', mem, a, Splice(h, KeyOff(keySize, k), key), PtrPos(h, k), Be64(ptr));
    stores' := stores' + [Store(a, PtrPos(h, k), Be64(ptr))];
  }

  /** The publish loop after done entries: its memory and its counters. */
  ghost predicate AtEntry(m0: Memory, keySize: nat, p: Pub, done: nat, mem: Memory, i: nat, k: nat) {
    match Counters(keySize, |p.recs|, done)
    case (ci, ck) => i == ci && k == ck && mem == FillTo(m0, keySize, p, done)
  }

  lemma IterationIs(m0: Memory, keySize: nat, p: Pub, done: nat, mem: Memory, i: nat, k: nat)
    requires Zeroed(m0, keySize, p) && done < |p.recs| && AtEntry(m0, keySize, p, done, mem, i, k)
    ensures i < |p.nodes| && p.nodes[i] in mem && |mem[p.nodes[i]]| == CU_SIZE
    ensures p.nodes[i] in Elems(p.nodes) && done < |p.keys| && |p.keys[done]| == keySize
    ensures var m := SlotCount(keySize, |p.recs|, i);
            && KeySizeOk(keySize) && k < m <= Per(keySize) && (k > 0 ==> mem[p.nodes[i]][3] == PtrBase(keySize, m))
            && var node := Stored(mem[p.nodes[i]], keySize, m, k, p.keys[done], p.recs[done], NextNode(p.nodes, i));
               AtEntry(m0, keySize, p, done + 1, mem[p.nodes[i] := node], if k + 1 == m then i + 1 else i, if k + 1 == m then 0 else k + 1)
  {
    FillIteration(m0, keySize, p, done, i, k);
    CountersStep(keySize, |p.recs|, done, i, k);
  }

  /** What one iteration of the loop needs, the node it writes to, and where it gets to. */
  lemma EntryIteration(m0: Memory, keySize: nat, p: Pub, done: nat, mem: Memory, i: nat, k: nat, rec: Addr,
                       stores: seq<Store>)
      returns (stores': seq<Store>)
    requires Zeroed(m0, keySize, p) && done < |p.recs| && AtEntry(m0, keySize, p, done, mem, i, k)
    requires Played(m0, Elems(p.nodes), stores, mem)
    requires rec == p.recs[done] && KeyOf(mem, keySize, rec) == p.keys[done]
    ensures i < |p.nodes| && p.nodes[i] in mem && |mem[p.nodes[i]]| == CU_SIZE
    ensures KeySizeOk(keySize) && SlotCount(keySize, |p.recs|, i) <= Per(keySize)
    ensures var m := SlotCount(keySize, |p.recs|, i);
            var h := Opened(mem[p.nodes[i]], keySize, m, k, NextNode(p.nodes, i));
            && |h| == CU_SIZE
            && var key := KeyOf(mem, keySize, rec);
            && KeyOff(keySize, k) + |key| <= CU_SIZE && PtrPos(h, k) + 8 <= CU_SIZE
            && var mem' := mem[p.nodes[i] := Splice(Splice(h, KeyOff(keySize, k), key), PtrPos(h, k), Be64(rec))];
            && AtEntry(m0, keySize, p, done + 1, mem', if k + 1 == m then i + 1 else i, if k + 1 == m then 0 else k + 1)
            && Played(m0, Elems(p.nodes), stores', mem')
  {
    hide *;
    IterationIs(m0, keySize, p, done, mem, i, k);
    StoredBytes(mem[p.nodes[i]], keySize, SlotCount(keySize, |p.recs|, i), k, p.keys[done], rec, NextNode(p.nodes, i));
    stores' := EntryStores(m0, Elems(p.nodes), stores, mem, p.nodes[i], keySize, SlotCount(keySize, |p.recs|, i), k,
                           p.keys[done], rec, NextNode(p.nodes, i));
  }

  lemma FillEnds(m0: Memory, keySize: nat, p: Pub, fs: seq<Flow>, skip: Option<Flow>, nodes: seq<Addr>)
    requires p == PubOf(m0, keySize, nodes, Keep(fs, skip))
    ensures p.nodes == nodes && p.recs == RecsOf(Keep(fs, skip)) && p.keys == KeysOf(m0, keySize, Keep(fs, skip))
    ensures |p.recs| == |KeepTo(fs, skip, |fs|)| && KeepTo(fs, skip, 0) == []
    ensures Played(m0, Elems(nodes), [], m0) && AtEntry(m0, keySize, p, 0, m0, 0, 0)
  {
  }

  lemma AtEnd(m0: Memory, keySize: nat, p: Pub, done: nat, mem: Memory, i: nat, k: nat)
    requires AtEntry(m0, keySize, p, done, mem, i, k)
    ensures mem == FillTo(m0, keySize, p, done)
  {
  }

  /** The second loop of fman_pcd_ehash_bucket_publish: every kept flow into its node. */
  method Fill(m0: Memory, keySize: nat, fs: seq<Flow>, skip: Option<Flow>, nodes: seq<Addr>, n: nat, ghost p: Pub)
      returns (mem: Memory, ghost stores: seq<Store>)
    requires KeySizeOk(keySize) && FlowsReadable(m0, keySize, fs) && n == |Keep(fs, skip)| > 1
    requires p == PubOf(m0, keySize, nodes, Keep(fs, skip))
    requires Zeroed(m0, keySize, p)
    requires forall f :: f in fs ==> f.rec !in nodes
    ensures mem == FillTo(m0, keySize, p, n)
    ensures Played(m0, Elems(nodes), stores, mem)
  {
    hide *;
    FillEnds(m0, keySize, p, fs, skip, nodes);
    mem, stores := m0, [];
    var j: nat, i: nat, k: nat := 0, 0, 0;
    while j < |fs|
      invariant 0 <= j <= |fs|
      invariant Played(m0, Elems(nodes), stores, mem)
      invariant |KeepTo(fs, skip, j)| <= n && AtEntry(m0, keySize, p, |KeepTo(fs, skip, j)|, mem, i, k)
    {
      AtEnd(m0, keySize, p, |KeepTo(fs, skip, j)|, mem, i, k);
      ListIteration(m0, keySize, fs, skip, p, j);
      if skip != Some(fs[j]) {
        stores := EntryIteration(m0, keySize, p, |KeepTo(fs, skip, j)|, mem, i, k, fs[j].rec, stores);
        var m := SlotCount(keySize, n, i);
        var node := Opened(mem[nodes[i]], keySize, m, k, NextNode(nodes, i));
        var at := PtrPos(node, k);
        node := Splice(node, KeyOff(keySize, k), KeyOf(mem, keySize, fs[j].rec));
        node := Splice(node, at, Be64(fs[j].rec));
        mem := mem[nodes[i] := node];
        k := k + 1;
        if k == m {
          k, i := 0, i + 1;
        }
      }
      j := j + 1;
    }
    AtEnd(m0, keySize, p, n, mem, i, k);
  }

  /** fman_pcd_ehash_cu_free */
  method CuFree(m0: Memory, nodes: seq<Addr>, ghost w: World, ghost evs: seq<Event>, ghost stamp: map<Addr, nat>,
                ghost quiet: bool)
      returns (mem: Memory, ghost evs': seq<Event>)
    requires Track(w, evs, m0, stamp, quiet)
    requires NoDup(nodes) && Elems(nodes) <= m0.Keys && Elems(nodes) !! Reach(w)
    requires quiet ==> forall a :: a in nodes ==> a !in stamp || w.mark > stamp[a] || !w.attached
    ensures mem == m0 - Elems(nodes)
    ensures Track(w, evs', mem, stamp - Elems(nodes), quiet)
  {
    mem, evs' := m0, evs;
    var i := 0;
    assert m0 - Elems(nodes[..0]) == m0 && stamp - Elems(nodes[..0]) == stamp;
    hide Track;
    while i < |nodes|
      invariant 0 <= i <= |nodes|
      invariant mem == m0 - Elems(nodes[..i])
      invariant Track(w, evs', mem, stamp - Elems(nodes[..i]), quiet)
    {
      assert nodes[i] in Elems(nodes) && nodes[i] !in nodes[..i];
      TrackFree(w, evs', mem, stamp - Elems(nodes[..i]), quiet, nodes[i]);
      RemoveNext(m0, nodes, i);
      RemoveNext(stamp, nodes, i);
      mem := mem - {nodes[i]};
      evs' := evs' + [Free(nodes[i])];
      i := i + 1;
    }
    assert nodes[..i] == nodes;
  }

  lemma RemoveNext<V>(m: map<Addr, V>, nodes: seq<Addr>, i: nat)
    requires i < |nodes|
    ensures m - Elems(nodes[..i]) - {nodes[i]} == m - Elems(nodes[..i + 1])
  {
    assert Elems(nodes[..i + 1]) == Elems(nodes[..i]) + {nodes[i]};
  }

  lemma UngrowIsUndone(m: Memory, nodes: seq<Addr>)
    requires Elems(nodes) !! m.Keys
    ensures Grown(m, nodes) - Elems(nodes) == m
  {
  }

  /** The node list and its nodes; on any failure everything taken is given back. */
  method AllocNodes(m0: Memory, count: nat, pool: Pool, ghost w: World, ghost evs: seq<Event>, ghost quiet: bool)
      returns (ok: bool, nodes: seq<Addr>, mem: Memory, ghost evs': seq<Event>)
    requires PoolOk(pool)
    requires Track(w, evs, m0, w.stamp, quiet)
    requires Reach(w) <= w.stamp.Keys <= m0.Keys
    ensures ok <==> pool.list && Nodes(pool, m0.Keys, count).Some?
    ensures ok ==> |nodes| == count && NoDup(nodes) && Elems(nodes) !! m0.Keys
    ensures ok ==> forall a :: a in nodes ==> a != 0 && a % 256 == 0
    ensures mem == if ok then Grown(m0, nodes) else m0
    ensures Track(w, evs', mem, w.stamp, quiet)
  {
    hide Track, Reach, Nodes, PoolOk, Grown, NoDup, Elems;
    ok, nodes, mem, evs' := false, [], m0, evs;
    NothingTaken(m0, pool);
    if !pool.list {
      return;
    }
    while |nodes| < count
      invariant |nodes| <= count && FreshNodes(m0, pool, nodes)
      invariant mem == Grown(m0, nodes) && Track(w, evs', mem, w.stamp, quiet)
    {
      var a := pool.node(mem.Keys, |nodes|);
      TakeNode(m0, pool, nodes, count, a);
      if a == 0 {
        NodesAreFree(m0, pool, nodes, w);
        mem, evs' := CuFree(mem, nodes, w, evs', w.stamp, quiet);
        return;
      }
      TrackAlloc(w, evs', mem, quiet, a, CU_SIZE);
      evs' := evs' + [Alloc(a, CU_SIZE)];
      mem := mem[a := Zeros(CU_SIZE)];
      nodes := nodes + [a];
    }
    FreshNodesAre(m0, pool, nodes);
    ok := true;
  }

  /** The nodes taken so far: aligned blocks that were not live, in the pool's order. */
  ghost predicate FreshNodes(m0: Memory, pool: Pool, nodes: seq<Addr>) {
    match Nodes(pool, m0.Keys, |nodes|)
    case None => false
    case Some(s) =>
      s == nodes && NoDup(nodes) && Elems(nodes) !! m0.Keys && forall a :: a in nodes ==> a != 0 && a % 256 == 0
  }

  lemma FreshNodesAre(m0: Memory, pool: Pool, nodes: seq<Addr>)
    requires FreshNodes(m0, pool, nodes)
    ensures NoDup(nodes) && Elems(nodes) !! m0.Keys && forall a :: a in nodes ==> a != 0 && a % 256 == 0
    ensures Nodes(pool, m0.Keys, |nodes|).Some?
  {
  }

  lemma NothingTaken(m0: Memory, pool: Pool)
    ensures FreshNodes(m0, pool, []) && Grown(m0, []) == m0
  {
  }

  /** The next allocation succeeds with a fresh node, or the whole list fails. */
  lemma TakeNode(m0: Memory, pool: Pool, nodes: seq<Addr>, count: nat, a: Addr)
    requires PoolOk(pool) && FreshNodes(m0, pool, nodes) && |nodes| < count
    requires a == pool.node(Grown(m0, nodes).Keys, |nodes|)
    ensures a == 0 ==> Nodes(pool, m0.Keys, count).None?
    ensures a != 0 ==> a % 256 == 0 && a !in Grown(m0, nodes) && FreshNodes(m0, pool, nodes + [a])
    ensures a != 0 ==> Grown(m0, nodes)[a := Zeros(CU_SIZE)] == Grown(m0, nodes + [a])
  {
    hide FreshNodes, Grown, Nodes, PoolOk;
    GrownKeys(m0, nodes);
    NextNodeIs(m0, pool, nodes, a);
    if a == 0 {
      NoNodesAfter(pool, m0.Keys, |nodes| + 1, count);
    } else {
      GrownByOne(m0, nodes, a);
    }
  }

  lemma GrownKeys(m0: Memory, nodes: seq<Addr>)
    ensures Grown(m0, nodes).Keys == m0.Keys + Elems(nodes)
  {
  }

  lemma NextNodeIs(m0: Memory, pool: Pool, nodes: seq<Addr>, a: Addr)
    requires PoolOk(pool) && FreshNodes(m0, pool, nodes) && a == pool.node(m0.Keys + Elems(nodes), |nodes|)
    ensures a == 0 ==> Nodes(pool, m0.Keys, |nodes| + 1).None?
    ensures a % 256 == 0 && (a != 0 ==> a !in m0.Keys + Elems(nodes) && a !in nodes && FreshNodes(m0, pool, nodes + [a]))
  {
    assert FreeBlock(a, m0.Keys + Elems(nodes));
    assert Elems(nodes + [a]) == Elems(nodes) + {a};
  }

  lemma NodesAreFree(m0: Memory, pool: Pool, nodes: seq<Addr>, w: World)
    requires FreshNodes(m0, pool, nodes) && Reach(w) <= w.stamp.Keys <= m0.Keys
    ensures NoDup(nodes) && Elems(nodes) <= Grown(m0, nodes).Keys && Elems(nodes) !! Reach(w)
    ensures forall a :: a in nodes ==> a !in w.stamp
    ensures Grown(m0, nodes) - Elems(nodes) == m0 && w.stamp - Elems(nodes) == w.stamp
  {
    UngrowIsUndone(m0, nodes);
    assert w.stamp - Elems(nodes) == w.stamp;
  }

  lemma KeptNext(fs: seq<Flow>, skip: Option<Flow>, j: nat)
    requires j < |fs|
    ensures KeepTo(fs, skip, j + 1) == if skip == Some(fs[j]) then KeepTo(fs, skip, j) else KeepTo(fs, skip, j) + [fs[j]]
  {
  }

  /** The first loop of fman_pcd_ehash_bucket_publish: how many flows stay, and the last of them. */
  method CountKept(fs: seq<Flow>, skip: Option<Flow>) returns (n: nat, only: Option<Flow>)
    ensures n == |Keep(fs, skip)|
    ensures only == if n > 0 then Some(Keep(fs, skip)[n - 1]) else None
  {
    n, only := 0, None;
    var j := 0;
    while j < |fs|
      invariant 0 <= j <= |fs| && n == |KeepTo(fs, skip, j)|
      invariant only == if n > 0 then Some(KeepTo(fs, skip, j)[n - 1]) else None
    {
      KeptNext(fs, skip, j);
      if skip != Some(fs[j]) {
        only := Some(fs[j]);
        n := n + 1;
      }
      j := j + 1;
    }
  }

  /** The chain of a bucket with several flows, from its allocated nodes. */
  lemma ChainIsBuilt(m0: Memory, keySize: nat, nodes: seq<Addr>, fs: seq<Flow>, skip: Option<Flow>, p: Pub)
    requires KeySizeOk(keySize) && FlowsReadable(m0, keySize, fs) && |Keep(fs, skip)| > 1
    requires NoDup(nodes) && |nodes| == NodeCount(|Keep(fs, skip)|, keySize) && Elems(nodes) !! m0.Keys
    requires forall a :: a in nodes ==> a != 0 && a % 256 == 0
    requires p == PubOf(m0, keySize, nodes, Keep(fs, skip))
    ensures |nodes| > 0 && p.nodes == nodes
    ensures FlowsReadable(Grown(m0, nodes), keySize, fs)
    ensures p == PubOf(Grown(m0, nodes), keySize, nodes, Keep(fs, skip)) && Zeroed(Grown(m0, nodes), keySize, p)
    ensures forall f :: f in fs ==> f.rec !in nodes
    ensures var mem := FillTo(Grown(m0, nodes), keySize, p, |Keep(fs, skip)|);
            Built(m0, mem, nodes) && Published(mem, keySize, Swab64(nodes[0]), p)
  {
    ChainPublished(m0, keySize, nodes, Keep(fs, skip));
  }

  /** The head word of a bucket that keeps at most one flow. */
  function SmallHead(only: Option<Flow>): u64 {
    if only.Some? then Swab64(only.value.rec) else 0
  }

  lemma SmallIsBuilt(m0: Memory, keySize: nat, fs: seq<Flow>, skip: Option<Flow>)
    requires KeySizeOk(keySize) && FlowsReadable(m0, keySize, fs) && |Keep(fs, skip)| <= 1
    ensures Built(m0, m0, [])
    ensures Published(m0, keySize, SmallHead(if Keep(fs, skip) == [] then None else Some(Keep(fs, skip)[0])),
                      PubOf(m0, keySize, [], Keep(fs, skip)))
  {
    SmallPublished(m0, keySize, Keep(fs, skip));
  }

  lemma StampedIsLive(w: World, m0: Memory, nodes: seq<Addr>)
    requires w.stamp.Keys <= m0.Keys && Elems(nodes) !! m0.Keys
    ensures Elems(nodes) !! w.stamp.Keys
  {
  }

  /** fman_pcd_ehash_bucket_publish up to its head store: the bucket's new nodes and head word. */
  method Build(m0: Memory, keySize: nat, fs: seq<Flow>, skip: Option<Flow>, pool: Pool, ghost w: World,
               ghost quiet: bool)
      returns (ok: bool, nodes: seq<Addr>, head: u64, mem: Memory, ghost evs: seq<Event>)
    requires KeySizeOk(keySize) && FlowsReadable(m0, keySize, fs)
    requires w.mem == m0 && Reach(w) <= w.stamp.Keys <= m0.Keys && PoolOk(pool)
    ensures ok <==> Supplies(pool, m0.Keys, |Keep(fs, skip)|, keySize)
    ensures Track(w, evs, mem, w.stamp, quiet)
    ensures !ok ==> mem == m0 && |Keep(fs, skip)| > 1
    ensures ok ==> Built(m0, mem, nodes)
    ensures ok ==> Published(mem, keySize, head, PubOf(m0, keySize, nodes, Keep(fs, skip)))
  {
    hide *;
    TrackNothing(w, quiet);
    ok, nodes, mem, evs := true, [], m0, [];
    var n, only := CountKept(fs, skip);
    SuppliesIs(pool, m0.Keys, n, keySize);
    head := SmallHead(only);
    if n <= 1 {
      SmallIsBuilt(m0, keySize, fs, skip);
    } else {
      var count := CountOf(n, keySize);
      ok, nodes, mem, evs := AllocNodes(m0, count, pool, w, [], quiet);
      if ok {
        ghost var p := PubOf(m0, keySize, nodes, Keep(fs, skip));
        ChainIsBuilt(m0, keySize, nodes, fs, skip, p);
        StampedIsLive(w, m0, nodes);
        ghost var grown := mem;
        ghost var stores;
        mem, stores := Fill(mem, keySize, fs, skip, nodes, n, p);
        PlayedIsTracked(w, evs, grown, Elems(nodes), stores, mem, quiet);
        evs := evs + Events(stores);
        head := Swab64(nodes[0]);
      }
    }
  }

  lemma SuppliesIs(pool: Pool, live: set<Addr>, n: nat, keySize: nat)
    ensures Supplies(pool, live, n, keySize) <==> n <= 1 || (pool.list && Nodes(pool, live, NodeCount(n, keySize)).Some?)
  {
  }

  /** DIV_ROUND_UP(n, per) */
  function CountOf(n: nat, keySize: nat): (c: nat)
    requires n > 1
    ensures c == NodeCount(n, keySize)
  {
    CeilDiv(n, Per1(keySize))
  }
}
