/** kzalloc and dma_pool_zalloc: what each allocation of a call returns, given what is live. */
module Pools {
  import opened Bucket
  import opened Options

  /** list: does the node list get its memory; node(live, i) and record(live): an address, or null. */
  datatype Pool = Pool(list: bool, node: (set<Addr>, nat) -> Addr, record: set<Addr> -> Addr)

  /** A pool hands out aligned blocks that are not live, or nothing. */
  ghost predicate PoolOk(pool: Pool) {
    && (forall live: set<Addr>, i: nat :: FreeBlock(pool.node(live, i), live))
    && (forall live: set<Addr> :: FreeBlock(pool.record(live), live))
  }

  predicate FreeBlock(a: Addr, live: set<Addr>) {
    a % 256 == 0 && (a != 0 ==> a !in live)
  }

  /** The first k nodes, if the pool has them all. */
  function Nodes(pool: Pool, live: set<Addr>, k: nat): Option<seq<Addr>> {
    if k == 0 then Some([])
    else
      match Nodes(pool, live, k - 1)
      case None => None
      case Some(s) =>
        var a := pool.node(live + Elems(s), k - 1);
        if a == 0 then None else Some(s + [a])
  }

  /** There is memory for the nodes of a bucket of n flows; up to one flow needs none. */
  predicate Supplies(pool: Pool, live: set<Addr>, n: nat, keySize: nat) {
    n <= 1 || (pool.list && Nodes(pool, live, NodeCount(n, keySize)).Some?)
  }

  /** A failed allocation fails the whole list. */
  lemma {:induction false} NoNodesAfter(pool: Pool, live: set<Addr>, j: nat, k: nat)
    requires j <= k && Nodes(pool, live, j).None?
    ensures Nodes(pool, live, k).None?
  {
    if j < k {
      NoNodesAfter(pool, live, j, k - 1);
    }
  }
}
