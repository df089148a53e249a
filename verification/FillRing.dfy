/** The probe's RX drain loop: ring words are 32 bits wide, the program's own counters are not. */
module FillRing {
  import opened Bytes

  const N_FRAMES: nat := 8192
  const MAX_BATCH: nat := 64

  /** struct xdp_desc */
  datatype Desc = Desc(addr: u64, len: u32)

  /** What one drain changes: the FILL array and the program's counters. */
  datatype User = User(fill: seq<u64>, producer: nat, cons: nat, packets: nat, bytes: nat, skipped: nat, recycled: nat)

  /** Descriptors in flight in the FILL ring as the program sees it from the kernel's consumer word. */
  function InFlight(producer: nat, fc: u32): nat {
    (producer - fc) % U32
  }

  /** The chunk a descriptor address lies in; chunk is a power of two, so this is d & ~(chunk - 1). */
  function Base(d: u64, chunk: nat): u64
    requires chunk > 0
  {
    BaseFits(d, chunk);
    d / chunk * chunk
  }

  lemma BaseFits(d: nat, chunk: nat)
    requires chunk > 0
    ensures 0 <= d / chunk * chunk <= d
  {
  }

  /** Any address inside a chunk leads back to the chunk. */
  lemma BaseOfInside(k: nat, off: nat, chunk: nat)
    requires off < chunk
    ensures (k * chunk + off) / chunk * chunk == k * chunk
  {
    assert (k * chunk + off) / chunk == k by {
      QuotientIs(k, off, chunk);
    }
  }

  lemma QuotientIs(k: nat, off: nat, chunk: nat)
    requires off < chunk
    ensures (k * chunk + off) / chunk == k
  {
    var q := (k * chunk + off) / chunk;
    assert q < k ==> q * chunk + chunk == (q + 1) * chunk <= k * chunk;
    assert q > k ==> k * chunk + chunk == (k + 1) * chunk <= q * chunk;
  }

  /** One descriptor of the drain loop. */
  function Iterate(u: User, d: Desc, fc: u32, chunk: nat): (r: User)
    requires |u.fill| == N_FRAMES && chunk > 0
    ensures |r.fill| == N_FRAMES && r.cons == u.cons + 1
  {
    var seen := u.(packets := u.packets + 1, bytes := u.bytes + d.len, cons := u.cons + 1);
    if InFlight(u.producer, fc) >= N_FRAMES then seen.(skipped := u.skipped + 1)
    else
      seen.(fill := u.fill[u.producer % N_FRAMES := Base(d.addr, chunk)], producer := u.producer + 1, recycled := u.recycled + 1)
  }

  /** The first k descriptors of a batch. */
  function Batch(u: User, rx: seq<Desc>, fcs: nat -> u32, chunk: nat, k: nat): (r: User)
    requires |u.fill| == |rx| == N_FRAMES && chunk > 0
    ensures |r.fill| == N_FRAMES && r.cons == u.cons + k
  {
    if k == 0 then u
    else
      var before := Batch(u, rx, fcs, chunk, k - 1);
      Iterate(before, rx[before.cons % N_FRAMES], fcs(k - 1), chunk)
  }

  lemma BatchNothing(u: User, rx: seq<Desc>, fcs: nat -> u32, chunk: nat)
    requires |u.fill| == |rx| == N_FRAMES && chunk > 0
    ensures Batch(u, rx, fcs, chunk, 0) == u
  {
  }

  lemma BatchNext(u: User, rx: seq<Desc>, fcs: nat -> u32, chunk: nat, k: nat)
    requires |u.fill| == |rx| == N_FRAMES && chunk > 0
    ensures var before := Batch(u, rx, fcs, chunk, k);
            Batch(u, rx, fcs, chunk, k + 1) == Iterate(before, rx[before.cons % N_FRAMES], fcs(k), chunk)
  {
  }

  /** The bytes of the k descriptors from position cons on. */
  function Lengths(rx: seq<Desc>, cons: nat, k: nat): nat
    requires |rx| == N_FRAMES
  {
    if k == 0 then 0 else Lengths(rx, cons, k - 1) + rx[(cons + k - 1) % N_FRAMES].len
  }

  /** Iteration j, the producer then being at, finds the window full. */
  predicate WindowFull(at: nat, fc: u32) {
    (at - fc) % 0x1_0000_0000 >= 8192
  }

  /** How many of the first k iterations find the window full, starting at producer total at. */
  function Fulls(at: nat, fcs: nat -> u32, k: nat): (n: nat)
    ensures n <= k
  {
    if k == 0 then 0
    else
      var n := Fulls(at, fcs, k - 1);
      if WindowFull(at + (k - 1 - n), fcs(k - 1)) then n + 1 else n
  }

  /**
   * The counters of a batch: every descriptor is a packet with its bytes, and is either recycled,
   * which moves the producer, or skipped, which happens exactly in the iterations that find the
   * window full.
   */
  lemma {:induction false} BatchCounts(u: User, rx: seq<Desc>, fcs: nat -> u32, chunk: nat, k: nat)
    requires |u.fill| == |rx| == N_FRAMES && chunk > 0
    ensures var r := Batch(u, rx, fcs, chunk, k);
            && r.packets == u.packets + k && r.bytes == u.bytes + Lengths(rx, u.cons, k)
            && r.skipped == u.skipped + Fulls(u.producer, fcs, k)
            && r.recycled == u.recycled + k - Fulls(u.producer, fcs, k)
            && r.producer == u.producer + k - Fulls(u.producer, fcs, k)
  {
    hide Batch;
    if k == 0 {
      BatchNothing(u, rx, fcs, chunk);
    } else {
      BatchCounts(u, rx, fcs, chunk, k - 1);
      BatchNext(u, rx, fcs, chunk, k - 1);
    }
  }

  /** How many descriptors the loop takes: the counter is compared without wrapping. */
  function BatchSize(cons: nat, prod: u32): (n: nat)
    ensures n <= MAX_BATCH
  {
    if cons <= prod && prod - cons < MAX_BATCH then prod - cons else MAX_BATCH
  }

  /** Descriptors the kernel has really produced and the program has not consumed. */
  function Available(cons: u32, prod: u32): u32 {
    (prod - cons) % U32
  }

  /**
   * The loop takes what is available, up to 64, if and only if the producer word has not wrapped
   * past the consumer word, or 64 are available anyway.
   */
  lemma BatchTakesWhatIsThere(cons: u32, prod: u32)
    ensures BatchSize(cons, prod) == (if Available(cons, prod) < 64 then Available(cons, prod) else 64) <==>
              cons + Available(cons, prod) < 0x1_0000_0000 || Available(cons, prod) >= 64
  {
    if cons <= prod {
      assert Available(cons, prod) == prod - cons;
    } else {
      assert Available(cons, prod) == prod - cons + U32;
    }
  }

  /** One descriptor is available just before the wrap; the loop takes 64, 63 of them never produced. */
  lemma BatchOverrunsAtWrap()
    ensures Available(0xffff_ffff, 0) == 1 && BatchSize(0xffff_ffff, 0) == 64
  {
  }

  /** Two descriptors less than one ring apart never share a slot. */
  lemma SlotsDiffer(i: int, j: int)
    requires i < j < i + N_FRAMES
    ensures i % N_FRAMES != j % N_FRAMES
  {
  }

  /** One descriptor: no position that the consumer word leaves unconsumed changes. */
  lemma IterateKeepsUnconsumed(u: User, d: Desc, fc: u32, chunk: nat, i: int)
    requires |u.fill| == N_FRAMES && chunk > 0
    requires u.producer - InFlight(u.producer, fc) <= i < u.producer
    ensures Iterate(u, d, fc, chunk).fill[i % N_FRAMES] == u.fill[i % N_FRAMES]
  {
    hide InFlight, Base;
    if InFlight(u.producer, fc) < N_FRAMES {
      SlotsDiffer(i, u.producer);
    }
  }

  /**
   * Whatever words the kernel publishes during a batch, and across 32-bit wrap, no iteration of the
   * loop stores into a FILL slot that the word it read leaves unconsumed.
   */
  lemma NoUnconsumedSlotIsOverwritten(u: User, rx: seq<Desc>, fcs: nat -> u32, chunk: nat, k: nat, i: int)
    requires |u.fill| == |rx| == N_FRAMES && chunk > 0
    requires var at := Batch(u, rx, fcs, chunk, k).producer; at - InFlight(at, fcs(k)) <= i < at
    ensures Batch(u, rx, fcs, chunk, k + 1).fill[i % N_FRAMES] == Batch(u, rx, fcs, chunk, k).fill[i % N_FRAMES]
  {
    hide InFlight, Batch, Iterate;
    BatchNext(u, rx, fcs, chunk, k);
    var before := Batch(u, rx, fcs, chunk, k);
    IterateKeepsUnconsumed(before, rx[before.cons % N_FRAMES], fcs(k), chunk, i);
  }

  /** The masked difference is the true one while the true one fits 32 bits. */
  lemma InFlightIsTrue(producer: nat, consumed: nat)
    requires consumed <= producer < consumed + U32
    ensures InFlight(producer, consumed % U32) == producer - consumed
  {
    var q, fc := consumed / U32, consumed % U32;
    assert producer - fc == q * U32 + (producer - consumed);
    ModOfShift(producer - consumed, q);
  }

  lemma ModOfShift(x: nat, q: nat)
    requires x < U32
    ensures (q * U32 + x) % U32 == x
  {
  }

  class Probe {
    const chunk: nat
    const fill: array<u64>
    var fillProd: u32
    var rxCons: u32
    var producer: nat
    var packets: nat
    var bytes: nat
    var skipped: nat

    ghost predicate Valid()
      reads this
    {
      fill.Length == N_FRAMES && chunk > 0 && fillProd == producer % U32
    }

    ghost function State(cons: nat, recycled: nat): User
      reads this, fill
    {
      User(fill[..], producer, cons, packets, bytes, skipped, recycled)
    }

    /** Seeds the FILL ring with every chunk of the UMEM, in order. */
    constructor (chunk: nat)
      requires 0 < chunk && N_FRAMES * chunk < U64
      ensures Valid() && fresh(fill) && this.chunk == chunk && producer == fill.Length == 8192 && rxCons == 0
      ensures packets == bytes == skipped == 0
      ensures forall i: nat :: i < 8192 ==> fill[i] == i * chunk
    {
      this.chunk := chunk;
      fill := new u64[N_FRAMES](i => 0);
      fillProd, rxCons, producer, packets, bytes, skipped := 0, 0, N_FRAMES, 0, 0, 0;
      new;
      var i: nat := 0;
      while i < N_FRAMES
        invariant i <= N_FRAMES
        invariant fillProd == 0 && rxCons == 0 && producer == N_FRAMES && packets == bytes == skipped == 0
        invariant forall j: nat :: j < i ==> fill[j] == j * chunk
      {
        ChunkFits(i, chunk);
        fill[i] := i * chunk;
        i := i + 1;
      }
      fillProd := N_FRAMES;
    }

    /** One wakeup: takes a batch of RX descriptors, recycles their chunks, publishes both ring words. */
    method Drain(rx: seq<Desc>, prod: u32, fcs: nat -> u32) returns (batch: nat)
      requires Valid() && |rx| == N_FRAMES
      modifies this, fill
      ensures Valid() && batch == BatchSize(old(rxCons), prod)
      ensures var r := Batch(old(State(rxCons, 0)), rx, fcs, chunk, batch);
              && State(r.cons, r.recycled) == r
              && rxCons == r.cons % U32 && fillProd == r.producer % U32
      ensures packets == old(packets) + batch && bytes == old(bytes) + Lengths(rx, old(rxCons), batch)
      ensures skipped == old(skipped) + Fulls(old(producer), fcs, batch)
      ensures producer == old(producer) + batch - Fulls(old(producer), fcs, batch)
      ensures rxCons == (old(rxCons) + batch) % 0x1_0000_0000 && fillProd == producer % 0x1_0000_0000
    {
      hide InFlight, Base, Batch, Lengths, Fulls;
      BatchNothing(State(rxCons, 0), rx, fcs, chunk);
      ghost var u := State(rxCons, 0);
      var cons: nat, recycled: nat := rxCons, 0;
      batch := 0;
      while cons != prod && batch < MAX_BATCH
        invariant batch <= BatchSize(old(rxCons), prod) && cons == old(rxCons) + batch
        invariant State(cons, recycled) == Batch(u, rx, fcs, chunk, batch)
        invariant fillProd == old(fillProd) && rxCons == old(rxCons)
        invariant recycled == 0 ==> producer == old(producer)
        decreases MAX_BATCH - batch
      {
        BatchNext(u, rx, fcs, chunk, batch);
        var d := rx[cons % N_FRAMES];
        packets := packets + 1;
        bytes := bytes + d.len;
        cons := cons + 1;
        batch := batch + 1;
        var inFlight := InFlight(producer, fcs(batch - 1));
        if inFlight >= N_FRAMES {
          skipped := skipped + 1;
          continue;
        }
        fill[producer % N_FRAMES] := Base(d.addr, chunk);
        producer := producer + 1;
        recycled := recycled + 1;
      }
      BatchCounts(u, rx, fcs, chunk, batch);
      rxCons := cons % U32;
      if recycled != 0 {
        fillProd := producer % U32;
      }
    }
  }

  lemma ChunkFits(i: nat, chunk: nat)
    requires i < N_FRAMES && N_FRAMES * chunk < U64
    ensures 0 <= i * chunk < U64
  {
    assert i * chunk <= N_FRAMES * chunk;
  }
}
