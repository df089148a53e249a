/**
 * The probe against the kernel: who owns which UMEM chunk in every run of fewer than 2^32 RX
 * descriptors. The kernel may consume FILL entries ahead of the consumer word it publishes, and
 * returns each chunk it took at most once, at any address inside it.
 */
module FillRuns {
  import opened Bytes
  import opened FillRing

  type Chunk = u64

  /**
   * user holds the FILL array and the program's counters; rx is the RX array. Counters are true
   * totals; fillPub, consPub and rxConsPub are the totals behind the published words.
   */
  datatype Sys = Sys(
    chunk: nat, user: User, fillPub: nat, fillCons: nat, consPub: nat,
    rx: seq<Desc>, rxProd: nat, rxConsPub: nat, held: set<Chunk>, leaked: multiset<Chunk>,
    draining: bool, prod: nat, batch: nat)

  datatype Step =
    | Take
    | PublishCons(total: nat)
    | Deliver(c: Chunk, off: nat, len: u32)
    | Wake
    | Recycle
    | Sleep

  /** The chunk at FILL position i, at RX position i. */
  function FillAt(fill: seq<u64>, i: nat): Chunk
    requires |fill| == N_FRAMES
  {
    fill[i % N_FRAMES]
  }

  function RxAt(rx: seq<Desc>, chunk: nat, i: nat): Chunk
    requires |rx| == N_FRAMES && chunk > 0
  {
    Base(rx[i % N_FRAMES].addr, chunk)
  }

  /** The chunks at positions lo to hi - 1. */
  function InFill(fill: seq<u64>, lo: nat, hi: nat): multiset<Chunk>
    requires |fill| == N_FRAMES
    decreases hi
  {
    if hi <= lo then multiset{} else InFill(fill, lo, hi - 1) + multiset{FillAt(fill, hi - 1)}
  }

  function InRx(rx: seq<Desc>, chunk: nat, lo: nat, hi: nat): multiset<Chunk>
    requires |rx| == N_FRAMES && chunk > 0
    decreases hi
  {
    if hi <= lo then multiset{} else InRx(rx, chunk, lo, hi - 1) + multiset{RxAt(rx, chunk, hi - 1)}
  }

  /** Chunk i of the UMEM. */
  function ChunkAt(i: nat, chunk: nat): (c: Chunk)
    requires i < N_FRAMES && N_FRAMES * chunk < U64
    ensures c == i * chunk
  {
    ChunkFits(i, chunk);
    i * chunk
  }

  /** Every chunk of the UMEM once. */
  function Umem(chunk: nat, n: nat): multiset<Chunk>
    requires n <= N_FRAMES && N_FRAMES * chunk < U64
  {
    if n == 0 then multiset{} else Umem(chunk, n - 1) + multiset{ChunkAt(n - 1, chunk)}
  }

  ghost predicate Shaped(s: Sys) {
    && |s.user.fill| == |s.rx| == N_FRAMES && s.chunk > 0 && N_FRAMES * s.chunk < U64
  }

  /** Both rings stay within one lap, and no counter outruns the one it follows. */
  ghost predicate Windows(s: Sys) {
    && s.consPub <= s.fillCons <= s.fillPub <= s.user.producer <= s.consPub + N_FRAMES
    && s.rxConsPub <= s.user.cons <= s.rxProd <= s.rxConsPub + N_FRAMES
    && s.rxProd < U32
    && (s.draining ==> s.user.cons <= s.prod <= s.rxProd)
    && (!s.draining ==> s.user.cons == s.rxConsPub && s.fillPub == s.user.producer)
  }

  /** Where the chunks are: FILL, kernel, RX, or dropped by the backpressure branch. */
  ghost function Owned(s: Sys): multiset<Chunk>
    requires Shaped(s)
  {
    InFill(s.user.fill, s.fillCons, s.user.producer) + multiset(s.held) + InRx(s.rx, s.chunk, s.user.cons, s.rxProd) + s.leaked
  }

  ghost predicate Inv(s: Sys) {
    Shaped(s) && Windows(s) && Owned(s) == Umem(s.chunk, N_FRAMES)
  }

  predicate Enabled(s: Sys, a: Step) {
    match a
    case Take => s.fillCons < s.fillPub
    case PublishCons(total) => s.consPub <= total <= s.fillCons
    case Deliver(c, off, len) =>
      && c in s.held && off < s.chunk && c + off < U64
      && s.rxProd < s.rxConsPub + N_FRAMES && s.rxProd + 1 < U32
    case Wake => !s.draining
    case Recycle => s.draining && s.user.cons != s.prod && s.batch < MAX_BATCH
    case Sleep => s.draining && (s.user.cons == s.prod || s.batch >= MAX_BATCH)
  }

  function Do(s: Sys, a: Step): Sys
    requires Shaped(s) && Enabled(s, a)
  {
    match a
    case Take => s.(held := s.held + {FillAt(s.user.fill, s.fillCons)}, fillCons := s.fillCons + 1)
    case PublishCons(total) => s.(consPub := total)
    case Deliver(c, off, len) =>
      s.(rx := s.rx[s.rxProd % N_FRAMES := Desc(c + off, len)], rxProd := s.rxProd + 1, held := s.held - {c})
    case Wake => s.(draining := true, prod := s.rxProd, batch := 0)
    case Recycle =>
      var d, fc := s.rx[s.user.cons % N_FRAMES], s.consPub % U32;
      s.(user := Iterate(s.user, d, fc, s.chunk), batch := s.batch + 1,
         leaked := if InFlight(s.user.producer, fc) >= N_FRAMES then s.leaked + multiset{Base(d.addr, s.chunk)} else s.leaked)
    case Sleep => s.(draining := false, rxConsPub := s.user.cons, fillPub := s.user.producer)
  }

  /** After seeding: every chunk in FILL, in order. */
  function Start(chunk: nat): Sys
    requires chunk > 0 && N_FRAMES * chunk < U64
  {
    var fill := seq(N_FRAMES, i requires 0 <= i < N_FRAMES => ChunkAt(i, chunk));
    Sys(chunk, User(fill, N_FRAMES, 0, 0, 0, 0, 0), N_FRAMES, 0, 0, seq(N_FRAMES, i => Desc(0, 0)), 0, 0, {}, multiset{}, false, 0, 0)
  }

  // ------------------------------------------------------------------ the windows as multisets

  lemma {:induction false} FillDrop(fill: seq<u64>, lo: nat, hi: nat)
    requires |fill| == N_FRAMES && lo < hi
    ensures InFill(fill, lo, hi) == multiset{FillAt(fill, lo)} + InFill(fill, lo + 1, hi)
    decreases hi
  {
    hide FillAt;
    if lo + 1 < hi {
      FillDrop(fill, lo, hi - 1);
    }
  }

  lemma {:induction false} RxDrop(rx: seq<Desc>, chunk: nat, lo: nat, hi: nat)
    requires |rx| == N_FRAMES && chunk > 0 && lo < hi
    ensures InRx(rx, chunk, lo, hi) == multiset{RxAt(rx, chunk, lo)} + InRx(rx, chunk, lo + 1, hi)
    decreases hi
  {
    hide RxAt;
    if lo + 1 < hi {
      RxDrop(rx, chunk, lo, hi - 1);
    }
  }

  lemma {:induction false} FillSame(fill: seq<u64>, fill': seq<u64>, lo: nat, hi: nat)
    requires |fill| == |fill'| == N_FRAMES
    requires forall i :: lo <= i < hi ==> FillAt(fill', i) == FillAt(fill, i)
    ensures InFill(fill', lo, hi) == InFill(fill, lo, hi)
    decreases hi
  {
    hide FillAt;
    if lo < hi {
      FillSame(fill, fill', lo, hi - 1);
    }
  }

  /** Writing a slot outside the window leaves the window as it was. */
  lemma FillElsewhere(fill: seq<u64>, lo: nat, hi: nat, at: nat, c: u64)
    requires |fill| == N_FRAMES && hi <= at < lo + N_FRAMES
    ensures InFill(fill[at % N_FRAMES := c], lo, hi) == InFill(fill, lo, hi)
  {
    hide InFill;
    forall i | lo <= i < hi ensures FillAt(fill[at % N_FRAMES := c], i) == FillAt(fill, i) {
      SlotsDiffer(i, at);
    }
    FillSame(fill, fill[at % N_FRAMES := c], lo, hi);
  }

  lemma {:induction false} RxSame(rx: seq<Desc>, rx': seq<Desc>, chunk: nat, lo: nat, hi: nat)
    requires |rx| == |rx'| == N_FRAMES && chunk > 0
    requires forall i :: lo <= i < hi ==> RxAt(rx', chunk, i) == RxAt(rx, chunk, i)
    ensures InRx(rx', chunk, lo, hi) == InRx(rx, chunk, lo, hi)
    decreases hi
  {
    hide RxAt;
    if lo < hi {
      RxSame(rx, rx', chunk, lo, hi - 1);
    }
  }

  lemma RxElsewhere(rx: seq<Desc>, chunk: nat, lo: nat, hi: nat, at: nat, d: Desc)
    requires |rx| == N_FRAMES && chunk > 0 && hi <= at < lo + N_FRAMES
    ensures InRx(rx[at % N_FRAMES := d], chunk, lo, hi) == InRx(rx, chunk, lo, hi)
  {
    hide InRx, Base;
    forall i | lo <= i < hi ensures RxAt(rx[at % N_FRAMES := d], chunk, i) == RxAt(rx, chunk, i) {
      SlotsDiffer(i, at);
    }
    RxSame(rx, rx[at % N_FRAMES := d], chunk, lo, hi);
  }

  lemma FillPush(fill: seq<u64>, lo: nat, hi: nat, c: u64)
    requires |fill| == N_FRAMES && lo <= hi < lo + N_FRAMES
    ensures InFill(fill[hi % N_FRAMES := c], lo, hi + 1) == InFill(fill, lo, hi) + multiset{c}
  {
    FillElsewhere(fill, lo, hi, hi, c);
  }

  lemma RxPush(rx: seq<Desc>, chunk: nat, lo: nat, hi: nat, d: Desc)
    requires |rx| == N_FRAMES && chunk > 0 && lo <= hi < lo + N_FRAMES
    ensures InRx(rx[hi % N_FRAMES := d], chunk, lo, hi + 1) == InRx(rx, chunk, lo, hi) + multiset{Base(d.addr, chunk)}
  {
    hide Base;
    RxElsewhere(rx, chunk, lo, hi, hi, d);
  }

  lemma {:induction false} UmemBelow(chunk: nat, n: nat, c: Chunk)
    requires n <= N_FRAMES && N_FRAMES * chunk < U64 && chunk > 0 && c >= n * chunk
    ensures Umem(chunk, n)[c] == 0
  {
    if n > 0 {
      assert n * chunk == (n - 1) * chunk + chunk;
      UmemBelow(chunk, n - 1, c);
    }
  }

  /** The UMEM has each chunk once. */
  lemma {:induction false} UmemOnce(chunk: nat, n: nat, c: Chunk)
    requires n <= N_FRAMES && N_FRAMES * chunk < U64 && chunk > 0
    ensures Umem(chunk, n)[c] <= 1
    ensures Umem(chunk, n)[c] == 1 ==> exists k: nat :: k < n && c == k * chunk
  {
    if n > 0 {
      UmemOnce(chunk, n - 1, c);
      ChunkFits(n - 1, chunk);
      if c == (n - 1) * chunk {
        UmemBelow(chunk, n - 1, c);
      }
    }
  }

  // ------------------------------------------------------------------ every step keeps the books

  /** A chunk in FILL is not also with the kernel. */
  lemma NotTwice(s: Sys, c: Chunk)
    requires Inv(s) && s.fillCons < s.user.producer && c == FillAt(s.user.fill, s.fillCons)
    ensures c !in s.held
  {
    hide InFill, InRx, Umem, FillAt;
    FillDrop(s.user.fill, s.fillCons, s.user.producer);
    UmemOnce(s.chunk, N_FRAMES, c);
    assert Owned(s)[c] >= 1 + multiset(s.held)[c];
  }

  lemma TakeKeeps(s: Sys)
    requires Inv(s) && Enabled(s, Take)
    ensures Inv(Do(s, Take))
  {
    hide InFill, InRx, Umem, FillAt, RxAt;
    var c := FillAt(s.user.fill, s.fillCons);
    FillDrop(s.user.fill, s.fillCons, s.user.producer);
    NotTwice(s, c);
    HeldMore(s.held, c);
  }

  lemma HeldMore(held: set<Chunk>, c: Chunk)
    requires c !in held
    ensures multiset(held + {c}) == multiset(held) + multiset{c}
  {
  }

  lemma HeldLess(held: set<Chunk>, c: Chunk)
    requires c in held
    ensures multiset(held) == multiset(held - {c}) + multiset{c}
  {
  }

  /** What the kernel delivers leads the program back to the chunk it took. */
  lemma DeliverKeeps(s: Sys, c: Chunk, off: nat, len: u32)
    requires Inv(s) && Enabled(s, Deliver(c, off, len))
    ensures Inv(Do(s, Deliver(c, off, len)))
  {
    hide InFill, InRx, Umem, FillAt, RxAt, Base;
    InsideChunk(s, c, off);
    RxPush(s.rx, s.chunk, s.user.cons, s.rxProd, Desc(c + off, len));
    HeldLess(s.held, c);
  }

  lemma InsideChunk(s: Sys, c: Chunk, off: nat)
    requires Inv(s) && c in s.held && off < s.chunk && c + off < U64
    ensures Base(c + off, s.chunk) == c
  {
    HeldIsChunk(s, c);
    hide InFill, InRx, Umem, Owned, Inv;
    var k: nat :| k < N_FRAMES && c == k * s.chunk;
    BaseOfInside(k, off, s.chunk);
  }

  lemma HeldIsChunk(s: Sys, c: Chunk)
    requires Inv(s) && c in s.held
    ensures exists k: nat :: k < N_FRAMES && c == k * s.chunk
  {
    hide InFill, InRx, Umem;
    UmemOnce(s.chunk, N_FRAMES, c);
    assert Owned(s)[c] >= multiset(s.held)[c] >= 1;
  }

  lemma RecycleKeeps(s: Sys)
    requires Inv(s) && Enabled(s, Recycle)
    ensures Inv(Do(s, Recycle))
  {
    hide InFill, InRx, Umem, FillAt, RxAt, Base, InFlight;
    InFlightIsTrue(s.user.producer, s.consPub);
    RxDrop(s.rx, s.chunk, s.user.cons, s.rxProd);
    RxAtIs(s.rx, s.chunk, s.user.cons);
    if s.user.producer - s.consPub < N_FRAMES {
      FillPush(s.user.fill, s.fillCons, s.user.producer, RxAt(s.rx, s.chunk, s.user.cons));
    }
  }

  lemma RxAtIs(rx: seq<Desc>, chunk: nat, i: nat)
    requires |rx| == N_FRAMES && chunk > 0
    ensures RxAt(rx, chunk, i) == Base(rx[i % N_FRAMES].addr, chunk)
  {
  }

  /** Every step of the program and of the kernel keeps every chunk in exactly one place. */
  lemma StepKeeps(s: Sys, a: Step)
    requires Inv(s) && Enabled(s, a)
    ensures Inv(Do(s, a))
  {
    hide InFill, InRx, Umem, FillAt, RxAt, Iterate;
    match a
    case Take => TakeKeeps(s);
    case PublishCons(total) =>
    case Deliver(c, off, len) => DeliverKeeps(s, c, off, len);
    case Wake =>
    case Recycle => RecycleKeeps(s);
    case Sleep =>
  }

  // ------------------------------------------------------------------ runs

  lemma {:induction false} SeededFill(chunk: nat, n: nat)
    requires chunk > 0 && N_FRAMES * chunk < U64 && n <= N_FRAMES
    ensures InFill(Start(chunk).user.fill, 0, n) == Umem(chunk, n)
  {
    hide FillAt, ChunkAt, Start;
    StartSizes(chunk);
    if n > 0 {
      SeededFill(chunk, n - 1);
      SeededAt(chunk, n - 1);
    }
  }

  lemma SeededAt(chunk: nat, i: nat)
    requires chunk > 0 && N_FRAMES * chunk < U64 && i < N_FRAMES
    ensures FillAt(Start(chunk).user.fill, i) == ChunkAt(i, chunk)
  {
    assert i % N_FRAMES == i;
  }

  lemma StartSizes(chunk: nat)
    requires chunk > 0 && N_FRAMES * chunk < U64
    ensures |Start(chunk).user.fill| == N_FRAMES
  {
  }

  lemma StartIsOk(chunk: nat)
    requires chunk > 0 && N_FRAMES * chunk < U64
    ensures Inv(Start(chunk))
  {
    SeededFill(chunk, N_FRAMES);
    assert InRx(Start(chunk).rx, chunk, 0, 0) == multiset{};
    hide InFill, InRx, Umem;
  }

  /** A run from the seeded rings: any interleaving of the program's and the kernel's steps. */
  ghost predicate Behavior(chunk: nat, steps: seq<Step>, trace: seq<Sys>)
    requires chunk > 0 && N_FRAMES * chunk < U64
  {
    && |trace| == |steps| + 1 && trace[0] == Start(chunk)
    && forall i :: 0 <= i < |steps| ==>
         Shaped(trace[i]) && Enabled(trace[i], steps[i]) && trace[i + 1] == Do(trace[i], steps[i])
  }

  lemma {:induction false} BehaviorIsOk(chunk: nat, steps: seq<Step>, trace: seq<Sys>, i: nat)
    requires chunk > 0 && N_FRAMES * chunk < U64 && Behavior(chunk, steps, trace) && i < |trace|
    ensures Inv(trace[i])
  {
    hide Inv, Do, Start, Enabled;
    if i == 0 {
      StartIsOk(chunk);
    } else {
      BehaviorIsOk(chunk, steps, trace, i - 1);
      StepKeeps(trace[i - 1], steps[i - 1]);
    }
  }

  lemma {:induction false} UmemHas(chunk: nat, n: nat, k: nat)
    requires chunk > 0 && N_FRAMES * chunk < U64 && k < n <= N_FRAMES
    ensures Umem(chunk, n)[ChunkAt(k, chunk)] == 1
  {
    if k < n - 1 {
      UmemHas(chunk, n - 1, k);
      Apart(k, n - 1, chunk);
    } else {
      UmemBelow(chunk, n - 1, ChunkAt(k, chunk));
    }
  }

  lemma Apart(k: nat, n: nat, chunk: nat)
    requires k < n && chunk > 0
    ensures k * chunk != n * chunk
  {
    assert (k + 1) * chunk == k * chunk + chunk;
    assert (k + 1) * chunk <= n * chunk;
  }

  /**
   * Ownership over every run: each UMEM chunk is in exactly one place exactly once, so never twice
   * in FILL, never in FILL while the kernel or RX holds it. The rings never overrun.
   */
  lemma EveryChunkHasOnePlace(chunk: nat, steps: seq<Step>, trace: seq<Sys>, i: nat, k: nat)
    requires chunk > 0 && N_FRAMES * chunk < U64 && Behavior(chunk, steps, trace) && i < |trace| && k < N_FRAMES
    ensures Inv(trace[i])
    ensures var s, c := trace[i], ChunkAt(k, trace[i].chunk);
            && InFill(s.user.fill, s.fillCons, s.user.producer)[c] + (if c in s.held then 1 else 0)
               + InRx(s.rx, s.chunk, s.user.cons, s.rxProd)[c] + s.leaked[c] == 1
            && s.user.producer - s.fillCons <= N_FRAMES && s.rxProd - s.user.cons <= N_FRAMES
  {
    BehaviorIsOk(chunk, steps, trace, i);
    var s := trace[i];
    UmemHas(s.chunk, N_FRAMES, k);
    hide InFill, InRx, Umem, Behavior;
    assert Owned(s)[ChunkAt(k, s.chunk)] == 1;
  }

  /** The program drops a chunk only while the kernel has not published all it consumed. */
  lemma DropsOnlyWhenCountersLag(s: Sys)
    requires Inv(s) && Enabled(s, Recycle)
    requires Do(s, Recycle).user.skipped > s.user.skipped
    ensures s.consPub < s.fillCons
  {
    hide InFill, InRx, Umem, Base, InFlight;
    InFlightIsTrue(s.user.producer, s.consPub);
    if s.consPub == s.fillCons {
      FullFill(s);
    }
  }

  lemma {:induction false} FillSize(fill: seq<u64>, lo: nat, hi: nat)
    requires |fill| == N_FRAMES && lo <= hi
    ensures |InFill(fill, lo, hi)| == hi - lo
    decreases hi
  {
    hide FillAt;
    if lo < hi {
      FillSize(fill, lo, hi - 1);
    }
  }

  lemma {:induction false} UmemSize(chunk: nat, n: nat)
    requires n <= N_FRAMES && N_FRAMES * chunk < U64
    ensures |Umem(chunk, n)| == n
  {
    if n > 0 {
      UmemSize(chunk, n - 1);
    }
  }

  /** With a chunk in RX, FILL cannot hold them all. */
  lemma FullFill(s: Sys)
    requires Inv(s) && s.user.cons < s.rxProd
    ensures s.user.producer - s.fillCons < N_FRAMES
  {
    hide InFill, InRx, Umem, Base, RxAt, FillAt;
    FillSize(s.user.fill, s.fillCons, s.user.producer);
    UmemSize(s.chunk, N_FRAMES);
    RxDrop(s.rx, s.chunk, s.user.cons, s.rxProd);
    var rest := multiset(s.held) + InRx(s.rx, s.chunk, s.user.cons + 1, s.rxProd) + s.leaked;
    assert Owned(s) == InFill(s.user.fill, s.fillCons, s.user.producer) + multiset{RxAt(s.rx, s.chunk, s.user.cons)} + rest;
  }

  /** Below 2^32 descriptors every wakeup takes exactly what it saw, up to 64. */
  lemma WakeupsTakeWhatTheySee(s: Sys)
    requires Inv(s) && !s.draining
    ensures BatchSize(s.user.cons % U32, s.rxProd) == if s.rxProd - s.user.cons < MAX_BATCH then s.rxProd - s.user.cons else MAX_BATCH
    ensures s.user.cons % U32 == s.user.cons
  {
    hide InFill, InRx, Umem;
  }
}
