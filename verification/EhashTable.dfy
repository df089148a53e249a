/**
 * The flow table: publish, insert, delete and drain on live memory. Every bus-visible thing a
 * method does is one event of log, and every method keeps the log disciplined, so the theorems
 * of Epoch apply to every run of it against any lookups.
 */
module EhashTable {
  import opened Kernel
  import opened Bytes
  import opened Layout
  import opened Bucket
  import opened Epoch
  import opened Options
  import opened EhashView
  import opened EhashSteps
  import opened EhashAdd
  import opened EhashDel
  import opened EhashDrain
  import opened EhashLookup
  import opened EhashHistory
  import opened FpmSync
  import opened NodeFill
  import opened Pools
  import opened NodeBuild

  /** A table before its first call. */
  function FreshWorld(buckets: nat, keySize: nat): World {
    World(keySize, map[], seq(buckets, i => 0), seq(buckets, i => EMPTY), map[], 0, None, 0, true)
  }

  function FreshView(buckets: nat, keySize: nat): View {
    View(FreshWorld(buckets, keySize), seq(buckets, i => []), seq(buckets, i => []), [], map[], {})
  }

  lemma FreshIsOk(buckets: nat, keySize: nat, crc: seq<byte> -> nat)
    requires buckets > 0 && KeySizeOk(keySize)
    ensures ViewOk(FreshView(buckets, keySize), crc)
  {
    TracedStart(buckets, keySize, true);
  }

  /** The table's world is what its disciplined log replays to. */
  ghost predicate Traced(buckets: nat, keySize: nat, log: seq<Event>, quiet: bool, w: World) {
    && KeySizeOk(keySize) && w.keySize == keySize
    && Disciplined(FreshWorld(buckets, keySize), log, quiet)
    && w == Replay(FreshWorld(buckets, keySize), log)
    && WorldOk(w)
  }

  lemma TracedStart(buckets: nat, keySize: nat, quiet: bool)
    requires KeySizeOk(keySize)
    ensures Traced(buckets, keySize, [], quiet, FreshWorld(buckets, keySize))
  {
    var w := FreshWorld(buckets, keySize);
    forall b | 0 <= b < |w.pubs| ensures Published(w.mem, keySize, w.heads[b], w.pubs[b]) {
      assert NodeCount(0, keySize) == 0;
      SwabIsZeroOnlyForNull(0);
    }
  }

  lemma FreshIsWorldOk(buckets: nat, keySize: nat)
    requires KeySizeOk(keySize)
    ensures WorldOk(FreshWorld(buckets, keySize))
  {
    TracedStart(buckets, keySize, true);
  }

  lemma TracedMore(buckets: nat, keySize: nat, log: seq<Event>, quiet: bool, w: World, evs: seq<Event>)
    requires Traced(buckets, keySize, log, quiet, w) && Disciplined(w, evs, quiet)
    ensures var w' := Replay(w, evs); w'.keySize == w.keySize ==> Traced(buckets, keySize, log + evs, quiet, w')
  {
    hide *;
    TracedIs(buckets, keySize, log, quiet, w);
    Concatenate(FreshWorld(buckets, keySize), log, evs, quiet);
    ReplayKeepsWorldOk(w, evs, quiet);
    IsTraced(buckets, keySize, log + evs, quiet, Replay(w, evs));
  }

  lemma TracedIs(buckets: nat, keySize: nat, log: seq<Event>, quiet: bool, w: World)
    requires Traced(buckets, keySize, log, quiet, w)
    ensures KeySizeOk(keySize) && Disciplined(FreshWorld(buckets, keySize), log, quiet)
    ensures w == Replay(FreshWorld(buckets, keySize), log) && WorldOk(w) && w.keySize == keySize
  {
  }

  lemma IsTraced(buckets: nat, keySize: nat, log: seq<Event>, quiet: bool, w: World)
    requires KeySizeOk(keySize) && Disciplined(FreshWorld(buckets, keySize), log, quiet)
    requires w == Replay(FreshWorld(buckets, keySize), log) && WorldOk(w)
    ensures w.keySize == keySize ==> Traced(buckets, keySize, log, quiet, w)
  {
  }

  lemma TracedEvent(buckets: nat, keySize: nat, log: seq<Event>, quiet: bool, w: World, e: Event)
    requires Traced(buckets, keySize, log, quiet, w) && Legal(w, e, quiet)
    ensures Traced(buckets, keySize, log + [e], quiet, Apply(w, e))
  {
    hide *;
    TracedIs(buckets, keySize, log, quiet, w);
    ApplyKeepsWorldOk(w, e, quiet);
    Extend(FreshWorld(buckets, keySize), log, e, quiet);
    SameKeySize(w, e);
    IsTraced(buckets, keySize, log + [e], quiet, Apply(w, e));
  }

  lemma SameKeySize(w: World, e: Event)
    ensures Apply(w, e).keySize == w.keySize
  {
  }

  /** n attempts that timed out. */
  function TimedOut(n: nat): seq<Event> {
    if n == 0 then [] else TimedOut(n - 1) + [Arm, Expire]
  }

  lemma {:induction false} TimedOutIsHarmless(w: World, n: nat, quiet: bool)
    ensures Disciplined(w, TimedOut(n), quiet)
    ensures Replay(w, TimedOut(n)) == if n == 0 then w else w.(armed := Some(w.stores))
  {
    hide Disciplined, Replay;
    if n == 0 {
      ReplayNothing(w, quiet);
    } else {
      TimedOutIsHarmless(w, n - 1, quiet);
      Extend(w, TimedOut(n - 1), Arm, quiet);
      Extend(w, TimedOut(n - 1) + [Arm], Expire, quiet);
      assert TimedOut(n) == TimedOut(n - 1) + [Arm] + [Expire];
    }
  }

  /** The bus events of one SYNC: failed attempts, then an arm that is seen clear if any is. */
  function SyncEvents(failed: nat, ok: bool): seq<Event> {
    if ok then TimedOut(failed) + [Arm] + [Clear] else TimedOut(failed)
  }

  lemma SyncIsDisciplined(w: World, failed: nat, ok: bool, quiet: bool)
    ensures Disciplined(w, SyncEvents(failed, ok), quiet)
    ensures var w' := Replay(w, SyncEvents(failed, ok)); SyncOnly(w, w') && (ok ==> w'.mark == w'.stores)
  {
    TimedOutIsHarmless(w, failed, quiet);
    if ok {
      Extend(w, TimedOut(failed), Arm, quiet);
      Extend(w, TimedOut(failed) + [Arm], Clear, quiet);
    }
  }

  lemma {:induction false} TimedOutIsPlain(n: nat)
    ensures Plain(TimedOut(n), true)
  {
    if n > 0 { TimedOutIsPlain(n - 1); }
  }

  lemma SyncIsPlain(failed: nat, ok: bool)
    ensures Plain(SyncEvents(failed, ok), true)
  {
    TimedOutIsPlain(failed);
  }

  lemma KeysAreNotEmpty(keySize: nat)
    requires KeySizeOk(keySize)
    ensures keySize > 0
  {
  }

  lemma HeadCount(w: World)
    requires WorldOk(w)
    ensures |w.heads| == |w.pubs|
  {
  }

  lemma HeadWord(w: World, b: nat, head: u64, pub: Pub)
    requires b < |w.heads| == |w.pubs|
    ensures var w' := Apply(w, HeadStore(b, head, pub)); w'.heads == w.heads[b := head] && w'.mem == w.mem
  {
  }

  lemma StampsCover(w: World)
    requires WorldOk(w)
    ensures Reach(w) <= w.stamp.Keys <= w.mem.Keys
  {
  }

  /** The outcome one operation adds to the SYNC counters: a single SYNC, if it does one and there is an FMan. */
  function Outcome(syncs: bool, hasFman: bool, hw: Answers): (o: seq<nat>) {
    if syncs && hasFman then [Failures(hw, 0)] else []
  }

  class Table {
    const keySize: nat
    const crc: seq<byte> -> nat
    const hasFman: bool
    const counters: SyncCounters
    const heads: array<u64>
    const bidx: array<seq<Flow>>
    const cu: array<seq<Addr>>
    var mem: Memory
    var flows: seq<Flow>
    ghost var w: World
    ghost var log: seq<Event>
    ghost var owner: map<Addr, Owner>
    ghost var dark: set<nat>
    ghost var base: seq<Event>
    ghost var since: nat
    ghost var history: seq<Moment>

    /** The log is disciplined, and the call in progress began at log base with since head stores. */
    ghost predicate Logged()
      reads this
    {
      && Traced(heads.Length, keySize, log, hasFman, w)
      && Since(base, since, log, hasFman, w)
      && HistoryOk(FreshWorld(heads.Length, keySize), crc, base, history)
    }

    /** The fields are what the log replays to. */
    ghost predicate Linked()
      reads this, heads
    {
      w.mem == mem && w.heads == heads[..] && Logged()
    }

    /** No call is in progress. */
    ghost predicate Idle()
      reads this
    {
      base == log && since == w.stores
    }

    ghost function Now(): View
      reads this, bidx, cu
    {
      View(w, bidx[..], cu[..], flows, owner, dark)
    }

    ghost predicate Sized() {
      heads.Length == bidx.Length == cu.Length > 0
    }

    ghost predicate Valid()
      reads this, heads, bidx, cu, counters
    {
      Linked() && Idle() && Sized() && ViewOk(Now(), crc) && counters.Valid()
    }

    constructor (buckets: nat, keySize: nat, crc: seq<byte> -> nat, hasFman: bool, counters: SyncCounters)
      requires buckets > 0 && KeySizeOk(keySize) && counters.Valid()
      ensures Valid()
      ensures fresh(heads) && fresh(bidx) && fresh(cu)
      ensures this.keySize == keySize && this.crc == crc && this.hasFman == hasFman && this.counters == counters
      ensures heads.Length == buckets && flows == [] && mem == map[] && w.attached
    {
      this.keySize, this.crc, this.hasFman, this.counters := keySize, crc, hasFman, counters;
      heads := new u64[buckets](i => 0);
      bidx := new seq<Flow>[buckets](i => []);
      cu := new seq<Addr>[buckets](i => []);
      mem, flows := map[], [];
      w, log := FreshWorld(buckets, keySize), [];
      owner, dark := map[], {};
      base, since := [], 0;
      history := [Moment(0, FreshView(buckets, keySize))];
      new;
      TracedStart(buckets, keySize, hasFman);
      FreshIsOk(buckets, keySize, crc);
      SinceNow(log, hasFman, w);
      HistoryStarts(w, crc, FreshView(buckets, keySize));
      assert Now() == FreshView(buckets, keySize);
    }

    // ---------------------------------------------------------------- steps

    /** Records events whose effect on memory the code has already had. */
    ghost method Note(evs: seq<Event>)
      requires Logged() && Disciplined(w, evs, hasFman) && Plain(evs, hasFman)
      requires var w' := Replay(w, evs);
               && w'.keySize == w.keySize && w'.mem == mem && w'.heads == heads[..]
               && w'.pubs == w.pubs && w'.stores == w.stores
      modifies `w, `log
      ensures Linked() && w == Replay(old(w), evs) && log == old(log) + evs
      ensures Now() == old(Now()).(w := w)
    {
      hide Disciplined, Replay, Traced, Since, HistoryOk, Plain;
      TracedMore(heads.Length, keySize, log, hasFman, w, evs);
      SincePlain(base, since, log, hasFman, w, evs, Replay(w, evs));
      w, log := Replay(w, evs), log + evs;
    }

    ghost method NoteOne(e: Event)
      requires Logged() && Legal(w, e, hasFman) && Plain([e], hasFman)
      requires var w' := Apply(w, e);
               w'.mem == mem && w'.heads == heads[..] && w'.pubs == w.pubs && w'.stores == w.stores
      modifies `w, `log
      ensures Linked() && w == Apply(old(w), e) && log == old(log) + [e]
      ensures Now() == old(Now()).(w := w)
    {
      hide Apply, Traced, Legal, Since, HistoryOk, Plain;
      TracedEvent(heads.Length, keySize, log, hasFman, w, e);
      SincePlain(base, since, log, hasFman, w, [e], Apply(w, e));
      w, log := Apply(w, e), log + [e];
    }

    /** The end of a call: its log and the table it leaves join the history. */
    ghost method Remember()
      requires Linked() && Coherent(Now(), crc)
      modifies `base, `since, `history
      ensures Linked() && Idle() && history == old(history) + [Moment(|log|, Now())]
      ensures Grew(old(base), log)
    {
      hide Coherent, Traced, Since, HistoryOk;
      TracedIs(heads.Length, keySize, log, hasFman, w);
      SinceIs(base, since, log, hasFman, w);
      SinceShows(base, since, log, hasFman, Now());
      HistoryGrows(FreshWorld(heads.Length, keySize), crc, base, history, log, Now());
      SinceNow(log, hasFman, w);
      history := history + [Moment(|log|, Now())];
      base, since := log, w.stores;
    }

    /** dma_pool_zalloc on the record pool. */
    method AllocRecord(pool: Pool) returns (a: Addr)
      requires Linked() && PoolOk(pool)
      modifies `mem, `w, `log, `owner
      ensures Linked() && a == pool.record(old(mem).Keys)
      ensures a == 0 ==> Now() == old(Now())
      ensures a != 0 ==> a % 256 == 0 && a !in old(mem) && Now() == WithLoose(old(Now()), a, Zeros(FLOW_BLK_SIZE))
    {
      hide Traced, Since, HistoryOk;
      a := pool.record(mem.Keys);
      assert FreeBlock(a, mem.Keys);
      if a != 0 {
        mem := mem[a := Zeros(FLOW_BLK_SIZE)];
        owner := owner[a := KeptRecord];
        NoteOne(Alloc(a, FLOW_BLK_SIZE));
      }
    }

    /** The record's bytes, while no walker has ever been led to its block. */
    method WriteRecord(a: Addr, rec: seq<byte>)
      requires Linked() && a in mem && |rec| == |mem[a]| && a !in w.stamp
      modifies `mem, `w, `log, `owner
      ensures Linked() && Now() == WithLoose(old(Now()), a, rec)
    {
      hide Traced, Since, HistoryOk;
      SpliceAll(mem[a], rec);
      ghost var e := Write(a, 0, rec);
      mem := mem[a := rec];
      owner := owner[a := KeptRecord];
      NoteOne(e);
    }

    /** WRITE_ONCE of a bucket head. */
    method StoreHead(b: nat, head: u64, ghost pub: Pub)
      requires Linked() && since == w.stores && b < heads.Length && Published(mem, keySize, head, pub)
      modifies `w, `log, heads
      ensures Linked() && Now() == old(Now()).(w := Apply(old(w), HeadStore(b, head, pub)))
    {
      hide Traced, Published, Since, HistoryOk, WorldOk, Disciplined, Replay, Apply;
      TracedIs(heads.Length, keySize, log, hasFman, w);
      ghost var e := HeadStore(b, head, pub);
      HeadCount(w);
      HeadWord(w, b, head, pub);
      SinceStore(base, log, hasFman, w, b, head, pub);
      TracedEvent(heads.Length, keySize, log, hasFman, w, e);
      heads[b] := head;
      w, log := Apply(w, e), log + [e];
    }

    /** dma_pool_free on the record pool. */
    method Release(a: Addr)
      requires Linked() && a in mem && a !in Reach(w) && (hasFman ==> Quiet(w, a))
      modifies `mem, `w, `log, `owner
      ensures Linked() && Now() == Without(old(Now()), {a})
    {
      hide Traced, Since, HistoryOk;
      mem := mem - {a};
      owner := owner - {a};
      NoteOne(Free(a));
    }

    /** fman_pcd_ehash_cu_free on the table's pool. */
    method FreeNodes(nodes: seq<Addr>)
      requires Linked() && NoDup(nodes) && Elems(nodes) <= mem.Keys && Elems(nodes) !! Reach(w)
      requires hasFman ==> forall a :: a in nodes ==> Quiet(w, a)
      modifies `mem, `w, `log, `owner
      ensures Linked() && Now() == Without(old(Now()), Elems(nodes))
    {
      hide Traced, Since, HistoryOk, Reach;
      TrackNothing(w, hasFman);
      ghost var evs;
      mem, evs := CuFree(mem, nodes, w, [], w.stamp, hasFman);
      owner := owner - Elems(nodes);
      TrackIs(w, evs, mem, w.stamp - Elems(nodes), hasFman);
      Note(evs);
    }

    /** fman_pcd_ehash_sync: without an FMan there is nothing to wait for. */
    method Sync(hw: Answers) returns (ok: bool)
      requires Linked() && counters.Valid()
      modifies `w, `log, counters
      ensures Linked() && counters.Valid()
      ensures ok <==> !hasFman || ClearSeen(hw)
      ensures SyncOnly(old(w), w) && (hasFman && ok ==> w.mark == w.stores)
      ensures Now() == old(Now()).(w := w)
      ensures counters.outcomes == old(counters.outcomes) + Outcome(true, hasFman, hw)
    {
      hide Traced, Since, HistoryOk, Disciplined, Replay;
      ok := true;
      if hasFman {
        ghost var failed;
        ok, failed := counters.Sync(hw);
        SyncIsDisciplined(w, failed, ok, hasFman);
        SyncIsPlain(failed, ok);
        Note(SyncEvents(failed, ok));
      }
    }

    method SetIndex(b: nat, fs: seq<Flow>)
      requires b < bidx.Length
      modifies bidx
      ensures Now() == old(Now()).(bidx := old(Now()).bidx[b := fs])
    {
      bidx[b] := fs;
    }

    method SetNodes(b: nat, nodes: seq<Addr>)
      requires b < cu.Length
      modifies cu
      ensures Now() == old(Now()).(cu := old(Now()).cu[b := nodes])
    {
      cu[b] := nodes;
    }

    /** fman_pcd_ehash_bucket_publish: rebuild bucket b from its index without skip, then switch its head. */
    method Publish(b: nat, skip: Option<Flow>, pool: Pool)
      returns (err: int, was: seq<Addr>, ghost nodes: seq<Addr>, ghost head: u64, ghost m: Memory)
      requires Linked() && since == w.stores && Sized() && b < heads.Length
      requires FlowsReadable(mem, keySize, bidx[b]) && PoolOk(pool)
      modifies `mem, `w, `log, heads, cu
      ensures Linked() && (err == 0 || err == ENOMEM)
      ensures err == 0 <==> Supplies(pool, old(mem).Keys, |Keep(old(bidx[b]), skip)|, keySize)
      ensures err != 0 ==> Now() == old(Now()) && |Keep(old(bidx[b]), skip)| > 1
      ensures err == 0 ==> was == old(cu[b]) && Publishes(old(Now()), b, Keep(old(bidx[b]), skip), nodes, head, m)
      ensures err == 0 ==>
                Now() == Switched(old(Now()), b, nodes, head, PubOf(old(mem), keySize, nodes, Keep(old(bidx[b]), skip)), m)
    {
      hide Traced, Since, HistoryOk, Reach, Keep, Built, Published, PubOf, FlowsReadable, Apply, Track, PoolOk, Supplies,
        WorldOk, Disciplined, Replay, Plain;
      TracedIs(heads.Length, keySize, log, hasFman, w);
      StampsCover(w);
      var ok, chain, h, mem', evs := Build(mem, keySize, bidx[b], skip, pool, w, hasFman);
      TrackIs(w, evs, mem', w.stamp, hasFman);
      mem, nodes, head, m := mem', chain, h, mem';
      Note(evs);
      if !ok {
        err, was := ENOMEM, [];
        return;
      }
      StoreHead(b, h, PubOf(old(mem), keySize, nodes, Keep(bidx[b], skip)));
      err, was := 0, cu[b];
      SetNodes(b, chain);
    }

    /** A new record block with its content, linked nowhere. */
    method NewRecord(rec: seq<byte>, pool: Pool) returns (a: Addr)
      requires Linked() && Sized() && ViewOk(Now(), crc) && RecordBytesOk(rec) && PoolOk(pool)
      modifies `mem, `w, `log, `owner
      ensures Linked() && a == pool.record(old(mem).Keys)
      ensures a == 0 ==> Now() == old(Now())
      ensures a != 0 ==> a % 256 == 0 && a !in old(mem) && Now() == WithLoose(old(Now()), a, rec)
    {
      ghost var v := Now();
      a := AllocRecord(pool);
      if a != 0 {
        LooseIs(v, a, Zeros(FLOW_BLK_SIZE));
        LooseTwice(v, a, Zeros(FLOW_BLK_SIZE), rec);
        Sizes(v, crc);
        WriteRecord(a, rec);
      }
    }

    /** Frees replaced nodes once a SYNC says no lookup can hold them; keeps them otherwise. */
    method Retire(was: seq<Addr>, hw: Answers, ghost v2: View) returns (ok: bool)
      requires Linked() && counters.Valid() && Now() == v2.(flows := flows)
      requires NoDup(was) && Coherent(v2, crc) && DarkOk(v2) && AllKept(v2, Elems(was))
      modifies `mem, `w, `log, `owner, counters
      ensures Linked() && counters.Valid()
      ensures ok <==> !hasFman || ClearSeen(hw)
      ensures counters.outcomes == old(counters.outcomes) + Outcome(true, hasFman, hw)
      ensures exists w': World :: SyncOnly(v2.w, w') && WorldOk(w') && Now() == Settle(v2, w', Elems(was), ok).(flows := flows)
    {
      ok := Sync(hw);
      ghost var w' := w;
      TracedIs(heads.Length, keySize, log, hasFman, w);
      SettleKeeps(v2, crc, w, Elems(was), ok);
      SettledLate(v2, flows, w, Elems(was));
      if ok {
        FreeNodes(was);
      }
      assert Now() == Settle(v2, w', Elems(was), ok).(flows := flows);
    }

    /** The tail of an insert whose bucket has been published: SYNC, free the old nodes, list the flow. */
    method Adopt(f: Flow, ghost rec: seq<byte>, was: seq<Addr>, hw: Answers,
                 ghost v: View, ghost nodes: seq<Addr>, ghost head: u64, ghost m: Memory)
      returns (freed: bool)
      requires Linked() && Sized() && counters.Valid()
      requires ViewOk(v, crc) && RecordBytesOk(rec) && f.keySize == v.w.keySize && |v.bidx| == bidx.Length
      requires f.index == BucketIndex(crc, KeyIn(rec, f.keySize), |v.bidx|) && was == v.cu[f.index]
      requires f.rec != 0 && f.rec % 256 == 0 && f.rec !in v.w.mem
      requires Publishes(WithLoose(v, f.rec, rec), f.index, [f] + v.bidx[f.index], nodes, head, m)
      requires var v1 := WithLoose(v, f.rec, rec);
               Now() == Inserted(v1, f, nodes, head, m).(flows := v1.flows, owner := v1.owner, dark := v1.dark)
      modifies `mem, `flows, `w, `log, `owner, `dark, counters
      ensures Linked() && ViewOk(Now(), crc) && counters.Valid() && Added(v, Now(), f, rec, freed)
      ensures freed <==> was != [] && (!hasFman || ClearSeen(hw))
      ensures counters.outcomes == old(counters.outcomes) + Outcome(was != [], hasFman, hw)
    {
      hide Traced, Since, HistoryOk, Coherent, DarkOk, WithLoose, Inserted, Settle, KeptNodes, Apply, PubOf, SyncOnly,
        WorldOk, Without, Publishes, AllKept, Added, KeptRecords, Elems, KeyIn, Disciplined, Replay, Reach,
        Switched, ClearSeen, RecordBytesOk, OthersAsBefore, Untouched, Quiet, NoDup, Rebuild;
      InsertLeaves(v, crc, f, rec, nodes, head, m);
      ghost var v2 := Inserted(WithLoose(v, f.rec, rec), f, nodes, head, m);
      owner, dark := v2.owner, v2.dark;
      ghost var w' := v2.w;
      freed := false;
      if was != [] {
        freed := Retire(was, hw, v2);
        w' :| SyncOnly(v2.w, w') && WorldOk(w') && Now() == Settle(v2, w', Elems(was), freed).(flows := flows);
      }
      InsertDone(v, crc, f, rec, nodes, head, m, w', freed);
      LateList(v2, flows, w', Elems(was), freed);
      flows := [f] + flows;
    }

    /** The inserting half of fman_pcd_ehash_add_key; rec is the record its emitter built. */
    method AddKey(rec: seq<byte>, hw: Answers, pool: Pool) returns (err: int, ghost f: Flow, ghost freed: bool)
      requires Valid() && RecordBytesOk(rec) && PoolOk(pool)
      modifies `mem, `flows, `w, `log, `owner, `dark, `base, `since, `history, heads, bidx, cu, counters
      ensures Valid() && (err == 0 || err == ENOMEM)
      ensures Grew(old(log), log) && history == old(history) + [Moment(|log|, Now())]
      ensures var b, a := BucketIndex(crc, KeyIn(rec, keySize), bidx.Length), pool.record(old(mem).Keys);
              err == 0 <==> a != 0 && Supplies(pool, old(mem).Keys + {a}, |old(bidx[b])| + 1, keySize)
      ensures err != 0 ==> Now() == old(Now()) && mem == old(mem) && heads[..] == old(heads[..])
      ensures err == 0 ==>
                && f.index == BucketIndex(crc, KeyIn(rec, keySize), heads.Length) == crc(rec[8..8 + keySize]) % heads.Length
                && f.keySize == keySize
                && Added(old(Now()), Now(), f, rec, freed)
                && (freed <==> old(cu[f.index]) != [] && (!hasFman || ClearSeen(hw)))
      ensures counters.outcomes == old(counters.outcomes)
                                   + if err == 0 && hasFman && old(cu[f.index]) != [] then [Failures(hw, 0)] else []
    {
      hide Traced, Since, HistoryOk, Coherent, DarkOk, Supplies, PoolOk, Added, KeyIn, WorldOk, Disciplined, Replay, Grew,
        ClearSeen, RecordBytesOk, BucketIndex, SyncsNeedFMan;
      TracedIs(heads.Length, keySize, log, hasFman, w);
      Sizes(Now(), crc);
      RecordIndex(rec, keySize, crc, heads.Length);
      var g;
      err, g, freed := Place(rec, hw, pool);
      f := g;
      Remember();
    }

    /** A record block for rec and, if there is one, its flow into the table. */
    method Place(rec: seq<byte>, hw: Answers, pool: Pool) returns (err: int, f: Flow, freed: bool)
      requires Linked() && since == w.stores && Sized() && ViewOk(Now(), crc) && counters.Valid()
      requires RecordBytesOk(rec) && PoolOk(pool)
      modifies `mem, `flows, `w, `log, `owner, `dark, heads, bidx, cu, counters
      ensures Linked() && ViewOk(Now(), crc) && counters.Valid() && (err == 0 || err == ENOMEM)
      ensures f.keySize == keySize && |rec| == FLOW_BLK_SIZE && KeySizeOk(keySize)
      ensures f.index == BucketIndex(crc, KeyIn(rec, keySize), heads.Length)
      ensures f.index < |old(Now()).bidx| == |old(Now()).cu|
      ensures var a := pool.record(old(mem).Keys);
              err == 0 <==> a != 0 && Supplies(pool, old(mem).Keys + {a}, |old(bidx[f.index])| + 1, keySize)
      ensures err != 0 ==> Now() == old(Now()) && !freed
      ensures err == 0 ==> Added(old(Now()), Now(), f, rec, freed)
      ensures err == 0 ==> (freed <==> old(cu[f.index]) != [] && (!hasFman || ClearSeen(hw)))
      ensures counters.outcomes == old(counters.outcomes) + Outcome(err == 0 && old(cu[f.index]) != [], hasFman, hw)
    {
      hide Traced, Since, HistoryOk, Coherent, DarkOk, WithLoose, Supplies, PoolOk, Added, KeyIn, WorldOk, Disciplined, Replay,
        Reach, ClearSeen, RecordBytesOk, SyncsNeedFMan;
      ghost var v := Now();
      TracedIs(heads.Length, keySize, log, hasFman, w);
      Sizes(v, crc);
      RecordIndex(rec, keySize, crc, heads.Length);
      var b := BucketIndex(crc, KeyIn(rec, keySize), heads.Length);
      var a := NewRecord(rec, pool);
      f, freed := Flow(a, b, keySize), false;
      if a == 0 {
        err := ENOMEM;
        return;
      }
      LooseIs(v, a, rec);
      assert Now().w.stores == v.w.stores;
      err, freed := Enter(f, hw, pool, v, rec);
    }

    /** A flow whose record is written enters the table, or the record is given back. */
    method Enter(f: Flow, hw: Answers, pool: Pool, ghost v: View, ghost rec: seq<byte>) returns (err: int, freed: bool)
      requires Linked() && since == w.stores && Sized() && counters.Valid() && PoolOk(pool)
      requires Now() == WithLoose(v, f.rec, rec)
      requires ViewOk(v, crc) && RecordBytesOk(rec) && f.keySize == v.w.keySize && |v.bidx| == bidx.Length
      requires f.index == BucketIndex(crc, KeyIn(rec, f.keySize), |v.bidx|)
      requires f.rec != 0 && f.rec % 256 == 0 && f.rec !in v.w.mem
      modifies `mem, `flows, `w, `log, `owner, `dark, heads, bidx, cu, counters
      ensures Linked() && counters.Valid() && ViewOk(Now(), crc) && (err == 0 || err == ENOMEM)
      ensures f.index < |v.bidx| == |v.cu|
      ensures err == 0 <==> Supplies(pool, old(mem).Keys, |v.bidx[f.index]| + 1, keySize)
      ensures err != 0 ==> Now() == v && !freed
      ensures err == 0 ==> Added(v, Now(), f, rec, freed)
      ensures err == 0 ==> (freed <==> v.cu[f.index] != [] && (!hasFman || ClearSeen(hw)))
      ensures counters.outcomes == old(counters.outcomes) + Outcome(err == 0 && v.cu[f.index] != [], hasFman, hw)
    {
      hide Traced, Since, HistoryOk, Coherent, DarkOk, WithLoose, Inserted, Publishes, PoolOk, Supplies, Added, KeyIn, Apply,
        WorldOk, Disciplined, Replay, Reach, Switched, BucketIndex, ClearSeen;
      freed := false;
      var was;
      ghost var nodes, head, m;
      err, was, nodes, head, m := LinkNew(f, pool, v, rec);
      if err == 0 {
        freed := Adopt(f, rec, was, hw, v, nodes, head, m);
      }
    }

    /** Puts f, whose record is written, at the front of its bucket and publishes it; undone on failure. */
    method LinkNew(f: Flow, pool: Pool, ghost v: View, ghost rec: seq<byte>)
      returns (err: int, was: seq<Addr>, ghost nodes: seq<Addr>, ghost head: u64, ghost m: Memory)
      requires Linked() && since == w.stores && Sized() && PoolOk(pool) && Now() == WithLoose(v, f.rec, rec)
      requires ViewOk(v, crc) && RecordBytesOk(rec) && f.keySize == v.w.keySize && |v.bidx| == bidx.Length
      requires f.index == BucketIndex(crc, KeyIn(rec, f.keySize), |v.bidx|)
      requires f.rec != 0 && f.rec % 256 == 0 && f.rec !in v.w.mem
      modifies `mem, `w, `log, `owner, heads, bidx, cu
      ensures Linked() && (err == 0 || err == ENOMEM)
      ensures f.index < |v.bidx| == |v.cu|
      ensures err == 0 <==> Supplies(pool, old(mem).Keys, |v.bidx[f.index]| + 1, keySize)
      ensures err != 0 ==> Now() == v
      ensures err == 0 ==> was == v.cu[f.index]
                           && Publishes(WithLoose(v, f.rec, rec), f.index, [f] + v.bidx[f.index], nodes, head, m)
      ensures var v1 := WithLoose(v, f.rec, rec);
              err == 0 ==> f.index < |v1.bidx| == |v1.cu|
                           && Now() == Inserted(v1, f, nodes, head, m).(flows := v1.flows, owner := v1.owner, dark := v1.dark)
    {
      hide Traced, Since, HistoryOk, Coherent, DarkOk, WithLoose, WorldOk, Elems, Apply, PubOf, PoolOk, Supplies, Keep,
        Publishes;
      TracedIs(heads.Length, keySize, log, hasFman, w);
      Sizes(v, crc);
      AddBegin(v, crc, f.rec, rec, f.index);
      LooseIs(v, f.rec, rec);
      ghost var v1 := Now();
      SetIndex(f.index, [f] + bidx[f.index]);
      FitIsReadable(v1, crc, f.index, [f] + v.bidx[f.index]);
      KeepNone([f] + v.bidx[f.index]);
      err, was, nodes, head, m := Publish(f.index, None, pool);
      if err != 0 {
        IndexUndone(v.bidx, f.index, f);
        SetIndex(f.index, bidx[f.index][1..]);
        Release(f.rec);
        return;
      }
      SwitchedIsInserted(v1, f, nodes, head, m);
    }

    /** The list search of del_key and get_stats: the first flow of bucket b with this key. */
    method Find(b: nat, key: seq<byte>) returns (x: Option<Flow>)
      requires Valid() && b < heads.Length && |key| == keySize
      ensures FoundIn(Now(), b, key, x)
    {
      hide Traced, Since, HistoryOk, Coherent, DarkOk, FoundIn, KeyOf;
      TracedIs(heads.Length, keySize, log, hasFman, w);
      var i := 0;
      while i < |bidx[b]|
        invariant 0 <= i <= |bidx[b]|
        invariant forall j :: 0 <= j < i ==> KeyOf(mem, keySize, bidx[b][j].rec) != key
      {
        SizeOfFlow(Now(), crc, b, i);
        if bidx[b][i].keySize == |key| && KeyOf(mem, keySize, bidx[b][i].rec) == key {
          SearchHit(Now(), crc, b, key, i);
          return Some(bidx[b][i]);
        }
        i := i + 1;
      }
      SearchMiss(Now(), b, key);
      return None;
    }

    /** SYNC after an unlink; the record and the replaced nodes are freed if it completes, kept if not. */
    method Reclaim(was: seq<Addr>, x: Flow, hw: Answers, ghost v2: View) returns (ok: bool)
      requires Linked() && counters.Valid() && Now() == v2
      requires NoDup(was) && x.rec !in was && Coherent(v2, crc) && DarkOk(v2) && AllKept(v2, Elems(was) + {x.rec})
      modifies `mem, `w, `log, `owner, counters
      ensures Linked() && counters.Valid()
      ensures ok <==> !hasFman || ClearSeen(hw)
      ensures counters.outcomes == old(counters.outcomes) + Outcome(true, hasFman, hw)
      ensures exists w': World :: SyncOnly(v2.w, w') && WorldOk(w') && Now() == Settle(v2, w', Elems(was) + {x.rec}, ok)
    {
      hide Traced, Since, HistoryOk, Coherent, DarkOk, Settle;
      ok := Sync(hw);
      ghost var w', v3 := w, Now();
      TracedIs(heads.Length, keySize, log, hasFman, w);
      SettleKeeps(v2, crc, w, Elems(was) + {x.rec}, ok);
      SettleIs(v2, w, Elems(was) + {x.rec}, ok);
      if ok {
        FreeNodes(was);
        WithoutLeaves(v3, Elems(was), x.rec);
        Release(x.rec);
        WithoutBoth(v3, Elems(was), x.rec);
      }
      assert Now() == Settle(v2, w', Elems(was) + {x.rec}, ok);
    }

    /** Bucket b out of hardware: its head cleared, its nodes handed back. */
    method Darken(b: nat) returns (was: seq<Addr>)
      requires Linked() && since == w.stores && Sized() && b < heads.Length
      modifies `w, `log, heads, cu
      ensures Linked() && was == old(cu[b])
      ensures Now() == Switched(old(Now()), b, [], 0, EMPTY, old(mem))
    {
      hide Traced, Since, HistoryOk, Apply, Published, WorldOk, Disciplined, Replay, Switched;
      TracedIs(heads.Length, keySize, log, hasFman, w);
      EmptyPublished(mem, keySize);
      DarkIsSwitched(Now(), b);
      StoreHead(b, 0, EMPTY);
      was := cu[b];
      SetNodes(b, []);
    }

    /** Bucket b without f in hardware: rebuilt, or darkened if there is no memory. */
    method Unhook(f: Flow, pool: Pool)
      returns (was: seq<Addr>, ghost nodes: seq<Addr>, ghost head: u64, ghost pub: Pub, ghost m: Memory, ghost dark': set<nat>)
      requires Linked() && since == w.stores && Sized() && ViewOk(Now(), crc)
      requires f.index < heads.Length && f in bidx[f.index] && PoolOk(pool)
      modifies `mem, `w, `log, heads, cu
      ensures Linked() && was == old(cu[f.index])
      ensures f.index !in dark' <==> Supplies(pool, old(mem).Keys, |Keep(old(bidx[f.index]), Some(f))|, keySize)
      ensures f.index < |old(Now()).bidx| == |old(Now()).cu| && Leaves(old(Now()), f, nodes, head, pub, m, dark')
      ensures Now() == Switched(old(Now()), f.index, nodes, head, pub, m)
    {
      hide Traced, Since, HistoryOk, Coherent, DarkOk, Keep, Publishes, Switched, Leaves, Apply, PubOf, WorldOk,
        FlowsReadable,
        PoolOk, Supplies;
      ghost var v := Now();
      var b := f.index;
      TracedIs(heads.Length, keySize, log, hasFman, w);
      Sizes(v, crc);
      FlowsAreReadable(v, crc, b);
      ghost var rest := Keep(bidx[b], Some(f));
      var err;
      err, was, nodes, head, m := Publish(b, Some(f), pool);
      pub, dark' := PubOf(v.w.mem, keySize, nodes, rest), v.dark - {b};
      if err != 0 {
        was := Darken(b);
        nodes, head, pub, m, dark' := [], 0, EMPTY, mem, v.dark + {b};
      }
      LeavesIs(v, f, nodes, head, pub, m, dark');
    }

    /** Takes f out of its bucket in hardware, then out of the index and the flow list. */
    method Unlink(f: Flow, pool: Pool)
      returns (was: seq<Addr>, ghost nodes: seq<Addr>, ghost head: u64, ghost pub: Pub, ghost m: Memory, ghost dark': set<nat>)
      requires Linked() && since == w.stores && Sized() && ViewOk(Now(), crc)
      requires f.index < heads.Length && f in bidx[f.index] && PoolOk(pool)
      modifies `mem, `flows, `w, `log, `owner, `dark, heads, bidx, cu
      ensures Linked() && was == old(cu[f.index])
      ensures f.index !in dark' <==> Supplies(pool, old(mem).Keys, |Keep(old(bidx[f.index]), Some(f))|, keySize)
      ensures Now().w == w && f.index < |old(Now()).bidx| == |old(Now()).cu|
      ensures Leaves(old(Now()), f, nodes, head, pub, m, dark')
      ensures Now() == Removed(old(Now()), f, nodes, head, pub, m, dark')
    {
      hide Traced, Since, HistoryOk, Coherent, DarkOk, Keep, Switched, Removed, Leaves, PoolOk, Supplies;
      ghost var v := Now();
      was, nodes, head, pub, m, dark' := Unhook(f, pool);
      SwitchedIsRemoved(v, f, nodes, head, pub, m, dark');
      flows := Keep(flows, Some(f));
      SetIndex(f.index, Keep(bidx[f.index], Some(f)));
      ghost var v2 := Removed(v, f, nodes, head, pub, m, dark');
      owner, dark := v2.owner, v2.dark;
    }

    /** Unlinks x, waits for the lookups that may hold its blocks, and frees them or keeps them. */
    method Remove(x: Flow, hw: Answers, pool: Pool) returns (ghost darkened: bool, freed: bool)
      requires Linked() && since == w.stores && Sized() && ViewOk(Now(), crc) && counters.Valid()
      requires x.index < heads.Length && x in bidx[x.index] && PoolOk(pool)
      modifies `mem, `flows, `w, `log, `owner, `dark, heads, bidx, cu, counters
      ensures Linked() && ViewOk(Now(), crc) && counters.Valid()
      ensures |old(Now()).bidx| == |old(Now()).cu| && Deleted(old(Now()), Now(), x, darkened, freed)
      ensures darkened <==> !Supplies(pool, old(mem).Keys, |Keep(old(bidx[x.index]), Some(x))|, keySize)
      ensures freed <==> !hasFman || ClearSeen(hw)
      ensures counters.outcomes == old(counters.outcomes) + Outcome(true, hasFman, hw)
    {
      hide Traced, Since, HistoryOk, Coherent, DarkOk, Without, Keep, Publishes, AllKept, ClearSeen, Supplies, PoolOk,
        WorldOk,
        Disciplined, Replay, Removed, Settle, SyncOnly, Deleted, Leaves, Retired;
      ghost var v := Now();
      Sizes(v, crc);
      var was;
      ghost var nodes, head, pub, m, dark';
      was, nodes, head, pub, m, dark' := Unlink(x, pool);
      ghost var v2 := Removed(v, x, nodes, head, pub, m, dark');
      RemoveKeeps(v, crc, x, nodes, head, pub, m, dark');
      BucketNodes(v, crc, x.index);
      RetiredIs(v, x);
      freed := Reclaim(was, x, hw, v2);
      ghost var w' :| SyncOnly(v2.w, w') && WorldOk(w') && Now() == Settle(v2, w', Elems(was) + {x.rec}, freed);
      DeleteDone(v, crc, x, nodes, head, pub, m, dark', w', freed);
      darkened := x.index in dark';
    }

    /** fman_pcd_ehash_del_key */
    method DelKey(key: seq<byte>, hw: Answers, pool: Pool)
      returns (err: int, ghost x: Flow, ghost darkened: bool, ghost freed: bool)
      requires Valid() && PoolOk(pool)
      modifies `mem, `flows, `w, `log, `owner, `dark, `base, `since, `history, heads, bidx, cu, counters
      ensures Valid() && (err == 0 || err == EINVAL || err == ENOENT)
      ensures Grew(old(log), log) && history == old(history) + [Moment(|log|, Now())]
      ensures err != 0 ==> Now() == old(Now())
      ensures err == EINVAL <==> |key| != keySize
      ensures err == ENOENT <==>
                |key| == keySize && |old(Now()).bidx| > 0
                && Indexed(old(Now()), BucketIndex(crc, key, |old(Now()).bidx|), key) == 0
      ensures err == 0 ==>
                && x.index == BucketIndex(crc, key, heads.Length) == crc(key) % heads.Length && x in old(bidx[x.index])
                && KeyOf(old(mem), keySize, x.rec) == key && x.rec == Indexed(old(Now()), x.index, key)
                && Deleted(old(Now()), Now(), x, darkened, freed)
                && (darkened <==> !Supplies(pool, old(mem).Keys, |Keep(old(bidx[x.index]), Some(x))|, keySize))
                && (freed <==> !hasFman || ClearSeen(hw))
      ensures counters.outcomes == old(counters.outcomes) + if err == 0 && hasFman then [Failures(hw, 0)] else []
    {
      hide Traced, Since, HistoryOk, Coherent, DarkOk, Keep, ClearSeen, FoundIn, Indexed, Deleted, Supplies, PoolOk, KeyOf,
        WorldOk, Disciplined, Replay, Grew;
      ghost var v := Now();
      x, darkened, freed := Flow(0, 0, 0), false, false;
      TracedIs(heads.Length, keySize, log, hasFman, w);
      Sizes(v, crc);
      KeysAreNotEmpty(keySize);
      if |key| == 0 || |key| != keySize {
        err := EINVAL;
        Remember();
        return;
      }
      var b := BucketIndex(crc, key, heads.Length);
      var found := Find(b, key);
      FoundIs(v, crc, b, key, found);
      if found.None? {
        err := ENOENT;
        Remember();
        return;
      }
      err, x := 0, found.value;
      darkened, freed := Remove(found.value, hw, pool);
      Remember();
    }

    /** One drained flow: its head cleared, the flow unlinked, its record freed. */
    method DrainFlow(f: Flow, ghost v0: View)
      requires Linked() && since == w.stores && Sized() && Draining(v0, Now(), crc) && f in flows
      modifies `mem, `flows, `w, `log, `owner, `dark, heads, bidx
      ensures Linked() && Draining(v0, Now(), crc) && flows == Keep(old(flows), Some(f))
    {
      hide Traced, Since, HistoryOk, Coherent, Draining, Keep, Apply, Cleared, Without, Published, Quiet, WorldOk,
        Disciplined, Replay, Grew, Reach;
      ghost var v := Now();
      TracedIs(heads.Length, keySize, log, hasFman, w);
      DrainingIs(v0, v, crc);
      ListedFlow(v, crc, f);
      EmptyPublished(mem, keySize);
      ClearKeeps(v0, v, crc, f);
      SwitchedIsCleared(v, f);
      ClearedIs(v, f);
      ghost var v2 := Cleared(v, f);
      WithoutIs(v2, {f.rec});
      StoreHead(f.index, 0, EMPTY);
      flows := Keep(flows, Some(f));
      SetIndex(f.index, Keep(bidx[f.index], Some(f)));
      owner, dark := v2.owner, v2.dark;
      Release(f.rec);
    }

    /** The nodes of one emptied bucket. */
    method DrainNodes(b: nat, ghost v0: View)
      requires Linked() && Sized() && Draining(v0, Now(), crc) && b < cu.Length && bidx[b] == []
      modifies `mem, `w, `log, `owner, cu
      ensures Linked() && Draining(v0, Now(), crc) && Now().bidx == old(Now()).bidx && flows == old(flows)
      ensures cu[..] == old(cu[..])[b := []]
    {
      hide Draining, Disowned, WorldOk, Disciplined, Replay, Grew, Reach;
      ghost var v := Now();
      DrainingIs(v0, v, crc);
      DropKeeps(v0, v, crc, b);
      ghost var v1 := Disowned(v, b);
      DisownedIs(v, b);
      WithoutIs(v1, Elems(v.cu[b]));
      owner := v1.owner;
      FreeNodes(cu[b]);
      SetNodes(b, []);
    }

    /** fman_pcd_ehash_flow_drain, for a table whose ports are detached: no lookup can be in flight. */
    method Drain()
      requires Valid() && !w.attached
      modifies `mem, `flows, `w, `log, `owner, `dark, `base, `since, `history, heads, bidx, cu
      ensures Valid() && Drained(old(Now()), Now())
      ensures Grew(old(log), log) && history[|history| - 1] == Moment(|log|, Now())
    {
      hide Traced, Since, HistoryOk, Coherent, Draining, Drained, WorldOk, Disciplined, Replay, Grew, Reach;
      ghost var v0, l0 := Now(), log;
      DrainStart(v0, crc);
      GrewNothing(log);
      while flows != []
        invariant Linked() && Idle() && Sized() && Draining(v0, Now(), crc)
        invariant Grew(l0, log)
        decreases |flows|
      {
        ghost var l := log;
        var f := flows[0];
        KeepShorter(flows, f);
        DrainFlow(f, v0);
        DrainingIs(v0, Now(), crc);
        Remember();
        GrewMore(l0, l, log);
      }
      var i := 0;
      ghost var bl := base;
      DrainingIs(v0, Now(), crc);
      NothingListed(Now(), crc);
      while i < cu.Length
        invariant 0 <= i <= cu.Length
        invariant Linked() && Sized() && Draining(v0, Now(), crc) && flows == [] && base == bl && Grew(l0, bl)
        invariant forall b :: 0 <= b < i ==> cu[b] == []
        invariant forall b :: 0 <= b < bidx.Length ==> bidx[b] == []
      {
        DropKeeps(v0, Now(), crc, i);
        DrainNodes(i, v0);
        i := i + 1;
      }
      DrainDone(v0, Now(), crc);
      dark := {};
      Remember();
      GrewMore(l0, bl, log);
    }

    /** The FMan ports that use this table stop and start using it. */
    ghost method SetAttached(on: bool)
      requires Valid()
      modifies `w, `log, `base, `since, `history
      ensures Valid() && w == old(w).(attached := on) && Now() == old(Now()).(w := w)
      ensures log == old(log) + [if on then Attach else Detach] && history == old(history) + [Moment(|log|, Now())]
    {
      hide Traced, Coherent, DarkOk, Since, HistoryOk, Apply, Legal, WorldOk, Grew, Shows, Disciplined, SyncsNeedFMan;
      ghost var e := if on then Attach else Detach;
      AttachKeeps(Now(), crc, on);
      IsAttach(w, on, hasFman);
      TracedEvent(heads.Length, keySize, log, hasFman, w, e);
      SinceIs(base, since, log, hasFman, w);
      PortsMove(log, hasFman, on);
      w, log := Apply(w, e), log + [e];
      TracedIs(heads.Length, keySize, log, hasFman, w);
      NoStoreShows(old(log), on, Now());
      HistoryGrows(FreshWorld(heads.Length, keySize), crc, base, history, log, Now());
      SinceNow(log, hasFman, w);
      history := history + [Moment(|log|, Now())];
      base, since := log, w.stores;
    }

    /** What the hardware finds for key now: the record del_key would remove, or nothing in a dark bucket. */
    method Lookup(key: seq<byte>) returns (hit: Addr, fetched: nat)
      requires Valid() && |key| == keySize
      ensures var b := BucketIndex(crc, key, bidx.Length);
              && hit == (if b in dark then 0 else Indexed(Now(), b, key))
              && fetched == if b in dark then 0
                            else if |bidx[b]| <= 1 then |bidx[b]|
                            else CeilDiv(|bidx[b]|, Per1(keySize))
    {
      TracedIs(heads.Length, keySize, log, hasFman, w);
      Sizes(Now(), crc);
      var b := BucketIndex(crc, key, heads.Length);
      HeadIsPublished(w, b);
      HardwareSeesIndex(Now(), crc, b, key);
      ImageSize(Now(), crc, b);
      hit, fetched := Walk(mem, keySize, heads[b], key, w.pubs[b]);
    }

    /**
     * fman_pcd_ehash_add_key with its eviction: a stale flow x of the same key is deleted first, which
     * leaves the table as mid shows it. A failed insert is atomic exactly if there was none.
     */
    method Insert(rec: seq<byte>, hwDelete: Answers, hwInsert: Answers, poolDelete: Pool, poolInsert: Pool)
      returns (err: int, ghost f: Flow, ghost x: Option<Flow>, ghost mid: View, ghost darkened: bool,
               ghost freedOld: bool, ghost freed: bool)
      requires Valid() && RecordBytesOk(rec) && PoolOk(poolDelete) && PoolOk(poolInsert)
      modifies `mem, `flows, `w, `log, `owner, `dark, `base, `since, `history, heads, bidx, cu, counters
      ensures Valid() && (err == 0 || err == ENOMEM) && Grew(old(log), log)
      ensures UniqueKeys(old(Now())) ==> UniqueKeys(Now())
      ensures |Now().bidx| == |old(Now()).bidx| == heads.Length
      ensures |old(Now()).cu| == |mid.bidx| == |mid.cu| == heads.Length
      ensures var b, k := BucketIndex(crc, KeyIn(rec, keySize), heads.Length), KeyIn(rec, keySize);
              && (err == 0 ==> Indexed(Now(), b, k) == f.rec && f.rec in mem && mem[f.rec] == rec && b !in dark)
              && (err != 0 && UniqueKeys(old(Now())) ==> Indexed(Now(), b, k) == 0)
              && forall c, key :: 0 <= c < heads.Length && (c != b || key != k) ==>
                   Indexed(Now(), c, key) == Indexed(old(Now()), c, key)
      ensures var b, k := BucketIndex(crc, KeyIn(rec, keySize), heads.Length), KeyIn(rec, keySize);
              && Evicted(old(Now()), mid, b, k, x, darkened, freedOld)
              && (err == 0 ==> f.index == b && Added(mid, Now(), f, rec, freed))
              && (err != 0 ==> Now() == mid && (Now() == old(Now()) <==> Indexed(old(Now()), b, k) == 0))
      ensures var b := BucketIndex(crc, KeyIn(rec, keySize), heads.Length);
              err != 0 && x.Some? ==>
                && |w.pubs| == heads.Length && |w.pubs[b].recs| == |w.pubs[b].keys|
                && forall key :: Answer(w.pubs[b], key) == if darkened then 0 else Indexed(Now(), b, key)
      ensures counters.outcomes == old(counters.outcomes)
                                   + (if x.Some? && hasFman then [Failures(hwDelete, 0)] else [])
                                   + (if err == 0 && hasFman && mid.cu[f.index] != [] then [Failures(hwInsert, 0)] else [])
    {
      hide Traced, Since, HistoryOk, WorldOk, Indexed, Deleted, PoolOk, Supplies, Coherent, UniqueKeys, Added, Evicted,
        DarkOk,
        Disciplined, Replay, Grew, Keep, ClearSeen, KeyOf;
      ghost var v, l := Now(), log;
      TracedIs(heads.Length, keySize, log, hasFman, w);
      Sizes(v, crc);
      KeyHasSize(rec, keySize);
      var e;
      ghost var y;
      e, y, darkened, freedOld := DelKey(KeyIn(rec, keySize), hwDelete, poolDelete);
      mid, x := Now(), if e == 0 then Some(y) else None;
      TracedIs(heads.Length, keySize, log, hasFman, w);
      Sizes(mid, crc);
      EvictedIs(v, mid, crc, BucketIndex(crc, KeyIn(rec, keySize), heads.Length), KeyIn(rec, keySize), x, darkened, freedOld);
      ghost var l1 := log;
      err, f, freed := AddKey(rec, hwInsert, poolInsert);
      GrewMore(l, l1, log);
      TracedIs(heads.Length, keySize, log, hasFman, w);
      Sizes(Now(), crc);
      if err == 0 {
        AddedSeen(mid, Now(), crc, f, rec, freed);
        AddedRecord(mid, Now(), f, rec, freed);
      }
    }
  }
}
