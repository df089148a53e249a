/**
 * The FMan is needed. A table without one reports its SYNCs done at once, so a lookup that read a
 * head before a delete goes on to read the block the delete freed.
 */
module EhashNoFMan {
  import opened Kernel
  import opened Bytes
  import opened Bucket
  import opened Epoch
  import opened EhashView
  import opened EhashAdd
  import opened EhashDel
  import opened EhashLookup
  import opened EhashHistory
  import opened FpmSync
  import opened Pools
  import opened EhashTable
  import opened Reclaim

  function Arms(log: seq<Event>, n: nat): nat
    requires n <= |log|
  {
    if n == 0 then 0 else Arms(log, n - 1) + if log[n - 1].Arm? then 1 else 0
  }

  /** The system once the writer is at n. */
  function SysAt(w0: World, log: seq<Event>, n: nat, lookups: map<nat, Lookup>): Sys
    requires n <= |log|
  {
    Sys(At(w0, log, n), n, Arms(log, n), lookups)
  }

  /** The writer may go on: no lookup is in flight, or no event it waits for comes. */
  lemma WriterGoesOn(w0: World, log: seq<Event>, n: nat, lookups: map<nat, Lookup>)
    requires n < |log| && (lookups == map[] || (!log[n].Clear? && !log[n].Detach?))
    ensures Enabled(log, SysAt(w0, log, n, lookups), Writer)
    ensures Do(log, SysAt(w0, log, n, lookups), Writer) == SysAt(w0, log, n + 1, lookups)
  {
    NextWorld(w0, log, n);
  }

  function ZeroKey(keySize: nat): (k: seq<byte>)
    ensures |k| == keySize
  {
    Zeros(keySize)
  }

  /** A lookup of bucket b has read the head and is about to fetch its first block. */
  function Entering(w0: World, log: seq<Event>, m: nat, b: nat): Lookup
    requires m <= |log| && b < |At(w0, log, m).pubs|
  {
    var w := At(w0, log, m);
    Lookup(b, ZeroKey(w.keySize), w.pubs[b], w.stores, Arms(log, m), Reading(Entry(w.pubs[b]), 0))
  }

  lemma LookupEnters(w0: World, log: seq<Event>, m: nat, b: nat)
    requires m <= |log| && WorldOk(At(w0, log, m)) && At(w0, log, m).attached
    requires b < |At(w0, log, m).pubs| && Entry(At(w0, log, m).pubs[b]) != 0
    ensures var begin, l := Begin(0, b, ZeroKey(At(w0, log, m).keySize)), Entering(w0, log, m, b);
            && Enabled(log, SysAt(w0, log, m, map[]), begin)
            && Do(log, SysAt(w0, log, m, map[]), begin) == SysAt(w0, log, m, map[0 := l])
  {
    var w := At(w0, log, m);
    hide At;
    assert Published(w.mem, w.keySize, w.heads[b], w.pubs[b]);
    SwabIsZeroOnlyForNull(Entry(w.pubs[b]));
    SwabIsInvolutive(Entry(w.pubs[b]));
  }

  lemma LookupFaults(w0: World, log: seq<Event>, n: nat, l: Lookup)
    requires n <= |log| && l.phase.Reading? && l.phase.ptr !in At(w0, log, n).mem
    ensures Enabled(log, SysAt(w0, log, n, map[0 := l]), Advance(0))
    ensures Do(log, SysAt(w0, log, n, map[0 := l]), Advance(0)) == SysAt(w0, log, n, map[0 := l.(phase := Faulted)])
  {
  }

  /**
   * If a head leads to a block at m, the block is gone at n, and neither a SYNC completed nor the
   * ports were detached in between, then some lookup reads the block after it is gone.
   */
  lemma FreedEntryFaults(w0: World, log: seq<Event>, m: nat, n: nat, b: nat)
      returns (acts: seq<Action>, trace: seq<Sys>)
    requires WorldOk(w0) && Disciplined(w0, log, false) && m <= n <= |log|
    requires forall i :: m <= i < n ==> !log[i].Clear? && !log[i].Detach?
    requires At(w0, log, m).attached && b < |At(w0, log, m).pubs|
    requires Entry(At(w0, log, m).pubs[b]) != 0 && Entry(At(w0, log, m).pubs[b]) !in At(w0, log, n).mem
    ensures Behavior(w0, log, acts, trace)
    ensures 0 in trace[|trace| - 1].lookups && trace[|trace| - 1].lookups[0].phase.Faulted?
  {
    hide At, Disciplined, Enabled, Do, WorldOk, Replay;
    WorldAt(w0, log, m);
    var l := Entering(w0, log, m, b);
    var before, after := map[0 := l], map[0 := l.(phase := Faulted)];
    LookupEnters(w0, log, m, b);
    LookupFaults(w0, log, n, l);
    acts := seq(m, i => Writer) + [Begin(0, b, ZeroKey(At(w0, log, m).keySize))] + seq(n - m, i => Writer) + [Advance(0)];
    trace := seq(m + 1, i requires 0 <= i <= m => SysAt(w0, log, i, map[]))
           + seq(n - m + 1, i requires 0 <= i <= n - m => SysAt(w0, log, m + i, before))
           + [SysAt(w0, log, n, after)];
    AtStart(w0, log);
    forall i | 0 <= i < |acts| ensures Enabled(log, trace[i], acts[i]) && trace[i + 1] == Do(log, trace[i], acts[i]) {
      if i < m {
        WriterGoesOn(w0, log, i, map[]);
      } else if m < i <= n {
        WriterGoesOn(w0, log, i - 1, before);
      }
    }
  }

  lemma WorldAt(w0: World, log: seq<Event>, m: nat)
    requires WorldOk(w0) && Disciplined(w0, log, false) && m <= |log|
    ensures WorldOk(At(w0, log, m))
  {
    hide WorldOk;
    forall i | 0 <= i < m ensures Legal(Replay(w0, log[..m][..i]), log[..m][i], false) {
      assert log[..m][..i] == log[..i];
    }
    ReplayKeepsWorldOk(w0, log[..m], false);
  }

  /** The first block a head leads to is one of those a delete in its bucket retires. */
  lemma EntryIsRetired(v: View, crc: seq<byte> -> nat, x: Flow)
    requires ViewOk(v, crc) && x.index < |v.bidx| && x in v.bidx[x.index] && x.index !in v.dark
    ensures x.index < |v.w.pubs| && x.index < |v.cu|
    ensures Entry(v.w.pubs[x.index]) != 0 && Entry(v.w.pubs[x.index]) in Retired(v, x)
  {
    hide Coherent, DarkOk, Published, Retired, PubOf, Entry, NodeCount, Swab64;
    Sizes(v, crc);
    NodeListSize(v, crc, x.index);
    HardwareSeesIndex(v, crc, x.index, []);
    Image(v, crc, x.index);
    SwabIsZeroOnlyForNull(0);
    EntryOf(v, x);
  }

  lemma Image(v: View, crc: seq<byte> -> nat, b: nat)
    requires Coherent(v, crc) && b < |v.bidx| && b !in v.dark
    ensures b < |v.w.heads| && b < |v.w.pubs| && b < |v.cu|
    ensures v.w.pubs[b] == PubOf(v.w.mem, v.w.keySize, v.cu[b], v.bidx[b]) && v.w.heads[b] == Swab64(Entry(v.w.pubs[b]))
  {
    hide FlowsOk, OwnersOk, ListsOk, PubOf, Entry, Swab64;
    assert Published(v.w.mem, v.w.keySize, v.w.heads[b], v.w.pubs[b]);
  }

  lemma EntryOf(v: View, x: Flow)
    requires x.index < |v.bidx| && x.index < |v.cu| && x in v.bidx[x.index]
    requires |v.cu[x.index]| == NodeCount(|v.bidx[x.index]|, v.w.keySize)
    ensures Entry(PubOf(v.w.mem, v.w.keySize, v.cu[x.index], v.bidx[x.index])) in Retired(v, x)
  {
    if |v.bidx[x.index]| == 1 {
      assert v.bidx[x.index][0] == x;
    } else {
      OneNodeAtLeast(v.w.keySize, |v.bidx[x.index]|);
    }
  }

  lemma {:induction false} PortsStay(w0: World, log0: seq<Event>, log: seq<Event>)
    requires Grew(log0, log)
    ensures Replay(w0, log).attached == Replay(w0, log0).attached
    decreases |log|
  {
    if |log| > |log0| {
      var front := log[..|log| - 1];
      PortsStay(w0, log0, front);
      OnlyPortsMove(Replay(w0, front), log[|log| - 1]);
    } else {
      assert log == log0;
    }
  }

  lemma OnlyPortsMove(w: World, e: Event)
    requires !e.Attach? && !e.Detach?
    ensures Apply(w, e).attached == w.attached
  {
  }

  lemma UnsyncedDeleteFaults(w0: World, log0: seq<Event>, log: seq<Event>, v: View, v': View, crc: seq<byte> -> nat,
                             x: Flow, darkened: bool)
      returns (acts: seq<Action>, trace: seq<Sys>)
    requires WorldOk(w0) && Disciplined(w0, log, false) && SyncsNeedFMan(log, false) && Grew(log0, log)
    requires v.w == Replay(w0, log0) && v'.w == Replay(w0, log) && v.w.attached
    requires ViewOk(v, crc) && x.index < |v.bidx| == |v.cu| && x in v.bidx[x.index] && x.index !in v.dark
    requires Deleted(v, v', x, darkened, true)
    ensures Behavior(w0, log, acts, trace)
    ensures 0 in trace[|trace| - 1].lookups && trace[|trace| - 1].lookups[0].phase.Faulted?
  {
    hide WorldOk, Disciplined, Coherent, DarkOk, Replay, Behavior, Keep, Entry, OthersAsBefore, Untouched;
    EntryIsRetired(v, crc, x);
    assert log[..|log0|] == log0 && log[..|log|] == log;
    acts, trace := FreedEntryFaults(w0, log, |log0|, |log|, x.index);
  }

  /**
   * In any table without an FMan whose ports are attached, every delete that takes a flow from a
   * bucket in hardware lets a lookup begun before it read a freed block.
   */
  method DeleteUnsynced(t: Table, key: seq<byte>, hw: Answers, pool: Pool)
      returns (err: int, ghost acts: seq<Action>, ghost trace: seq<Sys>)
    requires t.Valid() && !t.hasFman && t.w.attached && PoolOk(pool)
    modifies t, t.heads, t.bidx, t.cu, t.counters
    ensures t.Valid() && (err == 0 || err == EINVAL || err == ENOENT) && t.bidx.Length == |old(t.Now()).bidx| > 0
    ensures err == 0 <==>
              |key| == t.keySize && Indexed(old(t.Now()), BucketIndex(t.crc, key, t.bidx.Length), key) != 0
    ensures err == 0 && BucketIndex(t.crc, key, t.bidx.Length) !in old(t.dark) ==>
              && Behavior(FreshWorld(t.heads.Length, t.keySize), t.log, acts, trace)
              && 0 in trace[|trace| - 1].lookups && trace[|trace| - 1].lookups[0].phase.Faulted?
  {
    hide Coherent, DarkOk, Deleted, Behavior, Supplies, PoolOk, Indexed, KeyOf, HistoryOk, ClearSeen, WorldOk, Disciplined,
      Replay, Grew, SyncsNeedFMan, Keep;
    ghost var v, log0, w0 := t.Now(), t.log, FreshWorld(t.heads.Length, t.keySize);
    TracedIs(t.heads.Length, t.keySize, t.log, t.hasFman, t.w);
    Sizes(v, t.crc);
    ghost var x, darkened, freed;
    err, x, darkened, freed := t.DelKey(key, hw, pool);
    acts, trace := [], [];
    if err == 0 && x.index !in v.dark {
      TracedIs(t.heads.Length, t.keySize, t.log, t.hasFman, t.w);
      SinceIs(t.base, t.since, t.log, t.hasFman, t.w);
      FreshIsWorldOk(t.heads.Length, t.keySize);
      acts, trace := UnsyncedDeleteFaults(w0, log0, t.log, v, t.Now(), t.crc, x, darkened);
    }
  }

  /** Whatever the table holds, its bucket count and its key size: insert a flow, delete it, and a lookup can fault. */
  method AddThenDelete(t: Table, rec: seq<byte>, hwAdd: Answers, hwDelete: Answers, poolAdd: Pool, poolDelete: Pool)
      returns (err: int, ghost acts: seq<Action>, ghost trace: seq<Sys>)
    requires t.Valid() && !t.hasFman && t.w.attached && RecordBytesOk(rec) && PoolOk(poolAdd) && PoolOk(poolDelete)
    modifies t, t.heads, t.bidx, t.cu, t.counters
    ensures t.Valid() && (err == 0 || err == ENOMEM)
    ensures err == 0 ==>
              && Behavior(FreshWorld(t.heads.Length, t.keySize), t.log, acts, trace)
              && 0 in trace[|trace| - 1].lookups && trace[|trace| - 1].lookups[0].phase.Faulted?
  {
    hide Coherent, DarkOk, Added, Deleted, Behavior, Supplies, PoolOk, Indexed, KeyIn, HistoryOk, ClearSeen, WorldOk,
      Disciplined, Replay, Grew, Since;
    ghost var v, log0 := t.Now(), t.log;
    TracedIs(t.heads.Length, t.keySize, t.log, t.hasFman, t.w);
    Sizes(v, t.crc);
    ghost var f, freed;
    err, f, freed := t.AddKey(rec, hwAdd, poolAdd);
    acts, trace := [], [];
    if err == 0 {
      TracedIs(t.heads.Length, t.keySize, t.log, t.hasFman, t.w);
      Sizes(t.Now(), t.crc);
      AddedSeen(v, t.Now(), t.crc, f, rec, freed);
      AddedIsIndexed(v, t.Now(), t.crc, f, rec, freed);
      PortsStay(FreshWorld(t.heads.Length, t.keySize), log0, t.log);
      KeyHasSize(rec, t.keySize);
      err, acts, trace := DeleteUnsynced(t, KeyIn(rec, t.keySize), hwDelete, poolDelete);
    }
  }

  lemma AddedIsIndexed(v: View, v': View, crc: seq<byte> -> nat, f: Flow, rec: seq<byte>, freed: bool)
    requires Coherent(v', crc) && f.index < |v.bidx| == |v.cu| && Added(v, v', f, rec, freed)
    ensures f.rec != 0 && f.index !in v'.dark
  {
    hide WorldOk, OwnersOk, ListsOk, HeadsOk;
    assert f in v'.bidx[f.index];
    assert FlowOk(v'.w, crc, |v'.bidx|, f.index, f);
  }
}
