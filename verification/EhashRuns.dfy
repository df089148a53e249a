/** Whole runs of a table against the hardware. */
module EhashRuns {
  import opened Bytes
  import opened Bucket
  import opened Options
  import opened Epoch
  import opened EhashView
  import opened EhashHistory
  import opened EhashTable
  import opened Reclaim

  /**
   * Whatever calls a table with an FMan has served, ENOMEM and wedged SYNCs included, no lookup in
   * any interleaving with them read a freed or half-built block, and each one that ended returned
   * what its bucket mapped its key to when it read the head.
   */
  lemma EveryRunIsSafe(t: Table, acts: seq<Action>, trace: seq<Sys>)
    requires t.Valid() && t.hasFman
    requires Behavior(FreshWorld(t.heads.Length, t.keySize), t.log, acts, trace)
    ensures forall i, id :: 0 <= i < |trace| && id in trace[i].lookups ==> !trace[i].lookups[id].phase.Faulted?
    ensures forall i, j :: 0 <= i < j < |trace| && acts[i].Begin? && acts[i].id in trace[j].lookups
                           && trace[j].lookups[acts[i].id].phase.Ended? ==>
              && acts[i].bucket < |trace[i].w.pubs|
              && var p := trace[i].w.pubs[acts[i].bucket];
                 |p.recs| == |p.keys| && trace[j].lookups[acts[i].id].phase.result == Answer(p, acts[i].key)
  {
    var w0 := FreshWorld(t.heads.Length, t.keySize);
    TracedIs(t.heads.Length, t.keySize, t.log, t.hasFman, t.w);
    TracedStart(t.heads.Length, t.keySize, true);
    NoLookupFaults(w0, t.log, acts, trace);
    forall i, j | 0 <= i < j < |trace| && acts[i].Begin? && acts[i].id in trace[j].lookups
                  && trace[j].lookups[acts[i].id].phase.Ended?
      ensures acts[i].bucket < |trace[i].w.pubs|
      ensures var p := trace[i].w.pubs[acts[i].bucket];
              |p.recs| == |p.keys| && trace[j].lookups[acts[i].id].phase.result == Answer(p, acts[i].key)
    {
      LookupIsLinearizable(w0, t.log, acts, trace, i, j);
    }
  }

  /**
   * Every block a table with an FMan frees while its ports are attached was never exposed since it
   * was allocated, or a SYNC was armed after the head store that unlinked it and has completed.
   */
  lemma EveryFreeFollowsSync(t: Table, i: nat, a: Addr)
    requires t.Valid() && t.hasFman && i < |t.log| && t.log[i] == Free(a)
    requires At(FreshWorld(t.heads.Length, t.keySize), t.log, i).attached
    ensures var w0, log := FreshWorld(t.heads.Length, t.keySize), t.log;
            || (forall k :: 0 <= k <= i && a in Reach(At(w0, log, k)) ==> FreedSince(log, a, k, i))
            || (exists j, k :: 0 <= j < k < i && log[j].Arm? && log[k].Clear?
                  && forall m :: j <= m <= i && a in Reach(At(w0, log, m)) ==> FreedSince(log, a, m, i))
  {
    var w0 := FreshWorld(t.heads.Length, t.keySize);
    TracedIs(t.heads.Length, t.keySize, t.log, t.hasFman, t.w);
    TracedStart(t.heads.Length, t.keySize, true);
    TracedIs(t.heads.Length, t.keySize, [], true, w0);
    assert Reach(w0) == {};
    hide Replay, Reach;
    FreesFollowSync(w0, t.log, i, a);
  }

  // ------------------------------------------------------------------ lookups and calls

  /** The last of the first n events that stored bucket b's head. */
  function LastStore(log: seq<Event>, n: nat, b: nat): (s: Option<nat>)
    requires n <= |log|
    ensures s.None? ==> forall i :: 0 <= i < n && log[i].HeadStore? ==> log[i].b != b
    ensures s.Some? ==> s.value < n && log[s.value].HeadStore? && log[s.value].b == b
    ensures s.Some? ==> forall i :: s.value < i < n && log[i].HeadStore? ==> log[i].b != b
  {
    if n == 0 then None
    else if log[n - 1].HeadStore? && log[n - 1].b == b then Some(n - 1)
    else LastStore(log, n - 1, b)
  }

  /** Moment k is what the call that made store s left, or the new table if there was no such store. */
  ghost predicate MadeBy(history: seq<Moment>, k: nat, s: Option<nat>) {
    && k < |history|
    && match s
       case None => k == 0
       case Some(i) => k > 0 && history[k - 1].at <= i < history[k].at
  }

  lemma {:induction false} PubCount(w0: World, log: seq<Event>, n: nat)
    requires WorldOk(w0) && Disciplined(w0, log, true) && n <= |log|
    ensures |At(w0, log, n).pubs| == |w0.pubs|
  {
    hide At, Disciplined, WorldOk, Legal, Replay, Apply;
    if n == 0 {
      AtStart(w0, log);
    } else {
      PubCount(w0, log, n - 1);
      NextWorld(w0, log, n - 1);
      SameCount(At(w0, log, n - 1), log[n - 1]);
    }
  }

  lemma SameCount(w: World, e: Event)
    ensures |Apply(w, e).pubs| == |w.pubs|
  {
  }

  /** A head exposes what its last store said. */
  lemma {:induction false} LastStoreShows(w0: World, log: seq<Event>, n: nat, b: nat)
    requires WorldOk(w0) && Disciplined(w0, log, true) && n <= |log| && b < |w0.pubs|
    ensures b < |At(w0, log, n).pubs|
    ensures At(w0, log, n).pubs[b] == match LastStore(log, n, b) case None => w0.pubs[b] case Some(i) => log[i].pub
  {
    hide At, Disciplined, WorldOk, Legal, Replay, Apply;
    if n == 0 {
      AtStart(w0, log);
    } else {
      LastStoreShows(w0, log, n - 1, b);
      PubCount(w0, log, n - 1);
      NextWorld(w0, log, n - 1);
      LegalAt(w0, log, n - 1, true);
      HeadCount(w0);
      Balanced(w0, log, n - 1, true);
      StoreShows(At(w0, log, n - 1), log[n - 1], b);
      PubCount(w0, log, n);
    }
  }

  lemma StoreShows(w: World, e: Event, b: nat)
    requires |w.heads| == |w.pubs| && Legal(w, e, true) && b < |w.pubs|
    ensures |Apply(w, e).pubs| == |w.pubs|
    ensures Apply(w, e).pubs[b] == if e.HeadStore? && e.b == b then e.pub else w.pubs[b]
  {
  }

  /** The call an event belongs to. */
  lemma {:induction false} FindCall(history: seq<Moment>, n: nat, i: nat) returns (k: nat)
    requires 0 < n <= |history| && history[0].at == 0 && i < history[n - 1].at
    ensures 0 < k < n && history[k - 1].at <= i < history[k].at
  {
    if history[n - 2].at <= i {
      k := n - 1;
    } else {
      k := FindCall(history, n - 1, i);
    }
  }

  lemma HistoryIs(w0: World, crc: seq<byte> -> nat, log: seq<Event>, history: seq<Moment>, k: nat)
    requires HistoryOk(w0, crc, log, history) && k < |history|
    ensures history[0].at == 0 && history[|history| - 1].at == |log|
    ensures MomentOk(w0, crc, log, history[k]) && (k > 0 ==> Shows(log, history[k - 1].at, history[k]))
  {
  }

  lemma HistoryHasStart(w0: World, crc: seq<byte> -> nat, log: seq<Event>, history: seq<Moment>)
    requires HistoryOk(w0, crc, log, history)
    ensures |history| > 0
  {
  }

  lemma OneActionEach(w: World, log: seq<Event>, acts: seq<Action>, trace: seq<Sys>)
    requires Behavior(w, log, acts, trace)
    ensures |trace| == |acts| + 1
  {
  }

  /** What the table's heads led to at n is what the call of the last store before n left there. */
  lemma CallShows(w0: World, crc: seq<byte> -> nat, log: seq<Event>, history: seq<Moment>, n: nat, b: nat)
      returns (k: nat)
    requires WorldOk(w0) && Disciplined(w0, log, true) && HistoryOk(w0, crc, log, history) && n <= |log|
    requires b < |w0.pubs|
    ensures k < |history| && MadeBy(history, k, LastStore(log, n, b))
    ensures b < |At(w0, log, n).pubs| && b < |history[k].view.w.pubs|
    ensures Coherent(history[k].view, crc) && At(w0, log, n).pubs[b] == history[k].view.w.pubs[b]
  {
    hide At, Disciplined, WorldOk, Replay, HistoryOk, Coherent;
    LastStoreShows(w0, log, n, b);
    HistoryHasStart(w0, crc, log, history);
    HistoryIs(w0, crc, log, history, 0);
    match LastStore(log, n, b)
    case None =>
      k := 0;
      AtStart(w0, log);
      AtIs(w0, log, 0);
    case Some(i) =>
      k := FindCall(history, |history|, i);
      HistoryIs(w0, crc, log, history, k);
  }

  lemma AtIs(w0: World, log: seq<Event>, n: nat)
    requires n <= |log|
    ensures At(w0, log, n) == Replay(w0, log[..n])
  {
  }

  /** What a lookup of key finds in a table: the record del_key would remove, or nothing in a dark bucket. */
  function Finds(v: View, b: nat, key: seq<byte>): Addr
    requires b < |v.bidx|
  {
    if b in v.dark then 0 else Indexed(v, b, key)
  }

  lemma AnswersAsIndexed(v: View, crc: seq<byte> -> nat, b: nat, key: seq<byte>)
    requires Coherent(v, crc) && b < |v.w.pubs|
    ensures |v.w.pubs[b].recs| == |v.w.pubs[b].keys| && b < |v.bidx| && Answer(v.w.pubs[b], key) == Finds(v, b, key)
  {
  }

  /**
   * Lookups follow the calls: one that ended returned what the index held for its key in the table
   * left by the call that made the last store to its head before it read it, or nothing if that
   * call left the bucket dark or no call had stored it yet.
   */
  lemma LookupsFollowCalls(t: Table, acts: seq<Action>, trace: seq<Sys>, i: nat, j: nat) returns (k: nat)
    requires t.Valid() && t.hasFman
    requires Behavior(FreshWorld(t.heads.Length, t.keySize), t.log, acts, trace)
    requires i < j < |trace| && acts[i].Begin? && acts[i].id in trace[j].lookups
    requires trace[j].lookups[acts[i].id].phase.Ended?
    ensures trace[i].pc <= |t.log| && MadeBy(t.history, k, LastStore(t.log, trace[i].pc, acts[i].bucket))
    ensures var v := t.history[k].view;
            && acts[i].bucket < |v.bidx|
            && trace[j].lookups[acts[i].id].phase.result == Finds(v, acts[i].bucket, acts[i].key)
  {
    hide Disciplined, WorldOk, Replay, HistoryOk, Since, Traced, ViewOk, MadeBy, FreshWorld, At, Behavior, LastStore, Coherent;
    var w0 := FreshWorld(t.heads.Length, t.keySize);
    OneActionEach(w0, t.log, acts, trace);
    var b := acts[i].bucket;
    TracedIs(t.heads.Length, t.keySize, t.log, t.hasFman, t.w);
    FreshIsWorldOk(t.heads.Length, t.keySize);
    LookupIsLinearizable(w0, t.log, acts, trace, i, j);
    BehaviorIsOk(w0, t.log, acts, trace, i);
    AtIs(w0, t.log, trace[i].pc);
    PubCount(w0, t.log, trace[i].pc);
    k := CallShows(w0, t.crc, t.log, t.history, trace[i].pc, b);
    AnswersAsIndexed(t.history[k].view, t.crc, b, acts[i].key);
  }
}
