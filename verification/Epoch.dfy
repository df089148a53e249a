/**
 * Hardware lookups interleaved with the table writer. The writer is a log of the bus-visible
 * things it did; lookups run between any two of them. Replaced blocks may be reused only after
 * a SYNC that was armed after the head store which unlinked them.
 */
module Epoch {
  import opened Bytes
  import opened Layout
  import opened Bucket
  import opened Options

  /** What the writer does to memory, bucket heads and FMFP_EXTC[INV0]. */
  datatype Event =
    | Alloc(a: Addr, size: nat)
    | Write(a: Addr, off: nat, data: seq<byte>)
    | HeadStore(b: nat, head: u64, pub: Pub)
    | Arm
    | Expire
    | Clear
    | Free(a: Addr)
    | Detach
    | Attach

  /**
   * The shared state. stamp[a] is the last head store after which a walker could reach block a
   * (absent: never reachable); mark is the number of head stores before the arm of the last SYNC
   * that completed. pubs says what each head currently exposes.
   */
  datatype World = World(
    keySize: nat, mem: Memory, heads: seq<u64>, pubs: seq<Pub>,
    stamp: map<Addr, nat>, stores: nat, armed: Option<nat>, mark: nat, attached: bool)

  /** Blocks some bucket head leads to. */
  function Reach(w: World): set<Addr> {
    set i, a | 0 <= i < |w.pubs| && a in Blocks(w.pubs[i]) :: a
  }

  /** No lookup can still hold a: never exposed, outlived by a SYNC, or the ports are detached. */
  predicate Quiet(w: World, a: Addr) {
    a !in w.stamp || w.mark > w.stamp[a] || !w.attached
  }

  ghost predicate Legal(w: World, e: Event, quiet: bool) {
    match e
    case Alloc(a, size) => a != 0 && a % 256 == 0 && a !in w.mem && size > 0
    case Write(a, off, data) => a in w.mem && off + |data| <= |w.mem[a]| && a !in w.stamp
    case HeadStore(b, head, pub) => b < |w.heads| && Published(w.mem, w.keySize, head, pub)
    case Arm => true
    case Expire => true
    case Clear => w.armed.Some?
    case Free(a) => a in w.mem && a !in Reach(w) && (quiet ==> Quiet(w, a))
    case Detach => true
    case Attach => true
  }

  function Zeros(n: nat): (s: seq<byte>)
    ensures |s| == n
    ensures forall i :: 0 <= i < n ==> s[i] == 0
  {
    seq(n, i => 0)
  }

  function StampAll(stamp: map<Addr, nat>, s: set<Addr>, at: nat): (r: map<Addr, nat>)
    ensures r.Keys == stamp.Keys + s
    ensures forall a :: a in r ==> r[a] == if a in s then at else stamp[a]
  {
    stamp + map a | a in s :: at
  }

  function Apply(w: World, e: Event): World {
    match e
    case Alloc(a, size) => w.(mem := w.mem[a := Zeros(size)])
    case Write(a, off, data) =>
      if a in w.mem && off + |data| <= |w.mem[a]| then w.(mem := w.mem[a := Splice(w.mem[a], off, data)]) else w
    case HeadStore(b, head, pub) =>
      if b < |w.heads| && |w.heads| == |w.pubs| then
        var w1 := w.(heads := w.heads[b := head], pubs := w.pubs[b := pub], stores := w.stores + 1);
        w1.(stamp := StampAll(w.stamp, Reach(w1), w1.stores))
      else w
    case Arm => w.(armed := Some(w.stores))
    case Expire => w
    case Clear => if w.armed.Some? then w.(mark := w.armed.value, armed := None) else w
    case Free(a) => w.(mem := w.mem - {a}, stamp := w.stamp - {a})
    case Detach => w.(attached := false)
    case Attach => w.(attached := true)
  }

  function Replay(w: World, log: seq<Event>): World {
    if log == [] then w else Apply(Replay(w, log[..|log| - 1]), log[|log| - 1])
  }

  /** Every event of the log is legal where it happens; with quiet, frees also respect SYNC. */
  ghost predicate Disciplined(w: World, log: seq<Event>, quiet: bool) {
    forall i :: 0 <= i < |log| ==> Legal(Replay(w, log[..i]), log[i], quiet)
  }

  /** The writer's own invariant. */
  ghost predicate WorldOk(w: World) {
    && |w.heads| == |w.pubs|
    && KeySizeOk(w.keySize)
    && (forall b :: 0 <= b < |w.pubs| ==> Published(w.mem, w.keySize, w.heads[b], w.pubs[b]))
    && (forall a :: a in Reach(w) ==> a in w.stamp && w.stamp[a] == w.stores)
    && (forall a :: a in w.stamp ==> a in w.mem && w.stamp[a] <= w.stores)
    && (forall a :: a in w.stamp && w.stamp[a] == w.stores ==> a in Reach(w))
    && w.mark <= w.stores
    && (w.armed.Some? ==> w.armed.value <= w.stores)
  }

  lemma ReachHas(w: World, b: nat, a: Addr)
    requires b < |w.pubs| && a in Blocks(w.pubs[b])
    ensures a in Reach(w)
  {
  }

  /** Publication survives a change of blocks the bucket does not use. */
  lemma PublishedElsewhere(w: World, mem': Memory)
    requires WorldOk(w)
    requires forall a :: a in Reach(w) && a in w.mem ==> a in mem' && mem'[a] == w.mem[a]
    ensures forall b :: 0 <= b < |w.pubs| ==> Published(mem', w.keySize, w.heads[b], w.pubs[b])
  {
    forall b | 0 <= b < |w.pubs| ensures Published(mem', w.keySize, w.heads[b], w.pubs[b]) {
      forall a | a in Blocks(w.pubs[b]) ensures a in Reach(w) {
        ReachHas(w, b, a);
      }
      ContentDependsOnBlocks(w.mem, mem', w.keySize, w.pubs[b]);
    }
  }

  lemma ReachIsLive(w: World)
    requires |w.heads| == |w.pubs|
    requires forall b :: 0 <= b < |w.pubs| ==> Published(w.mem, w.keySize, w.heads[b], w.pubs[b])
    ensures forall a :: a in Reach(w) ==> a in w.mem
  {
    forall a | a in Reach(w) ensures a in w.mem {
      var b :| 0 <= b < |w.pubs| && a in Blocks(w.pubs[b]);
      BlocksAreLive(w.mem, w.keySize, w.pubs[b]);
    }
  }

  /** Every legal event keeps the writer's invariant, SYNC or not. */
  lemma ApplyKeepsWorldOk(w: World, e: Event, quiet: bool)
    requires WorldOk(w) && Legal(w, e, quiet)
    ensures WorldOk(Apply(w, e))
  {
    var w' := Apply(w, e);
    match e
    case Alloc(a, size) =>
      ReachIsLive(w);
      PublishedElsewhere(w, w'.mem);
      assert Reach(w') == Reach(w);
    case Write(a, off, data) =>
      PublishedElsewhere(w, w'.mem);
      assert Reach(w') == Reach(w);
    case HeadStore(b, head, pub) =>
      ReachIsLive(w');
    case Free(a) =>
      PublishedElsewhere(w, w'.mem);
      assert Reach(w') == Reach(w);
    case Arm => assert Reach(w') == Reach(w);
    case Expire =>
    case Clear => assert Reach(w') == Reach(w);
    case Detach => assert Reach(w') == Reach(w);
    case Attach => assert Reach(w') == Reach(w);
  }

  lemma ReplayNothing(w: World, quiet: bool)
    ensures Disciplined(w, [], quiet) && Replay(w, []) == w
  {
  }

  /** All but the last event of a disciplined log are one, and the last is legal after them. */
  lemma Front(w: World, log: seq<Event>, quiet: bool)
    requires Disciplined(w, log, quiet) && log != []
    ensures var front, e := log[..|log| - 1], log[|log| - 1];
            && Disciplined(w, front, quiet) && Legal(Replay(w, front), e, quiet)
            && Replay(w, log) == Apply(Replay(w, front), e)
  {
    var front := log[..|log| - 1];
    hide Legal, Apply;
    assert Legal(Replay(w, log[..|log| - 1]), log[|log| - 1], quiet);
    forall i | 0 <= i < |front| ensures Legal(Replay(w, front[..i]), front[i], quiet) {
      assert front[..i] == log[..i];
      assert Legal(Replay(w, log[..i]), log[i], quiet);
    }
  }

  lemma {:induction false} ReplayKeepsWorldOk(w: World, log: seq<Event>, quiet: bool)
    requires WorldOk(w) && Disciplined(w, log, quiet)
    ensures WorldOk(Replay(w, log))
  {
    hide *;
    if log == [] {
      ReplayNothing(w, quiet);
    } else {
      var front, e := log[..|log| - 1], log[|log| - 1];
      Front(w, log, quiet);
      ReplayKeepsWorldOk(w, front, quiet);
      ApplyKeepsWorldOk(Replay(w, front), e, quiet);
    }
  }

  /** One more legal event extends a disciplined log. */
  lemma Extend(w: World, log: seq<Event>, e: Event, quiet: bool)
    requires Disciplined(w, log, quiet) && Legal(Replay(w, log), e, quiet)
    ensures Disciplined(w, log + [e], quiet)
    ensures Replay(w, log + [e]) == Apply(Replay(w, log), e)
  {
    var l := log + [e];
    assert l[..|log|] == log;
    forall i | 0 <= i < |l| ensures Legal(Replay(w, l[..i]), l[i], quiet) {
      assert l[..i] == log[..i];
      if i < |log| { assert Legal(Replay(w, log[..i]), log[i], quiet); } else { assert log[..i] == log; }
    }
  }

  // ------------------------------------------------------------------ lookups

  datatype Phase = Reading(ptr: Addr, hit: Addr) | Executing(rec: Addr) | Ended(result: Addr) | Faulted

  /** A hardware lookup; pub, start and epoch record what it found at its head read. */
  datatype Lookup = Lookup(bucket: nat, key: seq<byte>, pub: Pub, start: nat, epoch: nat, phase: Phase)

  predicate Active(l: Lookup) {
    l.phase.Reading? || l.phase.Executing?
  }

  /** The system: the writer has done log[..pc], lookups are wherever they are. */
  datatype Sys = Sys(w: World, pc: nat, arms: nat, lookups: map<nat, Lookup>)

  datatype Action = Writer | Begin(id: nat, bucket: nat, key: seq<byte>) | Advance(id: nat)

  /** SYNC completes only when every lookup begun before its arm has ended; detach waits for all. */
  predicate Enabled(log: seq<Event>, s: Sys, act: Action) {
    match act
    case Writer =>
      && s.pc < |log|
      && (log[s.pc].Clear? ==> forall id :: id in s.lookups && Active(s.lookups[id]) ==> s.lookups[id].epoch >= s.arms)
      && (log[s.pc].Detach? ==> forall id :: id in s.lookups ==> !Active(s.lookups[id]))
    case Begin(id, bucket, key) =>
      id !in s.lookups && s.w.attached && bucket < |s.w.heads| && bucket < |s.w.pubs| && |key| == s.w.keySize
    case Advance(id) => id in s.lookups && Active(s.lookups[id])
  }

  function StartPhase(head: u64): Phase {
    if head == 0 then Ended(0) else Reading(Swab64(head), 0)
  }

  /** One fetch, or the read of the record that was hit. */
  function Step(mem: Memory, keySize: nat, l: Lookup): Phase {
    match l.phase
    case Reading(ptr, hit) =>
      (match FetchBlock(mem, keySize, ptr, l.key, hit)
       case Fault => Faulted
       case End(r) => if r == 0 then Ended(0) else Executing(r)
       case Follow(next, h) => Reading(next, h))
    case Executing(rec) => if RecOk(mem, keySize, rec, l.key) then Ended(rec) else Faulted
    case Ended(r) => Ended(r)
    case Faulted => Faulted
  }

  function Do(log: seq<Event>, s: Sys, act: Action): Sys
    requires Enabled(log, s, act)
  {
    match act
    case Writer =>
      var e := log[s.pc];
      s.(w := Apply(s.w, e), pc := s.pc + 1, arms := if e.Arm? then s.arms + 1 else s.arms)
    case Begin(id, bucket, key) =>
      s.(lookups := s.lookups[id :=
        Lookup(bucket, key, s.w.pubs[bucket], s.w.stores, s.arms, StartPhase(s.w.heads[bucket]))])
    case Advance(id) =>
      var l := s.lookups[id];
      s.(lookups := s.lookups[id := l.(phase := Step(s.w.mem, s.w.keySize, l))])
  }

  /** A run of the system from world w: any schedule of writer events and lookup steps. */
  ghost predicate Behavior(w: World, log: seq<Event>, acts: seq<Action>, trace: seq<Sys>) {
    && |trace| == |acts| + 1
    && trace[0] == Sys(w, 0, 0, map[])
    && forall i :: 0 <= i < |acts| ==> Enabled(log, trace[i], acts[i]) && trace[i + 1] == Do(log, trace[i], acts[i])
  }

  /** The lookup stands on intact blocks that no SYNC since its head read has released. */
  ghost predicate LookupOk(w: World, arms: nat, l: Lookup) {
    && |l.pub.recs| == |l.pub.keys|
    && |l.key| == w.keySize
    && l.start <= w.stores
    && l.epoch <= arms
    && (Active(l) ==>
          && Content(w.mem, w.keySize, l.pub)
          && (forall a :: a in Blocks(l.pub) ==> a in w.stamp && w.stamp[a] >= l.start)
          && l.start >= w.mark
          && (w.armed.Some? && l.epoch == arms ==> l.start >= w.armed.value)
          && w.attached)
    && match l.phase
       case Reading(ptr, hit) => exists i: nat :: WalkAt(l.pub, w.keySize, i, ptr, hit, l.key)
       case Executing(rec) => rec == Answer(l.pub, l.key) && rec != 0
       case Ended(r) => r == Answer(l.pub, l.key)
       case Faulted => false
  }

  ghost predicate SysOk(w0: World, log: seq<Event>, s: Sys) {
    && s.pc <= |log|
    && s.w == Replay(w0, log[..s.pc])
    && WorldOk(s.w)
    && forall id :: id in s.lookups ==> LookupOk(s.w, s.arms, s.lookups[id])
  }

  /** A fetch or record read keeps the lookup on its way to the answer of its snapshot. */
  lemma AdvanceKeepsLookup(w: World, arms: nat, l: Lookup)
    requires LookupOk(w, arms, l) && Active(l)
    ensures LookupOk(w, arms, l.(phase := Step(w.mem, w.keySize, l)))
  {
    match l.phase
    case Reading(ptr, hit) =>
      var i: nat :| WalkAt(l.pub, w.keySize, i, ptr, hit, l.key);
      WalkStep(w.mem, l.pub, w.keySize, i, ptr, hit, l.key);
    case Executing(rec) =>
      AnswerIsLive(w.mem, w.keySize, l.pub, l.key);
  }

  /** The record a lookup hits is a live record of the snapshot carrying the looked-up key. */
  lemma AnswerIsLive(mem: Memory, keySize: nat, p: Pub, key: seq<byte>)
    requires Content(mem, keySize, p)
    ensures Answer(p, key) != 0 ==> RecOk(mem, keySize, Answer(p, key), key)
  {
    if Answer(p, key) != 0 {
      FirstMatchIndex(p.recs, p.keys, key);
      var j :| 0 <= j < |p.recs| && p.recs[j] == Answer(p, key) && p.keys[j] == key;
    }
  }

  lemma {:induction false} FirstMatchIndex(recs: seq<Addr>, keys: seq<seq<byte>>, key: seq<byte>)
    requires |recs| == |keys| && FirstMatch(recs, keys, key) != 0
    ensures exists j :: 0 <= j < |recs| && recs[j] == FirstMatch(recs, keys, key) && keys[j] == key
  {
    if keys[0] != key {
      FirstMatchIndex(recs[1..], keys[1..], key);
      var j :| 0 <= j < |recs[1..]| && recs[1..][j] == FirstMatch(recs[1..], keys[1..], key) && keys[1..][j] == key;
      assert recs[j + 1] == recs[1..][j] && keys[j + 1] == key;
    }
  }

  /** A new lookup starts on the content its bucket has right now. */
  lemma BeginIsOk(w: World, arms: nat, bucket: nat, key: seq<byte>)
    requires WorldOk(w) && w.attached && bucket < |w.heads| && |key| == w.keySize
    ensures LookupOk(w, arms, Lookup(bucket, key, w.pubs[bucket], w.stores, arms, StartPhase(w.heads[bucket])))
  {
    var p := w.pubs[bucket];
    EntryIsNull(w.mem, w.keySize, p, key);
    forall a | a in Blocks(p) ensures a in w.stamp && w.stamp[a] >= w.stores {
      ReachHas(w, bucket, a);
    }
  }

  /** No writer event disturbs a lookup in flight. */
  lemma WriterKeepsLookup(w: World, arms: nat, e: Event, l: Lookup)
    requires WorldOk(w) && Legal(w, e, true) && LookupOk(w, arms, l)
    requires e.Clear? && Active(l) ==> l.epoch >= arms
    requires e.Detach? ==> !Active(l)
    ensures LookupOk(Apply(w, e), if e.Arm? then arms + 1 else arms, l)
  {
    var w' := Apply(w, e);
    if Active(l) {
      forall a | a in Blocks(l.pub) && a in w.mem ensures a in w'.mem && w'.mem[a] == w.mem[a] {
      }
      ContentDependsOnBlocks(w.mem, w'.mem, w.keySize, l.pub);
    }
    assert w'.keySize == w.keySize;
    if l.phase.Reading? {
      var i: nat :| WalkAt(l.pub, w.keySize, i, l.phase.ptr, l.phase.hit, l.key);
      assert WalkAt(l.pub, w'.keySize, i, l.phase.ptr, l.phase.hit, l.key);
    }
  }

  lemma StepKeepsSysOk(w0: World, log: seq<Event>, s: Sys, act: Action)
    requires Disciplined(w0, log, true) && SysOk(w0, log, s) && Enabled(log, s, act)
    ensures SysOk(w0, log, Do(log, s, act))
  {
    var s' := Do(log, s, act);
    match act
    case Writer =>
      var e := log[s.pc];
      assert log[..s.pc + 1][..s.pc] == log[..s.pc];
      assert Legal(Replay(w0, log[..s.pc]), log[s.pc], true);
      ApplyKeepsWorldOk(s.w, e, true);
      forall id | id in s'.lookups ensures LookupOk(s'.w, s'.arms, s'.lookups[id]) {
        WriterKeepsLookup(s.w, s.arms, e, s.lookups[id]);
      }
    case Begin(id, bucket, key) =>
      BeginIsOk(s.w, s.arms, bucket, key);
    case Advance(id) =>
      AdvanceKeepsLookup(s.w, s.arms, s.lookups[id]);
  }

  lemma {:induction false} BehaviorIsOk(w0: World, log: seq<Event>, acts: seq<Action>, trace: seq<Sys>, i: nat)
    requires WorldOk(w0) && Disciplined(w0, log, true) && Behavior(w0, log, acts, trace) && i < |trace|
    ensures SysOk(w0, log, trace[i])
  {
    if i == 0 {
      assert log[..0] == [];
    } else {
      BehaviorIsOk(w0, log, acts, trace, i - 1);
      StepKeepsSysOk(w0, log, trace[i - 1], acts[i - 1]);
    }
  }

  /** Reclamation safety: in no interleaving does a lookup read a freed or unfinished block. */
  lemma NoLookupFaults(w0: World, log: seq<Event>, acts: seq<Action>, trace: seq<Sys>)
    requires WorldOk(w0) && Disciplined(w0, log, true) && Behavior(w0, log, acts, trace)
    ensures forall i, id :: 0 <= i < |trace| && id in trace[i].lookups ==> !trace[i].lookups[id].phase.Faulted?
  {
    forall i, id | 0 <= i < |trace| && id in trace[i].lookups ensures !trace[i].lookups[id].phase.Faulted? {
      BehaviorIsOk(w0, log, acts, trace, i);
    }
  }

  lemma {:induction false} SnapshotIsKept(w0: World, log: seq<Event>, acts: seq<Action>, trace: seq<Sys>, i: nat,
                                          j: nat, id: nat)
    requires Behavior(w0, log, acts, trace)
    requires i <= j < |trace| && id in trace[i].lookups
    ensures id in trace[j].lookups
    ensures trace[j].lookups[id].pub == trace[i].lookups[id].pub && trace[j].lookups[id].key == trace[i].lookups[id].key
    decreases j - i
  {
    if i < j {
      assert trace[i + 1] == Do(log, trace[i], acts[i]);
      SnapshotIsKept(w0, log, acts, trace, i + 1, j, id);
    }
  }

  /**
   * Linearizable lookup: whatever the writer does before it ends, a lookup returns what its
   * bucket mapped the key to at the instant it read the head.
   */
  lemma LookupIsLinearizable(w0: World, log: seq<Event>, acts: seq<Action>, trace: seq<Sys>, i: nat, j: nat)
    requires WorldOk(w0) && Disciplined(w0, log, true) && Behavior(w0, log, acts, trace)
    requires i < j < |trace| && acts[i].Begin?
    requires acts[i].id in trace[j].lookups && trace[j].lookups[acts[i].id].phase.Ended?
    ensures acts[i].bucket < |trace[i].w.pubs|
    ensures var p := trace[i].w.pubs[acts[i].bucket];
            |p.recs| == |p.keys| && trace[j].lookups[acts[i].id].phase.result == Answer(p, acts[i].key)
  {
    assert Enabled(log, trace[i], acts[i]) && trace[i + 1] == Do(log, trace[i], acts[i]);
    SnapshotIsKept(w0, log, acts, trace, i + 1, j, acts[i].id);
    BehaviorIsOk(w0, log, acts, trace, j);
  }
}
