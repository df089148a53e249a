/**
 * A table's calls and its log: which events one call may add, and the table as each call left it.
 */
module EhashHistory {
  import opened Bytes
  import opened Bucket
  import opened Epoch
  import opened EhashView

  /** The table as a step left it, and how many events had happened by then. */
  datatype Moment = Moment(at: nat, view: View)

  predicate IsSync(e: Event) {
    e.Arm? || e.Expire? || e.Clear?
  }

  /** Allocations, writes, frees and, with an FMan, SYNCs. */
  predicate Plain(evs: seq<Event>, hasFman: bool) {
    forall i :: 0 <= i < |evs| ==>
      !evs[i].HeadStore? && !evs[i].Attach? && !evs[i].Detach? && (IsSync(evs[i]) ==> hasFman)
  }

  /** The log grew by the events of calls that leave the ports alone. */
  predicate Grew(log: seq<Event>, log': seq<Event>) {
    && log <= log'
    && forall i :: |log| <= i < |log'| ==> !log'[i].Attach? && !log'[i].Detach?
  }

  lemma GrewMore(l0: seq<Event>, l1: seq<Event>, l2: seq<Event>)
    requires Grew(l0, l1) && Grew(l1, l2)
    ensures Grew(l0, l2)
  {
  }

  lemma GrewNothing(log: seq<Event>)
    ensures Grew(log, log)
  {
  }

  /** Without an FMan no SYNC is ever armed. */
  predicate SyncsNeedFMan(log: seq<Event>, hasFman: bool) {
    forall i :: 0 <= i < |log| && IsSync(log[i]) ==> hasFman
  }

  /** A call that began at log base with since head stores: any head it stored is as it stored it. */
  ghost predicate Since(base: seq<Event>, since: nat, log: seq<Event>, hasFman: bool, w: World) {
    && Grew(base, log) && SyncsNeedFMan(log, hasFman)
    && since <= w.stores
    && forall i :: |base| <= i < |log| && log[i].HeadStore? ==>
         since < w.stores && log[i].b < |w.pubs| && log[i].pub == w.pubs[log[i].b]
  }

  lemma SincePlain(base: seq<Event>, since: nat, log: seq<Event>, hasFman: bool, w: World, evs: seq<Event>, w': World)
    requires Since(base, since, log, hasFman, w) && Plain(evs, hasFman) && w'.pubs == w.pubs && w'.stores == w.stores
    ensures Since(base, since, log + evs, hasFman, w')
  {
    assert forall i :: |log| <= i < |log + evs| ==> (log + evs)[i] == evs[i - |log|];
  }

  /** The one head store of a call. */
  lemma SinceStore(base: seq<Event>, log: seq<Event>, hasFman: bool, w: World, b: nat, head: u64, pub: Pub)
    requires Since(base, w.stores, log, hasFman, w) && b < |w.heads| == |w.pubs|
    ensures Since(base, w.stores, log + [HeadStore(b, head, pub)], hasFman, Apply(w, HeadStore(b, head, pub)))
  {
  }

  lemma SinceNow(log: seq<Event>, hasFman: bool, w: World)
    requires SyncsNeedFMan(log, hasFman)
    ensures Since(log, w.stores, log, hasFman, w)
  {
  }

  lemma SinceIs(base: seq<Event>, since: nat, log: seq<Event>, hasFman: bool, w: World)
    requires Since(base, since, log, hasFman, w)
    ensures Grew(base, log) && SyncsNeedFMan(log, hasFman) && since <= w.stores
  {
  }

  // ------------------------------------------------------------------ history

  ghost predicate MomentOk(w0: World, crc: seq<byte> -> nat, log: seq<Event>, m: Moment) {
    m.at <= |log| && m.view.w == Replay(w0, log[..m.at]) && Coherent(m.view, crc)
  }

  /** The head stores between from and the moment m are as m shows them. */
  ghost predicate Shows(log: seq<Event>, from: nat, m: Moment) {
    && from <= m.at <= |log|
    && forall i :: from <= i < m.at && log[i].HeadStore? ==>
         log[i].b < |m.view.w.pubs| && log[i].pub == m.view.w.pubs[log[i].b]
  }

  /** The table from its creation to the end of the log, one moment a step. */
  ghost predicate HistoryOk(w0: World, crc: seq<byte> -> nat, log: seq<Event>, history: seq<Moment>) {
    && |history| > 0 && history[0].at == 0 && history[|history| - 1].at == |log|
    && (forall k :: 0 <= k < |history| ==> MomentOk(w0, crc, log, history[k]))
    && (forall k :: 0 < k < |history| ==> Shows(log, history[k - 1].at, history[k]))
  }

  lemma HistoryStarts(w0: World, crc: seq<byte> -> nat, v: View)
    requires v.w == w0 && Coherent(v, crc)
    ensures HistoryOk(w0, crc, [], [Moment(0, v)])
  {
  }

  /** What a call leaves behind is one more moment. */
  lemma HistoryGrows(w0: World, crc: seq<byte> -> nat, base: seq<Event>, history: seq<Moment>, log: seq<Event>, v: View)
    requires HistoryOk(w0, crc, base, history) && base <= log
    requires v.w == Replay(w0, log) && Coherent(v, crc) && Shows(log, |base|, Moment(|log|, v))
    ensures HistoryOk(w0, crc, log, history + [Moment(|log|, v)])
  {
    hide Coherent, Replay;
    var all := history + [Moment(|log|, v)];
    forall k | 0 <= k < |all| ensures MomentOk(w0, crc, log, all[k]) {
      if k < |history| {
        assert MomentOk(w0, crc, base, history[k]);
        assert log[..history[k].at] == base[..history[k].at];
      } else {
        assert log[..|log|] == log;
      }
    }
    forall k | 0 < k < |all| ensures Shows(log, all[k - 1].at, all[k]) {
      if k < |history| { assert Shows(base, history[k - 1].at, history[k]); }
    }
  }

  lemma SinceShows(base: seq<Event>, since: nat, log: seq<Event>, hasFman: bool, v: View)
    requires Since(base, since, log, hasFman, v.w)
    ensures base <= log && Shows(log, |base|, Moment(|log|, v))
  {
  }

  /** Attaching or detaching the ports stores no head. */
  lemma PortsMove(log: seq<Event>, hasFman: bool, on: bool)
    requires SyncsNeedFMan(log, hasFman)
    ensures SyncsNeedFMan(log + [if on then Attach else Detach], hasFman)
  {
  }

  lemma NoStoreShows(log: seq<Event>, on: bool, v: View)
    ensures var l := log + [if on then Attach else Detach]; Shows(l, |log|, Moment(|l|, v))
  {
  }
}
