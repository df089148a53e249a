/** The epoch bookkeeping of a disciplined log, put in terms of the log's own history. */
module Reclaim {
  import opened Bucket
  import opened Epoch
  import opened Options

  /** The world before event m. */
  function At(w0: World, log: seq<Event>, m: nat): World
    requires m <= |log|
  {
    Replay(w0, log[..m])
  }

  lemma NextWorld(w0: World, log: seq<Event>, m: nat)
    requires m < |log|
    ensures At(w0, log, m + 1) == Apply(At(w0, log, m), log[m])
  {
    assert log[..m + 1][..m] == log[..m];
  }

  lemma LegalAt(w0: World, log: seq<Event>, m: nat, quiet: bool)
    requires Disciplined(w0, log, quiet) && m < |log|
    ensures Legal(At(w0, log, m), log[m], quiet)
  {
  }

  /** What one event does to the head stores so far, to reachability and to a's stamp. */
  ghost predicate Stamping(w: World, e: Event, w': World, a: Addr) {
    && (e.HeadStore? ==> w'.stores == w.stores + 1 && (a in w'.stamp <==> a in w.stamp || a in Reach(w')))
    && (e.HeadStore? && a in w'.stamp ==>
          if a in Reach(w') then w'.stamp[a] == w'.stores else a in w.stamp && w'.stamp[a] == w.stamp[a])
    && (!e.HeadStore? ==> w'.stores == w.stores && Reach(w') == Reach(w))
    && (e == Free(a) ==> a !in w'.stamp && a !in Reach(w))
    && (!e.HeadStore? && e != Free(a) ==> (a in w'.stamp <==> a in w.stamp) && (a in w.stamp ==> w'.stamp[a] == w.stamp[a]))
  }

  ghost predicate Syncing(w: World, e: Event, w': World) {
    && (e.Clear? ==> w.armed.Some? && w'.mark == w.armed.value && w'.armed.None?)
    && (!e.Clear? ==> w'.mark == w.mark)
    && (e.Arm? ==> w'.armed == Some(w.stores))
    && (!e.Arm? && !e.Clear? ==> w'.armed == w.armed)
  }

  lemma EventEffect(w: World, e: Event, quiet: bool, a: Addr)
    requires |w.heads| == |w.pubs| && Legal(w, e, quiet)
    ensures var w' := Apply(w, e);
            |w'.heads| == |w'.pubs| && w.stores <= w'.stores && Stamping(w, e, w', a) && Syncing(w, e, w')
  {
  }

  lemma EventGrows(w: World, e: Event, quiet: bool)
    requires |w.heads| == |w.pubs| && Legal(w, e, quiet)
    ensures |Apply(w, e).heads| == |Apply(w, e).pubs| && w.stores <= Apply(w, e).stores
  {
    EventEffect(w, e, quiet, 0);
  }

  lemma {:induction false} Balanced(w0: World, log: seq<Event>, m: nat, quiet: bool)
    requires |w0.heads| == |w0.pubs| && Disciplined(w0, log, quiet) && m <= |log|
    ensures |At(w0, log, m).heads| == |At(w0, log, m).pubs|
  {
    hide *;
    if m == 0 {
      AtStart(w0, log);
    } else {
      Balanced(w0, log, m - 1, quiet);
      NextWorld(w0, log, m - 1);
      LegalAt(w0, log, m - 1, quiet);
      EventGrows(At(w0, log, m - 1), log[m - 1], quiet);
    }
  }

  lemma AtStart(w0: World, log: seq<Event>)
    ensures At(w0, log, 0) == w0
  {
  }

  lemma {:induction false} StoresGrow(w0: World, log: seq<Event>, m: nat, n: nat, quiet: bool)
    requires |w0.heads| == |w0.pubs| && Disciplined(w0, log, quiet) && m <= n <= |log|
    ensures At(w0, log, m).stores <= At(w0, log, n).stores
    decreases n - m
  {
    hide *;
    if m < n {
      StoresGrow(w0, log, m, n - 1, quiet);
      Balanced(w0, log, n - 1, quiet);
      NextWorld(w0, log, n - 1);
      LegalAt(w0, log, n - 1, quiet);
      EventGrows(At(w0, log, n - 1), log[n - 1], quiet);
    }
  }

  /** a was freed between k and m. */
  ghost predicate FreedSince(log: seq<Event>, a: Addr, k: nat, m: nat)
    requires m <= |log|
  {
    exists f :: k <= f < m && log[f] == Free(a)
  }

  /** a's stamp is the last head store under which it was reachable; without one it was not reachable since its last free. */
  ghost predicate StampIsLast(w0: World, log: seq<Event>, m: nat, a: Addr)
    requires m <= |log|
  {
    forall k :: 0 <= k <= m && a in Reach(At(w0, log, k)) ==>
      if a in At(w0, log, m).stamp then At(w0, log, k).stores <= At(w0, log, m).stamp[a] || FreedSince(log, a, k, m)
      else FreedSince(log, a, k, m)
  }

  lemma {:induction false} StampsAreLast(w0: World, log: seq<Event>, m: nat, a: Addr, quiet: bool)
    requires |w0.heads| == |w0.pubs| && Reach(w0) == {} && Disciplined(w0, log, quiet) && m <= |log|
    ensures StampIsLast(w0, log, m, a)
  {
    hide *;
    if m == 0 {
      AtStart(w0, log);
      NothingAtStart(w0, log, a);
    } else {
      var n := m - 1;
      StampsAreLast(w0, log, n, a, quiet);
      Balanced(w0, log, n, quiet);
      NextWorld(w0, log, n);
      LegalAt(w0, log, n, quiet);
      EventEffect(At(w0, log, n), log[n], quiet, a);
      forall k | 0 <= k <= n ensures At(w0, log, k).stores <= At(w0, log, n).stores {
        StoresGrow(w0, log, k, n, quiet);
      }
      NextIsLast(w0, log, n, a);
    }
  }

  lemma NothingAtStart(w0: World, log: seq<Event>, a: Addr)
    requires Reach(w0) == {} && At(w0, log, 0) == w0
    ensures StampIsLast(w0, log, 0, a)
  {
  }

  lemma NextIsLast(w0: World, log: seq<Event>, n: nat, a: Addr)
    requires n < |log| && StampIsLast(w0, log, n, a)
    requires forall k :: 0 <= k <= n ==> At(w0, log, k).stores <= At(w0, log, n).stores
    requires Stamping(At(w0, log, n), log[n], At(w0, log, n + 1), a)
    ensures StampIsLast(w0, log, n + 1, a)
  {
    hide At, Reach;
    var m := n + 1;
    forall k | 0 <= k <= m && a in Reach(At(w0, log, k))
      ensures if a in At(w0, log, m).stamp then At(w0, log, k).stores <= At(w0, log, m).stamp[a] || FreedSince(log, a, k, m)
              else FreedSince(log, a, k, m)
    {
      if k <= n && log[n] == Free(a) {
        assert FreedSince(log, a, k, m);
      }
      if k == m && !log[n].HeadStore? {
        assert a in Reach(At(w0, log, n));
      }
      if k <= n && FreedSince(log, a, k, n) {
        assert FreedSince(log, a, k, m);
      }
    }
  }

  /** A SYNC armed at j completed before m, with at head stores before the arm. */
  ghost predicate Synced(w0: World, log: seq<Event>, m: nat, at: nat)
    requires m <= |log|
  {
    exists j, k :: 0 <= j < k < m && log[j].Arm? && log[k].Clear? && At(w0, log, j).stores == at
  }

  ghost predicate ArmedAt(w0: World, log: seq<Event>, m: nat, at: nat)
    requires m <= |log|
  {
    exists j :: 0 <= j < m && log[j].Arm? && At(w0, log, j).stores == at
  }

  lemma {:induction false} MarksAreSyncs(w0: World, log: seq<Event>, m: nat, quiet: bool)
    requires |w0.heads| == |w0.pubs| && w0.mark == 0 && w0.armed.None? && Disciplined(w0, log, quiet) && m <= |log|
    ensures At(w0, log, m).mark == 0 || Synced(w0, log, m, At(w0, log, m).mark)
    ensures At(w0, log, m).armed.Some? ==> ArmedAt(w0, log, m, At(w0, log, m).armed.value)
  {
    hide At, Replay, Disciplined, Legal, Apply;
    if m == 0 {
      AtStart(w0, log);
    } else {
      var n := m - 1;
      MarksAreSyncs(w0, log, n, quiet);
      Balanced(w0, log, n, quiet);
      NextWorld(w0, log, n);
      LegalAt(w0, log, n, quiet);
      EventEffect(At(w0, log, n), log[n], quiet, 0);
    }
  }

  /**
   * Reclamation, in the log's own terms: when a block is freed while ports are attached, either no
   * head has led to it since it was last freed or ever, or some SYNC was armed and completed before
   * the free and no head led to the block at any time from that arm on.
   */
  lemma FreesFollowSync(w0: World, log: seq<Event>, i: nat, a: Addr)
    requires WorldOk(w0) && Reach(w0) == {} && w0.mark == 0 && w0.armed.None? && Disciplined(w0, log, true)
    requires i < |log| && log[i] == Free(a) && At(w0, log, i).attached
    ensures || (forall k :: 0 <= k <= i && a in Reach(At(w0, log, k)) ==> FreedSince(log, a, k, i))
            || (exists j, k :: 0 <= j < k < i && log[j].Arm? && log[k].Clear?
                  && forall m :: j <= m <= i && a in Reach(At(w0, log, m)) ==> FreedSince(log, a, m, i))
  {
    hide At, Replay, Apply, Reach, FreedSince;
    StampsAreLast(w0, log, i, a, true);
    MarksAreSyncs(w0, log, i, true);
    LegalAt(w0, log, i, true);
    var w := At(w0, log, i);
    if a in w.stamp {
      assert w.mark > w.stamp[a];
      var j, k :| 0 <= j < k < i && log[j].Arm? && log[k].Clear? && At(w0, log, j).stores == w.mark;
      forall m | j <= m <= i && a in Reach(At(w0, log, m)) ensures FreedSince(log, a, m, i) {
        StoresGrow(w0, log, j, m, true);
      }
    }
  }
}
