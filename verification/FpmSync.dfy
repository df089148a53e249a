/** FMFP_EXTC[INV0]: arm, poll, re-arm up to three times, and count what happened. */
module FpmSync {
  import opened Bytes

  const SYNC_TRIES: nat := 3
  const SYNC_POLLS: nat := 100000

  /** The hardware's side of one SYNC: does poll i of attempt a still read INV0 set? */
  type Answers = (nat, nat) -> bool

  /** Attempt a saw INV0 clear at one of its polls. */
  predicate SawClear(hw: Answers, a: nat) {
    exists i :: 0 <= i < SYNC_POLLS && !hw(a, i)
  }

  /** Attempts from a on that time out before the first one that sees INV0 clear. */
  function Failures(hw: Answers, a: nat): (n: nat)
    requires a <= SYNC_TRIES
    ensures a + n <= SYNC_TRIES
    ensures a + n < SYNC_TRIES ==> SawClear(hw, a + n)
    ensures forall b :: a <= b < a + n ==> !SawClear(hw, b)
    decreases SYNC_TRIES - a
  {
    if a == SYNC_TRIES || SawClear(hw, a) then 0 else 1 + Failures(hw, a + 1)
  }

  /** A SYNC outcome is the number of attempts that timed out: 0 clean, 1 or 2 recovered, 3 wedged. */
  function Timeouts(outs: seq<nat>): nat {
    if outs == [] then 0 else Timeouts(outs[..|outs| - 1]) + outs[|outs| - 1]
  }

  function Recovered(outs: seq<nat>): nat {
    if outs == [] then 0
    else Recovered(outs[..|outs| - 1]) + if 0 < outs[|outs| - 1] < SYNC_TRIES then 1 else 0
  }

  function Wedged(outs: seq<nat>): nat {
    if outs == [] then 0
    else Wedged(outs[..|outs| - 1]) + if outs[|outs| - 1] == SYNC_TRIES then 1 else 0
  }

  predicate OutcomesOk(outs: seq<nat>) {
    forall i :: 0 <= i < |outs| ==> outs[i] <= SYNC_TRIES
  }

  /** Over any run the three counters bound one another. */
  lemma {:induction false} CountersBoundEachOther(outs: seq<nat>)
    requires OutcomesOk(outs)
    ensures 3 * Wedged(outs) + Recovered(outs) <= Timeouts(outs) <= 3 * Wedged(outs) + 2 * Recovered(outs)
  {
    if outs != [] {
      CountersBoundEachOther(outs[..|outs| - 1]);
    }
  }

  /** Some poll of some attempt read INV0 clear. */
  predicate ClearSeen(hw: Answers) {
    exists a, i :: 0 <= a < SYNC_TRIES && 0 <= i < SYNC_POLLS && !hw(a, i)
  }

  /** An attempt succeeds somewhere exactly when fewer than three of them time out. */
  lemma FewerFailuresMeansClear(hw: Answers)
    ensures Failures(hw, 0) < SYNC_TRIES <==> ClearSeen(hw)
  {
    var n := Failures(hw, 0);
    if n < SYNC_TRIES {
      assert SawClear(hw, n);
    } else {
      forall a, i | 0 <= a < SYNC_TRIES && 0 <= i < SYNC_POLLS ensures hw(a, i) {
        assert !SawClear(hw, a);
      }
    }
  }

  /** Three attempts of 100000 polls each. */
  lemma SyncLimits(hw: Answers)
    ensures ClearSeen(hw) <==> exists a, i :: 0 <= a < 3 && 0 <= i < 100000 && !hw(a, i)
  {
  }

  /** u32 increment. */
  function Inc32(x: u32): u32 {
    (x + 1) % U32
  }

  /** A 32-bit register that holds the low bits of a total. */
  predicate Holds(r: u32, total: nat) {
    r == total % U32
  }

  lemma HeldExactly(r: u32, total: nat)
    requires Holds(r, total) && total < U32
    ensures r == total
  {
  }

  lemma IncHolds(r: u32, total: nat)
    requires Holds(r, total)
    ensures Holds(Inc32(r), total + 1)
  {
  }

  /** Polls one armed attempt; true if INV0 never read back clear. */
  method Poll(hw: Answers, attempt: nat) returns (busy: bool)
    ensures busy <==> !SawClear(hw, attempt)
  {
    busy := true;
    var i := 0;
    while i < SYNC_POLLS
      invariant 0 <= i <= SYNC_POLLS
      invariant busy && forall j :: 0 <= j < i ==> hw(attempt, j)
    {
      busy := hw(attempt, i);
      if !busy { return; }
      i := i + 1;
    }
  }

  lemma OneMore(outs: seq<nat>, n: nat)
    ensures Timeouts(outs + [n]) == Timeouts(outs) + n
    ensures Recovered(outs + [n]) == Recovered(outs) + if 0 < n < SYNC_TRIES then 1 else 0
    ensures Wedged(outs + [n]) == Wedged(outs) + if n == SYNC_TRIES then 1 else 0
  {
    assert (outs + [n])[..|outs|] == outs;
  }

  class SyncCounters {
    var timeouts: u32
    var recovered: u32
    var wedged: u32
    ghost var outcomes: seq<nat>

    /** The counters are the run's totals in 32-bit arithmetic. */
    ghost predicate Valid()
      reads this
    {
      && OutcomesOk(outcomes)
      && Holds(timeouts, Timeouts(outcomes))
      && Holds(recovered, Recovered(outcomes))
      && Holds(wedged, Wedged(outcomes))
    }

    constructor ()
      ensures Valid() && outcomes == []
    {
      timeouts, recovered, wedged := 0, 0, 0;
      outcomes := [];
    }

    /** Until the count of timeouts reaches 2^32 the three registers bound one another. */
    lemma RegistersBoundEachOther()
      requires Valid() && Timeouts(outcomes) < U32
      ensures 3 * wedged + recovered <= timeouts <= 3 * wedged + 2 * recovered
    {
      hide Timeouts, Recovered, Wedged, Holds;
      CountersBoundEachOther(outcomes);
      HeldExactly(timeouts, Timeouts(outcomes));
      HeldExactly(recovered, Recovered(outcomes));
      HeldExactly(wedged, Wedged(outcomes));
    }

    /**
     * fman_pcd_ehash_sync with an FMan present: true exactly when some attempt saw INV0 clear;
     * failed attempts came first and each one was counted.
     */
    method Sync(hw: Answers) returns (ok: bool, ghost failed: nat)
      requires Valid()
      modifies this
      ensures Valid()
      ensures ok <==> ClearSeen(hw)
      ensures ok <==> exists a, i :: 0 <= a < 3 && 0 <= i < 100000 && !hw(a, i)
      ensures failed == Failures(hw, 0)
      ensures ok <==> failed < SYNC_TRIES
      ensures outcomes == old(outcomes) + [failed]
    {
      hide Timeouts, Recovered, Wedged, Holds, Inc32, ClearSeen, SawClear;
      ghost var outs := outcomes;
      ok, failed := false, Failures(hw, 0);
      FewerFailuresMeansClear(hw);
      SyncLimits(hw);
      OneMore(outs, failed);
      ghost var t, r, w := Timeouts(outs), Recovered(outs), Wedged(outs);
      var attempt := 0;
      while attempt < SYNC_TRIES
        invariant 0 <= attempt <= failed
        invariant outcomes == outs && OutcomesOk(outs)
        invariant Holds(timeouts, t)
        invariant Holds(recovered, r) && Holds(wedged, w) && t == Timeouts(outs) + attempt
      {
        var busy := Poll(hw, attempt);
        if !busy {
          if attempt > 0 {
            IncHolds(recovered, r);
            recovered := Inc32(recovered);
          }
          outcomes := outs + [failed];
          ok := true;
          return;
        }
        IncHolds(timeouts, t);
        timeouts, t := Inc32(timeouts), t + 1;
        attempt := attempt + 1;
      }
      IncHolds(wedged, w);
      wedged := Inc32(wedged);
      outcomes := outs + [failed];
    }
  }
}
