/** The LCV split of a port and the one-time pass-all classification plan. */
module KeyGenPort {
  import opened Kernel
  import opened Options
  import opened KeyGen

  // ------------------------------------------------------------------ the parser's LCV words

  class RxPort {
    /** An RX port whose parser registers are mapped. */
    const usable: bool
    const lcv: array<word>

    ghost predicate Valid() {
      lcv.Length == HXS_COUNT
    }

    constructor (usable: bool)
      ensures Valid() && fresh(lcv) && this.usable == usable && forall i: nat :: i < HXS_COUNT ==> lcv[i] == ONES
    {
      this.usable := usable;
      lcv := new word[HXS_COUNT](i => ONES);
    }

    /** Stores one value to every slot; land says whether each store took effect. */
    method StoreAll(value: word, land: nat -> bool)
      requires Valid()
      modifies lcv
      ensures forall i: nat :: i < HXS_COUNT ==> lcv[i] == if land(i) then value else old(lcv[i])
    {
      var i: nat := 0;
      while i < HXS_COUNT
        invariant i <= HXS_COUNT
        invariant forall j: nat :: j < i ==> lcv[j] == if land(j) then value else old(lcv[j])
        invariant forall j: nat :: i <= j < HXS_COUNT ==> lcv[j] == old(lcv[j])
      {
        if land(i) {
          lcv[i] := value;
        }
        i := i + 1;
      }
    }

    /** fman_port_clear_lcv_split: every slot back to all ones. */
    method ClearLcvSplit(land: nat -> bool)
      requires Valid()
      modifies lcv
      ensures forall i: nat :: i < HXS_COUNT ==> lcv[i] == if usable && land(i) then ONES else old(lcv[i])
    {
      if usable {
        StoreAll(ONES, land);
      }
    }
  }

  /** The slots that the split neither sets nor reads back. */
  predicate Unverified(i: nat) {
    i < HXS_COUNT && i != ETH && i != IPV4 && i != IPV6
  }

  /** fman_port_set_lcv_split: zero all slots, set three, and read those three back. */
  method SetLcvSplit(rx: RxPort?, ca: word, v4: word, v6: word, zeroed: nat -> bool, stored: nat -> bool)
      returns (ret: int)
    requires rx != null ==> rx.Valid()
    modifies if rx != null then {rx.lcv} else {}
    ensures ret == 0 || ret == EIO || ret == EINVAL
    ensures ret == EINVAL <==> rx == null || !rx.usable
    ensures ret == EINVAL && rx != null ==> rx.lcv[..] == old(rx.lcv[..])
    ensures rx != null && rx.usable ==> (ret == 0 <==> rx.lcv[ETH] == ca && rx.lcv[IPV4] == v4 && rx.lcv[IPV6] == v6)
    ensures rx != null && rx.usable ==>
              forall i: nat :: Unverified(i) ==> rx.lcv[i] == if zeroed(i) then 0 else old(rx.lcv[i])
    ensures rx != null && rx.usable && stored(ETH) && stored(IPV4) && stored(IPV6) ==> ret == 0
  {
    if rx == null || !rx.usable {
      return EINVAL;
    }
    rx.StoreAll(0, zeroed);
    if stored(ETH) {
      rx.lcv[ETH] := ca;
    }
    if stored(IPV4) {
      rx.lcv[IPV4] := v4;
    }
    if stored(IPV6) {
      rx.lcv[IPV6] := v6;
    }
    if rx.lcv[ETH] != ca || rx.lcv[IPV4] != v4 || rx.lcv[IPV6] != v6 {
      return EIO;
    }
    return 0;
  }

  /** With every store landing, the split that the arm asks for is complete. */
  method SplitLands(rx: RxPort, zeroed: nat -> bool, stored: nat -> bool) returns (ret: int)
    requires rx.Valid() && rx.usable && forall i: nat :: i < HXS_COUNT ==> zeroed(i) && stored(i)
    modifies rx.lcv
    ensures ret == 0 && IsSplit(rx.lcv[..])
  {
    ret := SetLcvSplit(rx, CATCHALLBIT, V4BIT, V6BIT, zeroed, stored);
    forall i | 0 <= i < HXS_COUNT && i != ETH && i != IPV4 && i != IPV6 ensures rx.lcv[i] == 0 {
      assert Unverified(i);
    }
  }

  /** A frame whose parser also visits slot 3. */
  const TAGGED: Frame := Probe(3)

  /**
   * A split can return 0 and not split: one zeroing store that does not take effect leaves a slot all
   * ones, and a frame without IP headers that visits it goes to the IPv4 scheme.
   */
  method SplitCanLie(schemes: seq<Scheme>, v4: nat, v6: nat, ca: nat) returns (rx: RxPort, ret: int)
    requires Armed(schemes, v4, v6, ca) && v4 < v6 < ca
    ensures rx.Valid() && ret == 0 && rx.lcv[3] == ONES
    ensures !TAGGED[IPV4] && !TAGGED[IPV6] && SchemeOf(TAGGED, rx.lcv[..], ONES, schemes) == Some(v4)
  {
    rx := new RxPort(true);
    ret := SetLcvSplit(rx, CATCHALLBIT, V4BIT, V6BIT, i => i != 3, i => true);
    assert Unverified(3);
    AllOnesLead(rx.lcv[..], schemes, v4, v6, ca);
  }

  /** With slot 3 all ones the tagged frame's QLCV has every bit, so the first armed scheme takes it. */
  lemma AllOnesLead(lcv: seq<word>, schemes: seq<Scheme>, v4: nat, v6: nat, ca: nat)
    requires |lcv| == HXS_COUNT && lcv[ETH] == CATCHALLBIT && lcv[3] == ONES && Armed(schemes, v4, v6, ca)
    requires v4 < v6 < ca
    ensures SchemeOf(TAGGED, lcv, ONES, schemes) == Some(v4)
  {
    hide Lcv, Has;
    ProbeLcv(lcv, 3, HXS_COUNT);
    OnesHaveAll();
    assert Lcv(TAGGED, lcv) == CATCHALLBIT | ONES by { LcvIs(TAGGED, lcv); }
  }

  lemma LcvIs(f: Frame, lcv: seq<word>)
    requires |lcv| == HXS_COUNT
    ensures Lcv(f, lcv) == LcvTo(f, lcv, HXS_COUNT)
  {
  }

  lemma OnesHaveAll()
    ensures Has(Qlcv(ONES, CATCHALLBIT | ONES), V4BIT)
  {
  }

  // ------------------------------------------------------------------ the classification plan

  const ENTRIES: nat := 8

  /** One action-register command: its error, and what it leaves in the group's entries. */
  datatype Command = Command(err: int, entries: seq<word>)

  class Plan {
    const entries: array<word>
    var passAll: bool
    ghost var commands: nat

    /** The flag vouches for entry 0, the one CPP = 0 selects. */
    ghost predicate Valid()
      reads this, entries
    {
      entries.Length == ENTRIES && (passAll ==> entries[0] == ONES)
    }

    constructor (initial: seq<word>)
      requires |initial| == ENTRIES
      ensures Valid() && fresh(entries) && entries[..] == initial && !passAll && commands == 0
    {
      entries := new word[ENTRIES](i requires 0 <= i < ENTRIES => initial[i]);
      passAll, commands := false, 0;
      new;
      assert entries[..] == initial;
    }

    /**
     * keygen_cls_plan0_passall: once it has succeeded, later calls issue no command at all. The write
     * command leaves in the group what the hardware made of the window's eight words of ones.
     */
    method PassAll(write: Command, readErr: int) returns (ret: int)
      requires Valid() && |write.entries| == ENTRIES
      modifies this, entries
      ensures Valid()
      ensures old(passAll) ==> ret == 0 && passAll && commands == old(commands) && entries[..] == old(entries[..])
      ensures !old(passAll) ==>
                && (ret == 0 <==> write.err == 0 && readErr == 0 && write.entries[0] == ONES)
                && (passAll <==> ret == 0)
                && entries[..] == (if write.err == 0 then write.entries else old(entries[..]))
                && commands == old(commands) + if write.err == 0 then 2 else 1
    {
      if passAll {
        return 0;
      }
      commands := commands + 1;
      if write.err != 0 {
        return write.err;
      }
      var i: nat := 0;
      while i < ENTRIES
        invariant i <= ENTRIES && !passAll && commands == old(commands) + 1
        invariant entries[..i] == write.entries[..i]
      {
        entries[i] := write.entries[i];
        i := i + 1;
      }
      commands := commands + 1;
      if readErr != 0 {
        return readErr;
      }
      if entries[0] != ONES {
        return EIO;
      }
      passAll := true;
      return 0;
    }
  }
}
