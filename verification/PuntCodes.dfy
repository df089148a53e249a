/**
 * What a caller of fman_pcd_ctl_punt_set sees, from the state before the call and without the steps
 * that lead there: every return code, what 0 stands for, and the SSA words a clean call leaves.
 */
module PuntCodes {
  import opened Kernel
  import opened Options
  import opened Punt
  import opened PuntRuns
  import opened PuntConverge

  /** The FMan has a parser and the mask none but the two feature bits. */
  predicate ValidCall(s: State, fm: nat, mask: word) {
    fm in s.mem && (mask == 0 || mask == 1 || mask == 2 || mask == 3)
  }

  /** Another FMan holds the program. */
  predicate Foreign(s: State, fm: nat) {
    s.owner.Some? && s.owner.value != fm
  }

  /** The port has an HXS recorded as attached. */
  predicate Registered(s: State, fm: nat, id: nat) {
    exists k :: 0 <= k < |s.slots| && s.slots[k].port == Some(Port(fm, id))
  }

  /** All sixteen slots are taken. */
  predicate Full(s: State) {
    |s.slots| == 16 && forall k :: 0 <= k < 16 ==> s.slots[k].port.Some?
  }

  /** The call gets as far as the hardware. */
  predicate Reaches(s: State, fm: nat, id: nat, mask: word) {
    && ValidCall(s, fm, mask) && !Foreign(s, fm)
    && (Registered(s, fm, id) || (mask != 0 && Port(fm, id) in s.ssa && !Full(s)))
  }

  /** TCP for bit 0, IPv4 and IPv6 for bit 1. */
  function BitsOf(mask: word): seq<bool> {
    [mask == 1 || mask == 3, mask == 2 || mask == 3, mask == 2 || mask == 3]
  }

  /** The records say exactly what the mask asks for. */
  predicate Matches(s: State, fm: nat, id: nat, mask: word) {
    if mask == 0 then !Registered(s, fm, id)
    else exists k :: 0 <= k < |s.slots| && s.slots[k].port == Some(Port(fm, id)) && s.slots[k].attached == BitsOf(mask)
  }

  lemma MaskIs(mask: word)
    ensures MaskOk(mask) <==> mask == 0 || mask == 1 || mask == 2 || mask == 3
    ensures MaskOk(mask) ==> [Wants(mask, 0), Wants(mask, 1), Wants(mask, 2)] == BitsOf(mask)
  {
  }

  /** A slot registered for id is the owner's port of that id. */
  lemma HoldsIs(s: State, fm: nat, id: nat)
    requires Inv(s) && !Foreign(s, fm)
    ensures |s.slots| == PORTS
    ensures forall k :: 0 <= k < PORTS ==> (Holds(s.slots[k], id) <==> s.slots[k].port == Some(Port(fm, id)))
    ensures Lookup(s.slots, id, 0).Some? <==> Registered(s, fm, id)
    ensures Spare(s.slots, 0).None? <==> Full(s)
  {
    hide CODE;
  }

  lemma NotForeign(s: State, fm: nat, id: nat)
    requires Inv(s) && Foreign(s, fm)
    ensures !Registered(s, fm, id)
  {
    hide CODE;
  }

  /** What the checks come to. */
  lemma Checks(s: State, fm: nat, id: nat, mask: word)
    requires Inv(s)
    ensures Find(s, fm, id, mask).At? <==> Reaches(s, fm, id, mask)
    ensures !Reaches(s, fm, id, mask) ==> Find(s, fm, id, mask) == Refused(
      if !ValidCall(s, fm, mask) then EINVAL
      else if mask == 0 then 0
      else if Foreign(s, fm) then EBUSY
      else if Port(fm, id) !in s.ssa then ENODEV
      else ENOSPC)
  {
    hide CODE, Inv, MaskOk, Lookup, Spare, Registered, Full;
    SlotsOf(s);
    MaskIs(mask);
    if Foreign(s, fm) {
      NotForeign(s, fm, id);
    } else {
      HoldsIs(s, fm, id);
    }
  }

  lemma SlotsOf(s: State)
    requires Inv(s)
    ensures |s.slots| == PORTS
  {
  }

  /** The errors differ, and are neither 0 nor EIO nor ETIMEDOUT. */
  predicate CheckError(ret: int) {
    ret == EINVAL || ret == EBUSY || ret == ENODEV || ret == ENOSPC
  }

  lemma ErrorsDiffer()
    ensures |{EINVAL, EBUSY, ENODEV, ENOSPC, ETIMEDOUT, EIO, 0}| == 7
    ensures !CheckError(0) && !CheckError(EIO) && !CheckError(ETIMEDOUT)
  {
  }

  lemma LoadCode(s: State, fm: nat, adds: bool, hw: WriteHw)
    requires Inv(s) && fm in s.mem && (s.owner.Some? ==> s.owner == Some(fm))
    ensures var ret := Load(s, fm, adds, hw).1;
            && (ret == 0 || ret == EIO || ret == ETIMEDOUT)
            && (ret == ETIMEDOUT <==> s.users == 0 && forall i :: 0 <= i < 1000 ==> hw.busy(i))
  {
    LoadKeeps(s, fm, adds, hw);
    hide CODE, Words, SlotsOk;
  }

  lemma ReachedCode(s: State, fm: nat, id: nat, mask: word, hw: Hw)
    requires Inv(s) && Find(s, fm, id, mask).At?
    ensures var ret := Set(s, fm, id, mask, hw).1;
            && (ret == 0 || ret == EIO || ret == ETIMEDOUT)
            && (ret == ETIMEDOUT <==> s.users == 0 && forall i :: 0 <= i < 1000 ==> hw.load.busy(i))
  {
    hide CODE, Find, Load, Arrange, Unload, Adds, ToggleTo, SlotsOk;
    var t := Find(s, fm, id, mask);
    FindIsOk(s, fm, id, mask);
    SetSteps(s, fm, id, mask, hw);
    LoadCode(s, fm, Adds(t.was, mask), hw.load);
    var (s1, ret1) := Load(s, fm, Adds(t.was, mask), hw.load);
    if ret1 == 0 {
      ArrangeCode(s1, t.k, t.port, t.was, mask, hw.hxs);
    }
  }

  lemma ArrangeCode(s: State, k: nat, p: Port, was: seq<bool>, mask: word, hw: nat -> SsaHw)
    requires Shaped(s) && k < PORTS && p in s.ssa && |was| == NHXS
    ensures var ret := Arrange(s, k, p, was, mask, hw).1; ret == 0 || ret == EIO
  {
    ToggleRet(Hxs(was, s.slots[k].saved, s.ssa[p], 0), NHXS, mask, hw);
  }

  /**
   * Every return code, from the state before the call. EINVAL, EBUSY, ENODEV and ENOSPC say what the
   * call asked for that cannot be had, and change nothing; disarming a port that is not armed is a
   * no-op on whichever FMan; ETIMEDOUT says that the first user's load never saw the parser idle.
   */
  lemma ReturnCodes(s: State, fm: nat, id: nat, mask: word, hw: Hw)
    requires Inv(s)
    ensures var (s', ret) := Set(s, fm, id, mask, hw);
            && (ret == EINVAL <==> !ValidCall(s, fm, mask))
            && (ret == EBUSY <==> ValidCall(s, fm, mask) && Foreign(s, fm) && mask != 0)
            && (ret == ENODEV <==> ValidCall(s, fm, mask) && !Foreign(s, fm) && !Registered(s, fm, id) && mask != 0
                                   && Port(fm, id) !in s.ssa)
            && (ret == ENOSPC <==> ValidCall(s, fm, mask) && !Foreign(s, fm) && !Registered(s, fm, id) && mask != 0
                                   && Port(fm, id) in s.ssa && Full(s))
            && (ret == ETIMEDOUT <==> Reaches(s, fm, id, mask) && s.users == 0 && forall i :: 0 <= i < 1000 ==> hw.load.busy(i))
            && (ret == 0 || ret == EIO || ret == ETIMEDOUT || CheckError(ret))
            && (!Reaches(s, fm, id, mask) ==> s' == s)
            && (ValidCall(s, fm, mask) && mask == 0 && !Registered(s, fm, id) ==> (s', ret) == (s, 0))
  {
    hide Inv, Find, Load, Arrange, Unload, Registered, Full, Foreign, ValidCall;
    SlotsOf(s);
    Checks(s, fm, id, mask);
    ErrorsDiffer();
    if Find(s, fm, id, mask).At? {
      ReachedCode(s, fm, id, mask, hw);
    }
  }

  // ------------------------------------------------------------------ what 0 stands for

  /** Another call's slot stays; the slot worked on ends registered for the port or free. */
  lemma WhereTheCallWorks(s: State, fm: nat, id: nat, mask: word, hw: Hw)
    requires Inv(s) && Find(s, fm, id, mask).At?
    ensures var t, s' := Find(s, fm, id, mask), Set(s, fm, id, mask, hw).0;
            && Inv(s') && t.k < PORTS == |s'.slots|
            && (forall j :: 0 <= j < PORTS && j != t.k ==> s'.slots[j].port != Some(Port(fm, id)))
            && (s'.slots[t.k].port.Some? ==> s'.slots[t.k].port == Some(Port(fm, id)))
  {
    hide CODE, ToggleTo, PrsWrite, SlotsOk, Find, Adds, Any;
    var t := Find(s, fm, id, mask);
    SetKeepsInv(s, fm, id, mask, hw);
    FindIsOk(s, fm, id, mask);
    SetSteps(s, fm, id, mask, hw);
    LoadShaped(s, fm, Adds(t.was, mask), hw.load);
    OwnerIds(s, fm);
  }

  lemma OwnerIds(s: State, fm: nat)
    requires Inv(s)
    ensures forall j :: 0 <= j < PORTS && s.slots[j].port.Some? ==> s.slots[j].port.value.id == s.slots[j].id
  {
    hide CODE;
  }

  /** With no user nothing is registered, before or after a load that fails. */
  lemma FailedLoad(s: State, fm: nat, id: nat, mask: word, hw: Hw)
    requires Inv(s) && Find(s, fm, id, mask).At? && fm in s.mem && |Find(s, fm, id, mask).was| == NHXS
    requires Load(s, fm, Adds(Find(s, fm, id, mask).was, mask), hw.load).1 != 0
    ensures mask != 0 && forall k :: 0 <= k < |Set(s, fm, id, mask, hw).0.slots| ==> Set(s, fm, id, mask, hw).0.slots[k].port.None?
  {
    hide CODE, PrsWrite, Lookup, Spare, Adds;
    SetSteps(s, fm, id, mask, hw);
    LoadShaped(s, fm, Adds(Find(s, fm, id, mask).was, mask), hw.load);
    UsersIsZero(s.slots);
  }

  /** The slot's bits match the mask exactly when the records say so. */
  lemma SlotMatches(s: State, k: nat, fm: nat, id: nat, mask: word)
    requires Inv(s) && k < PORTS == |s.slots| && MaskOk(mask)
    requires forall j :: 0 <= j < PORTS && j != k ==> s.slots[j].port != Some(Port(fm, id))
    requires s.slots[k].port.Some? ==> s.slots[k].port == Some(Port(fm, id))
    ensures |s.slots[k].attached| == NHXS
    ensures (forall i :: 0 <= i < NHXS ==> s.slots[k].attached[i] == Wants(mask, i)) <==> Matches(s, fm, id, mask)
  {
    hide CODE, Wants, MaskOk;
    MaskIs(mask);
    var bits := s.slots[k].attached;
    assert s.slots[k].port.Some? <==> bits[0] || bits[1] || bits[2];
    assert (forall i :: 0 <= i < NHXS ==> bits[i] == Wants(mask, i)) <==> bits == BitsOf(mask);
    if mask != 0 && bits == BitsOf(mask) {
      assert s.slots[k].port == Some(Port(fm, id));
    }
  }

  /**
   * 0 means done: a valid call that is not turned away for another FMan's sake returns 0 if and only
   * if afterwards the port is registered with exactly the mask's HXS, or, for mask 0, not at all.
   * In particular 0 for a mask other than 0 always means attached.
   */
  lemma ZeroMeansDone(s: State, fm: nat, id: nat, mask: word, hw: Hw)
    requires Inv(s) && ValidCall(s, fm, mask)
    ensures var (s', ret) := Set(s, fm, id, mask, hw); ret == 0 <==> Matches(s', fm, id, mask)
  {
    hide Inv, Find, Load, Arrange, Unload, Foreign, MaskOk, Set, Matches, Wants;
    MaskIs(mask);
    SlotsOf(s);
    var t := Find(s, fm, id, mask);
    var (s', ret) := Set(s, fm, id, mask, hw);
    if t.At? {
      ReturnCodeIsTruthful(s, fm, id, mask, hw);
      WhereTheCallWorks(s, fm, id, mask, hw);
      SlotMatches(s', t.k, fm, id, mask);
      if Load(s, fm, Adds(t.was, mask), hw.load).1 != 0 {
        FailedLoad(s, fm, id, mask, hw);
        NobodyMatches(s', fm, id, mask);
      }
    } else {
      TurnedAway(s, fm, id, mask, hw);
      Checks(s, fm, id, mask);
      ErrorsDiffer();
      Unreached(s, fm, id, mask);
    }
  }

  lemma TurnedAway(s: State, fm: nat, id: nat, mask: word, hw: Hw)
    requires Inv(s) && Find(s, fm, id, mask).Refused?
    ensures Set(s, fm, id, mask, hw) == (s, Find(s, fm, id, mask).ret)
  {
  }

  lemma NobodyMatches(s: State, fm: nat, id: nat, mask: word)
    requires mask != 0 && forall k :: 0 <= k < |s.slots| ==> s.slots[k].port.None?
    ensures !Matches(s, fm, id, mask)
  {
  }

  /** A call that goes nowhere leaves the port unregistered. */
  lemma Unreached(s: State, fm: nat, id: nat, mask: word)
    requires Inv(s) && ValidCall(s, fm, mask) && !Reaches(s, fm, id, mask)
    ensures Matches(s, fm, id, mask) <==> mask == 0
  {
    if Foreign(s, fm) {
      NotForeign(s, fm, id);
    }
  }

  /**
   * What a load that fails leaves: nothing if the parser was never idle, else the words as the stores
   * or, on a first load whose words did not read back, as the undoing stores left them. A first load
   * also leaves the words it found in prev. No slot, SSA, user or owner changes.
   */
  lemma FailedLoadLeaves(s: State, fm: nat, id: nat, mask: word, hw: Hw)
    requires Inv(s) && Reaches(s, fm, id, mask) && s.users == 0
    requires (forall i :: 0 <= i < 1000 ==> hw.load.busy(i)) || Words(hw.load.wrote) != CODE || !hw.load.penBack
    ensures fm in s.mem && fm in Set(s, fm, id, mask, hw).0.mem
    ensures var (s', ret), stuck := Set(s, fm, id, mask, hw), forall i :: 0 <= i < 1000 ==> hw.load.busy(i);
            && ret == (if stuck then ETIMEDOUT else EIO)
            && s'.slots == s.slots && s'.ssa == s.ssa && s'.users == 0 && s'.owner == s.owner && s'.loaded == s.loaded
            && s'.prev == (if !stuck && !s.loaded then s.mem[fm] else s.prev)
            && (forall f :: f in s.mem && f != fm ==> f in s'.mem && s'.mem[f] == s.mem[f])
            && s'.mem[fm] == if stuck then s.mem[fm]
                             else if Words(hw.load.wrote) != CODE && !s.loaded then Words(hw.load.undone)
                             else Words(hw.load.wrote)
  {
    hide CODE, Words, Inv, Find, Arrange, Adds, Reaches, Idle;
    SlotsOf(s);
    Checks(s, fm, id, mask);
    FindIsOk(s, fm, id, mask);
    SetSteps(s, fm, id, mask, hw);
    IdleIs(hw.load);
  }

  /** Code that was overwritten while a port used it is reported when an HXS would be added, and never repaired. */
  lemma OverwrittenIsReported(s: State, fm: nat, adds: bool, hw: WriteHw)
    requires fm in s.mem && s.users > 0
    ensures Load(s, fm, adds, hw) == (s, if adds && s.mem[fm] != CODE then EIO else 0)
  {
  }

  lemma IdleIs(hw: WriteHw)
    ensures Idle(hw) <==> !forall i :: 0 <= i < 1000 ==> hw.busy(i)
  {
  }

  // ------------------------------------------------------------------ the SSA row of a clean call

  /** An SSA word after a clean call: wanted or not, recorded before or not, saved word, word before, label. */
  function Cleaned(want: bool, was: bool, saved: word, before: word, mark: word): word {
    if want == was then before else if was then saved else (before & 0xffff_f800) | 0x400 | mark
  }

  /** The word Toggle leaves in entry i's SSA. */
  lemma ToggleCleans(h: Hxs, i: nat, mask: word, hw: SsaHw)
    requires HxsOk(h) && i < NHXS && SsaLands(h, i, mask, hw)
    ensures Toggle(h, i, mask, hw).regs[HxsSlot(i)]
            == Cleaned(Wants(mask, i), h.attached[i], h.saved[i], h.regs[HxsSlot(i)], Label(i))
  {
    hide Wants;
    EnabledIs(h.regs[HxsSlot(i)], Label(i));
  }

  lemma EnabledIs(ssa: word, mark: word)
    requires mark & !SW_LABEL == 0
    ensures Enabled(ssa, mark) == (ssa & 0xffff_f800) | 0x400 | mark
  {
    assert !(SW_PRS_EN | SW_LABEL) == 0xffff_f800;
  }

  /**
   * The whole SSA row after a fault-free call, for each mask: TCP control is parser slot 10 at label
   * 0x20 and feature bit 0, IPv4 TTL slot 5 at label 0x33 and IPv6 hop limit slot 6 at label 0x47,
   * both feature bit 1. A word changes in its enable bit and label when it is newly wanted, goes back
   * to its saved value when it no longer is, and stays otherwise, like all other slots.
   */
  lemma RowOfEachMask(s: State, fm: nat, id: nat, mask: word, hw: Hw)
    requires Inv(s) && FaultFree(s, fm, id, mask, hw) && Find(s, fm, id, mask).At?
    ensures Port(fm, id) in s.ssa && Port(fm, id) in Set(s, fm, id, mask, hw).0.ssa
    ensures |s.ssa[Port(fm, id)]| == |Set(s, fm, id, mask, hw).0.ssa[Port(fm, id)]| == 16
    ensures |Find(s, fm, id, mask).was| == |s.slots[Find(s, fm, id, mask).k].saved| == 3
    ensures var t, row, row' := Find(s, fm, id, mask), s.ssa[Port(fm, id)], Set(s, fm, id, mask, hw).0.ssa[Port(fm, id)];
            var saved := s.slots[t.k].saved;
            && row'[10] == Cleaned(mask == 1 || mask == 3, t.was[0], saved[0], row[10], 0x20)
            && row'[5] == Cleaned(mask == 2 || mask == 3, t.was[1], saved[1], row[5], 0x33)
            && row'[6] == Cleaned(mask == 2 || mask == 3, t.was[2], saved[2], row[6], 0x47)
            && forall x :: 0 <= x < 16 && x != 10 && x != 5 && x != 6 ==> row'[x] == row[x]
  {
    hide CODE, ToggleTo, Toggle, Wants, SsaLands, Find, FaultFree, Set, Cleaned, MaskOk;
    FindMask(s, fm, id, mask);
    MaskIs(mask);
    RowAfter(s, fm, id, mask, hw);
    var h := WorkRow(s, Find(s, fm, id, mask));
    forall i | 0 <= i < NHXS
      ensures ToggleTo(h, NHXS, mask, hw.hxs).regs[HxsSlot(i)]
              == Cleaned(Wants(mask, i), h.attached[i], h.saved[i], h.regs[HxsSlot(i)], Label(i))
      ensures SameRest(ToggleTo(h, NHXS, mask, hw.hxs), h)
    {
      TogglesAreIndependent(h, NHXS, mask, hw.hxs, i);
      ToggleCleans(h, i, mask, hw.hxs(i));
    }
  }
}
