/** Calls whose stores all land: what they reach from any state, and what an earlier failure can leave behind. */
module PuntConverge {
  import opened Kernel
  import opened Options
  import opened Punt
  import opened PuntRuns

  predicate LandsAs(hw: WriteHw, data: seq<word>) {
    Idle(hw) && Words(hw.wrote) == data && hw.penBack
  }

  /** The store of entry i, if there is one, reads back. */
  predicate SsaLands(h: Hxs, i: nat, mask: word, hw: SsaHw)
    requires HxsOk(h) && i < NHXS
  {
    && (Wants(mask, i) && !h.attached[i] ==> hw.wrote == Enabled(h.regs[HxsSlot(i)], Label(i)))
    && (!Wants(mask, i) && h.attached[i] ==> hw.wrote == h.saved[i])
  }

  /** No hardware step of the call fails. */
  ghost predicate FaultFree(s: State, fm: nat, id: nat, mask: word, hw: Hw)
    requires Inv(s)
  {
    var t := Find(s, fm, id, mask);
    FindIsOk(s, fm, id, mask);
    t.At? ==>
      && (s.users == 0 ==> LandsAs(hw.load, CODE))
      && LandsAs(hw.unload, Load(s, fm, Adds(t.was, mask), hw.load).0.prev)
      && forall i :: 0 <= i < NHXS ==> SsaLands(WorkRow(s, t), i, mask, hw.hxs(i))
  }

  lemma ToggleOneLands(h: Hxs, g: Hxs, i: nat, mask: word, hw: SsaHw)
    requires HxsOk(h) && HxsOk(g) && i < NHXS && SameEntry(g, h, i) && SsaLands(h, i, mask, hw)
    ensures Toggle(g, i, mask, hw).ret == g.ret && Toggle(g, i, mask, hw).attached[i] == Wants(mask, i)
  {
    hide Enabled, Wants;
  }

  lemma {:induction false} ToggleLands(h: Hxs, k: nat, mask: word, hw: nat -> SsaHw)
    requires HxsOk(h) && k <= NHXS && h.ret == 0
    requires forall i :: 0 <= i < NHXS ==> SsaLands(h, i, mask, hw(i))
    ensures ToggleTo(h, k, mask, hw).ret == 0
    ensures forall i :: 0 <= i < k ==> ToggleTo(h, k, mask, hw).attached[i] == Wants(mask, i)
  {
    hide Toggle, Wants, SsaLands, Enabled;
    forall i | 0 <= i < k ensures ToggleTo(h, k, mask, hw).attached[i] == Wants(mask, i) {
      TogglesAreIndependent(h, k, mask, hw, i);
      ToggleOneLands(h, h, i, mask, hw(i));
    }
    if k > 0 {
      ToggleLands(h, k - 1, mask, hw);
      TogglesAreIndependent(h, k - 1, mask, hw, k - 1);
      ToggleOneLands(h, ToggleTo(h, k - 1, mask, hw), k - 1, mask, hw(k - 1));
    }
  }

  lemma MaskWants(mask: word)
    requires MaskOk(mask)
    ensures mask != 0 <==> Wants(mask, 0) || Wants(mask, 1)
    ensures Wants(mask, 1) == Wants(mask, 2)
  {
  }

  lemma AnyIs(bits: seq<bool>, mask: word)
    requires |bits| == NHXS && MaskOk(mask) && forall i :: 0 <= i < NHXS ==> bits[i] == Wants(mask, i)
    ensures Any(bits) <==> mask != 0
  {
    MaskWants(mask);
    if mask != 0 {
      assert bits[0] || bits[1];
    }
  }

  lemma LoadLands(s: State, fm: nat, adds: bool, hw: WriteHw)
    requires Inv(s) && fm in s.mem && (s.owner.Some? ==> s.owner == Some(fm))
    requires s.users == 0 ==> LandsAs(hw, CODE)
    ensures Load(s, fm, adds, hw).1 == 0
  {
    hide CODE;
  }

  lemma UnloadLands(s: State, fm: nat, hw: WriteHw)
    requires Inv(s) && s.owner == Some(fm) && LandsAs(hw, s.prev)
    ensures s.users == 0 ==> Unload(s, fm, hw).owner.None? && Unload(s, fm, hw).mem[fm] == s.prev
    ensures Unload(s, fm, hw).slots == s.slots && Unload(s, fm, hw).ssa == s.ssa
    ensures s.users > 0 ==> Unload(s, fm, hw) == s
  {
    hide CODE;
  }

  lemma FindMask(s: State, fm: nat, id: nat, mask: word)
    requires Inv(s) && Find(s, fm, id, mask).At?
    ensures MaskOk(mask) && fm in s.mem
  {
    hide Inv;
  }

  /**
   * Convergence: from any state a run of failing calls can have left, a call whose stores land
   * returns 0 and leaves exactly the mask's HXS attached; the last disarm also unloads the program.
   */
  lemma FaultFreeCallConverges(s: State, fm: nat, id: nat, mask: word, hw: Hw)
    requires Inv(s) && FaultFree(s, fm, id, mask, hw) && Find(s, fm, id, mask).At?
    ensures var t, (s', ret) := Find(s, fm, id, mask), Set(s, fm, id, mask, hw);
            && Inv(s') && ret == 0 && t.k < PORTS
            && (forall i :: 0 <= i < NHXS ==> s'.slots[t.k].attached[i] == Wants(mask, i))
            && (mask != 0 ==> s'.slots[t.k].port == Some(Port(fm, id)) && s'.owner == Some(fm))
            && (mask == 0 ==> s'.slots[t.k].port.None?)
            && (s'.users == 0 ==> s'.owner.None? && s'.mem[fm] == Load(s, fm, Adds(t.was, mask), hw.load).0.prev)
  {
    hide CODE, ToggleTo, Wants, PrsWrite, SlotsOk, LandsAs, SsaLands, Any;
    var t := Find(s, fm, id, mask);
    SetKeepsInv(s, fm, id, mask, hw);
    FindIsOk(s, fm, id, mask);
    FindMask(s, fm, id, mask);
    SetSteps(s, fm, id, mask, hw);
    LoadLands(s, fm, Adds(t.was, mask), hw.load);
    LoadShaped(s, fm, Adds(t.was, mask), hw.load);
    var s1 := Load(s, fm, Adds(t.was, mask), hw.load).0;
    var h := Hxs(t.was, s1.slots[t.k].saved, s1.ssa[t.port], 0);
    ToggleLands(h, NHXS, mask, hw.hxs);
    AnyIs(ToggleTo(h, NHXS, mask, hw.hxs).attached, mask);
    var s2 := Arrange(s1, t.k, t.port, t.was, mask, hw.hxs).0;
    UnloadLands(s2, fm, hw.unload);
    UsersIsZero(s2.slots);
  }

  lemma ToggleIsTruthful(h: Hxs, g: Hxs, i: nat, mask: word, hw: SsaHw)
    requires HxsOk(h) && HxsOk(g) && i < NHXS && SameEntry(g, h, i) && (g.ret == 0 || g.ret == EIO)
    ensures var r := Toggle(g, i, mask, hw);
            && (r.ret == 0 || r.ret == EIO)
            && (r.ret == 0 <==> g.ret == 0 && Toggle(h, i, mask, hw).attached[i] == Wants(mask, i))
  {
    hide Enabled, Wants;
  }

  lemma {:induction false} TogglesAreTruthful(h: Hxs, k: nat, mask: word, hw: nat -> SsaHw)
    requires HxsOk(h) && k <= NHXS && h.ret == 0
    ensures var r := ToggleTo(h, k, mask, hw);
            && (r.ret == 0 || r.ret == EIO)
            && (r.ret == 0 <==> forall i :: 0 <= i < k ==> Toggle(h, i, mask, hw(i)).attached[i] == Wants(mask, i))
  {
    hide Toggle, Wants;
    if k > 0 {
      TogglesAreTruthful(h, k - 1, mask, hw);
      TogglesAreIndependent(h, k - 1, mask, hw, k - 1);
      ToggleIsTruthful(h, ToggleTo(h, k - 1, mask, hw), k - 1, mask, hw(k - 1));
    }
  }

  /**
   * The return code is truthful, whatever the hardware does: a call that reaches its port returns 0
   * if and only if the program could be loaded and exactly the mask's HXS are recorded as attached.
   */
  lemma ReturnCodeIsTruthful(s: State, fm: nat, id: nat, mask: word, hw: Hw)
    requires Inv(s) && Find(s, fm, id, mask).At?
    ensures fm in s.mem && |Find(s, fm, id, mask).was| == NHXS
    ensures var t, (s', ret) := Find(s, fm, id, mask), Set(s, fm, id, mask, hw);
            && Inv(s') && t.k < PORTS
            && (ret == 0 <==>
                  && Load(s, fm, Adds(t.was, mask), hw.load).1 == 0
                  && forall i :: 0 <= i < NHXS ==> s'.slots[t.k].attached[i] == Wants(mask, i))
  {
    hide CODE, ToggleTo, Wants, Toggle, PrsWrite, SlotsOk, Any, Find;
    var t := Find(s, fm, id, mask);
    SetKeepsInv(s, fm, id, mask, hw);
    FindIsOk(s, fm, id, mask);
    SetSteps(s, fm, id, mask, hw);
    LoadShaped(s, fm, Adds(t.was, mask), hw.load);
    var (s1, ret1) := Load(s, fm, Adds(t.was, mask), hw.load);
    if ret1 == 0 {
      var h := Hxs(t.was, s1.slots[t.k].saved, s1.ssa[t.port], 0);
      TogglesAreTruthful(h, NHXS, mask, hw.hxs);
      forall i | 0 <= i < NHXS
        ensures ToggleTo(h, NHXS, mask, hw.hxs).attached[i] == Toggle(h, i, mask, hw.hxs(i)).attached[i]
      {
        TogglesAreIndependent(h, NHXS, mask, hw.hxs, i);
      }
    }
  }

  /** Which calls get past the checks: only these refusals stand between a caller and convergence. */
  lemma CallsThatReachThePort(s: State, fm: nat, id: nat, mask: word)
    requires Inv(s)
    ensures Find(s, fm, id, mask).At? <==>
              && fm in s.mem && MaskOk(mask) && (s.owner.None? || s.owner == Some(fm))
              && ((exists k :: 0 <= k < PORTS && Holds(s.slots[k], id))
                  || (mask != 0 && Port(fm, id) in s.ssa && exists k :: 0 <= k < PORTS && s.slots[k].port.None?))
  {
  }

  // ------------------------------------------------------------------ what the hardware really does

  /** The SSA sends frames of entry i to its routine. */
  predicate Active(ssa: word, i: nat) {
    ssa & SW_PRS_EN != 0 && ssa & SW_LABEL == Label(i)
  }

  lemma EnabledIsActive(ssa: word, i: nat)
    ensures Active(Enabled(ssa, Label(i)), i)
  {
  }

  /** Whether entry i of a row works once the row matches the mask and no store failed on the way. */
  predicate WorksAfter(h: Hxs, i: nat, mask: word)
    requires HxsOk(h) && i < NHXS
  {
    var now := h.regs[HxsSlot(i)];
    if Wants(mask, i) then !h.attached[i] || Active(now, i)
    else Active(if h.attached[i] then h.saved[i] else now, i)
  }

  lemma ToggleWorks(h: Hxs, i: nat, mask: word, hw: SsaHw)
    requires HxsOk(h) && i < NHXS && SsaLands(h, i, mask, hw)
    ensures Active(Toggle(h, i, mask, hw).regs[HxsSlot(i)], i) <==> WorksAfter(h, i, mask)
  {
    hide Enabled, Wants, Active;
    EnabledIsActive(h.regs[HxsSlot(i)], i);
  }

  /** The SSA row a call found and the one it leaves. */
  lemma RowAfter(s: State, fm: nat, id: nat, mask: word, hw: Hw)
    requires Inv(s) && FaultFree(s, fm, id, mask, hw) && Find(s, fm, id, mask).At?
    ensures |Find(s, fm, id, mask).was| == NHXS && Find(s, fm, id, mask).k < PORTS
    ensures Find(s, fm, id, mask).port == Port(fm, id) && Port(fm, id) in s.ssa
    ensures var p, s', h := Port(fm, id), Set(s, fm, id, mask, hw).0, WorkRow(s, Find(s, fm, id, mask));
            && Inv(s') && p in s'.ssa && s'.ssa[p] == ToggleTo(h, NHXS, mask, hw.hxs).regs
            && forall i :: 0 <= i < NHXS ==> SsaLands(h, i, mask, hw.hxs(i))
  {
    hide CODE, ToggleTo, Wants, PrsWrite, SlotsOk, LandsAs, Any, SsaLands;
    var t := Find(s, fm, id, mask);
    SetKeepsInv(s, fm, id, mask, hw);
    FindIsOk(s, fm, id, mask);
    SetSteps(s, fm, id, mask, hw);
    LoadLands(s, fm, Adds(t.was, mask), hw.load);
    LoadShaped(s, fm, Adds(t.was, mask), hw.load);
    var s1 := Load(s, fm, Adds(t.was, mask), hw.load).0;
    UnloadLands(Arrange(s1, t.k, t.port, t.was, mask, hw.hxs).0, fm, hw.unload);
  }

  /**
   * Convergence of the bookkeeping is not convergence of the SSA. After a fault-free call a wanted
   * HXS works if and only if it was not recorded as attached or its SSA still worked; an unwanted one
   * if and only if the word put back, or the SSA left alone, sends frames to its routine.
   */
  lemma HxsAfterCall(s: State, fm: nat, id: nat, mask: word, hw: Hw, i: nat)
    requires Inv(s) && FaultFree(s, fm, id, mask, hw) && Find(s, fm, id, mask).At? && i < NHXS
    ensures Port(fm, id) in s.ssa && Port(fm, id) in Set(s, fm, id, mask, hw).0.ssa
    ensures |s.ssa[Port(fm, id)]| == |Set(s, fm, id, mask, hw).0.ssa[Port(fm, id)]| == HXS_COUNT
    ensures |Find(s, fm, id, mask).was| == |s.slots[Find(s, fm, id, mask).k].saved| == NHXS
    ensures var t, x := Find(s, fm, id, mask), HxsSlot(i);
            var before, after := s.ssa[Port(fm, id)][x], Set(s, fm, id, mask, hw).0.ssa[Port(fm, id)][x];
            Active(after, i) <==>
              if Wants(mask, i) then !t.was[i] || Active(before, i)
              else Active(if t.was[i] then s.slots[t.k].saved[i] else before, i)
  {
    hide CODE, ToggleTo, Toggle, Wants, SsaLands, Active, Find, FaultFree, Set;
    RowAfter(s, fm, id, mask, hw);
    var h := WorkRow(s, Find(s, fm, id, mask));
    TogglesAreIndependent(h, NHXS, mask, hw.hxs, i);
    ToggleWorks(h, i, mask, hw.hxs(i));
  }

  /**
   * Convergence of the hardware: a fault-free call leaves exactly the mask's HXS working if and only
   * if every wanted one was detached or working before, and no unwanted one comes back or stays
   * active.
   */
  lemma ExactlyTheMaskWorks(s: State, fm: nat, id: nat, mask: word, hw: Hw)
    requires Inv(s) && FaultFree(s, fm, id, mask, hw) && Find(s, fm, id, mask).At?
    ensures Port(fm, id) in s.ssa && Port(fm, id) in Set(s, fm, id, mask, hw).0.ssa
    ensures |s.ssa[Port(fm, id)]| == |Set(s, fm, id, mask, hw).0.ssa[Port(fm, id)]| == HXS_COUNT
    ensures |Find(s, fm, id, mask).was| == |s.slots[Find(s, fm, id, mask).k].saved| == NHXS
    ensures var t, row := Find(s, fm, id, mask), s.ssa[Port(fm, id)];
            var row' := Set(s, fm, id, mask, hw).0.ssa[Port(fm, id)];
            (forall i :: 0 <= i < NHXS ==> (Active(row'[HxsSlot(i)], i) <==> Wants(mask, i))) <==>
              forall i :: 0 <= i < NHXS ==>
                if Wants(mask, i) then t.was[i] ==> Active(row[HxsSlot(i)], i)
                else !Active(if t.was[i] then s.slots[t.k].saved[i] else row[HxsSlot(i)], i)
  {
    hide CODE, Wants, Active, Find, FaultFree, Set, Inv;
    HxsAfterCall(s, fm, id, mask, hw, 0);
    HxsAfterCall(s, fm, id, mask, hw, 1);
    HxsAfterCall(s, fm, id, mask, hw, 2);
  }

  // ------------------------------------------------------------------ residency as the hardware sees it

  /** Whatever an SSA would jump to is there. */
  ghost predicate JumpsAreSafe(s: State)
    requires Shaped(s)
  {
    forall p, i :: p in s.ssa && 0 <= i < NHXS && Active(s.ssa[p][HxsSlot(i)], i) ==>
      p.fm in s.mem && s.mem[p.fm] == CODE
  }

  /** No original SSA sends frames to the program. */
  ghost predicate NothingActive(orig: map<Port, seq<word>>) {
    forall p, i :: p in orig && |orig[p]| == HXS_COUNT && 0 <= i < NHXS ==> !Active(orig[p][HxsSlot(i)], i)
  }

  /**
   * Residency in hardware terms: over every run in which no failed attach or load spoils an original
   * word, each SSA that sends frames to the program is one of an FMan that holds it.
   */
  lemma ActiveSsasFindTheirCode(s: State, calls: seq<Call>)
    requires Initial(s) && Inv(s) && Unspoiled(s, calls) && NothingActive(s.ssa)
    ensures JumpsAreSafe(Run(s, calls))
  {
    RunKeepsOriginals(s, calls);
    var r := Run(s, calls);
    hide CODE, Run, Active, RowOk, CodeOk, Unspoiled, Initial;
    UsersIsZero(r.slots);
  }

  /** s2 differs from s in nothing but slot k, port p and FMan fm's parser words and bookkeeping. */
  ghost predicate OnlyHere(s: State, s2: State, k: nat, p: Port, fm: nat)
    requires Shaped(s) && Shaped(s2)
  {
    && (forall j :: 0 <= j < PORTS && j != k ==> s2.slots[j] == s.slots[j])
    && s2.ssa.Keys == s.ssa.Keys && s2.mem.Keys == s.mem.Keys
    && (forall q :: q in s.ssa && q != p ==> s2.ssa[q] == s.ssa[q])
    && (forall f :: f in s.mem && f != fm ==> s2.mem[f] == s.mem[f])
  }

  lemma LoadHere(s: State, fm: nat, adds: bool, hw: WriteHw, k: nat, p: Port)
    requires Inv(s) && fm in s.mem
    ensures var s1 := Load(s, fm, adds, hw).0; Shaped(s1) && OnlyHere(s, s1, k, p, fm)
  {
    LoadShaped(s, fm, adds, hw);
    hide CODE, PrsWrite, SlotsOk, Shaped;
  }

  lemma ArrangeHere(s: State, k: nat, p: Port, was: seq<bool>, mask: word, hw: nat -> SsaHw)
    requires Shaped(s) && k < PORTS && p in s.ssa && |was| == NHXS
    requires Shaped(Arrange(s, k, p, was, mask, hw).0)
    ensures OnlyHere(s, Arrange(s, k, p, was, mask, hw).0, k, p, p.fm)
    ensures Arrange(s, k, p, was, mask, hw).0.prev == s.prev
  {
    hide ToggleTo, Any;
  }

  lemma UnloadHere(s: State, fm: nat, hw: WriteHw, k: nat, p: Port)
    requires Shaped(s) && fm in s.mem && Shaped(Unload(s, fm, hw))
    ensures OnlyHere(s, Unload(s, fm, hw), k, p, fm) && Unload(s, fm, hw).prev == s.prev
  {
    hide PrsWrite;
  }

  lemma HereTwice(s: State, s1: State, s2: State, k: nat, p: Port, fm: nat)
    requires Shaped(s) && Shaped(s1) && Shaped(s2) && OnlyHere(s, s1, k, p, fm) && OnlyHere(s1, s2, k, p, fm)
    ensures OnlyHere(s, s2, k, p, fm)
  {
    hide Shaped;
  }

  /** A call works on one slot and one port only. */
  lemma OneSlot(s: State, fm: nat, id: nat, mask: word, hw: Hw)
    requires Inv(s) && Find(s, fm, id, mask).At?
    ensures var t, s' := Find(s, fm, id, mask), Set(s, fm, id, mask, hw).0;
            && t.k < PORTS && Inv(s') && fm in s.mem && |t.was| == NHXS
            && OnlyHere(s, s', t.k, Port(fm, id), fm)
            && s'.prev == Load(s, fm, Adds(t.was, mask), hw.load).0.prev
  {
    hide CODE, ToggleTo, SlotsOk, Find, Adds, Load, Arrange, Unload, OnlyHere, Set;
    SetKeepsInv(s, fm, id, mask, hw);
    FindIsOk(s, fm, id, mask);
    SetSteps(s, fm, id, mask, hw);
    var t := Find(s, fm, id, mask);
    LoadHere(s, fm, Adds(t.was, mask), hw.load, t.k, t.port);
    var (s1, ret1) := Load(s, fm, Adds(t.was, mask), hw.load);
    if ret1 == 0 {
      var s2 := Arrange(s1, t.k, t.port, t.was, mask, hw.hxs).0;
      ArrangeHere(s1, t.k, t.port, t.was, mask, hw.hxs);
      UnloadHere(s2, fm, hw.unload, t.k, t.port);
      HereTwice(s, s1, s2, t.k, t.port, fm);
      HereTwice(s, s2, Unload(s2, fm, hw.unload), t.k, t.port, fm);
    }
  }

  /**
   * A failed disarm that corrupts the SSA is never repaired: it stays recorded as attached, and
   * a fault-free call that wants the HXS again returns 0 with the HXS still not working.
   */
  lemma FailedDisarmSticks(s: State, fm: nat, id: nat, mask: word, hw: Hw, again: word, hw2: Hw, i: nat)
    requires Inv(s) && Find(s, fm, id, mask).At? && i < NHXS
    requires Find(s, fm, id, mask).k < PORTS && s.slots[Find(s, fm, id, mask).k].attached[i]
    requires s.users > 0 && !Wants(mask, i) && s.slots[Find(s, fm, id, mask).k].port.Some?
    requires hw.hxs(i).wrote != s.slots[Find(s, fm, id, mask).k].saved[i] && !Active(hw.hxs(i).wrote, i)
    requires Wants(again, i) && Inv(Set(s, fm, id, mask, hw).0)
    requires MaskOk(again) && FaultFree(Set(s, fm, id, mask, hw).0, fm, id, again, hw2)
    ensures var s1 := Set(s, fm, id, mask, hw).0;
            var (s2, ret) := Set(s1, fm, id, again, hw2);
            && ret == 0 && Inv(s2) && Port(fm, id) in s2.ssa && |s2.ssa[Port(fm, id)]| == HXS_COUNT
            && !Active(s2.ssa[Port(fm, id)][HxsSlot(i)], i)
  {
    hide CODE, ToggleTo, Wants, PrsWrite, SlotsOk, Active, Enabled, LandsAs, SsaLands, Load, FaultFree;
    var s1 := DisarmFails(s, fm, id, mask, hw, i);
    Reached(s1, fm, id, again, i);
    FaultFreeCallConverges(s1, fm, id, again, hw2);
    HxsAfterCall(s1, fm, id, again, hw2, i);
  }

  lemma DisarmFails(s: State, fm: nat, id: nat, mask: word, hw: Hw, i: nat) returns (s1: State)
    requires Inv(s) && Find(s, fm, id, mask).At? && i < NHXS
    requires Find(s, fm, id, mask).k < PORTS && s.slots[Find(s, fm, id, mask).k].attached[i]
    requires s.users > 0 && !Wants(mask, i) && s.slots[Find(s, fm, id, mask).k].port.Some?
    requires hw.hxs(i).wrote != s.slots[Find(s, fm, id, mask).k].saved[i]
    ensures s1 == Set(s, fm, id, mask, hw).0 && Inv(s1) && fm in s1.mem && s1.owner == Some(fm)
    ensures var k := Find(s, fm, id, mask).k; s1.slots[k].attached[i] && s1.slots[k].port == Some(Port(fm, id)) && s1.slots[k].id == id
    ensures Port(fm, id) in s1.ssa && s1.ssa[Port(fm, id)][HxsSlot(i)] == hw.hxs(i).wrote
  {
    hide CODE, ToggleTo, Wants, PrsWrite, Enabled;
    s1 := Set(s, fm, id, mask, hw).0;
    var t := Find(s, fm, id, mask);
    SetKeepsInv(s, fm, id, mask, hw);
    FindIsOk(s, fm, id, mask);
    SetSteps(s, fm, id, mask, hw);
    LoadKeeps(s, fm, Adds(t.was, mask), hw.load);
    var h := Hxs(t.was, s.slots[t.k].saved, s.ssa[t.port], 0);
    TogglesAreIndependent(h, NHXS, mask, hw.hxs, i);
    var h2 := ToggleTo(h, NHXS, mask, hw.hxs);
    assert h2.attached[i] && h2.regs[HxsSlot(i)] == hw.hxs(i).wrote;
    assert Any(h2.attached) && Any(t.was);
    UsersIsZero(s1.slots);
  }

  /** The call after it finds the same slot again, with entry i recorded as attached. */
  lemma Reached(s1: State, fm: nat, id: nat, again: word, i: nat)
    requires Inv(s1) && fm in s1.mem && s1.owner == Some(fm) && MaskOk(again) && i < NHXS
    requires exists k :: 0 <= k < PORTS && s1.slots[k].attached[i] && s1.slots[k].port == Some(Port(fm, id)) && s1.slots[k].id == id
    ensures Find(s1, fm, id, again).At? && |Find(s1, fm, id, again).was| == NHXS && Find(s1, fm, id, again).was[i]
  {
    hide CODE;
    var k :| 0 <= k < PORTS && s1.slots[k].attached[i] && s1.slots[k].port == Some(Port(fm, id)) && s1.slots[k].id == id;
    assert Holds(s1.slots[k], id);
    FindIsOk(s1, fm, id, again);
  }

  // ------------------------------------------------------------------ losing the originals

  /** A call for TCP control punting whose code stores land but whose PEN write does not read back. */
  lemma PenMismatch(s: State, fm: nat, id: nat, hw: Hw) returns (s1: State)
    requires Inv(s) && s.users == 0 && !s.loaded && Find(s, fm, id, 1).At? && fm in s.mem
    requires Idle(hw.load) && Words(hw.load.wrote) == CODE && !hw.load.penBack
    ensures Set(s, fm, id, 1, hw) == (s1, EIO) && Inv(s1)
    ensures s1.users == 0 && !s1.loaded && s1.slots == s.slots && s1.ssa == s.ssa && s1.mem.Keys == s.mem.Keys
    ensures s1.mem[fm] == CODE
  {
    hide CODE, Arrange, Unload, SlotsOk;
    SetKeepsInv(s, fm, id, 1, hw);
    SetSteps(s, fm, id, 1, hw);
    s1 := Set(s, fm, id, 1, hw).0;
  }

  lemma SamePlace(s: State, s1: State, fm: nat, id: nat, mask: word)
    requires Inv(s) && Inv(s1) && s1.slots == s.slots && s1.ssa == s.ssa && s1.mem.Keys == s.mem.Keys
    requires s1.owner == s.owner
    ensures Find(s1, fm, id, mask) == Find(s, fm, id, mask)
  {
  }

  /**
   * The original words can be lost: after that failure a fault-free arm saves the program itself
   * as the words to restore, and the last disarm, which returns 0, puts the program back.
   */
  lemma OriginalsCanBeLost(s: State, fm: nat, id: nat, hw1: Hw, hw2: Hw, hw3: Hw)
      returns (s1: State, s2: State, s3: State)
    requires Inv(s) && s.users == 0 && !s.loaded && Find(s, fm, id, 1).At? && fm in s.mem
    requires Idle(hw1.load) && Words(hw1.load.wrote) == CODE && !hw1.load.penBack
    requires Inv(Set(s, fm, id, 1, hw1).0) && FaultFree(Set(s, fm, id, 1, hw1).0, fm, id, 1, hw2)
    requires var b := Set(Set(s, fm, id, 1, hw1).0, fm, id, 1, hw2).0; Inv(b) && FaultFree(b, fm, id, 0, hw3)
    ensures Inv(s1) && Inv(s2)
    ensures Set(s, fm, id, 1, hw1) == (s1, EIO) && Set(s1, fm, id, 1, hw2) == (s2, 0)
    ensures Set(s2, fm, id, 0, hw3) == (s3, 0)
    ensures s3.owner.None? && fm in s3.mem && s3.mem[fm] == CODE
  {
    hide CODE, Set, Find, FaultFree, Inv, Load, Users;
    s1 := PenMismatch(s, fm, id, hw1);
    NotLoaded(s);
    NotLoaded(s1);
    SamePlace(s, s1, fm, id, 1);
    FindIsOk(s1, fm, id, 1);
    FaultFreeLoads(s1, fm, id, 1, hw2);
    FaultFreeCallConverges(s1, fm, id, 1, hw2);
    OneSlot(s1, fm, id, 1, hw2);
    s2 := Set(s1, fm, id, 1, hw2).0;
    FirstLoadSaves(s1, fm, Adds(Find(s1, fm, id, 1).was, 1), hw2.load);
    var k := Find(s1, fm, id, 1).k;
    SlotCount(s2);
    OnlyUser(s2, fm, id, k, s1.slots);
    FindIsOk(s2, fm, id, 0);
    FaultFreeCallConverges(s2, fm, id, 0, hw3);
    OneSlot(s2, fm, id, 0, hw3);
    s3 := Set(s2, fm, id, 0, hw3).0;
    LaterLoadKeeps(s2, fm, Adds(Find(s2, fm, id, 0).was, 0), hw3.load);
    SlotCount(s3);
    NoUsersLeft(s3, k, s2.slots);
  }

  lemma SlotCount(s: State)
    requires Inv(s)
    ensures |s.slots| == PORTS
  {
  }

  lemma FaultFreeLoads(s: State, fm: nat, id: nat, mask: word, hw: Hw)
    requires Inv(s) && FaultFree(s, fm, id, mask, hw) && Find(s, fm, id, mask).At? && s.users == 0
    ensures Idle(hw.load)
  {
    hide CODE, Find, Inv, Load, SsaLands;
  }

  lemma NotLoaded(s: State)
    requires Inv(s) && !s.loaded
    ensures s.owner.None? && |s.slots| == PORTS && forall k :: 0 <= k < PORTS ==> s.slots[k].port.None?
  {
    hide CODE;
  }

  lemma FirstLoadSaves(s: State, fm: nat, adds: bool, hw: WriteHw)
    requires Inv(s) && fm in s.mem && s.users == 0 && !s.loaded && Idle(hw)
    ensures Load(s, fm, adds, hw).0.prev == s.mem[fm]
  {
    hide CODE;
  }

  lemma LaterLoadKeeps(s: State, fm: nat, adds: bool, hw: WriteHw)
    requires Inv(s) && fm in s.mem && s.loaded
    ensures Load(s, fm, adds, hw).0.prev == s.prev
  {
    hide CODE;
  }

  lemma OnlyUser(s: State, fm: nat, id: nat, k: nat, before: seq<Slot>)
    requires Inv(s) && k < PORTS && |before| == PORTS && (forall j :: 0 <= j < PORTS ==> before[j].port.None?)
    requires |s.slots| == PORTS && s.slots[k].port == Some(Port(fm, id)) && forall j :: 0 <= j < PORTS && j != k ==> s.slots[j] == before[j]
    ensures Find(s, fm, id, 0) == At(k, Port(fm, id), s.slots[k].attached) && s.loaded && fm in s.mem && s.users > 0
  {
    hide CODE;
    assert Holds(s.slots[k], id);
    UsersIsZero(s.slots);
  }

  lemma NoUsersLeft(s: State, k: nat, before: seq<Slot>)
    requires Inv(s) && k < PORTS && |s.slots| == |before| == PORTS && s.slots[k].port.None?
    requires (forall j :: 0 <= j < PORTS && j != k ==> s.slots[j] == before[j] && before[j].port.None?)
    ensures s.users == 0
  {
    hide CODE;
    UsersIsZero(s.slots);
  }

  // ------------------------------------------------------------------ only two fields

  predicate EntryExact(h: Hxs, o: seq<word>, i: nat)
    requires HxsOk(h) && |o| == HXS_COUNT && i < NHXS
  {
    var x := HxsSlot(i);
    if h.attached[i] then h.saved[i] == o[x] && h.regs[x] == Enabled(o[x], Label(i)) else h.regs[x] == o[x]
  }

  lemma ToggleExact(h: Hxs, mask: word, hw: nat -> SsaHw, o: seq<word>, i: nat)
    requires HxsOk(h) && |o| == HXS_COUNT && i < NHXS && EntryExact(h, o, i) && SsaLands(h, i, mask, hw(i))
    ensures EntryExact(ToggleTo(h, NHXS, mask, hw), o, i)
  {
    hide Enabled, Wants, ToggleTo;
    TogglesAreIndependent(h, NHXS, mask, hw, i);
  }

  /**
   * While stores land, each SSA of an attached HXS is the original one with only the enable bit
   * and the label changed, and every other SSA is the original one.
   */
  lemma OnlyEnableAndLabelChange(h: Hxs, mask: word, hw: nat -> SsaHw, o: seq<word>)
    requires HxsOk(h) && |o| == HXS_COUNT && SameRest(h, Hxs(h.attached, h.saved, o, 0))
    requires forall i :: 0 <= i < NHXS ==> EntryExact(h, o, i) && SsaLands(h, i, mask, hw(i))
    ensures var r := ToggleTo(h, NHXS, mask, hw);
            && (forall i :: 0 <= i < NHXS ==> EntryExact(r, o, i))
            && forall x :: 0 <= x < HXS_COUNT ==> KeptBits(r.regs[x]) == KeptBits(o[x])
  {
    hide Wants, ToggleTo, Enabled, SsaLands, EntryExact;
    var r := ToggleTo(h, NHXS, mask, hw);
    forall i | 0 <= i < NHXS ensures EntryExact(r, o, i) {
      ToggleExact(h, mask, hw, o, i);
    }
    TogglesAreIndependent(h, NHXS, mask, hw, 0);
    ExactKeeps(r, o, 0);
    ExactKeeps(r, o, 1);
    ExactKeeps(r, o, 2);
    forall x | 0 <= x < HXS_COUNT ensures KeptBits(r.regs[x]) == KeptBits(o[x]) {
    }
  }

  /** The bits of an SSA other than SW_PRS_EN and SW_LABEL. */
  function KeptBits(ssa: word): word {
    ssa & !(SW_PRS_EN | SW_LABEL)
  }

  lemma ExactKeeps(h: Hxs, o: seq<word>, i: nat)
    requires HxsOk(h) && |o| == HXS_COUNT && i < NHXS && EntryExact(h, o, i)
    ensures KeptBits(h.regs[HxsSlot(i)]) == KeptBits(o[HxsSlot(i)])
  {
  }
}
