/**
 * What the punt loader gives back: the parser words and SSAs from before the first arm, over any
 * run of calls; exactly which hardware failures lose them; and when calls converge.
 */
module PuntRuns {
  import opened Kernel
  import opened Options
  import opened Punt

  // ------------------------------------------------------------------ parser words

  /** The original words are in the parser, or saved while the program is loaded. */
  ghost predicate CodeOk(s: State, orig: map<nat, seq<word>>) {
    && orig.Keys == s.mem.Keys
    && forall fm :: fm in s.mem ==> if s.owner == Some(fm) then s.prev == orig[fm] else s.mem[fm] == orig[fm]
  }

  /**
   * The first load of an unloaded program that goes wrong for good: bad stores whose undoing does
   * not bring the old words back, or good stores reported as failed because PEN did not read back.
   */
  ghost predicate Spoils(s: State, fm: nat, id: nat, mask: word, hw: Hw)
    requires Inv(s)
  {
    && Find(s, fm, id, mask).At? && fm in s.mem
    && s.users == 0 && !s.loaded && Idle(hw.load)
    && if Words(hw.load.wrote) != CODE then Words(hw.load.undone) != s.mem[fm]
       else !hw.load.penBack && CODE != s.mem[fm]
  }

  lemma LoadOriginals(s: State, fm: nat, adds: bool, hw: WriteHw, orig: map<nat, seq<word>>)
    requires Inv(s) && fm in s.mem && (s.owner.Some? ==> s.owner == Some(fm)) && CodeOk(s, orig)
    ensures CodeOk(Load(s, fm, adds, hw).0, orig) <==>
            !(s.users == 0 && !s.loaded && Idle(hw)
              && if Words(hw.wrote) != CODE then Words(hw.undone) != s.mem[fm] else !hw.penBack && CODE != s.mem[fm])
    ensures Load(s, fm, adds, hw).1 == 0 ==> CodeOk(Load(s, fm, adds, hw).0, orig)
  {
    hide CODE, Idle, Words, SlotsOk;
    LoadKeeps(s, fm, adds, hw);
  }

  lemma UnloadOriginals(s: State, fm: nat, hw: WriteHw, orig: map<nat, seq<word>>)
    requires Inv(s) && s.owner == Some(fm) && CodeOk(s, orig)
    ensures CodeOk(Unload(s, fm, hw), orig)
  {
    hide CODE, Idle, Words, SlotsOk;
  }

  /** A call keeps the original parser words within reach exactly when it does not spoil them. */
  lemma SetKeepsCode(s: State, fm: nat, id: nat, mask: word, hw: Hw, orig: map<nat, seq<word>>)
    requires Inv(s) && CodeOk(s, orig)
    ensures CodeOk(Set(s, fm, id, mask, hw).0, orig) <==> !Spoils(s, fm, id, mask, hw)
  {
    hide CODE, Idle, Words, SlotsOk, Load, Unload, PrsWrite, Adds, ToggleTo, Find;
    var t := Find(s, fm, id, mask);
    if t.At? {
      FindIsOk(s, fm, id, mask);
      SetSteps(s, fm, id, mask, hw);
      LoadOriginals(s, fm, Adds(t.was, mask), hw.load, orig);
      var (s1, ret1) := Load(s, fm, Adds(t.was, mask), hw.load);
      if ret1 == 0 {
        var s2 := Arrange(s1, t.k, t.port, t.was, mask, hw.hxs).0;
        UnloadOriginals(s2, fm, hw.unload, orig);
      }
    }
  }

  // ------------------------------------------------------------------ soft-sequence attachments

  /** Entry i is consistent with the original SSA row o: saved while attached, in place otherwise. */
  predicate EntryOk(h: Hxs, o: seq<word>, i: nat)
    requires HxsOk(h) && |o| == HXS_COUNT && i < NHXS
  {
    if h.attached[i] then h.saved[i] == o[HxsSlot(i)] else h.regs[HxsSlot(i)] == o[HxsSlot(i)]
  }

  predicate RowOk(h: Hxs, o: seq<word>)
    requires HxsOk(h) && |o| == HXS_COUNT
  {
    && (forall i :: 0 <= i < NHXS ==> EntryOk(h, o, i))
    && (forall x :: 0 <= x < HXS_COUNT && x != 10 && x != 5 && x != 6 ==> h.regs[x] == o[x])
  }

  /** A failed attach whose restoring store does not bring the old SSA back. */
  predicate SpoilsAt(h: Hxs, i: nat, mask: word, hw: SsaHw)
    requires HxsOk(h) && i < NHXS
  {
    && Wants(mask, i) && !h.attached[i]
    && hw.wrote != Enabled(h.regs[HxsSlot(i)], Label(i)) && hw.undone != h.regs[HxsSlot(i)]
  }

  /** h and g agree on entry i. */
  predicate SameEntry(h: Hxs, g: Hxs, i: nat)
    requires HxsOk(h) && HxsOk(g) && i < NHXS
  {
    h.attached[i] == g.attached[i] && h.saved[i] == g.saved[i] && h.regs[HxsSlot(i)] == g.regs[HxsSlot(i)]
  }

  predicate SameRest(h: Hxs, g: Hxs)
    requires HxsOk(h) && HxsOk(g)
  {
    forall x :: 0 <= x < HXS_COUNT && x != 10 && x != 5 && x != 6 ==> h.regs[x] == g.regs[x]
  }

  lemma ToggleIsLocal(h: Hxs, g: Hxs, i: nat, mask: word, hw: SsaHw)
    requires HxsOk(h) && HxsOk(g) && i < NHXS && SameEntry(h, g, i)
    ensures SameEntry(Toggle(h, i, mask, hw), Toggle(g, i, mask, hw), i)
    ensures forall j :: 0 <= j < NHXS && j != i ==> SameEntry(Toggle(h, i, mask, hw), h, j)
    ensures SameRest(Toggle(h, i, mask, hw), h)
  {
    hide Enabled, Wants;
  }

  /** Each entry of the loop works on its own bit, saved word and SSA. */
  lemma {:induction false} TogglesAreIndependent(h: Hxs, k: nat, mask: word, hw: nat -> SsaHw, i: nat)
    requires HxsOk(h) && k <= NHXS && i < NHXS
    ensures SameEntry(ToggleTo(h, k, mask, hw), if i < k then Toggle(h, i, mask, hw(i)) else h, i)
    ensures SameRest(ToggleTo(h, k, mask, hw), h)
  {
    hide Toggle, Enabled, Wants;
    if k > 0 {
      TogglesAreIndependent(h, k - 1, mask, hw, i);
      TogglesAreIndependent(h, k - 1, mask, hw, k - 1);
      var g := ToggleTo(h, k - 1, mask, hw);
      ToggleIsLocal(g, h, k - 1, mask, hw(k - 1));
      if i != k - 1 {
        assert SameEntry(Toggle(g, k - 1, mask, hw(k - 1)), g, i);
      }
    }
  }

  lemma ToggleRow(h: Hxs, mask: word, hw: nat -> SsaHw, o: seq<word>)
    requires HxsOk(h) && |o| == HXS_COUNT && RowOk(h, o)
    ensures RowOk(ToggleTo(h, NHXS, mask, hw), o) <==> forall i :: 0 <= i < NHXS ==> !SpoilsAt(h, i, mask, hw(i))
  {
    hide Enabled, Wants, ToggleTo;
    var r := ToggleTo(h, NHXS, mask, hw);
    forall i | 0 <= i < NHXS ensures EntryOk(r, o, i) <==> !SpoilsAt(h, i, mask, hw(i)) {
      TogglesAreIndependent(h, NHXS, mask, hw, i);
      assert EntryOk(h, o, i);
    }
    TogglesAreIndependent(h, NHXS, mask, hw, 0);
  }

  function RowOf(s: State, k: nat): (h: Hxs)
    requires Shaped(s) && k < PORTS && s.slots[k].port.Some?
    ensures HxsOk(h)
  {
    Hxs(s.slots[k].attached, s.slots[k].saved, s.ssa[s.slots[k].port.value], 0)
  }

  ghost predicate Unregistered(s: State, p: Port) {
    forall k :: 0 <= k < |s.slots| ==> s.slots[k].port != Some(p)
  }

  /** Every SSA is the original one, except attached ones, whose original is saved. */
  ghost predicate SsaOk(s: State, orig: map<Port, seq<word>>)
    requires Shaped(s)
  {
    && orig.Keys == s.ssa.Keys
    && (forall p :: p in orig ==> |orig[p]| == HXS_COUNT)
    && (forall p :: p in s.ssa && Unregistered(s, p) ==> s.ssa[p] == orig[p])
    && (forall k :: 0 <= k < PORTS && s.slots[k].port.Some? ==> RowOk(RowOf(s, k), orig[s.slots[k].port.value]))
  }

  /** The SSA row a call works on. */
  function WorkRow(s: State, t: Target): (h: Hxs)
    requires Shaped(s) && t.At? && t.k < PORTS && t.port in s.ssa && |t.was| == NHXS
    ensures HxsOk(h)
  {
    Hxs(t.was, s.slots[t.k].saved, s.ssa[t.port], 0)
  }

  ghost predicate SpoilsSsa(s: State, fm: nat, id: nat, mask: word, hw: Hw)
    requires Inv(s)
  {
    var t := Find(s, fm, id, mask);
    FindIsOk(s, fm, id, mask);
    && t.At?
    && Load(s, fm, Adds(t.was, mask), hw.load).1 == 0
    && exists i :: 0 <= i < NHXS && SpoilsAt(WorkRow(s, t), i, mask, hw.hxs(i))
  }

  /** The row of a slot that is about to be worked on is consistent with the originals. */
  lemma WorkRowOk(s: State, k: nat, p: Port, was: seq<bool>, orig: map<Port, seq<word>>)
    requires Inv(s) && Fits(s, k, p, was) && SsaOk(s, orig)
    ensures RowOk(Hxs(was, s.slots[k].saved, s.ssa[p], 0), orig[p])
  {
    if s.slots[k].port.None? {
      assert Unregistered(s, p);
    }
  }

  lemma ArrangeOriginals(s: State, k: nat, p: Port, was: seq<bool>, mask: word, hw: nat -> SsaHw,
                         orig: map<Port, seq<word>>)
    requires Inv(s) && Fits(s, k, p, was) && SsaOk(s, orig) && s.mem[p.fm] == CODE
    ensures var s2 := Arrange(s, k, p, was, mask, hw).0;
            && Inv(s2)
            && (SsaOk(s2, orig) <==> forall i :: 0 <= i < NHXS ==> !SpoilsAt(Hxs(was, s.slots[k].saved, s.ssa[p], 0), i, mask, hw(i)))
  {
    hide CODE, Enabled, Wants, Toggle, ToggleTo, SpoilsAt, EntryOk;
    ArrangeKeeps(s, k, p, was, mask, hw);
    WorkRowOk(s, k, p, was, orig);
    var h := Hxs(was, s.slots[k].saved, s.ssa[p], 0);
    ToggleRow(h, mask, hw, orig[p]);
    ArrangedRows(s, k, p, was, mask, hw, orig);
  }

  /** Only p's row changes. */
  ghost predicate OtherRows(s: State, s2: State, k: nat, p: Port)
    requires Shaped(s) && Shaped(s2) && k < PORTS
  {
    && s2.ssa.Keys == s.ssa.Keys
    && (forall q :: q in s.ssa && q != p ==> s2.ssa[q] == s.ssa[q] && (Unregistered(s2, q) <==> Unregistered(s, q)))
    && (forall j :: 0 <= j < PORTS && j != k ==> s2.slots[j] == s.slots[j] && s2.slots[j].port != Some(p))
    && (s2.slots[k].port.Some? ==> s2.slots[k].port == Some(p))
  }

  lemma ArrangeOthers(s: State, k: nat, p: Port, was: seq<bool>, mask: word, hw: nat -> SsaHw)
    requires Inv(s) && Fits(s, k, p, was) && Inv(Arrange(s, k, p, was, mask, hw).0)
    ensures OtherRows(s, Arrange(s, k, p, was, mask, hw).0, k, p)
  {
    hide CODE, ToggleTo, Any;
    var s2 := Arrange(s, k, p, was, mask, hw).0;
    forall q | q in s.ssa && q != p ensures Unregistered(s2, q) <==> Unregistered(s, q) {
      assert s.slots[k].port != Some(q) && s2.slots[k].port != Some(q);
      assert forall j :: 0 <= j < PORTS && j != k ==> s2.slots[j] == s.slots[j];
    }
  }

  lemma RestKept(s: State, s2: State, k: nat, p: Port, orig: map<Port, seq<word>>)
    requires Shaped(s) && Shaped(s2) && k < PORTS && OtherRows(s, s2, k, p) && SsaOk(s, orig) && p in s.ssa
    ensures SsaOk(s2, orig) <==>
              && (s2.slots[k].port.None? ==> s2.ssa[p] == orig[p])
              && (s2.slots[k].port.Some? ==> RowOk(RowOf(s2, k), orig[p]))
  {
    hide RowOk;
    forall j | 0 <= j < PORTS && j != k && s2.slots[j].port.Some? ensures RowOf(s2, j) == RowOf(s, j) {
    }
    if s2.slots[k].port.None? {
      assert Unregistered(s2, p);
    } else {
      assert s2.slots[k].port == Some(p);
    }
  }

  /** With nothing attached, a consistent row is the original row. */
  lemma DetachedRow(h: Hxs, o: seq<word>)
    requires HxsOk(h) && |o| == HXS_COUNT && !Any(h.attached)
    ensures RowOk(h, o) <==> h.regs == o
  {
    if RowOk(h, o) {
      assert EntryOk(h, o, 0) && EntryOk(h, o, 1) && EntryOk(h, o, 2);
    }
  }

  lemma SameRow(h: Hxs, g: Hxs, o: seq<word>)
    requires HxsOk(h) && HxsOk(g) && |o| == HXS_COUNT
    requires h.attached == g.attached && h.saved == g.saved && h.regs == g.regs
    ensures RowOk(h, o) <==> RowOk(g, o)
  {
    forall i | 0 <= i < NHXS ensures EntryOk(h, o, i) <==> EntryOk(g, o, i) {
    }
  }

  lemma ArrangedRows(s: State, k: nat, p: Port, was: seq<bool>, mask: word, hw: nat -> SsaHw,
                     orig: map<Port, seq<word>>)
    requires Inv(s) && Fits(s, k, p, was) && SsaOk(s, orig)
    requires Inv(Arrange(s, k, p, was, mask, hw).0)
    ensures var s2, h2 := Arrange(s, k, p, was, mask, hw).0, ToggleTo(Hxs(was, s.slots[k].saved, s.ssa[p], 0), NHXS, mask, hw);
            SsaOk(s2, orig) <==> RowOk(h2, orig[p])
  {
    hide CODE, ToggleTo, RowOk, SsaOk, OtherRows;
    SsaSizes(s, orig);
    var s2, h2 := Arrange(s, k, p, was, mask, hw).0, ToggleTo(Hxs(was, s.slots[k].saved, s.ssa[p], 0), NHXS, mask, hw);
    ArrangeOthers(s, k, p, was, mask, hw);
    RestKept(s, s2, k, p, orig);
    assert s2.ssa[p] == h2.regs;
    if s2.slots[k].port.None? {
      DetachedRow(h2, orig[p]);
    } else {
      SameRow(RowOf(s2, k), h2, orig[p]);
    }
  }

  lemma SsaSizes(s: State, orig: map<Port, seq<word>>)
    requires Shaped(s) && SsaOk(s, orig)
    ensures orig.Keys == s.ssa.Keys && forall p :: p in orig ==> |orig[p]| == HXS_COUNT
  {
  }

  /** A call keeps every original SSA in place or saved exactly when no failed attach spoils one. */
  lemma SetKeepsSsa(s: State, fm: nat, id: nat, mask: word, hw: Hw, orig: map<Port, seq<word>>)
    requires Inv(s) && SsaOk(s, orig)
    ensures Inv(Set(s, fm, id, mask, hw).0)
    ensures SsaOk(Set(s, fm, id, mask, hw).0, orig) <==> !SpoilsSsa(s, fm, id, mask, hw)
  {
    hide CODE, Idle, Words, SlotsOk, PrsWrite, Adds, ToggleTo, SpoilsAt, RowOk, SsaOk, Find, Toggle, Enabled;
    SetKeepsInv(s, fm, id, mask, hw);
    var t := Find(s, fm, id, mask);
    if t.At? {
      FindIsOk(s, fm, id, mask);
      SetSteps(s, fm, id, mask, hw);
      LoadShaped(s, fm, Adds(t.was, mask), hw.load);
      var (s1, ret1) := Load(s, fm, Adds(t.was, mask), hw.load);
      SameSsa(s, s1, orig);
      if ret1 == 0 {
        ArrangeOriginals(s1, t.k, t.port, t.was, mask, hw.hxs, orig);
        var s2 := Arrange(s1, t.k, t.port, t.was, mask, hw.hxs).0;
        SameSsa(s2, Unload(s2, fm, hw.unload), orig);
      }
    }
  }

  lemma SameSsa(s: State, s1: State, orig: map<Port, seq<word>>)
    requires Shaped(s) && Shaped(s1) && s1.slots == s.slots && s1.ssa == s.ssa
    ensures SsaOk(s1, orig) <==> SsaOk(s, orig)
  {
    assert forall k :: 0 <= k < PORTS && s.slots[k].port.Some? ==> RowOf(s1, k) == RowOf(s, k);
    assert forall p :: Unregistered(s1, p) <==> Unregistered(s, p);
  }

  // ------------------------------------------------------------------ runs

  datatype Call = Call(fm: nat, id: nat, mask: word, hw: Hw)

  /** The state after a sequence of calls. */
  function Run(s: State, calls: seq<Call>): (r: State)
    requires Inv(s)
    ensures Inv(r)
  {
    if calls == [] then s
    else
      var c, before := calls[|calls| - 1], Run(s, calls[..|calls| - 1]);
      SetKeepsInv(before, c.fm, c.id, c.mask, c.hw);
      Set(before, c.fm, c.id, c.mask, c.hw).0
  }

  /** A driver that has done nothing yet. */
  ghost predicate Initial(s: State) {
    && Shaped(s) && s.owner.None? && !s.loaded && s.users == 0
    && forall k :: 0 <= k < PORTS ==> s.slots[k].port.None? && !Any(s.slots[k].attached)
  }

  lemma InitialIsOk(s: State)
    requires Initial(s)
    ensures Inv(s) && CodeOk(s, s.mem) && SsaOk(s, s.ssa)
  {
    UsersIsZero(s.slots);
  }

  /** No call of the run spoils a parser word or an SSA for good. */
  ghost predicate Unspoiled(s: State, calls: seq<Call>)
    requires Inv(s)
  {
    forall n :: 0 <= n < |calls| ==>
      var c, at := calls[n], Run(s, calls[..n]);
      !Spoils(at, c.fm, c.id, c.mask, c.hw) && !SpoilsSsa(at, c.fm, c.id, c.mask, c.hw)
  }

  lemma {:induction false} RunKeepsOriginals(s: State, calls: seq<Call>)
    requires Initial(s) && Inv(s) && Unspoiled(s, calls)
    ensures CodeOk(Run(s, calls), s.mem) && SsaOk(Run(s, calls), s.ssa)
  {
    hide Set, Spoils, SpoilsSsa, CodeOk, SsaOk, Inv, Initial;
    if calls == [] {
      InitialIsOk(s);
    } else {
      var front, c := calls[..|calls| - 1], calls[|calls| - 1];
      forall n | 0 <= n < |front| ensures front[n] == calls[n] && front[..n] == calls[..n] {
      }
      assert calls[..|calls| - 1] == front;
      RunKeepsOriginals(s, front);
      SetKeepsCode(Run(s, front), c.fm, c.id, c.mask, c.hw, s.mem);
      SetKeepsSsa(Run(s, front), c.fm, c.id, c.mask, c.hw, s.ssa);
    }
  }

  /**
   * Nothing is lost: after any run without such a failure, the saved words are the original ones
   * whenever the program is loaded, and once it has been unloaded every parser word and every SSA
   * of every port is back, other failures along the way included.
   */
  lemma NothingIsLost(s: State, calls: seq<Call>)
    requires Initial(s) && Inv(s) && Unspoiled(s, calls)
    ensures var r := Run(s, calls);
            && (r.owner.Some? ==> r.owner.value in s.mem && r.prev == s.mem[r.owner.value])
            && (r.owner.None? ==> r.mem == s.mem && r.ssa == s.ssa)
  {
    RunKeepsOriginals(s, calls);
    var r := Run(s, calls);
    hide Run, Unspoiled, CODE, RowOk;
    if r.owner.None? {
      UsersIsZero(r.slots);
      assert forall p :: Unregistered(r, p);
    }
  }
}
