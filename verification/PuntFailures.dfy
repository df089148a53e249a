/** Concrete runs of the punt loader in which a single hardware failure has lasting effects. */
module PuntFailures {
  import opened Kernel
  import opened Options
  import opened Punt
  import opened PuntRuns
  import opened PuntConverge

  /** A write window in which everything works. */
  function Landing(data: seq<word>): (hw: WriteHw)
    ensures |data| == WORDS ==> LandsAs(hw, data)
  {
    var hw := WriteHw(i => false, (i: nat) => if i < |data| then data[i] else 0, i => 0, true);
    assert Idle(hw) by { assert !hw.busy(0); }
    assert |data| == WORDS ==> Words(hw.wrote) == data;
    hw
  }

  /** Hardware on which nothing fails during this call. */
  function Faultless(s: State, fm: nat, id: nat, mask: word): Hw
    requires Inv(s)
  {
    var t := Find(s, fm, id, mask);
    FindIsOk(s, fm, id, mask);
    if t.At? then
      var load, row := Landing(CODE), WorkRow(s, t);
      Hw(load, Landing(Load(s, fm, Adds(t.was, mask), load).0.prev),
         (i: nat) =>
           if i >= NHXS then SsaHw(0, 0)
           else if Wants(mask, i) then SsaHw(Enabled(row.regs[HxsSlot(i)], Label(i)), 0)
           else SsaHw(row.saved[i], 0))
    else Hw(Landing(CODE), Landing(CODE), i => SsaHw(0, 0))
  }

  /** Every call in every state can meet faultless hardware. */
  lemma FaultlessIsFaultFree(s: State, fm: nat, id: nat, mask: word)
    requires Inv(s)
    ensures FaultFree(s, fm, id, mask, Faultless(s, fm, id, mask))
  {
    hide CODE, Idle, Words, Enabled, Wants, SlotsOk;
    CodeLength();
    var t := Find(s, fm, id, mask);
    FindIsOk(s, fm, id, mask);
    if t.At? {
      LoadShaped(s, fm, Adds(t.was, mask), Landing(CODE));
    }
  }

  /** One FMan, one RX port, an untouched driver. */
  function Fresh(words: seq<word>, row: seq<word>): State {
    State(None, 0, false, seq(WORDS, i => 0), seq(PORTS, i => Slot(None, 0, [false, false, false], [0, 0, 0])),
          map[0 := words], map[Port(0, 0) := row])
  }

  lemma FreshIsInitial(words: seq<word>, row: seq<word>)
    requires |words| == WORDS && |row| == HXS_COUNT
    ensures Initial(Fresh(words, row)) && Inv(Fresh(words, row)) && Find(Fresh(words, row), 0, 0, 1).At?
  {
    hide CODE;
    InitialIsOk(Fresh(words, row));
  }

  /** The loss of OriginalsCanBeLost happens from a fresh start, whatever the parser held. */
  lemma OriginalsAreLost(words: seq<word>, row: seq<word>) returns (calls: seq<Call>)
    requires |words| == WORDS && |row| == HXS_COUNT && words != CODE
    ensures Initial(Fresh(words, row)) && Inv(Fresh(words, row))
    ensures var r := Run(Fresh(words, row), calls);
            |calls| == 3 && r.owner.None? && 0 in r.mem && r.mem[0] == CODE != words
  {
    hide CODE, Set, Find, FaultFree, Faultless, Inv, Initial, Fresh, Landing;
    FreshIsInitial(words, row);
    var s := Fresh(words, row);
    FreshParts(words, row);
    CodeLength();
    var good := Landing(CODE);
    var hw1 := Hw(good.(penBack := false), good, i => SsaHw(0, 0));
    StillIdle(good);
    SetKeepsInv(s, 0, 0, 1, hw1);
    var s1 := Set(s, 0, 0, 1, hw1).0;
    var hw2 := Faultless(s1, 0, 0, 1);
    FaultlessIsFaultFree(s1, 0, 0, 1);
    SetKeepsInv(s1, 0, 0, 1, hw2);
    var s2 := Set(s1, 0, 0, 1, hw2).0;
    var hw3 := Faultless(s2, 0, 0, 0);
    FaultlessIsFaultFree(s2, 0, 0, 0);
    var t1, t2, t3 := OriginalsCanBeLost(s, 0, 0, hw1, hw2, hw3);
    calls := [Call(0, 0, 1, hw1), Call(0, 0, 1, hw2), Call(0, 0, 0, hw3)];
    RunOfThree(s, calls[0], calls[1], calls[2]);
  }

  lemma StillIdle(hw: WriteHw)
    requires Idle(hw)
    ensures Idle(hw.(penBack := false))
  {
    var i :| 0 <= i < IDLE_POLLS && !hw.busy(i);
    assert !hw.(penBack := false).busy(i);
  }

  lemma FreshParts(words: seq<word>, row: seq<word>)
    ensures var s := Fresh(words, row); s.users == 0 && !s.loaded && s.mem == map[0 := words] && s.ssa == map[Port(0, 0) := row]
  {
  }

  lemma RunOfThree(s: State, a: Call, b: Call, c: Call)
    requires Inv(s)
    ensures var s1 := Run(s, [a]); var s2 := Run(s, [a, b]);
            && Inv(s1) && s1 == Set(s, a.fm, a.id, a.mask, a.hw).0
            && Inv(s2) && s2 == Set(s1, b.fm, b.id, b.mask, b.hw).0
            && Run(s, [a, b, c]) == Set(s2, c.fm, c.id, c.mask, c.hw).0
  {
    hide Set, Inv;
    assert Run(s, []) == s;
    assert [a][..0] == [] && [a, b][..1] == [a] && [a, b, c][..2] == [a, b];
  }

  /** A value that is not the saved SSA and attaches nothing. */
  function Garbage(saved: word): (g: word)
    ensures g != saved && !Active(g, 0)
  {
    if saved == 0 then 1 else 0
  }

  /**
   * The broken HXS of FailedDisarmSticks is reached from a fresh start: arm, a disarm whose store
   * goes wrong, and a fault-free arm that returns 0 with TCP control punting recorded but not active.
   */
  lemma HxsStaysBroken(words: seq<word>, row: seq<word>) returns (calls: seq<Call>)
    requires |words| == WORDS && |row| == HXS_COUNT
    ensures Initial(Fresh(words, row)) && Inv(Fresh(words, row)) && |calls| == 3
    ensures var s2, c := Run(Fresh(words, row), calls[..2]), calls[2];
            var (s3, ret) := Set(s2, c.fm, c.id, c.mask, c.hw);
            && Wants(c.mask, 0) && ret == 0
            && FaultFree(s2, c.fm, c.id, c.mask, c.hw)
            && Inv(s3) && Port(0, 0) in s3.ssa && |s3.ssa[Port(0, 0)]| == HXS_COUNT && !Active(s3.ssa[Port(0, 0)][HxsSlot(0)], 0)
  {
    hide CODE, Set, Find, FaultFree, Faultless, Inv, Initial, Fresh, Landing, Active, Wants, Load;
    FreshIsInitial(words, row);
    FreshParts(words, row);
    OneWantsTcp();
    var s := Fresh(words, row);
    var hw1 := Faultless(s, 0, 0, 1);
    FaultlessIsFaultFree(s, 0, 0, 1);
    SlotCount(s);
    FaultFreeCallConverges(s, 0, 0, 1, hw1);
    var s1, k := Set(s, 0, 0, 1, hw1).0, Find(s, 0, 0, 1).k;
    SlotCount(s1);
    Registered(s1, k);
    var g := Garbage(s1.slots[k].saved[0]);
    var hw2 := Faultless(s1, 0, 0, 0).(hxs := i => SsaHw(g, 0));
    SetKeepsInv(s1, 0, 0, 0, hw2);
    var s2 := Set(s1, 0, 0, 0, hw2).0;
    var hw3 := Faultless(s2, 0, 0, 1);
    FaultlessIsFaultFree(s2, 0, 0, 1);
    FailedDisarmSticks(s1, 0, 0, 0, hw2, 1, hw3, 0);
    calls := [Call(0, 0, 1, hw1), Call(0, 0, 0, hw2), Call(0, 0, 1, hw3)];
    assert calls[..2] == [calls[0], calls[1]];
    RunOfThree(s, calls[0], calls[1], calls[2]);
  }

  /** What a failed store can leave in an SSA: attached, but not the value written. */
  function Skewed(ssa: word): (w: word)
    ensures w != Enabled(ssa, Label(0)) && Active(w, 0)
  {
    Enabled(ssa, Label(0)) ^ 0x8000_0000
  }

  /**
   * The other half: an attach whose two stores both leave the SSA active fails with the HXS recorded
   * as detached. The program is unloaded although the SSA still jumps to it, and a fault-free call
   * for another feature returns 0 with TCP control punting, which its mask does not want, still active.
   */
  lemma HxsStaysActive(words: seq<word>, row: seq<word>) returns (calls: seq<Call>)
    requires |words| == WORDS && |row| == HXS_COUNT
    ensures Initial(Fresh(words, row)) && Inv(Fresh(words, row)) && |calls| == 2
    ensures var s1, ret := Run(Fresh(words, row), calls[..1]), Set(Fresh(words, row), 0, 0, 1, calls[0].hw).1;
            && ret == EIO && s1.owner.None? && s1.users == 0 && 0 in s1.mem && s1.mem[0] == words
            && Port(0, 0) in s1.ssa && |s1.ssa[Port(0, 0)]| == HXS_COUNT && Active(s1.ssa[Port(0, 0)][HxsSlot(0)], 0)
    ensures var s1, c := Run(Fresh(words, row), calls[..1]), calls[1];
            var (s2, ret) := Set(s1, c.fm, c.id, c.mask, c.hw);
            && FaultFree(s1, c.fm, c.id, c.mask, c.hw) && !Wants(c.mask, 0) && ret == 0
            && Port(0, 0) in s2.ssa && |s2.ssa[Port(0, 0)]| == HXS_COUNT && Active(s2.ssa[Port(0, 0)][HxsSlot(0)], 0)
  {
    hide CODE, Set, Find, FaultFree, Faultless, Inv, Initial, Fresh, Landing, Active, Wants, Load, Skewed;
    FreshIsInitial(words, row);
    var s, w := Fresh(words, row), Skewed(row[HxsSlot(0)]);
    var hw1 := Faultless(s, 0, 0, 1).(hxs := i => SsaHw(w, w));
    var s1 := AttachGoesAstray(words, row, hw1, w);
    OneWantsTcp();
    TwoWantsTtl();
    var hw2 := Faultless(s1, 0, 0, 2);
    FaultlessIsFaultFree(s1, 0, 0, 2);
    FreeSlot(s1);
    FaultFreeCallConverges(s1, 0, 0, 2, hw2);
    HxsAfterCall(s1, 0, 0, 2, hw2, 0);
    calls := [Call(0, 0, 1, hw1), Call(0, 0, 2, hw2)];
    RunOfThree(s, calls[0], calls[1], calls[1]);
    assert calls[..1] == [calls[0]];
  }

  /** The first call of that run. */
  lemma AttachGoesAstray(words: seq<word>, row: seq<word>, hw: Hw, w: word) returns (s1: State)
    requires |words| == WORDS && |row| == HXS_COUNT && w != Enabled(row[HxsSlot(0)], Label(0)) && Active(w, 0)
    requires Inv(Fresh(words, row))
    requires hw == Faultless(Fresh(words, row), 0, 0, 1).(hxs := i => SsaHw(w, w))
    ensures Set(Fresh(words, row), 0, 0, 1, hw) == (s1, EIO) && Inv(s1)
    ensures s1.owner.None? && s1.users == 0 && !s1.loaded && s1.mem == map[0 := words]
    ensures s1.ssa == map[Port(0, 0) := row[HxsSlot(0) := w]]
  {
    hide CODE, Enabled, Active, Wants, Idle, Words, SlotsOk, ToggleTo, Any;
    var s, t := Fresh(words, row), Find(Fresh(words, row), 0, 0, 1);
    CodeLength();
    FreshIsInitial(words, row);
    FindIsOk(s, 0, 0, 1);
    SetSteps(s, 0, 0, 1, hw);
    s1 := Set(s, 0, 0, 1, hw).0;
    var loaded := Load(s, 0, Adds(t.was, 1), hw.load).0;
    TogglesAstray(Hxs(t.was, loaded.slots[t.k].saved, row, 0), hw.hxs, w);
    assert loaded.mem == map[0 := CODE] && loaded.prev == words;
    assert map[0 := CODE][0 := words] == map[0 := words];
  }

  /** Only the first entry is wanted, and its attach fails. */
  lemma TogglesAstray(h: Hxs, hw: nat -> SsaHw, w: word)
    requires HxsOk(h) && h.attached == [false, false, false] && h.ret == 0 && hw(0) == SsaHw(w, w)
    requires w != Enabled(h.regs[HxsSlot(0)], Label(0))
    ensures !Any(h.attached)
    ensures ToggleTo(h, NHXS, 1, hw) == h.(regs := h.regs[HxsSlot(0) := w], ret := EIO)
  {
    hide Enabled, Wants;
    OneWantsTcp();
    OneWantsOnlyTcp();
    assert ToggleTo(h, 1, 1, hw) == h.(regs := h.regs[HxsSlot(0) := w], ret := EIO);
    assert ToggleTo(h, 2, 1, hw) == ToggleTo(h, 1, 1, hw);
  }

  lemma OneWantsOnlyTcp()
    ensures !Wants(1, 1) && !Wants(1, 2)
  {
  }

  lemma TwoWantsTtl()
    ensures MaskOk(2) && !Wants(2, 0) && (2 as word) != 0
  {
  }

  /** With no user every call that wants something finds a slot. */
  lemma FreeSlot(s: State)
    requires Inv(s) && s.users == 0 && s.owner.None? && 0 in s.mem && Port(0, 0) in s.ssa
    ensures Find(s, 0, 0, 2).At? && |Find(s, 0, 0, 2).was| == NHXS && !Find(s, 0, 0, 2).was[0]
  {
    hide CODE;
    UsersIsZero(s.slots);
    FindIsOk(s, 0, 0, 2);
    assert s.slots[0].port.None?;
    TwoWantsTtl();
  }

  lemma OneWantsTcp()
    ensures MaskOk(1) && Wants(1, 0) && !Wants(0, 0) && MaskOk(0)
  {
  }

  /** The slot that holds hardware port id 0 is the one a disarm finds. */
  lemma Registered(s: State, k: nat)
    requires Inv(s) && k < PORTS && |s.slots| == PORTS && s.slots[k].port == Some(Port(0, 0)) && s.owner == Some(0)
    ensures |s.slots[k].attached| == |s.slots[k].saved| == NHXS && s.users > 0
    ensures Find(s, 0, 0, 0) == At(k, Port(0, 0), s.slots[k].attached)
  {
    hide CODE;
    assert Holds(s.slots[k], 0);
    UsersIsZero(s.slots);
  }
}
