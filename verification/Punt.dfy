/**
 * The control-punt program: which FMan holds it, which ports use it, and what every parser word
 * and soft-sequence attachment (SSA) is. Set is one fman_pcd_ctl_punt_set call against hardware
 * that may refuse to go idle and may store anything.
 */
module Punt {
  import opened Kernel
  import opened Options

  const IDLE_POLLS := 1000
  const PORTS := 16
  const NHXS := 3

  /** FMAN_PORT_SSA_SW_PRS_EN and FMAN_PORT_SSA_SW_LABEL */
  const SW_PRS_EN: word := 0x400
  const SW_LABEL: word := 0x3ff

  /** fman_pcd_punt_code, for parser byte 0x40. */
  const CODE: seq<word> := [
    0x0000b78a, 0x00da0007, 0x00000000, 0x00004031, 0x0000095f, 0x00020050, 0x094f0002, 0x00500001,
    0x1bff0001, 0x1bfe0000, 0xa38e403c, 0x00010000, 0xa38e403c, 0x00001843, 0x095f0002, 0x0050094f,
    0x00020050, 0x1bff0001, 0x1bfe0001, 0x1bfe0000, 0x9f8e4050, 0x00010000, 0x9f8e4050, 0x00001857,
    0x095f0002, 0x0050094f, 0x00020050, 0x1bff0001, 0x1bfe0001, 0x1bfe0000]

  const WORDS := 30

  lemma CodeLength()
    ensures |CODE| == WORDS
  {
  }

  /** fman_pcd_punt_hxs: feature bits, HXS slot and halfword label of each attachment. */
  function Feature(i: nat): word {
    if i == 0 then 1 else 2
  }

  function HxsSlot(i: nat): (h: nat)
    ensures h < HXS_COUNT
  {
    if i == 0 then 10 else if i == 1 then 5 else 6
  }

  function Label(i: nat): (l: word)
    ensures l & !SW_LABEL == 0
  {
    if i == 0 then 0x20 else if i == 1 then 0x33 else 0x47
  }

  predicate MaskOk(mask: word) {
    mask & !(3 as word) == 0
  }

  predicate Wants(mask: word, i: nat) {
    mask & Feature(i) != 0
  }

  /** An SSA with the routine at label mark attached. */
  function Enabled(ssa: word, mark: word): (r: word)
    requires mark & !SW_LABEL == 0
    ensures r & SW_PRS_EN != 0 && r & SW_LABEL == mark
    ensures r & !(SW_PRS_EN | SW_LABEL) == ssa & !(SW_PRS_EN | SW_LABEL)
  {
    (ssa & !(SW_PRS_EN | SW_LABEL)) | SW_PRS_EN | mark
  }

  /** An RX port, by its FMan and BMI hardware port id. */
  datatype Port = Port(fm: nat, id: nat)

  /** struct fman_pcd_punt_port */
  datatype Slot = Slot(port: Option<Port>, id: nat, attached: seq<bool>, saved: seq<word>)

  /** Parser words per FMan and SSAs per RX port are hardware; the rest is the driver's. */
  datatype State = State(
    owner: Option<nat>, users: nat, loaded: bool, prev: seq<word>, slots: seq<Slot>,
    mem: map<nat, seq<word>>, ssa: map<Port, seq<word>>)

  // ------------------------------------------------------------------ hardware answers

  /** One fman_pcd_prs_write: PSTAT per poll, what each store left behind, and whether PEN read back. */
  datatype WriteHw = WriteHw(busy: nat -> bool, wrote: nat -> word, undone: nat -> word, penBack: bool)

  /** One attach or disarm: what the store and the restoring store left in the SSA. */
  datatype SsaHw = SsaHw(wrote: word, undone: word)

  datatype Hw = Hw(load: WriteHw, unload: WriteHw, hxs: nat -> SsaHw)

  predicate Idle(hw: WriteHw) {
    exists i :: 0 <= i < IDLE_POLLS && !hw.busy(i)
  }

  function Words(f: nat -> word): (s: seq<word>)
    ensures |s| == WORDS
  {
    seq(WORDS, i requires 0 <= i < WORDS => f(i))
  }

  // ------------------------------------------------------------------ steps

  datatype Written = Written(ret: int, mem: seq<word>, prev: seq<word>)

  /** fman_pcd_prs_write */
  function PrsWrite(mem: seq<word>, data: seq<word>, prev: seq<word>, save: bool, hw: WriteHw): Written {
    if !Idle(hw) then Written(ETIMEDOUT, mem, prev)
    else
      var kept, now := if save then mem else prev, Words(hw.wrote);
      if now != data then Written(EIO, if save then Words(hw.undone) else now, kept)
      else Written(if hw.penBack then 0 else EIO, now, kept)
  }

  datatype Hxs = Hxs(attached: seq<bool>, saved: seq<word>, regs: seq<word>, ret: int)

  predicate HxsOk(h: Hxs) {
    |h.attached| == |h.saved| == NHXS && |h.regs| == HXS_COUNT
  }

  /** fman_port_sp_attach or fman_port_sp_disarm on entry i, if it does not match the mask. */
  function Toggle(h: Hxs, i: nat, mask: word, hw: SsaHw): (r: Hxs)
    requires HxsOk(h) && i < NHXS
    ensures HxsOk(r)
  {
    var x := HxsSlot(i);
    if Wants(mask, i) == h.attached[i] then h
    else if Wants(mask, i) then
      if hw.wrote == Enabled(h.regs[x], Label(i)) then
        h.(attached := h.attached[i := true], saved := h.saved[i := h.regs[x]], regs := h.regs[x := hw.wrote])
      else h.(regs := h.regs[x := hw.undone], ret := if h.ret == 0 then EIO else h.ret)
    else
      if hw.wrote == h.saved[i] then h.(attached := h.attached[i := false], regs := h.regs[x := hw.wrote])
      else h.(regs := h.regs[x := hw.wrote], ret := if h.ret == 0 then EIO else h.ret)
  }

  /** The first k entries. */
  function ToggleTo(h: Hxs, k: nat, mask: word, hw: nat -> SsaHw): (r: Hxs)
    requires HxsOk(h) && k <= NHXS
    ensures HxsOk(r)
  {
    if k == 0 then h else Toggle(ToggleTo(h, k - 1, mask, hw), k - 1, mask, hw(k - 1))
  }

  predicate Any(bits: seq<bool>) {
    exists i :: 0 <= i < |bits| && bits[i]
  }

  /** Some wanted HXS is not attached yet. */
  predicate Adds(attached: seq<bool>, mask: word)
    requires |attached| == NHXS
  {
    exists i :: 0 <= i < NHXS && Wants(mask, i) && !attached[i]
  }

  predicate Holds(slot: Slot, id: nat) {
    slot.port.Some? && slot.id == id
  }

  /** The registered slot of hardware port id, searching from k. */
  function Lookup(slots: seq<Slot>, id: nat, k: nat): (r: Option<nat>)
    requires k <= |slots|
    ensures r.Some? ==> k <= r.value < |slots| && Holds(slots[r.value], id)
    ensures r.None? ==> forall j :: k <= j < |slots| ==> !Holds(slots[j], id)
    decreases |slots| - k
  {
    if k == |slots| then None else if Holds(slots[k], id) then Some(k) else Lookup(slots, id, k + 1)
  }

  /** The first unused slot from k on. */
  function Spare(slots: seq<Slot>, k: nat): (r: Option<nat>)
    requires k <= |slots|
    ensures r.Some? ==> k <= r.value < |slots| && slots[r.value].port.None?
    ensures r.Some? ==> forall j :: k <= j < r.value ==> slots[j].port.Some?
    ensures r.None? ==> forall j :: k <= j < |slots| ==> slots[j].port.Some?
    decreases |slots| - k
  {
    if k == |slots| then None else if slots[k].port.None? then Some(k) else Spare(slots, k + 1)
  }

  function Users(slots: seq<Slot>): nat {
    if slots == [] then 0
    else Users(slots[..|slots| - 1]) + if slots[|slots| - 1].port.Some? then 1 else 0
  }

  /** Every list and register file has its size; registered slots point at real ports. */
  ghost predicate Shaped(s: State) {
    && |s.slots| == PORTS && |s.prev| == WORDS
    && (forall k :: 0 <= k < PORTS ==> |s.slots[k].attached| == |s.slots[k].saved| == NHXS)
    && (forall fm :: fm in s.mem ==> |s.mem[fm]| == WORDS)
    && (forall p :: p in s.ssa ==> |s.ssa[p]| == HXS_COUNT)
    && (forall k :: 0 <= k < PORTS && s.slots[k].port.Some? ==> s.slots[k].port.value in s.ssa)
  }

  datatype Target = Refused(ret: int) | At(k: nat, port: Port, was: seq<bool>)

  /** The checks at the start of a call: an early return, or the slot and port it works on. */
  function Find(s: State, fm: nat, id: nat, mask: word): (t: Target)
    requires |s.slots| == PORTS
    ensures t.At? ==> t.k < PORTS
  {
    if fm !in s.mem || !MaskOk(mask) then Refused(EINVAL)
    else if s.owner.Some? && s.owner != Some(fm) then Refused(if mask != 0 then EBUSY else 0)
    else
      match Lookup(s.slots, id, 0)
      case Some(k) => At(k, s.slots[k].port.value, s.slots[k].attached)
      case None =>
        if mask == 0 then Refused(0)
        else if Port(fm, id) !in s.ssa then Refused(ENODEV)
        else
          match Spare(s.slots, 0)
          case None => Refused(ENOSPC)
          case Some(k) => At(k, Port(fm, id), [false, false, false])
  }

  /** Load the program if no port uses it yet. */
  function Load(s: State, fm: nat, adds: bool, hw: WriteHw): (State, int)
    requires fm in s.mem
  {
    if s.users == 0 then
      var w := PrsWrite(s.mem[fm], CODE, s.prev, !s.loaded, hw);
      var s1 := s.(mem := s.mem[fm := w.mem], prev := w.prev);
      if w.ret != 0 then (s1, w.ret) else (s1.(loaded := true, owner := Some(fm)), 0)
    else if adds && s.mem[fm] != CODE then (s, EIO)
    else (s, 0)
  }

  /** Attach and detach the port's HXS and keep the slot and the user count up to date. */
  function Arrange(s: State, k: nat, p: Port, was: seq<bool>, mask: word, hw: nat -> SsaHw): (State, int)
    requires Shaped(s) && k < PORTS && p in s.ssa && |was| == NHXS
  {
    var h := ToggleTo(Hxs(was, s.slots[k].saved, s.ssa[p], 0), NHXS, mask, hw);
    var slot := Slot(
      if !Any(was) && Any(h.attached) then Some(p) else if Any(was) && !Any(h.attached) then None else s.slots[k].port,
      if !Any(was) && Any(h.attached) then p.id else s.slots[k].id,
      h.attached, h.saved);
    var users := if !Any(was) && Any(h.attached) then s.users + 1
                 else if Any(was) && !Any(h.attached) && s.users > 0 then s.users - 1
                 else s.users;
    (s.(slots := s.slots[k := slot], users := users, ssa := s.ssa[p := h.regs]), h.ret)
  }

  /** fman_pcd_punt_unload, once the last user is gone. */
  function Unload(s: State, fm: nat, hw: WriteHw): State
    requires fm in s.mem
  {
    if s.users > 0 then s
    else
      var w := PrsWrite(s.mem[fm], s.prev, s.prev, false, hw);
      var s1 := s.(mem := s.mem[fm := w.mem]);
      if w.ret != 0 then s1 else s1.(loaded := false, owner := None)
  }

  /** fman_pcd_ctl_punt_set */
  function Set(s: State, fm: nat, id: nat, mask: word, hw: Hw): (State, int)
    requires Inv(s)
  {
    match Find(s, fm, id, mask)
    case Refused(ret) => (s, ret)
    case At(k, p, was) =>
      FindIsOk(s, fm, id, mask);
      var (s1, ret1) := Load(s, fm, Adds(was, mask), hw.load);
      if ret1 != 0 then (s1, ret1)
      else
        LoadShaped(s, fm, Adds(was, mask), hw.load);
        var (s2, ret2) := Arrange(s1, k, p, was, mask, hw.hxs);
        (Unload(s2, fm, hw.unload), ret2)
  }

  // ------------------------------------------------------------------ the invariant

  /** Registered slots belong to the owner, have distinct ids, and are those with something attached. */
  ghost predicate SlotsOk(s: State)
    requires Shaped(s)
  {
    && (forall k :: 0 <= k < PORTS ==> (s.slots[k].port.Some? <==> Any(s.slots[k].attached)))
    && (forall k :: 0 <= k < PORTS && s.slots[k].port.Some? ==>
          s.owner.Some? && s.slots[k].port.value == Port(s.owner.value, s.slots[k].id))
    && (forall j, k :: 0 <= j < k < PORTS && s.slots[j].port.Some? && s.slots[k].port.Some? ==> s.slots[j].id != s.slots[k].id)
  }

  /** The program is resident in the owner whenever any port uses it; users counts those ports. */
  ghost predicate Inv(s: State) {
    && Shaped(s) && SlotsOk(s)
    && s.users == Users(s.slots)
    && (s.loaded <==> s.owner.Some?)
    && (s.owner.Some? ==> s.owner.value in s.mem)
    && (s.users > 0 ==> s.owner.Some? && s.mem[s.owner.value] == CODE)
  }

  lemma FindIsOk(s: State, fm: nat, id: nat, mask: word)
    requires Inv(s)
    ensures var t := Find(s, fm, id, mask);
            t.At? ==> fm in s.mem && t.port == Port(fm, id) && t.port in s.ssa && |t.was| == NHXS
                      && (s.owner.Some? ==> s.owner == Some(fm))
                      && (s.slots[t.k].port.Some? <==> Any(t.was))
                      && (s.slots[t.k].port.Some? ==> s.slots[t.k].port == Some(t.port) && s.slots[t.k].id == id && t.was == s.slots[t.k].attached)
                      && forall j :: 0 <= j < PORTS && j != t.k && s.slots[j].port.Some? ==> s.slots[j].id != id
  {
  }

  lemma LoadShaped(s: State, fm: nat, adds: bool, hw: WriteHw)
    requires Inv(s) && fm in s.mem
    ensures var s1 := Load(s, fm, adds, hw).0; Shaped(s1) && s1.ssa == s.ssa && s1.slots == s.slots && s1.users == s.users
    ensures s.owner.Some? ==> Load(s, fm, adds, hw).0.owner.Some?
  {
    CodeLength();
  }

  lemma {:induction false} UsersIsZero(slots: seq<Slot>)
    ensures Users(slots) == 0 <==> forall k :: 0 <= k < |slots| ==> slots[k].port.None?
  {
    if slots != [] {
      UsersIsZero(slots[..|slots| - 1]);
      assert forall k :: 0 <= k < |slots| - 1 ==> slots[..|slots| - 1][k] == slots[k];
    }
  }

  lemma {:induction false} UsersUpdate(slots: seq<Slot>, k: nat, x: Slot)
    requires k < |slots|
    ensures Users(slots[k := x]) + (if slots[k].port.Some? then 1 else 0) == Users(slots) + if x.port.Some? then 1 else 0
  {
    var n := |slots| - 1;
    if k < n {
      UsersUpdate(slots[..n], k, x);
      assert slots[k := x][..n] == slots[..n][k := x];
    } else {
      assert slots[k := x][..n] == slots[..n];
    }
  }

  lemma WriteIs(mem: seq<word>, data: seq<word>, prev: seq<word>, save: bool, hw: WriteHw)
    requires |mem| == |data| == |prev| == WORDS
    ensures var w := PrsWrite(mem, data, prev, save, hw);
            && |w.mem| == |w.prev| == WORDS && (w.ret == 0 ==> w.mem == data) && (!save ==> w.prev == prev)
  {
  }

  /** Loading keeps the invariant; once it succeeds the program is in the FMan's parser. */
  lemma LoadKeeps(s: State, fm: nat, adds: bool, hw: WriteHw)
    requires Inv(s) && fm in s.mem && (s.owner.Some? ==> s.owner == Some(fm))
    ensures var (s1, ret) := Load(s, fm, adds, hw);
            && Inv(s1) && (ret == 0 ==> s1.owner == Some(fm) && s1.mem[fm] == CODE)
            && (s.users > 0 ==> s1 == s && ret == 0)
  {
    CodeLength();
    UsersIsZero(s.slots);
    WriteIs(s.mem[fm], CODE, s.prev, !s.loaded, hw);
    hide PrsWrite, CODE;
  }

  /** The slot the checks found can take the port. */
  ghost predicate Fits(s: State, k: nat, p: Port, was: seq<bool>)
    requires Shaped(s)
  {
    && k < PORTS && p in s.ssa && |was| == NHXS && s.owner == Some(p.fm)
    && (s.slots[k].port.Some? <==> Any(was))
    && (s.slots[k].port.Some? ==> s.slots[k].port == Some(p) && s.slots[k].id == p.id && was == s.slots[k].attached)
    && forall j :: 0 <= j < PORTS && j != k && s.slots[j].port.Some? ==> s.slots[j].id != p.id
  }

  lemma ArrangeKeeps(s: State, k: nat, p: Port, was: seq<bool>, mask: word, hw: nat -> SsaHw)
    requires Inv(s) && Fits(s, k, p, was) && s.mem[p.fm] == CODE
    ensures Inv(Arrange(s, k, p, was, mask, hw).0)
    ensures Arrange(s, k, p, was, mask, hw).0.owner == s.owner && Arrange(s, k, p, was, mask, hw).0.mem == s.mem
  {
    hide Toggle, Any, ToggleTo, CODE;
    var s2 := Arrange(s, k, p, was, mask, hw).0;
    UsersUpdate(s.slots, k, s2.slots[k]);
    UsersIsZero(s.slots);
  }

  lemma UnloadKeeps(s: State, fm: nat, hw: WriteHw)
    requires Inv(s) && s.owner == Some(fm)
    ensures Inv(Unload(s, fm, hw))
  {
    UsersIsZero(s.slots);
    WriteIs(s.mem[fm], s.prev, s.prev, false, hw);
    hide PrsWrite, CODE;
  }

  /** The three steps of a call that passes its checks. */
  lemma SetSteps(s: State, fm: nat, id: nat, mask: word, hw: Hw)
    requires Inv(s) && Find(s, fm, id, mask).At?
    ensures fm in s.mem
    ensures var t, (s1, ret1) := Find(s, fm, id, mask), Load(s, fm, Adds(Find(s, fm, id, mask).was, mask), hw.load);
            && Inv(s1)
            && (ret1 != 0 ==> Set(s, fm, id, mask, hw) == (s1, ret1) && s.users == 0)
            && (ret1 == 0 ==>
                  && Fits(s1, t.k, t.port, t.was) && t.port == Port(fm, id) && s1.mem[fm] == CODE
                  && var (s2, ret2) := Arrange(s1, t.k, t.port, t.was, mask, hw.hxs);
                     && Inv(s2) && s2.owner == Some(fm) && s2.mem == s1.mem && Inv(Unload(s2, fm, hw.unload))
                     && Set(s, fm, id, mask, hw) == (Unload(s2, fm, hw.unload), ret2))
  {
    FindIsOk(s, fm, id, mask);
    var t := Find(s, fm, id, mask);
    var adds := Adds(t.was, mask);
    hide Find, Inv, Adds, PrsWrite, CODE, SlotsOk;
    LoadKeeps(s, fm, adds, hw.load);
    LoadShaped(s, fm, adds, hw.load);
    var (s1, ret1) := Load(s, fm, adds, hw.load);
    if ret1 == 0 {
      ArrangeKeeps(s1, t.k, t.port, t.was, mask, hw.hxs);
      UnloadKeeps(Arrange(s1, t.k, t.port, t.was, mask, hw.hxs).0, fm, hw.unload);
    }
  }

  /**
   * Every call keeps the invariant, however its hardware steps fail: the program is in the parser
   * while any registered port has an HXS attached, and users counts exactly those ports.
   */
  lemma SetKeepsInv(s: State, fm: nat, id: nat, mask: word, hw: Hw)
    requires Inv(s)
    ensures Inv(Set(s, fm, id, mask, hw).0)
  {
    if Find(s, fm, id, mask).At? {
      SetSteps(s, fm, id, mask, hw);
    }
  }

  /** The early returns change nothing. */
  lemma RefusalsChangeNothing(s: State, fm: nat, id: nat, mask: word, hw: Hw)
    requires Inv(s)
    ensures var (s', ret) := Set(s, fm, id, mask, hw);
            (ret == EINVAL || ret == EBUSY || ret == ENODEV || ret == ENOSPC) ==> s' == s
  {
    if Find(s, fm, id, mask).At? {
      SetSteps(s, fm, id, mask, hw);
      var t := Find(s, fm, id, mask);
      var s1 := Load(s, fm, Adds(t.was, mask), hw.load).0;
      if Load(s, fm, Adds(t.was, mask), hw.load).1 == 0 {
        ToggleRet(Hxs(t.was, s1.slots[t.k].saved, s1.ssa[t.port], 0), NHXS, mask, hw.hxs);
      }
    }
  }

  lemma {:induction false} ToggleRet(h: Hxs, k: nat, mask: word, hw: nat -> SsaHw)
    requires HxsOk(h) && k <= NHXS && (h.ret == 0 || h.ret == EIO)
    ensures var r := ToggleTo(h, k, mask, hw).ret; r == 0 || r == EIO
  {
    if k > 0 {
      ToggleRet(h, k - 1, mask, hw);
    }
  }
}
