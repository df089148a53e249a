/** fman_pcd_ctl_punt_set step by step: static driver state, parser words and SSAs changed in place. */
module PuntLoader {
  import opened Kernel
  import opened Options
  import opened Punt

  class Loader {
    var owner: Option<nat>
    var users: nat
    var loaded: bool
    const prev: array<word>
    const slots: array<Slot>
    var mem: map<nat, seq<word>>
    var ssa: map<Port, seq<word>>

    ghost function Now(): State
      reads this, prev, slots
    {
      State(owner, users, loaded, prev[..], slots[..], mem, ssa)
    }

    ghost predicate Valid()
      reads this, prev, slots
    {
      prev.Length == WORDS && slots.Length == PORTS && Inv(Now())
    }

    constructor (mem: map<nat, seq<word>>, ssa: map<Port, seq<word>>)
      requires forall fm :: fm in mem ==> |mem[fm]| == WORDS
      requires forall p :: p in ssa ==> |ssa[p]| == HXS_COUNT
      ensures Valid() && fresh(prev) && fresh(slots)
      ensures this.mem == mem && this.ssa == ssa && owner.None? && users == 0
    {
      owner, users, loaded := None, 0, false;
      prev := new word[WORDS](i => 0);
      slots := new Slot[PORTS](i => Slot(None, 0, [false, false, false], [0, 0, 0]));
      this.mem, this.ssa := mem, ssa;
      new;
      UsersIsZero(slots[..]);
    }

    /** Polls FMPR_RPIMAC until PSTAT is idle. */
    method AwaitIdle(hw: WriteHw) returns (idle: bool)
      ensures idle <==> Idle(hw)
    {
      var polls := 0;
      while polls < IDLE_POLLS
        invariant 0 <= polls <= IDLE_POLLS
        invariant forall i :: 0 <= i < polls ==> hw.busy(i)
      {
        if !hw.busy(polls) {
          return true;
        }
        polls := polls + 1;
      }
      return false;
    }

    /** Stores words one by one into a parser window; each store leaves what the hardware makes of it. */
    method StoreWords(window: seq<word>, left: nat -> word) returns (now: seq<word>)
      requires |window| == WORDS
      ensures now == Words(left)
    {
      now := window;
      var i := 0;
      while i < WORDS
        invariant 0 <= i <= WORDS && |now| == WORDS
        invariant forall j :: 0 <= j < i ==> now[j] == left(j)
      {
        now := now[i := left(i)];
        i := i + 1;
      }
    }

    /** fman_pcd_prs_write on the program's window of one FMan. */
    method Write(fm: nat, data: seq<word>, save: bool, hw: WriteHw) returns (ret: int)
      requires fm in mem && |mem[fm]| == |data| == prev.Length == WORDS
      modifies `mem, prev
      ensures var w := PrsWrite(old(mem[fm]), data, old(prev[..]), save, hw);
              ret == w.ret && mem == old(mem)[fm := w.mem] && prev[..] == w.prev
    {
      var window := mem[fm];
      ghost var w := PrsWrite(window, data, prev[..], save, hw);
      assert mem[fm := window] == mem;
      var idle := AwaitIdle(hw);
      if !idle {
        return ETIMEDOUT;
      }
      if save {
        var i := 0;
        while i < WORDS
          invariant 0 <= i <= WORDS
          invariant prev[..i] == window[..i] && mem == old(mem)
        {
          prev[i] := window[i];
          i := i + 1;
        }
        assert prev[..] == window;
      }
      var now := StoreWords(window, hw.wrote);
      ret := 0;
      var i := 0;
      while i < WORDS
        invariant 0 <= i <= WORDS && (ret == 0 || ret == EIO)
        invariant ret == 0 <==> now[..i] == data[..i]
      {
        if now[i] != data[i] {
          ret := EIO;
        }
        i := i + 1;
      }
      assert now[..WORDS] == now && data[..WORDS] == data;
      assert ret == 0 <==> Words(hw.wrote) == data;
      if ret != 0 && save {
        now := StoreWords(now, hw.undone);
      }
      assert now == w.mem;
      mem := mem[fm := now];
      if !hw.penBack && ret == 0 {
        ret := EIO;
      }
    }

    /** fman_pcd_punt_resident */
    method Resident(fm: nat) returns (resident: bool)
      requires fm in mem && |mem[fm]| == WORDS
      ensures resident <==> mem[fm] == CODE
    {
      CodeLength();
      hide CODE;
      var i := 0;
      while i < WORDS
        invariant 0 <= i <= WORDS
        invariant mem[fm][..i] == CODE[..i]
      {
        if mem[fm][i] != CODE[i] {
          return false;
        }
        i := i + 1;
      }
      assert mem[fm][..WORDS] == mem[fm] && CODE[..WORDS] == CODE;
      return true;
    }

    /** The search over the port table: the slot of id, and the first unused one before it. */
    method Search(id: nat) returns (slot: Option<nat>, spare: Option<nat>)
      requires slots.Length == PORTS
      ensures slot == Lookup(slots[..], id, 0)
      ensures slot.None? ==> spare == Spare(slots[..], 0)
    {
      slot, spare := None, None;
      var i := 0;
      while i < slots.Length
        invariant 0 <= i <= PORTS && slot.None?
        invariant Lookup(slots[..], id, 0) == Lookup(slots[..], id, i)
        invariant Spare(slots[..], 0) == if spare.Some? then spare else Spare(slots[..], i)
      {
        if Holds(slots[i], id) {
          return Some(i), spare;
        }
        if spare.None? && slots[i].port.None? {
          spare := Some(i);
        }
        i := i + 1;
      }
    }

    method WantsMore(was: seq<bool>, mask: word) returns (add: bool)
      requires |was| == NHXS
      ensures add <==> Adds(was, mask)
    {
      hide Wants;
      add := false;
      var i := 0;
      while i < NHXS
        invariant 0 <= i <= NHXS
        invariant add <==> exists j :: 0 <= j < i && Wants(mask, j) && !was[j]
      {
        if Wants(mask, i) && !was[i] {
          add := true;
        }
        i := i + 1;
      }
    }

    /** fman_port_sp_attach */
    method Attach(p: Port, i: nat, hw: SsaHw) returns (rc: int, saved: word)
      requires p in ssa && |ssa[p]| == HXS_COUNT && i < NHXS
      modifies `ssa
      ensures var x := HxsSlot(i);
              && saved == old(ssa[p][x])
              && rc == (if hw.wrote == Enabled(saved, Label(i)) then 0 else EIO)
              && ssa == old(ssa)[p := old(ssa[p])[x := if rc == 0 then hw.wrote else hw.undone]]
    {
      hide Enabled;
      var x := HxsSlot(i);
      var row := ssa[p];
      saved := row[x];
      var val := Enabled(saved, Label(i));
      ssa := ssa[p := row[x := hw.wrote]];
      if ssa[p][x] != val {
        ssa := ssa[p := row[x := hw.undone]];
        return EIO, saved;
      }
      return 0, saved;
    }

    /** fman_port_sp_disarm */
    method Disarm(p: Port, i: nat, saved: word, hw: SsaHw) returns (rc: int)
      requires p in ssa && |ssa[p]| == HXS_COUNT && i < NHXS
      modifies `ssa
      ensures rc == if hw.wrote == saved then 0 else EIO
      ensures ssa == old(ssa)[p := old(ssa[p])[HxsSlot(i) := hw.wrote]]
    {
      var x := HxsSlot(i);
      ssa := ssa[p := ssa[p][x := hw.wrote]];
      return if ssa[p][x] != saved then EIO else 0;
    }

    /** fman_pcd_punt_unload */
    method UnloadProgram(fm: nat, hw: WriteHw)
      requires Valid() && owner == Some(fm) && users == 0
      modifies `mem, `loaded, `owner, prev
      ensures Valid() && Now() == Unload(old(Now()), fm, hw)
    {
      hide CODE, SlotsOk, Idle, Words;
      UnloadKeeps(Now(), fm, hw);
      var ret := Write(fm, prev[..], false, hw);
      if ret != 0 {
        return;
      }
      loaded, owner := false, None;
    }

    /** The program's load by the first user, or the check that it is still there. */
    method LoadProgram(fm: nat, add: bool, hw: WriteHw) returns (ret: int)
      requires Valid() && fm in mem && (owner.Some? ==> owner == Some(fm))
      modifies `mem, `loaded, `owner, prev
      ensures Valid() && (Now(), ret) == Load(old(Now()), fm, add, hw)
    {
      LoadKeeps(Now(), fm, add, hw);
      CodeLength();
      hide CODE, SlotsOk, Idle, Words;
      ret := 0;
      if users == 0 {
        ret := Write(fm, CODE, !loaded, hw);
        if ret != 0 {
          return;
        }
        loaded, owner := true, Some(fm);
      } else if add {
        var resident := Resident(fm);
        if !resident {
          ret := EIO;
        }
      }
    }

    /** One HXS of the table: attached if the mask wants it and it is not, detached the other way round. */
    method ToggleOne(k: nat, p: Port, i: nat, mask: word, hw: SsaHw, ret0: int) returns (ret: int)
      requires slots.Length == PORTS && k < PORTS && p in ssa && i < NHXS
      requires HxsOk(Hxs(slots[k].attached, slots[k].saved, ssa[p], ret0))
      modifies `ssa, slots
      ensures var h := Toggle(Hxs(old(slots[k].attached), old(slots[k].saved), old(ssa[p]), ret0), i, mask, hw);
              && ret == h.ret && ssa == old(ssa)[p := h.regs]
              && slots[..] == old(slots[..])[k := old(slots[k]).(attached := h.attached, saved := h.saved)]
    {
      hide Wants, Enabled;
      ret := ret0;
      var want, have := Wants(mask, i), slots[k].attached[i];
      if want == have {
        assert ssa[p := ssa[p]] == ssa;
        return;
      }
      var rc;
      if want {
        var saved;
        rc, saved := Attach(p, i, hw);
        if rc == 0 {
          slots[k] := slots[k].(saved := slots[k].saved[i := saved]);
        }
      } else {
        rc := Disarm(p, i, slots[k].saved[i], hw);
      }
      if rc != 0 {
        return if ret0 == 0 then rc else ret0;
      }
      slots[k] := slots[k].(attached := slots[k].attached[i := !have]);
    }

    /** The loop over the HXS table. */
    method ToggleAll(k: nat, p: Port, mask: word, hw: nat -> SsaHw) returns (ret: int)
      requires slots.Length == PORTS && k < PORTS && p in ssa
      requires HxsOk(Hxs(slots[k].attached, slots[k].saved, ssa[p], 0))
      modifies `ssa, slots
      ensures var h := ToggleTo(Hxs(old(slots[k].attached), old(slots[k].saved), old(ssa[p]), 0), NHXS, mask, hw);
              && ret == h.ret && ssa == old(ssa)[p := h.regs]
              && slots[..] == old(slots[..])[k := old(slots[k]).(attached := h.attached, saved := h.saved)]
    {
      hide Toggle;
      ghost var h0 := Hxs(slots[k].attached, slots[k].saved, ssa[p], 0);
      assert ssa[p := ssa[p]] == ssa;
      ret := 0;
      var i := 0;
      while i < NHXS
        invariant 0 <= i <= NHXS && HxsOk(h0) && p in old(ssa)
        invariant var h := ToggleTo(h0, i, mask, hw);
                  && ret == h.ret && ssa == old(ssa)[p := h.regs]
                  && slots[..] == old(slots[..])[k := old(slots[k]).(attached := h.attached, saved := h.saved)]
      {
        ghost var h := ToggleTo(h0, i, mask, hw);
        assert slots[k] == old(slots[k]).(attached := h.attached, saved := h.saved) && ssa[p] == h.regs;
        assert Hxs(slots[k].attached, slots[k].saved, ssa[p], ret) == h;
        ret := ToggleOne(k, p, i, mask, hw(i), ret);
        i := i + 1;
      }
    }

    /** The HXS loop, then the slot's registration and the user count. */
    method ArrangePort(k: nat, p: Port, mask: word, hw: nat -> SsaHw) returns (ret: int)
      requires Valid() && k < slots.Length && Fits(Now(), k, p, slots[k].attached) && mem[p.fm] == CODE
      modifies `ssa, `users, slots
      ensures Valid() && (Now(), ret) == Arrange(old(Now()), k, p, old(slots[k].attached), mask, hw)
    {
      ghost var s, was0 := Now(), slots[k].attached;
      ArrangeKeeps(s, k, p, was0, mask, hw);
      UserCounted(s, k);
      SizesOf(s);
      hide CODE, Inv, Toggle, ToggleTo, Any;
      var was := slots[k].attached;
      ret := ToggleAll(k, p, mask, hw);
      if !Any(was) && Any(slots[k].attached) {
        slots[k] := slots[k].(port := Some(p), id := p.id);
        users := users + 1;
      } else if Any(was) && !Any(slots[k].attached) {
        slots[k] := slots[k].(port := None);
        users := users - 1;
      }
      assert Now() == Arrange(s, k, p, was0, mask, hw).0;
    }

    /** The checks of a call and the slot it works on; ret is the early return when there is none. */
    method Locate(fm: nat, id: nat, mask: word) returns (found: bool, ret: int, k: nat, p: Port)
      requires Valid()
      modifies slots
      ensures slots[..] == old(slots[..])
      ensures !found ==> Find(Now(), fm, id, mask) == Refused(ret)
      ensures found ==> k < slots.Length && Find(Now(), fm, id, mask) == At(k, p, slots[k].attached)
    {
      hide CODE, Inv, Lookup, Spare, MaskOk;
      ghost var s := Now();
      SizesOf(s);
      found, ret, k, p := false, 0, 0, Port(fm, id);
      if fm !in mem || !MaskOk(mask) {
        ret := EINVAL;
        return;
      }
      if owner.Some? && owner != Some(fm) {
        ret := if mask != 0 then EBUSY else 0;
        return;
      }
      var slot, spare := Search(id);
      if slot.Some? {
        found, k, p := true, slot.value, slots[slot.value].port.value;
        return;
      }
      if mask == 0 {
        return;
      }
      if Port(fm, id) !in ssa {
        ret := ENODEV;
        return;
      }
      if spare.None? {
        ret := ENOSPC;
        return;
      }
      found, k := true, spare.value;
      AlreadyClear(s, k);
      slots[k] := slots[k].(attached := [false, false, false]);
      assert slots[..] == s.slots;
    }

    /** fman_pcd_ctl_punt_set */
    method CtlPuntSet(fm: nat, id: nat, mask: word, hw: Hw) returns (ret: int)
      requires Valid()
      modifies this, prev, slots
      ensures Valid() && (Now(), ret) == Set(old(Now()), fm, id, mask, hw)
    {
      hide CODE, Inv, Arrange, Load, Unload, Adds, Find;
      ghost var s := Now();
      SizesOf(s);
      SetKeepsInv(s, fm, id, mask, hw);
      var found, k, p;
      found, ret, k, p := Locate(fm, id, mask);
      if !found {
        return;
      }
      FindIsOk(s, fm, id, mask);
      SetSteps(s, fm, id, mask, hw);
      var add := WantsMore(slots[k].attached, mask);
      ret := LoadProgram(fm, add, hw.load);
      if ret != 0 {
        return;
      }
      ret := ArrangePort(k, p, mask, hw.hxs);
      UnloadIs(Now(), fm, hw.unload);
      if users == 0 {
        UnloadProgram(fm, hw.unload);
      }
    }
  }

  lemma UserCounted(s: State, k: nat)
    requires Inv(s) && k < PORTS
    ensures |s.slots| == PORTS && (s.slots[k].port.Some? ==> s.users > 0)
    ensures Any(s.slots[k].attached) ==> s.slots[k].port.Some?
  {
    hide CODE;
    UsersIsZero(s.slots);
  }

  lemma SizesOf(s: State)
    requires Inv(s)
    ensures Shaped(s) && |s.slots| == PORTS && |s.prev| == WORDS
  {
    hide CODE;
  }

  /** An unused slot has no attached bits to clear. */
  lemma AlreadyClear(s: State, k: nat)
    requires Inv(s) && k < PORTS && |s.slots| == PORTS && s.slots[k].port.None?
    ensures s.slots[k].(attached := [false, false, false]) == s.slots[k]
  {
    hide CODE;
    assert !Any(s.slots[k].attached);
    assert s.slots[k].attached == [false, false, false];
  }

  lemma UnloadIs(s: State, fm: nat, hw: WriteHw)
    requires Inv(s) && s.owner == Some(fm)
    ensures fm in s.mem && (s.users > 0 ==> Unload(s, fm, hw) == s)
  {
    hide CODE, SlotsOk;
  }
}
