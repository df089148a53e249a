/** The arm and disarm paths step by step, on the driver's table and the hardware in place. */
module KeyGenDriver {
  import opened Kernel
  import opened Options
  import opened KeyGen
  import opened KeyGenPort
  import opened KeyGenTable

  class Driver {
    const schemes: array<Entry>
    const ram: array<Scheme>
    var sp: set<(nat, nat)>

    ghost predicate Valid() {
      schemes.Length == ram.Length == SCHEMES
    }

    ghost function Now(): Kg
      reads this, schemes, ram
    {
      Kg(schemes[..], ram[..], sp)
    }

    constructor ()
      ensures Valid() && fresh(schemes) && fresh(ram) && sp == {}
    {
      schemes := new Entry[SCHEMES](i => FREE);
      ram := new Scheme[SCHEMES](i => Scheme(false, 0));
      sp := {};
    }

    /** keygen_scheme_setup; ok says whether its scheme RAM write succeeded. */
    method SchemeSetup(i: nat, enable: bool, ok: bool)
      requires Valid() && i < SCHEMES
      modifies schemes, ram
      ensures Now() == Setup(old(Now()), i, enable, ok)
    {
      if ok {
        ram[i] := Scheme(enable, schemes[i].mv);
        schemes[i] := schemes[i].(used := enable);
      }
    }

    /** keygen_bind_port_to_schemes */
    method BindPort(i: nat, on: bool)
      requires Valid() && i < SCHEMES
      modifies `sp
      ensures Now() == Bind(old(Now()), i, on)
    {
      sp := if on then sp + {(schemes[i].port, i)} else sp - {(schemes[i].port, i)};
    }

    method SetEntry(i: nat, e: Entry)
      requires Valid() && i < SCHEMES
      modifies schemes
      ensures Now() == Put(old(Now()), i, e)
    {
      schemes[i] := e;
    }

    /** kg_find_port_scheme */
    method PortScheme(port: nat) returns (r: Option<nat>)
      requires Valid()
      ensures r == FindPort(schemes[..], port, 0)
    {
      var i := 0;
      while i < SCHEMES
        invariant 0 <= i <= SCHEMES && FindPort(schemes[..], port, 0) == FindPort(schemes[..], port, i)
      {
        if schemes[i].used && schemes[i].port == port {
          return Some(i);
        }
        i := i + 1;
      }
      return None;
    }

    method FreeScheme() returns (r: Option<nat>)
      requires Valid()
      ensures r == FindFree(schemes[..], 0)
    {
      var i := 0;
      while i < SCHEMES
        invariant 0 <= i <= SCHEMES && FindFree(schemes[..], 0) == FindFree(schemes[..], i)
      {
        if !schemes[i].used {
          return Some(i);
        }
        i := i + 1;
      }
      return None;
    }

    /** Writes a clone of the v4 slot to slot i, sets it up, and binds it if that worked. */
    method CloneScheme(i: nat, e: Entry, ok: bool)
      requires Valid() && i < SCHEMES
      modifies `sp, schemes, ram
      ensures Now() == Clone(old(Now()), i, e, ok)
    {
      hide Put, Setup, Bind;
      SetEntry(i, e.(used := false));
      SchemeSetup(i, true, ok);
      if ok {
        BindPort(i, true);
      }
    }

    /** The IPv6 half of fman_pcd_kg_port_arm_fe. */
    method ArmSchemes(port: nat, ok: Setups) returns (outcome: Outcome)
      requires Valid()
      modifies `sp, schemes, ram
      ensures (Now(), outcome) == Arm(old(Now()), port, ok)
    {
      hide Put, Setup, Bind, Clone, FindPort, FindFree;
      var v4 := PortScheme(port);
      if v4.None? {
        return NoScheme;
      }
      var v6 := FreeScheme();
      if v6.None? {
        return NoSlot;
      }
      SetEntry(v4.value, schemes[v4.value].(mv := V4BIT, used := false));
      SchemeSetup(v4.value, true, ok.v4);
      CloneScheme(v6.value, V6Entry(schemes[v4.value], port), ok.v6);
      if !ok.v6 {
        return V6Failed;
      }
      var ca := FreeScheme();
      if ca.None? {
        return NoCatchAll;
      }
      CloneScheme(ca.value, CatchAllEntry(schemes[v4.value], port), ok.ca);
      return if ok.ca then Complete else CatchAllFailed;
    }

    /** The arm, and the parser split after it unless it stopped before the catch-all. */
    method ArmV6(port: nat, ok: Setups, rx: RxPort?, zeroed: nat -> bool, stored: nat -> bool)
      returns (outcome: Outcome, lerr: int)
      requires Valid() && (rx != null ==> rx.Valid())
      modifies `sp, schemes, ram, if rx != null then {rx.lcv} else {}
      ensures (Now(), outcome) == Arm(old(Now()), port, ok)
      ensures outcome == NoScheme || outcome == NoSlot || outcome == V6Failed ==>
                lerr == 0 && (rx != null ==> rx.lcv[..] == old(rx.lcv[..]))
      ensures outcome == NoCatchAll || outcome == CatchAllFailed || outcome == Complete ==>
                && (lerr == EINVAL <==> rx == null || !rx.usable)
                && (rx != null && rx.usable ==>
                      (lerr == 0 <==> rx.lcv[ETH] == CATCHALLBIT && rx.lcv[IPV4] == V4BIT && rx.lcv[IPV6] == V6BIT))
                && (rx != null && rx.usable ==>
                      forall i: nat :: Unverified(i) ==> rx.lcv[i] == if zeroed(i) then 0 else old(rx.lcv[i]))
      ensures rx != null && rx.usable && (outcome == NoCatchAll || outcome == CatchAllFailed || outcome == Complete)
              && (forall i: nat :: i < 16 ==> zeroed(i) && stored(i)) ==>
                && lerr == 0 && IsSplit(rx.lcv[..])
                && rx.lcv[0] == 0x2000_0000 && rx.lcv[5] == 0x4000_0000 && rx.lcv[6] == 0x8000_0000
                && forall i: nat :: i < 16 && i != 0 && i != 5 && i != 6 ==> rx.lcv[i] == 0
    {
      hide Arm;
      outcome := ArmSchemes(port, ok);
      if outcome == NoScheme || outcome == NoSlot || outcome == V6Failed {
        return outcome, 0;
      }
      lerr := SetLcvSplit(rx, CATCHALLBIT, V4BIT, V6BIT, zeroed, stored);
      assert forall i: nat :: i < 16 && i != 0 && i != 5 && i != 6 ==> Unverified(i);
    }

    /** What the scan does with one slot of the port. */
    method DisarmOne(i: nat, port: nat, ok: bool) returns (torn: bool)
      requires Valid() && i < SCHEMES
      modifies `sp, schemes, ram
      ensures Now() == DisarmSlot(old(Now()), i, port, ok) && torn == Armed6(old(schemes[i]), port)
    {
      var s := schemes[i];
      if !s.used || s.port != port {
        return false;
      }
      if (s.ccBase == 1 && s.nextEngine == 3) || s.mv == CATCHALLBIT {
        BindPort(i, false);
        SetEntry(i, s.(mv := 0, ccBase := 0, ccBits := 0, ekfc := 0, nextEngine := 0, used := true));
        SchemeSetup(i, false, ok);
        SetEntry(i, schemes[i].(port := 0, used := false));
        return true;
      }
      if s.mv != 0 {
        SetEntry(i, s.(mv := 0, used := false));
        SchemeSetup(i, true, ok);
        return true;
      }
      return false;
    }

    /** The disarm scan, and the LCV restore if anything was undone. */
    method DisarmScan(port: nat, ok: nat -> bool, rx: RxPort?, land: nat -> bool) returns (torn: bool)
      requires Valid() && (rx != null ==> rx.Valid())
      modifies `sp, schemes, ram, if rx != null then {rx.lcv} else {}
      ensures Now() == DisarmTo(old(Now()), port, ok, SCHEMES)
      ensures torn <==> exists i: nat :: i < SCHEMES && Armed6(old(schemes[i]), port)
      ensures rx != null && torn && rx.usable ==>
                forall i: nat :: i < HXS_COUNT ==> rx.lcv[i] == if land(i) then ONES else old(rx.lcv[i])
      ensures rx != null && !(torn && rx.usable) ==> rx.lcv[..] == old(rx.lcv[..])
    {
      hide DisarmSlot, Armed6;
      torn := false;
      var i: nat := 0;
      while i < SCHEMES
        invariant i <= SCHEMES
        invariant Now() == DisarmTo(old(Now()), port, ok, i)
        invariant torn <==> exists j: nat :: j < i && Armed6(old(schemes[j]), port)
        invariant rx != null ==> rx.lcv[..] == old(rx.lcv[..])
      {
        DisarmIsLocal(old(Now()), port, ok, i);
        assert schemes[i] == old(schemes[i]);
        var one := DisarmOne(i, port, ok(i));
        torn := torn || one;
        i := i + 1;
      }
      if torn && rx != null {
        rx.ClearLcvSplit(land);
      }
    }
  }
}
