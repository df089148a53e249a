/**
 * The scheme table, scheme RAM and port bindings: arming the IPv6 dispatch of a port and disarming
 * it. keygen_scheme_setup and keygen_bind_port_to_schemes are modelled by what their declarations
 * promise: the first writes a slot's valid bit and match vector to scheme RAM and marks the slot,
 * or fails without effect; the second adds a scheme to its port's partition or takes it out.
 */
module KeyGenTable {
  import opened Kernel
  import opened Options
  import opened KeyGen

  const SCHEMES: nat := 32
  const V6_EKFC: nat := 0x801C_0006

  /** struct keygen_scheme, as far as arm and disarm touch it. */
  datatype Entry = Entry(used: bool, port: nat, mv: word, ccBase: nat, ccBits: nat, ekfc: nat, nextEngine: nat)

  /** A free slot that holds nothing. */
  const FREE := Entry(false, 0, 0, 0, 0, 0, 0)

  /** schemes is the driver's table, ram the schemes' valid bits and match vectors, sp (port, scheme) bindings. */
  datatype Kg = Kg(schemes: seq<Entry>, ram: seq<Scheme>, sp: set<(nat, nat)>)

  predicate KgOk(k: Kg) {
    |k.schemes| == |k.ram| == SCHEMES
  }

  predicate On(s: Entry, port: nat) {
    s.used && s.port == port
  }

  predicate IsV6(s: Entry) {
    s.ccBase == 1 && s.nextEngine == 3
  }

  /** What the disarm scan has to undo: a v6 scheme, the catch-all scheme or a narrowed v4 scheme of the port. */
  predicate Armed6(s: Entry, port: nat) {
    On(s, port) && (IsV6(s) || s.mv != 0)
  }

  /** The scan frees this slot. */
  predicate Freed6(s: Entry, port: nat) {
    On(s, port) && (IsV6(s) || s.mv == CATCHALLBIT)
  }

  function Put(k: Kg, i: nat, e: Entry): (r: Kg)
    requires KgOk(k) && i < SCHEMES
    ensures KgOk(r)
  {
    k.(schemes := k.schemes[i := e])
  }

  /** keygen_scheme_setup */
  function Setup(k: Kg, i: nat, enable: bool, ok: bool): (r: Kg)
    requires KgOk(k) && i < SCHEMES
    ensures KgOk(r)
  {
    if ok then
      Put(k, i, k.schemes[i].(used := enable)).(ram := k.ram[i := Scheme(enable, k.schemes[i].mv)])
    else k
  }

  /** keygen_bind_port_to_schemes */
  function Bind(k: Kg, i: nat, on: bool): (r: Kg)
    requires KgOk(k) && i < SCHEMES
    ensures KgOk(r)
  {
    var b := (k.schemes[i].port, i);
    k.(sp := if on then k.sp + {b} else k.sp - {b})
  }

  /** What selection sees of the table for frames of one port. */
  function SchemesOf(k: Kg, port: nat): (s: seq<Scheme>)
    requires KgOk(k)
    ensures |s| == SCHEMES
    ensures forall i :: 0 <= i < SCHEMES ==> s[i] == Scheme(k.ram[i].on && (port, i) in k.sp, k.ram[i].mv)
  {
    seq(SCHEMES, i requires 0 <= i < SCHEMES => Scheme(k.ram[i].on && (port, i) in k.sp, k.ram[i].mv))
  }

  // ------------------------------------------------------------------ arming

  /** kg_find_port_scheme from slot i on: the lowest used slot of the port. */
  function FindPort(schemes: seq<Entry>, port: nat, i: nat): (r: Option<nat>)
    requires i <= |schemes|
    ensures r.Some? ==> i <= r.value < |schemes| && On(schemes[r.value], port)
    ensures r.Some? ==> forall j :: i <= j < r.value ==> !On(schemes[j], port)
    ensures r.None? ==> forall j :: i <= j < |schemes| ==> !On(schemes[j], port)
    decreases |schemes| - i
  {
    if i == |schemes| then None else if On(schemes[i], port) then Some(i) else FindPort(schemes, port, i + 1)
  }

  /** The first-fit search for a free slot from i on. */
  function FindFree(schemes: seq<Entry>, i: nat): (r: Option<nat>)
    requires i <= |schemes|
    ensures r.Some? ==> i <= r.value < |schemes| && !schemes[r.value].used
    ensures r.Some? ==> forall j :: i <= j < r.value ==> schemes[j].used
    ensures r.None? ==> forall j :: i <= j < |schemes| ==> schemes[j].used
    decreases |schemes| - i
  {
    if i == |schemes| then None else if !schemes[i].used then Some(i) else FindFree(schemes, i + 1)
  }

  /** The v4 scheme narrowed to IPv4 frames. */
  function NarrowV4(k: Kg, v4: nat, ok: bool): (r: Kg)
    requires KgOk(k) && v4 < SCHEMES
    ensures KgOk(r)
  {
    Setup(Put(k, v4, k.schemes[v4].(mv := V4BIT, used := false)), v4, true, ok)
  }

  /** A clone of the v4 slot, set up and bound if its setup succeeds. */
  function Clone(k: Kg, i: nat, e: Entry, ok: bool): (r: Kg)
    requires KgOk(k) && i < SCHEMES
    ensures KgOk(r)
  {
    var k1 := Setup(Put(k, i, e.(used := false)), i, true, ok);
    if ok then Bind(k1, i, true) else k1
  }

  function V6Entry(v4: Entry, port: nat): Entry {
    v4.(port := port, nextEngine := 3, ccBase := 1, ccBits := 0, mv := V6BIT, ekfc := V6_EKFC)
  }

  function CatchAllEntry(v4: Entry, port: nat): Entry {
    v4.(port := port, mv := CATCHALLBIT)
  }

  /** Which of the three setups of an arm succeed. */
  datatype Setups = Setups(v4: bool, v6: bool, ca: bool)

  /** How far an arm got. */
  datatype Outcome = NoScheme | NoSlot | V6Failed | NoCatchAll | CatchAllFailed | Complete

  /** The IPv6 half of fman_pcd_kg_port_arm_fe. */
  function Arm(k: Kg, port: nat, ok: Setups): (r: (Kg, Outcome))
    requires KgOk(k)
    ensures KgOk(r.0)
  {
    match (FindPort(k.schemes, port, 0), FindFree(k.schemes, 0))
    case (None, _) => (k, NoScheme)
    case (Some(v4), None) => (k, NoSlot)
    case (Some(v4), Some(v6)) =>
      var k1 := NarrowV4(k, v4, ok.v4);
      var k2 := Clone(k1, v6, V6Entry(k1.schemes[v4], port), ok.v6);
      if !ok.v6 then (k2, V6Failed)
      else
        match FindFree(k2.schemes, 0)
        case None => (k2, NoCatchAll)
        case Some(ca) =>
          (Clone(k2, ca, CatchAllEntry(k2.schemes[v4], port), ok.ca), if ok.ca then Complete else CatchAllFailed)
  }

  // ------------------------------------------------------------------ disarming

  /** The disarm scan on slot i. */
  function DisarmSlot(k: Kg, i: nat, port: nat, ok: bool): (r: Kg)
    requires KgOk(k) && i < SCHEMES
    ensures KgOk(r)
  {
    var s := k.schemes[i];
    if !Armed6(s, port) then k
    else if Freed6(s, port) then
      var wiped := s.(mv := 0, ccBase := 0, ccBits := 0, ekfc := 0, nextEngine := 0, used := true);
      var k1 := Setup(Put(Bind(k, i, false), i, wiped), i, false, ok);
      Put(k1, i, k1.schemes[i].(port := 0, used := false))
    else Setup(Put(k, i, s.(mv := 0, used := false)), i, true, ok)
  }

  /** The first n slots. */
  function DisarmTo(k: Kg, port: nat, ok: nat -> bool, n: nat): (r: Kg)
    requires KgOk(k) && n <= SCHEMES
    ensures KgOk(r)
  {
    if n == 0 then k else DisarmSlot(DisarmTo(k, port, ok, n - 1), n - 1, port, ok(n - 1))
  }

  /** A slot after the scan. */
  function DisarmedEntry(s: Entry, port: nat, ok: bool): Entry {
    if !Armed6(s, port) then s
    else if Freed6(s, port) then FREE
    else s.(mv := 0, used := ok)
  }

  function DisarmedRam(r: Scheme, s: Entry, port: nat, ok: bool): Scheme {
    if !Armed6(s, port) || !ok then r
    else Scheme(!Freed6(s, port), 0)
  }

  lemma DisarmSlotIs(k: Kg, i: nat, port: nat, ok: bool)
    requires KgOk(k) && i < SCHEMES
    ensures DisarmSlot(k, i, port, ok).schemes[i] == DisarmedEntry(k.schemes[i], port, ok)
    ensures DisarmSlot(k, i, port, ok).ram[i] == DisarmedRam(k.ram[i], k.schemes[i], port, ok)
  {
  }

  /** Nothing but slot i and its binding changes. */
  lemma DisarmSlotElsewhere(k: Kg, i: nat, port: nat, ok: bool)
    requires KgOk(k) && i < SCHEMES
    ensures var r := DisarmSlot(k, i, port, ok);
            && (forall j :: 0 <= j < SCHEMES && j != i ==> r.schemes[j] == k.schemes[j] && r.ram[j] == k.ram[j])
            && r.sp == if Freed6(k.schemes[i], port) then k.sp - {(port, i)} else k.sp
  {
  }

  /** The scan works on each slot alone and takes its own bindings out. */
  lemma {:induction false} DisarmIsLocal(k: Kg, port: nat, ok: nat -> bool, n: nat)
    requires KgOk(k) && n <= SCHEMES
    ensures var r := DisarmTo(k, port, ok, n);
            && (forall i :: 0 <= i < SCHEMES ==>
                  && r.schemes[i] == (if i < n then DisarmedEntry(k.schemes[i], port, ok(i)) else k.schemes[i])
                  && r.ram[i] == if i < n then DisarmedRam(k.ram[i], k.schemes[i], port, ok(i)) else k.ram[i])
            && (forall p, j: nat :: (p, j) in r.sp <==>
                  (p, j) in k.sp && !(j < n && p == port && Freed6(k.schemes[j], port)))
  {
    hide DisarmSlot, DisarmedEntry, DisarmedRam, Freed6;
    if n > 0 {
      DisarmIsLocal(k, port, ok, n - 1);
      var before := DisarmTo(k, port, ok, n - 1);
      DisarmSlotIs(before, n - 1, port, ok(n - 1));
      DisarmSlotElsewhere(before, n - 1, port, ok(n - 1));
    }
  }

  /**
   * After the scan, for any table: no scheme of the port is left to undo, so a second scan changes
   * nothing; freed schemes are unbound, and invalid where their setup succeeded; everything of other
   * ports and every plain scheme is as it was.
   */
  lemma ScanUndoesTheArm(k: Kg, port: nat, ok: nat -> bool, again: nat -> bool)
    requires KgOk(k)
    ensures var r := DisarmTo(k, port, ok, SCHEMES);
            && (forall i :: 0 <= i < SCHEMES ==> !Armed6(r.schemes[i], port))
            && DisarmTo(r, port, again, SCHEMES) == r
            && (forall i :: 0 <= i < SCHEMES && Freed6(k.schemes[i], port) ==>
                  r.schemes[i] == FREE && (port, i) !in r.sp && (ok(i) ==> r.ram[i] == Scheme(false, 0)))
            && (forall i :: 0 <= i < SCHEMES && !Armed6(k.schemes[i], port) ==>
                  r.schemes[i] == k.schemes[i] && r.ram[i] == k.ram[i])
            && (forall i :: 0 <= i < SCHEMES && Armed6(k.schemes[i], port) && !Freed6(k.schemes[i], port) ==>
                  && r.schemes[i] == k.schemes[i].(mv := 0, used := ok(i))
                  && r.ram[i] == (if ok(i) then Scheme(true, 0) else k.ram[i]) && ((port, i) in r.sp <==> (port, i) in k.sp))
            && (forall p, i: nat :: p != port ==> ((p, i) in r.sp <==> (p, i) in k.sp))
  {
    hide DisarmTo;
    DisarmIsLocal(k, port, ok, SCHEMES);
    NothingToScan(DisarmTo(k, port, ok, SCHEMES), port, again, SCHEMES);
  }

  lemma {:induction false} NothingToScan(k: Kg, port: nat, ok: nat -> bool, n: nat)
    requires KgOk(k) && n <= SCHEMES && forall i :: 0 <= i < SCHEMES ==> !Armed6(k.schemes[i], port)
    ensures DisarmTo(k, port, ok, n) == k
  {
    if n > 0 {
      NothingToScan(k, port, ok, n - 1);
    }
  }

  // ------------------------------------------------------------------ what an arm achieves

  /** The port before an arm: one scheme, matching everything, and nothing else bound. */
  ghost predicate Ready(k: Kg, port: nat, v4: nat) {
    && KgOk(k) && v4 < SCHEMES
    && (forall i :: 0 <= i < SCHEMES ==> (On(k.schemes[i], port) <==> i == v4))
    && k.schemes[v4].mv == 0 && !IsV6(k.schemes[v4]) && k.ram[v4] == Scheme(true, 0)
    && (forall i: nat :: (port, i) in k.sp <==> i == v4)
  }

  /** Fewer than two free slots below v4. */
  predicate AtMostOneFreeBelow(k: Kg, v4: nat)
    requires KgOk(k) && v4 < SCHEMES
  {
    forall i, j :: 0 <= i < j < v4 ==> k.schemes[i].used || k.schemes[j].used
  }

  const ALL_OK := Setups(true, true, true)

  /** The table after a complete arm. */
  function ArmedKg(k: Kg, port: nat, v4: nat, v6: nat, ca: nat): (r: Kg)
    requires KgOk(k) && v4 < SCHEMES && v6 < SCHEMES && ca < SCHEMES
    ensures KgOk(r)
  {
    var e := k.schemes[v4].(mv := V4BIT, used := true);
    Kg(k.schemes[v4 := e][v6 := V6Entry(e, port)][ca := CatchAllEntry(e, port)],
       k.ram[v4 := Scheme(true, V4BIT)][v6 := Scheme(true, V6BIT)][ca := Scheme(true, CATCHALLBIT)],
       k.sp + {(port, v6), (port, ca)})
  }

  /** Slots v6 and ca are the first two free ones. */
  predicate FirstTwoFree(k: Kg, v6: nat, ca: nat)
    requires KgOk(k)
  {
    && v6 < ca < SCHEMES && !k.schemes[v6].used && !k.schemes[ca].used
    && forall i :: 0 <= i < ca && i != v6 ==> k.schemes[i].used
  }

  /** An arm whose setups succeed completes exactly when two slots are free. */
  lemma TwoFreeSlotsAreEnough(k: Kg, port: nat, v4: nat)
    requires Ready(k, port, v4)
    ensures Arm(k, port, ALL_OK).1 == Complete <==>
              exists i, j :: 0 <= i < j < SCHEMES && !k.schemes[i].used && !k.schemes[j].used
  {
    hide Arm;
    ArmStops(k, port, v4, ALL_OK);
    if i, j :| 0 <= i < j < SCHEMES && !k.schemes[i].used && !k.schemes[j].used {
      assert TwoFree(k, i, j);
    }
  }

  lemma ArmIs(k: Kg, port: nat, v4: nat) returns (v6: nat, ca: nat)
    requires Ready(k, port, v4) && Arm(k, port, ALL_OK).1 == Complete
    ensures FirstTwoFree(k, v6, ca) && v6 != v4 && ca != v4
    ensures Arm(k, port, ALL_OK).0 == ArmedKg(k, port, v4, v6, ca)
  {
    hide FindPort, FindFree;
    var k1 := NarrowV4(k, v4, true);
    v6 := FindFree(k.schemes, 0).value;
    var k2 := Clone(k1, v6, V6Entry(k1.schemes[v4], port), true);
    assert forall i :: 0 <= i < SCHEMES ==> (k2.schemes[i].used <==> k.schemes[i].used || i == v6);
    ca := FindFree(k2.schemes, 0).value;
    assert k.sp + {(port, v6)} + {(port, ca)} == k.sp + {(port, v6), (port, ca)};
  }

  /**
   * A complete arm, field by field: the v6 slot has its own extraction word, table base and match bit,
   * the catch-all slot is the v4 scheme but for its match bit, the v4 slot changes in its match bit
   * only, and no other slot or binding changes.
   */
  lemma ArmFields(k: Kg, port: nat, v4: nat) returns (v6: nat, ca: nat)
    requires Ready(k, port, v4) && Arm(k, port, ALL_OK).1 == Complete
    ensures FirstTwoFree(k, v6, ca) && v6 != v4 && ca != v4
    ensures var s := Arm(k, port, ALL_OK).0.schemes[v6];
            && s.used && s.port == port && s.mv == 0x8000_0000 && s.ekfc == 0x801c_0006
            && s.ccBase == 1 && s.ccBits == 0 && s.nextEngine == 3
    ensures var c, e := Arm(k, port, ALL_OK).0.schemes[ca], k.schemes[v4];
            && c.used && c.port == port && c.mv == 0x2000_0000 && c.ekfc == e.ekfc
            && c.ccBase == e.ccBase && c.ccBits == e.ccBits && c.nextEngine == e.nextEngine
    ensures var w, e := Arm(k, port, ALL_OK).0.schemes[v4], k.schemes[v4];
            && w.used && w.port == port && w.mv == 0x4000_0000 && w.ekfc == e.ekfc
            && w.ccBase == e.ccBase && w.ccBits == e.ccBits && w.nextEngine == e.nextEngine
    ensures var r := Arm(k, port, ALL_OK).0;
            && r.ram[v4] == Scheme(true, 0x4000_0000) && r.ram[v6] == Scheme(true, 0x8000_0000)
            && r.ram[ca] == Scheme(true, 0x2000_0000)
            && (forall i :: 0 <= i < 32 && i != v4 && i != v6 && i != ca ==>
                  r.schemes[i] == k.schemes[i] && r.ram[i] == k.ram[i])
            && forall p, i: nat :: (p, i) in r.sp <==> (p, i) in k.sp || (p == port && (i == v6 || i == ca))
  {
    hide Arm;
    v6, ca := ArmIs(k, port, v4);
    assert On(k.schemes[v4], port);
  }

  // ------------------------------------------------------------------ arms that stop on the way

  /** An arm goes nowhere exactly when the port has no scheme or no slot is free, and then changes nothing. */
  lemma ArmGoesNowhere(k: Kg, port: nat, ok: Setups)
    requires KgOk(k)
    ensures var (r, o) := Arm(k, port, ok);
            && (o == NoScheme <==> forall i :: 0 <= i < 32 ==> !(k.schemes[i].used && k.schemes[i].port == port))
            && (o == NoSlot <==> o != NoScheme && forall i :: 0 <= i < 32 ==> k.schemes[i].used)
            && (o == NoScheme || o == NoSlot ==> r == k)
  {
    hide FindPort, FindFree;
    if FindPort(k.schemes, port, 0).Some? {
      assert On(k.schemes[FindPort(k.schemes, port, 0).value], port);
    }
    forall i | 0 <= i < SCHEMES ensures On(k.schemes[i], port) <==> k.schemes[i].used && k.schemes[i].port == port {
    }
  }

  /** Slots i and j are free. */
  predicate TwoFree(k: Kg, i: nat, j: nat)
    requires KgOk(k)
  {
    i < j < SCHEMES && !k.schemes[i].used && !k.schemes[j].used
  }

  /** Where an arm of a ready port stops once its v4 scheme is set up: by its setups and the free slots alone. */
  lemma ArmStops(k: Kg, port: nat, v4: nat, ok: Setups)
    requires Ready(k, port, v4) && ok.v4
    ensures var o := Arm(k, port, ok).1;
            && o != NoScheme
            && (o == NoSlot <==> forall i :: 0 <= i < 32 ==> k.schemes[i].used)
            && (o == V6Failed <==> o != NoSlot && !ok.v6)
            && (o == NoCatchAll <==> o != NoSlot && ok.v6 && forall i, j :: !TwoFree(k, i, j))
            && (o == CatchAllFailed <==> ok.v6 && !ok.ca && exists i, j :: TwoFree(k, i, j))
            && (o == Complete <==> ok.v6 && ok.ca && exists i, j :: TwoFree(k, i, j))
  {
    hide FindPort, FindFree;
    assert FindPort(k.schemes, port, 0) == Some(v4);
    if FindFree(k.schemes, 0).Some? && ok.v6 {
      var v6 := FindFree(k.schemes, 0).value;
      var k1 := NarrowV4(k, v4, true);
      var k2 := Clone(k1, v6, V6Entry(k1.schemes[v4], port), true);
      assert forall i :: 0 <= i < SCHEMES ==> (k2.schemes[i].used <==> k.schemes[i].used || i == v6);
      if FindFree(k2.schemes, 0).Some? {
        assert TwoFree(k, v6, FindFree(k2.schemes, 0).value);
      }
    }
  }

  /** What is bound and on once the v4 and v6 schemes are set up but the catch-all is not. */
  lemma WithoutCatchAllIs(k: Kg, port: nat, v4: nat, ok: Setups) returns (v6: nat)
    requires Ready(k, port, v4) && ok.v4 && ok.v6 && Arm(k, port, ok).1 in {NoCatchAll, CatchAllFailed}
    ensures v6 < SCHEMES && v6 != v4
    ensures var r := Arm(k, port, ok).0;
            && r.ram == k.ram[v4 := Scheme(true, V4BIT)][v6 := Scheme(true, V6BIT)] && r.sp == k.sp + {(port, v6)}
  {
    hide FindPort, FindFree;
    v6 := FindFree(k.schemes, 0).value;
  }

  /**
   * An arm that gets no catch-all scheme, because no slot is left or its setup fails, still splits the
   * parser's words: then IP frames get their schemes and every other frame gets none.
   */
  lemma NoCatchAllIsDeaf(k: Kg, port: nat, v4: nat, ok: Setups, lcv: seq<word>) returns (v6: nat)
    requires Ready(k, port, v4) && ok.v4 && ok.v6 && Arm(k, port, ok).1 in {NoCatchAll, CatchAllFailed} && IsSplit(lcv)
    ensures forall f: Frame ::
              var s := SchemeOf(f, lcv, ONES, SchemesOf(Arm(k, port, ok).0, port));
              && (f[5] && !f[6] ==> s == Some(v4)) && (f[6] && !f[5] ==> s == Some(v6)) && (!f[5] && !f[6] ==> s == None)
  {
    hide Arm;
    v6 := WithoutCatchAllIs(k, port, v4, ok);
    var schemes := SchemesOf(Arm(k, port, ok).0, port);
    SplitTellsFamilies(lcv);
    OnesPassAll();
    forall f: Frame
      ensures var s := SchemeOf(f, lcv, ONES, schemes);
              (f[5] && !f[6] ==> s == Some(v4)) && (f[6] && !f[5] ==> s == Some(v6)) && (!f[5] && !f[6] ==> s == None)
    {
      TwoSchemes(f, lcv, schemes, v4, v6);
    }
  }

  lemma TwoSchemes(f: Frame, lcv: seq<word>, schemes: seq<Scheme>, v4: nat, v6: nat)
    requires TellsFamilies(lcv) && v4 < |schemes| && v6 < |schemes| && v4 != v6
    requires schemes[v4] == Scheme(true, V4BIT) && schemes[v6] == Scheme(true, V6BIT)
    requires forall i :: 0 <= i < |schemes| && i != v4 && i != v6 ==> !schemes[i].on
    ensures var s := SchemeOf(f, lcv, ONES, schemes);
            && (f[IPV4] && !f[IPV6] ==> s == Some(v4)) && (f[IPV6] && !f[IPV4] ==> s == Some(v6))
            && (!f[IPV4] && !f[IPV6] ==> s == None)
  {
    hide Lcv, SplitLcv, TellsFamilies, Has, Qlcv, Bits;
    SplitIsFaithful(f, lcv);
    QlcvBits(ONES, f[IPV4], f[IPV6]);
    OnesPassAll();
  }

  /** An arm whose v6 setup fails stops before the split: with the default words every frame goes on to the v4 scheme. */
  lemma V6FailureIsHarmless(k: Kg, port: nat, v4: nat, ok: Setups, lcv: seq<word>, f: Frame)
    requires Ready(k, port, v4) && ok.v4 && Arm(k, port, ok).1 == V6Failed
    requires |lcv| == HXS_COUNT && forall i :: 0 <= i < HXS_COUNT ==> lcv[i] == ONES
    ensures SchemeOf(f, lcv, ONES, SchemesOf(Arm(k, port, ok).0, port)) == Some(v4)
  {
    V6FailedIs(k, port, v4, ok);
    hide Arm;
    OnesStay(f, lcv, HXS_COUNT);
    var schemes := SchemesOf(Arm(k, port, ok).0, port);
    assert Lcv(f, lcv) == ONES && Matches(schemes[v4], Qlcv(ONES, ONES));
    forall i | 0 <= i < SCHEMES && i != v4 ensures !schemes[i].on {
      assert !((port, i) in k.sp);
    }
  }

  lemma V6FailedIs(k: Kg, port: nat, v4: nat, ok: Setups)
    requires Ready(k, port, v4) && ok.v4 && Arm(k, port, ok).1 == V6Failed
    ensures var r := Arm(k, port, ok).0; r.ram == k.ram[v4 := Scheme(true, V4BIT)] && r.sp == k.sp
  {
    hide FindPort, FindFree;
  }

  /** The catch-all comes after the v4 scheme exactly when at most one lower slot was free. */
  lemma CatchAllIsLast(k: Kg, v4: nat, v6: nat, ca: nat)
    requires KgOk(k) && v4 < SCHEMES && FirstTwoFree(k, v6, ca) && k.schemes[v4].used
    ensures v4 < ca <==> AtMostOneFreeBelow(k, v4)
  {
  }

  /**
   * After an arm whose setups succeed, with the parser split and the plan passing all, every frame
   * gets its scheme if and only if at most one slot below the port's own scheme was free before.
   */
  lemma ArmSelectsRight(k: Kg, port: nat, v4: nat, lcv: seq<word>) returns (v6: nat, ca: nat)
    requires Ready(k, port, v4) && Arm(k, port, ALL_OK).1 == Complete && IsSplit(lcv)
    ensures FirstTwoFree(k, v6, ca) && Arm(k, port, ALL_OK).0 == ArmedKg(k, port, v4, v6, ca)
    ensures var schemes := SchemesOf(Arm(k, port, ALL_OK).0, port);
            (forall f: Frame :: Right(f, SchemeOf(f, lcv, ONES, schemes), v4, v6, ca)) <==> AtMostOneFreeBelow(k, v4)
  {
    hide Arm, Right, SchemeOf, AtMostOneFreeBelow;
    v6, ca := ArmIs(k, port, v4);
    CatchAllIsLast(k, v4, v6, ca);
    SplitTellsFamilies(lcv);
    OnesPassAll();
    SelectionIsRight(lcv, ONES, SchemesOf(ArmedKg(k, port, v4, v6, ca), port), v4, v6, ca);
  }

  lemma OnesPassAll()
    ensures Bits(ONES) == (true, true, true)
  {
  }

  /** Free slots hold nothing and are invalid in scheme RAM. */
  predicate FreeIsBlank(k: Kg)
    requires KgOk(k)
  {
    forall i :: 0 <= i < SCHEMES && !k.schemes[i].used ==> k.schemes[i] == FREE && k.ram[i] == Scheme(false, 0)
  }

  /** Reversibility: arm and then disarm, all setups succeeding, gives back the table, RAM and bindings. */
  lemma DisarmUndoesArm(k: Kg, port: nat, v4: nat, ok: nat -> bool)
    requires Ready(k, port, v4) && FreeIsBlank(k) && Arm(k, port, ALL_OK).1 == Complete
    requires forall i :: 0 <= i < SCHEMES ==> ok(i)
    ensures DisarmTo(Arm(k, port, ALL_OK).0, port, ok, SCHEMES) == k
  {
    hide Arm, DisarmTo;
    var v6, ca := ArmIs(k, port, v4);
    var a := ArmedKg(k, port, v4, v6, ca);
    DisarmIsLocal(a, port, ok, SCHEMES);
    var r := DisarmTo(a, port, ok, SCHEMES);
    assert r.schemes == k.schemes && r.ram == k.ram;
    forall b ensures b in r.sp <==> b in k.sp {
      assert b == (b.0, b.1);
    }
    assert r.sp == k.sp;
  }

  /** The same slots are used, for the same; scheme RAM and bindings are the same. */
  predicate SameUse(k: Kg, r: Kg)
    requires KgOk(k) && KgOk(r)
  {
    && (forall i :: 0 <= i < SCHEMES ==> if k.schemes[i].used then r.schemes[i] == k.schemes[i] else !r.schemes[i].used)
    && r.ram == k.ram && r.sp == k.sp
  }

  /** What an arm of a ready port touches, slot by slot, when the v4 setup succeeds. */
  ghost predicate Touched(k: Kg, r: Kg, port: nat, v4: nat)
    requires KgOk(k) && KgOk(r) && v4 < SCHEMES
  {
    && r.schemes[v4] == k.schemes[v4].(mv := V4BIT, used := true) && r.ram[v4] == Scheme(true, V4BIT)
    && (forall i :: 0 <= i < SCHEMES && i != v4 && k.schemes[i].used ==> r.schemes[i] == k.schemes[i] && r.ram[i] == k.ram[i])
    && (forall i :: 0 <= i < SCHEMES && !k.schemes[i].used && !r.schemes[i].used ==> r.ram[i] == k.ram[i])
    && (forall i :: 0 <= i < SCHEMES && !k.schemes[i].used && r.schemes[i].used ==> Freed6(r.schemes[i], port))
    && (forall p, i: nat :: (p, i) in r.sp <==>
          (p, i) in k.sp || (p == port && i < SCHEMES && !k.schemes[i].used && r.schemes[i].used))
  }

  lemma ArmTouches(k: Kg, port: nat, v4: nat, ok: Setups)
    requires Ready(k, port, v4) && ok.v4 && Arm(k, port, ok).1 != NoSlot
    ensures Touched(k, Arm(k, port, ok).0, port, v4)
  {
    hide FindPort, FindFree;
    assert FindPort(k.schemes, port, 0) == Some(v4);
    var v6 := FindFree(k.schemes, 0).value;
    var k1 := NarrowV4(k, v4, true);
    var k2 := Clone(k1, v6, V6Entry(k1.schemes[v4], port), ok.v6);
    assert Touched(k, k2, port, v4);
    if ok.v6 && FindFree(k2.schemes, 0).Some? {
      var ca := FindFree(k2.schemes, 0).value;
      assert ca != v4 && ca != v6 && !k.schemes[ca].used;
    }
  }

  /**
   * Recovery: whatever fails in an arm, a scan whose setups succeed gives the port back what it had if
   * and only if the setup of the narrowed v4 scheme did not fail.
   */
  lemma DisarmRecovers(k: Kg, port: nat, v4: nat, ok: Setups, again: nat -> bool)
    requires Ready(k, port, v4) && FreeIsBlank(k) && Arm(k, port, ok).1 != NoSlot
    requires forall i :: 0 <= i < SCHEMES ==> again(i)
    ensures SameUse(k, DisarmTo(Arm(k, port, ok).0, port, again, SCHEMES)) <==> ok.v4
  {
    var a := Arm(k, port, ok).0;
    DisarmIsLocal(a, port, again, SCHEMES);
    if ok.v4 {
      ArmTouches(k, port, v4, ok);
      hide Arm, DisarmTo, Freed6;
      TouchedIsUndone(k, a, DisarmTo(a, port, again, SCHEMES), port, v4, again);
    } else {
      V4Lost(k, port, v4, ok);
      assert k.schemes[v4].used by { assert On(k.schemes[v4], port); }
    }
  }

  lemma TouchedIsUndone(k: Kg, a: Kg, r: Kg, port: nat, v4: nat, again: nat -> bool)
    requires Ready(k, port, v4) && FreeIsBlank(k) && KgOk(a) && KgOk(r) && Touched(k, a, port, v4)
    requires forall i :: 0 <= i < SCHEMES ==> again(i)
    requires forall i :: 0 <= i < SCHEMES ==> r.schemes[i] == DisarmedEntry(a.schemes[i], port, again(i))
    requires forall i :: 0 <= i < SCHEMES ==> r.ram[i] == DisarmedRam(a.ram[i], a.schemes[i], port, again(i))
    requires forall p, j: nat :: (p, j) in r.sp <==>
               (p, j) in a.sp && !(j < SCHEMES && p == port && Freed6(a.schemes[j], port))
    ensures SameUse(k, r)
  {
    forall i | 0 <= i < SCHEMES
      ensures r.ram[i] == k.ram[i] && if k.schemes[i].used then r.schemes[i] == k.schemes[i] else !r.schemes[i].used
    {
      assert On(k.schemes[i], port) <==> i == v4;
    }
    forall b ensures b in r.sp <==> b in k.sp {
      assert b == (b.0, b.1);
    }
    assert r.ram == k.ram && r.sp == k.sp;
  }

  /** A v4 scheme whose setup failed is no longer the port's, and stays lost. */
  lemma V4Lost(k: Kg, port: nat, v4: nat, ok: Setups)
    requires Ready(k, port, v4) && !ok.v4 && Arm(k, port, ok).1 != NoSlot
    ensures var s := Arm(k, port, ok).0.schemes[v4]; !s.used || Freed6(s, port)
  {
    hide FindPort, FindFree;
    assert FindPort(k.schemes, port, 0) == Some(v4);
  }

  // ------------------------------------------------------------------ a table on which it goes wrong

  /** Slots 0 and 1 are free, port 8 has its scheme in slot 2, the rest belongs to port 9. */
  function LateScheme(): (k: Kg)
    ensures Ready(k, 8, 2) && Arm(k, 8, ALL_OK).1 == Complete
  {
    var k := Kg(seq(SCHEMES, i => if i < 2 || i == 3 then FREE else Entry(true, if i == 2 then 8 else 9, 0, 0, 0, 0, 2)),
                seq(SCHEMES, i => if i < 2 || i == 3 then Scheme(false, 0) else Scheme(true, 0)), {(8, 2)});
    TwoFreeSlotsAreEnough(k, 8, 2);
    assert !k.schemes[0].used && !k.schemes[1].used;
    k
  }

  /** There the catch-all scheme gets slot 1, below the v4 scheme, and takes every IPv4 frame. */
  lemma CatchAllTakesIPv4(lcv: seq<word>)
    requires IsSplit(lcv)
    ensures SchemeOf(FrameWith(true, false), lcv, ONES, SchemesOf(Arm(LateScheme(), 8, ALL_OK).0, 8)) == Some(1)
  {
    hide Lcv, Bits, Has, Arm;
    var k := LateScheme();
    var v6, ca := ArmIs(k, 8, 2);
    assert !k.schemes[0].used && !k.schemes[1].used;
    assert v6 == 0 && ca == 1;
    SplitTellsFamilies(lcv);
    OnesPassAll();
    Matching(FrameWith(true, false), lcv, ONES, SchemesOf(ArmedKg(k, 8, 2, 0, 1), 8), 2, 0, 1);
  }
}
