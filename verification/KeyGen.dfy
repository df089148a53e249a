/** Parser LCV and the KeyGen scheme walk: which scheme a frame selects. */
module KeyGen {
  import opened Kernel
  import opened Options

  const ONES: word := 0xffff_ffff
  const CATCHALLBIT: word := 0x2000_0000
  const V4BIT: word := 0x4000_0000
  const V6BIT: word := 0x8000_0000

  const ETH: nat := 0
  const IPV4: nat := 5
  const IPV6: nat := 6

  /** What selection reads of a scheme: enabled and bound to the port, and its kgse_mv. */
  datatype Scheme = Scheme(on: bool, mv: word)

  /** A frame, by the header slots the parser visits; every frame has an Ethernet header. */
  type Frame = f: seq<bool> | |f| == HXS_COUNT && f[ETH] witness [true] + seq(HXS_COUNT - 1, i => false)

  function Or(acc: word, parsed: bool, w: word): word {
    acc | if parsed then w else 0
  }

  /** The OR of the first n parsed slots' LCV words. */
  function LcvTo(f: Frame, lcv: seq<word>, n: nat): word
    requires n <= |lcv| == HXS_COUNT
  {
    if n == 0 then 0 else Or(LcvTo(f, lcv, n - 1), f[n - 1], lcv[n - 1])
  }

  function Lcv(f: Frame, lcv: seq<word>): word
    requires |lcv| == HXS_COUNT
  {
    LcvTo(f, lcv, HXS_COUNT)
  }

  predicate Has(qlcv: word, mv: word) {
    qlcv & mv == mv
  }

  predicate Matches(s: Scheme, qlcv: word) {
    s.on && Has(qlcv, s.mv)
  }

  /** The qualified LCV: plan mask and LCV. */
  function Qlcv(plan: word, lcv: word): word {
    plan & lcv
  }

  /** The first matching scheme from i on; None is FM_FD_ERR_NO_SCHEME. */
  function Select(schemes: seq<Scheme>, qlcv: word, i: nat): (r: Option<nat>)
    requires i <= |schemes|
    ensures r.Some? ==> i <= r.value < |schemes| && Matches(schemes[r.value], qlcv)
    ensures r.Some? ==> forall j :: i <= j < r.value ==> !Matches(schemes[j], qlcv)
    ensures r.None? ==> forall j :: i <= j < |schemes| ==> !Matches(schemes[j], qlcv)
    decreases |schemes| - i
  {
    if i == |schemes| then None
    else if Matches(schemes[i], qlcv) then Some(i)
    else Select(schemes, qlcv, i + 1)
  }

  /** The scheme of a frame: QLCV is the plan mask and the LCV. */
  function SchemeOf(f: Frame, lcv: seq<word>, plan: word, schemes: seq<Scheme>): Option<nat>
    requires |lcv| == HXS_COUNT
  {
    Select(schemes, Qlcv(plan, Lcv(f, lcv)), 0)
  }

  /** The LCV words of a split port. */
  predicate IsSplit(lcv: seq<word>) {
    && |lcv| == HXS_COUNT
    && lcv[ETH] == CATCHALLBIT && lcv[IPV4] == V4BIT && lcv[IPV6] == V6BIT
    && forall i :: 0 <= i < HXS_COUNT && i != ETH && i != IPV4 && i != IPV6 ==> lcv[i] == 0
  }

  /** Slots other than the three may at most repeat the catch-all bit. */
  predicate TellsFamilies(lcv: seq<word>) {
    && |lcv| == HXS_COUNT
    && lcv[ETH] == CATCHALLBIT && lcv[IPV4] == V4BIT && lcv[IPV6] == V6BIT
    && forall i :: 0 <= i < HXS_COUNT && i != ETH && i != IPV4 && i != IPV6 ==> OnlyCatchAll(lcv[i])
  }

  lemma SplitTellsFamilies(lcv: seq<word>)
    requires IsSplit(lcv)
    ensures TellsFamilies(lcv)
  {
  }

  function SplitLcv(v4: bool, v6: bool): word {
    CATCHALLBIT | (if v4 then V4BIT else 0) | (if v6 then V6BIT else 0)
  }

  lemma OrZero(w: word)
    ensures w | 0 == w
  {
  }

  /** A word with no other bit than the catch-all one. */
  predicate OnlyCatchAll(w: word) {
    w | CATCHALLBIT == CATCHALLBIT
  }

  lemma OrSkips(acc: word, parsed: bool, w: word)
    requires Has(acc, CATCHALLBIT) && OnlyCatchAll(w)
    ensures Or(acc, parsed, w) == acc
  {
  }

  /** Slots with nothing but the catch-all bit can be skipped after slot 0. */
  lemma {:induction false} Skipped(f: Frame, lcv: seq<word>, m: nat, n: nat)
    requires 1 <= m <= n <= |lcv| == HXS_COUNT && forall i :: m <= i < n ==> OnlyCatchAll(lcv[i])
    requires Has(LcvTo(f, lcv, m), CATCHALLBIT)
    ensures LcvTo(f, lcv, n) == LcvTo(f, lcv, m)
    decreases n
  {
    hide Has, OnlyCatchAll, Or;
    if m < n {
      Skipped(f, lcv, m, n - 1);
      OrSkips(LcvTo(f, lcv, n - 1), f[n - 1], lcv[n - 1]);
    }
  }

  /** On a split port the LCV says exactly which IP headers the frame has. */
  lemma SplitIsFaithful(f: Frame, lcv: seq<word>)
    requires TellsFamilies(lcv)
    ensures Lcv(f, lcv) == SplitLcv(f[IPV4], f[IPV6])
  {
    var eth := LcvTo(f, lcv, 1);
    assert eth == LcvTo(f, lcv, 0) | CATCHALLBIT == CATCHALLBIT;
    Skipped(f, lcv, 1, 5);
    assert LcvTo(f, lcv, 6) == CATCHALLBIT | (if f[IPV4] then V4BIT else 0);
    assert LcvTo(f, lcv, 7) == CATCHALLBIT | (if f[IPV4] then V4BIT else 0) | (if f[IPV6] then V6BIT else 0);
    Skipped(f, lcv, 7, 16);
  }

  /** Only the Ethernet slot and slot k. */
  function Probe(k: nat): (f: Frame)
    requires k < HXS_COUNT
    ensures forall i :: 0 <= i < HXS_COUNT ==> f[i] == (i == ETH || i == k)
  {
    seq(HXS_COUNT, i => i == ETH || i == k)
  }

  lemma {:induction false} ProbeLcv(lcv: seq<word>, k: nat, n: nat)
    requires |lcv| == HXS_COUNT && lcv[ETH] == CATCHALLBIT && 0 < k < HXS_COUNT && 1 <= n <= HXS_COUNT
    ensures LcvTo(Probe(k), lcv, n) == if n <= k then CATCHALLBIT else CATCHALLBIT | lcv[k]
  {
    if n == 1 {
      assert LcvTo(Probe(k), lcv, 0) == 0;
    } else {
      ProbeLcv(lcv, k, n - 1);
      OrZero(LcvTo(Probe(k), lcv, n - 1));
    }
  }

  lemma OrCommutes(a: word, b: word)
    ensures a | b == b | a
  {
  }

  /**
   * The readback of the split covers three of sixteen words. They tell the families apart for every
   * frame exactly when no other slot contributes anything but the catch-all bit.
   */
  lemma ThreeWordsAreNotEnough(lcv: seq<word>)
    requires |lcv| == HXS_COUNT && lcv[ETH] == CATCHALLBIT && lcv[IPV4] == V4BIT && lcv[IPV6] == V6BIT
    ensures (forall f: Frame :: Lcv(f, lcv) == SplitLcv(f[IPV4], f[IPV6])) <==>
              forall i :: 0 <= i < HXS_COUNT && i != ETH && i != IPV4 && i != IPV6 ==> OnlyCatchAll(lcv[i])
  {
    if TellsFamilies(lcv) {
      forall f: Frame ensures Lcv(f, lcv) == SplitLcv(f[IPV4], f[IPV6]) {
        SplitIsFaithful(f, lcv);
      }
    }
    if forall f: Frame :: Lcv(f, lcv) == SplitLcv(f[IPV4], f[IPV6]) {
      forall i | 0 <= i < HXS_COUNT && i != ETH && i != IPV4 && i != IPV6 ensures OnlyCatchAll(lcv[i]) {
        ProbeLcv(lcv, i, HXS_COUNT);
        assert Lcv(Probe(i), lcv) == SplitLcv(false, false);
        OrCommutes(lcv[i], CATCHALLBIT);
      }
    }
  }

  /** The port's schemes are the v4, v6 and catch-all ones, each with its own vector. */
  predicate Armed(schemes: seq<Scheme>, v4: nat, v6: nat, ca: nat) {
    && v4 < |schemes| && v6 < |schemes| && ca < |schemes| && v4 != v6 && v4 != ca && v6 != ca
    && schemes[v4] == Scheme(true, V4BIT) && schemes[v6] == Scheme(true, V6BIT) && schemes[ca] == Scheme(true, CATCHALLBIT)
    && forall i :: 0 <= i < |schemes| && i != v4 && i != v6 && i != ca ==> !schemes[i].on
  }

  function Bits(plan: word): (bool, bool, bool) {
    (Has(plan, V4BIT), Has(plan, V6BIT), Has(plan, CATCHALLBIT))
  }

  lemma QlcvBits(plan: word, v4: bool, v6: bool)
    ensures var q := Qlcv(plan, SplitLcv(v4, v6));
            && (Has(q, V4BIT) <==> v4 && Bits(plan).0)
            && (Has(q, V6BIT) <==> v6 && Bits(plan).1)
            && (Has(q, CATCHALLBIT) <==> Bits(plan).2)
  {
  }

  /** Which of the three schemes match a frame on a split, armed port. */
  lemma Matching(f: Frame, lcv: seq<word>, plan: word, schemes: seq<Scheme>, v4: nat, v6: nat, ca: nat)
    requires TellsFamilies(lcv) && Armed(schemes, v4, v6, ca)
    ensures var q := Qlcv(plan, Lcv(f, lcv));
            && (Matches(schemes[v4], q) <==> f[IPV4] && Bits(plan).0)
            && (Matches(schemes[v6], q) <==> f[IPV6] && Bits(plan).1)
            && (Matches(schemes[ca], q) <==> Bits(plan).2)
            && forall i :: 0 <= i < |schemes| && i != v4 && i != v6 && i != ca ==> !Matches(schemes[i], q)
  {
    hide Lcv, SplitLcv, Bits, TellsFamilies, Has, Qlcv;
    SplitIsFaithful(f, lcv);
    QlcvBits(plan, f[IPV4], f[IPV6]);
  }

  /** The scheme a frame should get: v4 or v6 by its only IP header, the catch-all without one. */
  predicate Right(f: Frame, r: Option<nat>, v4: nat, v6: nat, ca: nat) {
    && (f[IPV4] && !f[IPV6] ==> r == Some(v4))
    && (f[IPV6] && !f[IPV4] ==> r == Some(v6))
    && (!f[IPV4] && !f[IPV6] ==> r == Some(ca))
    && (f[IPV4] && f[IPV6] ==> r == Some(v4) || r == Some(v6))
  }

  lemma SelectsRight(f: Frame, lcv: seq<word>, plan: word, schemes: seq<Scheme>, v4: nat, v6: nat, ca: nat)
    requires TellsFamilies(lcv) && Armed(schemes, v4, v6, ca)
    requires Bits(plan) == (true, true, true) && v4 < ca && v6 < ca
    ensures Right(f, SchemeOf(f, lcv, plan, schemes), v4, v6, ca)
  {
    hide Lcv, Bits;
    Matching(f, lcv, plan, schemes, v4, v6, ca);
  }

  /** A frame that has an IPv4 header or not, an IPv6 header or not, and nothing else. */
  function FrameWith(v4: bool, v6: bool): (f: Frame)
    ensures f[IPV4] == v4 && f[IPV6] == v6
  {
    [true, false, false, false, false, v4, v6, false, false, false, false, false, false, false, false, false]
  }

  /**
   * Selection is total and right for every frame if and only if the plan mask passes all three
   * bits and the catch-all scheme comes after both IP schemes.
   */
  lemma SelectionIsRight(lcv: seq<word>, plan: word, schemes: seq<Scheme>, v4: nat, v6: nat, ca: nat)
    requires TellsFamilies(lcv) && Armed(schemes, v4, v6, ca)
    ensures (forall f: Frame :: Right(f, SchemeOf(f, lcv, plan, schemes), v4, v6, ca)) <==>
              Bits(plan) == (true, true, true) && v4 < ca && v6 < ca
  {
    hide Lcv, Bits, Right, Armed, SchemeOf;
    if Bits(plan) == (true, true, true) && v4 < ca && v6 < ca {
      forall f: Frame ensures Right(f, SchemeOf(f, lcv, plan, schemes), v4, v6, ca) {
        SelectsRight(f, lcv, plan, schemes, v4, v6, ca);
      }
    }
    if forall f: Frame :: Right(f, SchemeOf(f, lcv, plan, schemes), v4, v6, ca) {
      RightMeans(lcv, plan, schemes, v4, v6, ca);
    }
  }

  /** Three frames are enough to tell whether selection is right. */
  lemma RightMeans(lcv: seq<word>, plan: word, schemes: seq<Scheme>, v4: nat, v6: nat, ca: nat)
    requires TellsFamilies(lcv) && Armed(schemes, v4, v6, ca)
    requires Right(FrameWith(true, false), SchemeOf(FrameWith(true, false), lcv, plan, schemes), v4, v6, ca)
    requires Right(FrameWith(false, true), SchemeOf(FrameWith(false, true), lcv, plan, schemes), v4, v6, ca)
    requires Right(FrameWith(false, false), SchemeOf(FrameWith(false, false), lcv, plan, schemes), v4, v6, ca)
    ensures Bits(plan) == (true, true, true) && v4 < ca && v6 < ca
  {
    hide Lcv, Bits, Armed, Matches, FrameWith;
    Matching(FrameWith(true, false), lcv, plan, schemes, v4, v6, ca);
    Matching(FrameWith(false, true), lcv, plan, schemes, v4, v6, ca);
    Matching(FrameWith(false, false), lcv, plan, schemes, v4, v6, ca);
    Distinct(schemes, v4, v6, ca);
  }

  lemma Distinct(schemes: seq<Scheme>, v4: nat, v6: nat, ca: nat)
    requires Armed(schemes, v4, v6, ca)
    ensures v4 < |schemes| && v6 < |schemes| && ca < |schemes| && v4 != ca && v6 != ca && v4 != v6
  {
  }

  // ------------------------------------------------------------------ settings that do not work

  /** The probe's exp-apply: like the split, but with slot 0 cleared. */
  predicate WithoutCatchAll(lcv: seq<word>) {
    |lcv| == HXS_COUNT && lcv[IPV4] == V4BIT && lcv[IPV6] == V6BIT
    && forall i :: 0 <= i < HXS_COUNT && i != IPV4 && i != IPV6 ==> lcv[i] == 0
  }

  /** Slots that contribute nothing can be skipped. */
  lemma {:induction false} ZeroSlots(f: Frame, lcv: seq<word>, m: nat, n: nat)
    requires m <= n <= |lcv| == HXS_COUNT && forall i :: m <= i < n ==> lcv[i] == 0
    ensures LcvTo(f, lcv, n) == LcvTo(f, lcv, m)
    decreases n
  {
    if m < n {
      ZeroSlots(f, lcv, m, n - 1);
      OrZero(LcvTo(f, lcv, n - 1));
    }
  }

  /** With slot 0 cleared every frame without an IP header selects no scheme, catch-all armed or not. */
  lemma ClearedSlotZeroIsDeaf(f: Frame, lcv: seq<word>, plan: word, schemes: seq<Scheme>)
    requires WithoutCatchAll(lcv) && !f[IPV4] && !f[IPV6]
    requires forall i :: 0 <= i < |schemes| && schemes[i].on ==> schemes[i].mv != 0
    ensures SchemeOf(f, lcv, plan, schemes).None?
  {
    ZeroSlots(f, lcv, 0, 5);
    ZeroSlots(f, lcv, 7, 16);
    assert LcvTo(f, lcv, 5) == 0;
    assert LcvTo(f, lcv, 6) == LcvTo(f, lcv, 5) | 0;
    assert LcvTo(f, lcv, 7) == LcvTo(f, lcv, 6) | 0;
    assert Lcv(f, lcv) == 0;
    forall i | 0 <= i < |schemes| ensures !Matches(schemes[i], Qlcv(plan, 0)) {
      ZeroMatchesNothing(plan, schemes[i].mv);
    }
  }

  lemma ZeroMatchesNothing(plan: word, mv: word)
    ensures Qlcv(plan, 0) & mv == 0
  {
  }

  lemma {:induction false} OnesStay(f: Frame, lcv: seq<word>, n: nat)
    requires 1 <= n <= |lcv| == HXS_COUNT && forall i :: 0 <= i < HXS_COUNT ==> lcv[i] == ONES
    ensures LcvTo(f, lcv, n) == ONES
  {
    if n == 1 {
      assert LcvTo(f, lcv, 0) == 0;
    } else {
      OnesStay(f, lcv, n - 1);
    }
  }

  /** With the default LCV words every frame goes to the same scheme, whatever its headers. */
  lemma DefaultLcvCannotTell(f: Frame, g: Frame, lcv: seq<word>, plan: word, schemes: seq<Scheme>)
    requires |lcv| == HXS_COUNT && forall i :: 0 <= i < HXS_COUNT ==> lcv[i] == ONES
    ensures SchemeOf(f, lcv, plan, schemes) == SchemeOf(g, lcv, plan, schemes)
  {
    OnesStay(f, lcv, HXS_COUNT);
    OnesStay(g, lcv, HXS_COUNT);
  }
}
