/** The two-rate three-color marker of the policer, on 32-bit counters and a wrapping clock. */
module Policer {
  import opened Bytes
  import opened TokenBucket

  datatype Color = Green | Yellow | Red

  /** CIR, CBS, PIR and PBS of a profile. */
  datatype Rates = Rates(cir: u32, cbs: u32, pir: u32, pbs: u32)

  /** Both token counters and the time they were last refreshed. */
  datatype Marker = Marker(c: u32, e: u32, last: u32)

  datatype Packet = Packet(len: u32, now: u32)

  /** 32-bit subtraction: the time since the last refresh, if less than 2^32 units passed. */
  function Since(last: u32, now: u32): u32 {
    (now - last) % U32
  }

  function Refill(tokens: u32, cap: u32, rate: u32, elapsed: u32): u32 {
    var sum := tokens + rate * elapsed;
    assert rate * elapsed >= 0;
    if sum > cap then cap else sum
  }

  /** One frame: refill both buckets, then decide and take tokens. */
  function Step(r: Rates, s: Marker, p: Packet): (Marker, Color) {
    var dt := Since(s.last, p.now);
    var c, e := Refill(s.c, r.cbs, r.cir, dt), Refill(s.e, r.pbs, r.pir, dt);
    if e < p.len then (Marker(c, e, p.now), Red)
    else if c < p.len then (Marker(c, e - p.len, p.now), Yellow)
    else (Marker(c - p.len, e - p.len, p.now), Green)
  }

  lemma ProductFits(a: nat, b: nat, m: nat)
    requires a <= m && b <= m
    ensures a * b <= m * m
  {
    assert a * (m - b) >= 0;
    assert m * (m - a) >= 0;
  }

  /** The 64-bit arithmetic of the refill never wraps. */
  lemma RefillFits64(tokens: u32, rate: u32, elapsed: u32)
    ensures 0 <= elapsed * rate < U64 && 0 <= tokens + elapsed * rate < U64
    ensures (tokens + elapsed * rate % U64) % U64 == tokens + rate * elapsed
  {
    ProductFits(elapsed, rate, U32 - 1);
    assert (U32 - 1) * (U32 - 1) + U32 <= U64;
  }

  /** What the policer computes in 64 bits and clamps. */
  function Clamped64(tokens: u32, cap: u32, rate: u32, elapsed: u32): (r: u32)
    ensures r == Refill(tokens, cap, rate, elapsed) && r <= cap
  {
    RefillFits64(tokens, rate, elapsed);
    var sum: u64 := (tokens + elapsed * rate % U64) % U64;
    if sum > cap then cap else sum
  }

  class Profile {
    const rates: Rates
    var cTokens: u32
    var eTokens: u32
    var lastTimestamp: u32

    constructor (rates: Rates, c: u32, e: u32, last: u32)
      ensures this.rates == rates && State() == Marker(c, e, last)
    {
      this.rates := rates;
      cTokens, eTokens, lastTimestamp := c, e, last;
    }

    function State(): Marker
      reads this
    {
      Marker(cTokens, eTokens, lastTimestamp)
    }

    /** fman_policer_evaluate; the mode flags, the input color and the actions take no part in it. */
    method Evaluate(frameLen: u32, currentTime: u32) returns (color: Color)
      modifies this
      ensures (State(), color) == Step(rates, old(State()), Packet(frameLen, currentTime))
      ensures cTokens <= rates.cbs && eTokens <= rates.pbs
    {
      hide Refill, Clamped64;
      var elapsed := Since(lastTimestamp, currentTime);
      lastTimestamp := currentTime;
      cTokens := Clamped64(cTokens, rates.cbs, rates.cir, elapsed);
      eTokens := Clamped64(eTokens, rates.pbs, rates.pir, elapsed);
      if eTokens < frameLen {
        color := Red;
      } else if cTokens < frameLen {
        eTokens := eTokens - frameLen;
        color := Yellow;
      } else {
        cTokens := cTokens - frameLen;
        eTokens := eTokens - frameLen;
        color := Green;
      }
    }
  }

  // ------------------------------------------------------------------ runs

  /** The marker after the first n packets. */
  function After(r: Rates, s: Marker, pkts: seq<Packet>, n: nat): Marker
    requires n <= |pkts|
  {
    if n == 0 then s else Step(r, After(r, s, pkts, n - 1), pkts[n - 1]).0
  }

  function ColorOf(r: Rates, s: Marker, pkts: seq<Packet>, n: nat): Color
    requires n < |pkts|
  {
    Step(r, After(r, s, pkts, n), pkts[n]).1
  }

  /** The elapsed time the marker computes before each packet. */
  function Gaps(r: Rates, s: Marker, pkts: seq<Packet>): (el: seq<nat>)
    ensures |el| == |pkts|
    ensures forall i :: 0 <= i < |pkts| ==> el[i] == Since(After(r, s, pkts, i).last, pkts[i].now)
  {
    seq(|pkts|, i requires 0 <= i < |pkts| => Since(After(r, s, pkts, i).last, pkts[i].now))
  }

  /** Bytes that packet i took from the committed bucket. */
  function GreenBytes(r: Rates, s: Marker, pkts: seq<Packet>): (take: seq<nat>)
    ensures |take| == |pkts|
    ensures forall i :: 0 <= i < |pkts| ==> take[i] == if ColorOf(r, s, pkts, i).Green? then pkts[i].len else 0
  {
    seq(|pkts|, i requires 0 <= i < |pkts| => if ColorOf(r, s, pkts, i).Green? then pkts[i].len else 0)
  }

  /** Bytes that packet i took from the peak bucket. */
  function PassedBytes(r: Rates, s: Marker, pkts: seq<Packet>): (take: seq<nat>)
    ensures |take| == |pkts|
    ensures forall i :: 0 <= i < |pkts| ==> take[i] == if ColorOf(r, s, pkts, i).Red? then 0 else pkts[i].len
  {
    seq(|pkts|, i requires 0 <= i < |pkts| => if ColorOf(r, s, pkts, i).Red? then 0 else pkts[i].len)
  }

  function Committed(r: Rates, s: Marker): Bucket {
    Bucket(s.c, r.cbs, r.cir)
  }

  function Peak(r: Rates, s: Marker): Bucket {
    Bucket(s.e, r.pbs, r.pir)
  }

  /** The marker's two counters are two token buckets. */
  lemma {:induction false} CountersAreBuckets(r: Rates, s: Marker, pkts: seq<Packet>, n: nat)
    requires n <= |pkts|
    ensures After(r, s, pkts, n).c == Left(Committed(r, s), Gaps(r, s, pkts), GreenBytes(r, s, pkts), n)
    ensures After(r, s, pkts, n).e == Left(Peak(r, s), Gaps(r, s, pkts), PassedBytes(r, s, pkts), n)
  {
    hide Refill, Since, Step, Gaps, GreenBytes, PassedBytes;
    if n > 0 {
      CountersAreBuckets(r, s, pkts, n - 1);
      StepIsLevels(r, After(r, s, pkts, n - 1), pkts[n - 1]);
    }
  }

  lemma StepIsLevels(r: Rates, m: Marker, p: Packet)
    ensures var (m', color), dt := Step(r, m, p), Since(m.last, p.now);
            && m'.c == Min(r.cbs, m.c + r.cir * dt) - (if color.Green? then p.len else 0)
            && m'.e == Min(r.pbs, m.e + r.pir * dt) - (if color.Red? then 0 else p.len)
            && m'.last == p.now
  {
    hide Refill, Since;
    RefillIsLevel(m.c, r.cbs, r.cir, Since(m.last, p.now));
    RefillIsLevel(m.e, r.pbs, r.pir, Since(m.last, p.now));
  }

  lemma RefillIsLevel(tokens: u32, cap: u32, rate: u32, elapsed: u32)
    ensures Refill(tokens, cap, rate, elapsed) == Min(cap, tokens + rate * elapsed)
  {
  }

  /**
   * The color of every packet of every run, in terms of traffic alone: not red exactly when no
   * window ending with it overdraws the peak envelope PBS + PIR * time, green exactly when none
   * overdraws the committed envelope CBS + CIR * time either.
   */
  lemma ColorsAreEnvelopes(r: Rates, s: Marker, pkts: seq<Packet>, n: nat)
    requires n < |pkts|
    ensures var el, green, passed := Gaps(r, s, pkts), GreenBytes(r, s, pkts), PassedBytes(r, s, pkts);
            && (!ColorOf(r, s, pkts, n).Red? <==> Conforms(Peak(r, s), el, passed, n, pkts[n].len))
            && (ColorOf(r, s, pkts, n).Green? <==>
                  Conforms(Peak(r, s), el, passed, n, pkts[n].len) && Conforms(Committed(r, s), el, green, n, pkts[n].len))
  {
    hide Refill, Since, Conforms;
    var el, green, passed := Gaps(r, s, pkts), GreenBytes(r, s, pkts), PassedBytes(r, s, pkts);
    CountersAreBuckets(r, s, pkts, n);
    var m := After(r, s, pkts, n);
    RefillIsLevel(m.c, r.cbs, r.cir, el[n]);
    RefillIsLevel(m.e, r.pbs, r.pir, el[n]);
    Envelope(Peak(r, s), el, passed, n, pkts[n].len);
    Envelope(Committed(r, s), el, green, n, pkts[n].len);
  }

  /** Real times of arrival behind the 32-bit clock readings. */
  ghost predicate Clock(s: Marker, pkts: seq<Packet>, start: nat, times: seq<nat>) {
    && |times| == |pkts|
    && s.last == start % U32
    && (forall i :: 0 <= i < |pkts| ==> pkts[i].now == times[i] % U32)
    && (forall i :: 0 <= i < |pkts| ==> Prev(start, times, i) <= times[i])
  }

  /** The time of the refresh before packet i. */
  function Prev(start: nat, times: seq<nat>, i: nat): nat
    requires i <= |times|
  {
    if i == 0 then start else times[i - 1]
  }

  lemma {:induction false} LastIs(r: Rates, s: Marker, pkts: seq<Packet>, n: nat)
    requires n <= |pkts|
    ensures After(r, s, pkts, n).last == if n == 0 then s.last else pkts[n - 1].now
  {
    hide Refill, Since;
  }

  lemma WrapOnlyShortens(a: nat, b: nat)
    requires a <= b
    ensures Since(a % U32, b % U32) == (b - a) % U32 <= b - a
  {
  }

  lemma GapIsShort(r: Rates, s: Marker, pkts: seq<Packet>, start: nat, times: seq<nat>, n: nat)
    requires Clock(s, pkts, start, times) && n < |pkts|
    ensures |times| == |pkts| && Prev(start, times, n) <= times[n]
    ensures Gaps(r, s, pkts)[n] <= times[n] - Prev(start, times, n)
  {
    hide Since, Step, After;
    LastIs(r, s, pkts, n);
    WrapOnlyShortens(Prev(start, times, n), times[n]);
  }

  lemma {:induction false} GapsAreShort(r: Rates, s: Marker, pkts: seq<Packet>, start: nat, times: seq<nat>, i: nat,
                                        j: nat)
    requires Clock(s, pkts, start, times) && i < j <= |pkts|
    ensures |times| == |pkts| && times[i] <= times[j - 1]
    ensures Elapsed(Gaps(r, s, pkts), i + 1, j) <= times[j - 1] - times[i]
    decreases j
  {
    hide Since, Step, After, Gaps, Clock;
    GapIsShort(r, s, pkts, start, times, j - 1);
    if i + 1 < j {
      GapsAreShort(r, s, pkts, start, times, i, j - 1);
    }
  }

  /**
   * Committed rate in real time: in any window of any run, however often the clock wraps, green
   * bytes are at most CBS + CIR * T.
   */
  lemma CommittedRateIsEnforced(r: Rates, s: Marker, pkts: seq<Packet>, start: nat, times: seq<nat>, i: nat, j: nat)
    requires Clock(s, pkts, start, times) && i < j <= |pkts|
    ensures times[i] <= times[j - 1]
    ensures Taken(GreenBytes(r, s, pkts), i, j) <= r.cbs + r.cir * (times[j - 1] - times[i])
  {
    hide *;
    GapsAreShort(r, s, pkts, start, times, i, j);
    TakenIsHeld(r, s, pkts, j - 1);
    BucketsAre(r, s);
    RateBound(Committed(r, s), s.c, r.cbs, r.cir, Gaps(r, s, pkts), GreenBytes(r, s, pkts), i, j, times[j - 1] - times[i]);
  }

  /** Peak rate in real time: green and yellow bytes together are at most PBS + PIR * T. */
  lemma PeakRateIsEnforced(r: Rates, s: Marker, pkts: seq<Packet>, start: nat, times: seq<nat>, i: nat, j: nat)
    requires Clock(s, pkts, start, times) && i < j <= |pkts|
    ensures times[i] <= times[j - 1]
    ensures Taken(PassedBytes(r, s, pkts), i, j) <= r.pbs + r.pir * (times[j - 1] - times[i])
  {
    hide *;
    GapsAreShort(r, s, pkts, start, times, i, j);
    TakenIsHeld(r, s, pkts, j - 1);
    BucketsAre(r, s);
    RateBound(Peak(r, s), s.e, r.pbs, r.pir, Gaps(r, s, pkts), PassedBytes(r, s, pkts), i, j, times[j - 1] - times[i]);
  }

  lemma BucketsAre(r: Rates, s: Marker)
    ensures Committed(r, s) == Bucket(s.c, r.cbs, r.cir) && Peak(r, s) == Bucket(s.e, r.pbs, r.pir)
  {
  }

  lemma RateBound(b: Bucket, start: int, cap: nat, rate: nat, el: seq<nat>, take: seq<nat>, i: nat, j: nat, time: nat)
    requires b == Bucket(start, cap, rate) && i < j <= |el| == |take| && Elapsed(el, i + 1, j) <= time
    requires take[j - 1] <= Level(b, el, take, j - 1)
    ensures Taken(take, i, j) <= cap + rate * time
  {
    hide *;
    WindowBound(b, el, take, i, j, time);
  }

  /** No packet takes more than it finds. */
  lemma TakenIsHeld(r: Rates, s: Marker, pkts: seq<Packet>, n: nat)
    requires n < |pkts|
    ensures GreenBytes(r, s, pkts)[n] <= Level(Committed(r, s), Gaps(r, s, pkts), GreenBytes(r, s, pkts), n)
    ensures PassedBytes(r, s, pkts)[n] <= Level(Peak(r, s), Gaps(r, s, pkts), PassedBytes(r, s, pkts), n)
  {
    hide Refill, Since;
    CountersAreBuckets(r, s, pkts, n);
    var m := After(r, s, pkts, n);
    RefillIsLevel(m.c, r.cbs, r.cir, Gaps(r, s, pkts)[n]);
    RefillIsLevel(m.e, r.pbs, r.pir, Gaps(r, s, pkts)[n]);
  }

  // ------------------------------------------------------------------ RFC 2698

  /** Section 3 of RFC 2698, color-blind: buckets tick up one token at a time, then the packet is marked. */
  function Rfc2698(r: Rates, c: nat, e: nat, gap: nat, len: nat): (nat, nat, Color) {
    var tc, tp := Ticks(c, r.cbs, r.cir * gap), Ticks(e, r.pbs, r.pir * gap);
    if tp < len then (tc, tp, Red)
    else if tc < len then (tc, tp - len, Yellow)
    else (tc - len, tp - len, Green)
  }

  /** A refill is what ticking gives unless the clock wrapped since and the missing tokens show. */
  lemma RefillIsTicks(tokens: u32, cap: u32, rate: u32, last: nat, now: nat)
    requires tokens <= cap && last <= now
    ensures Refill(tokens, cap, rate, Since(last % U32, now % U32)) == Ticks(tokens, cap, rate * (now - last)) <==>
              now - last < U32 || rate == 0 || tokens + rate * ((now - last) % U32) >= cap
  {
    hide *;
    var gap := now - last;
    WrapOnlyShortens(last, now);
    TicksAreClamped(tokens, cap, rate * gap);
    RefillIsLevel(tokens, cap, rate, gap % U32);
    SameCredit(rate, gap);
    ClampsAgree(tokens, cap, rate * (gap % U32), rate * gap);
  }

  /** A pause of exactly 2^32 time units goes unnoticed: the bucket stays empty, the RFC's is full. */
  lemma LongPauseIsLost()
    ensures Refill(0, 10, 1, Since(0, U32 % U32)) == 0 && Ticks(0, 10, 1 * U32) == 10
  {
    TicksAreClamped(0, 10, 1 * U32);
  }

  lemma SameCredit(rate: nat, gap: nat)
    ensures 0 <= rate * (gap % U32) <= rate * gap
    ensures rate * (gap % U32) == rate * gap <==> gap < U32 || rate == 0
  {
    if gap >= U32 && rate > 0 {
      Strictly(rate, gap % U32, gap);
    }
  }

  lemma ClampsAgree(tokens: int, cap: int, a: nat, b: nat)
    requires tokens <= cap && a <= b
    ensures Min(cap, tokens + a) == Min(tokens + b, cap) <==> a == b || tokens + a >= cap
  {
  }

  lemma Strictly(rate: nat, a: nat, b: nat)
    requires a < b && rate > 0
    ensures rate * a < rate * b
  {
  }

  /** The reference marker after the first n packets. */
  function Reference(r: Rates, s: Marker, pkts: seq<Packet>, start: nat, times: seq<nat>, n: nat): (nat, nat, Color)
    requires Clock(s, pkts, start, times) && n <= |pkts|
  {
    if n == 0 then (s.c, s.e, Green)
    else
      var (c, e, _) := Reference(r, s, pkts, start, times, n - 1);
      Rfc2698(r, c, e, times[n - 1] - Prev(start, times, n - 1), pkts[n - 1].len)
  }

  /** With no gap of 2^32 time units and tokens within their caps, every run is colored as the RFC says. */
  lemma {:induction false} ColorsMatchRfc2698(r: Rates, s: Marker, pkts: seq<Packet>, start: nat, times: seq<nat>,
                                              n: nat)
    requires Clock(s, pkts, start, times) && n <= |pkts|
    requires s.c <= r.cbs && s.e <= r.pbs
    requires forall i :: 0 <= i < |pkts| ==> times[i] - Prev(start, times, i) < U32
    ensures var m, (c, e, color) := After(r, s, pkts, n), Reference(r, s, pkts, start, times, n);
            && m.c == c <= r.cbs && m.e == e <= r.pbs && (n > 0 ==> color == ColorOf(r, s, pkts, n - 1))
  {
    hide Step, Rfc2698, Clock;
    if n > 0 {
      ColorsMatchRfc2698(r, s, pkts, start, times, n - 1);
      ClockAt(s, pkts, start, times, n - 1);
      LastIs(r, s, pkts, n - 1);
      assert times[n - 1] - Prev(start, times, n - 1) < U32;
      OneStep(r, After(r, s, pkts, n - 1), pkts[n - 1], Prev(start, times, n - 1), times[n - 1]);
    }
  }

  lemma ClockAt(s: Marker, pkts: seq<Packet>, start: nat, times: seq<nat>, n: nat)
    requires Clock(s, pkts, start, times) && n < |pkts|
    ensures |times| == |pkts| && pkts[n].now == times[n] % U32 && Prev(start, times, n) <= times[n]
    ensures (if n == 0 then s.last else pkts[n - 1].now) == Prev(start, times, n) % U32
  {
  }

  /** One packet, marked by the policer and by the RFC. */
  lemma OneStep(r: Rates, m: Marker, p: Packet, last: nat, now: nat)
    requires m.c <= r.cbs && m.e <= r.pbs && last <= now && now - last < U32
    requires m.last == last % U32 && p.now == now % U32
    ensures var (m', color), (c, e, ref) := Step(r, m, p), Rfc2698(r, m.c, m.e, now - last, p.len);
            m'.c == c <= r.cbs && m'.e == e <= r.pbs && color == ref
  {
    hide Refill, Since, Ticks;
    RefillIsTicks(m.c, r.cbs, r.cir, last, now);
    RefillIsTicks(m.e, r.pbs, r.pir, last, now);
    RefillIsLevel(m.c, r.cbs, r.cir, Since(m.last, p.now));
    RefillIsLevel(m.e, r.pbs, r.pir, Since(m.last, p.now));
  }
}
