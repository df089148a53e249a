/** One token bucket over a sequence of packets, and the exact envelope it enforces. */
module TokenBucket {

  /** Tokens at the start, burst size and tokens per time unit. */
  datatype Bucket = Bucket(start: int, cap: nat, rate: nat)

  function Min(a: int, b: int): int {
    if a <= b then a else b
  }

  /** Tokens left after the first n packets: el[i] is the time before packet i, take[i] what it took. */
  function Left(b: Bucket, el: seq<nat>, take: seq<nat>, n: nat): int
    requires n <= |el| == |take|
    decreases n, 0
  {
    if n == 0 then b.start else Level(b, el, take, n - 1) - take[n - 1]
  }

  /** Tokens packet n finds. */
  function Level(b: Bucket, el: seq<nat>, take: seq<nat>, n: nat): int
    requires n < |el| == |take|
    decreases n, 1
  {
    Min(b.cap, Left(b, el, take, n) + b.rate * el[n])
  }

  /** Bytes taken by packets i to j - 1. */
  function Taken(take: seq<nat>, i: nat, j: nat): nat
    requires j <= |take|
    decreases j
  {
    if j <= i then 0 else Taken(take, i, j - 1) + take[j - 1]
  }

  /** Tokens that flow in before packets i to j - 1. */
  function Credit(rate: nat, el: seq<nat>, i: nat, j: nat): nat
    requires j <= |el|
    decreases j
  {
    if j <= i then 0 else Credit(rate, el, i, j - 1) + rate * el[j - 1]
  }

  /** Packet n, with want bytes, fits every window that ends with it. */
  predicate Conforms(b: Bucket, el: seq<nat>, take: seq<nat>, n: nat, want: int)
    requires n < |el| == |take|
  {
    && (forall k :: 0 <= k <= n ==> Taken(take, k, n) + want <= b.cap + Credit(b.rate, el, k + 1, n + 1))
    && Taken(take, 0, n) + want <= b.start + Credit(b.rate, el, 0, n + 1)
  }

  lemma ConformsStep(b: Bucket, el: seq<nat>, take: seq<nat>, n: nat, want: int)
    requires 0 < n < |el| == |take|
    ensures Conforms(b, el, take, n, want) <==> want <= b.cap && Conforms(b, el, take, n - 1, want + take[n - 1] - b.rate * el[n])
  {
    var credit := b.rate * el[n];
    forall k | 0 <= k <= n - 1
      ensures Taken(take, k, n) == Taken(take, k, n - 1) + take[n - 1]
      ensures Credit(b.rate, el, k + 1, n + 1) == Credit(b.rate, el, k + 1, n) + credit
    {
    }
    assert Taken(take, n, n) == 0 && Credit(b.rate, el, n + 1, n + 1) == 0;
    assert Credit(b.rate, el, 0, n + 1) == Credit(b.rate, el, 0, n) + credit;
    var m := n - 1;
    if Conforms(b, el, take, n, want) {
      forall k | 0 <= k <= m ensures Taken(take, k, m) + (want + take[m] - credit) <= b.cap + Credit(b.rate, el, k + 1, m + 1) {
        assert Taken(take, k, n) + want <= b.cap + Credit(b.rate, el, k + 1, n + 1);
      }
      assert Taken(take, n, n) + want <= b.cap + Credit(b.rate, el, n + 1, n + 1);
    }
    if want <= b.cap && Conforms(b, el, take, m, want + take[m] - credit) {
      forall k | 0 <= k <= n ensures Taken(take, k, n) + want <= b.cap + Credit(b.rate, el, k + 1, n + 1) {
        if k <= m {
          assert Taken(take, k, m) + (want + take[m] - credit) <= b.cap + Credit(b.rate, el, k + 1, m + 1);
        }
      }
    }
  }

  /** A bucket holds want tokens for packet n exactly when no window ending there would overdraw it. */
  lemma {:induction false} Envelope(b: Bucket, el: seq<nat>, take: seq<nat>, n: nat, want: int)
    requires n < |el| == |take|
    ensures want <= Level(b, el, take, n) <==> Conforms(b, el, take, n, want)
  {
    if n == 0 {
      assert Taken(take, 0, 0) == 0 && Credit(b.rate, el, 1, 1) == 0;
      assert Credit(b.rate, el, 0, 0) == 0;
      assert Credit(b.rate, el, 0, 1) == b.rate * el[0];
    } else {
      Envelope(b, el, take, n - 1, want + take[n - 1] - b.rate * el[n]);
      ConformsStep(b, el, take, n, want);
    }
  }

  /** Time before packets i to j - 1. */
  function Elapsed(el: seq<nat>, i: nat, j: nat): nat
    requires j <= |el|
    decreases j
  {
    if j <= i then 0 else Elapsed(el, i, j - 1) + el[j - 1]
  }

  lemma {:induction false} CreditIsRateTimesElapsed(rate: nat, el: seq<nat>, i: nat, j: nat)
    requires j <= |el|
    ensures Credit(rate, el, i, j) == rate * Elapsed(el, i, j)
    decreases j
  {
    if i < j {
      CreditIsRateTimesElapsed(rate, el, i, j - 1);
      assert rate * (Elapsed(el, i, j - 1) + el[j - 1]) == rate * Elapsed(el, i, j - 1) + rate * el[j - 1];
    }
  }

  /**
   * Rate bound: packets that never overdraw the bucket take no more than the burst size plus the
   * rate times any time not shorter than that between the first and the last of them.
   */
  lemma WindowBound(b: Bucket, el: seq<nat>, take: seq<nat>, i: nat, j: nat, time: nat)
    requires i < j <= |el| == |take| && Elapsed(el, i + 1, j) <= time
    requires take[j - 1] <= Level(b, el, take, j - 1)
    ensures Taken(take, i, j) <= b.cap + b.rate * time
  {
    Envelope(b, el, take, j - 1, take[j - 1]);
    assert Taken(take, i, j - 1) + take[j - 1] <= b.cap + Credit(b.rate, el, i + 1, j);
    CreditIsRateTimesElapsed(b.rate, el, i + 1, j);
    Grows(b.rate, Elapsed(el, i + 1, j), time);
  }

  lemma Grows(rate: nat, a: nat, b: nat)
    requires a <= b
    ensures rate * a <= rate * b
  {
  }

  /** One token at a time, up to the cap: how section 3 of RFC 2698 describes a bucket filling. */
  function Ticks(tokens: nat, cap: nat, n: nat): (r: nat)
    decreases n
  {
    if n == 0 then tokens else var t := Ticks(tokens, cap, n - 1); if t < cap then t + 1 else t
  }

  /** Adding rate * time tokens and clamping is the same as ticking, unless the bucket starts overfull. */
  lemma {:induction false} TicksAreClamped(tokens: nat, cap: nat, n: nat)
    ensures Ticks(tokens, cap, n) == if tokens <= cap then Min(tokens + n, cap) else tokens
  {
    if n > 0 {
      TicksAreClamped(tokens, cap, n - 1);
    }
  }
}
