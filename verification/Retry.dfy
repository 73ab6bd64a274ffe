/**
 retryWithBackoff: calls, counters and delays of the retry loop.  The factor is a Double, and a Long times a
 Double is a Double product: both the Long and the product are rounded to a Double.
 */
module Retry {
  const LONG_MIN := -0x8000_0000_0000_0000
  const LONG_MAX := 0x7FFF_FFFF_FFFF_FFFF

  type Long = x: int | LONG_MIN <= x <= LONG_MAX

  datatype Config = Config(maxAttempts: int, initialDelayMs: Long, maxDelayMs: Long, factor: real)

  function Min(a: Long, b: Long): Long { if a < b then a else b }

  /** Double.toLong(): towards zero, and saturating. */
  function ToLong(x: real): Long
  {
    var t := if x >= 0.0 then x.Floor else -(-x).Floor;
    if t < LONG_MIN then LONG_MIN else if t > LONG_MAX then LONG_MAX else t
  }

  const TWO_TO_53 := 0x20_0000_0000_0000

  /** How a real number is rounded to a Double. */
  type Round = real -> real

  /** All that matters of it here: it keeps order, and integers of up to 53 bits. */
  ghost predicate IsRounding(round: Round)
  {
    (forall x: real, y: real | x <= y :: round(x) <= round(y)) &&
    (forall x: real | -TWO_TO_53 as real <= x <= TWO_TO_53 as real && x.Floor as real == x :: round(x) == x)
  }

  /** Not rounding at all is such a rounding. */
  lemma ExactIsRounding()
    ensures IsRounding(x => x)
  {
  }

  lemma KeepsInteger(round: Round, n: int)
    requires IsRounding(round) && -TWO_TO_53 <= n <= TWO_TO_53
    ensures round(n as real) == n as real
  {
  }

  lemma KeepsOrder(round: Round, x: real, y: real)
    requires IsRounding(round) && x <= y
    ensures round(x) <= round(y)
  {
  }

  function Times(x: real, f: real): real { x * f }

  function Product(c: Config, round: Round, delayMs: Long): real { round(Times(round(delayMs as real), c.factor)) }

  function NextDelay(c: Config, round: Round, delayMs: Long): Long
  {
    Min(ToLong(Product(c, round, delayMs)), c.maxDelayMs)
  }

  /** The delay before retry k + 1. */
  function Delay(c: Config, round: Round, k: nat): Long
  {
    if k == 0 then c.initialDelayMs else NextDelay(c, round, Delay(c, round, k - 1))
  }

  /** The first n delays. */
  function Delays(c: Config, round: Round, n: nat): (ds: seq<Long>)
    ensures |ds| == n && forall k | 0 <= k < n :: ds[k] == Delay(c, round, k)
  {
    if n == 0 then [] else Delays(c, round, n - 1) + [Delay(c, round, n - 1)]
  }

  /** t is x with its fraction cut off. */
  predicate Cut(x: real, t: int)
  {
    if x >= 0.0 then t as real <= x < t as real + 1.0 else t as real - 1.0 < x <= t as real
  }

  ghost predicate IsCapped(max: Long, x: real, e: Long)
  {
    exists t :: Cut(x, t) && e == if t >= max then max
                                  else if t < -0x8000_0000_0000_0000 then -0x8000_0000_0000_0000 else t
  }

  /** e is the delay that comes after d: the rounded product, cut, within 64 bits and the maximum. */
  ghost predicate Follows(c: Config, round: Round, d: Long, e: Long)
  {
    var x := round(d as real);
    exists p :: p == x * c.factor && IsCapped(c.maxDelayMs, round(p), e)
  }

  lemma NextFollows(c: Config, round: Round, d: Long)
    ensures Follows(c, round, d, NextDelay(c, round, d))
  {
    var x := round(d as real);
    TimesIs(x, c.factor);
    hide Times, ToLong;
    ToLongCuts(c.maxDelayMs, round(x * c.factor));
    assert Product(c, round, d) == round(x * c.factor);
  }

  lemma TimesIs(x: real, f: real)
    ensures Times(x, f) == x * f
  {
  }

  lemma ToLongCuts(max: Long, x: real)
    ensures IsCapped(max, x, Min(ToLong(x), max))
  {
    var t := if x >= 0.0 then x.Floor else -(-x).Floor;
    assert Cut(x, t);
  }

  /** There is only one. */
  lemma {:induction false} OneFollows(c: Config, round: Round, d: Long, e: Long)
    ensures Follows(c, round, d, e) <==> e == NextDelay(c, round, d)
  {
    NextFollows(c, round, d);
    hide NextDelay;
  }

  /** The delays that are new begin with the initial one, and each but the first follows the one before. */
  ghost predicate BacksOff(c: Config, round: Round, before: seq<Long>, after: seq<Long>)
  {
    before <= after && (|after| > |before| ==> after[|before|] == c.initialDelayMs) &&
    forall k | |before| <= k < |after| - 1 :: Follows(c, round, after[k], after[k + 1])
  }

  lemma {:induction false} DelaysFollow(c: Config, round: Round, before: seq<Long>, n: nat)
    ensures BacksOff(c, round, before, before + Delays(c, round, n))
  {
    hide Follows;
    FirstDelay(c, round);
    var after := before + Delays(c, round, n);
    forall k | |before| <= k < |after| - 1
      ensures Follows(c, round, after[k], after[k + 1])
    {
      LaterDelay(c, round, k - |before| + 1);
      NextFollows(c, round, Delay(c, round, k - |before|));
    }
  }

  lemma OneMore(c: Config, round: Round, n: nat)
    ensures Delays(c, round, 0) == [] && Delays(c, round, n + 1) == Delays(c, round, n) + [Delay(c, round, n)]
  {
  }

  function MaxCalls(c: Config): nat { if c.maxAttempts > 1 then c.maxAttempts else 1 }

  datatype Outcome = Returned | Rethrown | Cancelled

  /** The counters, and the delays begun. */
  class Retrier {
    var calls: nat
    var retries: nat
    var failures: nat
    var delays: seq<Long>

    constructor ()
      ensures calls == retries == failures == 0 && delays == []
    {
      calls, retries, failures, delays := 0, 0, 0, [];
    }

    /**
     Runs the block until it succeeds or the attempts are used up; `succeeds(i)` tells whether call i,
     counted from 0, returns or throws, and `cancelled(i)` whether the delay after it is cancelled.  Such a
     delay has already been counted as a retry, and no failure is counted.
     */
    method RetryWithBackoff(c: Config, round: Round, succeeds: nat -> bool, cancelled: nat -> bool)
      returns (outcome: Outcome)
      modifies this
      ensures old(calls) < calls <= old(calls) + if c.maxAttempts > 1 then c.maxAttempts else 1
      ensures forall i: nat | i < calls - old(calls) - 1 :: !succeeds(i) && !cancelled(i)
      ensures outcome == if succeeds(calls - old(calls) - 1) then Returned
                         else if calls - old(calls) >= c.maxAttempts then Rethrown else Cancelled
      ensures outcome == Cancelled ==> cancelled(calls - old(calls) - 1)
      ensures retries - old(retries) == calls - old(calls) - if outcome == Cancelled then 0 else 1
      ensures failures == old(failures) + if outcome == Rethrown then 1 else 0
      ensures delays == old(delays) + Delays(c, round, retries - old(retries))
      ensures BacksOff(c, round, old(delays), delays) && |delays| == |old(delays)| + retries - old(retries)
    {
      hide Delay, Delays, NextDelay, BacksOff;
      var attempt := 0;
      var delayMs := c.initialDelayMs;
      FirstDelay(c, round);
      OneMore(c, round, 0);
      while true
        invariant 0 <= attempt < MaxCalls(c) && calls == old(calls) + attempt
        invariant forall i: nat | i < attempt :: !succeeds(i) && !cancelled(i)
        invariant delayMs == Delay(c, round, attempt)
        invariant retries == old(retries) + attempt && failures == old(failures)
        invariant delays == old(delays) + Delays(c, round, attempt)
        decreases MaxCalls(c) - attempt
      {
        calls := calls + 1;
        if succeeds(attempt) {
          DelaysFollow(c, round, old(delays), attempt);
          return Returned;
        }
        attempt := attempt + 1;
        if attempt >= c.maxAttempts {
          failures := failures + 1;
          DelaysFollow(c, round, old(delays), attempt - 1);
          return Rethrown;
        }
        retries := retries + 1;
        delays := delays + [delayMs];
        OneMore(c, round, attempt - 1);
        if cancelled(attempt - 1) {
          DelaysFollow(c, round, old(delays), attempt);
          return Cancelled;
        }
        delayMs := NextDelay(c, round, delayMs);
        LaterDelay(c, round, attempt);
      }
    }
  }

  lemma FirstDelay(c: Config, round: Round)
    ensures Delay(c, round, 0) == c.initialDelayMs
  {
  }

  lemma LaterDelay(c: Config, round: Round, k: nat)
    requires k > 0
    ensures Delay(c, round, k) == NextDelay(c, round, Delay(c, round, k - 1))
    ensures Delay(c, round, k) <= c.maxDelayMs
  {
  }

  // ----- the delays -----------------------------------------------------------------------------

  function Pow(f: nat, k: nat): nat { if k == 0 then 1 else f * Pow(f, k - 1) }

  lemma {:induction false} RealProduct(a: nat, b: nat)
    ensures a as real * b as real == (a * b) as real
  {
    if a > 0 {
      RealProduct(a - 1, b);
      assert a * b == (a - 1) * b + b;
      assert a as real * b as real == (a - 1) as real * b as real + b as real;
    }
  }

  lemma NatGrows(m: nat, f: nat)
    requires f >= 1
    ensures m * f >= m
  {
    assert m * f == m + m * (f - 1);
  }

  lemma NatMonotone(m: nat, x: nat, f: nat)
    requires m <= x
    ensures m * f <= x * f
  {
    assert x * f == m * f + (x - m) * f;
  }

  /** Capping before multiplying by a whole factor makes no difference after the next cap. */
  lemma Capped(d: nat, f: nat, x: nat, max: nat)
    requires f >= 1 && d == if x < max then x else max
    ensures (if d * f < max then d * f else max) == if x * f < max then x * f else max
  {
    if x >= max {
      NatGrows(max, f);
      NatMonotone(max, x, f);
    }
  }

  /** As long as the maximum has at most 53 bits, rounding makes no difference to whole factors. */
  lemma NextOfWhole(c: Config, round: Round, d: nat, f: nat)
    requires IsRounding(round) && c.factor == f as real && d <= c.maxDelayMs <= TWO_TO_53
    ensures NextDelay(c, round, d) == if d * f < c.maxDelayMs then d * f else c.maxDelayMs
  {
    hide IsRounding, Times;
    WholeTimes(d, f);
    KeepsInteger(round, d);
    if d * f <= TWO_TO_53 {
      KeepsInteger(round, d * f);
      CutsToItself(d * f);
    } else {
      KeepsInteger(round, TWO_TO_53);
      KeepsOrder(round, TWO_TO_53 as real, (d * f) as real);
      CutsToItself(TWO_TO_53);
      CutKeepsOrder(TWO_TO_53 as real, round((d * f) as real));
    }
    hide ToLong;
  }

  lemma WholeTimes(d: nat, f: nat)
    ensures Times(d as real, f as real) == (d * f) as real
  {
    RealProduct(d, f);
  }

  lemma CutsToItself(d: Long)
    ensures ToLong(d as real) == d
  {
  }

  lemma CutKeepsOrder(x: real, y: real)
    requires x <= y
    ensures ToLong(x) <= ToLong(y)
  {
  }

  /** With a whole factor and a maximum of at most 53 bits the k-th delay is initial * f^k, up to the maximum. */
  lemma {:induction false} WholeFactorDelays(c: Config, round: Round, f: nat, k: nat)
    requires IsRounding(round) && f >= 1 && c.factor == f as real
    requires 0 <= c.initialDelayMs <= c.maxDelayMs <= TWO_TO_53
    ensures Delay(c, round, k) == var x := c.initialDelayMs * Pow(f, k); if x < c.maxDelayMs then x else c.maxDelayMs
  {
    hide NextDelay, IsRounding;
    if k == 0 {
      assert Pow(f, 0) == 1;
    } else {
      WholeFactorDelays(c, round, f, k - 1);
      var d, x := Delay(c, round, k - 1), c.initialDelayMs * Pow(f, k - 1);
      NextOfWhole(c, round, d, f);
      PowerStep(c.initialDelayMs, f, k);
      Capped(d, f, x, c.maxDelayMs);
    }
  }

  lemma PowerStep(m: nat, f: nat, k: nat)
    requires k > 0
    ensures m * Pow(f, k) == m * Pow(f, k - 1) * f
  {
    var p := Pow(f, k - 1);
    assert m * (f * p) == m * p * f;
  }

  // ----- delays that never decrease -------------------------------------------------------------

  lemma Scaled(x: real, y: real, f: real)
    requires x <= y
    ensures f >= 0.0 ==> Times(x, f) <= Times(y, f)
    ensures f <= 0.0 ==> Times(x, f) >= Times(y, f)
  {
    assert y * f == x * f + (y - x) * f;
  }

  /** A greater delay is followed by a delay that is no smaller, or no greater under a negative factor. */
  lemma NextKeepsOrder(c: Config, round: Round, d: Long, e: Long)
    requires IsRounding(round) && d <= e
    ensures c.factor >= 0.0 ==> NextDelay(c, round, d) <= NextDelay(c, round, e)
    ensures c.factor <= 0.0 ==> NextDelay(c, round, d) >= NextDelay(c, round, e)
  {
    hide IsRounding, ToLong, Times;
    KeepsOrder(round, d as real, e as real);
    var x, y := round(d as real), round(e as real);
    Scaled(x, y, c.factor);
    if c.factor >= 0.0 {
      KeepsOrder(round, Times(x, c.factor), Times(y, c.factor));
      CutKeepsOrder(Product(c, round, d), Product(c, round, e));
    }
    if c.factor <= 0.0 {
      KeepsOrder(round, Times(y, c.factor), Times(x, c.factor));
      CutKeepsOrder(Product(c, round, e), Product(c, round, d));
    }
  }

  lemma {:induction false} DelaysRise(c: Config, round: Round, k: nat)
    requires IsRounding(round) && c.factor >= 0.0 && Delay(c, round, 0) <= Delay(c, round, 1)
    ensures Delay(c, round, k) <= Delay(c, round, k + 1)
  {
    hide NextDelay, IsRounding;
    if k > 0 {
      DelaysRise(c, round, k - 1);
      LaterDelay(c, round, k);
      LaterDelay(c, round, k + 1);
      NextKeepsOrder(c, round, Delay(c, round, k - 1), Delay(c, round, k));
    }
  }

  lemma {:induction false} DelaysSettle(c: Config, round: Round, k: nat)
    requires k >= 1 && Delay(c, round, 1) == Delay(c, round, 2)
    ensures Delay(c, round, k) == Delay(c, round, 1)
  {
    hide NextDelay;
    if k > 1 {
      DelaysSettle(c, round, k - 1);
      LaterDelay(c, round, 2);
      LaterDelay(c, round, k);
    }
  }

  /**
   For every configuration, the delays never decrease if and only if the second is no smaller than the first
   and, should the factor be negative, the third is equal to the second.
   */
  lemma {:induction false} DelaysNeverDecreaseIff(c: Config, round: Round)
    requires IsRounding(round)
    ensures var second := NextDelay(c, round, c.initialDelayMs);
            (forall k: nat :: Delay(c, round, k) <= Delay(c, round, k + 1)) <==>
            c.initialDelayMs <= second && (c.factor < 0.0 ==> NextDelay(c, round, second) == second)
  {
    LaterDelay(c, round, 1);
    LaterDelay(c, round, 2);
    hide NextDelay, IsRounding;
    var d0, d1, d2 := Delay(c, round, 0), Delay(c, round, 0 + 1), Delay(c, round, 1 + 1);
    if c.factor < 0.0 && d0 <= d1 { NextKeepsOrder(c, round, d0, d1); }
    if d0 <= d1 && (c.factor < 0.0 ==> d1 == d2) {
      forall k: nat
        ensures Delay(c, round, k) <= Delay(c, round, k + 1)
      {
        if c.factor >= 0.0 {
          DelaysRise(c, round, k);
        } else if k > 0 {
          DelaysSettle(c, round, k);
          DelaysSettle(c, round, k + 1);
        }
      }
    }
  }

  /**
   With a factor of at least 1 and delays of at most 53 bits that means: the first delay is within the maximum
   and, should it be negative, its product with the factor is cut back to it.
   */
  lemma {:induction false} BackoffNeverDecreasesIff(c: Config, round: Round)
    requires IsRounding(round) && c.factor >= 1.0 && -TWO_TO_53 <= c.initialDelayMs && c.maxDelayMs <= TWO_TO_53
    ensures (forall k: nat :: Delay(c, round, k) <= Delay(c, round, k + 1)) <==>
            c.initialDelayMs <= c.maxDelayMs &&
            (c.initialDelayMs < 0 ==> ToLong(round(Times(c.initialDelayMs as real, c.factor))) == c.initialDelayMs)
  {
    hide IsRounding, ToLong, Delay, Times;
    DelaysNeverDecreaseIff(c, round);
    var d := c.initialDelayMs;
    if d <= c.maxDelayMs {
      KeepsInteger(round, d);
      Stretched(round, d, c.factor);
    }
  }

  /** A factor of at least 1 moves no number towards 0, and rounding does not bring it back. */
  lemma Stretched(round: Round, d: Long, f: real)
    requires IsRounding(round) && f >= 1.0 && -TWO_TO_53 <= d <= TWO_TO_53
    ensures d >= 0 ==> ToLong(round(Times(d as real, f))) >= d
    ensures d <= 0 ==> ToLong(round(Times(d as real, f))) <= d
  {
    hide IsRounding, ToLong, Times;
    var x := d as real;
    Away(x, f);
    KeepsInteger(round, d);
    CutsToItself(d);
    if d >= 0 {
      KeepsOrder(round, x, Times(x, f));
      CutKeepsOrder(x, round(Times(x, f)));
    }
    if d <= 0 {
      KeepsOrder(round, Times(x, f), x);
      CutKeepsOrder(round(Times(x, f)), x);
    }
  }

  lemma Away(x: real, f: real)
    requires f >= 1.0
    ensures if x >= 0.0 then Times(x, f) >= x else Times(x, f) <= x
    ensures x == 0.0 ==> Times(x, f) == 0.0
  {
    if x >= 0.0 { assert x * (f - 1.0) >= 0.0; } else { assert (-x) * (f - 1.0) >= 0.0; }
    assert x * f == x + x * (f - 1.0);
  }

  /** Beyond 53 bits they can fall: a delay that is no Double comes back rounded, here down by one. */
  lemma BeyondDoublesDelaysFall(round: Round)
    requires round((TWO_TO_53 + 1) as real) == TWO_TO_53 as real && IsRounding(round)
    ensures var c := Config(5, TWO_TO_53 + 1, LONG_MAX, 1.0);
            Delay(c, round, 1) == TWO_TO_53 < Delay(c, round, 0)
  {
    var c := Config(5, TWO_TO_53 + 1, LONG_MAX, 1.0);
    LaterDelay(c, round, 1);
  }
}
