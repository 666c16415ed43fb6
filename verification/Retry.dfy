/** Retrying with jittered exponential backoff (src/utils.rs). Durations are in
    nanoseconds; the jitter factor is an exact real of the interval it is drawn from. */
module Retry {
  import opened Util

  datatype Result<+T, +E> = Ok(value: T) | Err(error: E)

  const NANOS_PER_MILLI: nat := 1_000_000

  const MAX_MILLIS: nat := 0xFFFF_FFFF_FFFF_FFFF

  /** What `0.8 + u * 0.4` can be for `u` in `[0, 1)`. */
  type Jitter = x: real | 0.8 <= x < 1.2 witness 1.0

  function AsMillis(nanos: nat): nat {
    nanos / NANOS_PER_MILLI
  }

  function FromMillis(millis: nat): nat {
    millis * NANOS_PER_MILLI
  }

  lemma ScaledBounds(m: real, jitter: Jitter)
    requires m >= 0.0
    ensures 1.6 * m <= 2.0 * m * jitter <= 2.4 * m
  {
    var low, high := jitter - 0.8, 1.2 - jitter;
    assert m * low >= 0.0 && m * high >= 0.0;
    assert m * low == m * jitter - 0.8 * m && m * high == 1.2 * m - m * jitter;
    assert 2.0 * m * jitter == 2.0 * (m * jitter);
  }

  /** Twice the milliseconds of the delay, jittered. */
  function Jittered(millis: nat, jitter: Jitter): (exact: real)
    ensures 1.6 * millis as real <= exact <= 2.4 * millis as real
  {
    ScaledBounds(millis as real, jitter);
    2.0 * millis as real * jitter
  }

  /** Cut to whole milliseconds of 64 bits. */
  function CutMillis(exact: real): nat
    requires exact >= 0.0
  {
    Min(MAX_MILLIS, exact.Floor)
  }

  function GrownMillis(millis: nat, jitter: Jitter): nat {
    CutMillis(Jittered(millis, jitter))
  }

  /** What the `k`-th jitter makes of a number of milliseconds. */
  type Growth = (nat, nat) -> nat

  function GrowthOf(jitters: nat -> Jitter): Growth {
    (k, millis) => GrownMillis(millis, jitters(k))
  }

  /** The bounds that drawing the jitter from `[0.8, 1.2)` puts on growth. */
  ghost predicate Bounded(millis: nat, grown: nat) {
    && (grown == MAX_MILLIS || (grown >= millis && grown as real > 1.6 * millis as real - 1.0))
    && grown as real <= 2.4 * millis as real
  }

  ghost predicate BoundedGrowth(growth: Growth) {
    forall k, millis :: Bounded(millis, growth(k, millis))
  }

  lemma CutBounded(millis: nat, exact: real)
    requires 1.6 * millis as real <= exact <= 2.4 * millis as real
    ensures Bounded(millis, CutMillis(exact))
  {
    assert exact - 1.0 < exact.Floor as real <= exact;
  }

  /** Whatever jitters are drawn, growth is bounded. */
  lemma JitterBoundsGrowth(jitters: nat -> Jitter)
    ensures BoundedGrowth(GrowthOf(jitters))
  {
    forall k: nat, millis: nat
      ensures Bounded(millis, GrowthOf(jitters)(k, millis))
    {
      CutBounded(millis, Jittered(millis, jitters(k)));
    }
  }

  function NextDelay(cap: nat, grownMillis: nat): nat {
    Min(cap, FromMillis(grownMillis))
  }

  /** The `k`-th delay. */
  function Delay(initial: nat, cap: nat, growth: Growth, k: nat): nat {
    if k == 0 then initial
    else NextDelay(cap, growth(k - 1, AsMillis(Delay(initial, cap, growth, k - 1))))
  }

  /** A random number of `[0, 1)`. */
  type Draw = x: real | 0.0 <= x < 1.0 witness 0.0

  function JitterOf(draw: Draw): Jitter {
    0.8 + draw * 0.4
  }

  function JittersOf(draws: nat -> Draw): nat -> Jitter {
    k => JitterOf(draws(k))
  }

  /** Every jitter of the interval can be drawn. */
  lemma EveryJitterDrawn(jitter: Jitter)
    ensures exists draw: Draw :: JitterOf(draw) == jitter
  {
    var draw: Draw := (jitter - 0.8) / 0.4;
    assert JitterOf(draw) == jitter;
  }

  /** `next` is `sleep`, cut to whole milliseconds, doubled, jittered by the draw, cut to
      whole milliseconds of 64 bits again, and capped. */
  ghost predicate Follows(sleep: nat, draw: Draw, cap: nat, next: nat) {
    exists n: nat ::
      && n as real <= 2.0 * (sleep / 1_000_000) as real * (0.8 + draw * 0.4) < n as real + 1.0
      && next == Min(cap, Min(n, 0xFFFF_FFFF_FFFF_FFFF) * 1_000_000)
  }

  lemma GrowthFollows(sleep: nat, draw: Draw, cap: nat)
    ensures Follows(sleep, draw, cap, NextDelay(cap, GrownMillis(AsMillis(sleep), JitterOf(draw))))
  {
    var exact := Jittered(AsMillis(sleep), JitterOf(draw));
    var n: nat := exact.Floor;
    assert n as real <= 2.0 * (sleep / 1_000_000) as real * (0.8 + draw * 0.4) < n as real + 1.0;
    assert NextDelay(cap, GrownMillis(AsMillis(sleep), JitterOf(draw))) ==
           Min(cap, Min(n, 0xFFFF_FFFF_FFFF_FFFF) * 1_000_000);
  }

  ghost predicate AreDelays(initial: nat, cap: nat, draws: nat -> Draw, sleeps: seq<nat>) {
    forall k {:trigger sleeps[k]} | 0 <= k < |sleeps| ::
      sleeps[k] == Delay(initial, cap, GrowthOf(JittersOf(draws)), k)
  }

  lemma DelaysNext(initial: nat, cap: nat, draws: nat -> Draw, sleeps: seq<nat>)
    requires AreDelays(initial, cap, draws, sleeps)
    ensures AreDelays(initial, cap, draws, sleeps + [Delay(initial, cap, GrowthOf(JittersOf(draws)), |sleeps|)])
    ensures Delay(initial, cap, GrowthOf(JittersOf(draws)), |sleeps| + 1) ==
            NextDelay(cap, GrownMillis(AsMillis(Delay(initial, cap, GrowthOf(JittersOf(draws)), |sleeps|)),
                                       JitterOf(draws(|sleeps|))))
  {
  }

  lemma DelaysFollow(initial: nat, cap: nat, draws: nat -> Draw, sleeps: seq<nat>)
    requires AreDelays(initial, cap, draws, sleeps)
    ensures sleeps != [] ==> sleeps[0] == initial
    ensures forall k | 0 < k < |sleeps| :: Follows(sleeps[k - 1], draws(k - 1), cap, sleeps[k])
  {
    forall k | 0 < k < |sleeps|
      ensures Follows(sleeps[k - 1], draws(k - 1), cap, sleeps[k])
    {
      GrowthFollows(sleeps[k - 1], draws(k - 1), cap);
    }
  }

  /** Calls `f` - whose `i`-th call ends as `f(i)` - until it succeeds or the retries are
      used up, sleeping in between. It stops at the first success; it returns an error only
      after the last attempt allowed, and then the error of that attempt; it sleeps the
      initial delay first, and then each time what follows from the last sleep and the next
      draw; and so the sleeps are the delays in order. */
  method RetryWithBackoff<T, E>(f: nat -> Result<T, E>, initial: nat, cap: nat, maxRetries: nat,
                                draws: nat -> Draw)
    returns (r: Result<T, E>, sleeps: seq<nat>)
    ensures |sleeps| < Max(maxRetries, 1) && r == f(|sleeps|)
    ensures forall i | 0 <= i < |sleeps| :: f(i).Err?
    ensures r.Err? ==> |sleeps| + 1 == Max(maxRetries, 1)
    ensures sleeps != [] ==> sleeps[0] == initial
    ensures forall k | 0 < k < |sleeps| :: Follows(sleeps[k - 1], draws(k - 1), cap, sleeps[k])
    ensures AreDelays(initial, cap, draws, sleeps)
  {
    var delay := initial;
    var retryCount := 0;
    sleeps := [];
    while true
      invariant retryCount == |sleeps| && |sleeps| < Max(maxRetries, 1)
      invariant forall i | 0 <= i < |sleeps| :: f(i).Err?
      invariant AreDelays(initial, cap, draws, sleeps)
      invariant delay == Delay(initial, cap, GrowthOf(JittersOf(draws)), |sleeps|)
      decreases Max(maxRetries, 1) - retryCount
    {
      r := f(retryCount);
      if r.Ok? {
        break;
      }
      retryCount := retryCount + 1;
      if retryCount >= maxRetries {
        break;
      }
      DelaysNext(initial, cap, draws, sleeps);
      sleeps := sleeps + [delay];
      delay := NextDelay(cap, GrownMillis(AsMillis(delay), JitterOf(draws(retryCount - 1))));
    }
    DelaysFollow(initial, cap, draws, sleeps);
  }

  // One step.

  /** The cap holds once it is reached: it fits the range of delays, and is not a broken
      number of milliseconds below two. */
  predicate StickyCap(cap: nat) {
    cap <= FromMillis(MAX_MILLIS) && (cap % NANOS_PER_MILLI == 0 || cap >= 2 * NANOS_PER_MILLI)
  }

  lemma CapReached(cap: nat, grown: nat)
    requires StickyCap(cap) && Bounded(AsMillis(cap), grown)
    ensures NextDelay(cap, grown) == cap
  {
    var q := AsMillis(cap);
    assert cap == NANOS_PER_MILLI * q + cap % NANOS_PER_MILLI;
    if cap % NANOS_PER_MILLI != 0 && grown != MAX_MILLIS {
      assert q >= 2;
      assert grown >= q + 1;
    }
  }

  lemma LeastJitter(millis: nat)
    ensures CutMillis(Jittered(millis, 0.8)) == Min(MAX_MILLIS, (1.6 * millis as real).Floor)
  {
    assert 2.0 * millis as real * 0.8 == 1.6 * millis as real;
  }

  lemma CapLeft(cap: nat)
    requires !StickyCap(cap)
    ensures NextDelay(cap, Min(MAX_MILLIS, (1.6 * AsMillis(cap) as real).Floor)) < cap
  {
  }

  /** A delay at the cap stays there whatever the jitter exactly when the cap is sticky. */
  lemma CapStaysIff(cap: nat)
    ensures (forall jitter: Jitter :: NextDelay(cap, GrownMillis(AsMillis(cap), jitter)) == cap) <==> StickyCap(cap)
  {
    var q := AsMillis(cap);
    if StickyCap(cap) {
      forall jitter: Jitter
        ensures NextDelay(cap, GrownMillis(q, jitter)) == cap
      {
        CutBounded(q, Jittered(q, jitter));
        CapReached(cap, GrownMillis(q, jitter));
      }
    } else {
      CapLeft(cap);
      LeastJitter(q);
      assert NextDelay(cap, GrownMillis(q, 0.8)) != cap;
    }
  }

  // Whole sequences.

  /** From the first computed delay on, no delay exceeds the cap, and each is the cap or a
      whole number of milliseconds. */
  lemma DelayCapped(initial: nat, cap: nat, growth: Growth, k: nat)
    requires k > 0
    ensures Delay(initial, cap, growth, k) <= cap
    ensures Delay(initial, cap, growth, k) == cap ||
            Delay(initial, cap, growth, k) == FromMillis(AsMillis(Delay(initial, cap, growth, k)))
  {
    var grown := growth(k - 1, AsMillis(Delay(initial, cap, growth, k - 1)));
    assert AsMillis(FromMillis(grown)) == grown;
  }

  /** From the first computed delay on, delays never decrease, and stay at the cap once they
      reach it. */
  lemma DelaysNeverDecrease(initial: nat, cap: nat, growth: Growth, k: nat)
    requires BoundedGrowth(growth) && StickyCap(cap) && k > 0
    ensures Delay(initial, cap, growth, k) <= Delay(initial, cap, growth, k + 1)
    ensures Delay(initial, cap, growth, k) == cap ==> Delay(initial, cap, growth, k + 1) == cap
  {
    var d := Delay(initial, cap, growth, k);
    DelayCapped(initial, cap, growth, k);
    var grown := growth(k, AsMillis(d));
    assert Bounded(AsMillis(d), grown);
    if d == cap {
      CapReached(cap, grown);
    } else {
      assert AsMillis(d) <= MAX_MILLIS;
    }
  }

  /** `x` multiplied by `rate` `k` times. */
  function Scaled(x: real, rate: real, k: nat): real {
    if k == 0 then x else rate * Scaled(x, rate, k - 1)
  }

  const FIXPOINT: real := 5.0 / 3.0

  /** Delays below the cap grow at least as fast as factor 1.6 from the offset 5/3 that
      cutting to whole milliseconds costs, whatever the jitter. */
  lemma {:induction false} GrowsAtLeast(initial: nat, cap: nat, growth: Growth, k: nat)
    requires BoundedGrowth(growth) && StickyCap(cap)
    requires k > 0 ==> Delay(initial, cap, growth, k) < cap
    ensures AsMillis(Delay(initial, cap, growth, k)) as real - FIXPOINT
         >= Scaled(AsMillis(initial) as real - FIXPOINT, 1.6, k)
  {
    if k > 0 {
      if k > 1 {
        DelaysNeverDecrease(initial, cap, growth, k - 1);
      }
      GrowsAtLeast(initial, cap, growth, k - 1);
      var before := AsMillis(Delay(initial, cap, growth, k - 1));
      var grown := growth(k - 1, before);
      assert Bounded(before, grown);
      assert FromMillis(grown) < cap;
      assert AsMillis(FromMillis(grown)) == grown;
    }
  }

  /** And no faster than factor 2.4. */
  lemma {:induction false} GrowsAtMost(initial: nat, cap: nat, growth: Growth, k: nat)
    requires BoundedGrowth(growth)
    ensures AsMillis(Delay(initial, cap, growth, k)) as real <= Scaled(AsMillis(initial) as real, 2.4, k)
  {
    if k > 0 {
      GrowsAtMost(initial, cap, growth, k - 1);
      var before := AsMillis(Delay(initial, cap, growth, k - 1));
      var grown := growth(k - 1, before);
      assert Bounded(before, grown);
      assert AsMillis(FromMillis(grown)) == grown;
      assert AsMillis(Delay(initial, cap, growth, k)) <= grown;
    }
  }

  // Whether the cap is reached.

  lemma {:induction false} ClimbsByMillis(initial: nat, cap: nat, growth: Growth, k: nat)
    requires BoundedGrowth(growth) && StickyCap(cap) && AsMillis(initial) >= 2 && k > 0
    ensures Delay(initial, cap, growth, k) == cap || AsMillis(Delay(initial, cap, growth, k)) >= 2 + k
  {
    var before := AsMillis(Delay(initial, cap, growth, k - 1));
    if k > 1 {
      ClimbsByMillis(initial, cap, growth, k - 1);
      DelaysNeverDecrease(initial, cap, growth, k - 1);
    }
    var grown := growth(k - 1, before);
    assert Bounded(before, grown);
    assert AsMillis(FromMillis(grown)) == grown;
    if grown == MAX_MILLIS {
      assert FromMillis(grown) >= cap;
    }
  }

  /** The least jitter, every time. */
  function LeastJitters(): nat -> Jitter {
    _ => 0.8
  }

  lemma {:induction false} StuckLow(initial: nat, cap: nat, k: nat)
    requires AsMillis(initial) < 2 && cap > FromMillis(AsMillis(initial)) && k > 0
    ensures Delay(initial, cap, GrowthOf(LeastJitters()), k) == FromMillis(AsMillis(initial))
  {
    var growth := GrowthOf(LeastJitters());
    if k > 1 {
      StuckLow(initial, cap, k - 1);
    }
    assert AsMillis(Delay(initial, cap, growth, k - 1)) == AsMillis(initial);
    assert growth(k - 1, AsMillis(initial)) == GrownMillis(AsMillis(initial), 0.8);
    LeastJitter(AsMillis(initial));
    assert (1.6 * AsMillis(initial) as real).Floor == AsMillis(initial);
  }

  lemma ClimbsToCap(initial: nat, cap: nat, growth: Growth) returns (k: nat)
    requires BoundedGrowth(growth) && StickyCap(cap)
    requires AsMillis(initial) >= 2 || cap <= FromMillis(AsMillis(initial))
    ensures k > 0 && Delay(initial, cap, growth, k) == cap
  {
    if AsMillis(initial) >= 2 {
      k := AsMillis(cap) + 1;
      ClimbsByMillis(initial, cap, growth, k);
      DelayCapped(initial, cap, growth, k);
    } else {
      k := 1;
      assert Bounded(AsMillis(initial), growth(0, AsMillis(initial)));
      assert Delay(initial, cap, growth, 0) == initial;
    }
  }

  ghost predicate ReachesCap(initial: nat, cap: nat, jitters: nat -> Jitter) {
    exists k: nat :: k > 0 && Delay(initial, cap, GrowthOf(jitters), k) == cap
  }

  /** The delays reach the cap for every jitter exactly when the first delay is at least two
      milliseconds, or its whole milliseconds are not below the cap: cut to whole
      milliseconds, a delay of one millisecond need never grow. */
  lemma ReachesCapIff(initial: nat, cap: nat)
    requires StickyCap(cap)
    ensures (forall jitters: nat -> Jitter :: ReachesCap(initial, cap, jitters)) <==>
            AsMillis(initial) >= 2 || cap <= FromMillis(AsMillis(initial))
  {
    if AsMillis(initial) >= 2 || cap <= FromMillis(AsMillis(initial)) {
      forall jitters: nat -> Jitter
        ensures ReachesCap(initial, cap, jitters)
      {
        JitterBoundsGrowth(jitters);
        var k := ClimbsToCap(initial, cap, GrowthOf(jitters));
      }
    } else {
      var jitters := LeastJitters();
      forall k: nat | k > 0
        ensures Delay(initial, cap, GrowthOf(jitters), k) != cap
      {
        StuckLow(initial, cap, k);
      }
      assert !ReachesCap(initial, cap, jitters);
    }
  }

  /** The delays of the retry loop, for every draw: each follows from the last by doubling
      and jittering; from the first computed one on they never exceed the cap, never
      decrease, and either are at the cap or have grown by a factor of at least 1.6 a step
      above the offset. */
  lemma Backoff(initial: nat, cap: nat, draws: nat -> Draw, k: nat)
    requires StickyCap(cap) && k > 0
    ensures var growth := GrowthOf(JittersOf(draws));
            var delay := Delay(initial, cap, growth, k);
            && Follows(Delay(initial, cap, growth, k - 1), draws(k - 1), cap, delay)
            && delay <= cap
            && delay <= Delay(initial, cap, growth, k + 1)
            && (delay == cap ||
                AsMillis(delay) as real - FIXPOINT >= Scaled(AsMillis(initial) as real - FIXPOINT, 1.6, k))
  {
    var growth := GrowthOf(JittersOf(draws));
    GrowthFollows(Delay(initial, cap, growth, k - 1), draws(k - 1), cap);
    JitterBoundsGrowth(JittersOf(draws));
    DelayCapped(initial, cap, growth, k);
    DelaysNeverDecrease(initial, cap, growth, k);
    if Delay(initial, cap, growth, k) < cap {
      GrowsAtLeast(initial, cap, growth, k);
    }
  }
}
