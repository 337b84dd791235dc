/** The time-driven difficulty of the 2D game: the score level and the score
    interval it gives, and the catch-up staircases of the per-tick update,
    all of the form "while (elapsed - last >= period) { step; last += period }". */
module Difficulty {

  /** b to the n-th power; positive for a positive base, at least 1 for a
      base of at least 1. */
  function Pow(b: real, n: nat): (p: real)
    ensures b > 0.0 ==> p > 0.0
    ensures b >= 1.0 ==> p >= 1.0
  {
    if n == 0 then 1.0 else b * Pow(b, n - 1)
  }

  /** The C cast of a float to int: truncation toward zero, so the floor of
      a non-negative value and the ceiling of a negative one. */
  function Truncate(x: real): (t: int)
    ensures x >= 0.0 ==> t == x.Floor
    ensures x < 0.0 ==> t <= 0 && x <= t as real < x + 1.0
  {
    if x >= 0.0 then x.Floor else -((-x).Floor)
  }

  /** The source's level computation: (int)(elapsedTime / 30), raised to 0
      when negative. */
  function CastLevel(elapsed: real): (n: nat) {
    var t := Truncate(elapsed / 30.0);
    if t < 0 then 0 else t
  }

  /** The score level: the number of whole 30-second periods elapsed. */
  function Level(elapsed: real): (n: nat)
    ensures elapsed >= 0.0 ==> n as real * 30.0 <= elapsed < (n + 1) as real * 30.0
    ensures elapsed < 30.0 ==> n == 0
  {
    StepsDueBounds(elapsed, 30.0);
    StepsDue(elapsed, 30.0)
  }

  /** The cast computes the level. */
  lemma CastLevelIsLevel(elapsed: real)
    ensures CastLevel(elapsed) == Level(elapsed)
  {
    if elapsed >= 0.0 {
      StepsDueIsFloor(elapsed, 30.0);
    }
  }

  /** The score interval at a level: 1 second halved once per level. */
  function HalvedInterval(level: nat): (iv: real)
    ensures 0.0 < iv <= 1.0
  {
    if level == 0 then 1.0 else HalvedInterval(level - 1) * 0.5
  }

  /** The score interval in force at an elapsed time. */
  function ScoreIntervalAt(elapsed: real): real {
    HalvedInterval(Level(elapsed))
  }

  /** The spawn interval iv after k more spawn steps: divided by 1.5 each
      time, with no lower bound. */
  function Accelerated(iv: real, k: nat): (r: real)
    ensures iv > 0.0 ==> 0.0 < r <= iv
  {
    if k == 0 then iv else Accelerated(iv, k - 1) / 1.5
  }

  /** The halvings give 1 / 2^level, the closed form of the score interval. */
  lemma {:induction false} HalvedIntervalIsPower(level: nat)
    ensures HalvedInterval(level) == 1.0 / Pow(2.0, level)
  {
    if level > 0 {
      HalvedIntervalIsPower(level - 1);
      var p := Pow(2.0, level - 1);
      assert Pow(2.0, level) == 2.0 * p;
      assert (1.0 / p) * 0.5 == 1.0 / (2.0 * p);
    }
  }

  /** k spawn steps divide the interval by 1.5^k. */
  lemma {:induction false} AcceleratedIsPower(iv: real, k: nat)
    ensures Accelerated(iv, k) == iv / Pow(1.5, k)
  {
    if k > 0 {
      AcceleratedIsPower(iv, k - 1);
      var p := Pow(1.5, k - 1);
      assert Pow(1.5, k) == 1.5 * p;
      assert (iv / p) / 1.5 == iv / (1.5 * p);
    }
  }

  /** Steps taken in two runs of the loop add up. */
  lemma {:induction false} AcceleratedAdd(iv: real, j: nat, k: nat)
    ensures Accelerated(Accelerated(iv, j), k) == Accelerated(iv, j + k)
  {
    if k > 0 {
      AcceleratedAdd(iv, j, k - 1);
    }
  }

  /** Every spawn step makes a positive interval strictly shorter. */
  lemma {:induction false} AcceleratedDecreasing(iv: real, j: nat, k: nat)
    requires iv > 0.0 && j < k
    ensures Accelerated(iv, k) < Accelerated(iv, j)
  {
    if j < k - 1 {
      AcceleratedDecreasing(iv, j, k - 1);
    }
  }

  /** The interval has no floor: six spawn steps, three minutes into a
      session, already take it below a tenth of a second. */
  lemma NoSpawnFloor()
    ensures Accelerated(1.0, 6) < 0.1
  {
    AcceleratedIsPower(1.0, 6);
  }

  /** The product loop that computes the score interval. */
  method ScoreInterval(level: nat) returns (interval: real)
    ensures interval == HalvedInterval(level)
    ensures interval == 1.0 / Pow(2.0, level)
  {
    interval := 1.0;
    for i := 0 to level
      invariant interval == HalvedInterval(i)
    {
      interval := interval * 0.5;
    }
    HalvedIntervalIsPower(level);
  }

  /** The number of times a catch-up loop with this period runs when the
      elapsed time is gap past the last step: none while less than a period
      is owed, otherwise one and then as many as the rest of the gap owes. */
  function StepsDue(gap: real, period: real): nat
    requires period > 0.0
    decreases if gap < period then 0 else (gap / period).Floor
  {
    if gap < period then 0
    else
      DivStep(gap, period);
      1 + StepsDue(gap - period, period)
  }

  /** One period less is one quotient less; the termination measure of
      StepsDue. */
  lemma DivStep(g: real, p: real)
    requires p > 0.0 && g >= p
    ensures (g / p).Floor >= 1
    ensures (g - p) / p == g / p - 1.0
  {
    var q := g / p;
    assert q * p == g;
    if q < 1.0 {
      MulStrict(q, 1.0, p);
    }
    var r := (g - p) / p;
    assert r * p == g - p;
    assert (q - 1.0) * p == g - p;
    if r < q - 1.0 {
      MulStrict(r, q - 1.0, p);
    }
    if r > q - 1.0 {
      MulStrict(q - 1.0, r, p);
    }
  }

  lemma MulSucc(k: nat, p: real)
    ensures (k + 1) as real * p == k as real * p + p
  {
  }

  lemma MulMonotone(a: real, b: real, p: real)
    requires a <= b && p > 0.0
    ensures a * p <= b * p
  {
  }

  lemma MulStrict(a: real, b: real, p: real)
    requires a < b && p > 0.0
    ensures a * p < b * p
  {
  }

  /** The loop that ran StepsDue times leaves less than a period owed:
      k * period <= gap < (k + 1) * period once a period was owed. */
  lemma {:induction false} StepsDueBounds(gap: real, period: real)
    requires period > 0.0
    ensures var k := StepsDue(gap, period);
      && (gap < period ==> k == 0)
      && (gap >= period ==> k >= 1 && k as real * period <= gap < (k + 1) as real * period)
    decreases if gap < period then 0 else (gap / period).Floor
  {
    if gap >= period {
      DivStep(gap, period);
      var k' := StepsDue(gap - period, period);
      StepsDueBounds(gap - period, period);
      MulSucc(k', period);
      MulSucc(k' + 1, period);
      if gap - period < period {
        assert k' == 0;
      }
    }
  }

  /** k is the only count with k * period <= gap < (k + 1) * period, so a
      loop that ran k times and then stopped ran StepsDue times. */
  lemma {:induction false} StepsDueUnique(gap: real, period: real, k: nat)
    requires period > 0.0
    requires k == 0 || k as real * period <= gap
    requires gap < (k + 1) as real * period
    ensures StepsDue(gap, period) == k
    decreases k
  {
    MulSucc(0, period);
    if k > 0 {
      MulSucc(k - 1, period);
      MulMonotone(1.0, k as real, period);
      StepsDueUnique(gap - period, period, k - 1);
    }
  }

  /** A catch-up loop started at a step time last <= now ends with its last
      step time in (now - period, now], having moved it forward only. */
  lemma CatchUp(last: real, now: real, period: real)
    requires period > 0.0 && last <= now
    ensures var k := StepsDue(now - last, period);
      last <= last + k as real * period <= now < last + k as real * period + period
  {
    var k := StepsDue(now - last, period);
    StepsDueBounds(now - last, period);
    MulSucc(k, period);
    MulMonotone(0.0, k as real, period);
  }

  /** For a gap of zero or more, the loop runs floor(gap / period) times. */
  lemma StepsDueIsFloor(gap: real, period: real)
    requires period > 0.0 && gap >= 0.0
    ensures StepsDue(gap, period) == (gap / period).Floor
  {
    var k := StepsDue(gap, period);
    StepsDueBounds(gap, period);
    MulSucc(0, period);
    MulSucc(k, period);
    QuotientBounds(gap, period, k);
  }

  /** Dividing k * p <= g < (k + 1) * p by p. */
  lemma QuotientBounds(g: real, p: real, k: int)
    requires p > 0.0
    requires k as real * p <= g < (k + 1) as real * p
    ensures k as real <= g / p < (k + 1) as real
  {
    var q := g / p;
    assert q * p == g;
    if q < k as real {
      MulStrict(q, k as real, p);
    }
    if q >= (k + 1) as real {
      MulMonotone((k + 1) as real, q, p);
    }
  }
}
