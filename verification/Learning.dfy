/** The two online learners of go-agent/skillstore/store.go: the clamped Q update and the capped
    running mean of a state signature. */
module Learning {
  import opened Wrappers
  import opened RealMath
  import opened WeightedHistory
  import IntMath

  // MAX(-0.8, MIN(1.0, q))
  function Clamp(q: real): real {
    var capped := if q < 1.0 then q else 1.0;
    if capped > -0.8 then capped else -0.8
  }

  predicate InRange(q: real) { -0.8 <= q <= 1.0 }

  /** Clamping moves a value to the nearest one in range, so not at all from within. */
  lemma ClampIsNearest(q: real, other: real)
    requires InRange(other)
    ensures InRange(Clamp(q)) && (InRange(q) ==> Clamp(q) == q)
    ensures q > 1.0 ==> Clamp(q) == 1.0
    ensures q < -0.8 ==> Clamp(q) == -0.8
    ensures (if q < other then other - q else q - other) >= (if q < Clamp(q) then Clamp(q) - q else q - Clamp(q))
  {}

  // The upsert of UpdateQValue: a first reward is stored as it is, later ones move the value.
  function LearnQ(q: Option<real>, reward: real): real {
    match q
    case None => reward
    case Some(v) => Clamp(v + 0.2 * (reward - v))
  }

  /** From a value in range a reward in range moves it a fifth of the way, and the clamp does nothing. */
  lemma ClampIsInert(q: real, reward: real)
    requires InRange(q) && InRange(reward)
    ensures LearnQ(Some(q), reward) == q + 0.2 * (reward - q) && InRange(LearnQ(Some(q), reward))
  {}

  // The value of a row after these rewards, newest last.
  function QAfter(rewards: seq<real>): real
    requires rewards != []
  {
    var n := |rewards| - 1;
    if n == 0 then LearnQ(None, rewards[0]) else LearnQ(Some(QAfter(rewards[..n])), rewards[n])
  }

  /** A row is in [-0.8, 1] if and only if it has been updated since its insertion, or the reward it was
      inserted with is in that range: the insertion itself is not clamped. */
  lemma RangeAfter(rewards: seq<real>)
    requires rewards != []
    ensures InRange(QAfter(rewards)) <==> |rewards| >= 2 || InRange(rewards[0])
  {}

  // The same rewards as a weighted history in which each takes a fifth.
  function RewardHistory(rewards: seq<real>): History
    requires rewards != []
  {
    var n := |rewards| - 1;
    if n == 0 then First(rewards[0]) else Then(RewardHistory(rewards[..n]), rewards[n], 0.2)
  }

  /** For rewards in range a row is exactly their exponentially weighted mean. */
  lemma {:induction false} QIsWeightedMean(rewards: seq<real>)
    requires rewards != [] && forall i :: 0 <= i < |rewards| ==> InRange(rewards[i])
    ensures QAfter(rewards) == Mean(RewardHistory(rewards)) && InRange(QAfter(rewards))
  {
    var n := |rewards| - 1;
    if n == 0 {
      MeanOfOne(rewards[0]);
    } else {
      QIsWeightedMean(rewards[..n]);
      MeanStep(QAfter(rewards[..n]), RewardHistory(rewards[..n]), rewards[n]);
    }
  }

  lemma MeanStep(q: real, h: History, reward: real)
    requires q == Mean(h) && InRange(q) && InRange(reward)
    ensures LearnQ(Some(q), reward) == Mean(Then(h, reward, 0.2)) && InRange(LearnQ(Some(q), reward))
  {
    AppendMean(h, reward, 0.2);
    ClampIsInert(q, reward);
  }

  function Pow(base: real, n: nat): real { if n == 0 then 1.0 else base * Pow(base, n - 1) }

  // n updates with the same reward.
  function Repeat(q: real, reward: real, n: nat): real {
    if n == 0 then q else LearnQ(Some(Repeat(q, reward, n - 1)), reward)
  }

  /** n equal rewards close all but (4/5)^n of the distance to the reward. */
  lemma {:induction false} EqualRewards(q: real, reward: real, n: nat)
    requires InRange(q) && InRange(reward)
    ensures Repeat(q, reward, n) == reward + Pow(0.8, n) * (q - reward) && InRange(Repeat(q, reward, n))
  {
    if n > 0 {
      EqualRewards(q, reward, n - 1);
      RewardStep(Repeat(q, reward, n - 1), reward, Pow(0.8, n - 1), q - reward);
    }
  }

  lemma RewardStep(q: real, reward: real, p: real, d: real)
    requires InRange(q) && InRange(reward) && q == reward + p * d
    ensures LearnQ(Some(q), reward) == reward + (0.8 * p) * d && InRange(LearnQ(Some(q), reward))
  {
    ClampIsInert(q, reward);
    Contract(p, d);
  }

  lemma Contract(p: real, d: real)
    ensures (0.8 * p) * d == p * d - 0.2 * (p * d)
  {}

  // ---------------------------------------------------------------------------------------------
  // The capped running mean, one feature at a time.

  const SAMPLE_CAP: int := 500

  // x joins c samples with this mean.
  function Merged(mean: real, c: real, x: real): real
    requires c >= 0.0
  {
    (mean * c + x) / (c + 1.0)
  }

  function NextAverage(mean: real, count: int, x: real): real
    requires count >= 0
  {
    Merged(mean, IntMath.Min(count, 499) as real, x)
  }

  function NextCount(count: int): int { IntMath.Min(count + 1, 500) }

  datatype Average = Average(mean: real, count: int)

  // A row that starts at (mean, count) after these samples, newest last.
  function Averaged(start: Average, xs: seq<real>): (a: Average)
    requires start.count >= 1
    ensures a.count >= 1
  {
    if xs == [] then start
    else
      var before := Averaged(start, xs[..|xs| - 1]);
      Average(NextAverage(before.mean, before.count, xs[|xs| - 1]), NextCount(before.count))
  }

  function Total(xs: seq<real>): real {
    if xs == [] then 0.0 else Total(xs[..|xs| - 1]) + xs[|xs| - 1]
  }

  lemma Undivide(a: real, n: real)
    requires n > 0.0
    ensures (a / n) * n == a
  {}

  /** While at most 500 samples (the starting row counted as `count` of them) have been seen, the row
      is their exact arithmetic mean. */
  lemma {:induction false} ExactMean(start: Average, xs: seq<real>)
    requires start.count >= 1 && start.count + |xs| <= SAMPLE_CAP
    ensures Averaged(start, xs).count == start.count + |xs|
    ensures Averaged(start, xs).mean * (start.count + |xs|) as real == start.mean * start.count as real + Total(xs)
  {
    if xs != [] {
      var n := |xs| - 1;
      ExactMean(start, xs[..n]);
      var before := Averaged(start, xs[..n]);
      ExactStep(before.mean, before.count, xs[n]);
    }
  }

  lemma ExactStep(mean: real, count: int, x: real)
    requires 1 <= count < SAMPLE_CAP
    ensures NextAverage(mean, count, x) * (count + 1) as real == mean * count as real + x
  {
    var c := count as real;
    assert NextAverage(mean, count, x) == Merged(mean, c, x);
    Undivide(mean * c + x, c + 1.0);
  }

  // A history in which each sample after the first takes a five-hundredth.
  function CappedHistory(mean: real, xs: seq<real>): History {
    var n := |xs| - 1;
    if n < 0 then First(mean) else Then(CappedHistory(mean, xs[..n]), xs[n], 1.0 / 500.0)
  }

  /** From 500 samples on the row is an exponentially weighted mean: each further sample takes 1/500. */
  lemma {:induction false} PastTheCap(start: Average, xs: seq<real>)
    requires start.count == SAMPLE_CAP
    ensures Averaged(start, xs) == Average(Mean(CappedHistory(start.mean, xs)), SAMPLE_CAP)
    ensures Shares(CappedHistory(start.mean, xs))
  {
    if xs == [] {
      MeanOfOne(start.mean);
    } else {
      var n := |xs| - 1;
      PastTheCap(start, xs[..n]);
      var h := CappedHistory(start.mean, xs[..n]);
      AppendMean(h, xs[n], 1.0 / 500.0);
      CappedStep(Mean(h), xs[n]);
    }
  }

  lemma CappedStep(mean: real, x: real)
    ensures NextAverage(mean, SAMPLE_CAP, x) == mean + 1.0 / 500.0 * (x - mean)
  {
    assert NextAverage(mean, SAMPLE_CAP, x) == (mean * 499.0 + x) / 500.0;
  }

  /** The sample count is min(start + n, 500). */
  lemma {:induction false} CountIsCapped(start: Average, xs: seq<real>)
    requires 1 <= start.count <= SAMPLE_CAP
    ensures Averaged(start, xs).count == if start.count + |xs| <= 500 then start.count + |xs| else 500
  {
    if xs != [] {
      CountIsCapped(start, xs[..|xs| - 1]);
    }
  }

  /** Forever after, the row stays within the bounds of its start and its samples. */
  lemma {:induction false} AverageStaysInHull(start: Average, xs: seq<real>, low: real, high: real)
    requires start.count >= 1 && low <= start.mean <= high
    requires forall i :: 0 <= i < |xs| ==> low <= xs[i] <= high
    ensures low <= Averaged(start, xs).mean <= high
  {
    if xs != [] {
      var n := |xs| - 1;
      AverageStaysInHull(start, xs[..n], low, high);
      var before := Averaged(start, xs[..n]);
      AverageStep(before, xs[n], low, high);
    }
  }

  lemma AverageStep(a: Average, x: real, low: real, high: real)
    requires a.count >= 1 && low <= a.mean <= high && low <= x <= high
    ensures low <= NextAverage(a.mean, a.count, x) <= high
  {
    HullStep(a.mean, IntMath.Min(a.count, 499) as real, x, low, high);
  }

  lemma HullStep(m: real, c: real, x: real, low: real, high: real)
    requires c >= 0.0 && low <= m <= high && low <= x <= high
    ensures low <= Merged(m, c, x) <= high
  {
    Undivide(m * c + x, c + 1.0);
    var r := Merged(m, c, x);
    var a := ProductNonnegative(c, m - low);
    var b := ProductNonnegative(c, high - m);
    assert (c + 1.0) * (r - low) == r * (c + 1.0) - low * c - low;
    assert (c + 1.0) * (high - r) == high * c + high - r * (c + 1.0);
    FactorNonnegative(c + 1.0, r - low);
    FactorNonnegative(c + 1.0, high - r);
  }
}
