/** The controllers kept in go-agent/telemetry/telemetry.go: latency filter and z-score, throughput
    peaks and shaper rates, traffic classifier. */
module Telemetry {
  import opened Wrappers
  import opened RealMath
  import opened WeightedHistory
  import opened ReflectedWalk

  // ---------------------------------------------------------------------------------------------
  // Latency filter.

  const DEFAULT_ALPHA: real := 0.2

  function EffectiveAlpha(alpha: real): real {
    if alpha <= 0.0 || alpha >= 1.0 then DEFAULT_ALPHA else alpha
  }

  function ZScore(root: real -> real, x: real, mean: real, variance: real): real {
    var stdDev := if variance > 0.0 then root(variance) else 0.0;
    if stdDev > 0.0 then (x - mean) / stdDev else 0.0
  }

  // A mean has gone part of the way to a sample: alpha of it, or a fifth for an alpha out of range.
  ghost predicate Moved(before: real, after: real, x: real, alpha: real) {
    after == before + (if 0.0 < alpha < 1.0 then alpha else 0.2) * (x - before)
  }

  // z counts standard deviations from the mean, and is 0 when there are none.
  ghost predicate Standardized(root: real -> real, z: real, x: real, mean: real, variance: real) {
    if variance > 0.0 then z * root(variance) == x - mean else z == 0.0
  }

  lemma UpdateMeans(root: real -> real, mean: real, variance: real, x: real, alpha: real)
    requires IsSqrt(root)
    ensures
      var a := EffectiveAlpha(alpha);
      var m, v := NextMean(mean, x, a), NextVariance(mean, variance, x, a);
      Moved(mean, m, x, alpha) && Standardized(root, ZScore(root, x, m, v), x, m, v)
  {
    var a := EffectiveAlpha(alpha);
    ScoreMeans(root, x, NextMean(mean, x, a), NextVariance(mean, variance, x, a));
  }

  lemma ScoreMeans(root: real -> real, x: real, mean: real, variance: real)
    requires IsSqrt(root)
    ensures Standardized(root, ZScore(root, x, mean, variance), x, mean, variance)
  {
    if variance > 0.0 {
      SqZero(root(variance));
      Division(x - mean, root(variance));
    }
  }

  lemma Division(d: real, s: real)
    requires s > 0.0
    ensures d / s * s == d
  {}

  // One update of (mean, variance) from a nonzero mean.
  function NextMean(mean: real, x: real, alpha: real): real { mean + alpha * (x - mean) }

  function NextVariance(mean: real, variance: real, x: real, alpha: real): real {
    (1.0 - alpha) * (variance + alpha * Sq(x - mean))
  }

  // The filter state is the weighted mean and variance of the samples.
  ghost predicate Represents(samples: Option<History>, mean: real, variance: real) {
    match samples
    case None => mean == 0.0 && variance == 0.0
    case Some(h) => Shares(h) && mean == Mean(h) && variance == Variance(h) && variance >= 0.0
  }

  function Observe(samples: Option<History>, mean: real, x: real, alpha: real): Option<History>
    requires mean != 0.0 ==> samples.Some?
  {
    Some(if mean == 0.0 then First(x) else Then(samples.value, x, alpha))
  }

  predicate ScoreWithin(z: real, alpha: real) { alpha * Sq(z) <= 1.0 - alpha }

  lemma RestartRepresents(samples: Option<History>, x: real, alpha: real)
    requires Share(alpha)
    ensures Represents(Observe(samples, 0.0, x, alpha), x, 0.0) && ScoreWithin(0.0, alpha)
  {
    FirstFilter(x);
    ZeroProduct(alpha);
  }

  lemma ObserveRepresents(root: real -> real, samples: Option<History>, mean: real, variance: real, x: real, alpha: real)
    requires IsSqrt(root) && Share(alpha) && Represents(samples, mean, variance) && mean != 0.0
    ensures
      var m, v := NextMean(mean, x, alpha), NextVariance(mean, variance, x, alpha);
      && Represents(Observe(samples, mean, x, alpha), m, v)
      && ScoreWithin(ZScore(root, x, m, v), alpha)
      && (mean > 0.0 && x >= 0.0 ==> m > 0.0)
  {
    AppendRepresents(samples.value, mean, variance, x, alpha);
    ScoreBound(root, mean, variance, x, alpha);
    NextSigns(mean, variance, x, alpha);
  }

  lemma AppendRepresents(h: History, mean: real, variance: real, x: real, alpha: real)
    requires Share(alpha) && Represents(Some(h), mean, variance)
    ensures Represents(Some(Then(h, x, alpha)), NextMean(mean, x, alpha), NextVariance(mean, variance, x, alpha))
  {
    Append(h, x, alpha);
    NextSigns(mean, variance, x, alpha);
  }

  // One update of the filter, from any state.
  datatype Filter = Filter(mean: real, variance: real)

  function FilterStep(f: Filter, x: real, alpha: real): Filter {
    if f.mean == 0.0 then Filter(x, 0.0)
    else Filter(NextMean(f.mean, x, alpha), NextVariance(f.mean, f.variance, x, alpha))
  }

  // A new filter after these samples, newest last.
  function Filtered(xs: seq<real>, alpha: real): Filter {
    if xs == [] then Filter(0.0, 0.0) else FilterStep(Filtered(xs[..|xs| - 1], alpha), xs[|xs| - 1], alpha)
  }

  function HistoryOf(xs: seq<real>, alpha: real): History
    requires xs != []
  {
    var n := |xs| - 1;
    if n == 0 then First(xs[0]) else Then(HistoryOf(xs[..n], alpha), xs[n], alpha)
  }

  predicate Latencies(xs: seq<real>) { forall i :: 0 <= i < |xs| ==> xs[i] >= 0.0 }

  predicate FirstPositive(xs: seq<real>, k: nat) {
    k <= |xs| && (forall i :: 0 <= i < k ==> xs[i] == 0.0) && (k < |xs| ==> xs[k] > 0.0)
  }

  /** Over any run of nonnegative samples at one alpha, the filter holds the weighted mean and variance of
      the samples from the first positive one on; until there is one it stays at zero. */
  lemma {:induction false} FilterRun(xs: seq<real>, alpha: real, k: nat)
    requires Share(alpha) && Latencies(xs) && FirstPositive(xs, k)
    ensures k == |xs| ==> Filtered(xs, alpha) == Filter(0.0, 0.0)
    ensures k < |xs| ==>
      var f, h := Filtered(xs, alpha), HistoryOf(xs[k..], alpha);
      f.mean > 0.0 && Represents(Some(h), f.mean, f.variance)
  {
    if xs != [] {
      var n := |xs| - 1;
      var before := Filtered(xs[..n], alpha);
      FilterRun(xs[..n], alpha, if k <= n then k else n);
      if k == n {
        assert xs[k..] == [xs[n]];
        FirstFilter(xs[n]);
      } else if k < n {
        assert xs[k..][..n - k] == xs[..n][k..];
        AppendRepresents(HistoryOf(xs[..n][k..], alpha), before.mean, before.variance, xs[n], alpha);
        NextSigns(before.mean, before.variance, xs[n], alpha);
      }
    }
  }

  /** Whatever came before, a sample scored against a filter that already contains it cannot stand
      out by more than sqrt((1 - alpha) / alpha) standard deviations. */
  lemma ScoreBound(root: real -> real, mean: real, variance: real, x: real, alpha: real)
    requires IsSqrt(root) && Share(alpha) && variance >= 0.0
    ensures
      ScoreWithin(ZScore(root, x, NextMean(mean, x, alpha), NextVariance(mean, variance, x, alpha)), alpha)
  {
    var m', v' := NextMean(mean, x, alpha), NextVariance(mean, variance, x, alpha);
    var z := ZScore(root, x, m', v');
    if v' > 0.0 && root(v') > 0.0 {
      var s := root(v');
      Quotient(x - m', s, z);
      Remainder(mean, x, alpha);
      var slack := ProductNonnegative(1.0 - alpha, variance);
      ScoreAlgebra(alpha, Sq(x - mean), slack, v', Sq(z));
    } else {
      ZeroProduct(alpha);
    }
  }

  lemma Quotient(d: real, s: real, z: real)
    requires s > 0.0 && z == d / s
    ensures Sq(z) * Sq(s) == Sq(d)
  {
    assert z * s == d;
    assert Sq(z) * Sq(s) == (z * s) * (z * s);
  }

  // The part of a deviation that is left after the mean has moved towards it.
  lemma Remainder(mean: real, x: real, alpha: real)
    ensures Sq(x - NextMean(mean, x, alpha)) == Sq(1.0 - alpha) * Sq(x - mean)
  {
    assert x - NextMean(mean, x, alpha) == (1.0 - alpha) * (x - mean);
  }

  lemma ScoreAlgebra(alpha: real, q: real, slack: real, v: real, zz: real)
    requires Share(alpha) && slack >= 0.0 && v > 0.0
    requires v == slack + (1.0 - alpha) * (alpha * q)
    requires zz * v == Sq(1.0 - alpha) * q
    ensures alpha * zz <= 1.0 - alpha
  {
    assert v * ((1.0 - alpha) - alpha * zz) == (1.0 - alpha) * v - alpha * (zz * v);
    assert alpha * (Sq(1.0 - alpha) * q) == (1.0 - alpha) * ((1.0 - alpha) * (alpha * q));
    assert (1.0 - alpha) * v == (1.0 - alpha) * slack + (1.0 - alpha) * ((1.0 - alpha) * (alpha * q));
    var _ := ProductNonnegative(1.0 - alpha, slack);
    FactorNonnegative(v, (1.0 - alpha) - alpha * zz);
  }

  /** At the call sites' alpha of 0.2 the score never exceeds 2, so neither the z > 2 test of the
      shaper nor the default trigger of 2.5 can fire on it. */
  lemma ScoreAtMostTwo(z: real)
    requires ScoreWithin(z, DEFAULT_ALPHA)
    ensures -2.0 <= z <= 2.0
  {
    assert Sq(2.0) == 4.0;
    SquareOrder(z, 2.0);
    assert Sq(-z) == Sq(z);
    SquareOrder(-z, 2.0);
  }

  // The score of a new sample at the call sites' alpha, after a history of any shares.
  function Score(root: real -> real, h: History, x: real): real {
    ZScore(root, x, Mean(Then(h, x, DEFAULT_ALPHA)), Variance(Then(h, x, DEFAULT_ALPHA)))
  }

  ghost predicate CanExceed(root: real -> real, threshold: real) {
    exists h, x :: Shares(h) && Score(root, h, x) > threshold
  }

  /** A z-score threshold can be exceeded by some run if and only if it is below 2; the default
      trigger of 2.5 is out of reach. */
  lemma TriggerReachable(root: real -> real, threshold: real)
    requires IsSqrt(root)
    ensures CanExceed(root, threshold) <==> threshold < 2.0
  {
    forall h, x | Shares(h)
      ensures Score(root, h, x) <= 2.0
    {
      NoScoreAboveTwo(root, h, x);
    }
    SomeScoreOfTwo(root, 1.0, 2.0);
    assert Shares(First(1.0));
  }

  lemma NoScoreAboveTwo(root: real -> real, h: History, x: real)
    requires IsSqrt(root) && Shares(h)
    ensures Score(root, h, x) <= 2.0
  {
    WeightsAreShares(h);
    SpreadNonnegative(Weigh(h), Mean(h));
    Append(h, x, DEFAULT_ALPHA);
    ScoreBound(root, Mean(h), Variance(h), x, DEFAULT_ALPHA);
    ScoreAtMostTwo(Score(root, h, x));
  }

  lemma SomeScoreOfTwo(root: real -> real, first: real, second: real)
    requires IsSqrt(root) && 0.0 < first < second
    ensures Score(root, First(first), second) == 2.0
  {
    FirstFilter(first);
    Append(First(first), second, DEFAULT_ALPHA);
    TwoSamplesScoreTwo(root, first, second);
  }

  /** The bound is attained: any two samples, the second larger, score exactly 2. */
  lemma TwoSamplesScoreTwo(root: real -> real, first: real, second: real)
    requires IsSqrt(root) && first > 0.0 && second > first
    ensures ZScore(root, second, NextMean(first, second, DEFAULT_ALPHA),
                   NextVariance(first, 0.0, second, DEFAULT_ALPHA)) == 2.0
  {
    var d := second - first;
    var v := NextVariance(first, 0.0, second, DEFAULT_ALPHA);
    SqPositive(d);
    assert Sq(0.4 * d) == v;
    RootUnique(root(v), 0.4 * d);
    assert second - NextMean(first, second, DEFAULT_ALPHA) == 0.8 * d;
    Ratio(d);
  }

  lemma Ratio(d: real)
    requires d > 0.0
    ensures 0.4 * d > 0.0 && (0.8 * d) / (0.4 * d) == 2.0
  {}

  // ---------------------------------------------------------------------------------------------
  // Shaper rates.

  function IsSpike(latency: real, z: real): bool { z > 2.0 || latency > 80.0 }

  function Recalibrated(last: real, peak: real, spike: bool): real {
    if spike && last > 50.0 && last < peak * 0.75 then last else peak
  }

  // One direction of CalculateAdaptiveSQMRates, in Kbps before rounding.
  function ShapedKbps(peak: real, spike: bool): real {
    var target := if peak > 200.0 then peak else 200.0;
    var margin := target * 1000.0 * 0.80;
    var shaped := if spike then margin * 0.85 else margin;
    var floor := if peak * 1000.0 * 0.50 > 50000.0 then peak * 1000.0 * 0.50 else 50000.0;
    if shaped < floor then floor else if shaped > 900000.0 then 900000.0 else shaped
  }

  /** For every peak the rate is 80% of max(200, peak), 15% less in a spike, capped at 900000: the
      50% floor never decides, and the rate lies in [136000, 900000]. */
  lemma RateFormula(peak: real, spike: bool)
    ensures ShapedKbps(peak, spike) == Min(900000.0, 800.0 * Max(200.0, peak) * (if spike then 0.85 else 1.0))
    ensures 136000.0 <= ShapedKbps(peak, spike) <= 900000.0
    ensures 800.0 * Max(200.0, peak) * (if spike then 0.85 else 1.0) > Max(50000.0, 500.0 * peak)
  {}

  /** Asking twice with the same readings gives the same peaks, hence the same rates. */
  lemma RecalibrationIsIdempotent(last: real, peak: real, spike: bool)
    requires last <= peak
    ensures Recalibrated(last, Recalibrated(last, peak, spike), spike) == Recalibrated(last, peak, spike)
    ensures last <= Recalibrated(last, peak, spike) <= peak
  {}

  // peak is the largest of the readings since the last recalibration, last the newest one.
  ghost predicate IsPeak(peak: real, last: real, since: seq<real>) {
    && (since == [] ==> last == 0.0)
    && (since != [] ==> last == since[|since| - 1])
    && (forall i :: 0 <= i < |since| ==> since[i] <= peak)
    && (peak == 0.0 || peak in since) && peak >= 0.0
  }

  // ---------------------------------------------------------------------------------------------
  // Traffic classifier.

  function BulkStep(mbps: real): int {
    if mbps >= 25.0 then 1 else if mbps >= 1.5 then -1 else if mbps < 0.5 then -1 else 0
  }

  function StreamStep(mbps: real): int {
    if mbps >= 25.0 then -1 else if mbps >= 1.5 then 1 else if mbps < 0.5 then -1 else 0
  }

  function Steps(step: real -> int, samples: seq<real>): seq<int> {
    seq(|samples|, i requires 0 <= i < |samples| => step(samples[i]))
  }

  ghost predicate BulkActive(samples: seq<real>) {
    SomeSuffixReaches(Steps(BulkStep, samples), 2)
  }

  ghost predicate StreamActive(samples: seq<real>) {
    !BulkActive(samples) && SomeSuffixReaches(Steps(StreamStep, samples), 3)
  }

  function BulkCount(samples: seq<real>): int { Walk(Steps(BulkStep, samples)) }
  function StreamCount(samples: seq<real>): int { Walk(Steps(StreamStep, samples)) }

  lemma FlagsFollowCounts(samples: seq<real>)
    ensures BulkActive(samples) <==> BulkCount(samples) >= 2
    ensures StreamActive(samples) <==> BulkCount(samples) < 2 && StreamCount(samples) >= 3
  {
    WalkIsBestSuffix(Steps(BulkStep, samples));
    WalkIsBestSuffix(Steps(StreamStep, samples));
    BestSuffixReaches(BulkCount(samples), Steps(BulkStep, samples), 2);
    BestSuffixReaches(StreamCount(samples), Steps(StreamStep, samples), 3);
  }

  // A count goes down by n, to zero at the least.
  function Less(count: int, n: nat): int { if count > n then count - n else 0 }

  predicate Band(run: seq<real>, low: real, high: real) { forall i :: 0 <= i < |run| ==> low <= run[i] < high }

  /** After any history, a run of n download rates in one band moves the two counts like this: 25 Mbit/s and
      more is n for bulk and n against streaming; from 1.5 to 25 the other way round; from 0.5 to 1.5 moves
      neither; less is n against both. */
  lemma BandRun(before: seq<real>, run: seq<real>)
    ensures (forall i :: 0 <= i < |run| ==> run[i] >= 25.0) ==>
      BulkCount(before + run) == BulkCount(before) + |run| && StreamCount(before + run) == Less(StreamCount(before), |run|)
    ensures Band(run, 1.5, 25.0) ==>
      BulkCount(before + run) == Less(BulkCount(before), |run|) && StreamCount(before + run) == StreamCount(before) + |run|
    ensures Band(run, 0.5, 1.5) ==>
      BulkCount(before + run) == BulkCount(before) && StreamCount(before + run) == StreamCount(before)
    ensures (forall i :: 0 <= i < |run| ==> run[i] < 0.5) ==>
      BulkCount(before + run) == Less(BulkCount(before), |run|) && StreamCount(before + run) == Less(StreamCount(before), |run|)
  {
    OneBand(BulkStep, before, run);
    OneBand(StreamStep, before, run);
  }

  lemma OneBand(step: real -> int, before: seq<real>, run: seq<real>)
    ensures
      var a, b := Walk(Steps(step, before)), Walk(Steps(step, before + run));
      && ((forall i :: 0 <= i < |run| ==> step(run[i]) == 1) ==> b == a + |run|)
      && ((forall i :: 0 <= i < |run| ==> step(run[i]) == 0) ==> b == a)
      && ((forall i :: 0 <= i < |run| ==> step(run[i]) == -1) ==> b == Less(a, |run|))
  {
    assert Steps(step, before + run) == Steps(step, before) + Steps(step, run);
    if forall i :: 0 <= i < |run| ==> step(run[i]) == 1 {
      WalkRun(Steps(step, before), Steps(step, run), 1);
    }
    if forall i :: 0 <= i < |run| ==> step(run[i]) == 0 {
      WalkRun(Steps(step, before), Steps(step, run), 0);
    }
    if forall i :: 0 <= i < |run| ==> step(run[i]) == -1 {
      WalkRun(Steps(step, before), Steps(step, run), -1);
    }
  }

  /** On a new collector two rates of 25 and more are a bulk download, three between 1.5 and 25 a stream, and no
      fewer are. */
  lemma FlagsOfARun(run: seq<real>)
    ensures (forall i :: 0 <= i < |run| ==> run[i] >= 25.0) ==> (BulkActive(run) <==> |run| >= 2) && !StreamActive(run)
    ensures Band(run, 1.5, 25.0) ==> (StreamActive(run) <==> |run| >= 3) && !BulkActive(run)
  {
    BandRun([], run);
    FlagsFollowCounts(run);
    assert [] + run == run && Steps(BulkStep, []) == [] && Steps(StreamStep, []) == [];
  }

  lemma StepsSnoc(step: real -> int, samples: seq<real>, x: real)
    ensures Steps(step, samples + [x]) == Steps(step, samples) + [step(x)]
  {}

  // ---------------------------------------------------------------------------------------------
  // Throughput.

  const WORD: nat := 0x1_0000_0000_0000_0000

  // Subtraction of unsigned 64-bit counters.
  function Delta64(now: nat, before: nat): nat { (now as int - before) % WORD }

  function Mbps(bytes: nat, seconds: real): (r: real)
    requires seconds > 0.0
    ensures r >= 0.0
  {
    bytes as real * 8.0 / (seconds * 1000000.0)
  }

  // Download and upload rates from the byte counters; zero when they cannot be compared.
  function Throughput(prev: Option<real>, lastRx: nat, lastTx: nat, now: real, rx: nat, tx: nat): (r: (real, real))
    ensures r.0 >= 0.0 && r.1 >= 0.0
  {
    if prev.Some? && lastRx > 0 && now - prev.value > 0.0 && rx >= lastRx then
      (Mbps(rx - lastRx, now - prev.value), Mbps(Delta64(tx, lastTx), now - prev.value))
    else (0.0, 0.0)
  }

  // Megabits per second from the bytes received and from those sent since the last reading; zero where the
  // receive counter cannot be compared.
  ghost predicate Measured(prev: Option<real>, lastRx: nat, lastTx: nat, now: real, rx: nat, tx: nat, m: Metric) {
    if prev.Some? && lastRx > 0 && now > prev.value && rx >= lastRx then
      && m.downloadMbps * 1000000.0 * (now - prev.value) == 8.0 * (rx - lastRx) as real
      && (tx >= lastTx ==> m.uploadMbps * 1000000.0 * (now - prev.value) == 8.0 * (tx - lastTx) as real)
    else m.downloadMbps == 0.0 && m.uploadMbps == 0.0
  }

  lemma ThroughputMeans(prev: Option<real>, lastRx: nat, lastTx: nat, now: real, rx: nat, tx: nat)
    requires tx < WORD && lastTx < WORD
    ensures forall m: Metric :: (m.downloadMbps, m.uploadMbps) == Throughput(prev, lastRx, lastTx, now, rx, tx) ==>
              Measured(prev, lastRx, lastTx, now, rx, tx, m)
  {
    if prev.Some? && lastRx > 0 && now > prev.value && rx >= lastRx {
      RateMeans(rx - lastRx, now - prev.value);
      if tx >= lastTx {
        DeltaIsTrueUnlessWrapped(tx, lastTx);
        RateMeans(tx - lastTx, now - prev.value);
      }
    }
  }

  lemma RateMeans(bytes: nat, seconds: real)
    requires seconds > 0.0
    ensures Mbps(bytes, seconds) * 1000000.0 * seconds == 8.0 * bytes as real
  {
    Division(bytes as real * 8.0, seconds * 1000000.0);
    assert Mbps(bytes, seconds) * (seconds * 1000000.0) == Mbps(bytes, seconds) * 1000000.0 * seconds;
  }

  /** Only the receive counter is checked for going backwards, so the transmit delta is the true one
      exactly when the transmit counter did not. */
  lemma DeltaIsTrueUnlessWrapped(now: nat, before: nat)
    requires now < WORD && before < WORD
    ensures Delta64(now, before) as int == now as int - before as int <==> now >= before
  {}

  datatype Metric = Metric(downloadMbps: real, uploadMbps: real, streaming: bool, bulk: bool)

  class TelemetryCollector {
    var lastCollect: Option<real>
    var lastMetric: Option<Metric>
    var lastRx: nat
    var lastTx: nat
    var lastDL: real
    var lastUL: real
    var peakDL: real
    var peakUL: real
    var streamingCycles: int
    var bulkCycles: int
    var ewmaLatency: real
    var ewmaVariance: real

    ghost var latencies: Option<History>   // samples since the filter last (re)started
    ghost var downloads: seq<real>         // processed download rates
    ghost var sinceDL: seq<real>           // download rates since the last recalibration
    ghost var sinceUL: seq<real>

    ghost predicate FilterValid()
      reads `latencies, `ewmaLatency, `ewmaVariance
    {
      Represents(latencies, ewmaLatency, ewmaVariance)
    }

    ghost predicate PeakValid()
      reads `sinceDL, `sinceUL, `peakDL, `peakUL, `lastDL, `lastUL
    {
      IsPeak(peakDL, lastDL, sinceDL) && IsPeak(peakUL, lastUL, sinceUL)
    }

    ghost predicate ClassifierValid()
      reads `downloads, `bulkCycles, `streamingCycles
    {
      && IsBestSuffix(bulkCycles, Steps(BulkStep, downloads))
      && IsBestSuffix(streamingCycles, Steps(StreamStep, downloads))
    }

    ghost predicate Valid()
      reads this
    {
      FilterValid() && PeakValid() && ClassifierValid() && lastRx < WORD && lastTx < WORD
    }

    constructor ()
      ensures Valid() && latencies == None && ewmaLatency == ewmaVariance == 0.0 && downloads == [] && lastCollect == None
    {
      lastCollect, lastMetric, lastRx, lastTx := None, None, 0, 0;
      lastDL, lastUL, peakDL, peakUL := 0.0, 0.0, 0.0, 0.0;
      streamingCycles, bulkCycles, ewmaLatency, ewmaVariance := 0, 0, 0.0, 0.0;
      latencies, downloads, sinceDL, sinceUL := None, [], [], [];
      new;
      StartBestSuffix();
      assert Steps(BulkStep, []) == [] && Steps(StreamStep, []) == [];
    }

    /** The filter holds the weighted mean and variance of every sample since it last restarted, and
        restarts only when its mean is exactly 0. */
    method UpdateEWMALatency(root: real -> real, currentLat: real, alpha: real) returns (mean: real, z: real)
      requires Valid() && IsSqrt(root)
      modifies `ewmaLatency, `ewmaVariance, `latencies
      ensures Valid() && mean == ewmaLatency
      ensures latencies == Observe(old(latencies), old(ewmaLatency), currentLat, EffectiveAlpha(alpha))
      ensures Filter(ewmaLatency, ewmaVariance) ==
              FilterStep(Filter(old(ewmaLatency), old(ewmaVariance)), currentLat, EffectiveAlpha(alpha))
      ensures z == ZScore(root, currentLat, ewmaLatency, ewmaVariance)
      ensures ScoreWithin(z, EffectiveAlpha(alpha))
      ensures old(ewmaLatency) != 0.0 ==> Moved(old(ewmaLatency), ewmaLatency, currentLat, alpha)
      ensures Standardized(root, z, currentLat, ewmaLatency, ewmaVariance)
      ensures old(ewmaLatency) > 0.0 && currentLat >= 0.0 ==> ewmaLatency > 0.0
    {
      var a := EffectiveAlpha(alpha);
      if ewmaLatency == 0.0 {
        RestartRepresents(latencies, currentLat, a);
        latencies := Observe(latencies, 0.0, currentLat, a);
        ewmaLatency, ewmaVariance := currentLat, 0.0;
        return currentLat, 0.0;
      }
      ObserveRepresents(root, latencies, ewmaLatency, ewmaVariance, currentLat, a);
      latencies := Observe(latencies, ewmaLatency, currentLat, a);
      UpdateMeans(root, ewmaLatency, ewmaVariance, currentLat, alpha);
      ewmaLatency, ewmaVariance :=
        NextMean(ewmaLatency, currentLat, a), NextVariance(ewmaLatency, ewmaVariance, currentLat, a);
      return ewmaLatency, ZScore(root, currentLat, ewmaLatency, ewmaVariance);
    }

    /** The shaper answers by the peaks, after lowering a stale one; the peak of a recalibrated
        direction restarts from the newest reading. */
    method CalculateAdaptiveSQMRates(currentLatency: real, z: real) returns (down: real, up: real)
      requires Valid()
      modifies `peakDL, `peakUL, `sinceDL, `sinceUL
      ensures Valid()
      ensures
        var spike := z > 2.0 || currentLatency > 80.0;
        && peakDL == (if spike && lastDL > 50.0 && lastDL < old(peakDL) * 0.75 then lastDL else old(peakDL))
        && peakUL == (if spike && lastUL > 50.0 && lastUL < old(peakUL) * 0.75 then lastUL else old(peakUL))
        && down == Min(900000.0, 800.0 * Max(200.0, peakDL) * (if spike then 0.85 else 1.0))
        && up == Min(900000.0, 800.0 * Max(200.0, peakUL) * (if spike then 0.85 else 1.0))
      ensures sinceDL == if peakDL == old(peakDL) then old(sinceDL) else [lastDL]
      ensures sinceUL == if peakUL == old(peakUL) then old(sinceUL) else [lastUL]
    {
      var spike := IsSpike(currentLatency, z);
      if spike {
        if lastDL > 50.0 && lastDL < peakDL * 0.75 {
          peakDL, sinceDL := lastDL, [lastDL];
        }
        if lastUL > 50.0 && lastUL < peakUL * 0.75 {
          peakUL, sinceUL := lastUL, [lastUL];
        }
      }
      down, up := ShapedKbps(peakDL, spike), ShapedKbps(peakUL, spike);
      RateFormula(peakDL, spike);
      RateFormula(peakUL, spike);
    }

    /** Within two seconds the previous metric is returned and nothing moves; otherwise it is refreshed. */
    method CollectMetrics(now: real, rx: nat, tx: nat) returns (m: Metric)
      requires Valid() && rx < WORD && tx < WORD
      requires lastCollect.Some? ==> lastCollect.value <= now
      modifies this
      ensures Valid()
      ensures old(Cached(now)) ==> unchanged(this) && m == lastMetric.value
      ensures !old(Cached(now)) ==> lastCollect == Some(now) && lastMetric == Some(m) && lastRx == rx && lastTx == tx
      ensures !old(Cached(now)) ==>
                (m.downloadMbps, m.uploadMbps) == Throughput(old(lastCollect), old(lastRx), old(lastTx), now, rx, tx)
      ensures !old(Cached(now)) ==> Processed(m)
      ensures old(lastCollect).Some? && old(lastMetric).Some? && now < old(lastCollect).value + 2.0 ==>
                unchanged(this) && m == old(lastMetric).value
      ensures old(lastCollect).None? || old(lastMetric).None? || now >= old(lastCollect).value + 2.0 ==>
                Measured(old(lastCollect), old(lastRx), old(lastTx), now, rx, tx, m)
      ensures unchanged(`latencies, `ewmaLatency, `ewmaVariance)
    {
      if Cached(now) {
        return lastMetric.value;
      }
      ThroughputMeans(lastCollect, lastRx, lastTx, now, rx, tx);
      m := Refresh(now, rx, tx);
    }

    method Refresh(now: real, rx: nat, tx: nat) returns (m: Metric)
      requires PeakValid() && ClassifierValid()
      modifies `lastCollect, `lastMetric, `lastRx, `lastTx,
               `lastDL, `lastUL, `peakDL, `peakUL, `sinceDL, `sinceUL, `bulkCycles, `streamingCycles, `downloads
      ensures PeakValid() && ClassifierValid() && Processed(m)
      ensures lastCollect == Some(now) && lastMetric == Some(m) && lastRx == rx && lastTx == tx
      ensures (m.downloadMbps, m.uploadMbps) == Throughput(old(lastCollect), old(lastRx), old(lastTx), now, rx, tx)
    {
      var (dl, ul) := Throughput(lastCollect, lastRx, lastTx, now, rx, tx);
      lastCollect, lastRx, lastTx := Some(now), rx, tx;
      m := Process(dl, ul);
      lastMetric := Some(m);
    }

    predicate Cached(now: real)
      reads `lastCollect, `lastMetric
    {
      lastCollect.Some? && now - lastCollect.value < 2.0 && lastMetric.Some?
    }

    /** The new rates have entered both peaks and the history, and the flags are those the whole
        history of download rates calls for. */
    twostate predicate Processed(m: Metric)
      reads this
    {
      && downloads == old(downloads) + [m.downloadMbps]
      && lastDL == m.downloadMbps && lastUL == m.uploadMbps
      && peakDL == Max(old(peakDL), m.downloadMbps) && peakUL == Max(old(peakUL), m.uploadMbps)
      && sinceDL == old(sinceDL) + [m.downloadMbps] && sinceUL == old(sinceUL) + [m.uploadMbps]
      && (m.bulk <==> BulkActive(downloads)) && (m.streaming <==> StreamActive(downloads))
    }

    method Process(dl: real, ul: real) returns (m: Metric)
      requires PeakValid() && ClassifierValid() && dl >= 0.0 && ul >= 0.0
      modifies `lastDL, `lastUL, `peakDL, `peakUL, `sinceDL, `sinceUL, `bulkCycles, `streamingCycles, `downloads
      ensures PeakValid() && ClassifierValid()
      ensures m.downloadMbps == dl && m.uploadMbps == ul && Processed(m)
    {
      TrackPeaks(dl, ul);
      var bulk, streaming := Classify(dl);
      m := Metric(dl, ul, streaming, bulk);
    }

    method TrackPeaks(dl: real, ul: real)
      requires PeakValid() && dl >= 0.0 && ul >= 0.0
      modifies `lastDL, `lastUL, `peakDL, `peakUL, `sinceDL, `sinceUL
      ensures PeakValid() && lastDL == dl && lastUL == ul
      ensures peakDL == Max(old(peakDL), dl) && peakUL == Max(old(peakUL), ul)
      ensures sinceDL == old(sinceDL) + [dl] && sinceUL == old(sinceUL) + [ul]
    {
      lastDL, lastUL := dl, ul;
      if dl > peakDL {
        peakDL := dl;
      }
      if ul > peakUL {
        peakUL := ul;
      }
      sinceDL, sinceUL := sinceDL + [dl], sinceUL + [ul];
    }

    // Both counters take their step, clamped at zero.
    method StepCounters(dl: real)
      requires bulkCycles >= 0 && streamingCycles >= 0
      modifies `bulkCycles, `streamingCycles
      ensures bulkCycles == Reflect(old(bulkCycles), BulkStep(dl))
      ensures streamingCycles == Reflect(old(streamingCycles), StreamStep(dl))
    {
      if dl >= 25.0 {
        bulkCycles := bulkCycles + 1;
        if streamingCycles > 0 {
          streamingCycles := streamingCycles - 1;
        }
      } else if dl >= 1.5 && dl < 25.0 {
        streamingCycles := streamingCycles + 1;
        if bulkCycles > 0 {
          bulkCycles := bulkCycles - 1;
        }
      } else if dl < 0.5 {
        if streamingCycles > 0 {
          streamingCycles := streamingCycles - 1;
        }
        if bulkCycles > 0 {
          bulkCycles := bulkCycles - 1;
        }
      }
    }

    method Classify(dl: real) returns (bulk: bool, streaming: bool)
      requires ClassifierValid()
      modifies `bulkCycles, `streamingCycles, `downloads
      ensures ClassifierValid() && downloads == old(downloads) + [dl]
      ensures bulk <==> BulkActive(downloads)
      ensures streaming <==> StreamActive(downloads)
    {
      StepsSnoc(BulkStep, downloads, dl);
      StepsSnoc(StreamStep, downloads, dl);
      ReflectKeepsBestSuffix(bulkCycles, Steps(BulkStep, downloads), BulkStep(dl));
      ReflectKeepsBestSuffix(streamingCycles, Steps(StreamStep, downloads), StreamStep(dl));
      StepCounters(dl);
      downloads := downloads + [dl];
      BestSuffixReaches(bulkCycles, Steps(BulkStep, downloads), 2);
      BestSuffixReaches(streamingCycles, Steps(StreamStep, downloads), 3);
      bulk, streaming := false, false;
      if bulkCycles >= 2 {
        bulk, streaming := true, false;
      } else if streamingCycles >= 3 {
        bulk, streaming := false, true;
      }
    }
  }

  lemma FirstFilter(x: real)
    ensures Mean(First(x)) == x && Variance(First(x)) == 0.0
  {
    assert Moment(Nil) == 0.0 && Spread(Nil, x) == 0.0;
    assert Sq(x - x) == 0.0;
  }

  lemma NextSigns(mean: real, variance: real, x: real, alpha: real)
    requires Share(alpha) && variance >= 0.0
    ensures NextVariance(mean, variance, x, alpha) >= 0.0
    ensures mean > 0.0 && x >= 0.0 ==> NextMean(mean, x, alpha) > 0.0
  {
    var p := ProductNonnegative(alpha, Sq(x - mean));
    var _ := ProductNonnegative(1.0 - alpha, variance + p);
    if mean > 0.0 && x >= 0.0 {
      BlendForm(mean, x, alpha);
      var _ := ProductPositive(1.0 - alpha, mean);
      var _ := ProductNonnegative(alpha, x);
    }
  }
}
