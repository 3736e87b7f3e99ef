/** Exponentially weighted histories: each new sample takes a share `alpha` of the weight and
    scales the weight of everything before it by 1 - alpha. */
module WeightedHistory {
  import opened RealMath

  // The samples since a first one, newest last, with the share each took when it arrived.
  datatype History = First(x: real) | Then(before: History, x: real, alpha: real)

  datatype Terms = Nil | Snoc(before: Terms, weight: real, x: real)

  predicate Share(alpha: real) { 0.0 < alpha < 1.0 }

  predicate Shares(h: History) { h.First? || (Share(h.alpha) && Shares(h.before)) }

  // Each sample with the weight it has at the end of the history; the first one starts at 1.
  function Weigh(h: History): Terms {
    match h
    case First(x) => Snoc(Nil, 1.0, x)
    case Then(before, x, alpha) => Snoc(Scale(Weigh(before), 1.0 - alpha), alpha, x)
  }

  function Scale(ts: Terms, k: real): Terms {
    match ts
    case Nil => Nil
    case Snoc(before, w, x) => Snoc(Scale(before, k), k * w, x)
  }

  function Mass(ts: Terms): real {
    match ts case Nil => 0.0 case Snoc(before, w, _) => Mass(before) + w
  }

  function Moment(ts: Terms): real {
    match ts case Nil => 0.0 case Snoc(before, w, x) => Moment(before) + w * x
  }

  // Weighted sum of squared distances from c.
  function Spread(ts: Terms, c: real): real {
    match ts case Nil => 0.0 case Snoc(before, w, x) => Spread(before, c) + w * Sq(x - c)
  }

  predicate Positive(ts: Terms) { ts.Nil? || (ts.weight > 0.0 && Positive(ts.before)) }

  function Mean(h: History): real { Moment(Weigh(h)) }

  function Variance(h: History): real { Spread(Weigh(h), Mean(h)) }

  lemma {:induction false} ScaleMass(ts: Terms, k: real)
    ensures Mass(Scale(ts, k)) == k * Mass(ts)
  {
    match ts
    case Nil => ZeroProduct(k);
    case Snoc(before, w, x) =>
      ScaleMass(before, k);
      Distribute(k, Mass(before), w);
  }

  lemma {:induction false} ScaleMoment(ts: Terms, k: real)
    ensures Moment(Scale(ts, k)) == k * Moment(ts)
  {
    match ts
    case Nil => ZeroProduct(k);
    case Snoc(before, w, x) =>
      ScaleMoment(before, k);
      Associate(k, w, x);
      Distribute(k, Moment(before), w * x);
  }

  lemma {:induction false} ScaleSpread(ts: Terms, k: real, c: real)
    ensures Spread(Scale(ts, k), c) == k * Spread(ts, c)
  {
    match ts
    case Nil => ZeroProduct(k);
    case Snoc(before, w, x) =>
      ScaleSpread(before, k, c);
      Associate(k, w, Sq(x - c));
      Distribute(k, Spread(before, c), w * Sq(x - c));
  }

  lemma Associate(k: real, w: real, x: real)
    ensures (k * w) * x == k * (w * x)
  {}

  // Weighted sum of squares.
  function Squares(ts: Terms): real {
    match ts case Nil => 0.0 case Snoc(before, w, x) => Squares(before) + w * Sq(x)
  }

  // A spread from the three sums.
  function Centred(squares: real, moment: real, mass: real, c: real): real {
    squares - 2.0 * (c * moment) + Sq(c) * mass
  }

  lemma {:induction false} SpreadFromSums(ts: Terms, c: real)
    ensures Spread(ts, c) == Centred(Squares(ts), Moment(ts), Mass(ts), c)
  {
    match ts
    case Nil =>
      ZeroProduct(c);
      ZeroProduct(Sq(c));
    case Snoc(before, w, x) =>
      SpreadFromSums(before, c);
      CentredStep(Squares(before), Moment(before), Mass(before), w, x, c);
  }

  lemma CentredStep(squares: real, moment: real, mass: real, w: real, x: real, c: real)
    ensures Centred(squares, moment, mass, c) + w * Sq(x - c) ==
            Centred(squares + w * Sq(x), moment + w * x, mass + w, c)
  {
    assert Sq(x - c) == Sq(x) - 2.0 * (c * x) + Sq(c);
    assert w * Sq(x - c) == w * Sq(x) - 2.0 * (c * (w * x)) + Sq(c) * w;
    Distribute(c, moment, w * x);
    Distribute(Sq(c), mass, w);
  }

  // Moving the centre of a spread away from the mean, for terms of mass 1.
  lemma Shift(ts: Terms, c: real)
    requires Mass(ts) == 1.0
    ensures Spread(ts, c) == Spread(ts, Moment(ts)) + Sq(Moment(ts) - c)
  {
    SpreadFromSums(ts, c);
    SpreadFromSums(ts, Moment(ts));
    ShiftAlgebra(Squares(ts), Moment(ts), c);
  }

  lemma ShiftAlgebra(squares: real, m: real, c: real)
    ensures Centred(squares, m, 1.0, c) == Centred(squares, m, 1.0, m) + Sq(m - c)
  {}

  /** The weights of any history are positive and add up to 1. */
  lemma {:induction false} WeightsAreShares(h: History)
    requires Shares(h)
    ensures Mass(Weigh(h)) == 1.0 && Positive(Weigh(h))
  {
    match h
    case First(x) =>
      assert Mass(Nil) == 0.0;
    case Then(before, x, alpha) =>
      WeightsAreShares(before);
      ScaleMass(Weigh(before), 1.0 - alpha);
      ScalePositive(Weigh(before), 1.0 - alpha);
  }

  lemma {:induction false} SpreadNonnegative(ts: Terms, c: real)
    requires Positive(ts)
    ensures Spread(ts, c) >= 0.0
  {
    match ts
    case Nil =>
    case Snoc(before, w, x) =>
      SpreadNonnegative(before, c);
      var _ := ProductNonnegative(w, Sq(x - c));
  }

  lemma {:induction false} ScalePositive(ts: Terms, k: real)
    requires k > 0.0 && Positive(ts)
    ensures Positive(Scale(ts, k))
  {
    match ts
    case Nil =>
    case Snoc(before, w, x) =>
      ScalePositive(before, k);
      var _ := ProductPositive(k, w);
  }

  lemma MeanOfOne(x: real)
    ensures Mean(First(x)) == x
  {
    assert Moment(Nil) == 0.0;
    assert Mean(First(x)) == 0.0 + 1.0 * x;
  }

  lemma AppendMean(h: History, x: real, alpha: real)
    ensures Mean(Then(h, x, alpha)) == Mean(h) + alpha * (x - Mean(h))
  {
    ScaleMoment(Weigh(h), 1.0 - alpha);
    BlendForm(Mean(h), x, alpha);
  }

  lemma BlendForm(m: real, x: real, alpha: real)
    ensures (1.0 - alpha) * m + alpha * x == m + alpha * (x - m)
  {}

  function Blended(a: real, b: real, alpha: real): real { (1.0 - alpha) * a + alpha * b }

  function GrownVariance(v: real, diff: real, alpha: real): real { (1.0 - alpha) * (v + alpha * Sq(diff)) }

  lemma AppendSpread(h: History, x: real, alpha: real, c: real)
    ensures Spread(Weigh(Then(h, x, alpha)), c) == Blended(Spread(Weigh(h), c), Sq(x - c), alpha)
  {
    ScaleSpread(Weigh(h), 1.0 - alpha, c);
  }

  lemma SpreadAround(h: History, c: real)
    requires Shares(h)
    ensures Spread(Weigh(h), c) == Variance(h) + Sq(Mean(h) - c)
  {
    WeightsAreShares(h);
    Shift(Weigh(h), c);
  }

  lemma AppendVariance(h: History, x: real, alpha: real, m': real)
    requires Shares(h) && m' == Mean(h) + alpha * (x - Mean(h))
    ensures Spread(Weigh(Then(h, x, alpha)), m') == GrownVariance(Variance(h), x - Mean(h), alpha)
  {
    AppendSpread(h, x, alpha, m');
    SpreadAround(h, m');
    AppendAlgebra(Variance(h), Spread(Weigh(h), m'), alpha, Mean(h), x, m');
  }

  /** The incremental update gets the new weighted mean and variance from the old ones alone. */
  lemma Append(h: History, x: real, alpha: real)
    requires Shares(h)
    ensures Mean(Then(h, x, alpha)) == Mean(h) + alpha * (x - Mean(h))
    ensures Variance(Then(h, x, alpha)) == (1.0 - alpha) * (Variance(h) + alpha * Sq(x - Mean(h)))
  {
    AppendMean(h, x, alpha);
    AppendVariance(h, x, alpha, Mean(Then(h, x, alpha)));
  }

  lemma AppendAlgebra(v: real, moved: real, alpha: real, m: real, x: real, m': real)
    requires m' == m + alpha * (x - m) && moved == v + Sq(m - m')
    ensures Blended(moved, Sq(x - m'), alpha) == GrownVariance(v, x - m, alpha)
  {
    var d := x - m;
    BlendSteps(m, x, alpha);
    BlendedSquares(v, d, alpha);
  }

  lemma BlendSteps(m: real, x: real, alpha: real)
    ensures m - (m + alpha * (x - m)) == -(alpha * (x - m))
    ensures x - (m + alpha * (x - m)) == (1.0 - alpha) * (x - m)
  {}

  lemma BlendedSquares(v: real, d: real, alpha: real)
    ensures Blended(v + Sq(-(alpha * d)), Sq((1.0 - alpha) * d), alpha) == GrownVariance(v, d, alpha)
  {
    assert Sq(-(alpha * d)) == Sq(alpha) * Sq(d);
    assert Sq((1.0 - alpha) * d) == Sq(1.0 - alpha) * Sq(d);
    assert alpha * Sq((1.0 - alpha) * d) == (1.0 - alpha) * (alpha * (1.0 - alpha) * Sq(d));
  }

  // A weighted mean lies between the bounds of the samples.
  predicate Within(h: History, low: real, high: real) {
    low <= h.x <= high && (h.First? || Within(h.before, low, high))
  }

  lemma {:induction false} MeanWithin(h: History, low: real, high: real)
    requires Shares(h) && Within(h, low, high)
    ensures low <= Mean(h) <= high
  {
    match h
    case First(x) => MeanOfOne(x);
    case Then(before, x, alpha) =>
      MeanWithin(before, low, high);
      AppendMean(before, x, alpha);
      Blend(Mean(before), x, alpha, low, high);
  }

  lemma Blend(m: real, x: real, alpha: real, low: real, high: real)
    requires Share(alpha) && low <= m <= high && low <= x <= high
    ensures low <= m + alpha * (x - m) <= high
  {
    BlendAbove(m, x, alpha, low);
    BlendAbove(-m, -x, alpha, -high);
    assert alpha * (-x - -m) == -(alpha * (x - m));
  }

  lemma BlendAbove(m: real, x: real, alpha: real, low: real)
    requires Share(alpha) && low <= m && low <= x
    ensures low <= m + alpha * (x - m)
  {
    var p := ProductNonnegative(1.0 - alpha, m - low);
    var q := ProductNonnegative(alpha, x - low);
    assert m + alpha * (x - m) - low == p + q;
  }
}
