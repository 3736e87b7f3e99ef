/** ComputeStateDistance and the nearest-signature scan of go-agent/skillstore/store.go. */
module StateDistance {
  import opened Wrappers
  import opened RealMath

  datatype Signature = Signature(ramPct: real, latencyMs: real, cpuPct: real, tempC: real,
                                 wanOffline: bool, wifiDown: bool)

  datatype SigRow = SigRow(name: string, sig: Signature, sampleCount: int)

  // math.MaxFloat64
  const MAX_FLOAT: real := 179769313486231570814527423731704356798070567525844996598917476803157260780028538760589558632766878171540458953514382464234321326889464182768467546703537516986049910576551282076245490090389328944075868508455133942304583236903222948165808559332123347764797926204144723168738177180919299881250404026184124858368.0

  // Each feature difference over its scale, squared and weighted; a differing flag counts as 1.
  function DistanceSquared(a: Signature, b: Signature): real {
    var dRam := (a.ramPct - b.ramPct) / 10.0;
    var dLatency := (a.latencyMs - b.latencyMs) / 50.0;
    var dCpu := (a.cpuPct - b.cpuPct) / 15.0;
    var dTemp := (a.tempC - b.tempC) / 10.0;
    var dWan := if a.wanOffline != b.wanOffline then 1.0 else 0.0;
    var dWifi := if a.wifiDown != b.wifiDown then 1.0 else 0.0;
    1.5 * Sq(dRam) + 1.2 * Sq(dLatency) + 0.8 * Sq(dCpu) + 0.6 * Sq(dTemp) + 2.0 * Sq(dWan) + 1.8 * Sq(dWifi)
  }

  function Distance(root: real -> real, a: Signature, b: Signature): real {
    root(DistanceSquared(a, b))
  }

  function ComputeStateDistance(root: real -> real, a: Option<Signature>, b: Option<Signature>): real {
    if a.None? || b.None? then MAX_FLOAT else Distance(root, a.value, b.value)
  }

  // ---------------------------------------------------------------------------------------------
  // Cauchy-Schwarz for weighted coordinates, by induction on the coordinates.

  datatype Coords = End | Coord(w: real, x: real, y: real, rest: Coords)

  function XX(c: Coords): real { match c case End => 0.0 case Coord(w, x, y, rest) => w * Sq(x) + XX(rest) }
  function YY(c: Coords): real { match c case End => 0.0 case Coord(w, x, y, rest) => w * Sq(y) + YY(rest) }
  function XY(c: Coords): real { match c case End => 0.0 case Coord(w, x, y, rest) => w * (x * y) + XY(rest) }

  // The squared length of x + y.
  function Sum(c: Coords): real { match c case End => 0.0 case Coord(w, x, y, rest) => w * Sq(x + y) + Sum(rest) }

  predicate Weighted(c: Coords) { c.End? || (c.w >= 0.0 && Weighted(c.rest)) }

  // The squared length of s*x - t*y, given those of x and y and their inner product m.
  function Form(a: real, b: real, m: real, s: real, t: real): real {
    Sq(s) * a - 2.0 * (s * t) * m + Sq(t) * b
  }

  lemma OneCoord(w: real, x: real, y: real, s: real, t: real)
    requires w >= 0.0
    ensures Sq(s) * (w * Sq(x)) - 2.0 * (s * t) * (w * (x * y)) + Sq(t) * (w * Sq(y)) >= 0.0
  {
    var z := Sq(s * x - t * y);
    assert z == Sq(s) * Sq(x) - 2.0 * (s * t) * (x * y) + Sq(t) * Sq(y);
    var p := w * z;
    assert p >= 0.0;
    assert p == Sq(s) * (w * Sq(x)) - 2.0 * (s * t) * (w * (x * y)) + Sq(t) * (w * Sq(y));
  }

  lemma {:induction false} Combination(c: Coords, s: real, t: real)
    requires Weighted(c)
    ensures Form(XX(c), YY(c), XY(c), s, t) >= 0.0
  {
    match c
    case End =>
      ZeroProduct(Sq(s));
      ZeroProduct(2.0 * (s * t));
      ZeroProduct(Sq(t));
    case Coord(w, x, y, rest) =>
      Combination(rest, s, t);
      OneCoord(w, x, y, s, t);
      Distribute(Sq(s), w * Sq(x), XX(rest));
      Distribute(2.0 * (s * t), w * (x * y), XY(rest));
      Distribute(Sq(t), w * Sq(y), YY(rest));
  }

  lemma {:induction false} SumExpands(c: Coords)
    ensures Sum(c) == XX(c) + 2.0 * XY(c) + YY(c)
  {
    match c
    case End =>
    case Coord(w, x, y, rest) =>
      SumExpands(rest);
      assert w * Sq(x + y) == w * Sq(x) + 2.0 * (w * (x * y)) + w * Sq(y);
  }

  lemma CauchySchwarz(c: Coords)
    requires Weighted(c)
    ensures XX(c) >= 0.0 && YY(c) >= 0.0 && Sq(XY(c)) <= XX(c) * YY(c)
  {
    forall s, t
      ensures Form(XX(c), YY(c), XY(c), s, t) >= 0.0
    {
      Combination(c, s, t);
    }
    Discriminant(XX(c), YY(c), XY(c));
  }

  lemma Discriminant(a: real, b: real, m: real)
    requires forall s, t :: Form(a, b, m, s, t) >= 0.0
    ensures a >= 0.0 && b >= 0.0 && Sq(m) <= a * b
  {
    assert Form(a, b, m, 1.0, 0.0) == a;
    assert Form(a, b, m, 0.0, 1.0) == b;
    if b > 0.0 {
      assert b * (a * b - Sq(m)) == Form(a, b, m, b, m);
      FactorNonnegative(b, a * b - Sq(m));
    } else {
      var t := if m == 0.0 then 0.0 else (a + 1.0) / (2.0 * m);
      assert Form(a, b, m, 1.0, t) == a - 2.0 * t * m + Sq(t) * b;
      ZeroProduct(Sq(t));
      ZeroProduct(a);
      Cancel(a, t, m);
      SqZero(m);
    }
  }

  lemma Cancel(a: real, t: real, m: real)
    requires m != 0.0 ==> t == (a + 1.0) / (2.0 * m)
    ensures m != 0.0 ==> 2.0 * t * m == a + 1.0
  {}

  // Lengths p, q, r of x, y, x + y.
  lemma Minkowski(c: Coords, p: real, q: real, r: real)
    requires Weighted(c) && p >= 0.0 && q >= 0.0 && r >= 0.0
    requires Sq(p) == XX(c) && Sq(q) == YY(c) && Sq(r) == Sum(c)
    ensures r <= p + q
  {
    CauchySchwarz(c);
    SumExpands(c);
    Lengths(p, q, r, XY(c));
  }

  lemma Lengths(p: real, q: real, r: real, inner: real)
    requires p >= 0.0 && q >= 0.0
    requires Sq(inner) <= Sq(p) * Sq(q) && Sq(r) == Sq(p) + 2.0 * inner + Sq(q)
    ensures r <= p + q
  {
    var pq := ProductNonnegative(p, q);
    SquareOfProduct(p, q);
    SquareOrder(inner, pq);
    SquareOfSum(p, q);
    SquareOrder(r, p + q);
  }

  lemma SquareOfProduct(p: real, q: real)
    ensures Sq(p * q) == Sq(p) * Sq(q)
  {}

  lemma SquareOfSum(p: real, q: real)
    ensures Sq(p + q) == Sq(p) + 2.0 * (p * q) + Sq(q)
  {}

  // ---------------------------------------------------------------------------------------------
  // The distance is a metric.

  function Bit(b: bool): real { if b then 1.0 else 0.0 }

  lemma Unfold(w: real, x: real, y: real, rest: Coords)
    ensures Weighted(Coord(w, x, y, rest)) <==> w >= 0.0 && Weighted(rest)
    ensures XX(Coord(w, x, y, rest)) == w * Sq(x) + XX(rest)
    ensures YY(Coord(w, x, y, rest)) == w * Sq(y) + YY(rest)
    ensures Sum(Coord(w, x, y, rest)) == w * Sq(x + y) + Sum(rest)
  {}

  function Six(x1: real, x2: real, x3: real, x4: real, x5: real, x6: real,
               y1: real, y2: real, y3: real, y4: real, y5: real, y6: real): (c: Coords)
    ensures Weighted(c)
    ensures XX(c) == 1.5 * Sq(x1) + 1.2 * Sq(x2) + 0.8 * Sq(x3) + 0.6 * Sq(x4) + 2.0 * Sq(x5) + 1.8 * Sq(x6)
    ensures YY(c) == 1.5 * Sq(y1) + 1.2 * Sq(y2) + 0.8 * Sq(y3) + 0.6 * Sq(y4) + 2.0 * Sq(y5) + 1.8 * Sq(y6)
    ensures Sum(c) == 1.5 * Sq(x1 + y1) + 1.2 * Sq(x2 + y2) + 0.8 * Sq(x3 + y3)
                      + 0.6 * Sq(x4 + y4) + 2.0 * Sq(x5 + y5) + 1.8 * Sq(x6 + y6)
  {
    var c6 := Coord(1.8, x6, y6, End);
    var c5 := Coord(2.0, x5, y5, c6);
    var c4 := Coord(0.6, x4, y4, c5);
    var c3 := Coord(0.8, x3, y3, c4);
    var c2 := Coord(1.2, x2, y2, c3);
    Unfold(1.8, x6, y6, End);
    Unfold(2.0, x5, y5, c6);
    Unfold(0.6, x4, y4, c5);
    Unfold(0.8, x3, y3, c4);
    Unfold(1.2, x2, y2, c3);
    Unfold(1.5, x1, y1, c2);
    Coord(1.5, x1, y1, c2)
  }

  // x runs from a to b, y from b to c.
  function Steps(a: Signature, b: Signature, c: Signature): Coords {
    Six((a.ramPct - b.ramPct) / 10.0, (a.latencyMs - b.latencyMs) / 50.0, (a.cpuPct - b.cpuPct) / 15.0,
        (a.tempC - b.tempC) / 10.0, Bit(a.wanOffline) - Bit(b.wanOffline), Bit(a.wifiDown) - Bit(b.wifiDown),
        (b.ramPct - c.ramPct) / 10.0, (b.latencyMs - c.latencyMs) / 50.0, (b.cpuPct - c.cpuPct) / 15.0,
        (b.tempC - c.tempC) / 10.0, Bit(b.wanOffline) - Bit(c.wanOffline), Bit(b.wifiDown) - Bit(c.wifiDown))
  }

  lemma StepsAreDistances(a: Signature, b: Signature, c: Signature)
    ensures Weighted(Steps(a, b, c))
    ensures XX(Steps(a, b, c)) == DistanceSquared(a, b)
    ensures YY(Steps(a, b, c)) == DistanceSquared(b, c)
    ensures Sum(Steps(a, b, c)) == DistanceSquared(a, c)
  {
  }

  /** Over the six features (flags included) the distance is symmetric, zero exactly between equal
      signatures, and obeys the triangle inequality. */
  lemma DistanceIsMetric(root: real -> real, a: Signature, b: Signature, c: Signature)
    requires IsSqrt(root)
    ensures Distance(root, a, b) >= 0.0
    ensures Distance(root, a, b) == Distance(root, b, a)
    ensures Distance(root, a, b) == 0.0 <==> a == b
    ensures Distance(root, a, c) <= Distance(root, a, b) + Distance(root, b, c)
  {
    Nonnegative(a, b);
    Nonnegative(b, c);
    Nonnegative(a, c);
    Symmetric(a, b);
    var p, q, r := Distance(root, a, b), Distance(root, b, c), Distance(root, a, c);
    StepsAreDistances(a, b, c);
    Minkowski(Steps(a, b, c), p, q, r);
    SqZero(p);
  }

  /** Signatures that differ in one feature only: the distance is that difference in units of 10% RAM, 50 ms,
      15% CPU or 10 degrees, or 1 for a flag, times the root of the weight. */
  lemma OneFeatureApart(root: real -> real, a: Signature, b: Signature)
    requires IsSqrt(root)
    ensures b == a.(ramPct := b.ramPct) ==> Sq(Distance(root, a, b)) == 1.5 * Sq((a.ramPct - b.ramPct) / 10.0)
    ensures b == a.(latencyMs := b.latencyMs) ==> Sq(Distance(root, a, b)) == 1.2 * Sq((a.latencyMs - b.latencyMs) / 50.0)
    ensures b == a.(cpuPct := b.cpuPct) ==> Sq(Distance(root, a, b)) == 0.8 * Sq((a.cpuPct - b.cpuPct) / 15.0)
    ensures b == a.(tempC := b.tempC) ==> Sq(Distance(root, a, b)) == 0.6 * Sq((a.tempC - b.tempC) / 10.0)
    ensures b == a.(wanOffline := !a.wanOffline) ==> Sq(Distance(root, a, b)) == 2.0
    ensures b == a.(wifiDown := !a.wifiDown) ==> Sq(Distance(root, a, b)) == 1.8
  {
    Nonnegative(a, b);
    SqZero(0.0);
    assert Sq(1.0) == 1.0;
  }

  lemma Nonnegative(a: Signature, b: Signature)
    ensures DistanceSquared(a, b) >= 0.0
    ensures DistanceSquared(a, b) == 0.0 <==> a == b
  {
    SqZero((a.ramPct - b.ramPct) / 10.0);
    SqZero((a.latencyMs - b.latencyMs) / 50.0);
    SqZero((a.cpuPct - b.cpuPct) / 15.0);
    SqZero((a.tempC - b.tempC) / 10.0);
  }

  lemma Symmetric(a: Signature, b: Signature)
    ensures DistanceSquared(a, b) == DistanceSquared(b, a)
  {
    NegatedSquare((a.ramPct - b.ramPct) / 10.0, (b.ramPct - a.ramPct) / 10.0);
    NegatedSquare((a.latencyMs - b.latencyMs) / 50.0, (b.latencyMs - a.latencyMs) / 50.0);
    NegatedSquare((a.cpuPct - b.cpuPct) / 15.0, (b.cpuPct - a.cpuPct) / 15.0);
    NegatedSquare((a.tempC - b.tempC) / 10.0, (b.tempC - a.tempC) / 10.0);
  }

  lemma NegatedSquare(x: real, y: real)
    requires x == -y
    ensures Sq(x) == Sq(y)
  {}

  // ---------------------------------------------------------------------------------------------
  // The scan.

  ghost predicate IsNearest(root: real -> real, rows: seq<SigRow>, sig: Signature, d: real) {
    && (forall i :: 0 <= i < |rows| ==> d <= Distance(root, sig, rows[i].sig))
    && (exists i :: 0 <= i < |rows| && d == Distance(root, sig, rows[i].sig))
  }

  // The first row at the least distance.
  ghost predicate IsFirstNearest(root: real -> real, rows: seq<SigRow>, sig: Signature, k: nat) {
    && k < |rows|
    && (forall i :: 0 <= i < |rows| ==> Distance(root, sig, rows[k].sig) <= Distance(root, sig, rows[i].sig))
    && (forall i :: 0 <= i < k ==> Distance(root, sig, rows[k].sig) < Distance(root, sig, rows[i].sig))
  }

  ghost predicate Within(root: real -> real, rows: seq<SigRow>, sig: Signature, threshold: real) {
    exists i :: 0 <= i < |rows| && Distance(root, sig, rows[i].sig) <= threshold
  }

  /** findNearestStateLocked: the scan keeps the first strict improvement on MaxFloat64.  It succeeds
      exactly when some row lies within the threshold (rows being named and the threshold finite), and
      then answers with the first row at the minimum over all rows. */
  method FindNearestState(root: real -> real, rows: seq<SigRow>, sig: Option<Signature>, threshold: real)
    returns (name: string, dist: real, ok: bool)
    ensures sig.None? ==> !ok && name == "" && dist == MAX_FLOAT
    ensures ok ==> sig.Some? && name != "" && dist <= threshold && dist < MAX_FLOAT
    ensures ok ==> exists k: nat :: IsFirstNearest(root, rows, sig.value, k) && name == rows[k].name &&
                                    dist == Distance(root, sig.value, rows[k].sig)
    ensures !ok ==> name == ""
    ensures sig.Some? && threshold < MAX_FLOAT && (forall i :: 0 <= i < |rows| ==> rows[i].name != "") ==>
      (ok <==> Within(root, rows, sig.value, threshold))
    ensures sig.Some? && Within(root, rows, sig.value, MAX_FLOAT) ==> IsNearest(root, rows, sig.value, dist)
  {
    if sig.None? {
      return "", MAX_FLOAT, false;
    }
    var nearest, best := "", MAX_FLOAT;
    ghost var k: int := -1;
    for i := 0 to |rows|
      invariant -1 <= k < i
      invariant best <= MAX_FLOAT
      invariant forall j :: 0 <= j < i ==> best <= Distance(root, sig.value, rows[j].sig)
      invariant k == -1 ==> nearest == "" && best == MAX_FLOAT
      invariant k >= 0 ==> nearest == rows[k].name && best == Distance(root, sig.value, rows[k].sig) && best < MAX_FLOAT
      invariant k >= 0 ==> forall j :: 0 <= j < k ==> best < Distance(root, sig.value, rows[j].sig)
    {
      var d := ComputeStateDistance(root, sig, Some(rows[i].sig));
      if d < best {
        best, nearest, k := d, rows[i].name, i;
      }
    }
    if nearest != "" && best <= threshold {
      assert IsFirstNearest(root, rows, sig.value, k);
      return nearest, best, true;
    }
    return "", best, false;
  }

  /** The least distance moves no faster than the query: it is 1-Lipschitz in the signature. */
  lemma NearestIsLipschitz(root: real -> real, rows: seq<SigRow>, a: Signature, b: Signature, da: real, db: real)
    requires IsSqrt(root) && IsNearest(root, rows, a, da) && IsNearest(root, rows, b, db)
    ensures da - db <= Distance(root, a, b) && db - da <= Distance(root, a, b)
  {
    var i :| 0 <= i < |rows| && da == Distance(root, a, rows[i].sig);
    var j :| 0 <= j < |rows| && db == Distance(root, b, rows[j].sig);
    DistanceIsMetric(root, a, b, rows[j].sig);
    DistanceIsMetric(root, b, a, rows[i].sig);
    DistanceIsMetric(root, a, b, rows[i].sig);
  }
}
