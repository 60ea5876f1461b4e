/**
 The crypto-agility score (backend/scanners/crypto_agility.py:78-172): a weighted mean that is rounded
 at three stages.  Numbers are exact; Python's `round` is any rounding with the laws stated here.
 */
module CryptoAgility {

  /** A dimension's raw score and its weight as given. */
  datatype Dimension = Dimension(raw: real, weight: real)

  /** Rounding to multiples of `1 / k`: monotone, and at most half a unit off. */
  ghost predicate Rounds(round: real -> real, k: real) {
    && k > 0.0
    && (forall x: real :: -1.0 <= 2.0 * k * (round(x) - x) <= 1.0 && (round(x) * k).Floor as real == round(x) * k)
    && (forall x: real, y: real | x <= y :: round(x) <= round(y))
  }

  /** `round` to two and to one decimals. */
  datatype Rounding = Rounding(two: real -> real, one: real -> real)

  ghost predicate Lawful(r: Rounding) {
    Rounds(r.two, 100.0) && Rounds(r.one, 10.0)
  }

  predicate InRange(ds: seq<Dimension>) {
    forall d | d in ds :: 0.0 <= d.raw <= 100.0
  }

  function Clamp(x: real): (r: real)
    ensures 0.0 <= r <= 100.0
  {
    if x < 0.0 then 0.0 else if x > 100.0 then 100.0 else x
  }

  function TotalWeight(ds: seq<Dimension>): real {
    if ds == [] then 0.0 else TotalWeight(ds[..|ds| - 1]) + ds[|ds| - 1].weight
  }

  function Normalizer(total: real): real {
    if total > 0.0 then 100.0 / total else 1.0
  }

  function Times(a: real, b: real): real { a * b }

  /** What a raw score contributes at a weight in percent. */
  function Contribution(raw: real, percent: real): real { Times(raw, percent) / 100.0 }

  /** The rounded contribution of one dimension. */
  function Points(r: Rounding, d: Dimension, norm: real): real {
    r.two(Contribution(d.raw, r.two(Times(d.weight, norm))))
  }

  /** The contribution without rounding. */
  function ExactPoints(d: Dimension, norm: real): real {
    Contribution(d.raw, Times(d.weight, norm))
  }

  function SumPoints(r: Rounding, ds: seq<Dimension>, norm: real): real {
    if ds == [] then 0.0 else SumPoints(r, ds[..|ds| - 1], norm) + Points(r, ds[|ds| - 1], norm)
  }

  /** The exact sum that the points approximate. */
  function ExactSum(ds: seq<Dimension>, norm: real): real {
    if ds == [] then 0.0 else ExactSum(ds[..|ds| - 1], norm) + ExactPoints(ds[|ds| - 1], norm)
  }

  function Score(r: Rounding, ds: seq<Dimension>): real {
    Clamp(r.one(SumPoints(r, ds, Normalizer(TotalWeight(ds)))))
  }

  function ExactMean(ds: seq<Dimension>): real {
    ExactSum(ds, Normalizer(TotalWeight(ds)))
  }

  /** The two loops of `calculate_crypto_agility`: weights first, then rounded contributions. */
  method CalculateCryptoAgility(r: Rounding, ds: seq<Dimension>) returns (score: real, tier: nat)
    ensures score == Score(r, ds) && tier == Tier(score)
  {
    var totalWeight := 0.0;
    for i := 0 to |ds|
      invariant totalWeight == TotalWeight(ds[..i])
    {
      assert ds[..i + 1][..i] == ds[..i];
      totalWeight := totalWeight + ds[i].weight;
    }
    assert ds[..|ds|] == ds;
    var normalizer := if totalWeight > 0.0 then 100.0 / totalWeight else 1.0;
    var overall := 0.0;
    for i := 0 to |ds|
      invariant overall == SumPoints(r, ds[..i], normalizer)
    {
      assert ds[..i + 1][..i] == ds[..i];
      var normW := r.two(Times(ds[i].weight, normalizer));
      var points := r.two(Times(ds[i].raw, normW) / 100.0);
      assert points == Points(r, ds[i], normalizer);
      overall := overall + points;
    }
    score := Clamp(r.one(overall));
    tier := Tier(score);
  }

  /** Maturity from RIGID (0) to OPTIMAL (4). */
  function Tier(score: real): nat {
    if score >= 90.0 then 4
    else if score >= 75.0 then 3
    else if score >= 50.0 then 2
    else if score >= 25.0 then 1
    else 0
  }

  // ----- Accuracy -----

  lemma TimesNonNegative(a: real, b: real)
    requires a >= 0.0 && b >= 0.0
    ensures Times(a, b) >= 0.0
  {
  }

  lemma TimesMonotone(a: real, x: real, y: real)
    requires a >= 0.0 && x <= y
    ensures Times(a, x) <= Times(a, y) && Times(x, a) <= Times(y, a)
  {
    TimesNonNegative(a, y - x);
    assert Times(a, y) - Times(a, x) == Times(a, y - x) && Times(x, a) == Times(a, x) && Times(y, a) == Times(a, y);
  }

  /** Moving the percentage by at most half a hundredth moves the contribution no more. */
  lemma ContributionError(raw: real, w: real, w': real)
    requires 0.0 <= raw <= 100.0 && -0.005 <= w' - w <= 0.005
    ensures -0.005 <= Contribution(raw, w') - Contribution(raw, w) <= 0.005
  {
    var e := w' - w;
    assert Times(raw, w') == Times(raw, w) + Times(raw, e);
    TimesMonotone(raw, -0.005, e);
    TimesMonotone(raw, e, 0.005);
    assert Times(raw, 0.005) == raw * 0.005 && Times(raw, -0.005) == -(raw * 0.005);
  }

  lemma RoundError(round: real -> real, x: real)
    requires Rounds(round, 100.0)
    ensures -0.005 <= round(x) - x <= 0.005
  {
    assert -1.0 <= 2.0 * 100.0 * (round(x) - x) <= 1.0;
  }

  /** Two roundings cost a dimension at most one hundredth, whatever the sign of its weight. */
  lemma PointsError(r: Rounding, d: Dimension, norm: real)
    requires Lawful(r) && 0.0 <= d.raw <= 100.0
    ensures -0.01 <= Points(r, d, norm) - ExactPoints(d, norm) <= 0.01
  {
    var w := Times(d.weight, norm);
    RoundError(r.two, w);
    RoundError(r.two, Contribution(d.raw, r.two(w)));
    ContributionError(d.raw, w, r.two(w));
  }

  lemma {:induction false} SumError(r: Rounding, ds: seq<Dimension>, norm: real)
    requires Lawful(r) && InRange(ds)
    ensures -0.01 * |ds| as real <= SumPoints(r, ds, norm) - ExactSum(ds, norm) <= 0.01 * |ds| as real
  {
    if ds != [] {
      var n := |ds| - 1;
      SumError(r, ds[..n], norm);
      PointsError(r, ds[n], norm);
      assert |ds| as real == n as real + 1.0;
    }
  }

  /**
   The reported score of ten dimensions lies in [0, 100] and within 0.15 of the exact weighted sum
   clamped to that range, for any weights at all.
   */
  lemma ScoreAccuracy(r: Rounding, ds: seq<Dimension>)
    requires Lawful(r) && InRange(ds) && |ds| == 10
    ensures 0.0 <= Score(r, ds) <= 100.0
    ensures -0.15 <= Score(r, ds) - Clamp(ExactMean(ds)) <= 0.15
  {
    var norm := Normalizer(TotalWeight(ds));
    var sum := SumPoints(r, ds, norm);
    SumError(r, ds, norm);
    assert -1.0 <= 2.0 * 10.0 * (r.one(sum) - sum) <= 1.0;
  }

  predicate NonNegativeWeights(ds: seq<Dimension>) {
    forall d | d in ds :: d.weight >= 0.0
  }

  lemma ExactPointsBounds(d: Dimension, norm: real)
    requires 0.0 <= d.raw <= 100.0 && d.weight >= 0.0 && norm >= 0.0
    ensures 0.0 <= ExactPoints(d, norm) <= Times(d.weight, norm)
  {
    var w := Times(d.weight, norm);
    TimesNonNegative(d.weight, norm);
    TimesNonNegative(d.raw, w);
    TimesMonotone(w, d.raw, 100.0);
    assert Times(100.0, w) == 100.0 * w;
  }

  lemma {:induction false} SumBounds(ds: seq<Dimension>, norm: real)
    requires InRange(ds) && NonNegativeWeights(ds) && norm >= 0.0
    ensures 0.0 <= ExactSum(ds, norm) <= Times(TotalWeight(ds), norm)
  {
    if ds == [] {
      assert Times(0.0, norm) == 0.0;
    } else {
      var n := |ds| - 1;
      assert ds[n] in ds;
      SumBounds(ds[..n], norm);
      ExactPointsBounds(ds[n], norm);
      assert Times(TotalWeight(ds[..n]) + ds[n].weight, norm)
          == Times(TotalWeight(ds[..n]), norm) + Times(ds[n].weight, norm);
    }
  }

  /** The sum of raw scores times weights. */
  function WeightedSum(ds: seq<Dimension>): real {
    if ds == [] then 0.0 else WeightedSum(ds[..|ds| - 1]) + Times(ds[|ds| - 1].raw, ds[|ds| - 1].weight)
  }

  lemma {:induction false} ExactSumScales(ds: seq<Dimension>, norm: real)
    ensures 100.0 * ExactSum(ds, norm) == Times(WeightedSum(ds), norm)
  {
    if ds == [] {
      assert Times(0.0, norm) == 0.0;
    } else {
      var n := |ds| - 1;
      ExactSumScales(ds[..n], norm);
      var before, more := WeightedSum(ds[..n]), Times(ds[n].raw, ds[n].weight);
      assert Times(before + more, norm) == Times(before, norm) + Times(more, norm);
      assert Times(more, norm) == Times(ds[n].raw, Times(ds[n].weight, norm));
    }
  }

  /** The exact value is the weighted mean of the raw scores, for any weights with a positive total. */
  lemma ExactIsWeightedMean(ds: seq<Dimension>)
    requires TotalWeight(ds) > 0.0
    ensures ExactMean(ds) == WeightedSum(ds) / TotalWeight(ds)
  {
    var total, sum := TotalWeight(ds), WeightedSum(ds);
    ExactSumScales(ds, 100.0 / total);
    assert Times(sum, 100.0 / total) == 100.0 * (sum / total);
  }

  /** With weights that are not negative and not all zero the exact value is a true mean, so no clamping is felt. */
  lemma MeanInRange(r: Rounding, ds: seq<Dimension>)
    requires Lawful(r) && InRange(ds) && |ds| == 10 && NonNegativeWeights(ds) && TotalWeight(ds) > 0.0
    ensures 0.0 <= ExactMean(ds) <= 100.0
    ensures -0.15 <= Score(r, ds) - ExactMean(ds) <= 0.15
  {
    var total := TotalWeight(ds);
    SumBounds(ds, 100.0 / total);
    assert Times(total, 100.0 / total) == 100.0;
    ScoreAccuracy(r, ds);
  }

  // ----- Monotonicity -----

  lemma RoundNonNegative(round: real -> real, x: real)
    requires Rounds(round, 100.0) && x >= 0.0
    ensures round(x) >= 0.0
  {
    assert -1.0 <= 2.0 * 100.0 * (round(0.0) - 0.0) <= 1.0;
    assert (round(0.0) * 100.0).Floor as real == round(0.0) * 100.0;
    assert round(0.0) == 0.0;
    assert round(0.0) <= round(x);
  }

  /** Same weights, and no raw score lower. */
  predicate Raised(ds: seq<Dimension>, ds': seq<Dimension>) {
    |ds| == |ds'| && forall i | 0 <= i < |ds| :: ds[i].weight == ds'[i].weight && ds[i].raw <= ds'[i].raw
  }

  lemma {:induction false} RaisedTotal(ds: seq<Dimension>, ds': seq<Dimension>)
    requires Raised(ds, ds')
    ensures TotalWeight(ds) == TotalWeight(ds')
  {
    if ds != [] {
      RaisedTotal(ds[..|ds| - 1], ds'[..|ds| - 1]);
    }
  }

  lemma PointsMonotone(r: Rounding, d: Dimension, d': Dimension, norm: real)
    requires Lawful(r) && d.weight == d'.weight >= 0.0 && d.raw <= d'.raw && norm >= 0.0
    ensures Points(r, d, norm) <= Points(r, d', norm)
  {
    var w := Times(d.weight, norm);
    TimesNonNegative(d.weight, norm);
    RoundNonNegative(r.two, w);
    TimesMonotone(r.two(w), d.raw, d'.raw);
    assert Contribution(d.raw, r.two(w)) <= Contribution(d'.raw, r.two(w));
  }

  lemma {:induction false} SumMonotone(r: Rounding, ds: seq<Dimension>, ds': seq<Dimension>, norm: real)
    requires Lawful(r) && Raised(ds, ds') && NonNegativeWeights(ds) && norm >= 0.0
    ensures SumPoints(r, ds, norm) <= SumPoints(r, ds', norm)
  {
    if ds != [] {
      var n := |ds| - 1;
      assert ds[n] in ds;
      SumMonotone(r, ds[..n], ds'[..n], norm);
      PointsMonotone(r, ds[n], ds'[n], norm);
    }
  }

  lemma {:induction false} TotalNonNegative(ds: seq<Dimension>)
    requires NonNegativeWeights(ds)
    ensures TotalWeight(ds) >= 0.0
  {
    if ds != [] {
      assert ds[|ds| - 1] in ds;
      TotalNonNegative(ds[..|ds| - 1]);
    }
  }

  /** Raising raw scores never lowers the reported score or its maturity tier, despite all rounding. */
  lemma ScoreMonotone(r: Rounding, ds: seq<Dimension>, ds': seq<Dimension>)
    requires Lawful(r) && Raised(ds, ds') && NonNegativeWeights(ds)
    ensures Score(r, ds) <= Score(r, ds') && Tier(Score(r, ds)) <= Tier(Score(r, ds'))
  {
    RaisedTotal(ds, ds');
    TotalNonNegative(ds);
    var total := TotalWeight(ds);
    var norm := Normalizer(total);
    assert norm >= 0.0;
    SumMonotone(r, ds, ds', norm);
  }

  /** The bands of maturity: 25, 50, 75 and 90 are where the next one begins. */
  lemma TierBands(score: real)
    ensures Tier(score) <= 4
    ensures Tier(score) >= 1 <==> score >= 25.0
    ensures Tier(score) >= 2 <==> score >= 50.0
    ensures Tier(score) >= 3 <==> score >= 75.0
    ensures Tier(score) >= 4 <==> score >= 90.0
  {
  }

  /** With weights that do not sum to anything positive they are taken as percentages as they are. */
  lemma ExactWithoutTotal(ds: seq<Dimension>)
    requires TotalWeight(ds) <= 0.0
    ensures 100.0 * ExactMean(ds) == WeightedSum(ds)
  {
    ExactSumScales(ds, 1.0);
    assert Times(WeightedSum(ds), 1.0) == WeightedSum(ds);
  }
}
