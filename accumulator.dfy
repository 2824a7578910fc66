/**
 * The multivariate sample accumulator of QuantLib's Math namespace: it collects
 * weighted vector samples and keeps their count, their total weight, the weighted
 * sum vector and the weighted matrix of second moments, from which it derives the
 * (unbiased, weighted) covariance matrix.
 *
 * QuantLib's Array and Matrix are value types, so the vectors are modelled as
 * sequences and a matrix as a sequence of rows.  Arithmetic is exact (`real`).
 */
module Accumulator {
  import opened Results

  // ---------------------------------------------------------------------------
  // Array and Matrix arithmetic used by the accumulator
  // ---------------------------------------------------------------------------

  function Zeros(n: nat): (r: seq<real>)
    ensures |r| == n && forall i | 0 <= i < n :: r[i] == 0.0
  {
    seq(n, _ => 0.0)
  }

  function ZeroMatrix(n: nat): (m: seq<seq<real>>)
    ensures IsSquare(m, n) && forall i, j | 0 <= i < n && 0 <= j < n :: m[i][j] == 0.0
  {
    seq(n, _ => Zeros(n))
  }

  /** `weight * value`, the Array scaled by a scalar. */
  function Scaled(w: real, v: seq<real>): (r: seq<real>)
    ensures |r| == |v| && forall i | 0 <= i < |v| :: r[i] == w * v[i]
  {
    seq(|v|, i requires 0 <= i < |v| => w * v[i])
  }

  /** Element-wise sum, the Array `+=`. */
  function Plus(a: seq<real>, b: seq<real>): (r: seq<real>)
    requires |a| == |b|
    ensures |r| == |a| && forall i | 0 <= i < |a| :: r[i] == a[i] + b[i]
  {
    seq(|a|, i requires 0 <= i < |a| => a[i] + b[i])
  }

  /** `outerProduct(a, b)`: the matrix whose (i, j) entry is a[i] * b[j]. */
  function OuterProduct(a: seq<real>, b: seq<real>): (m: seq<seq<real>>)
    ensures |m| == |a| && forall i | 0 <= i < |a| :: |m[i]| == |b|
    ensures forall i, j | 0 <= i < |a| && 0 <= j < |b| :: m[i][j] == a[i] * b[j]
  {
    seq(|a|, i requires 0 <= i < |a| => seq(|b|, j requires 0 <= j < |b| => a[i] * b[j]))
  }

  /** Element-wise sum of two n x n matrices, the Matrix `+=`. */
  function MatrixPlus(a: seq<seq<real>>, b: seq<seq<real>>, n: nat): (m: seq<seq<real>>)
    requires IsSquare(a, n) && IsSquare(b, n)
    ensures IsSquare(m, n)
    ensures forall i, j | 0 <= i < n && 0 <= j < n :: m[i][j] == a[i][j] + b[i][j]
  {
    seq(n, i requires 0 <= i < n => Plus(a[i], b[i]))
  }

  ghost predicate IsSquare(m: seq<seq<real>>, n: nat) {
    |m| == n && forall i | 0 <= i < n :: |m[i]| == n
  }

  ghost predicate Symmetric(m: seq<seq<real>>) {
    forall i, j | 0 <= i < |m| && 0 <= j < |m| :: j < |m[i]| && i < |m[j]| ==> m[i][j] == m[j][i]
  }

  // ---------------------------------------------------------------------------
  // The weighted totals of a history of samples
  // ---------------------------------------------------------------------------

  datatype Sample = Sample(value: seq<real>, weight: real)

  /** Coordinate i of a sample (0 outside its length, which Valid rules out). */
  function Coord(s: Sample, i: nat): real {
    if i < |s.value| then s.value[i] else 0.0
  }

  /** The totals below are defined on the last sample, the one `add` appends. */
  function WeightSum(h: seq<Sample>): real
    decreases |h|
  {
    if |h| == 0 then 0.0 else WeightSum(h[..|h| - 1]) + h[|h| - 1].weight
  }

  /** The sum over the history of weight * value[i]. */
  function SumAt(h: seq<Sample>, i: nat): real
    decreases |h|
  {
    if |h| == 0 then 0.0
    else SumAt(h[..|h| - 1], i) + h[|h| - 1].weight * Coord(h[|h| - 1], i)
  }

  /** The sum over the history of (weight * value[i]) * value[j]. */
  function QuadAt(h: seq<Sample>, i: nat, j: nat): real
    decreases |h|
  {
    if |h| == 0 then 0.0
    else QuadAt(h[..|h| - 1], i, j) + (h[|h| - 1].weight * Coord(h[|h| - 1], i)) * Coord(h[|h| - 1], j)
  }

  /** The sum over the history of weight * (value[i] - mi) * (value[j] - mj): the
      weighted second moment about the point (mi, mj). */
  function CentredQuadAt(h: seq<Sample>, i: nat, j: nat, mi: real, mj: real): real
    decreases |h|
  {
    if |h| == 0 then 0.0
    else CentredQuadAt(h[..|h| - 1], i, j, mi, mj)
         + h[|h| - 1].weight * (Coord(h[|h| - 1], i) - mi) * (Coord(h[|h| - 1], j) - mj)
  }

  lemma AppendTotals(h: seq<Sample>, s: Sample)
    ensures WeightSum(h + [s]) == WeightSum(h) + s.weight
    ensures forall i: nat :: SumAt(h + [s], i) == SumAt(h, i) + s.weight * Coord(s, i)
    ensures forall i: nat, j: nat :: QuadAt(h + [s], i, j) == QuadAt(h, i, j) + (s.weight * Coord(s, i)) * Coord(s, j)
  {
    assert (h + [s])[..|h|] == h;
  }

  /** The entries of `sum_ += weight*value` and `quadraticSum_ += outerProduct(weight*value, value)`. */
  lemma UpdatedEntries(sum0: seq<real>, quad0: seq<seq<real>>, value: seq<real>, weight: real)
    requires |value| == |sum0| && IsSquare(quad0, |sum0|)
    ensures var n := |sum0|;
            var wv := Scaled(weight, value);
            var sum1 := Plus(sum0, wv);
            var quad1 := MatrixPlus(quad0, OuterProduct(wv, value), n);
            && (forall i | 0 <= i < n :: sum1[i] == sum0[i] + weight * value[i])
            && (forall i, j | 0 <= i < n && 0 <= j < n :: quad1[i][j] == quad0[i][j] + weight * value[i] * value[j])
  {
  }

  /** The totals after accepting a sample are the old totals plus its contribution. */
  lemma AcceptedSampleTotals(h: seq<Sample>, value: seq<real>, weight: real,
                             sum0: seq<real>, quad0: seq<seq<real>>)
    requires |value| == |sum0| && IsSquare(quad0, |sum0|)
    requires forall i | 0 <= i < |sum0| :: sum0[i] == SumAt(h, i)
    requires forall i, j | 0 <= i < |sum0| && 0 <= j < |sum0| :: quad0[i][j] == QuadAt(h, i, j)
    ensures var n := |sum0|;
            var h1 := h + [Sample(value, weight)];
            var wv := Scaled(weight, value);
            var sum1 := Plus(sum0, wv);
            var quad1 := MatrixPlus(quad0, OuterProduct(wv, value), n);
            && WeightSum(h1) == WeightSum(h) + weight
            && (forall i | 0 <= i < n :: sum1[i] == SumAt(h1, i))
            && (forall i, j | 0 <= i < n && 0 <= j < n :: quad1[i][j] == QuadAt(h1, i, j))
  {
    var s := Sample(value, weight);
    AppendTotals(h, s);
    UpdatedEntries(sum0, quad0, value, weight);
    var n := |sum0|;
    var quad1 := MatrixPlus(quad0, OuterProduct(Scaled(weight, value), value), n);
    forall i, j | 0 <= i < n && 0 <= j < n
      ensures quad1[i][j] == QuadAt(h + [s], i, j)
    {
      assert Coord(s, i) == value[i] && Coord(s, j) == value[j];
    }
  }

  /** The second-moment totals are symmetric in the two coordinates. */
  lemma {:induction false} QuadAtSymmetric(h: seq<Sample>, i: nat, j: nat)
    ensures QuadAt(h, i, j) == QuadAt(h, j, i)
    decreases |h|
  {
    if |h| > 0 {
      QuadAtSymmetric(h[..|h| - 1], i, j);
      var s := h[|h| - 1];
      assert (s.weight * Coord(s, i)) * Coord(s, j) == (s.weight * Coord(s, j)) * Coord(s, i);
    }
  }

  /** Expanding the moment about (mi, mj) into the raw totals the accumulator keeps. */
  lemma {:induction false} CentredExpansion(h: seq<Sample>, i: nat, j: nat, mi: real, mj: real)
    ensures CentredQuadAt(h, i, j, mi, mj)
            == QuadAt(h, i, j) - mj * SumAt(h, i) - mi * SumAt(h, j) + mi * mj * WeightSum(h)
    decreases |h|
  {
    if |h| > 0 {
      var p := h[..|h| - 1];
      var s := h[|h| - 1];
      CentredExpansion(p, i, j, mi, mj);
      var w, a, b := s.weight, Coord(s, i), Coord(s, j);
      assert w * (a - mi) * (b - mj) == (w * a) * b - mj * (w * a) - mi * (w * b) + mi * mj * w;
    }
  }

  /** With non-negative weights, a weighted sum of squares is non-negative. */
  lemma {:induction false} CentredSquareNonNegative(h: seq<Sample>, i: nat, m: real)
    requires forall k | 0 <= k < |h| :: h[k].weight >= 0.0
    ensures CentredQuadAt(h, i, i, m, m) >= 0.0
    decreases |h|
  {
    if |h| > 0 {
      CentredSquareNonNegative(h[..|h| - 1], i, m);
      var s := h[|h| - 1];
      var d := Coord(s, i) - m;
      assert d * d >= 0.0;
      assert s.weight * d * d >= 0.0;
    }
  }

  /** One entry of (n / (n - 1)) * (1 / W) * (Q - (1 / W) * sum (x) sum). */
  function CovarianceEntry(number: nat, weight: real, qij: real, si: real, sj: real): real
    requires number > 1 && weight != 0.0
  {
    var inv := 1.0 / weight;
    var n := number as real;
    (n / (n - 1.0)) * inv * (qij - inv * (si * sj))
  }

  function CovarianceMatrix(quad: seq<seq<real>>, sum: seq<real>, weight: real, number: nat): (c: seq<seq<real>>)
    requires IsSquare(quad, |sum|) && Symmetric(quad)
    requires number > 1 && weight != 0.0
    ensures IsSquare(c, |sum|) && Symmetric(c)
    ensures forall i, j | 0 <= i < |sum| && 0 <= j < |sum| ::
              c[i][j] == CovarianceEntry(number, weight, quad[i][j], sum[i], sum[j])
  {
    var d := |sum|;
    var c := seq(d, i requires 0 <= i < d =>
               seq(d, j requires 0 <= j < d => CovarianceEntry(number, weight, quad[i][j], sum[i], sum[j])));
    forall i, j | 0 <= i < d && 0 <= j < d
      ensures c[i][j] == c[j][i]
    {
      assert sum[i] * sum[j] == sum[j] * sum[i];
    }
    c
  }

  // ---------------------------------------------------------------------------
  // The accumulator
  // ---------------------------------------------------------------------------

  datatype AddError = WrongSize | NegativeWeight
  datatype CovarianceError = InsufficientWeight | InsufficientSamples

  class MultivariateAccumulator {
    var size: nat
    var sampleNumber: nat
    var sampleWeight: real
    var sum: seq<real>
    var quadraticSum: seq<seq<real>>
    /** The samples accepted since the last reset. */
    ghost var samples: seq<Sample>

    /** Dimensions agree, and every field is the corresponding total of the samples. */
    ghost predicate Valid()
      reads this
    {
      && |sum| == size
      && IsSquare(quadraticSum, size)
      && (forall k | 0 <= k < |samples| :: |samples[k].value| == size && samples[k].weight >= 0.0)
      && sampleNumber == |samples|
      && sampleWeight == WeightSum(samples)
      && (forall i | 0 <= i < size :: sum[i] == SumAt(samples, i))
      && (forall i, j | 0 <= i < size && 0 <= j < size :: quadraticSum[i][j] == QuadAt(samples, i, j))
    }

    /** The default constructor leaves the dimension open (size 0). */
    constructor ()
      ensures Valid() && size == 0 && samples == []
      ensures sampleNumber == 0 && sampleWeight == 0.0 && sum == [] && quadraticSum == []
    {
      size := 0;
      new;
      Reset();
    }

    constructor Sized(n: nat)
      ensures Valid() && size == n && samples == []
      ensures sampleNumber == 0 && sampleWeight == 0.0
      ensures sum == Zeros(n) && quadraticSum == ZeroMatrix(n)
    {
      size := n;
      new;
      Reset();
    }

    /** Forgets every sample but keeps the dimension. */
    method Reset()
      modifies this
      ensures Valid() && size == old(size) && samples == []
      ensures sampleNumber == 0 && sampleWeight == 0.0
      ensures sum == Zeros(size) && quadraticSum == ZeroMatrix(size)
      ensures Symmetric(quadraticSum)
    {
      sampleNumber := 0;
      sampleWeight := 0.0;
      sum := Zeros(size);
      quadraticSum := ZeroMatrix(size);
      samples := [];
    }

    /** The effect of adding `value` with `weight`, error paths included.  A fresh
        accumulator (size 0) adopts the length of the value and resets before the
        weight is checked, so even a rejected sample fixes its dimension. */
    twostate predicate AddedSample(value: seq<real>, weight: real, new r: Outcome<AddError>)
      reads this
    {
      var adopts := old(size) == 0;
      if !adopts && |value| != old(size) then
        && r == Fail(WrongSize)
        && size == old(size) && samples == old(samples)
        && sampleNumber == old(sampleNumber) && sampleWeight == old(sampleWeight)
        && sum == old(sum) && quadraticSum == old(quadraticSum)
      else
        var baseSamples := if adopts then [] else old(samples);
        var baseNumber := if adopts then 0 else old(sampleNumber);
        var baseWeight := if adopts then 0.0 else old(sampleWeight);
        var baseSum := if adopts then Zeros(|value|) else old(sum);
        var baseQuad := if adopts then ZeroMatrix(|value|) else old(quadraticSum);
        && size == |value|
        && |baseSum| == size && IsSquare(baseQuad, size)
        && if weight < 0.0 then
             && r == Fail(NegativeWeight)
             && samples == baseSamples && sampleNumber == baseNumber
             && sampleWeight == baseWeight && sum == baseSum && quadraticSum == baseQuad
           else
             && r == Pass
             && samples == baseSamples + [Sample(value, weight)]
             && sampleNumber == baseNumber + 1
             && sampleWeight == baseWeight + weight
             && |sum| == size
             && (forall i | 0 <= i < size :: sum[i] == baseSum[i] + weight * value[i])
             && IsSquare(quadraticSum, size)
             && (forall i, j | 0 <= i < size && 0 <= j < size ::
                   quadraticSum[i][j] == baseQuad[i][j] + weight * value[i] * value[j])
    }

    /** `add(const Array&, double)`. */
    method Add(value: seq<real>, weight: real) returns (r: Outcome<AddError>)
      requires Valid()
      modifies this
      ensures Valid() && AddedSample(value, weight, r)
      ensures Symmetric(quadraticSum)
    {
      if size == 0 {
        size := |value|;
        Reset();
      } else if |value| != size {
        r := Fail(WrongSize);
        SymmetricWhenValid();
        return;
      }
      if weight < 0.0 {
        r := Fail(NegativeWeight);
        SymmetricWhenValid();
        return;
      }
      Accept(value, weight);
      r := Pass;
      SymmetricWhenValid();
    }

    /** The accepting part of `add`: the count, the weight sum, the sum vector and the
        quadratic-sum matrix take the sample's contribution. */
    method Accept(value: seq<real>, weight: real)
      requires Valid() && |value| == size && weight >= 0.0
      modifies this
      ensures Valid() && size == old(size)
      ensures samples == old(samples) + [Sample(value, weight)]
      ensures sampleNumber == old(sampleNumber) + 1 && sampleWeight == old(sampleWeight) + weight
      ensures |sum| == size && forall i | 0 <= i < size :: sum[i] == old(sum)[i] + weight * value[i]
      ensures IsSquare(quadraticSum, size)
      ensures forall i, j | 0 <= i < size && 0 <= j < size ::
                quadraticSum[i][j] == old(quadraticSum)[i][j] + weight * value[i] * value[j]
    {
      ghost var h, q0, s0 := samples, quadraticSum, sum;
      var weighedValue := Scaled(weight, value);
      UpdatedEntries(s0, q0, value, weight);
      AcceptedSampleTotals(h, value, weight, s0, q0);
      sampleNumber := sampleNumber + 1;
      sampleWeight := sampleWeight + weight;
      sum := Plus(sum, weighedValue);
      quadraticSum := MatrixPlus(quadraticSum, OuterProduct(weighedValue, value), size);
      samples := samples + [Sample(value, weight)];
    }

    /** `add(const std::vector<double>&, double)`: copies into an Array and adds that. */
    method AddVector(vec: seq<real>, wei: real) returns (r: Outcome<AddError>)
      requires Valid()
      modifies this
      ensures Valid() && AddedSample(vec, wei, r)
    {
      var arr := seq(|vec|, i requires 0 <= i < |vec| => vec[i]);
      assert arr == vec;
      r := Add(arr, wei);
    }

    lemma SymmetricWhenValid()
      requires Valid()
      ensures Symmetric(quadraticSum)
    {
      forall i, j | 0 <= i < size && 0 <= j < size
        ensures quadraticSum[i][j] == quadraticSum[j][i]
      {
        QuadAtSymmetric(samples, i, j);
      }
    }

    /** `covariance()`: (n / (n - 1)) * (1 / W) * (Q - (1 / W) * sum (x) sum), after
        checking that there is some weight and more than one sample. */
    function Covariance(): (r: Result<seq<seq<real>>, CovarianceError>)
      reads this
      requires Valid()
      ensures r.Failure? <==> sampleWeight <= 0.0 || sampleNumber <= 1
      ensures r.Failure? && sampleWeight <= 0.0 ==> r.error == InsufficientWeight
      ensures r.Failure? && sampleWeight > 0.0 ==> r.error == InsufficientSamples
      ensures r.Success? ==> IsSquare(r.value, size) && Symmetric(r.value)
    {
      if sampleWeight <= 0.0 then Failure(InsufficientWeight)
      else if sampleNumber <= 1 then Failure(InsufficientSamples)
      else
        SymmetricWhenValid();
        Success(CovarianceMatrix(quadraticSum, sum, sampleWeight, sampleNumber))
    }
  }

  /** The covariance the accumulator reports is the weighted sample covariance of
      the accepted samples about their weighted mean, with the n / (n - 1) correction. */
  lemma CovarianceIsWeightedSampleCovariance(acc: MultivariateAccumulator, i: nat, j: nat)
    requires acc.Valid() && acc.Covariance().Success?
    requires i < acc.size && j < acc.size
    ensures var w := acc.sampleWeight;
            var n := acc.sampleNumber as real;
            acc.Covariance().value[i][j]
              == n / (n - 1.0) * (CentredQuadAt(acc.samples, i, j, SumAt(acc.samples, i) / w, SumAt(acc.samples, j) / w) / w)
  {
    var h := acc.samples;
    var w := acc.sampleWeight;
    var si, sj := SumAt(h, i), SumAt(h, j);
    CentredExpansion(h, i, j, si / w, sj / w);
    EntryFromCentred(acc.sampleNumber, w, QuadAt(h, i, j), si, sj, CentredQuadAt(h, i, j, si / w, sj / w));
  }

  /** The raw-moment formula of one covariance entry equals the centred one. */
  lemma EntryFromCentred(number: nat, w: real, q: real, si: real, sj: real, cq: real)
    requires number > 1 && w != 0.0
    requires cq == q - (sj / w) * si - (si / w) * sj + (si / w) * (sj / w) * w
    ensures var n := number as real;
            CovarianceEntry(number, w, q, si, sj) == n / (n - 1.0) * (cq / w)
  {
    var mi, mj := si / w, sj / w;
    assert mi * w == si;
    assert mi * mj * w == mj * si;
    assert mi * sj == (si * sj) / w;
    assert cq == q - (1.0 / w) * (si * sj);
    assert (1.0 / w) * (q - (1.0 / w) * (si * sj)) == cq / w;
  }

  /** Every variance (diagonal entry of the covariance) is non-negative. */
  lemma CovarianceDiagonalNonNegative(acc: MultivariateAccumulator, i: nat)
    requires acc.Valid() && acc.Covariance().Success?
    requires i < acc.size
    ensures acc.Covariance().value[i][i] >= 0.0
  {
    var h := acc.samples;
    var w := acc.sampleWeight;
    var n := acc.sampleNumber as real;
    var m := SumAt(h, i) / w;
    CovarianceIsWeightedSampleCovariance(acc, i, i);
    CentredSquareNonNegative(h, i, m);
    assert CentredQuadAt(h, i, i, m, m) / w >= 0.0;
    assert n / (n - 1.0) > 0.0;
  }
}
