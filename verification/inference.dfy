/** Rule firing, aggregation and defuzzification of the canonical reference model. */
module Inference {
  import opened FixedPoint
  import opened Membership

  /** Cell (i, j) of a row-major 3x3 grid: T-set i, dT-set j. */
  function Cell(w: seq<int>, i: int, j: int): int
    requires |w| == 9 && 0 <= i < 3 && 0 <= j < 3
  {
    w[3 * i + j]
  }

  predicate IsCorner(k: int) { k == 0 || k == 2 || k == 6 || k == 8 }

  /** The 3x3 min-t-norm grid: cell (i, j) fires with the smaller of the T degree i and
      the dT degree j, so it never exceeds either and always equals one of them. */
  function Rules9Min(muT: Mu3, muD: Mu3): (w: seq<int>)
    ensures |w| == 9
    ensures forall i, j :: 0 <= i < 3 && 0 <= j < 3 ==>
              Cell(w, i, j) <= muT.At(i) && Cell(w, i, j) <= muD.At(j) &&
              (Cell(w, i, j) == muT.At(i) || Cell(w, i, j) == muD.At(j))
  {
    [Min(muT.neg, muD.neg), Min(muT.neg, muD.zero), Min(muT.neg, muD.pos),
     Min(muT.zero, muD.neg), Min(muT.zero, muD.zero), Min(muT.zero, muD.pos),
     Min(muT.pos, muD.neg), Min(muT.pos, muD.zero), Min(muT.pos, muD.pos)]
  }

  /** reg_mode 0 switches off the five non-corner rules (w01, w10, w11, w12, w21). */
  function Gate(regMode: int, w: seq<int>): (r: seq<int>)
    requires |w| == 9
    ensures |r| == 9
    ensures forall k :: 0 <= k < 9 ==> r[k] == (if regMode == 0 && !IsCorner(k) then 0 else w[k])
  {
    if regMode == 0 then [w[0], 0, w[2], 0, 0, 0, w[6], 0, w[8]] else w
  }

  function Sum9(s: seq<int>): int
    requires |s| == 9
  {
    s[0] + s[1] + s[2] + s[3] + s[4] + s[5] + s[6] + s[7] + s[8]
  }

  /** The two aggregated sums, Σw and Σw·g, each capped at Q15Max. */
  datatype Sums = Sums(sW: int, sWg: int)

  /** The nine weighted singleton terms `mul_q15_round(w_k, g2q15_percent(g_k))`. */
  function WeightedTerms(w: seq<int>, g: seq<int>): (wg: seq<int>)
    requires |w| == 9 && |g| == 9
    ensures |wg| == 9
    ensures forall k :: 0 <= k < 9 ==> wg[k] == MulQ15Round(w[k], G2Q15Percent(g[k]))
    ensures forall k :: 0 <= k < 9 ==> 0 <= wg[k] <= Q15Max
    ensures forall k :: 0 <= k < 9 && 0 <= w[k] <= Q15Max ==> wg[k] <= w[k]
  {
    seq(9, k requires 0 <= k < 9 => MulQ15Round(w[k], G2Q15Percent(g[k])))
  }

  /** Aggregation: gate by reg_mode, weight each singleton, sum both series in a wide
      accumulator and cap each sum at Q15Max (saturating, never wrapping). With
      weights in Q1.15 the weighted sum never exceeds the weight sum. */
  function Aggregate(regMode: int, w: seq<int>, g: seq<int>): (r: Sums)
    requires |w| == 9 && |g| == 9
    ensures r.sW <= Q15Max && r.sWg <= Q15Max
    ensures Sum9(Gate(regMode, w)) < Q15Max ==> r.sW == Sum9(Gate(regMode, w))
    ensures Sum9(Gate(regMode, w)) >= Q15Max ==> r.sW == Q15Max
    ensures var s := Sum9(WeightedTerms(Gate(regMode, w), g));
              r.sWg == (if s <= Q15Max then s else Q15Max)
    ensures 0 <= r.sWg
    ensures (forall k :: 0 <= k < 9 ==> 0 <= w[k] <= Q15Max) ==> 0 <= r.sWg <= r.sW
  {
    var gw := Gate(regMode, w);
    var wg := WeightedTerms(gw, g);
    var sumw := Sum9(gw);
    var sumwg := Sum9(wg);
    Sums(if sumw <= Q15Max then sumw else Q15Max, if sumwg <= Q15Max then sumwg else Q15Max)
  }

  /** When no gated rule fires both sums are 0, and for non-negative weights only then
      is S_w 0. */
  lemma NoRuleFiresMeansZeroSums(regMode: int, w: seq<int>, g: seq<int>)
    requires |w| == 9 && |g| == 9 && forall k :: 0 <= k < 9 ==> 0 <= w[k]
    ensures Aggregate(regMode, w, g).sW == 0 <==> forall k :: 0 <= k < 9 ==> Gate(regMode, w)[k] == 0
    ensures Aggregate(regMode, w, g).sW == 0 ==> Aggregate(regMode, w, g).sWg == 0
  {
    var gw := Gate(regMode, w);
    var wg := WeightedTerms(gw, g);
    if forall k :: 0 <= k < 9 ==> gw[k] == 0 {
      forall k | 0 <= k < 9
        ensures wg[k] == 0
      {
        assert wg[k] == MulQ15Round(0, G2Q15Percent(g[k]));
      }
    }
  }

  /** reg_mode 0 only looks at the four corner weights. */
  lemma CornerModeIgnoresEdges(w: seq<int>, w': seq<int>, g: seq<int>)
    requires |w| == 9 && |w'| == 9 && |g| == 9
    requires forall k :: 0 <= k < 9 && IsCorner(k) ==> w[k] == w'[k]
    ensures Aggregate(0, w, g) == Aggregate(0, w', g)
  {
    assert Gate(0, w) == Gate(0, w');
  }

  /** reg_mode 0 is the full grid applied to the gated weights. */
  lemma CornerModeIsGatedFullMode(w: seq<int>, g: seq<int>)
    requires |w| == 9 && |g| == 9
    ensures Aggregate(0, w, g) == Aggregate(1, Gate(0, w), g)
  {
  }

  /** Centroid percentage with +0.5 LSB rounding before the final shift: the denominator
      is at least 1 and the result is clamped to [0, 100]. A weighted sum at least as
      large as a positive weight sum saturates at 100. */
  function Defuzz(sW: int, sWg: int): (r: int)
    ensures 0 <= r <= 100
    ensures 1 <= sW <= sWg ==> r == 100
  {
    var den := if sW >= 1 then sW else 1;
    var ratioQ15 := sWg * 32768 / den;
    var percent := (ratioQ15 * 100 + 16384) / 32768;
    if 1 <= sW <= sWg then
      RatioAtLeastOne(sW, sWg);
      if percent > 100 then 100 else if percent < 0 then 0 else percent
    else
      if percent > 100 then 100 else if percent < 0 then 0 else percent
  }

  lemma RatioAtLeastOne(sW: int, sWg: int)
    requires 1 <= sW <= sWg
    ensures sWg * 32768 / sW >= 32768
  {
    var q := sWg * 32768 / sW;
    DivFacts(sWg * 32768, sW);
    MulLeft(32768, sW, sWg);
    if q < 32768 {
      MulLeft(sW, q + 1, 32768);
    }
  }

  /** A total weight below one LSB is treated as exactly one LSB. */
  lemma DefuzzDenominatorGuard(sW: int, sWg: int)
    requires sW < 1
    ensures Defuzz(sW, sWg) == Defuzz(1, sWg)
  {
  }

  /** G is within one percentage point of the exact centroid 100·S_wg/S_w. */
  predicate NearCentroid(g: int, sW: int, sWg: int)
  {
    (g - 1) * sW < 100 * sWg < (g + 1) * sW
  }

  /** Against the exact ratio: for sums with 0 <= sWg <= sW, the rounded result is
      within one percentage point of 100·sWg/sW, and the clamp never fires. */
  lemma DefuzzNearExactRatio(sW: int, sWg: int)
    requires 1 <= sW && 0 <= sWg <= sW
    ensures (Defuzz(sW, sWg) - 1) * sW < 100 * sWg < (Defuzz(sW, sWg) + 1) * sW
  {
    var q := sWg * 32768 / sW;
    var p := (q * 100 + 16384) / 32768;
    DivFacts(sWg * 32768, sW);
    RatioAtMostOne(sW, sWg, q);
    assert Defuzz(sW, sWg) == p;
    RoundedScaleBounds(sW, sWg, q, p);
  }

  lemma RatioAtMostOne(sW: int, sWg: int, q: int)
    requires 1 <= sW && 0 <= sWg <= sW
    requires q * sW <= sWg * 32768 < q * sW + sW
    ensures 0 <= q <= 32768
  {
    if q > 32768 {
      MulLeft(sW, 32769, q);
    }
    if q < 0 {
      MulLeft(sW, q, -1);
    }
  }

  lemma RoundedScaleBounds(s: int, n: int, q: int, p: int)
    requires s >= 1
    requires q * s <= n * 32768 < q * s + s
    requires 32768 * p - 16384 <= 100 * q < 32768 * p + 16384
    ensures (p - 1) * s < 100 * n < (p + 1) * s
  {
    var ps := p * s;
    var qs := q * s;
    assert (32768 * p - 16384) * s <= (100 * q) * s by { MulLeft(s, 32768 * p - 16384, 100 * q); }
    assert (32768 * p - 16384) * s == 32768 * ps - 16384 * s;
    assert (100 * q) * s == 100 * qs;
    assert (100 * q + 100) * s <= (32768 * p + 16484) * s by { MulLeft(s, 100 * q + 100, 32768 * p + 16484); }
    assert (100 * q + 100) * s == 100 * qs + 100 * s;
    assert (32768 * p + 16484) * s == 32768 * ps + 16484 * s;
    assert (p - 1) * s == ps - s;
    assert (p + 1) * s == ps + s;
  }

  lemma DivFacts(n: int, d: int)
    requires d > 0
    ensures (n / d) * d <= n < (n / d) * d + d
  {
  }
}
