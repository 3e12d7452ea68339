/** Concrete vectors from the repository's own test suites, restated as lemmas about the
    model. Each lemma names the inputs and the value the tests expect. */
module Vectors {
  import opened Results
  import opened FixedPoint
  import opened Membership
  import opened Inference
  import opened Estimators
  import Coprocessor
  import Variant
  import RefModel

  /** Percent mapping and rounded multiply: 0% and 100% hit the ends of Q1.15, 50% is
      16384 and half of a half is 8192. */
  lemma ConversionVectors()
    ensures G2Q15Percent(0) == 0 && G2Q15Percent(100) == Q15Max
    ensures G2Q15Percent(50) == 16384 && G2Q15Percent(80) == 26214
    ensures MulQ15Round(16384, 16384) == 8192
  {
  }

  /** The triangle (0, 10, 10, 30) and the trapezoid (-10, 0, 0, 15). */
  lemma TrapezoidVectors()
    ensures TrapezoidMu(-5, 0, 10, 10, 30) == 0 && TrapezoidMu(0, 0, 10, 10, 30) == 0
    ensures TrapezoidMu(1, 0, 10, 10, 30) == 3276 && TrapezoidMu(10, 0, 10, 10, 30) == Q15Max
    ensures TrapezoidMu(20, 0, 10, 10, 30) == 16384 && TrapezoidMu(29, 0, 10, 10, 30) == 1638
    ensures TrapezoidMu(30, 0, 10, 10, 30) == 0
    ensures TrapezoidMu(-10, -10, 0, 0, 15) == 0 && TrapezoidMu(0, -10, 0, 0, 15) == Q15Max
    ensures TrapezoidMu(15, -10, 0, 0, 15) == 0
  {
  }

  /** Truncating `defuzz`: the epsilon path, full scale, exact halves, one LSB below a
      half and the clamp above 100. */
  lemma DefuzzVectors()
    ensures Variant.DefuzzTrunc(0, 0) == 0 && Variant.DefuzzTrunc(Q15Max, Q15Max) == 100
    ensures Variant.DefuzzTrunc(20000, 10000) == 50 && Variant.DefuzzTrunc(30000, 14999) == 49
    ensures Variant.DefuzzTrunc(30000, 15000) == 50 && Variant.DefuzzTrunc(10000, 30000) == 100
  {
  }

  /** Rounding `defuzz` on the same pairs: one LSB below a half now rounds up to 50,
      which is the value the parity test expects of its `defuzz`. */
  lemma RoundingDefuzzVectors()
    ensures Defuzz(0, 0) == 0 && Defuzz(Q15Max, Q15Max) == 100
    ensures Defuzz(20000, 10000) == 50 && Defuzz(30000, 14999) == 50
    ensures Defuzz(30000, 15000) == 50 && Defuzz(10000, 30000) == 100
  {
  }

  /** Nine weights of 20000: four corners already saturate S_w, and all nine saturate
      both sums. */
  lemma AggregateSaturationVectors()
    ensures var w := seq(9, k => 20000);
            var s0 := Aggregate(0, w, Coprocessor.DefaultSingletons.AsSeq());
            var s1 := Aggregate(1, w, Coprocessor.DefaultSingletons.AsSeq());
            s0.sW == Q15Max && 0 <= s0.sWg <= Q15Max && s1.sW == Q15Max && s1.sWg == Q15Max
  {
    var w := seq(9, k => 20000);
    var g := Coprocessor.DefaultSingletons.AsSeq();
    var s0 := Aggregate(0, w, g);
    assert Sum9(Gate(0, w)) == 80000;
    var s1 := Aggregate(1, w, g);
    assert Sum9(Gate(1, w)) == 180000;
    assert Sum9(WeightedTerms(Gate(1, w), g)) >= Q15Max;
  }

  /** One evaluation, given its membership degrees and sums. */
  lemma EvaluatesTo(t: int, dT: int, cfg: Coprocessor.Config, regMode: int,
                    muT: Mu3, muD: Mu3, sums: Sums)
    requires Fuzzify(t, cfg.mfT) == muT && Fuzzify(dT, cfg.mfDT) == muD
    requires Aggregate(regMode, Rules9Min(muT, muD), cfg.singletons.AsSeq()) == sums
    ensures var c := Coprocessor.TopStep(t, dT, cfg, regMode, 0, None);
            var v := Variant.TopStep(t, dT, cfg, regMode, 0, None);
            c.Ok? && v.Ok? &&
            c.value.result.sW == sums.sW && c.value.result.sWg == sums.sWg &&
            c.value.result.g == Defuzz(sums.sW, sums.sWg) &&
            v.value.result.g == Variant.DefuzzTrunc(sums.sW, sums.sWg)
  {
  }

  /** The weight vector in which rule k alone fires, fully. */
  function OnlyRule(k: int): seq<int>
  {
    var f := (i: int) => if i == k then Q15Max else 0;
    [f(0), f(1), f(2), f(3), f(4), f(5), f(6), f(7), f(8)]
  }

  /** One rule fully fired: the sums are that rule's weight and its weighted singleton. */
  lemma SingleRule(regMode: int, k: int, g: seq<int>)
    requires 0 <= k < 9 && (regMode == 1 || IsCorner(k)) && |g| == 9
    ensures Aggregate(regMode, OnlyRule(k), g) == Sums(Q15Max, MulQ15Round(Q15Max, G2Q15Percent(g[k])))
  {
    var w := OnlyRule(k);
    var gw := Gate(regMode, w);
    assert gw == w;
    var wg := WeightedTerms(gw, g);
    assert Sum9(wg) == wg[k] by {
      forall i | 0 <= i < 9 && i != k
        ensures wg[i] == 0
      {
        assert gw[i] == 0;
      }
      SumOfOneTerm(wg, k);
    }
    assert Sum9(gw) == Q15Max by {
      SumOfOneTerm(gw, k);
    }
  }

  lemma SumOfOneTerm(s: seq<int>, k: int)
    requires |s| == 9 && 0 <= k < 9
    requires forall i :: 0 <= i < 9 && i != k ==> s[i] == 0
    ensures Sum9(s) == s[k]
  {
  }

  /** Testbench configuration, nine rules, T = dT = 0: only the centre rule fires and
      G is its singleton, 50. */
  lemma VariantCentreVector()
    ensures var r := Variant.TopStep(0, 0, Variant.DefaultCfg, 1, 0, None);
            r.Ok? && r.value.result.g == 50
  {
    var cfg := Variant.DefaultCfg;
    var mu := Mu3(0, Q15Max, 0);
    assert Fuzzify(0, cfg.mfT) == mu && Fuzzify(0, cfg.mfDT) == mu;
    assert Rules9Min(mu, mu) == OnlyRule(4);
    SingleRule(1, 4, Coprocessor.DefaultSingletons.AsSeq());
    EvaluatesTo(0, 0, cfg, 1, mu, mu, Sums(Q15Max, 16384));
  }

  /** The same input with the corner rules only: nothing fires and G is 0. */
  lemma VariantCentreCornerVector()
    ensures var r := Variant.TopStep(0, 0, Variant.DefaultCfg, 0, 0, None);
            r.Ok? && r.value.result.g == 0
  {
    var cfg := Variant.DefaultCfg;
    var mu := Mu3(0, Q15Max, 0);
    assert Fuzzify(0, cfg.mfT) == mu && Fuzzify(0, cfg.mfDT) == mu;
    var w := Rules9Min(mu, mu);
    assert Gate(0, w) == seq(9, i => 0);
    EvaluatesTo(0, 0, cfg, 0, mu, mu, Sums(0, 0));
  }

  /** Cold and falling (T = -64, dT = -10): only the neg/neg corner fires, at 6553, and
      G is its singleton, 100, in both rule modes. */
  lemma VariantColdFallingVector(regMode: int)
    ensures var r := Variant.TopStep(-64, -10, Variant.DefaultCfg, regMode, 0, None);
            r.Ok? && r.value.result.g == 100
  {
    var cfg := Variant.DefaultCfg;
    var muT := Mu3(Q15Max, 0, 0);
    var muD := Mu3(6553, 0, 0);
    assert Fuzzify(-64, cfg.mfT) == muT && Fuzzify(-10, cfg.mfDT) == muD;
    var w := Rules9Min(muT, muD);
    assert w == seq(9, i => if i == 0 then 6553 else 0);
    var g := cfg.singletons.AsSeq();
    var gw := Gate(regMode, w);
    assert gw == w;
    var wg := WeightedTerms(gw, g);
    assert wg[0] == MulQ15Round(6553, Q15Max) == 6553;
    forall i | 1 <= i < 9
      ensures wg[i] == 0
    {
      assert gw[i] == 0;
      assert MulQ15Round(0, G2Q15Percent(g[i])) == 0;
    }
    assert Sum9(gw) == 6553 && Sum9(wg) == 6553;
    assert Aggregate(regMode, w, g) == Sums(6553, 6553);
    EvaluatesTo(-64, -10, cfg, regMode, muT, muD, Sums(6553, 6553));
  }

  /** Hot and rising (T = 64, dT = 10): only the pos/pos corner fires, at 8192, and its
      singleton is 0, so G is 0 in both rule modes. */
  lemma VariantHotRisingVector(regMode: int)
    ensures var r := Variant.TopStep(64, 10, Variant.DefaultCfg, regMode, 0, None);
            r.Ok? && r.value.result.g == 0
  {
    var cfg := Variant.DefaultCfg;
    var muT := Mu3(0, 0, Q15Max);
    var muD := Mu3(0, 0, 8192);
    assert Fuzzify(64, cfg.mfT) == muT && Fuzzify(10, cfg.mfDT) == muD;
    var w := Rules9Min(muT, muD);
    assert w == seq(9, i => if i == 8 then 8192 else 0);
    var g := cfg.singletons.AsSeq();
    var gw := Gate(regMode, w);
    assert gw == w;
    var wg := WeightedTerms(gw, g);
    forall i | 0 <= i < 9
      ensures wg[i] == 0
    {
      assert MulQ15Round(gw[i], G2Q15Percent(g[i])) == 0;
    }
    assert Sum9(gw) == 8192 && Sum9(wg) == 0;
    assert Aggregate(regMode, w, g) == Sums(8192, 0);
    EvaluatesTo(64, 10, cfg, regMode, muT, muD, Sums(8192, 0));
  }

  /** The wide sets of the canonical `DEFAULT_CFG` at ±100: fully negative or fully
      positive, and so the corner rules alone. */
  lemma WideSetsAtHundred()
    ensures Fuzzify(100, Coprocessor.WideMf) == Mu3(0, 0, Q15Max)
    ensures Fuzzify(-100, Coprocessor.WideMf) == Mu3(Q15Max, 0, 0)
    ensures Rules9Min(Mu3(0, 0, Q15Max), Mu3(Q15Max, 0, 0)) == OnlyRule(6)
    ensures Rules9Min(Mu3(Q15Max, 0, 0), Mu3(0, 0, Q15Max)) == OnlyRule(2)
  {
  }

  /** Canonical `DEFAULT_CFG`, hot and falling (100, -100): only the pos/neg corner fires
      and G is its singleton, 80, in both rule modes. */
  lemma CanonicalHotFallingVector(regMode: int)
    ensures var r := Coprocessor.TopStep(100, -100, Coprocessor.DefaultCfg, regMode, 0, None);
            r.Ok? && r.value.result.g == 80
  {
    var cfg := Coprocessor.DefaultCfg;
    var neg := Mu3(Q15Max, 0, 0);
    var pos := Mu3(0, 0, Q15Max);
    WideSetsAtHundred();
    SingleRule(regMode, 6, Coprocessor.DefaultSingletons.AsSeq());
    EvaluatesTo(100, -100, cfg, regMode, pos, neg, Sums(Q15Max, 26213));
  }

  /** Canonical `DEFAULT_CFG`, cold and rising (-100, 100): only the neg/pos corner fires
      and G is its singleton, 30, in both rule modes. */
  lemma CanonicalColdRisingVector(regMode: int)
    ensures var r := Coprocessor.TopStep(-100, 100, Coprocessor.DefaultCfg, regMode, 0, None);
            r.Ok? && r.value.result.g == 30
  {
    var cfg := Coprocessor.DefaultCfg;
    var neg := Mu3(Q15Max, 0, 0);
    var pos := Mu3(0, 0, Q15Max);
    WideSetsAtHundred();
    SingleRule(regMode, 2, Coprocessor.DefaultSingletons.AsSeq());
    EvaluatesTo(-100, 100, cfg, regMode, neg, pos, Sums(Q15Max, 9830));
  }

  /** Canonical `DEFAULT_CFG` at (-128, 127): no rule fires and the epsilon guard gives 0. */
  lemma CanonicalNoRuleVector()
    ensures var r := Coprocessor.TopStep(-128, 127, Coprocessor.DefaultCfg, 1, 0, None);
            r.Ok? && r.value.result.g == 0
  {
    var cfg := Coprocessor.DefaultCfg;
    var none := Mu3(0, 0, 0);
    assert Fuzzify(-128, cfg.mfT) == none && Fuzzify(127, cfg.mfDT) == none;
    assert Rules9Min(none, none) == seq(9, i => 0);
    EvaluatesTo(-128, 127, cfg, 1, none, none, Sums(0, 0));
  }

  /** Testbench configuration, nine rules, T = -128 and dT = 127: both inputs sit on the
      outer feet of their sets, no rule fires and the epsilon guard gives 0. */
  lemma VariantNoRuleVector()
    ensures var r := Variant.TopStep(-128, 127, Variant.DefaultCfg, 1, 0, None);
            r.Ok? && r.value.result.g == 0
  {
    var cfg := Variant.DefaultCfg;
    var none := Mu3(0, 0, 0);
    assert Fuzzify(-128, cfg.mfT) == none && Fuzzify(127, cfg.mfDT) == none;
    assert Rules9Min(none, none) == seq(9, i => 0);
    EvaluatesTo(-128, 127, cfg, 1, none, none, Sums(0, 0));
  }

  /** At the centre the wide sets give full zero degrees and only the centre rule fires;
      corner-only gating removes it. */
  lemma WideSetsAtCentre()
    ensures Fuzzify(0, Coprocessor.WideMf) == Mu3(0, Q15Max, 0)
    ensures Rules9Min(Mu3(0, Q15Max, 0), Mu3(0, Q15Max, 0)) == OnlyRule(4)
    ensures Aggregate(0, OnlyRule(4), Coprocessor.DefaultSingletons.AsSeq()) == Sums(0, 0)
  {
    assert Gate(0, OnlyRule(4)) == seq(9, i => 0);
  }

  /** Canonical `DEFAULT_CFG` at the centre (0, 0), corner-only mode: the one rule that
      fires is gated off and the epsilon guard gives 0. */
  lemma CanonicalCentreCornerVector()
    ensures var r := Coprocessor.TopStep(0, 0, Coprocessor.DefaultCfg, 0, 0, None);
            r.Ok? && r.value.result.g == 0
  {
    var mid := Mu3(0, Q15Max, 0);
    WideSetsAtCentre();
    EvaluatesTo(0, 0, Coprocessor.DefaultCfg, 0, mid, mid, Sums(0, 0));
  }

  /** Canonical `DEFAULT_CFG` at the centre (0, 0), nine-rule mode: G is the centre
      singleton, 50. */
  lemma CanonicalCentreFullVector()
    ensures var r := Coprocessor.TopStep(0, 0, Coprocessor.DefaultCfg, 1, 0, None);
            r.Ok? && r.value.result.g == 50
  {
    var mid := Mu3(0, Q15Max, 0);
    WideSetsAtCentre();
    SingleRule(1, 4, Coprocessor.DefaultSingletons.AsSeq());
    EvaluatesTo(0, 0, Coprocessor.DefaultCfg, 1, mid, mid, Sums(Q15Max, 16384));
  }

  /** A bit-exact step in the operating range, given the new state its unbounded
      formula yields. */
  lemma ExactStepIs(slice: OutputSlice, p: ExactParams, s: ExactState, t: int, clip: int)
    requires -128 <= t <= 127 && -128 <= s.tPrev <= 127 && -32640 <= s.dTPrevQ15 <= 32640
    requires 0 <= p.alpha <= 255 && 0 <= p.kDt <= 31 && 0 <= p.dMax <= 127
    requires RefModel.RefFilter(s.dTPrevQ15, t - s.tPrev, p.alpha, p.kDt, p.dMax) == clip
    ensures var r := Step(Exact(slice, p, s), t);
            r.next == Exact(slice, p, ExactState(t, clip, true)) && r.wasValid == s.dtValid &&
            r.dT == (if slice == TruncTowardZero then TruncDiv128(clip) else clip / 128)
  {
    Pow2Values();
    RefModel.ExactFilterNoWrap(p, s, t);
    assert Sxt(t, 8) == t;
  }

  /** A fresh exact estimator after `init_pulse(0)`: parameters as given, filter cleared,
      not valid. */
  lemma FreshAfterInit(slice: OutputSlice, alpha: int, kDt: int, dMax: int)
    requires 0 <= alpha <= 255 && 0 <= kDt <= 255 && -128 <= dMax <= 127
    ensures InitPulse(NewExact(slice, alpha, kDt, dMax), 0) ==
            Exact(slice, ExactParams(alpha, kDt, dMax), ExactState(0, 0, false))
  {
  }

  /** Full gain, no shift, clamp 10, either output slice: after init at 0, a jump to 20
      reads +10 and a jump back to -20 reads -10. */
  lemma EstimatorClampVector(slice: OutputSlice)
    ensures var e := InitPulse(NewExact(slice, 255, 0, 10), 0);
            var r1 := Step(e, 20);
            var r2 := Step(r1.next, -20);
            r1.dT == 10 && r2.dT == -10
  {
    var p := ExactParams(255, 0, 10);
    FreshAfterInit(slice, 255, 0, 10);
    ExactStepIs(slice, p, ExactState(0, 0, false), 20, 1280);
    ExactStepIs(slice, p, ExactState(20, 1280, true), -20, -1280);
    assert TruncDiv128(-1280) == -10;
  }

  /** One step of the ramp estimator (alpha 64, k_dt 2, d_max 64) from a known state. */
  lemma RampStep(slice: OutputSlice, t0: int, c0: int, valid: bool, t1: int, c1: int)
    requires -128 <= t0 <= 127 && -128 <= t1 <= 127 && 0 <= c0 <= 127
    requires RefModel.RefFilter(c0, t1 - t0, 64, 2, 64) == c1 && 0 <= c1 < 128
    ensures var p := ExactParams(64, 2, 64);
            Step(Exact(slice, p, ExactState(t0, c0, valid)), t1) ==
            StepOut(0, valid, Exact(slice, p, ExactState(t1, c1, true)))
  {
    ExactStepIs(slice, ExactParams(64, 2, 64), ExactState(t0, c0, valid), t1, c1);
  }

  /** Filter states of the ramp below, one per sample. */
  const RampStates: seq<int> := [0, 32, 56, 74, 87, 97, 104, 110, 114]

  /** The ramp's unbounded filter arithmetic, sample by sample. */
  lemma RampArithmetic(j: nat)
    requires j < 8
    ensures RefModel.RefFilter(RampStates[j], 4, 64, 2, 64) == RampStates[j + 1]
  {
    Pow2Values();
    assert Pow2(2) == 4;
  }

  /** alpha 64, k_dt 2, d_max 64, a ramp of +4 per sample from 0 (the repository's ramp
      test), either output slice: init clears the filter, and at sample j + 1 the state
      moves from RampStates[j] to RampStates[j + 1] (32, 56, 74, 87, 97, 104, 110, 114)
      with output 0 every time, so the outputs are non-decreasing and show no spike. */
  lemma EstimatorRampVector(slice: OutputSlice, j: nat)
    requires j < 8
    ensures InitPulse(NewExact(slice, 64, 2, 64), 0) ==
            Exact(slice, ExactParams(64, 2, 64), ExactState(0, 0, false))
    ensures var p := ExactParams(64, 2, 64);
            Step(Exact(slice, p, ExactState(4 * j, RampStates[j], j > 0)), 4 * j + 4) ==
            StepOut(0, j > 0, Exact(slice, p, ExactState(4 * j + 4, RampStates[j + 1], true)))
  {
    FreshAfterInit(slice, 64, 2, 64);
    RampArithmetic(j);
    RampStep(slice, 4 * j, RampStates[j], j > 0, 4 * j + 4, RampStates[j + 1]);
  }
}
