/** The canonical coordinator: configuration records, the two stock configurations and
    `top_step`, which selects the dT source and runs the inference chain. */
module Coprocessor {
  import opened Results
  import opened FixedPoint
  import opened Membership
  import opened Inference
  import opened Estimators

  /** The nine consequent percentages, row-major (T-set outer, dT-set inner). */
  datatype Singletons = Singletons(g00: int, g01: int, g02: int,
                                   g10: int, g11: int, g12: int,
                                   g20: int, g21: int, g22: int)
  {
    function AsSeq(): (g: seq<int>)
      ensures |g| == 9
    {
      [g00, g01, g02, g10, g11, g12, g20, g21, g22]
    }
  }

  /** The class defaults of `Singletons`. */
  const DefaultSingletons := Singletons(100, 50, 30, 50, 50, 50, 80, 50, 0)

  datatype Config = Config(mfT: MfSet3, mfDT: MfSet3, singletons: Singletons)

  /** Thresholds used by the hardware testbench, which are also the defaults of a
      `CoprocessorCfg()` built without arguments. */
  const TestbenchMfT := MfSet3(Thresholds(-128, -64, -32, 0), Thresholds(-16, 0, 0, 16), Thresholds(0, 32, 64, 127))
  const TestbenchMfDT := MfSet3(Thresholds(-100, -50, -30, -5), Thresholds(-10, 0, 0, 10), Thresholds(5, 25, 35, 60))

  /** `CoprocessorCfg()` with every field defaulted. */
  const FactoryCfg := Config(TestbenchMfT, TestbenchMfDT, DefaultSingletons)

  /** The wide symmetric sets shared by both inputs of `DEFAULT_CFG`. */
  const WideMf := MfSet3(Thresholds(-128, -128, -64, 0), Thresholds(-64, 0, 0, 64), Thresholds(0, 64, 127, 127))

  /** `DEFAULT_CFG` of this copy: not the constructor defaults, but the wide sets. */
  const DefaultCfg := Config(WideMf, WideMf, DefaultSingletons)

  /** `G` with the diagnostic fields of `dbg`. */
  datatype StepResult = StepResult(g: int, dTSel: int, dtValid: bool, muT: Mu3, muD: Mu3,
                                   w: seq<int>, sW: int, sWg: int)

  /** The stateless part of one step, once dT has been selected: fuzzify both inputs,
      fire the rule grid, aggregate and defuzzify. Since every weight is a Q1.15 degree,
      0 <= S_wg <= S_w, and the output is within one point of the exact centroid
      100·S_wg/S_w (0 when no rule fires). */
  function Evaluate(tIn: int, dTSel: int, dtValid: bool, cfg: Config, regMode: int): (r: StepResult)
    ensures 0 <= r.g <= 100
    ensures 0 <= r.sWg <= r.sW <= Q15Max
    ensures r.dTSel == dTSel && r.dtValid == dtValid && |r.w| == 9
    ensures r.muT == Fuzzify(tIn, cfg.mfT) && r.muD == Fuzzify(dTSel, cfg.mfDT)
    ensures r.w == Rules9Min(r.muT, r.muD)
    ensures Sums(r.sW, r.sWg) == Aggregate(regMode, r.w, cfg.singletons.AsSeq())
    ensures r.g == Defuzz(r.sW, r.sWg)
    ensures r.sW >= 1 ==> NearCentroid(r.g, r.sW, r.sWg)
    ensures r.sW == 0 ==> r.g == 0
  {
    var muT := Fuzzify(tIn, cfg.mfT);
    var muD := Fuzzify(dTSel, cfg.mfDT);
    var w := Rules9Min(muT, muD);
    var sums := Aggregate(regMode, w, cfg.singletons.AsSeq());
    GridSumsOrdered(muT, muD, cfg.singletons.AsSeq(), regMode);
    DefuzzOfOrderedSums(sums.sW, sums.sWg);
    StepResult(Defuzz(sums.sW, sums.sWg), dTSel, dtValid, muT, muD, w, sums.sW, sums.sWg)
  }

  /** For sums with 0 <= S_wg <= S_w, G is the near-exact centroid, or 0 when S_w is 0. */
  lemma DefuzzOfOrderedSums(sW: int, sWg: int)
    requires 0 <= sWg <= sW
    ensures sW >= 1 ==> NearCentroid(Defuzz(sW, sWg), sW, sWg)
    ensures sW == 0 ==> Defuzz(sW, sWg) == 0
  {
    if sW >= 1 {
      DefuzzNearExactRatio(sW, sWg);
    }
  }

  /** Weights fired from Q1.15 degrees aggregate to sums with 0 <= S_wg <= S_w. */
  lemma GridSumsOrdered(muT: Mu3, muD: Mu3, g: seq<int>, regMode: int)
    requires |g| == 9
    requires forall i :: 0 <= i < 3 ==> 0 <= muT.At(i) <= Q15Max
    requires forall i :: 0 <= i < 3 ==> 0 <= muD.At(i) <= Q15Max
    ensures var s := Aggregate(regMode, Rules9Min(muT, muD), g);
            0 <= s.sWg <= s.sW <= Q15Max
  {
    WeightsInQ15(muT, muD, Rules9Min(muT, muD));
  }

  lemma WeightsInQ15(muT: Mu3, muD: Mu3, w: seq<int>)
    requires forall i :: 0 <= i < 3 ==> 0 <= muT.At(i) <= Q15Max
    requires forall i :: 0 <= i < 3 ==> 0 <= muD.At(i) <= Q15Max
    requires w == Rules9Min(muT, muD)
    ensures forall k :: 0 <= k < 9 ==> 0 <= w[k] <= Q15Max
  {
    forall k | 0 <= k < 9
      ensures 0 <= w[k] <= Q15Max
    {
      assert w[k] == Cell(w, k / 3, k % 3);
    }
  }

  /** The result of `top_step` and the estimator as the call leaves it. */
  datatype TopOut = TopOut(result: StepResult, est: Option<Estimator>)

  /** `top_step`. dt_mode 1 takes dT from the estimator, and fails without one; any other
      dt_mode passes dT_in through as valid and leaves the estimator untouched. */
  function TopStep(tIn: int, dTIn: int, cfg: Config, regMode: int, dtMode: int,
                   est: Option<Estimator>): (r: Result<TopOut>)
    ensures r.Err? <==> dtMode == 1 && est.None?
    ensures r.Err? ==> r.error == MissingEstimator
    ensures r.Ok? ==> 0 <= r.value.result.g <= 100
    ensures r.Ok? ==> r.value.result == Evaluate(tIn, r.value.result.dTSel, r.value.result.dtValid,
                                                 cfg, regMode)
    ensures r.Ok? && dtMode != 1 ==>
              r.value.result.dTSel == dTIn && r.value.result.dtValid && r.value.est == est
    ensures r.Ok? && dtMode == 1 ==>
              r.value.est == Some(Step(est.value, tIn).next) &&
              r.value.result.dTSel == Step(est.value, tIn).dT &&
              r.value.result.dtValid == Step(est.value, tIn).wasValid
  {
    if dtMode == 1 then
      if est.None? then Err(MissingEstimator)
      else
        var s := Step(est.value, tIn);
        Ok(TopOut(Evaluate(tIn, s.dT, s.wasValid, cfg, regMode), Some(s.next)))
    else
      Ok(TopOut(Evaluate(tIn, dTIn, true, cfg, regMode), est))
  }

  /** G is 0 exactly when no gated rule fires: then both sums are 0 and the epsilon guard
      gives 0; otherwise S_w is positive and G is the rounded centroid. */
  lemma NoRuleFiresGivesZero(tIn: int, dTSel: int, dtValid: bool, cfg: Config, regMode: int)
    ensures var r := Evaluate(tIn, dTSel, dtValid, cfg, regMode);
            (forall k :: 0 <= k < 9 ==> Gate(regMode, r.w)[k] == 0) <==> r.sW == 0
    ensures var r := Evaluate(tIn, dTSel, dtValid, cfg, regMode);
            (forall k :: 0 <= k < 9 ==> Gate(regMode, r.w)[k] == 0) ==> r.g == 0 && r.sWg == 0
  {
    var r := Evaluate(tIn, dTSel, dtValid, cfg, regMode);
    WeightsInQ15(r.muT, r.muD, r.w);
    NoRuleFiresMeansZeroSums(regMode, r.w, cfg.singletons.AsSeq());
  }

  /** With an external dT the step is a pure function of its inputs: the estimator
      handed in makes no difference, so repeating a call repeats its result. */
  lemma ExternalModeIsStateless(tIn: int, dTIn: int, cfg: Config, regMode: int, dtMode: int,
                                e1: Option<Estimator>, e2: Option<Estimator>)
    requires dtMode != 1
    ensures TopStep(tIn, dTIn, cfg, regMode, dtMode, e1).value.result ==
            TopStep(tIn, dTIn, cfg, regMode, dtMode, e2).value.result
  {
  }

  /** All stock threshold sets are ordered and within s8. */
  lemma StockConfigsWellFormed()
    ensures FactoryCfg.mfT.Valid() && FactoryCfg.mfDT.Valid() && FactoryCfg.mfT.InS8() && FactoryCfg.mfDT.InS8()
    ensures DefaultCfg.mfT.Valid() && DefaultCfg.mfT.InS8()
    ensures DefaultCfg != FactoryCfg
  {
  }
}
