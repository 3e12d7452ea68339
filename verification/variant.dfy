/** The second copy of the fuzzy reference model. Everything but three things is the
    same code as the canonical copy: its `defuzz` truncates instead of rounding, its
    exact estimator takes the floor slice (`Estimators.FloorSlice`), and its
    `DEFAULT_CFG` holds the testbench thresholds. */
module Variant {
  import opened Results
  import opened FixedPoint
  import opened Inference
  import opened Estimators
  import Coprocessor

  /** `defuzz` without the +16384 rounding term: the percentage is truncated. For
      0 <= S_wg <= S_w it never exceeds the exact centroid 100·S_wg/S_w and stays
      less than two points below it. */
  function DefuzzTrunc(sW: int, sWg: int): (r: int)
    ensures 0 <= r <= 100
  {
    var den := if sW >= 1 then sW else 1;
    var ratioQ15 := sWg * 32768 / den;
    var percent := ratioQ15 * 100 / 32768;
    if percent > 100 then 100 else if percent < 0 then 0 else percent
  }

  /** The two `defuzz` versions differ by at most one point, the rounding one never
      below the truncating one. */
  lemma DefuzzVersionsClose(sW: int, sWg: int)
    ensures DefuzzTrunc(sW, sWg) <= Defuzz(sW, sWg) <= DefuzzTrunc(sW, sWg) + 1
  {
  }

  lemma DefuzzTruncBelowRatio(sW: int, sWg: int)
    requires 1 <= sW && 0 <= sWg <= sW
    ensures DefuzzTrunc(sW, sWg) * sW <= 100 * sWg < (DefuzzTrunc(sW, sWg) + 2) * sW
  {
    var q := sWg * 32768 / sW;
    var p := q * 100 / 32768;
    DivFacts(sWg * 32768, sW);
    RatioAtMostOne(sW, sWg, q);
    assert DefuzzTrunc(sW, sWg) == p;
    TruncScaleBounds(sW, sWg, q, p);
  }

  lemma TruncScaleBounds(s: int, n: int, q: int, p: int)
    requires s >= 1
    requires q * s <= n * 32768 < q * s + s
    requires 32768 * p <= 100 * q < 32768 * p + 32768
    ensures p * s <= 100 * n < (p + 2) * s
  {
    var ps := p * s;
    var qs := q * s;
    assert (32768 * p) * s <= (100 * q) * s by { MulLeft(s, 32768 * p, 100 * q); }
    assert (32768 * p) * s == 32768 * ps;
    assert (100 * q) * s == 100 * qs;
    assert (100 * q + 100) * s <= (32768 * p + 32868) * s by { MulLeft(s, 100 * q + 100, 32768 * p + 32868); }
    assert (100 * q + 100) * s == 100 * qs + 100 * s;
    assert (32768 * p + 32868) * s == 32768 * ps + 32868 * s;
    assert (p + 2) * s == ps + 2 * s;
  }

  /** `DEFAULT_CFG` of this copy: exactly the constructor defaults of the canonical
      copy, and not the canonical `DEFAULT_CFG`. */
  const DefaultCfg := Coprocessor.Config(Coprocessor.TestbenchMfT, Coprocessor.TestbenchMfDT,
                                         Coprocessor.DefaultSingletons)

  lemma DefaultCfgsDiffer()
    ensures DefaultCfg == Coprocessor.FactoryCfg && DefaultCfg != Coprocessor.DefaultCfg
  {
  }

  /** `top_step` of this copy: the same selection, fuzzification, rules and aggregation,
      and only the final percentage truncated. It therefore fails exactly when the
      canonical step fails, agrees with it on everything else, and its G is the
      canonical G or one less. */
  function TopStep(tIn: int, dTIn: int, cfg: Coprocessor.Config, regMode: int, dtMode: int,
                   est: Option<Estimator>): (r: Result<Coprocessor.TopOut>)
    ensures var c := Coprocessor.TopStep(tIn, dTIn, cfg, regMode, dtMode, est);
              r.Err? == c.Err? &&
              (r.Ok? ==> r.value.est == c.value.est &&
                         r.value.result.(g := 0) == c.value.result.(g := 0) &&
                         c.value.result.g - 1 <= r.value.result.g <= c.value.result.g)
    ensures r.Ok? ==> r.value.result.g == DefuzzTrunc(r.value.result.sW, r.value.result.sWg)
    ensures r.Ok? ==> 0 <= r.value.result.g <= 100
  {
    match Coprocessor.TopStep(tIn, dTIn, cfg, regMode, dtMode, est)
    case Err(e) => Err(e)
    case Ok(out) =>
      var res := out.result;
      DefuzzVersionsClose(res.sW, res.sWg);
      Ok(Coprocessor.TopOut(res.(g := DefuzzTrunc(res.sW, res.sWg)), out.est))
  }
}
