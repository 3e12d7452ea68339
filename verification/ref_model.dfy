/** The third, independent copy of the model (`ref_model.py`): saturating instead of
    wrapping inputs, an 8-bit-masked trapezoid numerator, a separate 4-corner rule
    function, an estimator whose parameters are passed per step and whose valid flag
    does not lag, and `coproc_step` as its coordinator. */
module RefModel {
  import opened Results
  import opened FixedPoint
  import opened Membership
  import opened Inference
  import Estimators
  import Coprocessor
  import Variant

  /** Clamp to unsigned 16-bit: values in range pass unchanged, others go to the nearer
      bound. */
  function ClampU16(x: int): (r: int)
    ensures 0 <= r <= 0xFFFF
    ensures r == x <==> 0 <= x <= 0xFFFF
    ensures x < 0 ==> r == 0
    ensures x > 0xFFFF ==> r == 0xFFFF
  {
    Max(0, Min(0xFFFF, x))
  }

  /** Q1.15 to an integer percentage, truncating: the largest r with r/100 <= q/32768. */
  function Q15ToPct(q15: int): (r: int)
    ensures 32768 * r <= q15 * 100 < 32768 * r + 32768
    ensures 0 <= q15 <= Q15Max ==> 0 <= r <= 99
  {
    q15 * 100 / 32768
  }

  /** Percent to Q1.15 after clamping the percentage to [0, 100]. On every integer this
      is the same value as the canonical `g2q15_percent`, which saturates afterwards. */
  function PctToQ15(gPct: int): (r: int)
    ensures 0 <= r <= Q15Max
    ensures r == G2Q15Percent(gPct)
  {
    var gp := Max(0, Min(100, gPct));
    var tmp := (gp * 32767 + 50) / 100;
    if tmp > 32767 then 32767 else tmp
  }

  /** Percent to Q1.15 and back loses at most one point, and never gains one. */
  lemma PercentRoundTrip(gPct: int)
    requires 0 <= gPct <= 100
    ensures gPct - 1 <= Q15ToPct(PctToQ15(gPct)) <= gPct
  {
    var q := PctToQ15(gPct);
    var r := Q15ToPct(q);
    assert 100 * q <= gPct * Q15Max + 50 < 100 * q + 100;
    assert 32768 * r <= q * 100 < 32768 * r + 32768;
  }

  /** Trapezoid whose ramp numerator is masked to 8 bits (`(xb & 0xFF) << 7 << 8`). Same
      support and plateau rules as the canonical trapezoid and always within
      [0, 0x7FFF]. */
  function TrapezoidMuMasked(x: int, a: int, b: int, c: int, d: int): (r: int)
    ensures 0 <= r <= 0x7FFF
    ensures x <= a || x >= d ==> r == 0
    ensures a < x < d && b <= x <= c ==> r == 0x7FFF
  {
    if x <= a || x >= d then 0
    else if x >= b && x <= c then 0x7FFF
    else if x > a && x < b then
      var dx1 := b - a;
      MaskedRamp(x - a, if dx1 != 0 then dx1 else 1)
    else
      var dx2 := d - c;
      MaskedRamp(d - x, if dx2 != 0 then dx2 else 1)
  }

  /** One ramp of the masked trapezoid: the low 8 bits of the distance into the ramp,
      shifted to Q1.15, over the ramp width, capped at 0x7FFF. */
  function MaskedRamp(dist: int, den: int): (r: int)
    requires den >= 1
    ensures 0 <= r <= 0x7FFF
  {
    var numQ87 := Mask(dist, 8) * 128;
    var numQ15 := numQ87 * 256;
    Min(0x7FFF, numQ15 / den)
  }

  /** On signed 8-bit inputs the mask never cuts anything: a ramp numerator is below 255,
      so this trapezoid equals the canonical one. */
  lemma MaskedTrapezoidAgrees(x: int, a: int, b: int, c: int, d: int)
    requires -128 <= x <= 127 && -128 <= a <= 127 && -128 <= b <= 127
    requires -128 <= c <= 127 && -128 <= d <= 127
    ensures TrapezoidMuMasked(x, a, b, c, d) == TrapezoidMu(x, a, b, c, d)
  {
    Pow2Values();
    if a < x < d && !(b <= x <= c) {
      if x < b {
        assert Mask(x - a, 8) == x - a;
      } else {
        assert Mask(d - x, 8) == d - x;
      }
    }
  }

  /** `fuzzifier_three`: the masked trapezoid applied to the neg, zero and pos sets. */
  function FuzzifierThree(x: int, params: MfSet3): (r: Mu3)
    ensures forall i :: 0 <= i < 3 ==> 0 <= r.At(i) <= Q15Max
    ensures -128 <= x <= 127 && params.InS8() ==> r == Fuzzify(x, params)
  {
    var t := (x: int, th: Thresholds) => TrapezoidMuMasked(x, th.a, th.b, th.c, th.d);
    if -128 <= x <= 127 && params.InS8() then
      MaskedTrapezoidAgrees(x, params.neg.a, params.neg.b, params.neg.c, params.neg.d);
      MaskedTrapezoidAgrees(x, params.zero.a, params.zero.b, params.zero.c, params.zero.d);
      MaskedTrapezoidAgrees(x, params.pos.a, params.pos.b, params.pos.c, params.pos.d);
      Mu3(t(x, params.neg), t(x, params.zero), t(x, params.pos))
    else
      Mu3(t(x, params.neg), t(x, params.zero), t(x, params.pos))
  }

  /** The four corner rules (nn, np, pn, pp): exactly the corner cells of the 3x3 grid,
      whatever the zero-set degrees are. */
  function Rules4(muTNeg: int, muTPos: int, muDNeg: int, muDPos: int): (r: seq<int>)
    ensures forall zT, zD :: var w := Rules9Min(Mu3(muTNeg, zT, muTPos), Mu3(muDNeg, zD, muDPos));
              r == [w[0], w[2], w[6], w[8]]
  {
    [Min(muTNeg, muDNeg), Min(muTNeg, muDPos), Min(muTPos, muDNeg), Min(muTPos, muDPos)]
  }

  /** `mul_q15` inside the aggregator: rounded product with no saturation. */
  function MulQ15(wI: int, gPct: int): int
  {
    (wI * PctToQ15(gPct) + 16384) / 32768
  }

  /** `aggregator`: the same gate, conversion and capped sums as the canonical aggregate
      but an unsaturated product; for weights in Q1.15 it returns the same sums. */
  function Aggregator(regMode: int, w: seq<int>, g: seq<int>): (r: Sums)
    requires |w| == 9 && |g| == 9
    ensures r.sW <= Q15Max && r.sWg <= Q15Max
    ensures (forall k :: 0 <= k < 9 ==> 0 <= w[k] <= Q15Max) ==> r == Aggregate(regMode, w, g)
  {
    var gw := Gate(regMode, w);
    var wg := seq(9, k requires 0 <= k < 9 => MulQ15(gw[k], g[k]));
    var sw := Sum9(gw);
    var swg := Sum9(wg);
    var res := Sums(Min(sw, 32767), Min(swg, 32767));
    if forall k :: 0 <= k < 9 ==> 0 <= w[k] <= Q15Max then
      ProductsAgree(gw, g, wg);
      res
    else
      res
  }

  lemma ProductsAgree(gw: seq<int>, g: seq<int>, wg: seq<int>)
    requires |gw| == 9 && |g| == 9 && |wg| == 9
    requires forall k :: 0 <= k < 9 ==> 0 <= gw[k] <= Q15Max
    requires forall k :: 0 <= k < 9 ==> wg[k] == MulQ15(gw[k], g[k])
    ensures wg == WeightedTerms(gw, g)
  {
    forall k | 0 <= k < 9
      ensures wg[k] == MulQ15Round(gw[k], G2Q15Percent(g[k]))
    {
      MulBelowFactor(gw[k], PctToQ15(g[k]));
    }
  }

  /** The estimator state; its parameters come with every step. */
  datatype DtEstimator = DtEstimator(tPrev: int, dTPrevQ15: int, valid: bool)

  datatype RefStepOut = RefStepOut(dT: int, valid: bool, next: DtEstimator)

  const NewDtEstimator := DtEstimator(0, 0, false)

  /** `reset()`. */
  function Reset(e: DtEstimator): (r: DtEstimator)
    ensures r == NewDtEstimator
  {
    DtEstimator(0, 0, false)
  }

  /** `init_pulse(T)`: T saturated (not wrapped) to 8 bits, state cleared, valid dropped. */
  function InitPulse(e: DtEstimator, tCur: int): (r: DtEstimator)
    ensures -128 <= r.tPrev <= 127 && r.dTPrevQ15 == 0 && !r.valid
    ensures tCur < -128 ==> r.tPrev == -128
    ensures tCur > 127 ==> r.tPrev == 127
    ensures -128 <= tCur <= 127 ==> r.tPrev == tCur
  {
    DtEstimator(ClampS8(tCur), 0, false)
  }

  /** `_clip_q15`: clamp to ±(d_max << 7). Values in range pass unchanged and others
      saturate to the nearer bound; with a negative d_max the upper test wins, so every
      value ends at d_max·128. */
  function ClipQ15(x: int, dMax: int): (r: int)
    ensures dMax >= 0 ==> -dMax * 128 <= r <= dMax * 128
    ensures -dMax * 128 <= x <= dMax * 128 ==> r == x
    ensures x > dMax * 128 ==> r == dMax * 128
    ensures x <= dMax * 128 && x < -dMax * 128 ==> r == -dMax * 128
  {
    var lim := dMax * 128;
    if x > lim then lim else if x < -lim then -lim else x
  }

  /** `delta_q15 >> k_dt`, or `<< -k_dt` for a negative k_dt, in unbounded integers. */
  function ShiftDelta(deltaQ15: int, kDt: int): int
  {
    if kDt >= 0 then deltaQ15 / Pow2(kDt) else deltaQ15 * Pow2(-kDt)
  }

  /** `dT_prev·(inv_a << 8) + delta_scaled·(alpha << 8)` in unbounded integers. */
  function Blend(dTPrevQ15: int, deltaScaled: int, alpha: int): int
  {
    dTPrevQ15 * ((256 - alpha) * 256) + deltaScaled * (alpha * 256)
  }

  /** The filter arithmetic of one step in unbounded integers: the new, clipped state. */
  function RefFilter(dTPrevQ15: int, deltaQ8: int, alpha: int, kDt: int, dMax: int): int
  {
    ClipQ15(Blend(dTPrevQ15, ShiftDelta(deltaQ8 * 128, kDt), alpha) / 65536, dMax)
  }

  /** `step(T, alpha, k_dt, d_max)`: always reports valid, with no lag; the output is the
      floor of the state over 128, saturated to s8, and with 0 <= d_max <= 127 it is
      within ±d_max while the state stays within ±d_max·128. */
  function Step(e: DtEstimator, tCur: int, alpha: int, kDt: int, dMax: int): (r: RefStepOut)
    ensures r.valid && r.next.valid
    ensures -128 <= r.dT <= 127
    ensures r.next.tPrev == ClampS8(tCur)
    ensures dMax >= 0 ==> -dMax * 128 <= r.next.dTPrevQ15 <= dMax * 128
    ensures 0 <= dMax <= 127 ==> -dMax <= r.dT <= dMax && r.dT == r.next.dTPrevQ15 / 128
  {
    var deltaQ8 := ClampS8(tCur) - ClampS8(e.tPrev);
    var dTNew := RefFilter(e.dTPrevQ15, deltaQ8, alpha, kDt, dMax);
    RefStepOut(ClampS8(dTNew / 128), true, DtEstimator(ClampS8(tCur), dTNew, true))
  }

  /** Every clamp of the model is `clip_to_range` on its own interval: `clamp_s8` on
      [-128, 127], `_clamp_u16` on [0, 65535], `_clip_q15` on ±d_max·128, and the exact
      filter's 16-bit state clamp on ±hi. */
  lemma ClampsAreClipToRange(x: int, dMax: int, hi: int)
    requires 0 <= hi <= 255 * 128
    ensures ClampS8(x) == ClipToRange(x, -128, 127)
    ensures ClampU16(x) == ClipToRange(x, 0, 0xFFFF)
    ensures dMax >= 0 ==> ClipQ15(x, dMax) == ClipToRange(x, -dMax * 128, dMax * 128)
    ensures Estimators.ClampState(x, hi) == ClipToRange(x, -hi, hi)
  {
  }

  /** Right after `init_pulse(T)` a step at the same T returns 0. */
  lemma NoSpikeAfterInit(e: DtEstimator, t: int, alpha: int, kDt: int, dMax: int)
    requires dMax >= 0
    ensures Step(InitPulse(e, t), t, alpha, kDt, dMax).dT == 0
  {
    var e1 := InitPulse(e, t);
    assert ClampS8(t) - ClampS8(e1.tPrev) == 0;
    if kDt >= 0 {
      assert 0 / Pow2(kDt) == 0;
    }
  }

  lemma DivShrinks(x: int, m: int)
    requires m >= 1
    ensures x >= 0 ==> 0 <= x / m <= x
    ensures x < 0 ==> x <= x / m < 0
  {
    var q := x / m;
    DivFacts(x, m);
    if q >= 0 {
      MulLeft(q, 1, m);
    } else {
      MulLeft(-(q + 1), 1, m);
      assert (q + 1) * m <= q + 1;
      assert q * m + m == (q + 1) * m;
    }
  }

  lemma AccumulatorFits(x: int, y: int, alpha: int)
    requires -32640 <= x <= 32640 && -32640 <= y <= 32640 && 0 <= alpha <= 255
    ensures -2139095040 <= x * ((256 - alpha) * 256) + y * (alpha * 256) <= 2139095040
  {
    var k := 256 - alpha;
    MulLeft(k, -32640, x);
    MulLeft(k, x, 32640);
    MulLeft(alpha, -32640, y);
    MulLeft(alpha, y, 32640);
    assert x * (k * 256) == 256 * (k * x);
    assert y * (alpha * 256) == 256 * (alpha * y);
  }

  /** The 9-bit temperature difference of two s8 readings is not wrapped. */
  lemma DeltaStage(t: int, tPrev: int)
    requires -128 <= t <= 127 && -128 <= tPrev <= 127
    ensures Estimators.DeltaQ8(t, tPrev) == t - tPrev
  {
    Pow2Values();
  }

  /** Neither the 16-bit delta nor its right shift by k_dt wraps. */
  lemma ShiftStage(delta: int, kDt: int)
    requires -255 <= delta <= 255 && 0 <= kDt <= 31
    ensures Estimators.ScaleDelta(delta, kDt) == ShiftDelta(delta * 128, kDt)
    ensures -32640 <= ShiftDelta(delta * 128, kDt) <= 32640
  {
    Pow2Values();
    var dq := delta * 128;
    assert Sxt(dq, 16) == dq;
    assert Sxt(Sxt(dq, 16), 16) == dq;
    DivShrinks(dq, Pow2(kDt));
    assert Sxt(dq / Pow2(kDt), 16) == dq / Pow2(kDt);
  }

  /** The 24-bit coefficients and the 32-bit accumulator do not wrap. */
  lemma AccumulatorStage(x: int, y: int, alpha: int)
    requires -32640 <= x <= 32640 && -32640 <= y <= 32640 && 0 <= alpha <= 255
    ensures Estimators.Accumulate(x, y, alpha) == Blend(x, y, alpha)
    ensures -32640 <= Blend(x, y, alpha) / 65536 <= 32640
    ensures Sxt(Blend(x, y, alpha) / 65536, 16) == Blend(x, y, alpha) / 65536
  {
    Pow2Values();
    assert Mask(alpha, 8) == alpha;
    assert Mask(256 - alpha, 16) == 256 - alpha;
    assert Mask(alpha, 16) == alpha;
    var f1 := Sxt((256 - alpha) * 256, 24);
    var f2 := Sxt(alpha * 256, 24);
    assert f1 == (256 - alpha) * 256;
    assert f2 == alpha * 256;
    assert Sxt(x, 16) == x && Sxt(y, 16) == y;
    AccumulatorFits(x, y, alpha);
    var sum := x * ((256 - alpha) * 256) + y * (alpha * 256);
    assert Sxt(x, 16) * f1 + Sxt(y, 16) * f2 == sum;
    assert Sxt(sum, 32) == sum;
  }

  /** The 16-bit clamp against ±d_max·128 is `_clip_q15` once nothing wraps. */
  lemma ClampStage(v: int, dMax: int)
    requires -32768 <= v <= 32767 && 0 <= dMax <= 127
    ensures Estimators.ClampState(v, dMax * 128) == ClipQ15(v, dMax)
  {
    Pow2Values();
    var hi := dMax * 128;
    assert Sxt(-hi, 16) == -hi;
    var c1 := if v > hi then hi else v;
    var c2 := if c1 < -hi then -hi else c1;
    assert Sxt(c2, 16) == c2;
  }

  /** In the operating range no bus of the bit-exact filter wraps. */
  lemma ExactFilterNoWrap(p: Estimators.ExactParams, s: Estimators.ExactState, t: int)
    requires -128 <= t <= 127 && -128 <= s.tPrev <= 127 && -32640 <= s.dTPrevQ15 <= 32640
    requires 0 <= p.alpha <= 255 && 0 <= p.kDt <= 31 && 0 <= p.dMax <= 127
    ensures Estimators.ExactFilter(p, s, t) ==
            RefFilter(s.dTPrevQ15, t - s.tPrev, p.alpha, p.kDt, p.dMax)
  {
    var delta := Estimators.DeltaQ8(t, s.tPrev);
    DeltaStage(t, s.tPrev);
    ShiftStage(delta, p.kDt);
    var sd := Estimators.ScaleDelta(delta, p.kDt);
    var shifted := ShiftDelta(delta * 128, p.kDt);
    calc {
      Estimators.ExactFilter(p, s, t);
      Estimators.ClampState(Sxt(Estimators.Accumulate(s.dTPrevQ15, sd, p.alpha) / 65536, 16),
                            Estimators.DMaxQ15(p));
      { AccumulatorStage(s.dTPrevQ15, sd, p.alpha); }
      Estimators.ClampState(Blend(s.dTPrevQ15, sd, p.alpha) / 65536, p.dMax * 128);
      { AccumulatorStage(s.dTPrevQ15, sd, p.alpha);
        ClampStage(Blend(s.dTPrevQ15, sd, p.alpha) / 65536, p.dMax); }
      ClipQ15(Blend(s.dTPrevQ15, shifted, p.alpha) / 65536, p.dMax);
      { assert delta * 128 == (t - s.tPrev) * 128; }
      RefFilter(s.dTPrevQ15, t - s.tPrev, p.alpha, p.kDt, p.dMax);
    }
  }

  /** In the operating range (s8 temperatures, alpha in [0, 255], k_dt in [0, 31],
      d_max in [0, 127], a state within ±255·128) no hardware bus of the bit-exact filter
      wraps, so this saturating estimator computes the same new state as the bit-exact
      one and the same output as its floor-slice copy. */
  lemma MatchesExactFilter(e: DtEstimator, t: int, alpha: int, kDt: int, dMax: int)
    requires -128 <= t <= 127 && -128 <= e.tPrev <= 127 && -32640 <= e.dTPrevQ15 <= 32640
    requires 0 <= alpha <= 255 && 0 <= kDt <= 31 && 0 <= dMax <= 127
    ensures var x := Estimators.Step(Estimators.Exact(Estimators.FloorSlice,
                                       Estimators.ExactParams(alpha, kDt, dMax),
                                       Estimators.ExactState(e.tPrev, e.dTPrevQ15, e.valid)), t);
            var r := Step(e, t, alpha, kDt, dMax);
            r.dT == x.dT && r.next.tPrev == x.next.state.tPrev &&
            r.next.dTPrevQ15 == x.next.state.dTPrevQ15
  {
    var p := Estimators.ExactParams(alpha, kDt, dMax);
    var s := Estimators.ExactState(e.tPrev, e.dTPrevQ15, e.valid);
    var clip := RefFilter(e.dTPrevQ15, t - e.tPrev, alpha, kDt, dMax);
    StepInRange(e, t, alpha, kDt, dMax);
    ExactFilterNoWrap(p, s, t);
    Pow2Values();
    assert Sxt(t, 8) == t;
  }

  /** In range, a step's new state is the filter formula on the plain difference. */
  lemma StepInRange(e: DtEstimator, t: int, alpha: int, kDt: int, dMax: int)
    requires -128 <= t <= 127 && -128 <= e.tPrev <= 127 && 0 <= dMax <= 127
    ensures var r := Step(e, t, alpha, kDt, dMax);
            r.next.dTPrevQ15 == RefFilter(e.dTPrevQ15, t - e.tPrev, alpha, kDt, dMax) &&
            r.next.tPrev == t && r.dT == r.next.dTPrevQ15 / 128
  {
    assert ClampS8(t) - ClampS8(e.tPrev) == t - e.tPrev;
  }

  /** `coproc_step`'s result and the estimator as the call leaves it. */
  datatype RefOut = RefOut(g: int, dTUsed: int, muT: Mu3, muD: Mu3, w: seq<int>,
                           sW: int, sWg: int, est: Option<DtEstimator>)

  /** `coproc_step`. Internal dT needs an estimator (the source asserts one is present);
      external dT is saturated to s8, and so is T, before fuzzifying. */
  function CoprocStep(t: int, dTExt: int, useInternalDt: bool, tParams: MfSet3, dTParams: MfSet3,
                      g: seq<int>, regMode: int, est: Option<DtEstimator>,
                      alpha: int, kDt: int, dMax: int): (r: Result<RefOut>)
    requires |g| == 9
    ensures r.Err? <==> useInternalDt && est.None?
    ensures r.Err? ==> r.error == MissingEstimator
    ensures r.Ok? ==> 0 <= r.value.g <= 100 && -128 <= r.value.dTUsed <= 127
    ensures r.Ok? && !useInternalDt ==> r.value.dTUsed == ClampS8(dTExt) && r.value.est == est
    ensures r.Ok? && useInternalDt ==>
              r.value.est == Some(Step(est.value, t, alpha, kDt, dMax).next) &&
              r.value.dTUsed == Step(est.value, t, alpha, kDt, dMax).dT
    ensures r.Ok? ==> r.value.muT == FuzzifierThree(ClampS8(t), tParams) &&
                      r.value.muD == FuzzifierThree(r.value.dTUsed, dTParams) &&
                      r.value.w == Rules9Min(r.value.muT, r.value.muD) &&
                      Sums(r.value.sW, r.value.sWg) == Aggregator(regMode, r.value.w, g) &&
                      r.value.g == Variant.DefuzzTrunc(r.value.sW, r.value.sWg)
    ensures r.Ok? ==> 0 <= r.value.sWg <= r.value.sW <= Q15Max
  {
    if useInternalDt && est.None? then Err(MissingEstimator)
    else if useInternalDt then
      var stepped := Step(est.value, t, alpha, kDt, dMax);
      Ok(Infer(t, stepped.dT, tParams, dTParams, g, regMode, Some(stepped.next)))
    else
      Ok(Infer(t, ClampS8(dTExt), tParams, dTParams, g, regMode, est))
  }

  /** The chain of `coproc_step` once dT is chosen: fuzzify both saturated inputs, fire
      the nine rules, aggregate and defuzzify. */
  function Infer(t: int, dTVal: int, tParams: MfSet3, dTParams: MfSet3, g: seq<int>,
                 regMode: int, est: Option<DtEstimator>): (r: RefOut)
    requires |g| == 9
    ensures r.dTUsed == dTVal && r.est == est
    ensures r.muT == FuzzifierThree(ClampS8(t), tParams) &&
            r.muD == FuzzifierThree(ClampS8(dTVal), dTParams) &&
            r.w == Rules9Min(r.muT, r.muD) &&
            Sums(r.sW, r.sWg) == Aggregator(regMode, r.w, g) &&
            r.g == Variant.DefuzzTrunc(r.sW, r.sWg)
    ensures 0 <= r.sWg <= r.sW <= Q15Max && 0 <= r.g <= 100
  {
    var muT := FuzzifierThree(ClampS8(t), tParams);
    var muD := FuzzifierThree(ClampS8(dTVal), dTParams);
    var w := Rules9Min(muT, muD);
    var sums := Aggregator(regMode, w, g);
    ChainSumsOrdered(muT, muD, g, regMode);
    RefOut(Variant.DefuzzTrunc(sums.sW, sums.sWg), dTVal, muT, muD, w, sums.sW, sums.sWg, est)
  }

  /** Weights fired from Q1.15 degrees aggregate to sums with 0 <= S_wg <= S_w. */
  lemma ChainSumsOrdered(muT: Mu3, muD: Mu3, g: seq<int>, regMode: int)
    requires |g| == 9
    requires forall i :: 0 <= i < 3 ==> 0 <= muT.At(i) <= Q15Max
    requires forall i :: 0 <= i < 3 ==> 0 <= muD.At(i) <= Q15Max
    ensures var s := Aggregator(regMode, Rules9Min(muT, muD), g);
            0 <= s.sWg <= s.sW <= Q15Max
  {
    var w := Rules9Min(muT, muD);
    Coprocessor.WeightsInQ15(muT, muD, w);
    Coprocessor.GridSumsOrdered(muT, muD, g, regMode);
  }

  /** Inputs are saturated, not wrapped: an out-of-range T or dT acts as the nearest s8 value. */
  lemma SaturatesInputs(t: int, dTExt: int, useInternalDt: bool, tParams: MfSet3, dTParams: MfSet3,
                        g: seq<int>, regMode: int, est: Option<DtEstimator>,
                        alpha: int, kDt: int, dMax: int)
    requires |g| == 9
    ensures CoprocStep(t, dTExt, useInternalDt, tParams, dTParams, g, regMode, est, alpha, kDt, dMax) ==
            CoprocStep(ClampS8(t), ClampS8(dTExt), useInternalDt, tParams, dTParams, g, regMode, est, alpha, kDt, dMax)
  {
    assert ClampS8(ClampS8(t)) == ClampS8(t);
    assert ClampS8(ClampS8(dTExt)) == ClampS8(dTExt);
    if useInternalDt && est.Some? {
      assert Step(est.value, t, alpha, kDt, dMax) == Step(est.value, ClampS8(t), alpha, kDt, dMax);
    }
  }

  /** With an external dT, s8 inputs and s8 thresholds, this copy gives the same G and sums
      as the second fuzzy_refmodel copy's `top_step`. */
  lemma MatchesVariantTopStep(t: int, dT: int, tParams: MfSet3, dTParams: MfSet3,
                              s: Coprocessor.Singletons, regMode: int)
    requires -128 <= t <= 127 && -128 <= dT <= 127 && tParams.InS8() && dTParams.InS8()
    ensures var r := CoprocStep(t, dT, false, tParams, dTParams, s.AsSeq(), regMode, None, 32, 3, 64);
            var v := Variant.TopStep(t, dT, Coprocessor.Config(tParams, dTParams, s), regMode, 0, None);
            r.Ok? && v.Ok? && r.value.g == v.value.result.g &&
            r.value.sW == v.value.result.sW && r.value.sWg == v.value.result.sWg
  {
    var muT := Fuzzify(t, tParams);
    var muD := Fuzzify(dT, dTParams);
    var w := Rules9Min(muT, muD);
    Coprocessor.WeightsInQ15(muT, muD, w);
  }
}
