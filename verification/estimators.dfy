/** The derivative estimators that can feed dT into the coordinator: the bit-exact
    port of the hardware filter (`EstimatorRTLExact`) and the lightweight placeholder
    (`SimpleDtEstimator`). Both fuzzy_refmodel copies define them; the exact one
    differs between copies only in how the 8-bit output is sliced. */
module Estimators {
  import opened FixedPoint

  /** How the 8-bit output is taken from the Q1.15 filter state: the canonical copy
      rounds negative states toward zero, the other copy takes the plain floor slice. */
  datatype OutputSlice = TruncTowardZero | FloorSlice

  /** Constructor arguments after the constructor's own normalisation. */
  datatype ExactParams = ExactParams(alpha: int, kDt: int, dMax: int)

  /** The hardware register bank: previous T (s8), filter state (s16), valid flag. */
  datatype ExactState = ExactState(tPrev: int, dTPrevQ15: int, dtValid: bool)

  datatype SimpleParams = SimpleParams(alphaP: int, kdtP: int, dmaxP: int)

  /** An estimator object: its class, constructor parameters and current state. */
  datatype Estimator =
    | Exact(slice: OutputSlice, params: ExactParams, state: ExactState)
    | Simple(sp: SimpleParams, prevT: int, inited: bool)

  /** What one `step` returns, together with the estimator after the call. */
  datatype StepOut = StepOut(dT: int, wasValid: bool, next: Estimator)

  predicate InS8(x: int) { -128 <= x <= 127 }
  predicate InS16(x: int) { -32768 <= x <= 32767 }

  /** `EstimatorRTLExact(alpha, k_dt, d_max)`: alpha and k_dt masked to 8 bits (so 256
      becomes 0 and -1 becomes 255), d_max read as signed 8-bit (so 200 becomes -56); the
      filter starts cleared and not valid. */
  function NewExact(slice: OutputSlice, alpha: int, kDt: int, dMax: int): (e: Estimator)
    ensures e.Exact? && e.slice == slice
    ensures 0 <= e.params.alpha <= 255 && 0 <= e.params.kDt <= 255 && InS8(e.params.dMax)
    ensures (alpha - e.params.alpha) % 256 == 0 && (kDt - e.params.kDt) % 256 == 0
    ensures (dMax - e.params.dMax) % 256 == 0
    ensures 0 <= alpha <= 255 ==> e.params.alpha == alpha
    ensures 0 <= kDt <= 255 ==> e.params.kDt == kDt
    ensures InS8(dMax) ==> e.params.dMax == dMax
    ensures e.state == ExactState(0, 0, false)
  {
    Pow2Values();
    Exact(slice, ExactParams(Mask(alpha, 8), Mask(kDt, 8), Sxt(dMax, 8)), ExactState(0, 0, false))
  }

  /** `SimpleDtEstimator(alpha_p, kdt_p, dmax_p)`: starts un-initialised with prev_T = 0. */
  function NewSimple(alphaP: int, kdtP: int, dmaxP: int): (e: Estimator)
    ensures e.Simple? && e.sp == SimpleParams(alphaP, kdtP, dmaxP)
    ensures e.prevT == 0 && !e.inited
  {
    Simple(SimpleParams(alphaP, kdtP, dmaxP), 0, false)
  }

  /** `reset()`: back to the constructor's state, parameters kept. */
  function Reset(e: Estimator): (r: Estimator)
    ensures r.Exact? == e.Exact?
    ensures r.Exact? ==> r.slice == e.slice && r.params == e.params && r.state == ExactState(0, 0, false)
    ensures r.Simple? ==> r.sp == e.sp && r.prevT == 0 && !r.inited
  {
    match e
    case Exact(slice, p, _) => Exact(slice, p, ExactState(0, 0, false))
    case Simple(sp, _, _) => Simple(sp, 0, false)
  }

  /** `init_pulse(T)`: the exact filter captures T wrapped to 8 bits, clears its state and
      drops valid; the simple one captures T unchanged and counts as initialised. */
  function InitPulse(e: Estimator, tCur: int): (r: Estimator)
    ensures r.Exact? == e.Exact?
    ensures r.Exact? ==> (r.slice == e.slice && r.params == e.params &&
                          r.state.dTPrevQ15 == 0 && !r.state.dtValid &&
                          InS8(r.state.tPrev) && (r.state.tPrev - tCur) % 256 == 0 &&
                          (InS8(tCur) ==> r.state.tPrev == tCur))
    ensures r.Simple? ==> r.sp == e.sp && r.prevT == tCur && r.inited
  {
    Pow2Values();
    match e
    case Exact(slice, p, _) => Exact(slice, p, ExactState(Sxt(tCur, 8), 0, false))
    case Simple(sp, _, _) => Simple(sp, tCur, true)
  }

  /** The clamp bound of the exact filter in Q1.15: `{d_max[7:0], 7'b0}`. The low eight
      bits of d_max are read back as unsigned, so a negative stored d_max (a constructor
      argument in [128, 255]) gives a bound of (d_max + 256)·128, not |d_max|·128. */
  function DMaxQ15(p: ExactParams): (h: int)
    ensures 0 <= h <= 255 * 128
    ensures h == Mask(p.dMax, 8) * 128
    ensures 0 <= p.dMax <= 127 ==> h == p.dMax * 128
    ensures -128 <= p.dMax < 0 ==> h == (p.dMax + 256) * 128
  {
    Pow2Values();
    Sxt(Mask(p.dMax, 8) * 128, 16)
  }

  /** The 9-bit difference of the 8-bit current and previous temperatures; on s8 inputs
      it is the plain difference (`RefModel.DeltaStage`). */
  function DeltaQ8(tCur: int, tPrev: int): (r: int)
    ensures -256 <= r < 256
  {
    Pow2Values();
    Sxt(Sxt(Sxt(tCur, 8), 8) - Sxt(tPrev, 8), 9)
  }

  /** The delta moved to Q1.15 in 16 bits and shifted right by k_dt clamped to [0, 31]; for
      a delta within ±255 and k_dt in [0, 31] neither step wraps (`RefModel.ShiftStage`). */
  function ScaleDelta(deltaQ8: int, kDt: int): (r: int)
    ensures InS16(r)
  {
    Pow2Values();
    var deltaQ15 := Sxt(deltaQ8 * 128, 16);
    var sh := Min(Max(kDt, 0), 31);
    Sxt(Sxt(deltaQ15, 16) / Pow2(sh), 16)
  }

  /** The 32-bit accumulator `dT_prev·(256-alpha)·256 + scaled·alpha·256`, both
      multiplicands 24 bits wide; for operands within ±255·128 and alpha in [0, 255] it is
      that sum without wrapping (`RefModel.AccumulatorStage`). */
  function Accumulate(dTPrevQ15: int, deltaScaled: int, alpha: int): (r: int)
    ensures -Pow2(31) <= r < Pow2(31)
  {
    Pow2Values();
    var alphaQ := Mask(alpha, 8);
    var invA := Mask(256 - alphaQ, 16);
    var term1 := Sxt(dTPrevQ15, 16) * Sxt(invA * 256, 24);
    var term2 := Sxt(deltaScaled, 16) * Sxt(Mask(alphaQ, 16) * 256, 24);
    Sxt(term1 + term2, 32)
  }

  /** The clamp of the new 16-bit state to [-hi, hi] (the low bound itself taken in
      16 bits): states in range are kept, others saturate to the nearer bound. */
  function ClampState(dTNew: int, hi: int): (clip: int)
    requires 0 <= hi <= 255 * 128
    ensures InS16(clip)
    ensures -hi <= clip <= hi
    ensures -hi <= dTNew <= hi ==> clip == dTNew
    ensures dTNew > hi ==> clip == hi
    ensures dTNew < -hi ==> clip == -hi
  {
    Pow2Values();
    var lo := Sxt(-hi, 16);
    var c1 := if dTNew > hi then hi else dTNew;
    var c2 := if c1 < lo then lo else c1;
    Sxt(c2, 16)
  }

  /** One update of the exact single-pole filter, with every intermediate wrapped to its
      hardware bus width: 9-bit delta, 16-bit fractional values, 24-bit multiplicands and a
      32-bit accumulator. The result is the new state, clamped to ±DMaxQ15. In the
      operating range it equals the unbounded filter formula (`RefModel.ExactFilterNoWrap`). */
  function ExactFilter(p: ExactParams, s: ExactState, tCur: int): (clip: int)
    ensures InS16(clip)
    ensures -DMaxQ15(p) <= clip <= DMaxQ15(p)
  {
    Pow2Values();
    var deltaScaled := ScaleDelta(DeltaQ8(tCur, s.tPrev), p.kDt);
    var sum32 := Accumulate(s.dTPrevQ15, deltaScaled, p.alpha);
    ClampState(Sxt(sum32 / 65536, 16), DMaxQ15(p))
  }

  /** Division by 128 rounding toward zero. */
  function TruncDiv128(x: int): int
  {
    if x < 0 then -((-x) / 128) else x / 128
  }

  /** The state divided by 128 before it is cut to 8 bits: rounding toward zero for the
      canonical slice, rounding down for the floor slice. */
  function SliceQuotient(slice: OutputSlice, clip: int): int
  {
    if slice == TruncTowardZero then TruncDiv128(clip) else clip / 128
  }

  /** The 8-bit output taken from a 16-bit filter state: the quotient of the state by 128,
      wrapped to signed 8 bits. For a state within ±127·128 (any d_max in [0, 127])
      nothing wraps. */
  function SliceOut(slice: OutputSlice, clip: int): (r: int)
    ensures InS8(r)
    ensures (SliceQuotient(slice, clip) - r) % 256 == 0
    ensures -127 * 128 <= clip <= 127 * 128 ==> r == SliceQuotient(slice, clip)
  {
    if slice == TruncTowardZero && clip < 0 then
      CeilIsTrunc(clip);
      WrapS8((clip + 127) / 128)
    else
      WrapS8(clip / 128)
  }

  /** `sxt(q & 0xFF, 8)`: the signed 8-bit value congruent to q modulo 256. */
  function WrapS8(q: int): (r: int)
    ensures InS8(r) && (q - r) % 256 == 0
    ensures InS8(q) ==> r == q
  {
    Pow2Values();
    var u := Mask(q, 8);
    var r := Sxt(u, 8);
    ModAdd(q - u, u - r, 256);
    r
  }

  lemma CeilIsTrunc(x: int)
    requires x < 0
    ensures (x + 127) / 128 == -((-x) / 128)
  {
  }

  /** One `step(T)`. The exact filter returns the sliced new state with the valid flag as
      it was BEFORE the call, then sets valid: the flag lags one step. The simple
      estimator's first step only captures T; later steps return valid with the T
      difference shifted down by kdt_p, scaled by alpha_p/256 (both rounding down),
      saturated to s8 and clipped to ±dmax_p. The two clip tests run upper first, so a
      negative dmax_p always yields -dmax_p. */
  function Step(e: Estimator, tCur: int): (r: StepOut)
    ensures r.next.Exact? == e.Exact?
    ensures InS8(r.dT) || (e.Simple? && e.inited && r.wasValid)
    ensures e.Exact? ==> (r.next.slice == e.slice && r.next.params == e.params &&
                          r.wasValid == e.state.dtValid && r.next.state.dtValid &&
                          r.next.state.tPrev == Sxt(tCur, 8) &&
                          r.next.state.dTPrevQ15 == ExactFilter(e.params, e.state, tCur) &&
                          r.dT == SliceOut(e.slice, r.next.state.dTPrevQ15))
    ensures e.Simple? ==> (r.next.sp == e.sp && r.next.prevT == tCur && r.next.inited &&
                           r.wasValid == e.inited && (!e.inited ==> r.dT == 0))
    ensures e.Simple? && e.inited ==>
              var filt := ClampS8(e.sp.alphaP * ((tCur - e.prevT) / Pow2(Max(e.sp.kdtP, 0))) / 256);
              r.dT == (if e.sp.dmaxP >= 0 then ClipToRange(filt, -e.sp.dmaxP, e.sp.dmaxP)
                       else -e.sp.dmaxP)
  {
    Pow2Values();
    match e
    case Exact(slice, p, s) =>
      var clip := ExactFilter(p, s, tCur);
      StepOut(SliceOut(slice, clip), s.dtValid, Exact(slice, p, ExactState(Sxt(tCur, 8), clip, true)))
    case Simple(sp, prevT, inited) =>
      if !inited then
        StepOut(0, false, Simple(sp, tCur, true))
      else
        var raw := (tCur - prevT) / Pow2(Max(sp.kdtP, 0));
        var filt := (sp.alphaP * raw) / 256;
        var dT0 := ClampS8(filt);
        var dT1 := if dT0 > sp.dmaxP then sp.dmaxP else dT0;
        var dT2 := if dT1 < -sp.dmaxP then -sp.dmaxP else dT1;
        StepOut(dT2, true, Simple(sp, tCur, true))
  }

  /** Clipping bound of the exact filter: with 0 <= d_max <= 127 the stored state stays
      within ±d_max·128 and the returned dT within ±d_max. */
  lemma ExactOutputBounded(e: Estimator, tCur: int)
    requires e.Exact? && 0 <= e.params.dMax <= 127
    ensures var r := Step(e, tCur);
              -e.params.dMax * 128 <= r.next.state.dTPrevQ15 <= e.params.dMax * 128 &&
              -e.params.dMax <= r.dT <= e.params.dMax
  {
    var clip := ExactFilter(e.params, e.state, tCur);
    assert DMaxQ15(e.params) == e.params.dMax * 128;
    SliceWithin(e.slice, clip, e.params.dMax);
  }

  /** Both slices of a state within ±d·128 lie within ±d. */
  lemma SliceWithin(slice: OutputSlice, clip: int, d: int)
    requires 0 <= d <= 127 && -d * 128 <= clip <= d * 128
    ensures -d <= SliceOut(slice, clip) <= d
  {
    if slice == TruncTowardZero && clip < 0 {
      assert TruncDiv128(clip) == -((-clip) / 128);
    }
  }

  /** The two output slices agree on non-negative states and on multiples of 128;
      otherwise the canonical one is exactly one above the floor slice. */
  lemma SlicesDifferByRounding(clip: int)
    requires -127 * 128 <= clip <= 127 * 128
    ensures SliceOut(FloorSlice, clip) <= SliceOut(TruncTowardZero, clip) <= SliceOut(FloorSlice, clip) + 1
    ensures SliceOut(FloorSlice, clip) == SliceOut(TruncTowardZero, clip) <==> clip >= 0 || clip % 128 == 0
  {
    if clip < 0 {
      assert TruncDiv128(clip) == -((-clip) / 128);
      if clip % 128 == 0 {
        assert clip / 128 == -((-clip) / 128);
      } else {
        assert clip / 128 == -((-clip) / 128) - 1;
      }
    }
  }

  /** A state of at least 128·128 wraps to a negative output, whichever slice is used. */
  lemma WrappedSliceIsNegative(slice: OutputSlice, clip: int)
    requires 128 * 128 <= clip < 256 * 128
    ensures SliceOut(slice, clip) == clip / 128 - 256
  {
    var q := clip / 128;
    var r := SliceOut(slice, clip);
    assert SliceQuotient(slice, clip) == q;
    ModUnique(q - r, 256, (q - r) / 256, 0);
  }

  /** `EstimatorRTLExact(255, 0, 200)`: d_max = 200 is stored as -56, but the clamp bound
      reads its low eight bits back as 200. After `init_pulse(-128)` a jump to T = 127
      drives the state to 200·128 and the output reads -56: a steep rise comes out as a
      steep fall. */
  lemma WideDMaxInvertsOutput(slice: OutputSlice)
    ensures var e := InitPulse(NewExact(slice, 255, 0, 200), -128);
            var r := Step(e, 127);
            e.params.dMax == -56 && DMaxQ15(e.params) == 200 * 128 &&
            r.next.state.dTPrevQ15 == 200 * 128 && r.dT == -56
  {
    Pow2Values();
    var e := InitPulse(NewExact(slice, 255, 0, 200), -128);
    assert e.params == ExactParams(255, 0, -56);
    assert e.state == ExactState(-128, 0, false);
    assert DeltaQ8(127, -128) == 255;
    assert ScaleDelta(255, 0) == 32640;
    assert Accumulate(0, 32640, 255) == 32640 * 65280;
    assert Sxt(32640 * 65280 / 65536, 16) == 32512;
    assert ExactFilter(e.params, e.state, 127) == 25600;
    WrappedSliceIsNegative(slice, 25600);
  }

  /** After `init_pulse(T)` a step at the same T returns 0 with the flag still down, and a
      second such step returns 0 with the flag up: initialisation causes no spike. */
  lemma NoSpikeAfterInit(e: Estimator, t: int)
    requires e.Exact?
    ensures var r1 := Step(InitPulse(e, t), t);
              r1.dT == 0 && !r1.wasValid && r1.next.state.dTPrevQ15 == 0 &&
              var r2 := Step(r1.next, t);
              r2.dT == 0 && r2.wasValid && r2.next.state.dTPrevQ15 == 0
  {
    Pow2Values();
    var e1 := InitPulse(e, t);
    ZeroDeltaKeepsZero(e1.params, e1.state, t);
    var r1 := Step(e1, t);
    ZeroDeltaKeepsZero(r1.next.params, r1.next.state, t);
  }

  /** With no change in T and a cleared filter, the filter stays cleared. */
  lemma ZeroDeltaKeepsZero(p: ExactParams, s: ExactState, t: int)
    requires s.dTPrevQ15 == 0 && s.tPrev == Sxt(t, 8)
    ensures ExactFilter(p, s, t) == 0
  {
    Pow2Values();
    assert Sxt(Sxt(t, 8), 8) == Sxt(t, 8);
    assert DeltaQ8(t, s.tPrev) == 0;
    var sh := Min(Max(p.kDt, 0), 31);
    assert 0 / Pow2(sh) == 0;
    assert ScaleDelta(0, p.kDt) == 0;
    assert Accumulate(0, 0, p.alpha) == 0;
  }

  /** The simple estimator, once initialised, returns dT clamped to ±dmax_p and to s8. */
  lemma SimpleOutputBounded(e: Estimator, tCur: int)
    requires e.Simple? && e.inited && e.sp.dmaxP >= 0
    ensures var r := Step(e, tCur);
              r.wasValid && -e.sp.dmaxP <= r.dT <= e.sp.dmaxP && InS8(r.dT)
  {
  }
}
