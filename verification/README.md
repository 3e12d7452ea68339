# Fuzzy-logic coprocessor reference model, in Dafny

This project models the software reference model of a Sugeno (zero-order) fuzzy-logic
coprocessor for temperature control. One step works as follows:

- It takes a temperature `T` and its rate of change `dT`, both signed 8-bit.
- It fuzzifies each of them into three trapezoidal sets (neg, zero, pos), in the unsigned
  Q1.15 fixed-point format.
- It fires a 3x3 grid of rules with the `min` t-norm.
- It aggregates the rule weights against nine singleton percentages. It does this either
  over the four corner rules only (`reg_mode` 0) or over all nine (`reg_mode` 1).
- It defuzzifies the result into an output `G` between 0 and 100 percent.

`dT` is either given from outside or produced by a derivative estimator. The estimator is
a single-pole filter that reproduces the hardware's bus widths bit for bit.

The repository holds three copies of this model, and all three are modelled:

| copy | modules |
|---|---|
| `final/ref/fuzzy_refmodel.py`, the canonical copy | `FixedPoint`, `Membership`, `Inference`, `Estimators`, `Coprocessor`, `IntParse` |
| `python/fuzzy_refmodel.py`, a second copy | `Variant`, plus `Estimators.FloorSlice` |
| `python/ref_model.py`, an independent third copy | `RefModel` |

The second copy computes differently from the canonical one in three places:

- its `defuzz` truncates instead of rounding;
- its bit-exact estimator takes the output as a floor slice;
- its `DEFAULT_CFG` uses the testbench thresholds.

Its configuration records also differ in form. Its `CoprocessorCfg` has no default
thresholds, so `mf_T` and `mf_dT` must be given (python/fuzzy_refmodel.py:113-117,
against final/ref/fuzzy_refmodel.py:132-147). Its dataclasses are not frozen. Neither
difference reaches the model: every configuration is an immutable `Coprocessor.Config`
built in full, and the second copy's `DEFAULT_CFG` is the same value as the canonical
constructor defaults (`Variant.DefaultCfgsDiffer`).

Three functions of `ref_model.py` are the canonical ones under another name and are
modelled by the same members: `rules9` (python/ref_model.py:98-104) is
`Inference.Rules9Min`, `defuzz` (python/ref_model.py:144-154) is the truncating
`Variant.DefuzzTrunc`, and `clamp_s8` (python/ref_model.py:14-19) is `FixedPoint.ClampS8`.

`Vectors` restates concrete cases from the repository's test suites as lemmas.
`Results` holds the `Option` and `Result` types that replace exceptions and `None`.

Each Python object with mutable state becomes an immutable datatype. Each of its methods
becomes a function that returns the new state alongside the result:

- `Estimators.Estimator` has two constructors: `Exact` stands for `EstimatorRTLExact` and
  `Simple` for `SimpleDtEstimator`.
- `RefModel.DtEstimator` stands for the estimator of `ref_model.py`.
- `top_step` and `coproc_step` return the estimator as the call leaves it.

Python's `>>` and `//` with a positive divisor are floor division, which Dafny's Euclidean
`/` equals. `& ((1 << b) - 1)` is `% 2^b`.

The source's `sxt` computes `(u ^ h) - h`, with `u` the masked value and `h` the sign bit.
It is modelled as `u - 2^bits` when the sign bit is set and as `u` otherwise; the two agree
for every masked `u`. Its contract gives the wrap-around in full: the result is the unique
value in `[-2^(bits-1), 2^(bits-1))` congruent to the input modulo `2^bits`.

Some of the code's behaviour differs from what its own comments and help texts suggest.
The model follows the code:

- The canonical `init_pulse` wraps `T` to 8 bits with `sxt`; it does not saturate it.
  Only `ref_model.py` saturates.
- The estimator's docstring describes the output as the bit slice `clip[14:7]`, marked
  "trunc" (final/ref/fuzzy_refmodel.py:207). For a negative state the bit slice is the
  floor of clip/128. The canonical code instead rounds negative states toward zero,
  through `(clip + 127) >> 7` (lines 269-273). Only the second copy takes the bit slice
  itself.
- `top_step` does not reject an out-of-range `dT`. Only the command-line parser
  `_parse_int` checks the signed 8-bit range, and `ref_model.py` saturates instead.
- `k_dt` is masked to 8 bits and the shift is clamped to `[0, 31]`
  (final/ref/fuzzy_refmodel.py:212, 240). The comment there says "practically 0..7",
  and the command-line help says "k_dt (0..7)" (line 343), but nothing enforces that range.
- `d_max` is read as a signed 8-bit value (line 213), and the clamp bound takes its low
  8 bits times 128 (line 255). The comment calls it a Q7.0 magnitude, but a `d_max` of
  128 to 255 becomes negative, and its bound is then its low byte times 128, up to
  255·128. A state above 127·128 then wraps negative in the 8-bit output slice.
  `Estimators.WideDMaxInvertsOutput` shows one such case: `d_max` 200 and a jump from
  -128 to 127 give the output -56.
- Threshold order `a <= b <= c <= d` is not enforced. Unordered thresholds go through the
  same branches.

## Model

| member | source | states |
|---|---|---|
| FixedPoint.SatQ15 | final/ref/fuzzy_refmodel.py:15-21 | Result in [0, 32767]; equal to the input exactly when the input is in range; below-range inputs give 0 and above-range inputs give 32767 |
| FixedPoint.ClampS8 | final/ref/fuzzy_refmodel.py:23-25 | Result in [-128, 127]; identity exactly on that range; otherwise the nearer bound |
| FixedPoint.ClipToRange | final/ref/fuzzy_refmodel.py:48-50 | For lo <= hi the result is in [lo, hi]; values in [lo, hi] pass unchanged, values below lo give lo and values above hi give hi; lo also wins when the range is empty |
| FixedPoint.G2Q15Percent | final/ref/fuzzy_refmodel.py:27-31 | A percentage in [0, 100] maps to the Q1.15 value nearest to g·32767/100, rounding half up; <= 0 gives 0 and >= 100 gives 32767 |
| FixedPoint.MulQ15Round | final/ref/fuzzy_refmodel.py:33-37 | For two Q1.15 fractions the result is their product rounded to nearest with ties up, and never exceeds either factor; always in [0, 32767] |
| FixedPoint.Mask | final/ref/fuzzy_refmodel.py:43-44 | The low `bits` bits as an unsigned value: the unique value in [0, 2^bits) congruent to the input modulo 2^bits; values already in range are unchanged |
| FixedPoint.Sxt | final/ref/fuzzy_refmodel.py:41-46 | Two's-complement reading: result in [-2^(bits-1), 2^(bits-1)), congruent to the input modulo 2^bits, and equal to it when it already fits |
| Membership.TrapezoidMu | final/ref/fuzzy_refmodel.py:54-70 | 0 outside the open support (a, d); 32767 on the plateau; on each ramp exactly the floor of the linear interpolation, so neither the zero-width guard nor the min cap ever changes the result |
| Membership.TrapezoidShape | final/ref/fuzzy_refmodel.py:54-70 | For ordered thresholds the degree never decreases up to the plateau's end and never increases from the plateau's start |
| Membership.Fuzzify | final/ref/fuzzy_refmodel.py:281-287 | Each of the three degrees is the trapezoid of the corresponding set (neg, zero, pos), in Q1.15 |
| Inference.Rules9Min | final/ref/fuzzy_refmodel.py:72-77 | Cell (i, j) of the grid is at most T-degree i and at most dT-degree j, and equals one of them |
| Inference.Gate | final/ref/fuzzy_refmodel.py:86-88 | reg_mode 0 zeroes exactly the five non-corner weights; every other mode keeps all nine |
| Inference.WeightedTerms | final/ref/fuzzy_refmodel.py:90-91 | Term k is weight k times singleton k (the percentage converted to Q1.15), rounded in Q1.15; each term is in [0, 32767] and at most its weight when the weight is a Q1.15 value |
| Inference.Aggregate | final/ref/fuzzy_refmodel.py:79-98 | S_w is the gated weight sum, or 32767 when the sum reaches it; S_wg is the sum of the weighted gated terms, capped at 32767; for Q1.15 weights 0 <= S_wg <= S_w |
| Inference.CornerModeIgnoresEdges | final/ref/fuzzy_refmodel.py:86-88 | In reg_mode 0, weight vectors that agree on the four corners aggregate identically |
| Inference.CornerModeIsGatedFullMode | final/ref/fuzzy_refmodel.py:86-98 | reg_mode 0 equals the nine-rule aggregation applied to the gated weights |
| Inference.NoRuleFiresMeansZeroSums | final/ref/fuzzy_refmodel.py:79-98 | For non-negative weights S_w is 0 exactly when every gated weight is 0, and then S_wg is 0 too |
| Inference.Defuzz | final/ref/fuzzy_refmodel.py:100-109 | Output always in [0, 100], and exactly 100 when S_wg >= S_w >= 1 (the clamp above 100). Its nearness to the exact centroid is `Inference.DefuzzNearExactRatio`; its values on the test pairs are `Vectors.RoundingDefuzzVectors` |
| Inference.DefuzzDenominatorGuard | final/ref/fuzzy_refmodel.py:102 | A weight sum below 1 acts as exactly 1 (epsilon guard) |
| Inference.DefuzzNearExactRatio | final/ref/fuzzy_refmodel.py:100-109 | For 0 <= S_wg <= S_w with S_w >= 1, the rounded percentage is strictly within one point of the exact centroid 100·S_wg/S_w |
| Estimators.NewExact | final/ref/fuzzy_refmodel.py:210-217 | alpha and k_dt are in [0, 255] and congruent to the arguments modulo 256; d_max is the s8 value congruent to its argument modulo 256 (so 256 becomes 0 and 200 becomes -56); in-range arguments are kept; the state starts cleared and invalid |
| Estimators.NewSimple | final/ref/fuzzy_refmodel.py:167-172 | Parameters stored unchanged; prev_T = 0 and not initialised |
| Estimators.Reset | final/ref/fuzzy_refmodel.py:219-222 | Returns both estimator kinds to their constructor state and keeps the parameters |
| Estimators.InitPulse | final/ref/fuzzy_refmodel.py:224-228 | Exact: captures T wrapped to s8 (T itself when it is s8), clears the filter and drops valid. Simple: captures T unchanged and counts as initialised |
| Estimators.DMaxQ15 | final/ref/fuzzy_refmodel.py:255 | The clamp bound is the low 8 bits of d_max times 128: in [0, 255·128], d_max·128 for d_max in [0, 127], and (d_max + 256)·128 for a negative s8 d_max |
| Estimators.DeltaQ8 | final/ref/fuzzy_refmodel.py:231-234 | The 9-bit temperature difference is in [-256, 256) |
| Estimators.ScaleDelta | final/ref/fuzzy_refmodel.py:236-242 | The scaled delta is a 16-bit signed value |
| Estimators.Accumulate | final/ref/fuzzy_refmodel.py:244-251 | The accumulator is a 32-bit signed value |
| Estimators.ClampState | final/ref/fuzzy_refmodel.py:254-263 | The new state is s16 and within ±hi; a state within ±hi is unchanged, one above hi becomes hi and one below -hi becomes -hi |
| Estimators.ExactFilter | final/ref/fuzzy_refmodel.py:230-263 | The new filter state is s16 and within ±DMaxQ15 |
| Estimators.SliceOut | final/ref/fuzzy_refmodel.py:269-273 | The output is s8 and congruent modulo 256 to the state over 128, rounded toward zero for the canonical slice and down for the floor slice; for a state within ±127·128 it equals that quotient |
| Estimators.WrapS8 | final/ref/fuzzy_refmodel.py:270-273 | `sxt(q & 0xFF, 8)`: the s8 value congruent to q modulo 256, and q itself when q is s8 |
| Estimators.WrappedSliceIsNegative | final/ref/fuzzy_refmodel.py:269-273 | A state in [128·128, 256·128) slices to its quotient by 128 minus 256, a negative output |
| Estimators.Step | final/ref/fuzzy_refmodel.py:182-277 | Exact: new T_prev is T wrapped to s8, the new state is the filter output, dT is its slice, and the returned flag is the valid flag from before the call. Simple: the first step returns 0 and not valid, and every step records T. Later steps return the T difference floored by 2^max(kdt_p, 0), scaled by alpha_p/256 rounding down, saturated to s8 and clipped to ±dmax_p; a negative dmax_p always gives -dmax_p, because the upper clip runs first |
| Estimators.ExactOutputBounded | final/ref/fuzzy_refmodel.py:254-277 | With d_max in [0, 127] the stored state stays within ±d_max·128 and the output within ±d_max |
| Estimators.SliceWithin | final/ref/fuzzy_refmodel.py:269-273 | Both output slices of a state within ±d·128 lie within ±d |
| Estimators.SlicesDifferByRounding | python/fuzzy_refmodel.py:228-230 | The canonical slice is the floor slice or one above it, and the two agree exactly when the state is non-negative or a multiple of 128 |
| Estimators.NoSpikeAfterInit | final/ref/fuzzy_refmodel.py:224-277 | After init_pulse(T), a step at T returns 0 with the old flag down; a second step returns 0 with the flag up; the state stays 0 throughout |
| Estimators.ZeroDeltaKeepsZero | final/ref/fuzzy_refmodel.py:231-263 | No change in T and a cleared filter keep the filter cleared, for every alpha, k_dt and d_max |
| Estimators.SimpleOutputBounded | final/ref/fuzzy_refmodel.py:182-196 | An initialised simple estimator returns valid and a dT within ±dmax_p and within s8 |
| Estimators.WideDMaxInvertsOutput | final/ref/fuzzy_refmodel.py:213-273 | With d_max 200, alpha 255 and k_dt 0, after init at -128 a step to 127 stores d_max as -56, clamps at 25600 and outputs -56 |
| Coprocessor.Evaluate | final/ref/fuzzy_refmodel.py:303-312 | The degrees are the fuzzified inputs, the weights are their min grid, the sums are the aggregate of those weights and G is the defuzzified sums; 0 <= S_wg <= S_w <= 32767, G is within one point of the exact centroid, and G is 0 when S_w is 0 |
| Coprocessor.TopStep | final/ref/fuzzy_refmodel.py:289-314 | Fails (missing estimator) exactly when dt_mode is 1 without an estimator. Otherwise the result is `Evaluate` at the selected dT. dt_mode 1 selects the estimator's step output and flag and returns the stepped estimator. Any other dt_mode selects dT_in as valid and returns the estimator untouched. G is in [0, 100] |
| Coprocessor.NoRuleFiresGivesZero | final/ref/fuzzy_refmodel.py:79-109 | In one evaluation S_w is 0 exactly when every gated weight is 0, and then S_wg and G are 0 |
| Coprocessor.ExternalModeIsStateless | final/ref/fuzzy_refmodel.py:296-301 | With external dT the result does not depend on the estimator handed in |
| Coprocessor.StockConfigsWellFormed | final/ref/fuzzy_refmodel.py:135-161 | The constructor-default and DEFAULT_CFG threshold sets are ordered and s8, and the two configurations differ |
| IntParse.Strip | final/ref/fuzzy_refmodel.py:320 | The result is the input with its leading white space and its trailing white space removed, and nothing else: a slice starting after the leading run, followed only by white space; no white space at either end; text without white space at its ends is unchanged |
| IntParse.ParseIntBase0 | final/ref/fuzzy_refmodel.py:320 | Every failure is a not-an-integer error |
| IntParse.ParseS8 | final/ref/fuzzy_refmodel.py:318-323 | Accepts exactly the texts that `int(s, 0)` reads as a value in [-128, 127] and returns that value; a readable value out of range is an out-of-range error |
| IntParse.DecimalRoundTrip | final/ref/fuzzy_refmodel.py:320 | The unsigned literal parser reads back the decimal text of every natural number |
| IntParse.ParseUnstripped | final/ref/fuzzy_refmodel.py:320 | Text that does not start or end with white space is parsed as sign plus literal |
| IntParse.ParseShowRoundTrip | final/ref/fuzzy_refmodel.py:320 | `int(str(v), 0) == v` for every integer v |
| IntParse.ParseS8RoundTrip | final/ref/fuzzy_refmodel.py:318-323 | The decimal text of v parses to v exactly when v is s8, and otherwise to an out-of-range error |
| IntParse.PrefixedLiteral | final/ref/fuzzy_refmodel.py:320 | An optional sign, then 0x, 0o or 0b in either case, then digits of that base with single underscores: the signed value of the digits |
| IntParse.DecimalLiteral | final/ref/fuzzy_refmodel.py:320 | An optional sign, then decimal digits not starting with 0, with single underscores between them: their signed value |
| IntParse.StripSurrounding | final/ref/fuzzy_refmodel.py:320 | `strip()` of white space, text with no white space at its ends, and white space gives exactly that text |
| IntParse.SurroundingSpaceIgnored | final/ref/fuzzy_refmodel.py:320 | White space around a literal does not change what `int(s, 0)` reads |
| IntParse.ParseS8Vectors | final/ref/fuzzy_refmodel.py:318-323 | "-0x80" gives -128, "0x7F" 127, "0b1_0" 2 and " 0o17\n" 15; "0x80" and "-129" are out of range; "1__0", "012", "" and "0x" are not integers |
| Variant.DefuzzTrunc | python/fuzzy_refmodel.py:88-95 | Output always in [0, 100] |
| Variant.DefuzzVersionsClose | python/fuzzy_refmodel.py:88-95 | The truncating defuzz is the rounding one or one below, on every input |
| Variant.DefuzzTruncBelowRatio | python/fuzzy_refmodel.py:88-95 | For 0 <= S_wg <= S_w with S_w >= 1, the truncated percentage never exceeds the exact centroid and is less than two points below it |
| Variant.DefaultCfgsDiffer | python/fuzzy_refmodel.py:119-131 | This copy's DEFAULT_CFG is the canonical constructor default, not the canonical DEFAULT_CFG |
| Variant.TopStep | python/fuzzy_refmodel.py:245-266 | Fails exactly when the canonical step fails; otherwise the same selected dT, degrees, weights, sums and estimator, and a G that is the truncating `Variant.DefuzzTrunc` of the sums, which is the canonical G or one less |
| RefModel.ClampU16 | python/ref_model.py:10-12 | Result in [0, 65535]; identity exactly on that range; negative input gives 0 and input above 65535 gives 65535 |
| RefModel.Q15ToPct | python/ref_model.py:21-23 | The largest r with r/100 <= q/32768; for Q1.15 input in [0, 99] |
| RefModel.PctToQ15 | python/ref_model.py:25-35 | Clamping the percentage first yields, on every integer, the same value as the canonical convert-then-saturate mapping |
| RefModel.PercentRoundTrip | python/ref_model.py:21-35 | A percentage in [0, 100] converted to Q1.15 and back loses at most one point and never gains one |
| RefModel.TrapezoidMuMasked | python/ref_model.py:40-67 | 0 outside the open support, 0x7FFF on the plateau, always in [0, 0x7FFF] |
| RefModel.MaskedTrapezoidAgrees | python/ref_model.py:40-67 | For s8 input and thresholds the 8-bit mask never cuts, so the result equals the canonical trapezoid |
| RefModel.FuzzifierThree | python/ref_model.py:72-85 | Three Q1.15 degrees, equal to the canonical fuzzifier for s8 input and thresholds |
| RefModel.Rules4 | python/ref_model.py:90-96 | The four corner weights of the 3x3 grid (nn, np, pn, pp), whatever the zero-set degrees |
| RefModel.Aggregator | python/ref_model.py:109-139 | Both sums capped at 32767; for Q1.15 weights the same sums as the canonical aggregate, though its products are not saturated |
| RefModel.Reset | python/ref_model.py:173-176 | Back to the initial estimator |
| RefModel.InitPulse | python/ref_model.py:178-182 | T saturated (not wrapped) to s8, state cleared, valid dropped |
| RefModel.ClipQ15 | python/ref_model.py:184-190 | For d_max >= 0 the result is within ±d_max·128; values in range are unchanged, values above d_max·128 give d_max·128 and values below -d_max·128 give -d_max·128 |
| RefModel.ClampsAreClipToRange | python/ref_model.py:10-19 | `clamp_s8`, `clamp_u16`, `_clip_q15` with d_max >= 0 and the canonical estimator clamp are each `clip` with the corresponding bounds |
| RefModel.Step | python/ref_model.py:192-219 | Always valid, with no lag; T_prev is T saturated to s8; dT is s8; for d_max in [0, 127] the state stays within ±d_max·128 and dT is the state over 128 rounded down, within ±d_max |
| RefModel.NoSpikeAfterInit | python/ref_model.py:178-219 | After init_pulse(T), a step at T returns 0 |
| RefModel.DeltaStage | final/ref/fuzzy_refmodel.py:231-234 | For s8 temperatures the 9-bit delta does not wrap |
| RefModel.ShiftStage | final/ref/fuzzy_refmodel.py:236-242 | For an in-range delta and k_dt in [0, 31] neither the 16-bit delta nor its shift wraps, and the result is within ±32640 |
| RefModel.AccumulatorStage | final/ref/fuzzy_refmodel.py:244-252 | For states and deltas within ±32640 the 24-bit coefficients and 32-bit accumulator do not wrap, and the new state fits in 16 bits |
| RefModel.ClampStage | final/ref/fuzzy_refmodel.py:254-263 | For d_max in [0, 127] the 16-bit clamp equals ref_model's `_clip_q15` |
| RefModel.ExactFilterNoWrap | final/ref/fuzzy_refmodel.py:230-263 | In the operating range the bit-exact filter equals the unbounded filter formula |
| RefModel.MatchesExactFilter | python/ref_model.py:192-219 | In the operating range ref_model's estimator produces the same output, T_prev and state as the floor-slice bit-exact estimator |
| RefModel.CoprocStep | python/ref_model.py:224-265 | Fails (missing estimator) exactly when internal dT is asked for without an estimator. Otherwise the degrees are the three-set fuzzifier of the saturated T and of the dT used, the weights are their min grid, the sums are `aggregator` of them and G is the truncating defuzz of the sums; 0 <= S_wg <= S_w <= 32767; G is in [0, 100]; the dT used is s8: external dT is saturated, internal dT is the estimator's output, and only internal mode changes the estimator |
| RefModel.SaturatesInputs | python/ref_model.py:241-249 | An out-of-range T or external dT acts exactly like the nearest s8 value |
| RefModel.MatchesVariantTopStep | python/ref_model.py:224-265 | With external dT, s8 inputs and s8 thresholds, G and both sums equal the second copy's `top_step` |
| Vectors.ConversionVectors | python/test_refmodel.py:56-66 | 0% maps to 0, 100% to 32767 and 50% to 16384; half of a half is 8192 |
| Vectors.TrapezoidVectors | python/test_refmodel.py:19-36 | The triangle (0, 10, 10, 30) and trapezoid (-10, 0, 0, 15) samples of the membership test give the expected degrees |
| Vectors.DefuzzVectors | python/test_refmodel.py:70-79 | The truncating-defuzz cases of the defuzz test: epsilon path, full scale, halves, one LSB below a half, clamp above 100 |
| Vectors.RoundingDefuzzVectors | python/test_refmodel_tb_parity.py:93-98 | The rounding defuzz on the same pairs gives 0, 100, 50, 50, 50 and 100: one LSB below a half rounds up to 50 |
| Vectors.AggregateSaturationVectors | python/test_refmodel.py:40-54 | Nine weights of 20000 saturate S_w in both modes and S_wg in nine-rule mode |
| Vectors.VariantCentreVector | python/test_refmodel.py:83-98 | Testbench configuration, nine rules, (0, 0): G is 50 |
| Vectors.VariantCentreCornerVector | python/test_refmodel.py:83-98 | Testbench configuration, corner rules, (0, 0): G is 0 |
| Vectors.VariantColdFallingVector | python/test_refmodel.py:83-98 | Testbench configuration, (-64, -10): G is 100 in both modes |
| Vectors.VariantHotRisingVector | python/test_refmodel.py:83-98 | Testbench configuration, (64, 10): G is 0 in both modes |
| Vectors.CanonicalHotFallingVector | final/py/tests/test_refmodel_vectors.py:10-15 | Canonical DEFAULT_CFG, (100, -100): G is 80 in both modes |
| Vectors.CanonicalColdRisingVector | final/py/tests/test_refmodel_vectors.py:10-15 | Canonical DEFAULT_CFG, (-100, 100): G is 30 in both modes |
| Vectors.CanonicalNoRuleVector | final/py/tests/test_refmodel_vectors.py:17-19 | Canonical DEFAULT_CFG, (-128, 127): no rule fires and G is 0 |
| Vectors.VariantNoRuleVector | python/test_refmodel.py:83-98 | Testbench configuration, nine rules, (-128, 127): no rule fires and G is 0 |
| Vectors.CanonicalCentreCornerVector | final/py/tests/test_refmodel_vectors.py:5-8 | Canonical DEFAULT_CFG, corner rules, (0, 0): G is 0, not the 50 that test expects |
| Vectors.CanonicalCentreFullVector | final/py/tests/test_refmodel_vectors.py:5-8 | Canonical DEFAULT_CFG, nine rules, (0, 0): G is 50 |
| Vectors.EstimatorClampVector | python/test_refmodel.py:115-121 | alpha 255, k_dt 0, d_max 10, either slice: +20 reads +10, then -20 reads -10 |
| Vectors.EstimatorRampVector | python/test_refmodel.py:123-133 | alpha 64, k_dt 2, d_max 64, a ramp of +4 per sample: every output is 0 and the state rises 0, 32, 56, 74, 87, 97, 104, 110, 114 |

## Left out

- The command-line front end `main` (argument parsing, CSV batch files, printing) is I/O. Only the `_parse_int` check it applies to T and dT is modelled, as `IntParse.ParseS8`.
- The Pico firmware, the hardware-in-the-loop tests and the CSV regression generator are outside the reference model.
- The randomised and statistical tests are left out: parity sweeps, the mean-absolute-error bound and random configurations. The model has no randomness.
- The self-check at the end of `ref_model.py` (lines 270-285) is left out. It is a script entry point that prints.
- Broken test expectations are not encoded as properties. One example is the test at `final/py/tests/test_refmodel_vectors.py` lines 5-8, which expects 50 in corner mode at (0, 0): the model gives 0, as `Vectors.CanonicalCentreCornerVector` shows. The parity-test expectations against hardware captures are left out for the same reason. Another is `python/test_refmodel_tb_parity.py` line 96, which expects `defuzz(30000, 14999) == 50` of the second copy it imports, while `python/test_refmodel.py` line 74 expects 49 of the same function. The truncating `defuzz` gives 49 (`Vectors.DefuzzVectors`); 50 is what the rounding `defuzz` of the canonical copy gives (`Vectors.RoundingDefuzzVectors`).
- Duck typing of the estimator argument (any object with `step`, `init_pulse` and `reset`) is narrowed to the two estimator classes of the repository.
- IntParse.ParseIntBase0: reads ASCII digits only. Python's `int()` also accepts other Unicode decimal digits; those are not modelled.
- FixedPoint.Sxt: requires `bits >= 1`. The source raises an exception for `bits == 0`, through a negative shift count, and every call uses a fixed width of 8, 9, 16, 24 or 32.
- RefModel.ClampU16: modelled for completeness; nothing in the source calls it.
- RefModel.NoSpikeAfterInit: requires `d_max >= 0`. With a negative `d_max` the clip bound is negative, so the source does return a non-zero value after init.
- Estimators.SimpleOutputBounded: requires `dmax_p >= 0`, for the same reason.
- RefModel.MatchesExactFilter: holds only in the operating range (s8 temperatures, alpha in [0, 255], k_dt in [0, 31], d_max in [0, 127], a state within ±255·128). Outside it the bit-exact filter wraps and the saturating one does not.
- RefModel.MatchesVariantTopStep: stated for external dT and the default estimator arguments. With internal dT the two estimators differ, because of the valid-flag lag and the saturating versus wrapping capture of T.
- A `d_max` outside [0, 127] is kept as the code handles it: read as s8, bound taken from its low byte, slice wrapped to 8 bits. No corrected estimator is given, because the code documents `d_max` as a Q7.0 magnitude and every test and the command-line default use a value in [0, 127]. `Estimators.ExactOutputBounded` is stated for that range, and `Estimators.WideDMaxInvertsOutput` exhibits the behaviour outside it.
