/** The monoexponential S0 / T2* estimator of tedana's `decay` module:
    `fit_decay` (log-linear fits over an increasing number of echoes,
    optional nonlinear refinement with per-voxel fallback, clamping, and the
    limited / full map selection driven by the adaptive echo-count map) and
    `fit_decay_ts` (the same fit once per volume).

    Floating-point numerics are uninterpreted: the `Numerics` value supplies
    `log(|x| + 1)`, one column of the least-squares solve, `exp`, the
    monoexponential model function and the nonlinear curve fit. */
module Decay {
  import opened Results
  import opened ExtReals
  import opened Layout
  import opened Masking

  /** One row of the regression design: the intercept column (always 1) and
      the negated echo time. */
  datatype DesignRow = DesignRow(one: real, negTe: real)

  /** Least-squares coefficients of one sample: `betas[0]` and `betas[1]`. */
  datatype Betas = Betas(intercept: ExtReal, slope: ExtReal)

  /** An (S0, T2*) pair for one sample. */
  datatype Estimate = Estimate(s0: ExtReal, t2s: ExtReal)

  /** The floating-point collaborators of the estimator. `lstsq` solves the
      shared design against one right-hand side (least squares treats every
      column of a multi-column right-hand side independently); `curveFit`
      answers `None` when the nonlinear fit does not converge. */
  datatype Numerics = Numerics(
    logAbs1: ExtReal -> ExtReal,
    lstsq: (seq<DesignRow>, seq<ExtReal>) -> Betas,
    exp: ExtReal -> ExtReal,
    monoExp: (seq<real>, ExtReal, ExtReal) -> seq<ExtReal>,
    curveFit: ((seq<real>, ExtReal, ExtReal) -> seq<ExtReal>, seq<real>, seq<ExtReal>, Estimate) -> Option<Estimate>)

  /** A (samples x echoes x volumes) signal array; `cells[s][e][v]`. */
  datatype Signal = Signal(samples: nat, echos: nat, vols: nat, cells: seq<seq<seq<ExtReal>>>)

  /** The array really has the shape it declares. */
  predicate WellShaped(sig: Signal)
  {
    |sig.cells| == sig.samples &&
    forall s :: 0 <= s < |sig.cells| ==> IsMatrix(sig.cells[s], sig.echos, sig.vols)
  }

  /** Every sample has at least `k` echoes. */
  predicate HasEchoes(cells: seq<seq<seq<ExtReal>>>, k: nat)
  {
    forall s :: 0 <= s < |cells| ==> k <= |cells[s]|
  }

  /** Selecting samples through a mask keeps that. */
  lemma SelectHasEchoes(cells: seq<seq<seq<ExtReal>>>, mask: seq<bool>, k: nat)
    requires |cells| == |mask| && HasEchoes(cells, k)
    ensures HasEchoes(Select(cells, mask), k)
  {
    SelectKeeps(cells, mask, (voxel: seq<seq<ExtReal>>) => k <= |voxel|);
  }

  /** The errors `fit_decay` raises: its two validation errors, with the
      sizes it reports, and the two numpy errors its array code runs into on
      a mask it does not check. */
  datatype FitError =
    | EchoCountMismatch(dataEchos: nat, tes: nat)
    | SampleCountMismatch(dataSamples: nat, maskSamples: nat, masksumSamples: nat)
      /** No sample selected: `reshape(len(data), -1)` cannot size an empty array. */
    | EmptySelection
      /** One sample: squeezing its echo-mask column leaves a scalar, which a
          boolean array cannot index. */
    | ScalarEchoMask

  /** The sizes `fit_decay` checks before doing anything else. */
  predicate ShapesAgree(sig: Signal, tes: seq<real>, mask: seq<bool>, masksum: seq<int>)
  {
    sig.echos == |tes| && sig.samples == |mask| && |mask| == |masksum|
  }

  /** What the array code after validation needs of the mask and does not
      check: a nonempty selection and at least two samples. The model
      reports the error the source runs into otherwise. */
  predicate Fittable(mask: seq<bool>)
  {
    0 < Count(mask) && 2 <= |mask|
  }

  /** What the computation after validation needs and does not check, where
      the source fails inside numpy and the model does not follow it: at
      least two echoes (with none `np.zeros` gets a negative dimension, with
      one the full map indexes column 0 of an empty stack), and, on a mask
      the fits get through, no sample claiming more good echoes than exist
      (else the limited map's selection is shorter than the unmask target). */
  predicate Supported(sig: Signal, tes: seq<real>, mask: seq<bool>, masksum: seq<int>)
  {
    ShapesAgree(sig, tes, mask, masksum) ==>
      2 <= |tes| && (Fittable(mask) ==> forall s :: 0 <= s < |masksum| ==> masksum[s] <= |tes|)
  }

  /** The fit type that switches on the nonlinear refinement; any other
      string means log-linear only. */
  const CurveFitMode: string := "curvefit"

  /** Clamp values of the source. */
  const InfiniteT2sValue: real := 500.0
  const NonPositiveT2sValue: real := 1.0
  const NaNS0Value: real := 0.0

  // ---------------------------------------------------------------------
  // Design matrix and observations

  /** `np.column_stack([np.ones(k), [-te for te in tes[:k]]])`. */
  function DesignRows(tes: seq<real>, k: nat): seq<DesignRow>
    requires k <= |tes|
  {
    seq(k, e requires 0 <= e < k => DesignRow(1.0, -tes[e]))
  }

  /** The design rows repeated once per volume (`np.repeat(x, n_vols, axis=0)`). */
  function DesignMatrix(tes: seq<real>, k: nat, nVols: nat): (x: seq<DesignRow>)
    requires k <= |tes|
    ensures |x| == k * nVols
  {
    RepeatLength(DesignRows(tes, k), nVols);
    Repeat(DesignRows(tes, k), nVols)
  }

  /** `X[:, 1] * -1`: the echo time of every design row. */
  function EchoTimes(x: seq<DesignRow>): seq<real>
  {
    seq(|x|, r requires 0 <= r < |x| => -x[r].negTe)
  }

  /** One sample's first `k` echoes flattened (echo-major, volume-minor),
      which is that sample's column of `data[:, :k, :].reshape(S, -1).T`. */
  function Observations(voxel: seq<seq<ExtReal>>, k: nat): seq<ExtReal>
    requires k <= |voxel|
  {
    Concat(voxel[..k])
  }

  /** The observations, the design matrix and its echo-time column have one
      row per (echo, volume) pair. */
  lemma DesignLengths(tes: seq<real>, voxel: seq<seq<ExtReal>>, k: nat, nVols: nat)
    requires k <= |tes| && k <= |voxel| && Uniform(voxel, nVols)
    ensures |Observations(voxel, k)| == k * nVols
    ensures |DesignMatrix(tes, k, nVols)| == k * nVols
    ensures |EchoTimes(DesignMatrix(tes, k, nVols))| == k * nVols
  {
    assert Uniform(voxel[..k], nVols);
    ConcatLength(voxel[..k], nVols);
    RepeatLength(DesignRows(tes, k), nVols);
  }

  /** Row `r` of the observations and row `r` of the design matrix describe
      the same measurement: echo `r / nVols` at volume `r % nVols`, with
      intercept 1 and the negated echo time, whose echo-time column reads
      that echo's time back. */
  lemma RowAlignment(tes: seq<real>, voxel: seq<seq<ExtReal>>, k: nat, nVols: nat, r: nat)
    requires k <= |tes| && k <= |voxel| && Uniform(voxel, nVols)
    requires r < k * nVols
    ensures 0 < nVols && r / nVols < k && r % nVols < nVols
    ensures r < |Observations(voxel, k)| && Observations(voxel, k)[r] == voxel[r / nVols][r % nVols]
    ensures r < |DesignMatrix(tes, k, nVols)| && DesignMatrix(tes, k, nVols)[r] == DesignRow(1.0, -tes[r / nVols])
    ensures EchoTimes(DesignMatrix(tes, k, nVols))[r] == tes[r / nVols]
  {
    assert Uniform(voxel[..k], nVols);
    ConcatAtPosition(voxel[..k], nVols, r);
    RepeatAt(DesignRows(tes, k), nVols, r);
  }

  // ---------------------------------------------------------------------
  // One sample

  /** The closed-form fit: regress `log(|y| + 1)` on the design, then
      S0 = exp(intercept) and T2* = 1 / slope. */
  function LogLinear(num: Numerics, x: seq<DesignRow>, y: seq<ExtReal>): Estimate
  {
    var b := num.lstsq(x, Map(num.logAbs1, y));
    Estimate(num.exp(b.intercept), Recip(b.slope))
  }

  /** The nonlinear fit of one sample does not converge. */
  predicate FitFails(num: Numerics, times: seq<real>, y: seq<ExtReal>, init: Estimate)
  {
    num.curveFit(num.monoExp, times, y, init).None?
  }

  /** One attempt at the nonlinear fit started from `init`: its result when
      it converges, `init` itself when it does not. */
  function CurveFitOrKeep(num: Numerics, times: seq<real>, y: seq<ExtReal>, init: Estimate): (e: Estimate)
    ensures FitFails(num, times, y, init) ==> e == init
    ensures !FitFails(num, times, y, init) ==> Some(e) == num.curveFit(num.monoExp, times, y, init)
  {
    match num.curveFit(num.monoExp, times, y, init)
    case Some(p) => p
    case None => init
  }

  /** The T2* clamp, in the source's order: infinities become 500, then
      values at or below zero become 1. NaN compares false and survives. */
  function ClampT2s(x: ExtReal): (r: ExtReal)
    ensures !r.IsInfinite()
    ensures r.Fin? ==> r.r > 0.0
    ensures r.NaN? <==> x.NaN?
    ensures x.IsInfinite() ==> r == Fin(InfiniteT2sValue)
    ensures x.Fin? && x.r <= 0.0 ==> r == Fin(NonPositiveT2sValue)
    ensures x.Fin? && x.r > 0.0 ==> r == x
  {
    var noInf := if x.IsInfinite() then Fin(InfiniteT2sValue) else x;
    if noInf.AtMostZero() then Fin(NonPositiveT2sValue) else noInf
  }

  /** The S0 clamp: NaN becomes 0, every other value (infinities included)
      is kept. */
  function ClampS0(x: ExtReal): (r: ExtReal)
    ensures !r.NaN?
    ensures x.NaN? ==> r == Fin(NaNS0Value)
    ensures !x.NaN? ==> r == x
  {
    if x.NaN? then Fin(NaNS0Value) else x
  }

  /** A T2* value the clamp lets through other than NaN: finite and positive. */
  predicate ClampedT2s(x: ExtReal)
  {
    x.Fin? && x.r > 0.0
  }

  /** An S0 value the clamp lets through: anything but NaN. */
  predicate ClampedS0(x: ExtReal)
  {
    !x.NaN?
  }

  /** The estimate of one sample from its own data only: log-linear fit over
      its first `k` echoes, the nonlinear refinement when asked for, then the
      clamps. This is the per-sample reference the whole-array computation
      is proved to agree with. */
  function VoxelFit(num: Numerics, fittype: string, tes: seq<real>, nVols: nat,
                    voxel: seq<seq<ExtReal>>, k: nat): (e: Estimate)
    requires k <= |tes| && k <= |voxel|
    ensures ClampedT2s(e.t2s) || e.t2s.NaN?
    ensures ClampedS0(e.s0)
  {
    var x := DesignMatrix(tes, k, nVols);
    var y := Observations(voxel, k);
    var init := LogLinear(num, x, y);
    var fitted := if fittype == CurveFitMode then CurveFitOrKeep(num, EchoTimes(x), y, init) else init;
    Estimate(ClampS0(fitted.s0), ClampT2s(fitted.t2s))
  }

  /** The nonlinear fit of one sample's first `k` echoes fails to converge. */
  predicate VoxelFitFails(num: Numerics, tes: seq<real>, nVols: nat, voxel: seq<seq<ExtReal>>, k: nat)
    requires k <= |tes| && k <= |voxel|
  {
    var x := DesignMatrix(tes, k, nVols);
    var y := Observations(voxel, k);
    FitFails(num, EchoTimes(x), y, LogLinear(num, x, y))
  }

  /** Whether each sample's nonlinear fit over its first `k` echoes fails. */
  function VoxelFailures(num: Numerics, tes: seq<real>, nVols: nat, cells: seq<seq<seq<ExtReal>>>, k: nat): (f: seq<bool>)
    requires k <= |tes|
    requires HasEchoes(cells, k)
    ensures |f| == |cells|
    ensures forall v {:trigger f[v]} :: 0 <= v < |cells| ==> (f[v] <==> VoxelFitFails(num, tes, nVols, cells[v], k))
  {
    seq(|cells|, v requires 0 <= v < |cells| => VoxelFitFails(num, tes, nVols, cells[v], k))
  }

  /** Whether each sample lies inside the mask and its nonlinear fit over
      its first `k` echoes fails. */
  function MaskedFailures(num: Numerics, tes: seq<real>, nVols: nat, cells: seq<seq<seq<ExtReal>>>,
                          mask: seq<bool>, k: nat): (f: seq<bool>)
    requires k <= |tes| && |cells| == |mask|
    requires HasEchoes(cells, k)
    ensures |f| == |mask|
    ensures forall s {:trigger f[s]} :: 0 <= s < |mask| ==> (f[s] <==> mask[s] && VoxelFitFails(num, tes, nVols, cells[s], k))
  {
    seq(|mask|, s requires 0 <= s < |mask| => mask[s] && VoxelFitFails(num, tes, nVols, cells[s], k))
  }

  // ---------------------------------------------------------------------
  // All masked samples for one echo count

  datatype Refined = Refined(est: seq<Estimate>, failCount: nat)

  /** Which samples' nonlinear fits fail. */
  function FailureFlags(num: Numerics, times: seq<real>, ys: seq<seq<ExtReal>>, init: seq<Estimate>): (f: seq<bool>)
    requires |ys| == |init|
    ensures |f| == |ys|
  {
    seq(|ys|, v requires 0 <= v < |ys| => FitFails(num, times, ys[v], init[v]))
  }

  /** The refinement loop: every voxel, in order, tries the nonlinear fit
      from its own log-linear estimate; a voxel whose fit fails keeps that
      estimate and adds one to the failure count. No failure escapes. */
  function RefineAll(num: Numerics, times: seq<real>, ys: seq<seq<ExtReal>>, init: seq<Estimate>): (r: Refined)
    requires |ys| == |init|
    ensures |r.est| == |init|
    ensures forall v {:trigger r.est[v]} :: 0 <= v < |init| ==>
              (FitFails(num, times, ys[v], init[v]) ==> r.est[v] == init[v]) &&
              (!FitFails(num, times, ys[v], init[v]) ==> Some(r.est[v]) == num.curveFit(num.monoExp, times, ys[v], init[v]))
    ensures r.failCount == Count(FailureFlags(num, times, ys, init))
    ensures r.failCount <= |init|
  {
    if |ys| == 0 then Refined([], 0)
    else
      var rest := RefineAll(num, times, ys[1..], init[1..]);
      var first := CurveFitOrKeep(num, times, ys[0], init[0]);
      var failed := if FitFails(num, times, ys[0], init[0]) then 1 else 0;
      assert FailureFlags(num, times, ys, init)[1..] == FailureFlags(num, times, ys[1..], init[1..]);
      Refined([first] + rest.est, failed + rest.failCount)
  }

  /** The (clamped) estimates of the masked samples for one echo count, and
      the number of failed nonlinear fits. */
  datatype EchoFit = EchoFit(t2s: seq<ExtReal>, s0: seq<ExtReal>, failCount: nat)

  /** One pass of the echo-count loop before the results are unmasked:
      flatten every masked sample's first `k` echoes, fit them all against
      the shared design, refine when asked for, clamp. */
  function EchoCountFit(num: Numerics, fittype: string, tes: seq<real>, nVols: nat,
                        masked: seq<seq<seq<ExtReal>>>, k: nat): (r: EchoFit)
    requires k <= |tes|
    requires HasEchoes(masked, k)
    ensures |r.t2s| == |masked| && |r.s0| == |masked|
  {
    var x := DesignMatrix(tes, k, nVols);
    var data2d := seq(|masked|, v requires 0 <= v < |masked| => Observations(masked[v], k));
    var init := seq(|masked|, v requires 0 <= v < |masked| => LogLinear(num, x, data2d[v]));
    var refined := if fittype == CurveFitMode then RefineAll(num, EchoTimes(x), data2d, init) else Refined(init, 0);
    EchoFit(Map((e: Estimate) => ClampT2s(e.t2s), refined.est),
            Map((e: Estimate) => ClampS0(e.s0), refined.est),
            refined.failCount)
  }

  /** The whole-array pass for one echo count agrees, voxel by voxel, with
      the per-sample reference. */
  lemma EchoCountFitMatchesVoxelFit(num: Numerics, fittype: string, tes: seq<real>, nVols: nat,
                                    masked: seq<seq<seq<ExtReal>>>, k: nat)
    requires k <= |tes|
    requires HasEchoes(masked, k)
    ensures forall v :: 0 <= v < |masked| ==>
              EchoCountFit(num, fittype, tes, nVols, masked, k).t2s[v]
                == VoxelFit(num, fittype, tes, nVols, masked[v], k).t2s &&
              EchoCountFit(num, fittype, tes, nVols, masked, k).s0[v]
                == VoxelFit(num, fittype, tes, nVols, masked[v], k).s0
  {
  }

  /** The failure count of the whole-array pass counts exactly the voxels
      whose own nonlinear fit fails, and is zero when refinement is off. */
  lemma EchoCountFitFailures(num: Numerics, fittype: string, tes: seq<real>, nVols: nat,
                             masked: seq<seq<seq<ExtReal>>>, k: nat)
    requires k <= |tes|
    requires HasEchoes(masked, k)
    ensures fittype != CurveFitMode ==> EchoCountFit(num, fittype, tes, nVols, masked, k).failCount == 0
    ensures fittype == CurveFitMode ==>
              EchoCountFit(num, fittype, tes, nVols, masked, k).failCount
                == Count(VoxelFailures(num, tes, nVols, masked, k))
  {
    var x := DesignMatrix(tes, k, nVols);
    var data2d := seq(|masked|, v requires 0 <= v < |masked| => Observations(masked[v], k));
    var init := seq(|masked|, v requires 0 <= v < |masked| => LogLinear(num, x, data2d[v]));
    if fittype == CurveFitMode {
      assert FailureFlags(num, EchoTimes(x), data2d, init) == VoxelFailures(num, tes, nVols, masked, k);
    }
  }

  // ---------------------------------------------------------------------
  // Limited and full maps

  /** `echo_masks`: column `j` is true exactly where `masksum == j + 2`,
      written one column per echo count as the source's loop does. */
  function EchoMasks(masksum: seq<int>, nEchos: nat): (em: seq<seq<bool>>)
    requires 2 <= nEchos
    ensures IsMatrix(em, |masksum|, nEchos - 1)
    ensures forall s, j {:trigger em[s][j]} :: 0 <= s < |masksum| && 0 <= j < nEchos - 1 ==>
              (em[s][j] <==> masksum[s] == j + 2)
  {
    var cols := seq(nEchos - 1, j requires 0 <= j < nEchos - 1 =>
                      seq(|masksum|, s requires 0 <= s < |masksum| => masksum[s] == j + 2));
    AssignColumnsAt(Filled(|masksum|, nEchos - 1, false), cols);
    AssignColumns(Filled(|masksum|, nEchos - 1, false), cols)
  }

  /** `stack[em]` on a 2-D array: the selected entries in row-major order. */
  function SelectByMasks(stack: seq<seq<ExtReal>>, em: seq<seq<bool>>): seq<ExtReal>
    requires |em| == |stack|
    requires forall s :: 0 <= s < |stack| ==> |em[s]| == |stack[s]|
  {
    Concat(seq(|stack|, s requires 0 <= s < |stack| => Select(stack[s], em[s])))
  }

  /** `masksum > 1`. */
  function Usable(masksum: seq<int>): (u: seq<bool>)
    ensures |u| == |masksum|
    ensures forall s {:trigger u[s]} :: 0 <= s < |masksum| ==> (u[s] <==> masksum[s] > 1)
  {
    Map((c: int) => c > 1, masksum)
  }

  /** `masksum == 1`. */
  function SingleEcho(masksum: seq<int>): (u: seq<bool>)
    ensures |u| == |masksum|
    ensures forall s {:trigger u[s]} :: 0 <= s < |masksum| ==> (u[s] <==> masksum[s] == 1)
  {
    Map((c: int) => c == 1, masksum)
  }

  /** The stack entry the adaptive map asks for at each sample, zero where it
      asks for fewer than two echoes. */
  function Prescribed(stack: seq<seq<ExtReal>>, masksum: seq<int>, nEchos: nat): (p: seq<ExtReal>)
    requires 2 <= nEchos && IsMatrix(stack, |masksum|, nEchos - 1)
    requires forall s :: 0 <= s < |masksum| ==> masksum[s] <= nEchos
    ensures |p| == |masksum|
  {
    seq(|masksum|, s requires 0 <= s < |masksum| =>
          if masksum[s] >= 2 then stack[s][masksum[s] - 2] else Zero)
  }

  /** Selecting the stack through the echo masks picks, sample by sample, the
      prescribed entry of every sample with more than one good echo. */
  lemma EchoMaskSelection(stack: seq<seq<ExtReal>>, masksum: seq<int>, nEchos: nat)
    requires 2 <= nEchos && IsMatrix(stack, |masksum|, nEchos - 1)
    requires forall s :: 0 <= s < |masksum| ==> masksum[s] <= nEchos
    ensures SelectByMasks(stack, EchoMasks(masksum, nEchos))
            == Select(Prescribed(stack, masksum, nEchos), Usable(masksum))
  {
    var em := EchoMasks(masksum, nEchos);
    var parts := seq(|stack|, s requires 0 <= s < |stack| => Select(stack[s], em[s]));
    var pick := Prescribed(stack, masksum, nEchos);
    var usable := Usable(masksum);
    forall s | 0 <= s < |stack|
      ensures parts[s] == if usable[s] then [pick[s]] else []
    {
      assert forall j :: 0 <= j < nEchos - 1 ==> (em[s][j] <==> masksum[s] == j + 2);
      if masksum[s] >= 2 {
        SelectOne(stack[s], em[s], masksum[s] - 2);
      } else {
        SelectNone(stack[s], em[s]);
      }
    }
    ConcatSingletons(parts, usable, pick);
  }

  /** The limited map (lines 162-168): the stack selected through the echo
      masks, unmasked onto the samples with more than one good echo. */
  function LimitedMap(stack: seq<seq<ExtReal>>, masksum: seq<int>, nEchos: nat): (r: seq<ExtReal>)
    requires 2 <= nEchos && IsMatrix(stack, |masksum|, nEchos - 1)
    requires forall s :: 0 <= s < |masksum| ==> masksum[s] <= nEchos
    ensures |r| == |masksum|
    ensures forall s {:trigger r[s]} :: 0 <= s < |masksum| ==>
              r[s] == if masksum[s] >= 2 then stack[s][masksum[s] - 2] else Zero
  {
    EchoMaskSelection(stack, masksum, nEchos);
    UnmaskSelect(Prescribed(stack, masksum, nEchos), Usable(masksum), Zero);
    Unmask(SelectByMasks(stack, EchoMasks(masksum, nEchos)), Usable(masksum), Zero)
  }

  /** The full map (lines 171-173): the limited map with every single-echo
      sample overwritten by its two-echo estimate. */
  function FullMap(limited: seq<ExtReal>, stack: seq<seq<ExtReal>>, masksum: seq<int>): (r: seq<ExtReal>)
    requires |limited| == |masksum| && |stack| == |masksum|
    requires forall s :: 0 <= s < |stack| ==> 1 <= |stack[s]|
    ensures |r| == |masksum|
    ensures forall s {:trigger r[s]} :: 0 <= s < |masksum| ==> r[s] == if masksum[s] == 1 then stack[s][0] else limited[s]
  {
    var single := SingleEcho(masksum);
    ScatterSelect(limited, single, Column(stack, 0));
    Scatter(limited, single, Select(Column(stack, 0), single))
  }

  // ---------------------------------------------------------------------
  // fit_decay

  /** The six outputs of `fit_decay`, and the failed-fit count of every echo
      count (the number the source logs). */
  datatype DecayMaps = DecayMaps(
    t2sLimited: seq<ExtReal>, s0Limited: seq<ExtReal>,
    t2ss: seq<seq<ExtReal>>, s0vs: seq<seq<ExtReal>>,
    t2sFull: seq<ExtReal>, s0Full: seq<ExtReal>,
    failCounts: seq<nat>)

  /** The per-echo-count stack: column `j` holds the estimates from the first
      `j + 2` echoes of the masked samples, unmasked (zero outside `mask`). */
  function StackColumns(fits: seq<EchoFit>, mask: seq<bool>, t2s: bool): (cols: seq<seq<ExtReal>>)
    requires forall j :: 0 <= j < |fits| ==> |fits[j].t2s| == Count(mask) && |fits[j].s0| == Count(mask)
    ensures |cols| == |fits| && Uniform(cols, |mask|)
    ensures forall j {:trigger cols[j]} :: 0 <= j < |fits| ==> cols[j] == Unmask(if t2s then fits[j].t2s else fits[j].s0, mask, Zero)
  {
    seq(|fits|, j requires 0 <= j < |fits| => Unmask(if t2s then fits[j].t2s else fits[j].s0, mask, Zero))
  }

  /** The fits of every echo count `2 .. nEchos` over the masked samples. */
  function EchoFits(num: Numerics, fittype: string, tes: seq<real>, nVols: nat,
                    masked: seq<seq<seq<ExtReal>>>, nEchos: nat): (fits: seq<EchoFit>)
    requires 2 <= nEchos <= |tes|
    requires HasEchoes(masked, nEchos)
    ensures |fits| == nEchos - 1
    ensures forall j {:trigger fits[j]} :: 0 <= j < nEchos - 1 ==> fits[j] == EchoCountFit(num, fittype, tes, nVols, masked, j + 2)
  {
    seq(nEchos - 1, j requires 0 <= j < nEchos - 1 => EchoCountFit(num, fittype, tes, nVols, masked, j + 2))
  }

  /** The failed-fit count of every pass over the masked samples, in
      echo-count order. */
  function FailCounts(num: Numerics, fittype: string, tes: seq<real>, nVols: nat,
                      cells: seq<seq<seq<ExtReal>>>, mask: seq<bool>, nEchos: nat): (counts: seq<nat>)
    requires 2 <= nEchos <= |tes| && |cells| == |mask|
    requires HasEchoes(cells, nEchos)
    ensures |counts| == nEchos - 1
  {
    SelectHasEchoes(cells, mask, nEchos);
    var fits := EchoFits(num, fittype, tes, nVols, Select(cells, mask), nEchos);
    seq(nEchos - 1, j requires 0 <= j < nEchos - 1 => fits[j].failCount)
  }

  /** `t2ss` (when `t2s` holds) or `s0vs`: a zero (samples x (nEchos - 1))
      array whose column `j` is then overwritten with the unmasked estimates
      from `j + 2` echoes. */
  function Stack(num: Numerics, fittype: string, tes: seq<real>, nVols: nat,
                 cells: seq<seq<seq<ExtReal>>>, mask: seq<bool>, nEchos: nat, t2s: bool): (st: seq<seq<ExtReal>>)
    requires 2 <= nEchos <= |tes| && |cells| == |mask|
    requires HasEchoes(cells, nEchos)
    ensures IsMatrix(st, |mask|, nEchos - 1)
  {
    SelectHasEchoes(cells, mask, nEchos);
    var fits := EchoFits(num, fittype, tes, nVols, Select(cells, mask), nEchos);
    AssignColumns(Filled(|mask|, nEchos - 1, Zero), StackColumns(fits, mask, t2s))
  }

  /** The computation of `fit_decay` once validation has passed. */
  function FitMaps(num: Numerics, sig: Signal, tes: seq<real>, mask: seq<bool>, masksum: seq<int>,
                   fittype: string): (m: DecayMaps)
    requires WellShaped(sig) && Supported(sig, tes, mask, masksum) && ShapesAgree(sig, tes, mask, masksum)
    requires Fittable(mask)
    ensures IsMatrix(m.t2ss, sig.samples, sig.echos - 1) && IsMatrix(m.s0vs, sig.samples, sig.echos - 1)
    ensures |m.t2sLimited| == sig.samples && |m.s0Limited| == sig.samples
    ensures |m.t2sFull| == sig.samples && |m.s0Full| == sig.samples
    ensures |m.failCounts| == sig.echos - 1
  {
    var nEchos := sig.echos;
    var t2ss := Stack(num, fittype, tes, sig.vols, sig.cells, mask, nEchos, true);
    var s0vs := Stack(num, fittype, tes, sig.vols, sig.cells, mask, nEchos, false);
    var t2sLimited := LimitedMap(t2ss, masksum, nEchos);
    var s0Limited := LimitedMap(s0vs, masksum, nEchos);
    DecayMaps(t2sLimited, s0Limited, t2ss, s0vs,
              FullMap(t2sLimited, t2ss, masksum), FullMap(s0Limited, s0vs, masksum),
              FailCounts(num, fittype, tes, sig.vols, sig.cells, mask, nEchos))
  }

  /** `fit_decay` on a three-dimensional array: the two shape checks, in the
      source's order, then the computation, which fails on the first echo
      count when no sample is selected and at the echo masks when there is
      only one sample. */
  function FitDecay(num: Numerics, sig: Signal, tes: seq<real>, mask: seq<bool>, masksum: seq<int>,
                    fittype: string): (r: Result<DecayMaps, FitError>)
    requires WellShaped(sig)
    requires Supported(sig, tes, mask, masksum)
    ensures r.Err? <==> !ShapesAgree(sig, tes, mask, masksum) || !Fittable(mask)
    ensures r.Err? && sig.echos != |tes| ==> r.error == EchoCountMismatch(sig.echos, |tes|)
    ensures r.Err? && sig.echos == |tes| && !ShapesAgree(sig, tes, mask, masksum) ==>
              r.error == SampleCountMismatch(sig.samples, |mask|, |masksum|)
    ensures r.Err? && ShapesAgree(sig, tes, mask, masksum) ==>
              r.error == if Count(mask) == 0 then EmptySelection else ScalarEchoMask
    ensures r.Ok? ==>
              && IsMatrix(r.value.t2ss, sig.samples, sig.echos - 1)
              && IsMatrix(r.value.s0vs, sig.samples, sig.echos - 1)
              && |r.value.t2sLimited| == sig.samples && |r.value.s0Limited| == sig.samples
              && |r.value.t2sFull| == sig.samples && |r.value.s0Full| == sig.samples
              && |r.value.failCounts| == sig.echos - 1
  {
    if sig.echos != |tes| then Err(EchoCountMismatch(sig.echos, |tes|))
    else if !(sig.samples == |mask| && |mask| == |masksum|) then
      Err(SampleCountMismatch(sig.samples, |mask|, |masksum|))
    else if Count(mask) == 0 then Err(EmptySelection)
    else if |mask| < 2 then Err(ScalarEchoMask)
    else
      Ok(FitMaps(num, sig, tes, mask, masksum, fittype))
  }

  /** The percentage of failed nonlinear fits the source logs. */
  function FailPercent(failCount: nat, voxels: nat): (p: real)
    requires 0 < voxels && failCount <= voxels
    ensures p * voxels as real == 100.0 * failCount as real
    ensures 0.0 <= p <= 100.0
    ensures p == 0.0 <==> failCount == 0
    ensures p == 100.0 <==> failCount == voxels
  {
    var p := 100.0 * failCount as real / voxels as real;
    assert p * voxels as real == 100.0 * failCount as real;
    p
  }

  // ---------------------------------------------------------------------
  // fit_decay_ts

  /** `data[:, :, vol][:, :, None]`: one volume, kept as a length-1 time axis. */
  function Slice(sig: Signal, vol: nat): (r: Signal)
    requires WellShaped(sig) && vol < sig.vols
    ensures WellShaped(r)
    ensures r.samples == sig.samples && r.echos == sig.echos && r.vols == 1
    ensures forall s, e {:trigger r.cells[s][e]} :: 0 <= s < sig.samples && 0 <= e < sig.echos ==>
              r.cells[s][e] == [sig.cells[s][e][vol]]
  {
    Signal(sig.samples, sig.echos, 1,
           seq(sig.samples, s requires 0 <= s < sig.samples =>
                 seq(sig.echos, e requires 0 <= e < sig.echos => [sig.cells[s][e][vol]])))
  }

  /** The four (samples x volumes) outputs of `fit_decay_ts`. */
  datatype DecayTimeSeries = DecayTimeSeries(
    t2sLimited: seq<seq<ExtReal>>, s0Limited: seq<seq<ExtReal>>,
    t2sFull: seq<seq<ExtReal>>, s0Full: seq<seq<ExtReal>>)

  /** Every map of `m` covers `n` samples. */
  predicate MapsCover(m: DecayMaps, n: nat)
  {
    |m.t2sLimited| == n && |m.s0Limited| == n && |m.t2sFull| == n && |m.s0Full| == n
  }

  /** Column `vol` of each of the four outputs holds the matching map of `m`. */
  predicate HoldsVolume(ts: DecayTimeSeries, vol: nat, m: DecayMaps)
  {
    && ColumnIs(ts.t2sLimited, vol, m.t2sLimited)
    && ColumnIs(ts.s0Limited, vol, m.s0Limited)
    && ColumnIs(ts.t2sFull, vol, m.t2sFull)
    && ColumnIs(ts.s0Full, vol, m.s0Full)
  }

  /** The per-volume maps laid out side by side, as the source's writes into
      column `vol` of zero arrays leave them. */
  function LayOut(fits: seq<DecayMaps>, n: nat): (r: DecayTimeSeries)
    requires forall v :: 0 <= v < |fits| ==> MapsCover(fits[v], n)
    ensures IsMatrix(r.t2sLimited, n, |fits|) && IsMatrix(r.s0Limited, n, |fits|)
    ensures IsMatrix(r.t2sFull, n, |fits|) && IsMatrix(r.s0Full, n, |fits|)
    ensures forall v {:trigger fits[v]} :: 0 <= v < |fits| ==> HoldsVolume(r, v, fits[v])
  {
    var t2sLimited := seq(|fits|, v requires 0 <= v < |fits| => fits[v].t2sLimited);
    var s0Limited := seq(|fits|, v requires 0 <= v < |fits| => fits[v].s0Limited);
    var t2sFull := seq(|fits|, v requires 0 <= v < |fits| => fits[v].t2sFull);
    var s0Full := seq(|fits|, v requires 0 <= v < |fits| => fits[v].s0Full);
    forall v | 0 <= v < |fits|
      ensures |t2sLimited[v]| == n && |s0Limited[v]| == n && |t2sFull[v]| == n && |s0Full[v]| == n
    {
      assert MapsCover(fits[v], n);
    }
    var r := DecayTimeSeries(FromColumns(t2sLimited, n), FromColumns(s0Limited, n),
                             FromColumns(t2sFull, n), FromColumns(s0Full, n));
    assert forall v :: 0 <= v < |fits| ==> HoldsVolume(r, v, fits[v]) by {
      forall v | 0 <= v < |fits|
        ensures HoldsVolume(r, v, fits[v])
      {
        assert t2sLimited[v] == fits[v].t2sLimited && s0Limited[v] == fits[v].s0Limited;
        assert t2sFull[v] == fits[v].t2sFull && s0Full[v] == fits[v].s0Full;
      }
    }
    r
  }

  /** The error `fit_decay` raises for data of these shapes and this mask,
      in the source's order: echo count, sample counts, an empty selection,
      a single sample. */
  function FitErrorOf(sig: Signal, tes: seq<real>, mask: seq<bool>, masksum: seq<int>): FitError
  {
    if sig.echos != |tes| then EchoCountMismatch(sig.echos, |tes|)
    else if !ShapesAgree(sig, tes, mask, masksum) then SampleCountMismatch(sig.samples, |mask|, |masksum|)
    else if Count(mask) == 0 then EmptySelection
    else ScalarEchoMask
  }

  /** `fit_decay_ts`: one `fit_decay` per volume, column `vol` of each output
      taken from the fit of volume `vol` alone. Every volume has the same
      shapes and mask, so the first fit's error escapes; with no volumes
      nothing is fitted or validated. */
  method FitDecayTs(num: Numerics, sig: Signal, tes: seq<real>, mask: seq<bool>, masksum: seq<int>,
                    fittype: string) returns (r: Result<DecayTimeSeries, FitError>)
    requires WellShaped(sig)
    requires 0 < sig.vols ==> Supported(sig, tes, mask, masksum)
    ensures r.Err? <==> 0 < sig.vols && (!ShapesAgree(sig, tes, mask, masksum) || !Fittable(mask))
    ensures r.Err? ==> r.error == FitErrorOf(sig, tes, mask, masksum)
    ensures r.Ok? ==>
              && IsMatrix(r.value.t2sLimited, sig.samples, sig.vols)
              && IsMatrix(r.value.s0Limited, sig.samples, sig.vols)
              && IsMatrix(r.value.t2sFull, sig.samples, sig.vols)
              && IsMatrix(r.value.s0Full, sig.samples, sig.vols)
    ensures r.Ok? ==>
              forall vol :: 0 <= vol < sig.vols ==>
                var fit := FitDecay(num, Slice(sig, vol), tes, mask, masksum, fittype);
                fit.Ok? && HoldsVolume(r.value, vol, fit.value)
  {
    var fitVolume := (vol: nat) requires vol < sig.vols => FitDecay(num, Slice(sig, vol), tes, mask, masksum, fittype);
    var fits := CollectAll(fitVolume, sig.vols);
    if fits.Err? {
      return Err(fits.error);
    }
    if 0 < sig.vols {
      assert fitVolume(0).Ok?;
    }
    var ts := LayOut(fits.value, sig.samples);
    forall vol | 0 <= vol < sig.vols
      ensures FitDecay(num, Slice(sig, vol), tes, mask, masksum, fittype) == Ok(fits.value[vol])
      ensures HoldsVolume(ts, vol, fits.value[vol])
    {
      assert fitVolume(vol) == Ok(fits.value[vol]);
    }
    return Ok(ts);
  }
}
