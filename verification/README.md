# Monoexponential T2*/S0 decay fitting, modelled in Dafny

This project models the decay-fitting core of tedana (`tedana/decay.py`):
`fit_decay`, which fits `S(TE) = S0 * exp(-TE / T2*)` to every masked sample of
a (samples x echoes x volumes) multi-echo array, once per echo count
`2 .. E`, and `fit_decay_ts`, which runs `fit_decay` on every volume
separately.

The model follows the source's computation:
- shape validation, and the errors an empty selection or a single sample runs into;
- the mask selection `data[mask]`;
- the C-order flattening of each sample's first `k` echoes;
- the design matrix `np.repeat`ed once per volume;
- the log-linear least-squares fit and `1 / slope`;
- the optional `curve_fit` refinement, with its per-voxel fallback and failure count;
- the clamps;
- the zero-filled `unmask` into the (samples x E-1) stacks;
- the echo masks and the limited and full maps.

The floating-point collaborators are values of a `Numerics` datatype: `log(|x| + 1)`, `lstsq` against one
right-hand side, `exp`, `mono_exp` and `curve_fit`. Every property is proved
for every choice of them. Array values are IEEE-style extended reals
(`ExtReals.ExtReal`: finite, +inf, -inf, NaN).

The central theorems tie the whole-array computation to a per-sample reference
(`Decay.VoxelFit`):
- Entry `(s, j)` of both stacks is the fit of sample `s`'s own first `j + 2`
  echoes inside the mask, and zero outside it.
- Column `j` depends on those echoes only.
- The limited and full maps pick the stack entry prescribed by the adaptive
  echo count `masksum`.
- Clamped values stay in range.
- Each failure count counts exactly the masked samples whose nonlinear fit fails.
- Column `vol` of every `fit_decay_ts` output is what `fit_decay` gives for
  volume `vol` alone.

Modules:
- `Results`: `Option`, `Result` and the generic early-exit loop `CollectAll`.
- `ExtReals`: extended reals and the float reciprocal.
- `Layout`: flattening, `np.repeat`, elementwise map and matrix columns.
- `Masking`: boolean-mask reads and writes, and `unmask`.
- `Decay`: the operations.
- `DecayProofs`: the theorems about `fit_decay`.

## Model

| member | source | states |
|---|---|---|
| Decay.FitDecay | tedana/decay.py:95-120 | fails exactly when the echo count or the sample counts disagree, when the mask selects no sample, or when there is only one sample; the echo check comes first and reports (data echoes, len(tes)), then the sample error reports all three lengths, then an empty selection fails before a single sample does; on success the stacks are samples x (E-1) and the maps cover every sample |
| Decay.DesignRows | tedana/decay.py:124 | no contract of its own: `np.column_stack([np.ones(k), -tes[:k]])`; row `r` of its repetition is `(1, -tes[r / n_vols])` by `Decay.RowAlignment` |
| Decay.EchoTimes | tedana/decay.py:126 | no contract of its own: `X[:, 1] * -1`; that it reads back the echo time of every design row is stated by `Decay.RowAlignment` |
| Decay.DesignMatrix | tedana/decay.py:124-125 | `np.repeat` of the `(1, -te)` rows of the first `k` echoes, once per volume, has `k * n_vols` rows; what each row holds is stated by `Decay.RowAlignment` |
| Decay.Observations | tedana/decay.py:120 | no contract of its own: one sample's column of `data[:, :k, :].reshape(len(data), -1).T`, the C-order flattening of its first `k` echoes; its length and row layout are stated by `Decay.DesignLengths` and `Decay.RowAlignment` |
| Decay.DesignLengths | tedana/decay.py:120-126 | the flattened observations, the repeated design matrix and its echo-time column all have `k * n_vols` rows |
| Decay.RowAlignment | tedana/decay.py:120-126 | row `r` of the observations is echo `r / n_vols` at volume `r % n_vols`, row `r` of the design is `(1, -te)` for that same echo, and the echo-time column reads that echo time back |
| Layout.ConcatAtPosition | tedana/decay.py:120 | position `r` of a C-order flattening of rows of length `n` is element `r % n` of row `r / n` |
| Layout.RepeatAt | tedana/decay.py:125 | row `r` of `np.repeat(x, n, axis=0)` is row `r / n` of `x`, and the result has `len(x) * n` rows |
| ExtReals.Recip | tedana/decay.py:130 | `1. / slope`: a zero slope gives an infinity, an infinite slope gives zero, NaN exactly from NaN, a finite nonzero slope gives its true reciprocal, a positive one a positive value |
| Decay.LogLinear | tedana/decay.py:121-131 | no contract of its own: `log(abs(y) + 1)` regressed on the design, S0 = `exp(intercept)`, T2* = `1 / slope`; what the reciprocal gives is stated by `ExtReals.Recip`, and the clamped outcome by `Decay.VoxelFit` and `DecayProofs.FlatSignalGivesSentinel` |
| Decay.CurveFitOrKeep | tedana/decay.py:139-147 | a converged fit gives curve_fit's parameters; a failed one keeps the starting (log-linear) estimate |
| Decay.RefineAll | tedana/decay.py:137-147 | every voxel is refined from its own log-linear estimate, keeps that estimate when its fit fails, and the failure count equals the number of failing voxels, at most the number of voxels |
| Decay.EchoCountFitFailures | tedana/decay.py:133-147 | the failure count of one pass is zero unless the fit type is exactly "curvefit", and then counts the voxels whose own nonlinear fit fails |
| DecayProofs.FitDecayFailPercent | tedana/decay.py:148-149 | in curvefit mode the mask selects at least one sample, and the count logged for `j + 2` echoes is the number of masked samples whose own fit over those echoes fails, so the logged percentage is that number's share of the masked samples, scaled to 100 |
| Decay.FailPercent | tedana/decay.py:148-149 | the logged percentage is the share of failed fits out of the voxels, scaled to 100: it lies in [0, 100], is 0 exactly when no fit failed and 100 exactly when all failed |
| Decay.ClampT2s | tedana/decay.py:154-155 | infinities become 500, values at or below zero become 1, positive values are kept, NaN survives; the result is never infinite and every finite result is positive |
| Decay.ClampS0 | tedana/decay.py:156 | NaN becomes 0 and every other value, infinities included, is kept |
| Decay.VoxelFit | tedana/decay.py:117-156 | the per-sample estimate is clamped: T2* is finite and positive or NaN, S0 is never NaN |
| Decay.EchoCountFit | tedana/decay.py:117-156 | one pass of the echo-count loop over the masked samples gives one T2* and one S0 per masked sample; that each is the sample's own fit is `Decay.EchoCountFitMatchesVoxelFit`, and what the failure count counts is `Decay.EchoCountFitFailures` |
| Decay.EchoCountFitMatchesVoxelFit | tedana/decay.py:117-156 | the whole-array pass for `k` echoes gives every masked voxel exactly the estimate of its own per-sample fit |
| Masking.Select | tedana/decay.py:111 | `x[m]` has one entry per `True` position of `m` |
| Masking.Scatter | tedana/decay.py:172-173 | `t[m] = vals` keeps the length of `t`; the values it leaves are stated by `Masking.ScatterSelect` and `Masking.ScatterOutside` |
| Masking.ScatterOutside | tedana/decay.py:172-173 | writing through a mask leaves every `False` position as it was |
| Masking.Unmask | tedana/decay.py:158-168 | `utils.unmask(vals, m)` has the mask's length, is zero at every `False` position, and reading it back through `m` returns `vals` |
| Masking.UnmaskSelect | tedana/decay.py:158-159 | unmasking what the mask selected reads the original values inside the mask and zero outside it |
| Masking.SelectScatter | tedana/decay.py:158-159 | reading back through a mask what was written through it returns the written values |
| Layout.AssignColumnsEntry | tedana/decay.py:114-159 | after writing columns `0 .. n-1` of a zero array in turn, each written column holds its values and the rest keep the fill |
| Decay.EchoFits | tedana/decay.py:117-119 | one fit per echo count `2 .. E`, in loop order: entry `j` is the pass over the first `j + 2` echoes |
| Decay.StackColumns | tedana/decay.py:158-159 | column `j` of a stack is the unmasked result of pass `j`: one column per pass, each with one entry per sample |
| Decay.Stack | tedana/decay.py:114-159 | `t2ss` / `s0vs` is samples x (E-1); its entries are stated by `DecayProofs.StackEntry` and `DecayProofs.StackIsReference` |
| DecayProofs.StackColumnIsReference | tedana/decay.py:117-159 | the unmasked result of the pass over `k` echoes is the per-sample fit at masked samples and zero elsewhere |
| DecayProofs.StackEntry | tedana/decay.py:111-159 | entry `(s, j)` of `t2ss` and `s0vs` is the per-sample fit of sample `s`'s first `j + 2` echoes when `mask[s]`, and zero otherwise |
| DecayProofs.StackIsReference | tedana/decay.py:111-159 | the same for every entry of both stacks |
| DecayProofs.FitDecayStack | tedana/decay.py:111-159 | the `t2ss` and `s0vs` that `fit_decay` returns hold, entry by entry, the per-sample fits inside the mask and zero outside |
| DecayProofs.StackUsesLeadingEchoes | tedana/decay.py:117-120 | column `j` of either stack depends only on the first `j + 2` echoes: two signals agreeing there give the same column |
| DecayProofs.FitDecayClamped | tedana/decay.py:154-159 | every masked stack entry has a T2* that is finite and positive or NaN and an S0 that is not NaN; unmasked entries are zero |
| DecayProofs.FailureCountOfPass | tedana/decay.py:137-147 | a pass's failure count is at most the number of masked samples, zero outside curvefit mode, and in curvefit mode counts the masked samples whose fit fails |
| DecayProofs.PassFailures | tedana/decay.py:119-147 | the count recorded for `j + 2` echoes is at most the number of masked samples, zero outside curvefit mode, and in curvefit mode counts the masked samples whose own fit over their first `j + 2` echoes fails |
| DecayProofs.FitDecayFailures | tedana/decay.py:137-152 | the failure count `fit_decay` records for `j + 2` echoes counts the masked samples whose own fit over those echoes fails |
| Decay.FailCounts | tedana/decay.py:133-147 | one failure count per echo count `2 .. E`; what entry `j` counts is stated by `DecayProofs.PassFailures` |
| Decay.EchoMasks | tedana/decay.py:162-166 | `echo_masks` is samples x (E-1) and entry `(s, j)` is true exactly when `masksum[s] == j + 2`: each sample is marked in the column of its own echo count, and in none when that count is below 2 or above E |
| Decay.SelectByMasks | tedana/decay.py:167 | no contract of its own: `t2ss[echo_masks]`, the marked entries in row-major order; what it lists is stated by `Decay.EchoMaskSelection` |
| Decay.EchoMaskSelection | tedana/decay.py:162-167 | `t2ss[echo_masks]` lists, in sample order, entry `masksum - 2` of every sample with `masksum > 1` and nothing else |
| Decay.Usable | tedana/decay.py:167 | `masksum > 1` is true exactly at the samples with more than one good echo; the limited map built on it is stated by `Decay.LimitedMap` |
| Decay.LimitedMap | tedana/decay.py:162-168 | the limited map holds the entry for `masksum` echoes where `masksum >= 2`, and zero elsewhere |
| Masking.ScatterSelect | tedana/decay.py:171-173 | writing `x[m]` back through `m` sets the `True` positions to `x` and keeps every other entry |
| Decay.SingleEcho | tedana/decay.py:172-173 | `masksum == 1` is true exactly at the single-echo samples; the full map built on it is stated by `Decay.FullMap` |
| Decay.FullMap | tedana/decay.py:171-173 | the full map holds the two-echo estimate where `masksum == 1` and the limited map's value everywhere else |
| DecayProofs.FitDecayLimited | tedana/decay.py:162-168 | the limited maps `fit_decay` returns select, at every sample with `masksum >= 2`, the stack column for exactly `masksum` echoes, and are zero elsewhere |
| DecayProofs.FitDecayFull | tedana/decay.py:171-173 | the full maps `fit_decay` returns equal the limited maps except at single-echo samples, which take stack column 0 |
| DecayProofs.FullAtSingleEcho | tedana/decay.py:171-173 | at a sample with exactly one good echo the full maps hold that sample's own two-echo fit inside the mask and zero outside it; through `Decay.FitDecayTs` this is what every column of the full time series holds there |
| DecayProofs.FitDecayMapsByEchoCount | tedana/decay.py:162-173 | the three cases of the adaptive map: no good echo gives zero in both maps, one gives zero (limited) and the two-echo estimate (full), `k >= 2` give the `k`-echo estimate in both |
| DecayProofs.FlatSignalGivesSentinel | tedana/decay.py:130-155 | a zero least-squares slope, not replaced by a converged nonlinear fit, yields the T2* sentinel 500 rather than an infinity |
| Decay.FitMaps | tedana/decay.py:111-175 | the computation after validation: stacks of samples x (E-1), the four maps one entry per sample, one failure count per echo count; entry by entry it is described by `DecayProofs.FitDecayStack`, `FitDecayLimited`, `FitDecayFull` and `FitDecayFailures` |
| Decay.Slice | tedana/decay.py:224-225 | `data[:, :, vol][:, :, None]` keeps samples and echoes, has one volume, and entry `(s, e)` is the value at volume `vol` |
| Results.CollectAll | tedana/decay.py:223-225 | the loop over volumes succeeds exactly when every call does, collecting the values in order; otherwise it returns the error of the first failing call |
| Decay.LayOut | tedana/decay.py:218-229 | the four outputs are samples x volumes, and column `v` of each holds the matching map of volume `v` |
| DecayProofs.EqualVolumesFitEqually | tedana/decay.py:223-229 | two volumes whose data agree at every sample and echo are the same single-volume slice and get the same `fit_decay` maps, so their output columns are identical |
| Decay.FitDecayTs | tedana/decay.py:215-231 | fails, with `fit_decay`'s error for these shapes and this mask, exactly when there is a volume and `fit_decay` fails on it (shapes disagree, empty selection or a single sample); otherwise each output is samples x volumes and column `vol` is the map `fit_decay` gives for volume `vol` alone; with no volume nothing is fitted, so any echo count and `masksum` are accepted and the four outputs are samples x 0 |

## Left out

- The floating-point collaborators are parameters, not definitions: `np.log`/`np.abs`, `np.linalg.lstsq`, `np.exp`, `mono_exp` (lines 14-28) and `scipy.optimize.curve_fit`. Their numerical behaviour and rounding are out of scope. Every property holds for all of them.
- ExtReals.Recip: does not model rounding of a finite quotient, overflow of `1 / tiny` to an infinity, or the sign of zero; `1 / -0.0` is `-inf` in numpy, while this model has one zero and answers `+inf`. Both are infinite, and the T2* clamp maps both to 500. In curvefit mode the unclamped value is also `curve_fit`'s starting T2* (line 142), so after a slope of `-0.0` the model starts the fit from `+inf` where numpy starts it from `-inf`; every property holds for any `curve_fit`, but that oracle input differs.
- `curve_fit` is modelled by its two outcomes only: converged parameters, or the `RuntimeError` that the source catches. Other exceptions it can raise (for example `ValueError` on non-finite data) escape in the source and are not modelled.
- `lstsq` on the multi-column right-hand side is modelled one column at a time. Least squares solves every column independently against the shared design.
- `fit_data` and `fit_sigma` (lines 105-106, 112-113) are computed and never used; they are left out.
- Logging (lines 89-93 and 150-152) is left out; the logged percentage is modelled by `Decay.FailPercent`.
- The 2-D input path (lines 107-109) is left out. On 2-D input, line 112 reads `fit_data` before any assignment, so only 3-D arrays reach the computation.
- Decay.FitDecay: requires, when the shapes agree, at least two echoes, and, when the mask selects something and there are at least two samples, no `masksum` above the echo count. With no echoes `np.zeros` gets a negative dimension at line 114, and with one echo line 172 indexes column 0 of an empty stack; both raise inside numpy. A sample whose `masksum` exceeds the echo count is marked in no column of `echo_masks`, so the selection `t2ss[echo_masks]` at line 167 is shorter than the number of samples with `masksum > 1`. What `unmask` does then is decided in `tedana/utils.py`, which is not part of this model; with numpy's boolean assignment it raises, except when exactly one value was selected, which numpy broadcasts to every sample with `masksum > 1`. The requirement excludes all of these inputs, and none of their outcomes is modelled. The two numpy errors the mask alone decides are modelled as results: `EmptySelection` (line 120 cannot reshape zero selected samples) and `ScalarEchoMask` (with one sample, line 164 squeezes the echo-mask column to a scalar that line 165 cannot index).
- `tedana/utils.py` is not part of this model. `utils.unmask` is modelled as `Masking.Unmask`, from how it is used here: a zero array of the mask's length with the values scattered into the `True` positions.
- `tedana/io.py` and `tedana/reporting/brainsprites.py` are callers and reporting code, not part of this model.
- The `fit_decay_ts` docstring (lines 206-213) says the full time series uses the single echo's value at voxels with one good echo. The code (lines 224-229) writes `fit_decay`'s full maps, which take the two-echo estimate there (lines 171-173), as `fit_decay`'s own docstring says. The model follows the code; `DecayProofs.FullAtSingleEcho` states what it holds.
- Decay.FitDecayTs: the source writes each volume's maps into column `vol` of four zero arrays. The model collects the per-volume maps and lays them out as columns (`Decay.LayOut`), which gives the same arrays.
- The clamps do not make every output finite. Line 156 replaces only NaN S0, so an infinite S0 survives. A NaN T2* fails both tests at lines 154-155 and survives too. `DecayProofs.FitDecayClamped` states what holds.
