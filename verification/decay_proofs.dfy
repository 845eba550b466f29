/** What `fit_decay` promises about its outputs, proved of the model in
    `Decay`: every entry of the per-echo-count stack is the per-sample
    reference fit (or zero outside the mask), the limited and full maps pick
    from the stack exactly as the adaptive echo-count map prescribes, clamped
    values stay in range, and the failure counts count failed fits. */
module DecayProofs {
  import opened ExtReals
  import opened Layout
  import opened Masking
  import opened Results
  import opened Decay

  /** Inputs `fit_decay` accepts and computes on. */
  predicate Accepted(sig: Signal, tes: seq<real>, mask: seq<bool>, masksum: seq<int>)
  {
    WellShaped(sig) && Supported(sig, tes, mask, masksum) && ShapesAgree(sig, tes, mask, masksum) &&
    Fittable(mask)
  }

  /** One unmasked column of the stack: the reference fit of every sample
      inside the mask, zero outside it. */
  lemma StackColumnIsReference(num: Numerics, fittype: string, tes: seq<real>, nVols: nat,
                               cells: seq<seq<seq<ExtReal>>>, mask: seq<bool>, k: nat)
    requires |cells| == |mask| && k <= |tes|
    requires HasEchoes(cells, k)
    ensures HasEchoes(Select(cells, mask), k)
    ensures var fit := EchoCountFit(num, fittype, tes, nVols, Select(cells, mask), k);
            forall s :: 0 <= s < |mask| ==>
              && Unmask(fit.t2s, mask, Zero)[s] == (if mask[s] then VoxelFit(num, fittype, tes, nVols, cells[s], k).t2s else Zero)
              && Unmask(fit.s0, mask, Zero)[s] == (if mask[s] then VoxelFit(num, fittype, tes, nVols, cells[s], k).s0 else Zero)
  {
    SelectHasEchoes(cells, mask, k);
    var masked := Select(cells, mask);
    var fit := EchoCountFit(num, fittype, tes, nVols, masked, k);
    EchoCountFitMatchesVoxelFit(num, fittype, tes, nVols, masked, k);
    var fT := (v: seq<seq<ExtReal>>) => if k <= |v| then VoxelFit(num, fittype, tes, nVols, v, k).t2s else Zero;
    var fS := (v: seq<seq<ExtReal>>) => if k <= |v| then VoxelFit(num, fittype, tes, nVols, v, k).s0 else Zero;
    assert fit.t2s == Map(fT, masked);
    assert fit.s0 == Map(fS, masked);
    SelectMap(fT, cells, mask);
    SelectMap(fS, cells, mask);
    UnmaskSelect(Map(fT, cells), mask, Zero);
    UnmaskSelect(Map(fS, cells), mask, Zero);
  }

  /** Entry `(s, j)` of a stack is entry `s` of the unmasked result of the
      pass over `j + 2` echoes. */
  lemma StackColumnEntry(num: Numerics, fittype: string, tes: seq<real>, nVols: nat,
                         cells: seq<seq<seq<ExtReal>>>, mask: seq<bool>, nEchos: nat, s: nat, j: nat, t2s: bool)
    requires 2 <= nEchos <= |tes| && |cells| == |mask|
    requires HasEchoes(cells, nEchos)
    requires s < |mask| && j < nEchos - 1
    ensures HasEchoes(Select(cells, mask), j + 2)
    ensures var fit := EchoCountFit(num, fittype, tes, nVols, Select(cells, mask), j + 2);
            Stack(num, fittype, tes, nVols, cells, mask, nEchos, t2s)[s][j]
            == Unmask(if t2s then fit.t2s else fit.s0, mask, Zero)[s]
  {
    SelectHasEchoes(cells, mask, nEchos);
    var fits := EchoFits(num, fittype, tes, nVols, Select(cells, mask), nEchos);
    var cols := StackColumns(fits, mask, t2s);
    AssignColumnsEntry(Filled(|mask|, nEchos - 1, Zero), cols, s, j);
  }

  /** Entry `(s, j)` of a stack is the fit of the first `j + 2` echoes of
      sample `s` when the sample is inside the mask, and zero otherwise. */
  lemma StackEntry(num: Numerics, fittype: string, tes: seq<real>, nVols: nat,
                   cells: seq<seq<seq<ExtReal>>>, mask: seq<bool>, nEchos: nat, s: nat, j: nat)
    requires 2 <= nEchos <= |tes| && |cells| == |mask|
    requires HasEchoes(cells, nEchos)
    requires s < |mask| && j < nEchos - 1
    ensures Stack(num, fittype, tes, nVols, cells, mask, nEchos, true)[s][j]
            == (if mask[s] then VoxelFit(num, fittype, tes, nVols, cells[s], j + 2).t2s else Zero)
    ensures Stack(num, fittype, tes, nVols, cells, mask, nEchos, false)[s][j]
            == (if mask[s] then VoxelFit(num, fittype, tes, nVols, cells[s], j + 2).s0 else Zero)
  {
    StackEntryOf(num, fittype, tes, nVols, cells, mask, nEchos, s, j, true);
    StackEntryOf(num, fittype, tes, nVols, cells, mask, nEchos, s, j, false);
  }

  /** `StackEntry` for one of the two stacks. */
  lemma StackEntryOf(num: Numerics, fittype: string, tes: seq<real>, nVols: nat,
                     cells: seq<seq<seq<ExtReal>>>, mask: seq<bool>, nEchos: nat, s: nat, j: nat, t2s: bool)
    requires 2 <= nEchos <= |tes| && |cells| == |mask|
    requires HasEchoes(cells, nEchos)
    requires s < |mask| && j < nEchos - 1
    ensures Stack(num, fittype, tes, nVols, cells, mask, nEchos, t2s)[s][j]
            == (if !mask[s] then Zero
                else if t2s then VoxelFit(num, fittype, tes, nVols, cells[s], j + 2).t2s
                else VoxelFit(num, fittype, tes, nVols, cells[s], j + 2).s0)
  {
    if t2s {
      StackColumnEntry(num, fittype, tes, nVols, cells, mask, nEchos, s, j, true);
      ColumnEntryIsReference(num, fittype, tes, nVols, cells, mask, nEchos, s, j, true);
    } else {
      StackColumnEntry(num, fittype, tes, nVols, cells, mask, nEchos, s, j, false);
      ColumnEntryIsReference(num, fittype, tes, nVols, cells, mask, nEchos, s, j, false);
    }
  }

  /** `StackColumnIsReference` at one sample, for one of the two stacks. */
  lemma ColumnEntryIsReference(num: Numerics, fittype: string, tes: seq<real>, nVols: nat,
                               cells: seq<seq<seq<ExtReal>>>, mask: seq<bool>, nEchos: nat, s: nat, j: nat,
                               t2s: bool)
    requires 2 <= nEchos <= |tes| && |cells| == |mask|
    requires HasEchoes(cells, nEchos)
    requires s < |mask| && j < nEchos - 1
    ensures HasEchoes(Select(cells, mask), j + 2)
    ensures var fit := EchoCountFit(num, fittype, tes, nVols, Select(cells, mask), j + 2);
            Unmask(if t2s then fit.t2s else fit.s0, mask, Zero)[s]
            == (if !mask[s] then Zero
                else if t2s then VoxelFit(num, fittype, tes, nVols, cells[s], j + 2).t2s
                else VoxelFit(num, fittype, tes, nVols, cells[s], j + 2).s0)
  {
    assert HasEchoes(cells, j + 2);
    StackColumnIsReference(num, fittype, tes, nVols, cells, mask, j + 2);
    var fit := EchoCountFit(num, fittype, tes, nVols, Select(cells, mask), j + 2);
    if t2s {
      assert Unmask(fit.t2s, mask, Zero)[s]
             == if mask[s] then VoxelFit(num, fittype, tes, nVols, cells[s], j + 2).t2s else Zero;
    } else {
      assert Unmask(fit.s0, mask, Zero)[s]
             == if mask[s] then VoxelFit(num, fittype, tes, nVols, cells[s], j + 2).s0 else Zero;
    }
  }

  /** Every entry of both stacks is the per-sample reference fit inside the
      mask and zero outside it. */
  lemma StackIsReference(num: Numerics, fittype: string, tes: seq<real>, nVols: nat,
                         cells: seq<seq<seq<ExtReal>>>, mask: seq<bool>, nEchos: nat)
    requires 2 <= nEchos <= |tes| && |cells| == |mask|
    requires HasEchoes(cells, nEchos)
    ensures forall s, j :: 0 <= s < |mask| && 0 <= j < nEchos - 1 ==>
              && Stack(num, fittype, tes, nVols, cells, mask, nEchos, true)[s][j]
                 == (if mask[s] then VoxelFit(num, fittype, tes, nVols, cells[s], j + 2).t2s else Zero)
              && Stack(num, fittype, tes, nVols, cells, mask, nEchos, false)[s][j]
                 == (if mask[s] then VoxelFit(num, fittype, tes, nVols, cells[s], j + 2).s0 else Zero)
  {
    forall s, j | 0 <= s < |mask| && 0 <= j < nEchos - 1
      ensures && Stack(num, fittype, tes, nVols, cells, mask, nEchos, true)[s][j]
                 == (if mask[s] then VoxelFit(num, fittype, tes, nVols, cells[s], j + 2).t2s else Zero)
              && Stack(num, fittype, tes, nVols, cells, mask, nEchos, false)[s][j]
                 == (if mask[s] then VoxelFit(num, fittype, tes, nVols, cells[s], j + 2).s0 else Zero)
    {
      StackEntry(num, fittype, tes, nVols, cells, mask, nEchos, s, j);
    }
  }

  /** Column `j` of both stacks is the fit of the first `j + 2` echoes of
      each sample inside the mask, and zero at every sample outside it. */
  lemma FitDecayStack(num: Numerics, sig: Signal, tes: seq<real>, mask: seq<bool>, masksum: seq<int>,
                      fittype: string)
    requires Accepted(sig, tes, mask, masksum)
    ensures var maps := FitDecay(num, sig, tes, mask, masksum, fittype).value;
            forall s, j :: 0 <= s < sig.samples && 0 <= j < sig.echos - 1 ==>
              && maps.t2ss[s][j] == (if mask[s] then VoxelFit(num, fittype, tes, sig.vols, sig.cells[s], j + 2).t2s else Zero)
              && maps.s0vs[s][j] == (if mask[s] then VoxelFit(num, fittype, tes, sig.vols, sig.cells[s], j + 2).s0 else Zero)
  {
    StackIsReference(num, fittype, tes, sig.vols, sig.cells, mask, sig.echos);
  }

  /** Column `j` of a stack depends on the first `j + 2` echoes only: two
      signals that agree on those echoes at every sample, whatever their
      later echoes hold, give the same column `j`. */
  lemma StackUsesLeadingEchoes(num: Numerics, fittype: string, tes: seq<real>, nVols: nat,
                               cells: seq<seq<seq<ExtReal>>>, other: seq<seq<seq<ExtReal>>>,
                               mask: seq<bool>, nEchos: nat, j: nat)
    requires 2 <= nEchos <= |tes| && |cells| == |mask| && |other| == |mask|
    requires HasEchoes(cells, nEchos) && HasEchoes(other, nEchos) && j < nEchos - 1
    requires forall s :: 0 <= s < |mask| ==> other[s][..j + 2] == cells[s][..j + 2]
    ensures Column(Stack(num, fittype, tes, nVols, cells, mask, nEchos, true), j)
            == Column(Stack(num, fittype, tes, nVols, other, mask, nEchos, true), j)
    ensures Column(Stack(num, fittype, tes, nVols, cells, mask, nEchos, false), j)
            == Column(Stack(num, fittype, tes, nVols, other, mask, nEchos, false), j)
  {
    forall s | 0 <= s < |mask|
      ensures Stack(num, fittype, tes, nVols, cells, mask, nEchos, true)[s][j]
              == Stack(num, fittype, tes, nVols, other, mask, nEchos, true)[s][j]
      ensures Stack(num, fittype, tes, nVols, cells, mask, nEchos, false)[s][j]
              == Stack(num, fittype, tes, nVols, other, mask, nEchos, false)[s][j]
    {
      StackEntry(num, fittype, tes, nVols, cells, mask, nEchos, s, j);
      StackEntry(num, fittype, tes, nVols, other, mask, nEchos, s, j);
      assert Observations(cells[s], j + 2) == Observations(other[s], j + 2);
    }
  }

  /** The limited maps hold, at every sample with `masksum >= 2`, the stack
      entry fitted from exactly `masksum` echoes, and zero at every sample
      with `masksum <= 1`. */
  lemma FitDecayLimited(num: Numerics, sig: Signal, tes: seq<real>, mask: seq<bool>, masksum: seq<int>,
                        fittype: string)
    requires Accepted(sig, tes, mask, masksum)
    ensures var maps := FitDecay(num, sig, tes, mask, masksum, fittype).value;
            forall s :: 0 <= s < sig.samples ==>
              && maps.t2sLimited[s] == (if masksum[s] >= 2 then maps.t2ss[s][masksum[s] - 2] else Zero)
              && maps.s0Limited[s] == (if masksum[s] >= 2 then maps.s0vs[s][masksum[s] - 2] else Zero)
  {
  }

  /** The full maps equal the limited maps except at samples with exactly one
      good echo, which take the two-echo estimate (stack column 0). */
  lemma FitDecayFull(num: Numerics, sig: Signal, tes: seq<real>, mask: seq<bool>, masksum: seq<int>,
                     fittype: string)
    requires Accepted(sig, tes, mask, masksum)
    ensures var maps := FitDecay(num, sig, tes, mask, masksum, fittype).value;
            forall s :: 0 <= s < sig.samples ==>
              && maps.t2sFull[s] == (if masksum[s] == 1 then maps.t2ss[s][0] else maps.t2sLimited[s])
              && maps.s0Full[s] == (if masksum[s] == 1 then maps.s0vs[s][0] else maps.s0Limited[s])
  {
  }

  /** The three cases of the adaptive echo-count map, for both output pairs:
      no usable echo gives zero in both maps; one good echo gives zero in the
      limited map and the two-echo estimate in the full map; `k >= 2` good
      echoes give the `k`-echo estimate in both. */
  lemma FitDecayMapsByEchoCount(num: Numerics, sig: Signal, tes: seq<real>, mask: seq<bool>, masksum: seq<int>,
                                fittype: string, s: nat)
    requires Accepted(sig, tes, mask, masksum) && s < sig.samples
    ensures var maps := FitDecay(num, sig, tes, mask, masksum, fittype).value;
            && (masksum[s] <= 0 ==>
                  maps.t2sLimited[s] == Zero && maps.t2sFull[s] == Zero &&
                  maps.s0Limited[s] == Zero && maps.s0Full[s] == Zero)
            && (masksum[s] == 1 ==>
                  maps.t2sLimited[s] == Zero && maps.t2sFull[s] == maps.t2ss[s][0] &&
                  maps.s0Limited[s] == Zero && maps.s0Full[s] == maps.s0vs[s][0])
            && (masksum[s] >= 2 ==>
                  maps.t2sLimited[s] == maps.t2sFull[s] == maps.t2ss[s][masksum[s] - 2] &&
                  maps.s0Limited[s] == maps.s0Full[s] == maps.s0vs[s][masksum[s] - 2])
  {
    FitDecayLimited(num, sig, tes, mask, masksum, fittype);
    FitDecayFull(num, sig, tes, mask, masksum, fittype);
  }

  /** After clamping no T2* estimate is infinite and no non-NaN one is at or
      below zero, and no S0 estimate is NaN; samples outside the mask hold
      zero. S0 can still be infinite. */
  lemma FitDecayClamped(num: Numerics, sig: Signal, tes: seq<real>, mask: seq<bool>, masksum: seq<int>,
                        fittype: string)
    requires Accepted(sig, tes, mask, masksum)
    ensures var maps := FitDecay(num, sig, tes, mask, masksum, fittype).value;
            forall s, j :: 0 <= s < sig.samples && 0 <= j < sig.echos - 1 ==>
              && (mask[s] ==> (ClampedT2s(maps.t2ss[s][j]) || maps.t2ss[s][j].NaN?) && ClampedS0(maps.s0vs[s][j]))
              && (!mask[s] ==> maps.t2ss[s][j] == Zero && maps.s0vs[s][j] == Zero)
  {
    FitDecayStack(num, sig, tes, mask, masksum, fittype);
  }

  /** The failure count of one echo-count pass counts the masked samples
      whose nonlinear fit fails (in curvefit mode; zero otherwise). */
  lemma FailureCountOfPass(num: Numerics, fittype: string, tes: seq<real>, nVols: nat,
                           cells: seq<seq<seq<ExtReal>>>, mask: seq<bool>, k: nat)
    requires |cells| == |mask| && k <= |tes|
    requires HasEchoes(cells, k)
    ensures HasEchoes(Select(cells, mask), k)
    ensures var fit := EchoCountFit(num, fittype, tes, nVols, Select(cells, mask), k);
            && fit.failCount <= Count(mask)
            && (fittype != CurveFitMode ==> fit.failCount == 0)
            && (fittype == CurveFitMode ==>
                  fit.failCount == Count(MaskedFailures(num, tes, nVols, cells, mask, k)))
  {
    SelectHasEchoes(cells, mask, k);
    var masked := Select(cells, mask);
    var flags := VoxelFailures(num, tes, nVols, cells, k);
    EchoCountFitFailures(num, fittype, tes, nVols, masked, k);
    assert VoxelFailures(num, tes, nVols, masked, k) == Select(flags, mask) by {
      var fails := (v: seq<seq<ExtReal>>) => k <= |v| && VoxelFitFails(num, tes, nVols, v, k);
      SelectMap(fails, cells, mask);
      assert flags == Map(fails, cells);
      assert VoxelFailures(num, tes, nVols, masked, k) == Map(fails, masked);
    }
    CountSelect(flags, mask);
    assert seq(|mask|, s requires 0 <= s < |mask| => mask[s] && flags[s])
        == MaskedFailures(num, tes, nVols, cells, mask, k);
  }

  /** In curvefit mode the failure count of echo count `j + 2` is the number
      of masked samples whose nonlinear fit fails; otherwise it is zero.
      Either way it never exceeds the number of masked samples. */
  lemma FitDecayFailures(num: Numerics, sig: Signal, tes: seq<real>, mask: seq<bool>, masksum: seq<int>,
                         fittype: string, j: nat)
    requires Accepted(sig, tes, mask, masksum) && j < sig.echos - 1
    ensures var maps := FitDecay(num, sig, tes, mask, masksum, fittype).value;
            && maps.failCounts[j] <= Count(mask)
            && (fittype != CurveFitMode ==> maps.failCounts[j] == 0)
            && (fittype == CurveFitMode ==>
                  maps.failCounts[j] == Count(MaskedFailures(num, tes, sig.vols, sig.cells, mask, j + 2)))
  {
    PassFailures(num, fittype, tes, sig.vols, sig.cells, mask, sig.echos, j);
    assert FitDecay(num, sig, tes, mask, masksum, fittype) == Ok(FitMaps(num, sig, tes, mask, masksum, fittype));
  }

  /** The recorded count for `j + 2` echoes, entry `j` of the passes' failure
      counts, counts the masked samples whose own fit over those echoes
      fails (in curvefit mode; zero otherwise). */
  lemma PassFailures(num: Numerics, fittype: string, tes: seq<real>, nVols: nat,
                     cells: seq<seq<seq<ExtReal>>>, mask: seq<bool>, nEchos: nat, j: nat)
    requires 2 <= nEchos <= |tes| && |cells| == |mask|
    requires HasEchoes(cells, nEchos) && j < nEchos - 1
    ensures var n := FailCounts(num, fittype, tes, nVols, cells, mask, nEchos)[j];
            && n <= Count(mask)
            && (fittype != CurveFitMode ==> n == 0)
            && (fittype == CurveFitMode ==> n == Count(MaskedFailures(num, tes, nVols, cells, mask, j + 2)))
  {
    FailureCountOfPass(num, fittype, tes, nVols, cells, mask, j + 2);
    SelectHasEchoes(cells, mask, nEchos);
    var fits := EchoFits(num, fittype, tes, nVols, Select(cells, mask), nEchos);
    assert fits[j] == EchoCountFit(num, fittype, tes, nVols, Select(cells, mask), j + 2);
  }

  /** A flat signal (least-squares slope exactly zero) gives the T2* sentinel
      500 rather than an infinity, when no nonlinear fit replaces it. */
  lemma FlatSignalGivesSentinel(num: Numerics, fittype: string, tes: seq<real>, nVols: nat,
                                voxel: seq<seq<ExtReal>>, k: nat)
    requires k <= |tes| && k <= |voxel|
    requires num.lstsq(DesignMatrix(tes, k, nVols), Map(num.logAbs1, Observations(voxel, k))).slope == Zero
    requires fittype != CurveFitMode ||
             FitFails(num, EchoTimes(DesignMatrix(tes, k, nVols)), Observations(voxel, k),
                      LogLinear(num, DesignMatrix(tes, k, nVols), Observations(voxel, k)))
    ensures VoxelFit(num, fittype, tes, nVols, voxel, k).t2s == Fin(InfiniteT2sValue)
  {
  }

  /** Columns of `fit_decay_ts` are independent of one another: two volumes
      whose data agree at every sample and echo are the same single-volume
      slice, so `fit_decay` gives them the same maps and their columns are
      identical. */
  lemma EqualVolumesFitEqually(num: Numerics, sig: Signal, tes: seq<real>, mask: seq<bool>, masksum: seq<int>,
                               fittype: string, v: nat, w: nat)
    requires WellShaped(sig) && Supported(sig, tes, mask, masksum)
    requires v < sig.vols && w < sig.vols
    requires forall s, e :: 0 <= s < sig.samples && 0 <= e < sig.echos ==> sig.cells[s][e][v] == sig.cells[s][e][w]
    ensures Slice(sig, v) == Slice(sig, w)
    ensures FitDecay(num, Slice(sig, v), tes, mask, masksum, fittype)
            == FitDecay(num, Slice(sig, w), tes, mask, masksum, fittype)
  {
    var a, b := Slice(sig, v), Slice(sig, w);
    forall s | 0 <= s < sig.samples
      ensures a.cells[s] == b.cells[s]
    {
      assert forall e :: 0 <= e < sig.echos ==> a.cells[s][e] == b.cells[s][e];
    }
  }

  /** At a sample with exactly one good echo the full maps hold that
      sample's own two-echo fit inside the mask and zero outside it. Run once
      per volume, this is what every column of the full time series holds
      at such a sample. */
  lemma FullAtSingleEcho(num: Numerics, sig: Signal, tes: seq<real>, mask: seq<bool>, masksum: seq<int>,
                         fittype: string, s: nat)
    requires Accepted(sig, tes, mask, masksum)
    requires s < sig.samples && masksum[s] == 1
    ensures var maps := FitDecay(num, sig, tes, mask, masksum, fittype).value;
            && maps.t2sFull[s] == (if mask[s] then VoxelFit(num, fittype, tes, sig.vols, sig.cells[s], 2).t2s else Zero)
            && maps.s0Full[s] == (if mask[s] then VoxelFit(num, fittype, tes, sig.vols, sig.cells[s], 2).s0 else Zero)
  {
    FitDecayFull(num, sig, tes, mask, masksum, fittype);
    FitDecayStack(num, sig, tes, mask, masksum, fittype);
  }

  /** The percentage logged in curvefit mode for `j + 2` echoes is the
      percentage of masked samples whose own nonlinear fit over those echoes
      fails; the mask selects at least one sample, so it is defined. */
  lemma FitDecayFailPercent(num: Numerics, sig: Signal, tes: seq<real>, mask: seq<bool>, masksum: seq<int>,
                            j: nat)
    requires Accepted(sig, tes, mask, masksum) && j < sig.echos - 1
    ensures 0 < Count(mask)
    ensures var maps := FitDecay(num, sig, tes, mask, masksum, CurveFitMode).value;
            var failing := Count(MaskedFailures(num, tes, sig.vols, sig.cells, mask, j + 2));
            && maps.failCounts[j] == failing <= Count(mask)
            && FailPercent(maps.failCounts[j], Count(mask)) == FailPercent(failing, Count(mask))
  {
    FitDecayFailures(num, sig, tes, mask, masksum, CurveFitMode, j);
  }
}
