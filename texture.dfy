/** ml_Extract_Temporal_Texture: runs each selected feature on P and copies
    the feature locals into the TEXTURE record, field by field, in the
    source's order.  The features with logarithms, square roots or the
    eigen-solver are not part of this model: their results come in as
    `Outside`.  A local whose feature is not selected is never assigned in
    the source, so its value is whatever the local held; it comes in as
    `Stale`. */
module Extraction {
  import opened Sums
  import opened Glcm
  import opened Features
  import opened Scratch

  /** TEXTURE_FEATURE_MAP: which of the fourteen features the caller wants. */
  datatype FeatureMap = FeatureMap(
    asm: bool, contrast: bool, correlation: bool, variance: bool, idm: bool,
    sumAvg: bool, sumVar: bool, sumEntropy: bool, entropy: bool,
    diffVar: bool, diffEntropy: bool, measCorr1: bool, measCorr2: bool,
    maxCorrCoef: bool)

  /** Entry [0] of each field of TEXTURE. */
  datatype Texture = Texture(
    asm: real, contrast: real, correlation: real, variance: real, idm: real,
    sumAvg: real, sumVar: real, sumEntropy: real, entropy: real,
    diffVar: real, diffEntropy: real, measCorr1: real, measCorr2: real,
    maxCorrCoef: real)

  /** The values of the one-element local arrays before any feature writes them. */
  datatype Stale = Stale(
    asm: real, contrast: real, corr: real, variance: real, idm: real,
    savg: real, sentropy: real, svar: real, entropy: real, dvar: real,
    dentropy: real, icorr: real)

  /** What the features outside this model return: f3_corr, the entropy sum
      of f8_sentropy, f9_entropy, the entropy sum of f11_dentropy, f12_icorr,
      f13_icorr and f14_maxcorr. */
  datatype Outside = Outside(
    corr: real, sentropy: real, entropy: real, dentropy: real,
    icorr1: real, icorr2: real, maxcorr: real)

  /** The value of a selected feature, or the stale local otherwise. */
  function Pick(selected: bool, computed: real, stale: real): real
  {
    if selected then computed else stale
  }

  /** The argument S that f7_svar receives: sentropy[0], set only when sum_var is selected. */
  function SumVarianceCentre(usage: FeatureMap, stale: Stale, outside: Outside): real
  {
    Pick(usage.sumVar, outside.sentropy, stale.sentropy)
  }

  /** The features of the sum distribution, each of which uses Pxpy. */
  predicate SumScratch(usage: FeatureMap)
  {
    usage.sumAvg || usage.sumVar || usage.sumEntropy
  }

  /** The features of the difference distribution, each of which uses Pxpy. */
  predicate DiffScratch(usage: FeatureMap)
  {
    usage.diffVar || usage.diffEntropy
  }

  /** Fills the TEXTURE record: each field receives its local, and the local
      is the feature's value when its flag is set.  sum_entropy receives svar,
      the same value as sum_var; meas_corr1 and meas_corr2 share the local
      icorr; max_corr_coef is 0 when unselected. */
  method ExtractTemporalTexture(P: Matrix, tones: nat, usage: FeatureMap, stale: Stale, outside: Outside,
                                pxpy: array<real>) returns (t: Texture)
    requires IsMatrix(P, tones)
    requires SumScratch(usage) || DiffScratch(usage) ==> 2 * tones < pxpy.Length
    modifies pxpy
    ensures t.asm == Pick(usage.asm, Asm(P, tones), stale.asm)
    ensures t.contrast == Pick(usage.contrast, ContrastOf(P, tones), stale.contrast)
    ensures t.correlation == Pick(usage.correlation, outside.corr, stale.corr)
    ensures t.variance == Pick(usage.variance, VarianceOf(P, tones), stale.variance)
    ensures t.idm == Pick(usage.idm, Idm(P, tones), stale.idm)
    ensures t.sumAvg == Pick(usage.sumAvg, SumAverageOf(P, tones), stale.savg)
    ensures t.sumVar == Pick(usage.sumEntropy, SumVarianceOf(P, tones, SumVarianceCentre(usage, stale, outside)), stale.svar)
    ensures t.sumEntropy == t.sumVar
    ensures t.entropy == Pick(usage.entropy, outside.entropy, stale.entropy)
    ensures t.diffVar == Pick(usage.diffVar, DiffVarianceOf(P, tones), stale.dvar)
    ensures t.diffEntropy == Pick(usage.diffEntropy, outside.dentropy, stale.dentropy)
    ensures t.measCorr1 == Pick(usage.measCorr1, outside.icorr1, stale.icorr)
    ensures t.measCorr2 == Pick(usage.measCorr2, outside.icorr2, t.measCorr1)
    ensures t.maxCorrCoef == Pick(usage.maxCorrCoef, outside.maxcorr, 0.0)
    ensures DiffScratch(usage) ==> forall k :: 0 <= k <= 2 * tones ==> pxpy[k] == DiffDistribution(P, tones)(k)
    ensures !DiffScratch(usage) && (usage.sumEntropy || (usage.sumAvg && !usage.sumVar)) ==>
              forall k :: 0 <= k <= 2 * tones ==> pxpy[k] == SumDistribution(P, tones)(k)
    ensures !DiffScratch(usage) && usage.sumVar && !usage.sumEntropy ==>
              forall k :: 0 <= k <= 2 * tones ==> pxpy[k] == SumDistribution(P, tones)(k - 2)
    ensures !SumScratch(usage) && !DiffScratch(usage) ==> pxpy[..] == old(pxpy[..])
    ensures forall k :: 2 * tones < k < pxpy.Length ==> pxpy[k] == old(pxpy[k])
  {
    var asm, contrast, variance, idm := MatrixFeatures(P, tones, usage, stale);
    var corr := Pick(usage.correlation, outside.corr, stale.corr);
    var savg, svar := SumFeatures(P, tones, usage, stale, outside, pxpy);
    var entropy := Pick(usage.entropy, outside.entropy, stale.entropy);
    var dvar, dentropy := DiffFeatures(P, tones, usage, stale, outside, pxpy);
    var icorr := stale.icorr;
    if usage.measCorr1 {
      icorr := outside.icorr1;
    }
    var measCorr1 := icorr;
    if usage.measCorr2 {
      icorr := outside.icorr2;
    }
    var maxcorr: real;
    if usage.maxCorrCoef {
      maxcorr := outside.maxcorr;
    } else {
      maxcorr := 0.0;
    }
    t := Texture(asm, contrast, corr, variance, idm, savg, svar, svar, entropy,
                 dvar, dentropy, measCorr1, icorr, maxcorr);
  }

  /** f1_asm, f2_contrast, f4_var and f5_idm, each run when its flag is set. */
  method MatrixFeatures(P: Matrix, tones: nat, usage: FeatureMap, stale: Stale)
    returns (asm: real, contrast: real, variance: real, idm: real)
    requires IsMatrix(P, tones)
    ensures asm == Pick(usage.asm, Asm(P, tones), stale.asm)
    ensures contrast == Pick(usage.contrast, ContrastOf(P, tones), stale.contrast)
    ensures variance == Pick(usage.variance, VarianceOf(P, tones), stale.variance)
    ensures idm == Pick(usage.idm, Idm(P, tones), stale.idm)
  {
    asm, contrast, variance, idm := stale.asm, stale.contrast, stale.variance, stale.idm;
    if usage.asm {
      asm := AngularSecondMoment(P, tones);
    }
    if usage.contrast {
      contrast := Contrast(P, tones);
    }
    if usage.variance {
      variance := Variance(P, tones);
    }
    if usage.idm {
      idm := InverseDifferenceMoment(P, tones);
    }
  }

  /** f6_savg under sum_avg, then f8_sentropy under sum_var, then f7_svar
      under sum_entropy, centred at whatever sentropy holds by then. */
  method SumFeatures(P: Matrix, tones: nat, usage: FeatureMap, stale: Stale, outside: Outside, pxpy: array<real>)
    returns (savg: real, svar: real)
    requires IsMatrix(P, tones)
    requires SumScratch(usage) ==> 2 * tones < pxpy.Length
    modifies pxpy
    ensures savg == Pick(usage.sumAvg, SumAverageOf(P, tones), stale.savg)
    ensures svar == Pick(usage.sumEntropy, SumVarianceOf(P, tones, SumVarianceCentre(usage, stale, outside)), stale.svar)
    ensures usage.sumEntropy || (usage.sumAvg && !usage.sumVar) ==>
              forall k :: 0 <= k <= 2 * tones ==> pxpy[k] == SumDistribution(P, tones)(k)
    ensures usage.sumVar && !usage.sumEntropy ==>
              forall k :: 0 <= k <= 2 * tones ==> pxpy[k] == SumDistribution(P, tones)(k - 2)
    ensures !SumScratch(usage) ==> pxpy[..] == old(pxpy[..])
    ensures forall k :: 2 * tones < k < pxpy.Length ==> pxpy[k] == old(pxpy[k])
  {
    savg, svar := stale.savg, stale.svar;
    var sentropy := stale.sentropy;
    if usage.sumAvg {
      savg := SumAverage(P, tones, pxpy);
    }
    if usage.sumVar {
      SumEntropyBuckets(P, tones, pxpy);
      sentropy := outside.sentropy;
    }
    if usage.sumEntropy {
      svar := SumVariance(P, tones, sentropy, pxpy);
    }
  }

  /** f10_dvar under diff_var, then the bucketing of f11_dentropy under diff_entropy. */
  method DiffFeatures(P: Matrix, tones: nat, usage: FeatureMap, stale: Stale, outside: Outside, pxpy: array<real>)
    returns (dvar: real, dentropy: real)
    requires IsMatrix(P, tones)
    requires DiffScratch(usage) ==> 2 * tones < pxpy.Length
    modifies pxpy
    ensures dvar == Pick(usage.diffVar, DiffVarianceOf(P, tones), stale.dvar)
    ensures dentropy == Pick(usage.diffEntropy, outside.dentropy, stale.dentropy)
    ensures DiffScratch(usage) ==> forall k :: 0 <= k <= 2 * tones ==> pxpy[k] == DiffDistribution(P, tones)(k)
    ensures !DiffScratch(usage) ==> pxpy[..] == old(pxpy[..])
    ensures forall k :: 2 * tones < k < pxpy.Length ==> pxpy[k] == old(pxpy[k])
  {
    dvar, dentropy := stale.dvar, stale.dentropy;
    if usage.diffVar {
      dvar := DifferenceVariance(P, tones, pxpy);
    }
    if usage.diffEntropy {
      DiffBuckets(P, tones, pxpy);
      dentropy := outside.dentropy;
    }
  }
}
