/** Per-segment feature vector (`segment_features`). The statistics of one
    band are those of scipy's `describe`, taken here as a given function;
    what is modelled is the layout of the vector and the single-pixel
    variance policy. */
module Features {

  /** A floating-point statistic: a finite value, or NaN (what `describe`
      reports for the sample variance of a single observation). */
  datatype Num = Finite(value: real) | NaN

  /** The result of `describe` on one band of a segment's pixels. */
  datatype Description = Description(nobs: nat, min: Num, max: Num, mean: Num,
                                     variance: Num, skewness: Num, kurtosis: Num)

  /** Number of entries per band: min, max, mean, variance, skewness, kurtosis. */
  const StatsPerBand := 6

  /** The pixels of a segment form an n_pixels x n_bands matrix. */
  predicate IsPixelMatrix(pixels: seq<seq<real>>, nBands: nat)
  {
    forall i :: 0 <= i < |pixels| ==> |pixels[i]| == nBands
  }

  /** `segment_pixels[:, b]`: band b of every pixel. */
  function Column(pixels: seq<seq<real>>, b: nat): seq<real>
    requires forall i :: 0 <= i < |pixels| ==> b < |pixels[i]|
  {
    seq(|pixels|, i requires 0 <= i < |pixels| => pixels[i][b])
  }

  /** Entries 6b..6b+5 of `features` are the statistics d of band b in the
      order min, max, mean, variance, skewness, kurtosis, the variance being
      exactly 0.0 when the segment has a single pixel. */
  predicate IsBandBlock(features: seq<Num>, b: nat, d: Description, nPixels: nat)
    requires StatsPerBand * b + StatsPerBand <= |features|
  {
    && features[6 * b] == d.min
    && features[6 * b + 1] == d.max
    && features[6 * b + 2] == d.mean
    && features[6 * b + 3] == (if nPixels == 1 then Finite(0.0) else d.variance)
    && features[6 * b + 4] == d.skewness
    && features[6 * b + 5] == d.kurtosis
  }

  /** The feature vector of a segment: one block of six entries per band, in band order. */
  predicate IsFeatureVector(features: seq<Num>, pixels: seq<seq<real>>, nBands: nat,
                            describe: seq<real> -> Description)
    requires IsPixelMatrix(pixels, nBands)
  {
    && |features| == StatsPerBand * nBands
    && forall b :: 0 <= b < nBands ==> IsBandBlock(features, b, describe(Column(pixels, b)), |pixels|)
  }

  /** `segment_features`: appends the six statistics of each band in turn. */
  method SegmentFeatures(pixels: seq<seq<real>>, nBands: nat, describe: seq<real> -> Description)
    returns (features: seq<Num>)
    requires |pixels| > 0
    requires IsPixelMatrix(pixels, nBands)
    ensures IsFeatureVector(features, pixels, nBands, describe)
    ensures |pixels| == 1 ==> forall b :: 0 <= b < nBands ==> features[6 * b + 3] == Finite(0.0)
  {
    features := [];
    var nPixels := |pixels|;
    for b := 0 to nBands
      invariant |features| == StatsPerBand * b
      invariant forall c :: 0 <= c < b ==> IsBandBlock(features, c, describe(Column(pixels, c)), nPixels)
    {
      var stats := describe(Column(pixels, b));
      var bandStats := [stats.min, stats.max, stats.mean, stats.variance, stats.skewness, stats.kurtosis];
      if nPixels == 1 {
        bandStats := bandStats[3 := Finite(0.0)];
      }
      features := features + bandStats;
    }
    forall b | 0 <= b < nBands
      ensures nPixels == 1 ==> features[6 * b + 3] == Finite(0.0)
    {
      assert IsBandBlock(features, b, describe(Column(pixels, b)), nPixels);
    }
  }

  /** A segment's feature vector is determined by its pixels: two vectors
      with the layout above are equal. */
  lemma FeatureVectorUnique(f1: seq<Num>, f2: seq<Num>, pixels: seq<seq<real>>, nBands: nat,
                            describe: seq<real> -> Description)
    requires IsPixelMatrix(pixels, nBands)
    requires IsFeatureVector(f1, pixels, nBands, describe)
    requires IsFeatureVector(f2, pixels, nBands, describe)
    ensures f1 == f2
  {
    forall i | 0 <= i < |f1| ensures f1[i] == f2[i] {
      var b, k := i / 6, i % 6;
      assert i == 6 * b + k && 0 <= k < 6 && b < nBands;
      var d := describe(Column(pixels, b));
      assert IsBandBlock(f1, b, d, |pixels|) && IsBandBlock(f2, b, d, |pixels|);
    }
  }
}
