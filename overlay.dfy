/** Ground-truth overlay (`vectors_to_raster`): the training polygons of the
    i-th class are burned with code i + 1 and the per-class rasters are added
    onto a zero raster. The rasterizer itself is taken as given: each class
    arrives as a coverage mask over the row-major pixels. */
module Overlay {

  /** True when every mask has one entry per pixel of a rows x cols raster. */
  predicate Shaped(masks: seq<seq<bool>>, n: nat)
  {
    forall i :: 0 <= i < |masks| ==> |masks[i]| == n
  }

  /** The raster the rasterizer burns for one class: `code` on covered pixels, 0 elsewhere. */
  function Burn(mask: seq<bool>, code: int): seq<int>
  {
    seq(|mask|, p requires 0 <= p < |mask| => if mask[p] then code else 0)
  }

  /** Reference value of pixel p: the sum of the codes i + 1 of all masks i covering it. */
  function CodeSum(masks: seq<seq<bool>>, p: nat): int
    requires forall i :: 0 <= i < |masks| ==> p < |masks[i]|
  {
    if masks == [] then 0
    else CodeSum(masks[..|masks| - 1], p) + (if masks[|masks| - 1][p] then |masks| else 0)
  }

  /** The overlay as a function of the masks: pixel p holds CodeSum(masks, p). */
  function GroundTruth(masks: seq<seq<bool>>, n: nat): seq<int>
    requires Shaped(masks, n)
  {
    seq(n, p requires 0 <= p < n => CodeSum(masks, p))
  }

  /** `vectors_to_raster`: accumulates the burned class rasters into a zero
      raster in list order; every pixel ends as the sum of the covering codes. */
  method VectorsToRaster(masks: seq<seq<bool>>, rows: nat, cols: nat) returns (labeled: seq<int>)
    requires Shaped(masks, rows * cols)
    ensures |labeled| == rows * cols
    ensures labeled == GroundTruth(masks, rows * cols)
  {
    var labeledPixels := new int[rows * cols](_ => 0);
    for i := 0 to |masks|
      invariant forall p :: 0 <= p < rows * cols ==> labeledPixels[p] == CodeSum(masks[..i], p)
    {
      var code := i + 1;
      var band := Burn(masks[i], code);
      assert masks[..i + 1][..i] == masks[..i];
      for p := 0 to rows * cols
        invariant forall q :: 0 <= q < p ==> labeledPixels[q] == CodeSum(masks[..i + 1], q)
        invariant forall q :: p <= q < rows * cols ==> labeledPixels[q] == CodeSum(masks[..i], q)
      {
        labeledPixels[p] := labeledPixels[p] + band[p];
      }
    }
    assert masks[..|masks|] == masks;
    labeled := labeledPixels[..];
  }

  /** A pixel no mask covers stays 0. */
  lemma {:induction false} UncoveredIsZero(masks: seq<seq<bool>>, p: nat)
    requires forall i :: 0 <= i < |masks| ==> p < |masks[i]| && !masks[i][p]
    ensures CodeSum(masks, p) == 0
  {
    if masks != [] {
      UncoveredIsZero(masks[..|masks| - 1], p);
    }
  }

  /** A pixel covered by exactly one mask i holds that class's code i + 1. */
  lemma {:induction false} SingleCoverIsCode(masks: seq<seq<bool>>, p: nat, i: nat)
    requires forall j :: 0 <= j < |masks| ==> p < |masks[j]|
    requires i < |masks| && masks[i][p]
    requires forall j :: 0 <= j < |masks| && j != i ==> !masks[j][p]
    ensures CodeSum(masks, p) == i + 1
  {
    var init := masks[..|masks| - 1];
    if i == |masks| - 1 {
      UncoveredIsZero(init, p);
    } else {
      SingleCoverIsCode(init, p, i);
    }
  }

  /** A pixel covered by exactly two masks i and j holds the sum of both
      codes, which for classes 1 and 2 is the code 3 of a third class. */
  lemma {:induction false} DoubleCoverIsSum(masks: seq<seq<bool>>, p: nat, i: nat, j: nat)
    requires forall k :: 0 <= k < |masks| ==> p < |masks[k]|
    requires i < j < |masks| && masks[i][p] && masks[j][p]
    requires forall k :: 0 <= k < |masks| && k != i && k != j ==> !masks[k][p]
    ensures CodeSum(masks, p) == i + j + 2
  {
    var init := masks[..|masks| - 1];
    if j == |masks| - 1 {
      SingleCoverIsCode(init, p, i);
    } else {
      DoubleCoverIsSum(init, p, i, j);
    }
  }

  /** With pairwise-disjoint masks every pixel holds 0 or one of the codes 1..n. */
  lemma {:induction false} DisjointCodesInRange(masks: seq<seq<bool>>, p: nat)
    requires forall i :: 0 <= i < |masks| ==> p < |masks[i]|
    requires forall i, j :: 0 <= i < j < |masks| ==> !(masks[i][p] && masks[j][p])
    ensures 0 <= CodeSum(masks, p) <= |masks|
    ensures CodeSum(masks, p) == 0 <==> forall i :: 0 <= i < |masks| ==> !masks[i][p]
  {
    if masks != [] {
      var init := masks[..|masks| - 1];
      DisjointCodesInRange(init, p);
      if masks[|masks| - 1][p] {
        assert forall i :: 0 <= i < |init| ==> !init[i][p];
        UncoveredIsZero(init, p);
      }
    }
  }

  /** Every pixel of the overlay is non-negative: no code is ever subtracted. */
  lemma {:induction false} CodeSumNonNegative(masks: seq<seq<bool>>, p: nat)
    requires forall i :: 0 <= i < |masks| ==> p < |masks[i]|
    ensures CodeSum(masks, p) >= 0
  {
    if masks != [] {
      CodeSumNonNegative(masks[..|masks| - 1], p);
    }
  }
}
