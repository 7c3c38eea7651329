/** After training, the predicted class of each segment is painted into a
    copy of the segment map, and the building mask is derived from the
    result. Rasters are row-major sequences of pixels; the classifier's
    output is an arbitrary sequence of class codes. */
module Prediction {
  import opened GridOps

  /** `zip(objects_ids, predicted)`: the painting steps, truncated to the shorter list. */
  function Zip(ids: seq<int>, preds: seq<int>): seq<(int, int)>
  {
    var n := if |ids| < |preds| then |ids| else |preds|;
    seq(n, i requires 0 <= i < n => (ids[i], preds[i]))
  }

  /** `clf[keys == key] = v` */
  function MaskAssign(clf: seq<int>, keys: seq<int>, key: int, v: int): seq<int>
    requires |keys| == |clf|
  {
    seq(|clf|, p requires 0 <= p < |clf| => if keys[p] == key then v else clf[p])
  }

  /** The painting loop as written: starting from the segment map, each step
      (id, klass) sets every pixel whose CURRENT value is id to klass. */
  function Painted(clf: seq<int>, steps: seq<(int, int)>): (r: seq<int>)
    ensures |r| == |clf|
  {
    if steps == [] then clf
    else
      var prev := Painted(clf, steps[..|steps| - 1]);
      MaskAssign(prev, prev, steps[|steps| - 1].0, steps[|steps| - 1].1)
  }

  /** Painting by the ORIGINAL segment map: each step sets every pixel whose
      segment is id to klass, whatever earlier steps wrote there. */
  function BySegment(segments: seq<int>, steps: seq<(int, int)>): (r: seq<int>)
    ensures |r| == |segments|
  {
    if steps == [] then segments
    else MaskAssign(BySegment(segments, steps[..|steps| - 1]), segments, steps[|steps| - 1].0, steps[|steps| - 1].1)
  }

  /** The class of the last step for `key`, or d when no step names it. */
  function LastPrediction(steps: seq<(int, int)>, key: int, d: int): (r: int)
    ensures (forall i :: 0 <= i < |steps| ==> steps[i].0 != key) ==> r == d
    ensures (exists i :: 0 <= i < |steps| && steps[i].0 == key) ==>
      exists i :: 0 <= i < |steps| && steps[i].0 == key && r == steps[i].1 &&
        forall j :: i < j < |steps| ==> steps[j].0 != key
  {
    if steps == [] then d
    else
      var last := |steps| - 1;
      if steps[last].0 == key then steps[last].1
      else
        var rest := LastPrediction(steps[..last], key, d);
        assert forall i :: 0 <= i < last ==> steps[..last][i] == steps[i];
        rest
  }

  /** No two steps name the same segment id. */
  predicate DistinctIds(steps: seq<(int, int)>)
  {
    forall i, j :: 0 <= i < j < |steps| ==> steps[i].0 != steps[j].0
  }

  /** No predicted class equals the id of a segment painted later. */
  predicate NoCollision(steps: seq<(int, int)>)
  {
    forall i, j :: 0 <= i < j < |steps| ==> steps[i].1 != steps[j].0
  }

  /** Painting by segment gives every pixel the class of the last step for its
      segment, and leaves a pixel whose segment no step names unchanged. */
  lemma {:induction false} BySegmentPixel(segments: seq<int>, steps: seq<(int, int)>, p: nat)
    requires p < |segments|
    ensures BySegment(segments, steps)[p] == LastPrediction(steps, segments[p], segments[p])
  {
    if steps != [] {
      var last := |steps| - 1;
      BySegmentPixel(segments, steps[..last], p);
      if steps[last].0 != segments[p] {
        assert forall i :: 0 <= i < last ==> steps[..last][i] == steps[i];
      }
    }
  }

  /** Every pixel of the painted map holds its original value or one of the predicted classes. */
  lemma {:induction false} PaintedValueOrigin(clf: seq<int>, steps: seq<(int, int)>, p: nat)
    requires p < |clf|
    ensures Painted(clf, steps)[p] == clf[p] || exists i :: 0 <= i < |steps| && Painted(clf, steps)[p] == steps[i].1
  {
    if steps != [] {
      var last := |steps| - 1;
      PaintedValueOrigin(clf, steps[..last], p);
      if Painted(clf, steps)[p] != steps[last].1 && Painted(clf, steps)[p] != clf[p] {
        var i :| 0 <= i < last && Painted(clf, steps[..last])[p] == steps[..last][i].1;
        assert steps[..last][i] == steps[i];
      }
    }
  }

  /** With distinct ids and no predicted class equal to a later id, painting
      by the current values gives the same map as painting by segment. */
  lemma {:induction false} PaintedMatchesBySegment(segments: seq<int>, steps: seq<(int, int)>)
    requires DistinctIds(steps) && NoCollision(steps)
    ensures Painted(segments, steps) == BySegment(segments, steps)
  {
    if steps != [] {
      var last := |steps| - 1;
      var init := steps[..last];
      assert forall i :: 0 <= i < last ==> init[i] == steps[i];
      PaintedMatchesBySegment(segments, init);
      var b := BySegment(segments, init);
      var (id, klass) := steps[last];
      forall p | 0 <= p < |segments| ensures b[p] == id <==> segments[p] == id {
        BySegmentPixel(segments, init, p);
        if exists i :: 0 <= i < last && init[i].0 == segments[p] {
          var i :| 0 <= i < last && init[i].0 == segments[p] && b[p] == init[i].1;
          assert steps[i].1 != id && steps[i].0 != id;
        }
      }
      assert MaskAssign(b, b, id, klass) == MaskAssign(b, segments, id, klass);
    }
  }

  /** The painting loop: `clf` starts as a copy of the segment map and
      `clf[clf == segment_id] = klass` is applied for each (segment_id, klass)
      of `zip(objects_ids, predicted)` in order. */
  method PaintPredictions(segments: seq<int>, objectsIds: seq<int>, predicted: seq<int>)
    returns (clf: seq<int>)
    ensures clf == Painted(segments, Zip(objectsIds, predicted))
    ensures DistinctIds(Zip(objectsIds, predicted)) && NoCollision(Zip(objectsIds, predicted)) ==>
      clf == BySegment(segments, Zip(objectsIds, predicted))
  {
    var steps := Zip(objectsIds, predicted);
    var n := |segments|;
    var a := new int[n](p requires 0 <= p < n => segments[p]);
    assert a[..] == segments;
    for i := 0 to |steps|
      invariant a[..] == Painted(segments, steps[..i])
    {
      var (segmentId, klass) := steps[i];
      ghost var before := a[..];
      ReplaceValue(a, segmentId, klass);
      assert steps[..i + 1][..i] == steps[..i];
      assert a[..] == MaskAssign(before, before, segmentId, klass);
    }
    assert steps[..|steps|] == steps;
    clf := a[..];
    if DistinctIds(steps) && NoCollision(steps) {
      PaintedMatchesBySegment(segments, steps);
    }
  }

  /** Painting by the segment map (`clf[segments == segment_id] = klass`):
      with distinct ids every pixel of a painted segment gets that segment's
      prediction, and a pixel of an unpainted segment keeps its id. */
  method PaintBySegment(segments: seq<int>, objectsIds: seq<int>, predicted: seq<int>)
    returns (clf: seq<int>)
    ensures clf == BySegment(segments, Zip(objectsIds, predicted))
    ensures |clf| == |segments|
    ensures Distinct(objectsIds) ==>
      forall p, i :: 0 <= p < |segments| && 0 <= i < |objectsIds| && i < |predicted| && segments[p] == objectsIds[i] ==>
        clf[p] == predicted[i]
    ensures forall p :: 0 <= p < |segments| && (forall i :: 0 <= i < |objectsIds| && i < |predicted| ==> segments[p] != objectsIds[i]) ==>
      clf[p] == segments[p]
  {
    var steps := Zip(objectsIds, predicted);
    var n := |segments|;
    var a := new int[n](p requires 0 <= p < n => segments[p]);
    assert a[..] == segments;
    for i := 0 to |steps|
      invariant a[..] == BySegment(segments, steps[..i])
    {
      var (segmentId, klass) := steps[i];
      ghost var before := a[..];
      AssignWhere(a, segments, segmentId, klass);
      assert steps[..i + 1][..i] == steps[..i];
      assert a[..] == MaskAssign(before, segments, segmentId, klass);
    }
    assert steps[..|steps|] == steps;
    clf := a[..];
    forall p | 0 <= p < n
      ensures Distinct(objectsIds) ==>
        forall i :: 0 <= i < |objectsIds| && i < |predicted| && segments[p] == objectsIds[i] ==> clf[p] == predicted[i]
      ensures (forall i :: 0 <= i < |objectsIds| && i < |predicted| ==> segments[p] != objectsIds[i]) ==> clf[p] == segments[p]
    {
      BySegmentPixel(segments, steps, p);
      if Distinct(objectsIds) {
        forall i | 0 <= i < |objectsIds| && i < |predicted| && segments[p] == objectsIds[i]
          ensures clf[p] == predicted[i]
        {
          assert steps[i] == (objectsIds[i], predicted[i]);
          assert DistinctIds(steps) by {
            forall j, k | 0 <= j < k < |steps| ensures steps[j].0 != steps[k].0 {
              assert steps[j] == (objectsIds[j], predicted[j]) && steps[k] == (objectsIds[k], predicted[k]);
            }
          }
          BySegmentDistinct(segments, steps, p, i);
        }
      }
    }
  }

  /** `a[keys == key] = v` */
  method AssignWhere(a: array<int>, keys: seq<int>, key: int, v: int)
    requires |keys| == a.Length
    modifies a
    ensures forall p :: 0 <= p < a.Length ==> a[p] == (if keys[p] == key then v else old(a[p]))
  {
    for p := 0 to a.Length
      invariant forall q :: 0 <= q < p ==> a[q] == (if keys[q] == key then v else old(a[q]))
      invariant forall q :: p <= q < a.Length ==> a[q] == old(a[q])
    {
      if keys[p] == key {
        a[p] := v;
      }
    }
  }

  /** Two segments 1 and 2 predicted as classes 2 and 5: painting by current
      values repaints segment 1 (now 2) with 5, painting by segment does not. */
  lemma RepaintCollision()
    ensures Painted([1, 2], Zip([1, 2], [2, 5])) == [5, 5]
    ensures BySegment([1, 2], Zip([1, 2], [2, 5])) == [2, 5]
  {
  }

  /** `(clf == 3) * 6`: the building mask. */
  function BuildingMask(clf: seq<int>): (mask: seq<int>)
    ensures |mask| == |clf|
    ensures forall p :: 0 <= p < |clf| ==> (mask[p] == 6 <==> clf[p] == 3)
    ensures forall p :: 0 <= p < |clf| ==> mask[p] == 0 || mask[p] == 6
  {
    seq(|clf|, p requires 0 <= p < |clf| => BoolToInt(clf[p] == 3) * 6)
  }

  /** numpy's conversion of a boolean to an integer. */
  function BoolToInt(b: bool): int
  {
    if b then 1 else 0
  }

  /** `classified_b`: the building mask of the map painted by the loop as
      written. Every pixel is 0 or 6; a pixel of a segment no step names keeps
      its id, so it is 6 exactly when that id is 3; and when ids are distinct
      and no prediction equals a later id, a pixel of a painted segment is 6
      exactly when that segment was predicted as class 3. */
  method BuildingRaster(segments: seq<int>, objectsIds: seq<int>, predicted: seq<int>)
    returns (classifiedB: seq<int>)
    ensures classifiedB == BuildingMask(Painted(segments, Zip(objectsIds, predicted)))
    ensures |classifiedB| == |segments|
    ensures forall p :: 0 <= p < |segments| ==> classifiedB[p] == 0 || classifiedB[p] == 6
    ensures forall p :: (0 <= p < |segments| &&
      forall i :: 0 <= i < |objectsIds| && i < |predicted| ==> segments[p] != objectsIds[i]) ==>
        (classifiedB[p] == 6 <==> segments[p] == 3)
    ensures DistinctIds(Zip(objectsIds, predicted)) && NoCollision(Zip(objectsIds, predicted)) ==>
      forall p, i :: 0 <= p < |segments| && 0 <= i < |objectsIds| && i < |predicted| && segments[p] == objectsIds[i] ==>
        (classifiedB[p] == 6 <==> predicted[i] == 3)
  {
    var clf := PaintPredictions(segments, objectsIds, predicted);
    classifiedB := BuildingMask(clf);
    ghost var steps := Zip(objectsIds, predicted);
    forall p | 0 <= p < |segments| && (forall i :: 0 <= i < |objectsIds| && i < |predicted| ==> segments[p] != objectsIds[i])
      ensures clf[p] == segments[p]
    {
      forall i | 0 <= i < |steps| ensures steps[i].0 != segments[p] {
        assert steps[i] == (objectsIds[i], predicted[i]);
      }
      PaintedSkipsUnnamed(segments, steps, p);
    }
    if DistinctIds(steps) && NoCollision(steps) {
      forall p, i | 0 <= p < |segments| && 0 <= i < |objectsIds| && i < |predicted| && segments[p] == objectsIds[i]
        ensures clf[p] == predicted[i]
      {
        assert steps[i] == (objectsIds[i], predicted[i]);
        BySegmentDistinct(segments, steps, p, i);
      }
    }
  }

  /** A pixel whose value no step names is never repainted. */
  lemma {:induction false} PaintedSkipsUnnamed(clf: seq<int>, steps: seq<(int, int)>, p: nat)
    requires p < |clf|
    requires forall i :: 0 <= i < |steps| ==> steps[i].0 != clf[p]
    ensures Painted(clf, steps)[p] == clf[p]
  {
    if steps != [] {
      var last := |steps| - 1;
      assert forall i :: 0 <= i < last ==> steps[..last][i] == steps[i];
      PaintedSkipsUnnamed(clf, steps[..last], p);
    }
  }

  /** With distinct ids, painting by segment gives a pixel of the segment of
      step i exactly the class of step i. */
  lemma BySegmentDistinct(segments: seq<int>, steps: seq<(int, int)>, p: nat, i: nat)
    requires DistinctIds(steps)
    requires p < |segments| && i < |steps| && segments[p] == steps[i].0
    ensures BySegment(segments, steps)[p] == steps[i].1
  {
    BySegmentPixel(segments, steps, p);
    var i' :| 0 <= i' < |steps| && steps[i'].0 == segments[p] && BySegment(segments, steps)[p] == steps[i'].1;
    assert i' == i;
  }
}
