/** Object and training-table assembly of `SLIC_object_creation`, and the
    whole function from the segment map onwards. The segmentation itself
    (`slic`) and the directory scan that finds the class polygon files are
    outside the model: the segment map, the image and the per-class coverage
    masks arrive as inputs. */
module ObjectTable {
  import opened GridOps
  import opened Features
  import opened Overlay
  import opened Assigner

  datatype Option<T> = None | Some(value: T)

  /** The dictionary returned on success (without its `'segment_id'` entry). */
  datatype ObjectSet = ObjectSet(
    segments: seq<int>,
    objectsIds: seq<int>,
    objects: seq<seq<Num>>,
    trObjects: seq<seq<Num>>,
    trLabels: seq<int>,
    classesLabels: seq<string>,
    rows: nat,
    cols: nat)

  /** The pixel rows of one segment, `img[segments == id]`, form an
      n_pixels x n_bands matrix, non-empty when the id occurs in the map. */
  lemma SegmentPixelsShape(img: seq<seq<real>>, segments: seq<int>, id: int, nBands: nat)
    requires |img| == |segments| && IsPixelMatrix(img, nBands)
    ensures IsPixelMatrix(Where(img, segments, {id}), nBands)
    ensures id in segments ==> |Where(img, segments, {id})| > 0
  {
  }

  /** The object loop: one feature vector per distinct segment id, in
      ascending id order, each computed from the pixels of that segment. */
  method BuildObjects(img: seq<seq<real>>, nBands: nat, segments: seq<int>, describe: seq<real> -> Description)
    returns (objects: seq<seq<Num>>, objectsIds: seq<int>)
    requires |img| == |segments| && IsPixelMatrix(img, nBands)
    ensures objectsIds == Unique(segments)
    ensures |objects| == |objectsIds|
    ensures forall i :: 0 <= i < |objects| ==>
      IsPixelMatrix(Where(img, segments, {objectsIds[i]}), nBands) &&
      IsFeatureVector(objects[i], Where(img, segments, {objectsIds[i]}), nBands, describe)
  {
    var segmentIds := Unique(segments);
    objects := [];
    objectsIds := [];
    for i := 0 to |segmentIds|
      invariant objectsIds == segmentIds[..i]
      invariant |objects| == i
      invariant forall j :: 0 <= j < i ==>
        IsPixelMatrix(Where(img, segments, {objectsIds[j]}), nBands) &&
        IsFeatureVector(objects[j], Where(img, segments, {objectsIds[j]}), nBands, describe)
    {
      var segmentLabel := segmentIds[i];
      SegmentPixelsShape(img, segments, segmentLabel, nBands);
      var segmentPixels := Where(img, segments, {segmentLabel});
      var segmentModel := SegmentFeatures(segmentPixels, nBands, describe);
      objects := objects + [segmentModel];
      objectsIds := objectsIds + [segmentLabel];
    }
  }

  /** The training rows, class by class: for class k, the objects whose
      segment id is in the set of k, in object order. */
  function TrainingObjects(classes: seq<int>, segmentsPerKlass: map<int, set<int>>,
                           objects: seq<seq<Num>>, objectsIds: seq<int>): seq<seq<Num>>
    requires |objects| == |objectsIds|
    requires forall i :: 0 <= i < |classes| ==> classes[i] in segmentsPerKlass
  {
    if classes == [] then []
    else
      var klass := classes[|classes| - 1];
      TrainingObjects(classes[..|classes| - 1], segmentsPerKlass, objects, objectsIds)
        + Where(objects, objectsIds, segmentsPerKlass[klass])
  }

  /** The training labels: class k repeated once per training row of k. */
  function TrainingLabels(classes: seq<int>, segmentsPerKlass: map<int, set<int>>,
                          objects: seq<seq<Num>>, objectsIds: seq<int>): seq<int>
    requires |objects| == |objectsIds|
    requires forall i :: 0 <= i < |classes| ==> classes[i] in segmentsPerKlass
  {
    if classes == [] then []
    else
      var klass := classes[|classes| - 1];
      var n := |Where(objects, objectsIds, segmentsPerKlass[klass])|;
      TrainingLabels(classes[..|classes| - 1], segmentsPerKlass, objects, objectsIds) + seq(n, _ => klass)
  }

  /** The training loop: appends the rows of each class with as many copies
      of the class code, so labels and rows stay paired one to one. */
  method BuildTrainingSet(classes: seq<int>, segmentsPerKlass: map<int, set<int>>,
                          objects: seq<seq<Num>>, objectsIds: seq<int>)
    returns (trainingLabels: seq<int>, trainingObjects: seq<seq<Num>>)
    requires |objects| == |objectsIds|
    requires forall i :: 0 <= i < |classes| ==> classes[i] in segmentsPerKlass
    ensures |trainingLabels| == |trainingObjects|
    ensures trainingObjects == TrainingObjects(classes, segmentsPerKlass, objects, objectsIds)
    ensures trainingLabels == TrainingLabels(classes, segmentsPerKlass, objects, objectsIds)
  {
    trainingLabels := [];
    trainingObjects := [];
    for i := 0 to |classes|
      invariant |trainingLabels| == |trainingObjects|
      invariant trainingObjects == TrainingObjects(classes[..i], segmentsPerKlass, objects, objectsIds)
      invariant trainingLabels == TrainingLabels(classes[..i], segmentsPerKlass, objects, objectsIds)
    {
      var klass := classes[i];
      assert classes[..i + 1][..i] == classes[..i];
      var classTrainObjects := Where(objects, objectsIds, segmentsPerKlass[klass]);
      trainingLabels := trainingLabels + seq(|classTrainObjects|, _ => klass);
      trainingObjects := trainingObjects + classTrainObjects;
    }
    assert classes[..|classes|] == classes;
  }

  /** Labels come out grouped by class in ascending class order. */
  lemma {:induction false} TrainingLabelsSorted(classes: seq<int>, segmentsPerKlass: map<int, set<int>>,
                                                objects: seq<seq<Num>>, objectsIds: seq<int>)
    requires |objects| == |objectsIds|
    requires forall i :: 0 <= i < |classes| ==> classes[i] in segmentsPerKlass
    requires StrictlyIncreasing(classes)
    ensures forall k :: k in TrainingLabels(classes, segmentsPerKlass, objects, objectsIds) ==> k in classes
    ensures forall a, b :: 0 <= a < b < |TrainingLabels(classes, segmentsPerKlass, objects, objectsIds)| ==>
      TrainingLabels(classes, segmentsPerKlass, objects, objectsIds)[a] <=
      TrainingLabels(classes, segmentsPerKlass, objects, objectsIds)[b]
  {
    if classes != [] {
      var init := classes[..|classes| - 1];
      var klass := classes[|classes| - 1];
      TrainingLabelsSorted(init, segmentsPerKlass, objects, objectsIds);
      var prev := TrainingLabels(init, segmentsPerKlass, objects, objectsIds);
      var labels := TrainingLabels(classes, segmentsPerKlass, objects, objectsIds);
      forall k | k in prev ensures k < klass {
        var j :| 0 <= j < |init| && init[j] == k;
      }
      forall a, b | 0 <= a < b < |labels| ensures labels[a] <= labels[b] {
        if b >= |prev| {
          assert labels[b] == klass;
          if a < |prev| {
            assert labels[a] == prev[a] && prev[a] in prev;
          }
        }
      }
    }
  }

  /** How often a code occurs among the labels of a list of classes. */
  lemma {:induction false} TrainingLabelsCount(classes: seq<int>, segmentsPerKlass: map<int, set<int>>,
                                               objects: seq<seq<Num>>, objectsIds: seq<int>, i: nat)
    requires |objects| == |objectsIds| && Distinct(objectsIds)
    requires forall j :: 0 <= j < |classes| ==> classes[j] in segmentsPerKlass
    requires forall j :: 0 <= j < |classes| ==> segmentsPerKlass[classes[j]] <= Elems(objectsIds)
    requires StrictlyIncreasing(classes) && i < |classes|
    ensures multiset(TrainingLabels(classes, segmentsPerKlass, objects, objectsIds))[classes[i]]
      == |segmentsPerKlass[classes[i]]|
  {
    if i == |classes| - 1 {
      LastClassCount(classes, segmentsPerKlass, objects, objectsIds);
    } else {
      var init := classes[..|classes| - 1];
      assert init[i] == classes[i];
      assert forall j :: 0 <= j < |init| ==> init[j] == classes[j];
      LastBlockCount(classes, segmentsPerKlass, objects, objectsIds, classes[i]);
      TrainingLabelsCount(init, segmentsPerKlass, objects, objectsIds, i);
    }
  }

  /** The last class of the list occurs once per member of its set. */
  lemma LastClassCount(classes: seq<int>, segmentsPerKlass: map<int, set<int>>,
                       objects: seq<seq<Num>>, objectsIds: seq<int>)
    requires |objects| == |objectsIds| && Distinct(objectsIds) && classes != []
    requires forall j :: 0 <= j < |classes| ==> classes[j] in segmentsPerKlass
    requires segmentsPerKlass[classes[|classes| - 1]] <= Elems(objectsIds)
    requires StrictlyIncreasing(classes)
    ensures multiset(TrainingLabels(classes, segmentsPerKlass, objects, objectsIds))[classes[|classes| - 1]]
      == |segmentsPerKlass[classes[|classes| - 1]]|
  {
    var klass := classes[|classes| - 1];
    var s := segmentsPerKlass[klass];
    LastBlockCount(classes, segmentsPerKlass, objects, objectsIds, klass);
    PrefixLacksLastClass(classes, segmentsPerKlass, objects, objectsIds);
    WhereCount(objects, objectsIds, s);
    assert s * Elems(objectsIds) == s;
  }

  /** The labels of a class list count a code as the labels of all but its
      last class do, plus one per training row of the last class when the
      code is that class. */
  lemma LastBlockCount(classes: seq<int>, segmentsPerKlass: map<int, set<int>>,
                       objects: seq<seq<Num>>, objectsIds: seq<int>, c: int)
    requires |objects| == |objectsIds| && classes != []
    requires forall j :: 0 <= j < |classes| ==> classes[j] in segmentsPerKlass
    ensures multiset(TrainingLabels(classes, segmentsPerKlass, objects, objectsIds))[c] ==
      multiset(TrainingLabels(classes[..|classes| - 1], segmentsPerKlass, objects, objectsIds))[c] +
      (if c == classes[|classes| - 1]
       then |Where(objects, objectsIds, segmentsPerKlass[classes[|classes| - 1]])| else 0)
  {
    var klass := classes[|classes| - 1];
    var n := |Where(objects, objectsIds, segmentsPerKlass[klass])|;
    var block: seq<int> := seq(n, _ => klass);
    assert TrainingLabels(classes, segmentsPerKlass, objects, objectsIds)
      == TrainingLabels(classes[..|classes| - 1], segmentsPerKlass, objects, objectsIds) + block;
    RepeatCount(klass, n, c);
  }

  /** The labels of all but the last class never name the last class. */
  lemma PrefixLacksLastClass(classes: seq<int>, segmentsPerKlass: map<int, set<int>>,
                             objects: seq<seq<Num>>, objectsIds: seq<int>)
    requires |objects| == |objectsIds| && classes != []
    requires forall j :: 0 <= j < |classes| ==> classes[j] in segmentsPerKlass
    requires StrictlyIncreasing(classes)
    ensures multiset(TrainingLabels(classes[..|classes| - 1], segmentsPerKlass, objects, objectsIds))[classes[|classes| - 1]] == 0
  {
    var init := classes[..|classes| - 1];
    var klass := classes[|classes| - 1];
    TrainingLabelsSorted(init, segmentsPerKlass, objects, objectsIds);
    var prev := TrainingLabels(init, segmentsPerKlass, objects, objectsIds);
    forall k | k in prev ensures k != klass {
      var j :| 0 <= j < |init| && init[j] == k;
    }
    assert klass !in prev;
  }

  /** `[k] * n` holds n copies of k and nothing else. */
  lemma {:induction false} RepeatCount(k: int, n: nat, c: int)
    ensures multiset(seq(n, _ => k))[c] == if c == k then n else 0
  {
    if n > 0 {
      RepeatCount(k, n - 1, c);
      assert seq(n, _ => k) == seq(n - 1, _ => k) + [k];
    }
  }

  /** Each training row is the object of a segment in the set of its label's class. */
  lemma {:induction false} TrainingRowOrigin(classes: seq<int>, segmentsPerKlass: map<int, set<int>>,
                                             objects: seq<seq<Num>>, objectsIds: seq<int>, r: nat)
    requires |objects| == |objectsIds|
    requires forall j :: 0 <= j < |classes| ==> classes[j] in segmentsPerKlass
    requires r < |TrainingObjects(classes, segmentsPerKlass, objects, objectsIds)|
    ensures |TrainingLabels(classes, segmentsPerKlass, objects, objectsIds)| ==
      |TrainingObjects(classes, segmentsPerKlass, objects, objectsIds)|
    ensures exists p :: (0 <= p < |objects|
      && TrainingObjects(classes, segmentsPerKlass, objects, objectsIds)[r] == objects[p]
      && TrainingLabels(classes, segmentsPerKlass, objects, objectsIds)[r] in segmentsPerKlass
      && objectsIds[p] in segmentsPerKlass[TrainingLabels(classes, segmentsPerKlass, objects, objectsIds)[r]])
  {
    var init := classes[..|classes| - 1];
    var klass := classes[|classes| - 1];
    var s := segmentsPerKlass[klass];
    var rows := TrainingObjects(classes, segmentsPerKlass, objects, objectsIds);
    var labels := TrainingLabels(classes, segmentsPerKlass, objects, objectsIds);
    var prevRows := TrainingObjects(init, segmentsPerKlass, objects, objectsIds);
    var prevLabels := TrainingLabels(init, segmentsPerKlass, objects, objectsIds);
    TrainingLengths(init, segmentsPerKlass, objects, objectsIds);
    if r < |prevRows| {
      TrainingRowOrigin(init, segmentsPerKlass, objects, objectsIds, r);
      assert rows[r] == prevRows[r] && labels[r] == prevLabels[r];
    } else {
      var m := r - |prevRows|;
      WhereAligned(objects, objectsIds, s, m);
      var p :| 0 <= p < |objects| && objectsIds[p] in s && Where(objects, objectsIds, s)[m] == objects[p];
      assert rows[r] == objects[p] && labels[r] == klass;
    }
  }

  /** Within the block of one class, rows follow ascending segment id: the
      m1-th and m2-th rows (m1 < m2) are the objects of two ids of the class
      set, the first one smaller. */
  lemma ClassRowsInIdOrder(objects: seq<seq<Num>>, objectsIds: seq<int>, s: set<int>, m1: nat, m2: nat)
    requires |objects| == |objectsIds| && StrictlyIncreasing(objectsIds)
    requires m1 < m2 < |Where(objects, objectsIds, s)|
    ensures exists p1, p2 :: (0 <= p1 < p2 < |objects| && objectsIds[p1] in s && objectsIds[p2] in s
      && Where(objects, objectsIds, s)[m1] == objects[p1] && Where(objects, objectsIds, s)[m2] == objects[p2])
  {
    var ids := Where(objectsIds, objectsIds, s);
    WhereAligned(objects, objectsIds, s, m1);
    WhereAligned(objects, objectsIds, s, m2);
    WhereAscending(objectsIds, s);
    var p1 :| 0 <= p1 < |objects| && objectsIds[p1] in s && Where(objects, objectsIds, s)[m1] == objects[p1] && ids[m1] == objectsIds[p1];
    var p2 :| 0 <= p2 < |objects| && objectsIds[p2] in s && Where(objects, objectsIds, s)[m2] == objects[p2] && ids[m2] == objectsIds[p2];
    assert objectsIds[p1] < objectsIds[p2];
  }

  /** Labels and rows have equal length. */
  lemma {:induction false} TrainingLengths(classes: seq<int>, segmentsPerKlass: map<int, set<int>>,
                                           objects: seq<seq<Num>>, objectsIds: seq<int>)
    requires |objects| == |objectsIds|
    requires forall j :: 0 <= j < |classes| ==> classes[j] in segmentsPerKlass
    ensures |TrainingLabels(classes, segmentsPerKlass, objects, objectsIds)| ==
      |TrainingObjects(classes, segmentsPerKlass, objects, objectsIds)|
  {
    if classes != [] {
      TrainingLengths(classes[..|classes| - 1], segmentsPerKlass, objects, objectsIds);
    }
  }

  /** Every class code found in the overlay is at least 1: the overlay has
      no negative pixel and the smallest value is never a class. */
  lemma OverlayClassesPositive(masks: seq<seq<bool>>, n: nat)
    requires Shaped(masks, n)
    ensures forall k :: k in Classes(GroundTruth(masks, n)) ==> k >= 1
  {
    var gt := GroundTruth(masks, n);
    forall k | k in Classes(gt) ensures k >= 1 {
      var v :| v in gt && v < k;
      var p :| 0 <= p < |gt| && gt[p] == v;
      CodeSumNonNegative(masks, p);
    }
  }

  /** What a successful run returns, given the class list and class sets:
      the segment map and pass-through fields unchanged, one feature vector
      per distinct segment id in ascending order, and the training rows and
      labels class by class. */
  predicate IsObjectSet(t: ObjectSet, img: seq<seq<real>>, nBands: nat, segments: seq<int>,
                        rows: nat, cols: nat, classesLabels: seq<string>,
                        classes: seq<int>, segmentsPerKlass: map<int, set<int>>,
                        describe: seq<real> -> Description)
    requires |img| == |segments| && IsPixelMatrix(img, nBands)
    requires forall i :: 0 <= i < |classes| ==> classes[i] in segmentsPerKlass
  {
    && t.segments == segments && t.rows == rows && t.cols == cols && t.classesLabels == classesLabels
    && t.objectsIds == Unique(segments)
    && |t.objects| == |t.objectsIds|
    && (forall i :: 0 <= i < |t.objects| ==>
          IsPixelMatrix(Where(img, segments, {t.objectsIds[i]}), nBands) &&
          IsFeatureVector(t.objects[i], Where(img, segments, {t.objectsIds[i]}), nBands, describe))
    && t.trObjects == TrainingObjects(classes, segmentsPerKlass, t.objects, t.objectsIds)
    && t.trLabels == TrainingLabels(classes, segmentsPerKlass, t.objects, t.objectsIds)
  }

  /** The part of `SLIC_object_creation` after a conflict-free check: the
      relabelled training raster, the object table and the training table. */
  method AssembleObjectSet(img: seq<seq<real>>, nBands: nat, segments: seq<int>, rows: nat, cols: nat,
                           classesLabels: seq<string>, classes: seq<int>, segmentsPerKlass: map<int, set<int>>,
                           describe: seq<real> -> Description)
    returns (t: ObjectSet)
    requires |img| == |segments| && IsPixelMatrix(img, nBands)
    requires RelabelReady(segments, classes, segmentsPerKlass)
    ensures IsObjectSet(t, img, nBands, segments, rows, cols, classesLabels, classes, segmentsPerKlass, describe)
  {
    var trainImg := RelabelTrainingRaster(segments, classes, segmentsPerKlass);
    var objects, objectsIds := BuildObjects(img, nBands, segments, describe);
    var trainingLabels, trainingObjects := BuildTrainingSet(classes, segmentsPerKlass, objects, objectsIds);
    t := ObjectSet(segments, objectsIds, objects, trainingObjects, trainingLabels, classesLabels, rows, cols);
  }

  /** The class list of the overlay (`classes = np.unique(ground_truth)[1:]`). */
  function TruthClasses(masks: seq<seq<bool>>, n: nat): seq<int>
    requires Shaped(masks, n)
  {
    Classes(GroundTruth(masks, n))
  }

  /** `segments_per_klass` for the overlay of the masks. */
  function TruthClassMap(segments: seq<int>, masks: seq<seq<bool>>, n: nat): (m: map<int, set<int>>)
    requires Shaped(masks, n) && |segments| == n
    ensures forall i :: 0 <= i < |TruthClasses(masks, n)| ==> TruthClasses(masks, n)[i] in m
  {
    ClassMap(segments, GroundTruth(masks, n), TruthClasses(masks, n))
  }

  /** The first steps of `SLIC_object_creation`: the overlay, its class list
      and the segments of each class. */
  method GatherClasses(segments: seq<int>, rows: nat, cols: nat, masks: seq<seq<bool>>)
    returns (classes: seq<int>, segmentsPerKlass: map<int, set<int>>)
    requires |segments| == rows * cols
    requires Shaped(masks, rows * cols)
    ensures classes == TruthClasses(masks, rows * cols)
    ensures segmentsPerKlass == TruthClassMap(segments, masks, rows * cols)
    ensures forall i :: 0 <= i < |classes| ==> classes[i] >= 1
    ensures forall i :: 0 <= i < |classes| ==> segmentsPerKlass[classes[i]] <= Elems(segments)
  {
    var groundTruth := VectorsToRaster(masks, rows, cols);
    classes := Classes(groundTruth);
    segmentsPerKlass := CollectClassSegments(segments, groundTruth, classes);
    OverlayClassesPositive(masks, rows * cols);
    forall i | 0 <= i < |classes| ensures classes[i] >= 1 && segmentsPerKlass[classes[i]] <= Elems(segments) {
      assert classes[i] in classes;
    }
  }

  /** `SLIC_object_creation` after the segmentation: overlays the class masks,
      gathers the segments of each class, gives up (None) exactly when some
      segment touches two classes, and otherwise returns one feature vector
      per segment id and the labelled training rows. */
  method SlicObjectCreation(img: seq<seq<real>>, nBands: nat, segments: seq<int>, rows: nat, cols: nat,
                            masks: seq<seq<bool>>, classesLabels: seq<string>,
                            describe: seq<real> -> Description)
    returns (res: Option<ObjectSet>)
    requires |segments| == rows * cols && |segments| > 0
    requires forall p :: 0 <= p < |segments| ==> segments[p] >= 0
    requires |img| == |segments| && IsPixelMatrix(img, nBands)
    requires Shaped(masks, rows * cols)
    ensures res.None? <==>
      !PairwiseDisjoint(ClassSets(TruthClasses(masks, rows * cols), TruthClassMap(segments, masks, rows * cols)))
    ensures res.Some? ==>
      IsObjectSet(res.value, img, nBands, segments, rows, cols, classesLabels,
                  TruthClasses(masks, rows * cols), TruthClassMap(segments, masks, rows * cols), describe)
  {
    var classes, segmentsPerKlass := GatherClasses(segments, rows, cols, masks);
    var accum, intersection := FindConflicts(ClassSets(classes, segmentsPerKlass));
    if |intersection| > 0 {
      return None;
    }
    var objectSet := AssembleObjectSet(img, nBands, segments, rows, cols, classesLabels,
                                       classes, segmentsPerKlass, describe);
    res := Some(objectSet);
  }
}
