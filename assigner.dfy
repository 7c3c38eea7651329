/** Segment label assignment inside `SLIC_object_creation`: the class list,
    the per-class segment sets, the conflict check and the relabelled
    training raster. Rasters are row-major sequences of pixels. */
module Assigner {
  import opened GridOps

  /** `np.unique(ground_truth)[1:]`: the distinct ground-truth values in
      ascending order without the smallest one. The smallest value is meant
      to be 0 (no ground truth) but is dropped whatever it is. */
  function Classes(groundTruth: seq<int>): (classes: seq<int>)
    ensures StrictlyIncreasing(classes)
    ensures forall k :: k in classes <==> k in groundTruth && exists v :: v in groundTruth && v < k
  {
    var u := Unique(groundTruth);
    if u == [] then [] else UniqueTailAboveMinimum(groundTruth); u[1..]
  }

  /** All values of np.unique except the first lie above some other value,
      and the first lies above none. */
  lemma UniqueTailAboveMinimum(s: seq<int>)
    requires Unique(s) != []
    ensures StrictlyIncreasing(Unique(s)[1..])
    ensures forall k :: k in Unique(s)[1..] <==> k in s && exists v :: v in s && v < k
  {
    var u := Unique(s);
    forall k | k in u[1..] ensures k in s && u[0] in s && u[0] < k {
      var j :| 0 <= j < |u[1..]| && u[1..][j] == k;
      assert u[j + 1] == k;
    }
    forall k | k in s && (exists v :: v in s && v < k) ensures k in u[1..] {
      var v :| v in s && v < k;
      var jv :| 0 <= jv < |u| && u[jv] == v;
      var jk :| 0 <= jk < |u| && u[jk] == k;
      if jv > 0 {
        assert u[0] < u[jv];
      }
      assert jk != 0;
      assert u[1..][jk - 1] == k;
    }
  }

  /** When some pixel carries no ground truth (0) and none is negative, the
      class list is exactly the positive ground-truth codes. */
  lemma ClassesArePositiveCodes(groundTruth: seq<int>)
    requires 0 in groundTruth
    requires forall p :: 0 <= p < |groundTruth| ==> groundTruth[p] >= 0
    ensures forall k :: k in Classes(groundTruth) <==> k in groundTruth && k > 0
  {
  }

  /** When every pixel is covered by ground truth (no 0), the smallest class
      code present is dropped from the class list. */
  lemma FullCoverageDropsClass(groundTruth: seq<int>)
    requires |groundTruth| > 0
    requires forall p :: 0 <= p < |groundTruth| ==> groundTruth[p] >= 1
    ensures exists k :: k in groundTruth && k >= 1 && k !in Classes(groundTruth)
  {
    var u := Unique(groundTruth);
    assert groundTruth[0] in u;
    var k0 := u[0];
    forall v | v in groundTruth ensures k0 <= v {
      var j :| 0 <= j < |u| && u[j] == v;
      if j > 0 {
        assert u[0] < u[j];
      }
    }
    assert k0 in groundTruth;
  }

  /** `set(segments[ground_truth == k])`: the segment ids found at pixels
      whose ground truth is k. */
  function ClassSegments(segments: seq<int>, groundTruth: seq<int>, k: int): (ids: set<int>)
    requires |segments| == |groundTruth|
    ensures forall id :: id in ids <==>
      exists p :: 0 <= p < |segments| && groundTruth[p] == k && segments[p] == id
  {
    var r := Where(segments, groundTruth, {k});
    assert forall p :: 0 <= p < |segments| ==> (groundTruth[p] in {k} <==> groundTruth[p] == k);
    Elems(r)
  }

  /** `segments_per_klass` as a function of the rasters and the class list. */
  function ClassMap(segments: seq<int>, groundTruth: seq<int>, classes: seq<int>): (m: map<int, set<int>>)
    requires |segments| == |groundTruth|
    ensures forall i :: 0 <= i < |classes| ==> classes[i] in m
  {
    assert forall i :: 0 <= i < |classes| ==> classes[i] in Elems(classes);
    map k | k in Elems(classes) :: ClassSegments(segments, groundTruth, k)
  }

  /** The loop filling `segments_per_klass`: one entry per class. */
  method CollectClassSegments(segments: seq<int>, groundTruth: seq<int>, classes: seq<int>)
    returns (segmentsPerKlass: map<int, set<int>>)
    requires |segments| == |groundTruth|
    ensures segmentsPerKlass.Keys == Elems(classes)
    ensures forall k :: k in segmentsPerKlass ==> segmentsPerKlass[k] == ClassSegments(segments, groundTruth, k)
    ensures segmentsPerKlass == ClassMap(segments, groundTruth, classes)
  {
    segmentsPerKlass := map[];
    for i := 0 to |classes|
      invariant segmentsPerKlass.Keys == Elems(classes[..i])
      invariant forall k :: k in segmentsPerKlass ==> segmentsPerKlass[k] == ClassSegments(segments, groundTruth, k)
    {
      var klass := classes[i];
      assert classes[..i + 1] == classes[..i] + [klass];
      segmentsPerKlass := segmentsPerKlass[klass := ClassSegments(segments, groundTruth, klass)];
    }
    assert classes[..|classes|] == classes;
  }

  /** The values of `segments_per_klass`, in class order. */
  function ClassSets(classes: seq<int>, segmentsPerKlass: map<int, set<int>>): seq<set<int>>
    requires forall i :: 0 <= i < |classes| ==> classes[i] in segmentsPerKlass
  {
    seq(|classes|, i requires 0 <= i < |classes| => segmentsPerKlass[classes[i]])
  }

  /** No segment id belongs to two of the sets. */
  predicate PairwiseDisjoint(sets: seq<set<int>>)
  {
    forall i, j, x :: 0 <= i < j < |sets| && x in sets[i] ==> x !in sets[j]
  }

  /** The conflict check: `accum` gathers the union of all class sets and
      `intersection` exactly the ids lying in two or more of them, so no
      conflict is found precisely when the sets are pairwise disjoint. */
  method FindConflicts(classSets: seq<set<int>>) returns (accum: set<int>, intersection: set<int>)
    ensures forall x :: x in accum <==> exists i :: 0 <= i < |classSets| && x in classSets[i]
    ensures forall x :: x in intersection <==>
      exists i, j :: 0 <= i < j < |classSets| && x in classSets[i] && x in classSets[j]
    ensures intersection == {} <==> PairwiseDisjoint(classSets)
  {
    accum := {};
    intersection := {};
    for n := 0 to |classSets|
      invariant forall x :: x in accum <==> exists i :: 0 <= i < n && x in classSets[i]
      invariant forall x :: x in intersection <==>
        exists i, j :: 0 <= i < j < n && x in classSets[i] && x in classSets[j]
    {
      var classSegments := classSets[n];
      intersection := intersection + accum * classSegments;
      accum := accum + classSegments;
    }
    ConflictIffOverlap(classSets, intersection);
  }

  /** A set holding exactly the ids found in two of the sets is empty
      precisely when the sets are pairwise disjoint. */
  lemma ConflictIffOverlap(sets: seq<set<int>>, intersection: set<int>)
    requires forall x :: x in intersection <==>
      exists i, j :: 0 <= i < j < |sets| && x in sets[i] && x in sets[j]
    ensures intersection == {} <==> PairwiseDisjoint(sets)
  {
    if PairwiseDisjoint(sets) {
      forall x ensures x !in intersection {
      }
    } else {
      var i, j, x :| 0 <= i < j < |sets| && x in sets[i] && x in sets[j];
      assert x in intersection;
    }
  }

  /** The training code the relabelling gives a segment id: a class whose set
      holds the id (scanning from the last class), or 0 when no class holds it.
      Which class is picked matters only when two class sets share the id; the
      relabelling runs only after the conflict check has ruled that out, and
      TrainLabelExact shows the choice is then the id's unique class. */
  function TrainLabel(classes: seq<int>, segmentsPerKlass: map<int, set<int>>, id: int): (code: int)
    requires forall i :: 0 <= i < |classes| ==> classes[i] in segmentsPerKlass
    ensures code == 0 || exists i :: 0 <= i < |classes| && code == classes[i] && id in segmentsPerKlass[classes[i]]
  {
    if classes == [] then 0
    else if id in segmentsPerKlass[classes[|classes| - 1]] then classes[|classes| - 1]
    else TrainLabel(classes[..|classes| - 1], segmentsPerKlass, id)
  }

  /** An id in no class set gets 0; with pairwise-disjoint class sets, an id
      in the set of class k gets exactly k. */
  lemma {:induction false} TrainLabelExact(classes: seq<int>, segmentsPerKlass: map<int, set<int>>, id: int)
    requires forall i :: 0 <= i < |classes| ==> classes[i] in segmentsPerKlass
    requires PairwiseDisjoint(ClassSets(classes, segmentsPerKlass))
    ensures forall i :: 0 <= i < |classes| && id in segmentsPerKlass[classes[i]] ==>
      TrainLabel(classes, segmentsPerKlass, id) == classes[i]
    ensures (forall i :: 0 <= i < |classes| ==> id !in segmentsPerKlass[classes[i]]) ==>
      TrainLabel(classes, segmentsPerKlass, id) == 0
  {
    if classes != [] {
      var init := classes[..|classes| - 1];
      var sets := ClassSets(classes, segmentsPerKlass);
      assert ClassSets(init, segmentsPerKlass) == sets[..|init|];
      TrainLabelExact(init, segmentsPerKlass, id);
      var last := |classes| - 1;
      if id in segmentsPerKlass[classes[last]] {
        forall i | 0 <= i < last ensures id !in segmentsPerKlass[classes[i]] {
          assert sets[i] == segmentsPerKlass[classes[i]] && sets[last] == segmentsPerKlass[classes[last]];
        }
      }
    }
  }

  /** What the relabelling relies on at the point where the source reaches it:
      a non-empty segment map of non-negative ids (as slic produces), class codes of at least 1
      (they exceed the smallest ground-truth value, which is non-negative),
      class sets drawn from the segment map and free of conflicts. */
  predicate RelabelReady(segments: seq<int>, classes: seq<int>, segmentsPerKlass: map<int, set<int>>)
  {
    && |segments| > 0
    && (forall p :: 0 <= p < |segments| ==> segments[p] >= 0)
    && (forall i :: 0 <= i < |classes| ==> classes[i] >= 1 && classes[i] in segmentsPerKlass)
    && (forall i :: 0 <= i < |classes| ==> segmentsPerKlass[classes[i]] <= Elems(segments))
    && PairwiseDisjoint(ClassSets(classes, segmentsPerKlass))
  }

  /** The relabelled training raster `train_img`, built in place from a copy
      of the segment map: every segment of class k is first moved to the
      code threshold + k, where threshold = max + 1 lies above every segment
      id, so later steps never touch a pixel relabelled earlier; then every
      pixel at or below the threshold becomes 0 and the threshold is
      subtracted from the others. Each pixel ends as the class of its
      segment, or 0 when its segment is in no class set. */
  method RelabelTrainingRaster(segments: seq<int>, classes: seq<int>, segmentsPerKlass: map<int, set<int>>)
    returns (trainImg: seq<int>)
    requires RelabelReady(segments, classes, segmentsPerKlass)
    ensures |trainImg| == |segments|
    ensures forall p :: 0 <= p < |segments| ==> trainImg[p] == TrainLabel(classes, segmentsPerKlass, segments[p])
    ensures forall p, i :: 0 <= p < |segments| && 0 <= i < |classes| && segments[p] in segmentsPerKlass[classes[i]] ==>
      trainImg[p] == classes[i]
    ensures forall p :: 0 <= p < |segments| && (forall i :: 0 <= i < |classes| ==> segments[p] !in segmentsPerKlass[classes[i]]) ==>
      trainImg[p] == 0
  {
    var n := |segments|;
    var a := new int[n](p requires 0 <= p < n => segments[p]);
    var mx := Max(segments);
    var threshold := mx + 1;
    for i := 0 to |classes|
      invariant forall p :: 0 <= p < n ==>
        a[p] == Staged(segments[p], TrainLabel(classes[..i], segmentsPerKlass, segments[p]), threshold)
    {
      MoveClassAbove(a, segments, classes, segmentsPerKlass, i, mx);
    }
    assert classes[..|classes|] == classes;
    ghost var staged := a[..];
    ClearAtOrBelow(a, threshold);
    SubtractAbove(a, threshold);
    trainImg := a[..];
    forall p | 0 <= p < n ensures trainImg[p] == TrainLabel(classes, segmentsPerKlass, segments[p]) {
      assert segments[p] in segments;
      var code := TrainLabel(classes, segmentsPerKlass, segments[p]);
      assert code != 0 ==> code >= 1;
      assert staged[p] == Staged(segments[p], code, threshold);
    }
    forall p | 0 <= p < n {
      TrainLabelExact(classes, segmentsPerKlass, segments[p]);
    }
  }

  /** Value of a pixel of segment `id` while the classes are moved above the threshold. */
  function Staged(id: int, code: int, threshold: int): int
  {
    if code == 0 then id else threshold + code
  }

  /** One pass of the outer relabelling loop: `train_img[train_img == id] =
      threshold + k` for every id in the set of class k = classes[i], taken
      in any order. */
  method MoveClassAbove(a: array<int>, segments: seq<int>, classes: seq<int>,
                        segmentsPerKlass: map<int, set<int>>, i: nat, mx: int)
    requires RelabelReady(segments, classes, segmentsPerKlass)
    requires a.Length == |segments| && i < |classes| && mx == Max(segments)
    requires forall p :: 0 <= p < a.Length ==>
      a[p] == Staged(segments[p], TrainLabel(classes[..i], segmentsPerKlass, segments[p]), mx + 1)
    modifies a
    ensures forall p :: 0 <= p < a.Length ==>
      a[p] == Staged(segments[p], TrainLabel(classes[..i + 1], segmentsPerKlass, segments[p]), mx + 1)
  {
    var threshold := mx + 1;
    var klass := classes[i];
    var klassLabel := threshold + klass;
    var todo := segmentsPerKlass[klass];
    ghost var done: set<int> := {};
    while todo != {}
      invariant todo + done == segmentsPerKlass[klass] && todo * done == {}
      invariant forall p :: 0 <= p < a.Length ==>
        a[p] == if segments[p] in done then klassLabel
                else Staged(segments[p], TrainLabel(classes[..i], segmentsPerKlass, segments[p]), threshold)
      decreases todo
    {
      var segmentId :| segmentId in todo;
      assert segmentId <= mx by {
        assert segmentId in Elems(segments);
      }
      ghost var before := a[..];
      forall p | 0 <= p < a.Length ensures before[p] == segmentId <==> segments[p] == segmentId {
        assert segments[p] in segments;
        ClassFreeBefore(classes, segmentsPerKlass, i, segments[p], segmentId, mx);
      }
      ReplaceValue(a, segmentId, klassLabel);
      todo := todo - {segmentId};
      done := done + {segmentId};
    }
    assert classes[..i + 1][..i] == classes[..i];
  }

  /** Inside the relabelling of class i, a pixel holds the id of a segment of
      that class exactly when the pixel belongs to that segment: ids are below
      the threshold, and by disjointness no earlier class moved that segment. */
  lemma ClassFreeBefore(classes: seq<int>, segmentsPerKlass: map<int, set<int>>, i: nat, id: int, segmentId: int, mx: int)
    requires forall j :: 0 <= j < |classes| ==> classes[j] >= 1 && classes[j] in segmentsPerKlass
    requires PairwiseDisjoint(ClassSets(classes, segmentsPerKlass))
    requires i < |classes| && segmentId in segmentsPerKlass[classes[i]]
    requires id <= mx && segmentId <= mx
    ensures Staged(id, TrainLabel(classes[..i], segmentsPerKlass, id), mx + 1) == segmentId <==> id == segmentId
    ensures TrainLabel(classes[..i], segmentsPerKlass, id) != 0 ==>
      Staged(id, TrainLabel(classes[..i], segmentsPerKlass, id), mx + 1) > mx
  {
    var sets := ClassSets(classes, segmentsPerKlass);
    var prefix := classes[..i];
    forall j | 0 <= j < i ensures segmentId !in segmentsPerKlass[prefix[j]] {
      assert sets[j] == segmentsPerKlass[prefix[j]] && sets[i] == segmentsPerKlass[classes[i]];
    }
    assert ClassSets(prefix, segmentsPerKlass) == sets[..i];
    TrainLabelExact(prefix, segmentsPerKlass, segmentId);
  }
}
