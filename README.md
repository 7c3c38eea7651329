# Object-based classification core of `PDAL/classify.py`

This project models the integer, set and raster bookkeeping of the
object-based land-cover classifier in `PDAL/classify.py` and proves what it
computes. The pieces are:

- **Overlay (`vectors_to_raster`).** The class masks are burned with codes 1..n and summed into one ground-truth raster.
- **Feature vectors (`segment_features`).** Each segment gets a vector with six statistics per band.
- **`SLIC_object_creation` from the segment map onwards:**
  - the class list;
  - the segment set of each class;
  - the conflict check that gives up when a segment touches two classes;
  - the relabelled training raster `train_img`;
  - the object table and the training table.
- **After prediction:**
  - the loop that paints each segment's predicted class into a copy of the segment map;
  - the building mask (class 3 becomes 6, everything else 0).

Every raster is flattened row-major into a sequence of pixels. That is also
the order in which numpy's boolean-mask indexing (`a[mask]`) returns pixels.
The rasterizer's output for each class file arrives as a coverage mask.
`scipy.stats.describe` is a function parameter. The classifier's predictions
are an arbitrary input sequence.

Where the source changes an array in place, the model does too:

- the `labeled_pixels +=` accumulation;
- the masked assignments on `train_img`;
- the repainting of `clf`.

Each of these methods works on a local array. Its result is stated against a
specification function, and lemmas prove what that function promises.

Modules: `GridOps` (numpy-style element-wise helpers), `Overlay`, `Features`,
`Assigner` (class list, class sets, conflict check, relabelling),
`ObjectTable` (object and training tables, the whole function) and
`Prediction` (painting and building mask).

## Model

| member | source | states |
|---|---|---|
| GridOps.Where | PDAL/classify.py:77 | `xs[keys in s]` is at most as long as xs. It holds exactly the elements of xs whose key lies in s. |
| GridOps.WhereSameLength | PDAL/classify.py:114 | Two selections by the same key mask have the same length. |
| GridOps.WhereAligned | PDAL/classify.py:114 | The m-th selected element and the m-th selected key come from one position, and that key lies in s. |
| GridOps.WhereAscending | PDAL/classify.py:114 | Selecting from strictly increasing keys keeps them strictly increasing. |
| GridOps.WhereCount | PDAL/classify.py:114 | Over distinct keys, the selection has one entry per member of s that occurs among the keys. |
| GridOps.Unique | PDAL/classify.py:68 | `np.unique` is strictly increasing and has exactly the elements of its input. |
| GridOps.Max | PDAL/classify.py:92 | `max()` of a non-empty raster is one of its values and is at least every value. |
| GridOps.ReplaceValue | PDAL/classify.py:96 | `a[a == from] = to` sets exactly the pixels holding `from` to `to` and leaves the others unchanged. |
| GridOps.ClearAtOrBelow | PDAL/classify.py:97 | `a[a <= t] = 0` zeroes exactly the pixels at or below t. |
| GridOps.SubtractAbove | PDAL/classify.py:98 | `a[a > t] -= t` lowers exactly the pixels above t by t. |
| Overlay.VectorsToRaster | PDAL/classify.py:29-39 | The output is GroundTruth of the masks: each pixel is the sum of the codes i + 1 of all masks i covering it. |
| Overlay.UncoveredIsZero | PDAL/classify.py:31-37 | A pixel no mask covers stays 0. |
| Overlay.SingleCoverIsCode | PDAL/classify.py:32-37 | A pixel covered only by mask i holds i + 1. |
| Overlay.DoubleCoverIsSum | PDAL/classify.py:32-37 | A pixel covered by exactly masks i and j holds i + j + 2. For classes 1 and 2 that is code 3. |
| Overlay.DisjointCodesInRange | PDAL/classify.py:32-37 | With pairwise-disjoint masks every pixel lies in 0..n. It is 0 exactly when no mask covers it. |
| Overlay.CodeSumNonNegative | PDAL/classify.py:31-37 | No overlay pixel is negative. |
| Overlay.Burn | PDAL/classify.py:34-37 | Defines the band the rasterizer burns for one class: the class code on covered pixels and 0 elsewhere. |
| Overlay.CodeSum | PDAL/classify.py:31-37 | Defines the reference value of one overlay pixel: the sum of the codes i + 1 of the masks covering it. |
| Overlay.GroundTruth | PDAL/classify.py:29-39 | Defines the overlay as a function of the masks: pixel p holds CodeSum at p. |
| Features.SegmentFeatures | PDAL/classify.py:52-63 | The vector has 6 × n_bands entries. Band b fills 6b..6b+5 with min, max, mean, variance, skewness and kurtosis of that band. With one pixel, every variance entry is exactly 0.0. |
| Features.FeatureVectorUnique | PDAL/classify.py:52-63 | The layout determines the vector: two vectors with it for the same pixels are equal. |
| Features.Column | PDAL/classify.py:57 | Defines `segment_pixels[:, b]`: band b of every pixel of the segment. |
| Features.IsBandBlock | PDAL/classify.py:57-62 | Defines entries 6b..6b+5: min, max, mean, variance, skewness and kurtosis of band b, with the variance 0.0 for one pixel. |
| Features.IsFeatureVector | PDAL/classify.py:54-63 | Defines the feature vector: 6 × n_bands entries, one block per band in band order. |
| Assigner.Classes | PDAL/classify.py:74 | The class list is strictly increasing. It holds exactly the ground-truth values that exceed some other ground-truth value, so the smallest is dropped. |
| Assigner.UniqueTailAboveMinimum | PDAL/classify.py:74 | `np.unique(...)[1:]` holds exactly the values above the minimum. |
| Assigner.ClassesArePositiveCodes | PDAL/classify.py:74 | When 0 occurs and nothing is negative, the classes are exactly the positive codes present. |
| Assigner.FullCoverageDropsClass | PDAL/classify.py:74 | When every pixel has a code of at least 1, some present code is missing from the class list. |
| Assigner.ClassSegments | PDAL/classify.py:77-78 | `set(segments[ground_truth == k])` holds exactly the ids of segments with a pixel of ground truth k. |
| Assigner.ClassMap | PDAL/classify.py:75-78 | `segments_per_klass` has an entry for every class. |
| Assigner.CollectClassSegments | PDAL/classify.py:75-78 | The keys of the dictionary are exactly the classes, and each value is that class's segment set. |
| Assigner.FindConflicts | PDAL/classify.py:81-85 | `accum` ends as the union of the class sets. `intersection` ends as exactly the ids lying in two or more sets, so it is empty if and only if the sets are pairwise disjoint. |
| Assigner.ConflictIffOverlap | PDAL/classify.py:84-86 | The set of ids shared by two class sets is empty if and only if the sets are pairwise disjoint. |
| Assigner.ClassSets | PDAL/classify.py:83 | Defines `segments_per_klass.values()`: the class sets in class order. |
| Assigner.PairwiseDisjoint | PDAL/classify.py:81-86 | Defines the no-conflict condition: no segment id lies in two class sets. |
| Assigner.TrainLabel | PDAL/classify.py:93-98 | The label a segment receives is 0 or a class whose set holds the segment. |
| Assigner.TrainLabelExact | PDAL/classify.py:93-98 | With disjoint sets, an id in the set of class k gets k, and an id in no set gets 0. |
| Assigner.RelabelTrainingRaster | PDAL/classify.py:91-98 | Each pixel of `train_img` is k when its segment is in the set of class k, and 0 when its segment is in no set. |
| Assigner.MoveClassAbove | PDAL/classify.py:94-96 | Moving one class above the threshold, in any set order, touches only that class's segments. Pixels moved by earlier classes stay put. |
| Assigner.ClassFreeBefore | PDAL/classify.py:92-96 | While class i is moved, a pixel holds a segment id of that class exactly when it belongs to that segment. A pixel whose segment has already been moved holds a staged code above every id. |
| Assigner.Staged | PDAL/classify.py:94-96 | Defines the value of a pixel while classes are moved: its id, or threshold + k once its segment's class k has been moved. |
| Assigner.RelabelReady | PDAL/classify.py:86-98 | Defines what holds where the relabelling starts: a non-empty map of non-negative ids, class codes of at least 1, and disjoint class sets drawn from the map. |
| ObjectTable.SegmentPixelsShape | PDAL/classify.py:105 | `img[segments == id]` is an n_pixels × n_bands matrix. It is non-empty when the id occurs. |
| ObjectTable.BuildObjects | PDAL/classify.py:102-109 | `objects_ids` is the ascending list of distinct ids. `objects` has the same length, and `objects[i]` is the feature vector of the pixels of segment `objects_ids[i]`. |
| ObjectTable.BuildTrainingSet | PDAL/classify.py:111-117 | Labels and rows have equal length. They are the class-by-class tables below. |
| ObjectTable.TrainingLabelsSorted | PDAL/classify.py:113-115 | Every label is a class, and labels are non-decreasing. |
| ObjectTable.TrainingLabelsCount | PDAL/classify.py:113-115 | Class k occurs exactly \|segments_per_klass[k]\| times among the labels. |
| ObjectTable.LastBlockCount | PDAL/classify.py:113-115 | Adding a class adds one label of that class per training row it contributes, and no other label. |
| ObjectTable.PrefixLacksLastClass | PDAL/classify.py:113-115 | The labels of the earlier classes never name the last class. |
| ObjectTable.LastClassCount | PDAL/classify.py:113-115 | The last class occurs exactly once per member of its segment set. |
| ObjectTable.TrainingRowOrigin | PDAL/classify.py:113-117 | Each training row is the object of a segment in the set of its label's class. |
| ObjectTable.ClassRowsInIdOrder | PDAL/classify.py:114 | Within one class, rows follow ascending segment id. |
| ObjectTable.TrainingObjects | PDAL/classify.py:113-117 | Defines the training rows: for each class in order, the objects whose id lies in its set, in object order. |
| ObjectTable.TrainingLabels | PDAL/classify.py:113-115 | Defines the training labels: each class repeated once per training row it contributes. |
| ObjectTable.TrainingLengths | PDAL/classify.py:115-117 | Labels and rows have equal length. |
| ObjectTable.OverlayClassesPositive | PDAL/classify.py:73-74 | Every class code of the overlay is at least 1. |
| ObjectTable.TruthClasses | PDAL/classify.py:73-74 | Defines the class list of the overlay of the masks. |
| ObjectTable.IsObjectSet | PDAL/classify.py:119-129 | Defines the `res` dictionary: the segment map and pass-through fields, `objects_ids == np.unique(segments)`, one feature vector per id, and the training tables. |
| ObjectTable.TruthClassMap | PDAL/classify.py:73-78 | The class map of the overlay has an entry for each of its classes. |
| ObjectTable.GatherClasses | PDAL/classify.py:73-78 | The first steps yield the overlay's class list and class map. The classes are at least 1, and the class sets hold ids of the map. |
| ObjectTable.AssembleObjectSet | PDAL/classify.py:91-129 | After a clean check, the result holds the segment map and pass-through fields, the object table and the training tables. |
| ObjectTable.SlicObjectCreation | PDAL/classify.py:65-130 | The result is `None` exactly when the class sets of the overlay are not pairwise disjoint. Otherwise it is the object set above. |
| Prediction.Painted | PDAL/classify.py:171-173 | Painting keeps the raster's size. |
| Prediction.BySegment | PDAL/classify.py:171-173 | Painting by segment keeps the raster's size. |
| Prediction.LastPrediction | PDAL/classify.py:172-173 | The class of a segment is the prediction of the last step naming it, or the default when no step names it. |
| Prediction.BySegmentPixel | PDAL/classify.py:172-173 | Painting by segment gives each pixel the last prediction for its segment, and leaves unnamed segments unchanged. |
| Prediction.PaintedValueOrigin | PDAL/classify.py:172-173 | Each painted pixel holds its original value or one of the predicted classes. |
| Prediction.PaintedMatchesBySegment | PDAL/classify.py:172-173 | With distinct ids and no prediction equal to a later id, painting by current values equals painting by segment. |
| Prediction.PaintPredictions | PDAL/classify.py:171-173 | `clf` is the map painted step by step on current values. With distinct ids and no prediction equal to a later id, it is the painting by segment. |
| Prediction.PaintBySegment | PDAL/classify.py:171-173 | Each pixel of a painted segment gets that segment's prediction (distinct ids). A pixel of an unpainted segment keeps its id. |
| Prediction.AssignWhere | PDAL/classify.py:173 | `a[keys == key] = v` sets exactly the pixels whose key is `key`. |
| Prediction.RepaintCollision | PDAL/classify.py:172-173 | For segments [1, 2] with predictions [2, 5], the loop as written gives [5, 5]. Painting by segment gives [2, 5]. |
| Prediction.BuildingMask | PDAL/classify.py:188-189 | The mask is 6 exactly where `clf` is 3, and 0 elsewhere. |
| Prediction.BuildingRaster | PDAL/classify.py:171-189 | `classified_b` is the building mask of the map painted as written, so every pixel is 0 or 6. A pixel of a segment no step names is 6 exactly when its id is 3. With distinct ids and no prediction equal to a later id, a pixel of a painted segment is 6 exactly when its segment was predicted as class 3. |
| Prediction.Zip | PDAL/classify.py:172 | Defines `zip(objects_ids, predicted)`: the painting steps, truncated to the shorter list. |
| Prediction.MaskAssign | PDAL/classify.py:173 | Defines `clf[keys == key] = v` on values: pixels whose key is `key` take v, the others keep their value. |
| Prediction.DistinctIds | PDAL/classify.py:172 | Defines the condition that no two painting steps name the same segment id. |
| Prediction.NoCollision | PDAL/classify.py:172-173 | Defines the condition that no predicted class equals the id of a segment painted later. |
| Prediction.PaintedSkipsUnnamed | PDAL/classify.py:172-173 | A pixel whose value no painting step names keeps its value. |
| Prediction.BySegmentDistinct | PDAL/classify.py:172-173 | With distinct ids, painting by segment gives each pixel of a named segment exactly that segment's prediction. |

## Left out

- **GDAL/OGR I/O.** Rasterizing, reading and writing GeoTIFFs, polygonizing, GeoJSON and the EPSG reference are foreign library calls. The rasterizer's output is a coverage mask per class. `classified_b` is returned instead of written.
- **`slic` and `exposure.rescale_intensity`.** These are library algorithms. The segment map and the image are inputs.
- **The class-file scan.** `os.listdir` only discovers the class files. The masks and `classes_labels` arrive as ordered inputs.
- **`geo_transform` and `proj`.** These are module globals. Raster geometry is not modelled.
- **Float and unsigned-integer raster types.** The ground truth is float64 and the burned rasters are UInt16. Sums of small class codes are exact in both, so the model uses unbounded integers.
- **`scipy.stats.describe`.** Its numeric values are a parameter. Only the vector layout and the single-pixel variance substitution are modelled.
- **Features.SegmentFeatures: requires a non-empty segment.** `describe` raises on empty input. Every id taken from `np.unique(segments)` has at least one pixel.
- **Features.SegmentFeatures: only the variance is replaced.** With a single pixel, the code replaces only the variance entry (index 3) with 0.0. Skewness and kurtosis keep whatever `describe` reports. The model follows the code.
- **Classifier, scaler and metrics.** `StandardScaler`, the random forest and `accuracy_score` are machine-learning and floating-point code. The predictions are an arbitrary sequence.
- **Validation rasters.** The second `vectors_to_raster` call is the same operation as the overlay, and it only feeds the metrics.
- **The `'segment_id'` entry of the result.** It leaks the last loop variable and raises `NameError` when there are no classes. `ObjectSet` omits it.
- **Warning suppression.** It has no effect on values.
- **Assigner.RelabelTrainingRaster: requires a non-empty map of non-negative segment ids.** `max()` raises on an empty raster. With all ids below -1, the zeroed pixels would lie above the threshold. slic produces non-negative ids.
- **`train_img` is computed but not returned.** The source discards it, so `SlicObjectCreation` computes and discards it too. Its contents are stated by `RelabelTrainingRaster`.
- **Prediction.PaintPredictions: `zip` truncation.** `zip` stops at the shorter list. This is modelled, but only equal lengths arise in the pipeline.

## Findings

| source | as written | input that shows it | evidently intended | confidence | as-written member | corrected member |
|---|---|---|---|---|---|---|
| PDAL/classify.py:172-173 | `clf[clf == segment_id] = klass` matches the current, already repainted values of `clf`. A segment whose predicted class equals the id of a segment painted later is repainted with that later segment's class. | segments [1, 2], objects_ids [1, 2], predicted [2, 5]: the loop gives [5, 5]. | Each pixel takes its own segment's predicted class, giving [2, 5]. Class codes 1..n routinely coincide with slic ids. | high; not executed | Prediction.RepaintCollision | Prediction.PaintBySegment |
