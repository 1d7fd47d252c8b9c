# aLOCI scoring skeleton in Dafny

A model of the control and arithmetic core of ELKI's approximate-LOCI
outlier scorer, `ALOCI`. The scorer works in three stages.

1. It squares up the data's bounding box into a hypercube.
2. It builds `g` shifted quad-trees. Grid 0 has no shift. Every other grid
   gets a random shift, and points that move past the box are wrapped
   around it.
3. It scores each point. It picks the counting node whose centre is
   nearest, over all grids. It computes the normalised MDEF against the best
   sampling node `alpha` levels above that node. It then climbs one level at
   a time to the root and keeps the largest score and the sampling level
   where that score first appeared. The point's score is also fed into the
   global min/max range.

The quad-trees are not part of this model. The scorer sees them only
through their lookups. Coordinates are exact `real`s, Java `long`
arithmetic wraps explicitly, and the parameterizer's defaults and its
`alpha` clamp are kept.

Files, by module:

- `box.dfy` (`BoundingBox`): the bounding-box equalisation.
- `shift.dfy` (`GridShift`): the shift vectors, `shiftObject`, and where
  shifted points land.
- `quadtree.dfy` (`QuadTree`): the abstract node, with the tree it belongs
  to, its level, centre, bucket count and parent chain, and its ancestor at
  a level.
- `nearest.dfy` (`NodeSearch`): the strict-`>` arg-min over optional
  candidates that `getBestSamplingNode` and `getBestCountingNode` share. It is characterised as
  "nearest, earliest on ties".
- `mdef.dfy` (`Mdef`): the case split of `calculate_MDEF_norm` once the
  sampling node and its moments are known.
- `aloci.dfy` (`Aloci`): the initial grid search, `getBestSamplingNode`,
  `getBestCountingNode`, the per-point level ascent, and the min/max over
  all points.
- `params.dfy` (`Parameters`): `Parameterizer.makeOptions`.
- `wrappers.dfy` (`Wrappers`): `Option`. A `None` stands for a lookup that
  answers `null`.

The built trees are bundled in the datatype `Aloci.Ensemble` as lookup
functions: `countingGrid`, `samplingNode`, `countingNode`, the box-count
square and cubic sums, `Math.sqrt`, and the distance function.
`Aloci.Valid` records what the scorer relies on:

- `g >= 1` and `alpha >= 1`;
- one shift vector per grid;
- every counting grid is at least `alpha` levels deep. This is an
  assumption about `ALOCIQuadTree` and `addLevel(alpha)` (line 206), which
  are not part of this model; see "## Left out" for what Java does when it
  fails;
- the lookups of tree `i` answer with tree `i`'s own nodes, so that a node
  keeps the identity of its tree (`QuadTree.Node.grid`), and the sampling
  and counting lookups answer `null` or a node at the level they were asked
  for. This is what the comments at lines 361-362 and
  390-391 of `ALOCI.java` say.

The random draws of `java.util.Random` are an input: `draws[s][i]` is the
draw for dimension `i` of shift `s + 1`.

On these points the model follows the code:

- A shifted coordinate is wrapped only when it is strictly greater than
  `max[i]`. A coordinate equal to `max[i]` therefore stays put, so shifted
  points lie in the closed interval `[min[i], max[i]]`, and a coordinate of
  `max[i]` can occur.
- The base sampling node in `getBestSamplingNode` is the ancestor of `cg`
  in `cg`'s own tree. It need not belong to tree `qti`.
- With `g == 0` the code still builds one shift and one tree, because grid 0
  is created unconditionally. With a negative `g`, which neither the
  parameterizer nor the constructor rules out, `new ArrayList(g)` at line 168
  throws before any shift exists; `GridShift.MakeShifts` answers `None`
  then. Scoring with `g == 0` would dereference `null` in the grid search
  (line 245), so `Aloci.Valid` asks for `g >= 1`.

## Model

All paths are relative to the repository root.

| member | source | states |
|---|---|---|
| `BoundingBox.MaxExtentIsMax` | src/experimentalcode/students/muellerjo/outlier/ALOCI.java:152-159 | `maxd` is non-negative and at least every dimension's extent. It is either 0 or equal to some dimension's extent. |
| `BoundingBox.EnlargedIsCenteredHypercube` | src/experimentalcode/students/muellerjo/outlier/ALOCI.java:152-165 | After enlargement every side is exactly `maxd`. Each original interval lies inside the new one. Both ends move by the same amount, so the midpoint is kept. |
| `BoundingBox.ComputeBox` | src/experimentalcode/students/muellerjo/outlier/ALOCI.java:149-166 | The two in-place loops over `min`/`max` produce exactly the enlarged box. That box is a hypercube of side `maxd`, centred on and containing the original box. |
| `GridShift.ShiftVectorsInRange` | src/experimentalcode/students/muellerjo/outlier/ALOCI.java:168-188 | A negative `g` gives no list at all (the list constructor throws). Otherwise the construction gives `g` vectors for `g >= 1`, and one for `g == 0`. Vector 0 is all zeros. With every draw in `[0,1)`, each other component lies in `[0, max[i]-min[i])`, or is 0 on a side of length 0. |
| `GridShift.MakeShifts` | src/experimentalcode/students/muellerjo/outlier/ALOCI.java:168-188 | For a negative `g` it fails (`None`), as `new ArrayList(g)` does. Otherwise the shift list built by the loop is the all-zero vector followed by `draw * (max[i]-min[i])` for each of the `g-1` remaining shifts, in order. |
| `GridShift.ShiftObject` | src/experimentalcode/students/muellerjo/outlier/ALOCI.java:280-289 | Each coordinate is shifted, and wrapped back by one side length when it passes `max[i]`. |
| `GridShift.ZeroShiftIsIdentity` | src/experimentalcode/students/muellerjo/outlier/ALOCI.java:280-289 | A zero shift leaves every point inside the box unchanged. This is what grid 0 sees. |
| `GridShift.ShiftStaysInBox` | src/experimentalcode/students/muellerjo/outlier/ALOCI.java:280-289 | A point in `[min,max]` with shifts in range stays in `[min,max]`. Each coordinate is `o+s` or `o+s-side`, so at most one side length is subtracted. |
| `GridShift.InsertedPointInBox` | src/experimentalcode/students/muellerjo/outlier/ALOCI.java:149-193 | Every point of the original box, shifted for any grid, lies in the enlarged box. |
| `QuadTree.Ancestor` | src/experimentalcode/students/muellerjo/outlier/ALOCI.java:351-354 | Following parent links from a well-formed node reaches a well-formed node of the same tree at exactly the requested level. |
| `QuadTree.AncestorTransitive` | src/experimentalcode/students/muellerjo/outlier/ALOCI.java:351-354 | The parent walk can stop at any intermediate level and continue from there to the same ancestor. `GetBestSamplingNode` uses it to keep its walk invariant `sn == Ancestor(cg, sn.level)`. |
| `NodeSearch.NearestIsFirstNearest` | src/experimentalcode/students/muellerjo/outlier/ALOCI.java:357-370 | The strict-`>` scan over optional candidates ends at a node no farther than the start or any present candidate. The result is the start, or the first present candidate strictly nearer than the start and than every earlier one. |
| `NodeSearch.FirstNearestIsUnique` | src/experimentalcode/students/muellerjo/outlier/ALOCI.java:357-370 | At most one node satisfies that characterisation, so it fixes the scan's result. |
| `NodeSearch.NearestIsStartOrCandidate` | src/experimentalcode/students/muellerjo/outlier/ALOCI.java:364-369 | The scan returns the start or one of the non-`null` candidates. |
| `Aloci.ScanGrids` | src/experimentalcode/students/muellerjo/outlier/ALOCI.java:231-239 | The grid the fold over grids settles on is a valid grid index. |
| `Aloci.ScanGridsIsFirstNearest` | src/experimentalcode/students/muellerjo/outlier/ALOCI.java:231-239 | If `best` is first-nearest among grids `0..i-1`, continuing the scan from grid `i` ends at the first-nearest grid of all `g`. |
| `Aloci.InitialGridIsFirstNearest` | src/experimentalcode/students/muellerjo/outlier/ALOCI.java:226-240 | `qti` is the grid whose counting-grid centre is nearest to that grid's own shifted point. Ties go to the lowest grid index. |
| `Aloci.BestCountingGrid` | src/experimentalcode/students/muellerjo/outlier/ALOCI.java:226-240 | The loop returns that grid `qti`, the point `v` shifted for it, and its counting grid `cg`. |
| `Aloci.AnswersAreAt` | src/experimentalcode/students/muellerjo/outlier/ALOCI.java:361-366 | Every non-`null` answer of the other grids is a well-formed node at the requested level. |
| `Aloci.CandidatesAnswerAt` | src/experimentalcode/students/muellerjo/outlier/ALOCI.java:357-370 | A scan that starts at a level and only accepts nodes at that level ends at that level. |
| `Aloci.BestSamplingNode` | src/experimentalcode/students/muellerjo/outlier/ALOCI.java:345-372 | The best sampling node is well-formed and at exactly `level`. |
| `Aloci.GetBestSamplingNode` | src/experimentalcode/students/muellerjo/outlier/ALOCI.java:345-372 | The parent walk and the loop over the grids compute that node. |
| `Aloci.BestSamplingNodeIsFirstNearest` | src/experimentalcode/students/muellerjo/outlier/ALOCI.java:345-372 | Its centre is no farther from `cg`'s than the ancestor's or any other grid's answer. Grid `qti` and `null` answers are skipped, and ties keep the earlier node. |
| `Aloci.BestCountingNode` | src/experimentalcode/students/muellerjo/outlier/ALOCI.java:382-401 | The best counting node is well-formed and at the level of its input. |
| `Aloci.GetBestCountingNode` | src/experimentalcode/students/muellerjo/outlier/ALOCI.java:382-401 | The loop over the grids, which asks at `cn.getLevel()`, computes that node. |
| `Aloci.BestCountingNodeIsFirstNearest` | src/experimentalcode/students/muellerjo/outlier/ALOCI.java:382-401 | It is no farther from `center` than the input or any other grid's answer. Grid `qti` and `null` answers are skipped, and ties keep the earlier node. |
| `Mdef.Wrap64` | src/experimentalcode/students/muellerjo/outlier/ALOCI.java:327 | A `long` operation returns its exact value when that value is in range, and otherwise a value congruent to it modulo 2^64. |
| `Mdef.MdefNorm` | src/experimentalcode/students/muellerjo/outlier/ALOCI.java:320-334 | Every path reports the sampling node's level. `sq == bucketCount` gives 0, and so does a deviation below `Double.MIN_NORMAL`. |
| `Mdef.MdefNormSign` | src/experimentalcode/students/muellerjo/outlier/ALOCI.java:320-334 | The score is positive exactly when the statistic is computed and `n_hat` exceeds `cg`'s count, and negative exactly when it is computed and `n_hat` falls short. |
| `Mdef.VarianceNumeratorExact` | src/experimentalcode/students/muellerjo/outlier/ALOCI.java:327 | When no `long` step overflows, the value under the square root is exactly `cb * bucket - sq * sq`. |
| `Aloci.CalculateMdefNorm` | src/experimentalcode/students/muellerjo/outlier/ALOCI.java:303-335 | The pair it returns always carries the requested sampling level. |
| `Aloci.AscentRest` | src/experimentalcode/students/muellerjo/outlier/ALOCI.java:253-261 | The loop yields exactly `level` more scores, at sampling levels `level-1` down to 0. |
| `Aloci.Evaluations` | src/experimentalcode/students/muellerjo/outlier/ALOCI.java:245-261 | A point is scored at every sampling level from `cg.level - alpha` down to 0, once each and in that order. |
| `Aloci.AscentStep` | src/experimentalcode/students/muellerjo/outlier/ALOCI.java:254-260 | One iteration, with its strict-`<` update, advances the running maximum over the remaining scores. |
| `Aloci.Ascend` | src/experimentalcode/students/muellerjo/outlier/ALOCI.java:253-261 | The `while (level > 0)` loop keeps `cg.level - level == alpha` and ends at level 0. Its `(maxmdefnorm, radius)` is the running maximum, first-wins, over the scores at every coarser level. |
| `Aloci.BestFromIsFirstMax` | src/experimentalcode/students/muellerjo/outlier/ALOCI.java:257-260 | The strict-`<` running maximum returns the largest score, and the first score in the list to reach it. |
| `Aloci.PointScoreIsFirstMax` | src/experimentalcode/students/muellerjo/outlier/ALOCI.java:245-261 | A point's result is its largest score over all levels. `radius` is the sampling level of the first evaluation that reached it. |
| `Aloci.ScorePoint` | src/experimentalcode/students/muellerjo/outlier/ALOCI.java:226-261 | The per-point body of `run` returns exactly `PointScore`: the running maximum over `Evaluations`, which `PointScoreIsFirstMax` shows is the largest score, reported with the level where it first occurs. |
| `Aloci.EvaluationsStart` | src/experimentalcode/students/muellerjo/outlier/ALOCI.java:245-248 | The comparison starts from the score at the initial counting grid and its sampling level. |
| `Aloci.RangeOfAppend` | src/experimentalcode/students/muellerjo/outlier/ALOCI.java:264 | Putting one more score extends the range of the earlier scores by that score. |
| `Aloci.RangeOfIsMinMax` | src/experimentalcode/students/muellerjo/outlier/ALOCI.java:218 | The `DoubleMinMax` is empty exactly when there are no scores. Otherwise its bounds are the least and the largest stored score, and both are attained. |
| `Aloci.ScoreAll` | src/experimentalcode/students/muellerjo/outlier/ALOCI.java:220-268 | Each point's stored score and level are its `PointScore`, in the order of the points. The range passed to the score meta at line 274 is the range of the stored scores. |
| `Parameters.ClampAlpha` | src/experimentalcode/students/muellerjo/outlier/ALOCI.java:451-453 | The effective `alpha` is at least 1 and at least the requested value. It equals the request whenever that is at least 1. |
| `Parameters.AlphaOptionIsPositive` | src/experimentalcode/students/muellerjo/outlier/ALOCI.java:448-454 | Starting from the initial `alpha` of 4, or any value of at least 1, the configured `alpha` is at least 1. It is the user's value when that is at least 1, 1 when it is smaller, and 4 by default. |
| `Parameters.Parameterizer.constructor` | src/experimentalcode/students/muellerjo/outlier/ALOCI.java:421-425 | The fields start at `nmin = 0`, `alpha = 4` and `g = 1`. |
| `Parameters.Parameterizer.MakeOptions` | src/experimentalcode/students/muellerjo/outlier/ALOCI.java:430-455 | `nmin` defaults to 20, `g` to 1 and `alpha` to 4. `alpha` is clamped to at least 1, and an `alpha` of at least 1 stays so. |

## Left out

- The quad-tree classes `ALOCIQuadTree` and `AbstractALOCIQuadTreeNode` are not part of this model. `insert`, `addLevel`, `getCountingGrid`, `getSamplingNode`, `getCountingNode`, `getBoxCountSquareSum` and `getBoxCountCubicSum` are lookups in `Aloci.Ensemble`. Their contracts are the ones `Aloci.Valid` states.
- Building and filling the trees (lines 171, 185-186, 190-207) is left out with the tree internals.
- `Aloci.Valid` assumes that every node's bucket count is at least 1. This is needed for the divisions in `calculate_MDEF_norm`, and it is a property of the trees, which are not modelled.
- `java.util.Random` is replaced by the input `draws`. The seed is fixed at 0 in the constructor, so the sequence is deterministic but not reproduced.
- `Math.sqrt` is an uninterpreted function of the ensemble, so nothing is proved about the size of the deviation, only about the branches.
- IEEE double rounding, NaN and infinities are not modelled. Coordinates, distances and scores are exact reals. In particular, a negative wrapped variance numerator gives `Math.sqrt` a NaN in Java, which then fails the `MIN_NORMAL` test. Here it is just another value of `sqrt`.
- The distance function is an abstract real-valued function, not `EuclideanDistanceFunction`.
- Database and relation access, data stores, `MaterializedRelation`, `OutlierResult`, `QuotientOutlierScoreMeta`, `FiniteProgress` logging and the rest of the option-parsing framework are left out. `makeInstance` and the distance-function option only pass values on.
- `Aloci.ScoreAll`: the points are a sequence, and the stored score and level per point are two sequences in the same order. Database ids are not modelled.
- `Aloci.ScorePoint`: `Aloci.Valid` assumes that every counting grid is at least `alpha` levels deep, and that `alpha >= 1`. Both are assumptions, not consequences of `ALOCI.java`. The comment at lines 199-204 says that `addLevel` adds only `alpha-1` levels, so a tree whose root never split could have its counting grid at level `alpha-1`. Line 245 then sets `level` to -1. An `alpha` of 0 or less can reach the scorer through the public constructor (lines 132-137), which does not clamp it, and it sets `level` to at least `cg.level`. In all these cases the parent walk at lines 351-354 never meets `level`, steps past the root and throws `NullPointerException`. The model does not include that crash.
- `GridShift.MakeShifts`: a negative `g` makes `new ArrayList(g)` at line 168 throw `IllegalArgumentException`. The model gives `None` there and does not model the exception itself or its propagation out of `run`.
- `Parameters.Parameterizer`: the option values are given as `Grab` outcomes rather than parsed from a configuration. The distance-function parameter is left out.
