/**
 * The scoring part of `ALOCI.run`: for every point, find the best counting
 * node over all grids, compute the normalised MDEF at the sampling level
 * `alpha` levels above it and at every coarser level up to the root, keep
 * the largest score, and fold it into the global score range.
 */
module Aloci {
  import opened Wrappers
  import opened QuadTree
  import opened NodeSearch
  import opened Mdef
  import GridShift

  /**
   * The state of an `ALOCI` instance after preprocessing: its parameters,
   * the enlarged box, the shift vectors and the `g` built trees, seen
   * through their lookups. `countingGrid(i, p)` is `qts.get(i).getCountingGrid(p)`,
   * `samplingNode(i, c, l)` and `countingNode(i, c, l)` are the lookups of
   * tree `i` (`None` for `null`), `squareSum(sn, alpha, i)` and
   * `cubicSum(sn, alpha, i)` the box-count moments of `sn`, read from its
   * own tree `sn.grid`, with reference tree `i`, and `sqrt` is `Math.sqrt`.
   */
  datatype Ensemble = Ensemble(
    g: nat,
    alpha: nat,
    dist: Distance,
    min: Point,
    max: Point,
    shifts: seq<Point>,
    countingGrid: (nat, Point) -> Node,
    samplingNode: (nat, Point, nat) -> Option<Node>,
    countingNode: (nat, Point, nat) -> Option<Node>,
    squareSum: (Node, nat, nat) -> Long,
    cubicSum: (Node, nat, nat) -> Long,
    sqrt: real -> real)

  /** A lookup answer is `null` or a node at the requested level. */
  ghost predicate AnswersAt(a: Option<Node>, level: nat)
  {
    a.Some? ==> WellFormed(a.value) && a.value.level == level
  }

  /** A lookup answer of tree `i` is `null` or one of tree `i`'s nodes. */
  ghost predicate FromGrid(a: Option<Node>, i: nat)
  {
    a.Some? ==> a.value.grid == i
  }

  /**
   * What the scorer relies on: at least one grid, `alpha >= 1`, one shift
   * vector per grid, and lookups of tree `i` that answer with tree `i`'s
   * nodes, at the requested level or not at all. That every counting grid
   * lies at least `alpha` levels deep is an assumption about the tree
   * classes, which are not part of this model: the comment at lines
   * 199-204 speaks of `addLevel` adding only `alpha - 1` levels.
   */
  ghost predicate Valid(e: Ensemble)
  {
    && e.g >= 1 && e.alpha >= 1
    && |e.shifts| == e.g && |e.min| == |e.max|
    && (forall s :: 0 <= s < |e.shifts| ==> |e.shifts[s]| == |e.min|)
    && (forall i: nat, p: Point ::
          WellFormed(e.countingGrid(i, p)) && e.countingGrid(i, p).grid == i && e.countingGrid(i, p).level >= e.alpha)
    && (forall i: nat, c: Point, l: nat :: AnswersAt(e.samplingNode(i, c, l), l) && FromGrid(e.samplingNode(i, c, l), i))
    && (forall i: nat, c: Point, l: nat :: AnswersAt(e.countingNode(i, c, l), l) && FromGrid(e.countingNode(i, c, l), i))
  }

  // ---------------------------------------------------------------------
  // The initial counting-node search (lines 226-240)

  /** The point as shifted for grid `i`. */
  function GridPoint(e: Ensemble, obj: Point, i: nat): (v: Point)
    requires Valid(e) && |obj| == |e.min| && i < e.g
    ensures |v| == |e.min|
  {
    GridShift.Shifted(obj, e.shifts[i], e.min, e.max)
  }

  /** Distance from grid `i`'s counting node centre to the point shifted for grid `i`. */
  function GridDistance(e: Ensemble, obj: Point, i: nat): real
    requires Valid(e) && |obj| == |e.min| && i < e.g
  {
    var v := GridPoint(e, obj, i);
    e.dist(e.countingGrid(i, v).center, v)
  }

  /** Grid `q` has minimal distance, and every earlier grid is strictly farther. */
  ghost predicate IsFirstNearestGrid(e: Ensemble, obj: Point, q: nat)
    requires Valid(e) && |obj| == |e.min|
  {
    && q < e.g
    && (forall i :: 0 <= i < e.g ==> GridDistance(e, obj, q) <= GridDistance(e, obj, i))
    && (forall i :: 0 <= i < q ==> GridDistance(e, obj, i) > GridDistance(e, obj, q))
  }

  /** The loop over grids `i .. g-1` with `best` the grid chosen so far. */
  function ScanGrids(e: Ensemble, obj: Point, best: nat, i: nat): (r: nat)
    requires Valid(e) && |obj| == |e.min| && best < i <= e.g
    ensures r < e.g
    decreases e.g - i
  {
    if i == e.g then best
    else ScanGrids(e, obj, if GridDistance(e, obj, best) > GridDistance(e, obj, i) then i else best, i + 1)
  }

  lemma {:induction false} ScanGridsIsFirstNearest(e: Ensemble, obj: Point, best: nat, i: nat)
    requires Valid(e) && |obj| == |e.min| && best < i <= e.g
    requires forall k :: 0 <= k < i ==> GridDistance(e, obj, best) <= GridDistance(e, obj, k)
    requires forall k :: 0 <= k < best ==> GridDistance(e, obj, k) > GridDistance(e, obj, best)
    ensures IsFirstNearestGrid(e, obj, ScanGrids(e, obj, best, i))
    decreases e.g - i
  {
    if i < e.g {
      var next := if GridDistance(e, obj, best) > GridDistance(e, obj, i) then i else best;
      ScanGridsIsFirstNearest(e, obj, next, i + 1);
    }
  }

  /**
   * The grid `qti` of the initial search: grid 0 is taken while nothing is
   * chosen (`cg == null`), and a later grid replaces the choice only when
   * strictly nearer.
   */
  function InitialGrid(e: Ensemble, obj: Point): nat
    requires Valid(e) && |obj| == |e.min|
  {
    ScanGrids(e, obj, 0, 1)
  }

  /** The initial search picks the nearest grid, the lowest-numbered one on ties. */
  lemma InitialGridIsFirstNearest(e: Ensemble, obj: Point)
    requires Valid(e) && |obj| == |e.min|
    ensures IsFirstNearestGrid(e, obj, InitialGrid(e, obj))
  {
    ScanGridsIsFirstNearest(e, obj, 0, 1);
  }

  /**
   * `run`, lines 226-240: shifts the point for every grid, asks that grid
   * for its counting node and keeps the nearest, first one on ties.
   */
  method BestCountingGrid(e: Ensemble, obj: Point) returns (qti: nat, cg: Node, v: Point)
    requires Valid(e) && |obj| == |e.min|
    ensures qti == InitialGrid(e, obj) && qti < e.g
    ensures v == GridPoint(e, obj, qti) && cg == e.countingGrid(qti, v)
  {
    var best: Option<Node> := None;
    v, qti := [], 0;
    for i := 0 to e.g
      invariant best.None? <==> i == 0
      invariant i > 0 ==> qti < i && v == GridPoint(e, obj, qti) && best == Some(e.countingGrid(qti, v))
      invariant i > 0 ==> forall k :: 0 <= k < i ==> GridDistance(e, obj, qti) <= GridDistance(e, obj, k)
      invariant i > 0 ==> forall k :: 0 <= k < qti ==> GridDistance(e, obj, k) > GridDistance(e, obj, qti)
      invariant i > 0 ==> ScanGrids(e, obj, qti, i) == InitialGrid(e, obj)
    {
      var v2 := GridShift.ShiftObject(obj, e.shifts[i], e.min, e.max);
      var cg2 := e.countingGrid(i, v2);
      if best.None? || e.dist(best.value.center, v) > e.dist(cg2.center, v2) {
        best, v, qti := Some(cg2), v2, i;
      }
    }
    cg := best.value;
  }

  // ---------------------------------------------------------------------
  // getBestSamplingNode (lines 345-372)

  /** The answers of grids `i .. g-1` but `qti` for a sampling node at `level` around `center`. */
  function SamplingAnswers(e: Ensemble, center: Point, level: nat, qti: nat, i: nat): seq<Option<Node>>
    decreases e.g - i
  {
    if i >= e.g then []
    else [if i == qti then None else e.samplingNode(i, center, level)] + SamplingAnswers(e, center, level, qti, i + 1)
  }

  /** The answers of grids `i .. g-1` but `qti` for a counting node at `level` around `center`. */
  function CountingAnswers(e: Ensemble, center: Point, level: nat, qti: nat, i: nat): seq<Option<Node>>
    decreases e.g - i
  {
    if i >= e.g then []
    else [if i == qti then None else e.countingNode(i, center, level)] + CountingAnswers(e, center, level, qti, i + 1)
  }

  /** Every present answer is a well-formed node at the requested level. */
  lemma {:induction false} AnswersAreAt(e: Ensemble, center: Point, level: nat, qti: nat, i: nat)
    requires Valid(e)
    ensures forall k :: 0 <= k < |SamplingAnswers(e, center, level, qti, i)| ==>
              AnswersAt(SamplingAnswers(e, center, level, qti, i)[k], level)
    ensures forall k :: 0 <= k < |CountingAnswers(e, center, level, qti, i)| ==>
              AnswersAt(CountingAnswers(e, center, level, qti, i)[k], level)
    decreases e.g - i
  {
    if i < e.g {
      AnswersAreAt(e, center, level, qti, i + 1);
      var s, c := SamplingAnswers(e, center, level, qti, i), CountingAnswers(e, center, level, qti, i);
      assert forall k :: 1 <= k < |s| ==> s[k] == SamplingAnswers(e, center, level, qti, i + 1)[k - 1];
      assert forall k :: 1 <= k < |c| ==> c[k] == CountingAnswers(e, center, level, qti, i + 1)[k - 1];
    }
  }

  /** A search over answers at `level` from a start at `level` ends at `level`. */
  lemma CandidatesAnswerAt(cands: seq<Option<Node>>, level: nat, start: Node, dist: Distance, center: Point)
    requires forall i :: 0 <= i < |cands| ==> AnswersAt(cands[i], level)
    requires WellFormed(start) && start.level == level
    ensures var r := Nearest(dist, center, start, cands);
            WellFormed(r) && r.level == level
  {
    NearestIsStartOrCandidate(dist, center, start, cands);
  }

  /**
   * The best sampling node: the ancestor of `cg` at `level`, replaced by
   * another grid's sampling node whose centre is strictly nearer to `cg`'s.
   */
  function BestSamplingNode(e: Ensemble, cg: Node, level: nat, qti: nat): (sn: Node)
    requires Valid(e) && WellFormed(cg) && level < cg.level
    ensures WellFormed(sn) && sn.level == level
  {
    var cands := SamplingAnswers(e, cg.center, level, qti, 0);
    AnswersAreAt(e, cg.center, level, qti, 0);
    CandidatesAnswerAt(cands, level, Ancestor(cg, level), e.dist, cg.center);
    Nearest(e.dist, cg.center, Ancestor(cg, level), cands)
  }

  /**
   * `getBestSamplingNode`: walks from `cg`'s parent up to `level`, then
   * compares the other grids' sampling nodes with it. This is a separate
   * model of lines 345-372 with its loops; the scoring path reaches the same
   * node through the function `BestSamplingNode`, which `CalculateMdefNorm`
   * uses and which this method is proved to compute.
   */
  method GetBestSamplingNode(e: Ensemble, cg: Node, level: nat, qti: nat) returns (sn: Node)
    requires Valid(e) && WellFormed(cg) && level < cg.level
    ensures sn == BestSamplingNode(e, cg, level, qti)
  {
    var center := cg.center;
    sn := cg.parent.value;
    while sn.level != level
      invariant WellFormed(sn) && level <= sn.level < cg.level
      invariant sn == Ancestor(cg, sn.level)
      decreases sn.level
    {
      AncestorTransitive(cg, sn.level, sn.level - 1);
      sn := sn.parent.value;
    }
    for i := 0 to e.g
      invariant Nearest(e.dist, center, sn, SamplingAnswers(e, center, level, qti, i)) == BestSamplingNode(e, cg, level, qti)
    {
      if i == qti {
        continue;
      }
      var sn2 := e.samplingNode(i, center, level);
      if sn2 == None {
        continue;
      }
      if e.dist(center, sn.center) > e.dist(center, sn2.value.center) {
        sn := sn2.value;
      }
    }
  }

  /**
   * The best sampling node is the nearest to `cg`'s centre of the ancestor
   * at `level` and the other grids' answers, the ancestor or the earliest
   * grid winning ties.
   */
  lemma BestSamplingNodeIsFirstNearest(e: Ensemble, cg: Node, level: nat, qti: nat)
    requires Valid(e) && WellFormed(cg) && level < cg.level
    ensures IsFirstNearest(e.dist, cg.center, Ancestor(cg, level), SamplingAnswers(e, cg.center, level, qti, 0),
                           BestSamplingNode(e, cg, level, qti))
  {
    NearestIsFirstNearest(e.dist, cg.center, Ancestor(cg, level), SamplingAnswers(e, cg.center, level, qti, 0));
  }

  // ---------------------------------------------------------------------
  // getBestCountingNode (lines 382-401)

  /** `cg`, replaced by another grid's counting node at its level strictly nearer to `center`. */
  function BestCountingNode(e: Ensemble, cg: Node, center: Point, qti: nat): (cn: Node)
    requires Valid(e) && WellFormed(cg)
    ensures WellFormed(cn) && cn.level == cg.level
  {
    var cands := CountingAnswers(e, center, cg.level, qti, 0);
    AnswersAreAt(e, center, cg.level, qti, 0);
    CandidatesAnswerAt(cands, cg.level, cg, e.dist, center);
    Nearest(e.dist, center, cg, cands)
  }

  /** `getBestCountingNode`: asks every grid but `qti` at the level of the current node. */
  method GetBestCountingNode(e: Ensemble, cg: Node, center: Point, qti: nat) returns (cn: Node)
    requires Valid(e) && WellFormed(cg)
    ensures cn == BestCountingNode(e, cg, center, qti)
  {
    cn := cg;
    for i := 0 to e.g
      invariant WellFormed(cn) && cn.level == cg.level
      invariant Nearest(e.dist, center, cn, CountingAnswers(e, center, cg.level, qti, i)) == BestCountingNode(e, cg, center, qti)
    {
      if i == qti {
        continue;
      }
      var cn2 := e.countingNode(i, center, cn.level);
      if cn2 == None {
        continue;
      }
      if e.dist(center, cn.center) > e.dist(center, cn2.value.center) {
        cn := cn2.value;
      }
    }
  }

  /**
   * The best counting node is the nearest to `center` of `cg` and the other
   * grids' answers at `cg`'s level, `cg` or the earliest grid winning ties.
   */
  lemma BestCountingNodeIsFirstNearest(e: Ensemble, cg: Node, center: Point, qti: nat)
    requires Valid(e) && WellFormed(cg)
    ensures IsFirstNearest(e.dist, center, cg, CountingAnswers(e, center, cg.level, qti, 0),
                           BestCountingNode(e, cg, center, qti))
  {
    NearestIsFirstNearest(e.dist, center, cg, CountingAnswers(e, center, cg.level, qti, 0));
  }

  // ---------------------------------------------------------------------
  // calculate_MDEF_norm (lines 303-335)

  /**
   * The normalised MDEF of counting node `cg` against the best sampling
   * node at `level`; the moments use tree `qti` as reference.
   */
  function CalculateMdefNorm(e: Ensemble, cg: Node, level: nat, qti: nat): (r: Score)
    requires Valid(e) && WellFormed(cg) && level < cg.level
    ensures r.level == level
  {
    var sn := BestSamplingNode(e, cg, level, qti);
    MdefNorm(sn, cg.bucketCount, e.squareSum(sn, e.alpha, qti), e.cubicSum(sn, e.alpha, qti), e.sqrt)
  }

  // ---------------------------------------------------------------------
  // The per-point level ascent (lines 245-261)

  /**
   * The scores the `while (level > 0)` loop computes from state
   * (`cg`, `level`): one per coarser level, down to level 0.
   */
  function AscentRest(e: Ensemble, cg: Node, level: nat, v: Point, qti: nat): (rest: seq<Score>)
    requires Valid(e) && WellFormed(cg) && cg.level == level + e.alpha
    ensures |rest| == level
    ensures forall k :: 0 <= k < level ==> rest[k].level == level - 1 - k
    decreases level
  {
    if level == 0 then []
    else
      var next := BestCountingNode(e, cg.parent.value, v, qti);
      [CalculateMdefNorm(e, next, level - 1, qti)] + AscentRest(e, next, level - 1, v, qti)
  }

  /** Every score computed for `obj`, in order: sampling levels from `cg.level - alpha` down to 0. */
  function Evaluations(e: Ensemble, obj: Point): (l: seq<Score>)
    requires Valid(e) && |obj| == |e.min|
    ensures |l| >= 1 && |l| == l[0].level + 1
    ensures forall k :: 0 <= k < |l| ==> l[k].level == l[0].level - k
  {
    var qti := InitialGrid(e, obj);
    var v := GridPoint(e, obj, qti);
    var cg := e.countingGrid(qti, v);
    var level: nat := cg.level - e.alpha;
    [CalculateMdefNorm(e, cg, level, qti)] + AscentRest(e, cg, level, v, qti)
  }

  /** The running maximum with strict `<`: a later score replaces `acc` only when larger. */
  function BestFrom(acc: Score, rest: seq<Score>): Score
    decreases |rest|
  {
    if rest == [] then acc
    else BestFrom(if acc.norm < rest[0].norm then rest[0] else acc, rest[1..])
  }

  /** `b` is the largest score of `l`, and the first of `l` to reach it. */
  ghost predicate IsFirstMax(l: seq<Score>, b: Score)
  {
    && (forall k :: 0 <= k < |l| ==> l[k].norm <= b.norm)
    && exists k :: 0 <= k < |l| && l[k] == b && forall j :: 0 <= j < k ==> l[j].norm < b.norm
  }

  lemma {:induction false} BestFromIsFirstMax(acc: Score, rest: seq<Score>)
    ensures IsFirstMax([acc] + rest, BestFrom(acc, rest))
    decreases |rest|
  {
    var l := [acc] + rest;
    var b := BestFrom(acc, rest);
    if rest != [] {
      var acc1 := if acc.norm < rest[0].norm then rest[0] else acc;
      var l1 := [acc1] + rest[1..];
      BestFromIsFirstMax(acc1, rest[1..]);
      var k1 :| 0 <= k1 < |l1| && l1[k1] == b && forall j :: 0 <= j < k1 ==> l1[j].norm < b.norm;
      forall k | 0 <= k < |l| ensures l[k].norm <= b.norm {
        if k >= 2 {
          assert l[k] == l1[k - 1];
        } else {
          assert l1[0] == acc1;
        }
      }
      if k1 == 0 {
        if acc.norm < rest[0].norm {
          assert l[1] == b;
        } else {
          assert l[0] == b;
        }
      } else {
        assert l[k1 + 1] == b;
        forall j | 0 <= j < k1 + 1 ensures l[j].norm < b.norm {
          if j >= 2 {
            assert l[j] == l1[j - 1];
          } else {
            assert l1[0] == acc1;
          }
        }
      }
    } else {
      assert l[0] == b;
    }
  }

  /** The point's result: the running maximum over all its evaluations. */
  function PointScore(e: Ensemble, obj: Point): Score
    requires Valid(e) && |obj| == |e.min|
  {
    var l := Evaluations(e, obj);
    BestFrom(l[0], l[1..])
  }

  /** The point's result is its first maximal score, reported with that evaluation's sampling level. */
  lemma PointScoreIsFirstMax(e: Ensemble, obj: Point)
    requires Valid(e) && |obj| == |e.min|
    ensures IsFirstMax(Evaluations(e, obj), PointScore(e, obj))
  {
    var l := Evaluations(e, obj);
    BestFromIsFirstMax(l[0], l[1..]);
    assert [l[0]] + l[1..] == l;
  }

  /**
   * `run`, lines 226-261: finds the best counting node, scores it at the
   * sampling level `cg.level - alpha`, then climbs to the root. The result
   * is `PointScore`, the first maximal evaluation (`PointScoreIsFirstMax`).
   */
  method ScorePoint(e: Ensemble, obj: Point) returns (maxmdefnorm: real, radius: nat)
    requires Valid(e) && |obj| == |e.min|
    ensures Score(maxmdefnorm, radius) == PointScore(e, obj)
  {
    var qti, cg, v := BestCountingGrid(e, obj);
    var level: nat := cg.level - e.alpha;
    var res := CalculateMdefNorm(e, cg, level, qti);
    maxmdefnorm, radius := Ascend(e, cg, level, v, qti, res);
    EvaluationsStart(e, obj);
  }

  /**
   * `run`, lines 245-261: the `while (level > 0)` loop, which steps to the
   * parent counting node, re-selects the best counting node over the grids
   * at that level, scores it one sampling level higher, and replaces the
   * running maximum only when strictly exceeded.
   */
  method Ascend(e: Ensemble, cg0: Node, level0: nat, v: Point, qti: nat, start: Score) returns (maxmdefnorm: real, radius: nat)
    requires Valid(e) && WellFormed(cg0) && cg0.level == level0 + e.alpha
    ensures Score(maxmdefnorm, radius) == BestFrom(start, AscentRest(e, cg0, level0, v, qti))
  {
    var cg: Node, level: nat := cg0, level0;
    maxmdefnorm, radius := start.norm, start.level;
    while level > 0
      invariant WellFormed(cg) && cg.level == level + e.alpha
      invariant BestFrom(Score(maxmdefnorm, radius), AscentRest(e, cg, level, v, qti))
                == BestFrom(start, AscentRest(e, cg0, level0, v, qti))
    {
      AscentStep(e, cg, level, v, qti, Score(maxmdefnorm, radius));
      level := level - 1;
      cg := GetBestCountingNode(e, cg.parent.value, v, qti);
      var res := CalculateMdefNorm(e, cg, level, qti);
      if maxmdefnorm < res.norm {
        maxmdefnorm, radius := res.norm, res.level;
      }
    }
  }

  /** The evaluations start at the initial counting node and its sampling level. */
  lemma EvaluationsStart(e: Ensemble, obj: Point)
    requires Valid(e) && |obj| == |e.min|
    ensures var qti := InitialGrid(e, obj);
            var v := GridPoint(e, obj, qti);
            var cg := e.countingGrid(qti, v);
            var level: nat := cg.level - e.alpha;
            PointScore(e, obj) == BestFrom(CalculateMdefNorm(e, cg, level, qti), AscentRest(e, cg, level, v, qti))
  {
  }

  /** One iteration of the ascent, as seen by the running maximum. */
  lemma AscentStep(e: Ensemble, cg: Node, level: nat, v: Point, qti: nat, acc: Score)
    requires Valid(e) && WellFormed(cg) && cg.level == level + e.alpha && level > 0
    ensures var next := BestCountingNode(e, cg.parent.value, v, qti);
            var r := CalculateMdefNorm(e, next, level - 1, qti);
            BestFrom(acc, AscentRest(e, cg, level, v, qti))
            == BestFrom(if acc.norm < r.norm then r else acc, AscentRest(e, next, level - 1, v, qti))
  {
    var next := BestCountingNode(e, cg.parent.value, v, qti);
    var r := CalculateMdefNorm(e, next, level - 1, qti);
    var rest := AscentRest(e, cg, level, v, qti);
    assert rest == [r] + AscentRest(e, next, level - 1, v, qti);
    assert rest[1..] == AscentRest(e, next, level - 1, v, qti);
  }

  // ---------------------------------------------------------------------
  // The score range (`DoubleMinMax`, lines 218, 264, 274)

  /** The running minimum and maximum of the scores seen, `Empty` before the first. */
  datatype MinMax = Empty | Range(lo: real, hi: real)

  /** `DoubleMinMax.put`. */
  function Put(m: MinMax, x: real): MinMax
  {
    match m
    case Empty => Range(x, x)
    case Range(lo, hi) => Range(if x < lo then x else lo, if x > hi then x else hi)
  }

  /** The range after putting the scores of `s` in order. */
  function RangeOf(s: seq<real>): MinMax
  {
    if s == [] then Empty else Put(RangeOf(s[..|s| - 1]), s[|s| - 1])
  }

  lemma RangeOfAppend(s: seq<real>, x: real)
    ensures RangeOf(s + [x]) == Put(RangeOf(s), x)
  {
    assert (s + [x])[..|s|] == s;
  }

  /** The range is empty exactly for no scores, and otherwise its bounds are the least and largest score. */
  lemma {:induction false} RangeOfIsMinMax(s: seq<real>)
    ensures RangeOf(s).Empty? <==> s == []
    ensures s != [] ==> (forall k :: 0 <= k < |s| ==> RangeOf(s).lo <= s[k] <= RangeOf(s).hi)
    ensures s != [] ==> (exists k :: 0 <= k < |s| && s[k] == RangeOf(s).lo)
    ensures s != [] ==> (exists k :: 0 <= k < |s| && s[k] == RangeOf(s).hi)
  {
    if s != [] {
      var init := s[..|s| - 1];
      var x := s[|s| - 1];
      RangeOfIsMinMax(init);
      var r := RangeOf(s);
      if init == [] {
        assert s[0] == x;
      } else {
        var kl :| 0 <= kl < |init| && init[kl] == RangeOf(init).lo;
        var kh :| 0 <= kh < |init| && init[kh] == RangeOf(init).hi;
        assert s[kl] == init[kl] && s[kh] == init[kh];
        forall k | 0 <= k < |s| ensures r.lo <= s[k] <= r.hi {
          if k < |init| {
            assert s[k] == init[k];
          }
        }
        if r.lo == x {
          assert s[|s| - 1] == r.lo;
        }
        if r.hi == x {
          assert s[|s| - 1] == r.hi;
        }
      }
    }
  }

  /**
   * `run`, lines 220-268: scores every point, stores its score and level
   * and folds the score into the range.
   */
  method ScoreAll(e: Ensemble, points: seq<Point>) returns (norms: seq<real>, levels: seq<nat>, minmax: MinMax)
    requires Valid(e) && forall k :: 0 <= k < |points| ==> |points[k]| == |e.min|
    ensures |norms| == |points| && |levels| == |points|
    ensures forall k :: 0 <= k < |points| ==> Score(norms[k], levels[k]) == PointScore(e, points[k])
    ensures minmax == RangeOf(norms)
  {
    norms, levels, minmax := [], [], Empty;
    for n := 0 to |points|
      invariant |norms| == n && |levels| == n
      invariant forall k {:trigger points[k]} :: 0 <= k < n ==> Score(norms[k], levels[k]) == PointScore(e, points[k])
      invariant minmax == RangeOf(norms)
    {
      var maxmdefnorm, radius := ScorePoint(e, points[n]);
      RangeOfAppend(norms, maxmdefnorm);
      norms, levels := norms + [maxmdefnorm], levels + [radius];
      minmax := Put(minmax, maxmdefnorm);
    }
  }
}
