/**
 * The arg-min pattern shared by `getBestSamplingNode` and
 * `getBestCountingNode`: starting from a base node, walk the grids in order
 * and replace the current node by a grid's answer when that answer's centre
 * is strictly closer to `center`.
 */
module NodeSearch {
  import opened Wrappers
  import opened QuadTree

  /** The distance function (`distFunc`, Euclidean by default), left abstract. */
  type Distance = (Point, Point) -> real

  /** One iteration: a present candidate strictly closer than `cur` replaces it. */
  function Step(dist: Distance, center: Point, cur: Node, cand: Option<Node>): Node
  {
    if cand.Some? && dist(center, cur.center) > dist(center, cand.value.center) then cand.value else cur
  }

  /** The node the loop holds after visiting all candidates, in order. */
  function Nearest(dist: Distance, center: Point, cur: Node, cands: seq<Option<Node>>): Node
    decreases |cands|
  {
    if cands == [] then cur else Nearest(dist, center, Step(dist, center, cur, cands[0]), cands[1..])
  }

  /**
   * `r` is the nearest of `start` and the present candidates, and ties go
   * to the earliest: either `r` is `start` and no candidate is closer, or
   * `r` is candidate `j`, strictly closer than `start` and every earlier
   * candidate.
   */
  ghost predicate IsFirstNearest(dist: Distance, center: Point, start: Node, cands: seq<Option<Node>>, r: Node)
  {
    && dist(center, r.center) <= dist(center, start.center)
    && (forall i :: 0 <= i < |cands| && cands[i].Some? ==>
          dist(center, r.center) <= dist(center, cands[i].value.center))
    && (r == start
        || exists j :: 0 <= j < |cands| && cands[j] == Some(r)
                       && dist(center, start.center) > dist(center, r.center)
                       && forall i :: 0 <= i < j && cands[i].Some? ==>
                            dist(center, cands[i].value.center) > dist(center, r.center))
  }

  /** The loop's answer is the first nearest node. */
  lemma {:induction false} NearestIsFirstNearest(dist: Distance, center: Point, start: Node, cands: seq<Option<Node>>)
    ensures IsFirstNearest(dist, center, start, cands, Nearest(dist, center, start, cands))
    decreases |cands|
  {
    if cands != [] {
      var s1 := Step(dist, center, start, cands[0]);
      var tail := cands[1..];
      var r := Nearest(dist, center, start, cands);
      assert r == Nearest(dist, center, s1, tail);
      NearestIsFirstNearest(dist, center, s1, tail);
      var d := dist(center, r.center);
      forall i | 0 <= i < |cands| && cands[i].Some?
        ensures d <= dist(center, cands[i].value.center)
      {
        if i > 0 {
          assert tail[i - 1] == cands[i];
        }
      }
      if r != start {
        if r == s1 {
          assert cands[0] == Some(r);
        } else {
          var j :| 0 <= j < |tail| && tail[j] == Some(r)
                   && dist(center, s1.center) > d
                   && forall i :: 0 <= i < j && tail[i].Some? ==> dist(center, tail[i].value.center) > d;
          assert cands[j + 1] == Some(r);
          forall i | 0 <= i < j + 1 && cands[i].Some?
            ensures dist(center, cands[i].value.center) > d
          {
            if i > 0 {
              assert tail[i - 1] == cands[i];
            }
          }
        }
      }
    }
  }

  /** The first nearest node is unique: it is a reference definition of the loop's answer. */
  lemma FirstNearestIsUnique(dist: Distance, center: Point, start: Node, cands: seq<Option<Node>>, r1: Node, r2: Node)
    requires IsFirstNearest(dist, center, start, cands, r1)
    requires IsFirstNearest(dist, center, start, cands, r2)
    ensures r1 == r2
  {
    if r1 != start && r2 != start {
      var j1 :| 0 <= j1 < |cands| && cands[j1] == Some(r1)
                && dist(center, start.center) > dist(center, r1.center)
                && forall i :: 0 <= i < j1 && cands[i].Some? ==> dist(center, cands[i].value.center) > dist(center, r1.center);
      var j2 :| 0 <= j2 < |cands| && cands[j2] == Some(r2)
                && dist(center, start.center) > dist(center, r2.center)
                && forall i :: 0 <= i < j2 && cands[i].Some? ==> dist(center, cands[i].value.center) > dist(center, r2.center);
      assert j1 == j2;
    }
  }

  /**
   * The answer is the base node or one of the present candidates, so any
   * property shared by all of them (a level, well-formedness) carries over.
   */
  lemma NearestIsStartOrCandidate(dist: Distance, center: Point, start: Node, cands: seq<Option<Node>>)
    ensures var r := Nearest(dist, center, start, cands);
            r == start || exists j :: 0 <= j < |cands| && cands[j] == Some(r)
  {
    NearestIsFirstNearest(dist, center, start, cands);
  }
}
