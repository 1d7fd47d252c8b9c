/**
 * The part of the quad-tree that the scorer sees: a node with its level,
 * centre, bucket count and parent link. The tree's own construction and
 * lookups are outside this model; the ensemble in module `Aloci` receives
 * the lookups as functions.
 */
module QuadTree {
  import opened Wrappers

  /** A point or centre: one real coordinate per dimension. */
  type Point = seq<real>

  /**
   * A node of one grid's tree. `grid` names the tree the node belongs to,
   * so that nodes of different trees stay distinct even where their other
   * fields agree (the roots of all trees, for one); `parent` carries the
   * whole chain of ancestors up to the root (the back-reference of the source).
   */
  datatype Node = Node(grid: nat, level: nat, center: Point, bucketCount: nat, parent: Option<Node>)

  /**
   * Levels count from the root (0) down; only the root lacks a parent, a
   * parent is exactly one level up in the same tree, and every node holds
   * at least one point.
   */
  ghost predicate WellFormed(n: Node)
  {
    && n.bucketCount >= 1
    && (n.level == 0 <==> n.parent.None?)
    && (n.parent.Some? ==>
          n.parent.value.grid == n.grid && n.parent.value.level + 1 == n.level && WellFormed(n.parent.value))
  }

  /** The ancestor of `n` at `level`, reached by following parent links. */
  function Ancestor(n: Node, level: nat): (a: Node)
    requires WellFormed(n) && level <= n.level
    ensures WellFormed(a) && a.level == level && a.grid == n.grid
    decreases n.level
  {
    if n.level == level then n else Ancestor(n.parent.value, level)
  }

  /** The ancestor of `n` at `level` is an ancestor of its ancestors in between. */
  lemma {:induction false} AncestorTransitive(n: Node, mid: nat, level: nat)
    requires WellFormed(n) && level <= mid <= n.level
    ensures Ancestor(Ancestor(n, mid), level) == Ancestor(n, level)
    decreases n.level
  {
    if n.level != mid {
      AncestorTransitive(n.parent.value, mid, level);
    }
  }
}
