/**
 * The bounding box of the data set, enlarged to a hypercube
 * (`ALOCI.run`, the block that computes `min`, `max` and `maxd`).
 */
module BoundingBox {

  /** Extent of dimension `i` of the box `[lo, hi]`. */
  function Extent(lo: seq<real>, hi: seq<real>, i: nat): real
    requires i < |lo| && i < |hi|
  {
    hi[i] - lo[i]
  }

  /**
   * The running value of `maxd` after the first `n` dimensions: it starts
   * at 0 and takes the larger of itself and each extent.
   */
  function MaxExtentUpTo(lo: seq<real>, hi: seq<real>, n: nat): real
    requires n <= |lo| && n <= |hi|
  {
    if n == 0 then 0.0
    else
      var m := MaxExtentUpTo(lo, hi, n - 1);
      var x := Extent(lo, hi, n - 1);
      if m >= x then m else x
  }

  /** `maxd`: the largest extent over all dimensions (0 when there is none larger). */
  function MaxExtent(lo: seq<real>, hi: seq<real>): real
    requires |lo| == |hi|
  {
    MaxExtentUpTo(lo, hi, |lo|)
  }

  /** `maxd` is non-negative, bounds every extent, and is 0 or one of the extents. */
  lemma {:induction false} MaxExtentUpToIsMax(lo: seq<real>, hi: seq<real>, n: nat)
    requires n <= |lo| && n <= |hi|
    ensures MaxExtentUpTo(lo, hi, n) >= 0.0
    ensures forall i :: 0 <= i < n ==> Extent(lo, hi, i) <= MaxExtentUpTo(lo, hi, n)
    ensures MaxExtentUpTo(lo, hi, n) == 0.0
            || exists i :: 0 <= i < n && Extent(lo, hi, i) == MaxExtentUpTo(lo, hi, n)
  {
    if n > 0 {
      MaxExtentUpToIsMax(lo, hi, n - 1);
    }
  }

  lemma MaxExtentIsMax(lo: seq<real>, hi: seq<real>)
    requires |lo| == |hi|
    ensures MaxExtent(lo, hi) >= 0.0
    ensures forall i :: 0 <= i < |lo| ==> Extent(lo, hi, i) <= MaxExtent(lo, hi)
    ensures MaxExtent(lo, hi) == 0.0
            || exists i :: 0 <= i < |lo| && Extent(lo, hi, i) == MaxExtent(lo, hi)
  {
    MaxExtentUpToIsMax(lo, hi, |lo|);
  }

  /** Half of the amount dimension `i` falls short of `maxd` (`diff` in the source). */
  function Deficit(lo: seq<real>, hi: seq<real>, i: nat): real
    requires |lo| == |hi| && i < |lo|
  {
    (MaxExtent(lo, hi) - Extent(lo, hi, i)) / 2.0
  }

  /** The enlarged lower corner: each bound moves down by its deficit. */
  function EnlargedMin(lo: seq<real>, hi: seq<real>): (min: seq<real>)
    requires |lo| == |hi|
    ensures |min| == |lo|
  {
    seq(|lo|, i requires 0 <= i < |lo| => lo[i] - Deficit(lo, hi, i))
  }

  /** The enlarged upper corner: each bound moves up by its deficit. */
  function EnlargedMax(lo: seq<real>, hi: seq<real>): (max: seq<real>)
    requires |lo| == |hi|
    ensures |max| == |hi|
  {
    seq(|hi|, i requires 0 <= i < |hi| => hi[i] + Deficit(lo, hi, i))
  }

  /** The enlarged box is a hypercube of side `maxd`. */
  ghost predicate IsHypercube(min: seq<real>, max: seq<real>, side: real)
  {
    |min| == |max| && forall i :: 0 <= i < |min| ==> max[i] - min[i] == side
  }

  /**
   * The enlarged box is a hypercube whose side is the largest original
   * extent; it contains the original box and keeps each midpoint, because
   * both bounds of a dimension move by the same non-negative amount.
   */
  lemma EnlargedIsCenteredHypercube(lo: seq<real>, hi: seq<real>)
    requires |lo| == |hi|
    ensures IsHypercube(EnlargedMin(lo, hi), EnlargedMax(lo, hi), MaxExtent(lo, hi))
    ensures MaxExtent(lo, hi) >= 0.0
    ensures forall i :: 0 <= i < |lo| ==>
              EnlargedMin(lo, hi)[i] <= lo[i] && hi[i] <= EnlargedMax(lo, hi)[i]
    ensures forall i :: 0 <= i < |lo| ==>
              lo[i] - EnlargedMin(lo, hi)[i] == EnlargedMax(lo, hi)[i] - hi[i]
  {
    MaxExtentIsMax(lo, hi);
  }

  /**
   * `run`, lines 149-166: copies the extrema `lo`/`hi` into the arrays
   * `min`/`max` while computing `maxd`, then widens every dimension
   * symmetrically to side `maxd`.
   */
  method ComputeBox(lo: seq<real>, hi: seq<real>) returns (min: seq<real>, max: seq<real>)
    requires |lo| == |hi|
    ensures min == EnlargedMin(lo, hi) && max == EnlargedMax(lo, hi)
    ensures IsHypercube(min, max, MaxExtent(lo, hi))
    ensures forall i :: 0 <= i < |lo| ==> min[i] <= lo[i] && hi[i] <= max[i]
    ensures forall i :: 0 <= i < |lo| ==> lo[i] - min[i] == max[i] - hi[i]
  {
    var dim := |lo|;
    var amin := new real[dim];
    var amax := new real[dim];
    var maxd := 0.0;
    for i := 0 to dim
      invariant forall k :: 0 <= k < i ==> amin[k] == lo[k] && amax[k] == hi[k]
      invariant maxd == MaxExtentUpTo(lo, hi, i)
    {
      amin[i] := lo[i];
      amax[i] := hi[i];
      maxd := if maxd >= amax[i] - amin[i] then maxd else amax[i] - amin[i];
    }
    for i := 0 to dim
      invariant forall k :: 0 <= k < i ==>
                  amin[k] == EnlargedMin(lo, hi)[k] && amax[k] == EnlargedMax(lo, hi)[k]
      invariant forall k :: i <= k < dim ==> amin[k] == lo[k] && amax[k] == hi[k]
    {
      var diff := (maxd - (amax[i] - amin[i])) / 2.0;
      amin[i] := amin[i] - diff;
      amax[i] := amax[i] + diff;
    }
    min, max := amin[..], amax[..];
    EnlargedIsCenteredHypercube(lo, hi);
  }
}
