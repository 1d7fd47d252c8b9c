/**
 * Shift vectors of the grids and the toroidal shift of a point
 * (`ALOCI.run` lines 168-188 and `ALOCI.shiftObject`).
 */
module GridShift {
  import opened Wrappers
  import BoundingBox

  /** The zero vector of dimension `n` (a fresh Java `double[n]`). */
  function Zeros(n: nat): (z: seq<real>)
    ensures |z| == n
  {
    seq(n, _ => 0.0)
  }

  /** Per-shift random draws: `draws[s]` holds the values `nextDouble()` returned for shift vector `s + 1`. */
  ghost predicate EnoughDraws(g: int, dim: nat, draws: seq<seq<real>>)
  {
    (g > 1 ==> |draws| >= g - 1) && forall s :: 0 <= s < |draws| ==> |draws[s]| >= dim
  }

  /** Every draw lies in `[0, 1)`, as `Random.nextDouble` promises. */
  ghost predicate UnitDraw(draw: seq<real>)
  {
    forall i :: 0 <= i < |draw| ==> 0.0 <= draw[i] < 1.0
  }

  ghost predicate UnitDraws(draws: seq<seq<real>>)
  {
    forall s :: 0 <= s < |draws| ==> UnitDraw(draws[s])
  }

  /** Number of grids built for a non-negative `g`: grid 0 always exists. */
  function GridCount(g: nat): (n: nat)
    ensures n >= 1 && (g >= 1 ==> n == g)
  {
    if g >= 1 then g else 1
  }

  /** Shift vector `s + 1`: draw times the side of each dimension. */
  function DrawnShift(min: seq<real>, max: seq<real>, draw: seq<real>): (v: seq<real>)
    requires |min| == |max| && |draw| >= |min|
    ensures |v| == |min|
  {
    seq(|min|, i requires 0 <= i < |min| => draw[i] * (max[i] - min[i]))
  }

  /** Shift vector `s`: zero for grid 0, drawn for the others. */
  function ShiftVector(min: seq<real>, max: seq<real>, draws: seq<seq<real>>, s: nat): (v: seq<real>)
    requires |min| == |max| && (s > 0 ==> s - 1 < |draws| && |draws[s - 1]| >= |min|)
    ensures |v| == |min|
  {
    if s == 0 then Zeros(|min|) else DrawnShift(min, max, draws[s - 1])
  }

  /**
   * The list `shifts`: the zero vector followed by `g - 1` drawn vectors,
   * or `None` for a negative `g`, for which `new ArrayList(g)` at line 168
   * throws `IllegalArgumentException` before any shift exists.
   */
  function ShiftVectors(g: int, min: seq<real>, max: seq<real>, draws: seq<seq<real>>): (r: Option<seq<seq<real>>>)
    requires |min| == |max| && EnoughDraws(g, |min|, draws)
  {
    if g < 0 then None
    else Some(seq(GridCount(g), s requires 0 <= s < GridCount(g) => ShiftVector(min, max, draws, s)))
  }

  /**
   * With draws in `[0, 1)` every component of shift vector `s` lies in
   * `[0, side)` (or is 0 where the side is 0); vector 0 is all zeros.
   */
  lemma ShiftVectorInRange(min: seq<real>, max: seq<real>, draws: seq<seq<real>>, s: nat)
    requires |min| == |max| && (s > 0 ==> s - 1 < |draws| && |draws[s - 1]| >= |min|)
    requires s > 0 ==> UnitDraw(draws[s - 1])
    requires forall i :: 0 <= i < |min| ==> min[i] <= max[i]
    ensures s == 0 ==> ShiftVector(min, max, draws, s) == Zeros(|min|)
    ensures forall i :: 0 <= i < |min| ==> InShiftRange(ShiftVector(min, max, draws, s)[i], max[i] - min[i])
  {
    var v := ShiftVector(min, max, draws, s);
    forall i | 0 <= i < |min| ensures InShiftRange(v[i], max[i] - min[i]) {
      if s > 0 {
        var d := draws[s - 1];
        assert v[i] == d[i] * (max[i] - min[i]);
        ScaledInRange(v[i], d[i], max[i] - min[i]);
      } else {
        assert v[i] == 0.0;
      }
    }
  }

  lemma ScaledInRange(x: real, d: real, side: real)
    requires 0.0 <= d < 1.0 && 0.0 <= side && x == d * side
    ensures InShiftRange(x, side)
  {
    DrawTimesSideInRange(d, side);
  }

  /**
   * A negative `g` builds no shifts (the list constructor throws). Otherwise
   * there is one shift vector per grid, at least one, vector 0 is all zeros,
   * and with draws in `[0, 1)` every component of the others lies in `[0, side)`.
   */
  lemma ShiftVectorsInRange(g: int, min: seq<real>, max: seq<real>, draws: seq<seq<real>>)
    requires |min| == |max| && EnoughDraws(g, |min|, draws)
    requires UnitDraws(draws)
    requires forall i :: 0 <= i < |min| ==> min[i] <= max[i]
    ensures ShiftVectors(g, min, max, draws).None? <==> g < 0
    ensures g >= 0 ==>
            var r := ShiftVectors(g, min, max, draws).value;
            && |r| == GridCount(g)
            && r[0] == Zeros(|min|)
            && (forall s :: 0 <= s < |r| ==> |r[s]| == |min|)
            && (forall s, i :: 0 <= s < |r| && 0 <= i < |r[s]| ==> InShiftRange(r[s][i], max[i] - min[i]))
  {
    if g < 0 {
      return;
    }
    var r := ShiftVectors(g, min, max, draws).value;
    forall s | 0 <= s < |r|
      ensures |r[s]| == |min|
      ensures forall i :: 0 <= i < |r[s]| ==> InShiftRange(r[s][i], max[i] - min[i])
    {
      assert s > 0 ==> |draws[s - 1]| >= |min|;
      ShiftVectorInRange(min, max, draws, s);
    }
    ShiftVectorInRange(min, max, draws, 0);
  }

  /** A draw in `[0, 1)` times a side `side >= 0` is a valid shift component. */
  lemma DrawTimesSideInRange(d: real, side: real)
    requires 0.0 <= d < 1.0 && 0.0 <= side
    ensures InShiftRange(d * side, side)
  {
    if side > 0.0 {
      assert d * side < 1.0 * side;
    }
  }

  /** A shift component lies in `[0, side)`, or is 0 on a side of length 0. */
  predicate InShiftRange(x: real, side: real)
  {
    0.0 <= x && (x < side || (x == 0.0 && side == 0.0))
  }

  /**
   * `run`, lines 168-188: appends the zero shift for grid 0 and then, for
   * each of the other `g - 1` grids, a vector filled dimension by dimension
   * from the draws. A negative `g` fails at the list's construction (`None`).
   */
  method MakeShifts(g: int, min: seq<real>, max: seq<real>, draws: seq<seq<real>>)
    returns (result: Option<seq<seq<real>>>)
    requires |min| == |max| && EnoughDraws(g, |min|, draws)
    ensures result == ShiftVectors(g, min, max, draws)
  {
    if g < 0 {
      return None;
    }
    var dim := |min|;
    var shifts := [Zeros(dim)];
    var shift := 0;
    while shift < g - 1
      invariant 0 <= shift <= GridCount(g) - 1
      invariant GridCount(g) - 1 <= |draws|
      invariant |shifts| == shift + 1 && shifts[0] == Zeros(dim)
      invariant forall s :: 0 <= s < |shifts| ==> shifts[s] == ShiftVector(min, max, draws, s)
    {
      var svec := new real[dim];
      for i := 0 to dim
        invariant forall k :: 0 <= k < i ==> svec[k] == draws[shift][k] * (max[k] - min[k])
      {
        svec[i] := draws[shift][i] * (max[i] - min[i]);
      }
      assert forall k :: 0 <= k < dim ==> svec[..][k] == DrawnShift(min, max, draws[shift])[k];
      shifts := shifts + [svec[..]];
      shift := shift + 1;
    }
    assert shift == GridCount(g) - 1;
    assert forall s :: 0 <= s < |shifts| ==> shifts[s] == ShiftVector(min, max, draws, s);
    assert shifts == ShiftVectors(g, min, max, draws).value;
    result := Some(shifts);
  }

  /** One coordinate after the shift: added, then wrapped back by one side if past `max`. */
  function WrapAdd(x: real, s: real, min: real, max: real): real
  {
    if s + x > max then s + x - (max - min) else s + x
  }

  /** The point `o` shifted by `nshift` inside the box `[min, max]`. */
  function Shifted(o: seq<real>, nshift: seq<real>, min: seq<real>, max: seq<real>): (v: seq<real>)
    requires |o| >= |nshift| && |min| >= |nshift| && |max| >= |nshift|
    ensures |v| == |nshift|
  {
    seq(|nshift|, i requires 0 <= i < |nshift| => WrapAdd(o[i], nshift[i], min[i], max[i]))
  }

  /**
   * `shiftObject`: writes the shifted coordinates into a fresh array,
   * one dimension at a time.
   */
  method ShiftObject(o: seq<real>, nshift: seq<real>, min: seq<real>, max: seq<real>)
    returns (v: seq<real>)
    requires |o| >= |nshift| && |min| >= |nshift| && |max| >= |nshift|
    ensures v == Shifted(o, nshift, min, max)
  {
    var a := new real[|nshift|];
    for i := 0 to a.Length
      invariant forall k :: 0 <= k < i ==> a[k] == WrapAdd(o[k], nshift[k], min[k], max[k])
    {
      a[i] := nshift[i] + o[i];
      if a[i] > max[i] {
        a[i] := a[i] - (max[i] - min[i]);
      }
    }
    v := a[..];
  }

  /** A point of the box `[min, max]` (within the first `|min|` coordinates). */
  ghost predicate InBox(o: seq<real>, min: seq<real>, max: seq<real>)
  {
    |min| == |max| && |o| >= |min| && forall i :: 0 <= i < |min| ==> min[i] <= o[i] <= max[i]
  }

  /** The zero shift (grid 0) leaves a point of the box unchanged. */
  lemma ZeroShiftIsIdentity(o: seq<real>, min: seq<real>, max: seq<real>)
    requires |o| == |min| == |max|
    requires forall i :: 0 <= i < |o| ==> o[i] <= max[i]
    ensures Shifted(o, Zeros(|o|), min, max) == o
  {
    var v := Shifted(o, Zeros(|o|), min, max);
    forall i | 0 <= i < |o| ensures v[i] == o[i] {
      assert v[i] == WrapAdd(o[i], 0.0, min[i], max[i]);
    }
  }

  /**
   * A point of the box shifted by components in `[0, side)` stays in the
   * box, and each coordinate is moved by the shift minus at most one side.
   */
  lemma ShiftStaysInBox(o: seq<real>, nshift: seq<real>, min: seq<real>, max: seq<real>)
    requires |nshift| == |min| && InBox(o, min, max)
    requires forall i :: 0 <= i < |nshift| ==> InShiftRange(nshift[i], max[i] - min[i])
    ensures InBox(Shifted(o, nshift, min, max), min, max)
    ensures forall i :: 0 <= i < |nshift| ==>
              Shifted(o, nshift, min, max)[i] == o[i] + nshift[i]
              || Shifted(o, nshift, min, max)[i] == o[i] + nshift[i] - (max[i] - min[i])
  {
    var v := Shifted(o, nshift, min, max);
    forall i | 0 <= i < |nshift|
      ensures min[i] <= v[i] <= max[i]
      ensures v[i] == o[i] + nshift[i] || v[i] == o[i] + nshift[i] - (max[i] - min[i])
    {
      assert v[i] == WrapAdd(o[i], nshift[i], min[i], max[i]);
    }
  }

  /**
   * Every point of the original data box, shifted for any grid, lies in the
   * enlarged box: the box all trees share.
   */
  lemma InsertedPointInBox(lo: seq<real>, hi: seq<real>, g: int, draws: seq<seq<real>>,
                           o: seq<real>, s: nat)
    requires |lo| == |hi| && EnoughDraws(g, |lo|, draws) && UnitDraws(draws)
    requires InBox(o, lo, hi) && g >= 0 && s < GridCount(g)
    ensures var min, max := BoundingBox.EnlargedMin(lo, hi), BoundingBox.EnlargedMax(lo, hi);
            InBox(Shifted(o, ShiftVectors(g, min, max, draws).value[s], min, max), min, max)
  {
    var min, max := BoundingBox.EnlargedMin(lo, hi), BoundingBox.EnlargedMax(lo, hi);
    BoundingBox.EnlargedIsCenteredHypercube(lo, hi);
    ShiftVectorsInRange(g, min, max, draws);
    ShiftStaysInBox(o, ShiftVectors(g, min, max, draws).value[s], min, max);
  }
}
