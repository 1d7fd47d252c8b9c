/**
 * The normalised MDEF statistic of `calculate_MDEF_norm`, once the best
 * sampling node `sn` and its box-count moments are known.
 */
module Mdef {
  import opened QuadTree

  const MinLong: int := -0x8000_0000_0000_0000
  const LongRange: int := 0x1_0000_0000_0000_0000

  /** Java `long`. */
  type Long = x: int | -0x8000_0000_0000_0000 <= x < 0x8000_0000_0000_0000

  /** Two's-complement wrap-around of a Java `long` operation. */
  function Wrap64(x: int): (r: Long)
    ensures MinLong <= x < MinLong + LongRange ==> r == x
    ensures (r - x) % LongRange == 0
  {
    (x - MinLong) % LongRange + MinLong
  }

  /** 2^1022. */
  const TwoTo1022: int := 0x4000_0000_0000_0000_0000_0000_0000_0000_0000_0000_0000_0000_0000_0000_0000_0000_0000_0000_0000_0000_0000_0000_0000_0000_0000_0000_0000_0000_0000_0000_0000_0000_0000_0000_0000_0000_0000_0000_0000_0000_0000_0000_0000_0000_0000_0000_0000_0000_0000_0000_0000_0000_0000_0000_0000_0000_0000_0000_0000_0000_0000_0000_0000_0000

  /** `Double.MIN_NORMAL`, the smallest positive normal double: 2^-1022. */
  const MinNormal: real := 1.0 / (TwoTo1022 as real)

  lemma MinNormalIsPositive()
    ensures MinNormal > 0.0
  {
  }

  /** A normalised MDEF value together with the level of its sampling neighbourhood. */
  datatype Score = Score(norm: real, level: nat)

  /** `n_hat`: the expected count, square sum over bucket count. */
  function NHat(sq: Long, bucket: nat): real
    requires bucket >= 1
  {
    sq as real / bucket as real
  }

  /** The `long` expression under the square root: `cb * bucket - sq * sq`, each step wrapping. */
  function VarianceNumerator(sq: Long, cb: Long, bucket: nat): Long
  {
    Wrap64(Wrap64(cb * bucket) - Wrap64(sq * sq))
  }

  /** `sig_n_hat`, with `Math.sqrt` an uninterpreted function. */
  function SigmaHat(sq: Long, cb: Long, bucket: nat, sqrt: real -> real): real
    requires bucket >= 1
  {
    sqrt(VarianceNumerator(sq, cb, bucket) as real) / bucket as real
  }

  /** Neither degenerate case applies: the statistic is computed. */
  predicate Nondegenerate(sq: Long, cb: Long, bucket: nat, sqrt: real -> real)
    requires bucket >= 1
  {
    sq != bucket && SigmaHat(sq, cb, bucket, sqrt) >= MinNormal
  }

  /**
   * `calculate_MDEF_norm` after the sampling node is found. Two degenerate
   * cases give 0: a square sum equal to the bucket count, and a deviation
   * below `Double.MIN_NORMAL`. Every path reports the sampling node's level.
   */
  function MdefNorm(sn: Node, cgCount: nat, sq: Long, cb: Long, sqrt: real -> real): (r: Score)
    requires sn.bucketCount >= 1
    ensures r.level == sn.level
    ensures sq == sn.bucketCount ==> r.norm == 0.0
    ensures !Nondegenerate(sq, cb, sn.bucketCount, sqrt) ==> r.norm == 0.0
  {
    if sq == sn.bucketCount then Score(0.0, sn.level)
    else
      var nHat := NHat(sq, sn.bucketCount);
      var sig := SigmaHat(sq, cb, sn.bucketCount, sqrt);
      if sig < MinNormal then Score(0.0, sn.level)
      else
        MinNormalIsPositive();
        Score((nHat - cgCount as real) / sig, sn.level)
  }

  /**
   * The sign of the score says whether the point's counting neighbourhood
   * holds fewer points than the sampling neighbourhood leads one to expect
   * (positive: sparser, an outlier signal) or more (negative).
   */
  lemma MdefNormSign(sn: Node, cgCount: nat, sq: Long, cb: Long, sqrt: real -> real)
    requires sn.bucketCount >= 1
    ensures var r := MdefNorm(sn, cgCount, sq, cb, sqrt);
            && (r.norm > 0.0 <==> Nondegenerate(sq, cb, sn.bucketCount, sqrt) && NHat(sq, sn.bucketCount) > cgCount as real)
            && (r.norm < 0.0 <==> Nondegenerate(sq, cb, sn.bucketCount, sqrt) && NHat(sq, sn.bucketCount) < cgCount as real)
  {
    if Nondegenerate(sq, cb, sn.bucketCount, sqrt) {
      MinNormalIsPositive();
      var x := NHat(sq, sn.bucketCount) - cgCount as real;
      var sig := SigmaHat(sq, cb, sn.bucketCount, sqrt);
      QuotientSign(x, sig);
    }
  }

  lemma QuotientSign(x: real, y: real)
    requires y > 0.0
    ensures x / y > 0.0 <==> x > 0.0
    ensures x / y < 0.0 <==> x < 0.0
  {
    assert (x / y) * y == x;
  }

  /** Without overflow the numerator is the exact `cb * bucket - sq * sq`. */
  lemma VarianceNumeratorExact(sq: Long, cb: Long, bucket: nat)
    requires MinLong <= cb * bucket < MinLong + LongRange
    requires MinLong <= sq * sq < MinLong + LongRange
    requires MinLong <= cb * bucket - sq * sq < MinLong + LongRange
    ensures VarianceNumerator(sq, cb, bucket) == cb * bucket - sq * sq
  {
  }
}
