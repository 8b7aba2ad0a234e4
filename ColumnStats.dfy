/** The equi-width histogram of one integer column and its selectivity
    estimator (src/db/ColumnStats.cpp). */
module ColumnStatistics {
  import opened Common

  /** 2^64: estimates are size_t values, and the composed operators add and
      subtract them modulo this. */
  const SIZE_MODULUS: nat := 0x1_0000_0000_0000_0000

  /** size_t addition. */
  function SizeAdd(a: nat, b: nat): (r: nat)
    ensures r < SIZE_MODULUS
    ensures a + b < SIZE_MODULUS ==> r == a + b
  {
    (a + b) % SIZE_MODULUS
  }

  /** size_t subtraction: a smaller minuend wraps around. */
  function SizeSub(a: nat, b: nat): (r: nat)
    ensures r < SIZE_MODULUS
    ensures b <= a < SIZE_MODULUS ==> r == a - b
    ensures a < b <= SIZE_MODULUS ==> r == SIZE_MODULUS + a - b
  {
    (a - b) % SIZE_MODULUS
  }

  function Min(a: int, b: int): int { if a <= b then a else b }

  /** C++ signed division, which truncates toward zero. */
  function TruncDiv(a: int, b: int): int
    requires b > 0
  {
    if a >= 0 then a / b else -((-a) / b)
  }

  /** The sum of the counters; the loop in the LT estimate adds them front to back. */
  function Sum(s: seq<nat>): nat
  {
    if s == [] then 0 else Sum(s[..|s| - 1]) + s[|s| - 1]
  }

  /** The state of a ColumnStats object. */
  datatype Stats = Stats(buckets: nat, min: int, max: int, bucketWidth: int,
                         histogram: seq<nat>, totalCount: nat)

  /** What the constructor establishes and addValue keeps. */
  predicate WellFormed(s: Stats)
  {
    s.buckets > 0 && s.min < s.max && |s.histogram| == s.buckets &&
    s.bucketWidth == (s.max - s.min + 1) / s.buckets &&
    Sum(s.histogram) == s.totalCount
  }

  /** A well-formed histogram whose width is not zero: only then does the
      estimator of a non-empty histogram not divide by zero. */
  predicate Queryable(s: Stats)
  {
    WellFormed(s) && s.bucketWidth > 0
  }

  /** What every object keeps: a histogram of width zero stays empty, since
      counting a value inside its domain would divide by zero. */
  predicate Estimable(s: Stats)
  {
    WellFormed(s) && (s.bucketWidth > 0 || s.totalCount == 0)
  }

  /** The bucket index before clamping; bucketStart is computed from it. */
  function RawIndex(s: Stats, v: int): int
    requires s.bucketWidth > 0
  {
    TruncDiv(v - s.min, s.bucketWidth)
  }

  /** The bucket index clamped into [0, buckets - 1]. */
  function BucketIndex(s: Stats, v: int): (b: nat)
    requires s.buckets > 0 && s.bucketWidth > 0
    ensures b < s.buckets
    ensures RawIndex(s, v) <= 0 ==> b == 0
    ensures 0 <= RawIndex(s, v) < s.buckets ==> b == RawIndex(s, v)
    ensures RawIndex(s, v) >= s.buckets ==> b == s.buckets - 1
  {
    var raw := RawIndex(s, v);
    if raw < 0 then 0 else if raw >= s.buckets then s.buckets - 1 else raw
  }

  /** min + rawIndex * bucketWidth. */
  function BucketStart(s: Stats, v: int): int
    requires s.bucketWidth > 0
  {
    s.min + RawIndex(s, v) * s.bucketWidth
  }

  /** v - bucketStart for a v at or above min: the position of v inside the
      width-sized slot its raw index names. */
  function Offset(s: Stats, v: int): (d: nat)
    requires s.bucketWidth > 0 && v >= s.min
    ensures d < s.bucketWidth
    ensures d == (v - s.min) % s.bucketWidth
  {
    var q := (v - s.min) / s.bucketWidth;
    assert v - s.min == q * s.bucketWidth + (v - s.min) % s.bucketWidth;
    v - BucketStart(s, v)
  }

  /** The EQ estimate of a non-empty histogram. */
  function EqEstimate(s: Stats, v: int): nat
    requires Queryable(s)
  {
    if v < s.min || v > s.max then 0
    else Share(s.histogram[BucketIndex(s, v)], s.bucketWidth)
  }

  /** A bucket's count spread evenly over its width, truncated. */
  function Share(count: nat, width: int): nat
    requires width > 0
  {
    count / width
  }

  /** The LT estimate of a non-empty histogram: the full buckets below the clamped
      index plus the interpolated fraction of that bucket, truncated. */
  function LtEstimate(s: Stats, v: int): nat
    requires Queryable(s)
  {
    if v < s.min then 0
    else if v >= s.max then s.totalCount
    else
      var b := BucketIndex(s, v);
      Sum(s.histogram[..b]) + Interpolate(s.histogram[b], Offset(s, v), s.bucketWidth)
  }

  /** The part of a bucket's count below an offset inside it, count * offset /
      width, truncated. */
  function Interpolate(count: nat, offset: nat, width: int): nat
    requires width > 0
  {
    var p := count * offset;
    assert p >= 0;
    p / width
  }

  /** LE, GT, GE and NE are composed from EQ and LT; this orders the recursion. */
  function OpRank(op: PredicateOp): nat
  {
    match op
    case EQ => 0
    case LT => 0
    case LE => 1
    case NE => 1
    case GT => 2
    case GE => 3
  }

  /** estimateCardinality(op, v) as a function of the histogram's state. */
  function Estimate(s: Stats, op: PredicateOp, v: int): nat
    requires Estimable(s)
    decreases OpRank(op)
  {
    if s.totalCount == 0 then 0
    else match op
      case EQ => EqEstimate(s, v)
      case LT => LtEstimate(s, v)
      case LE => SizeAdd(Estimate(s, LT, v), Estimate(s, EQ, v))
      case GT => SizeSub(s.totalCount, Estimate(s, LE, v))
      case GE => SizeAdd(Estimate(s, GT, v), Estimate(s, EQ, v))
      case NE => SizeSub(s.totalCount, Estimate(s, EQ, v))
  }

  class ColumnStats {
    const buckets: nat
    const min: int
    const max: int
    const bucketWidth: int
    var histogram: seq<nat>
    var totalCount: nat

    function Snapshot(): Stats
      reads this
    {
      Stats(buckets, min, max, bucketWidth, histogram, totalCount)
    }

    ghost predicate Valid()
      reads this
    {
      Estimable(Snapshot())
    }

    constructor (buckets: nat, min: int, max: int)
      requires buckets > 0 && min < max
      ensures Valid()
      ensures Snapshot() == Stats(buckets, min, max, (max - min + 1) / buckets, seq(buckets, _ => 0), 0)
    {
      this.buckets := buckets;
      this.min := min;
      this.max := max;
      this.bucketWidth := (max - min + 1) / buckets;
      this.histogram := seq(buckets, _ => 0);
      this.totalCount := 0;
      new;
      SumOfZeros(buckets);
    }

    /** The checked construction: invalid_argument exactly when min >= max or
        there are no buckets. */
    static method Create(buckets: nat, min: int, max: int) returns (r: Result<ColumnStats>)
      ensures r.Err? <==> min >= max || buckets == 0
      ensures r.Err? ==> r.error == InvalidArgument("Invalid histogram parameters.")
      ensures r.Ok? ==> fresh(r.value) && r.value.Valid()
      ensures r.Ok? ==>
        r.value.Snapshot() == Stats(buckets, min, max, (max - min + 1) / buckets, seq(buckets, _ => 0), 0)
    {
      if min >= max || buckets == 0 {
        return Err(InvalidArgument("Invalid histogram parameters."));
      }
      var c := new ColumnStats(buckets, min, max);
      return Ok(c);
    }

    /** Counts v in its bucket; a value outside [min, max] is dropped. */
    method AddValue(v: int)
      requires Valid() && (bucketWidth > 0 || v < min || v > max)
      modifies this
      ensures Valid()
      ensures v < min || v > max ==> histogram == old(histogram) && totalCount == old(totalCount)
      ensures min <= v <= max ==>
        var b := Min((v - min) / bucketWidth, buckets - 1);
        histogram == old(histogram)[b := old(histogram)[b] + 1] &&
        totalCount == old(totalCount) + 1
    {
      if v < min || v > max {
        return;
      }
      var bucketIndex := (v - min) / bucketWidth;
      DivNonNegative(v - min, bucketWidth);
      bucketIndex := Min(bucketIndex, buckets - 1);
      CountKeepsEstimable(Snapshot(), bucketIndex);
      histogram := histogram[bucketIndex := histogram[bucketIndex] + 1];
      totalCount := totalCount + 1;
    }

    /** The accumulator loop of LT: the counts of the buckets below an index. */
    method SumBelow(bucketIndex: nat) returns (cardinality: nat)
      requires bucketIndex <= |histogram|
      ensures cardinality == Sum(histogram[..bucketIndex])
    {
      cardinality := 0;
      var i := 0;
      while i < bucketIndex
        invariant 0 <= i <= bucketIndex
        invariant cardinality == Sum(histogram[..i])
      {
        assert histogram[..i + 1][..i] == histogram[..i];
        cardinality := cardinality + histogram[i];
        i := i + 1;
      }
    }

    /** estimateCardinality: LT sums the buckets below v with a loop, LE, GT, GE
        and NE call back into this method. */
    method EstimateCardinality(op: PredicateOp, v: int) returns (r: nat)
      requires Valid()
      ensures r == Estimate(Snapshot(), op, v)
      decreases OpRank(op)
    {
      if totalCount == 0 {
        return 0;
      }
      assert Queryable(Snapshot());
      var bucketIndex := TruncDiv(v - min, bucketWidth);
      var bucketStart := min + bucketIndex * bucketWidth;
      if bucketIndex < 0 {
        bucketIndex := 0;
      }
      if bucketIndex >= buckets {
        bucketIndex := buckets - 1;
      }
      match op {
        case EQ =>
          if v < min || v > max {
            return 0;
          }
          return Share(histogram[bucketIndex], bucketWidth);
        case LT =>
          if v < min {
            return 0;
          }
          if v >= max {
            return totalCount;
          }
          var cardinality := SumBelow(bucketIndex);
          var fraction: nat := v - bucketStart;
          assert fraction == Offset(Snapshot(), v);
          cardinality := cardinality + Interpolate(histogram[bucketIndex], fraction, bucketWidth);
          return cardinality;
        case LE =>
          var lt := EstimateCardinality(LT, v);
          var eq := EstimateCardinality(EQ, v);
          return SizeAdd(lt, eq);
        case GT =>
          var le := EstimateCardinality(LE, v);
          return SizeSub(totalCount, le);
        case GE =>
          var gt := EstimateCardinality(GT, v);
          var eq := EstimateCardinality(EQ, v);
          return SizeAdd(gt, eq);
        case NE =>
          var eq := EstimateCardinality(EQ, v);
          return SizeSub(totalCount, eq);
      }
    }
  }

  lemma {:induction false} SumOfZeros(n: nat)
    ensures Sum(seq(n, _ => 0)) == 0
  {
    if n > 0 {
      assert seq(n, _ => 0)[..n - 1] == seq(n - 1, _ => 0);
      SumOfZeros(n - 1);
    }
  }

  /** Incrementing one counter increments the sum by one. */
  lemma {:induction false} SumIncrement(s: seq<nat>, i: nat)
    requires i < |s|
    ensures Sum(s[i := s[i] + 1]) == Sum(s) + 1
  {
    var t := s[i := s[i] + 1];
    if i < |s| - 1 {
      assert t[..|t| - 1] == s[..|s| - 1][i := s[i] + 1];
      SumIncrement(s[..|s| - 1], i);
    } else {
      assert t[..|t| - 1] == s[..|s| - 1];
    }
  }

  /** A longer prefix of the counters sums to at least as much. */
  lemma {:induction false} SumPrefixMonotone(s: seq<nat>, i: nat, j: nat)
    requires i <= j <= |s|
    ensures Sum(s[..i]) <= Sum(s[..j]) <= Sum(s)
  {
    if j < |s| {
      SumPrefixMonotone(s[..|s| - 1], i, j);
      assert s[..|s| - 1][..i] == s[..i];
      assert s[..|s| - 1][..j] == s[..j];
    } else if i < j {
      assert s[..j] == s;
      SumPrefixMonotone(s[..|s| - 1], i, j - 1);
      assert s[..|s| - 1][..i] == s[..i];
      assert s[..|s| - 1][..j - 1] == s[..|s| - 1];
    } else {
      assert s[..j] == s;
    }
  }

  lemma SumStep(s: seq<nat>, i: nat)
    requires i < |s|
    ensures Sum(s[..i + 1]) == Sum(s[..i]) + s[i]
  {
    assert s[..i + 1][..i] == s[..i];
  }

  lemma SumElementBound(s: seq<nat>, i: nat)
    requires i < |s|
    ensures Sum(s[..i]) + s[i] <= Sum(s)
  {
    SumStep(s, i);
    SumPrefixMonotone(s, i + 1, |s|);
  }

  // ---- Arithmetic of truncated interpolation ----

  lemma MulMonotone(x: int, y: int, k: int)
    requires x <= y && k >= 0
    ensures x * k <= y * k
  {
  }

  lemma MulCancelLess(x: int, y: int, w: int)
    requires w > 0 && x * w < y * w
    ensures x < y
  {
    if x >= y {
      MulMonotone(y, x, w);
    }
  }

  lemma DivMonotone(a: nat, b: nat, w: int)
    requires a <= b && w > 0
    ensures a / w <= b / w
  {
    var qa, qb := a / w, b / w;
    assert qa * w <= a;
    assert b < (qb + 1) * w;
    MulCancelLess(qa, qb + 1, w);
  }

  lemma FloorAdd(x: nat, y: nat, w: int)
    requires w > 0
    ensures x / w + y / w <= (x + y) / w
  {
    var qx, qy := x / w, y / w;
    assert (qx + qy) * w <= x + y;
    assert x + y < ((x + y) / w + 1) * w;
    MulCancelLess(qx + qy, (x + y) / w + 1, w);
  }

  lemma MulDivCancel(x: nat, w: int)
    requires w > 0
    ensures (x * w) / w == x
  {
    var q := (x * w) / w;
    assert q * w <= x * w < (q + 1) * w;
    MulCancelLess(x, q + 1, w);
    assert q * w < (x + 1) * w;
    MulCancelLess(q, x + 1, w);
  }

  lemma DivNonNegative(x: nat, w: int)
    requires w > 0
    ensures x / w >= 0
  {
  }

  lemma ShareAtMost(count: nat, width: int)
    requires width > 0
    ensures count / width <= count
  {
    var q := count / width;
    assert q * width <= count;
    MulMonotone(1, width, q);
  }

  lemma InterpolateMonotone(count: nat, o1: nat, o2: nat, width: int)
    requires o1 <= o2 && width > 0
    ensures Interpolate(count, o1, width) <= Interpolate(count, o2, width)
  {
    MulMonotone(o1, o2, count);
    DivMonotone(count * o1, count * o2, width);
  }

  /** An offset strictly inside a bucket leaves room for the EQ share of the
      bucket: the interpolated part plus count / width never exceeds count. */
  lemma InterpolatePlusShare(count: nat, offset: nat, width: int)
    requires offset < width
    ensures Interpolate(count, offset, width) <= count
    ensures Interpolate(count, offset, width) + count / width <= count
  {
    var p := count * offset;
    BoundedProduct(count, offset, width);
    FloorAdd(p, count, width);
    DivMonotone(p, count * width, width);
    DivMonotone(p + count, count * width, width);
    MulDivCancel(count, width);
  }

  lemma BoundedProduct(count: nat, offset: nat, width: int)
    requires offset < width
    ensures count * offset + count <= count * width
  {
    MulMonotone(offset + 1, width, count);
    assert (offset + 1) * count == count * offset + count;
    assert width * count == count * width;
  }

  // ---- Construction and insertion ----

  /** Counting one value in a bucket of a histogram of positive width keeps
      the sum invariant. */
  lemma CountKeepsEstimable(s: Stats, b: nat)
    requires Estimable(s) && s.bucketWidth > 0 && b < s.buckets
    ensures Estimable(s.(histogram := s.histogram[b := s.histogram[b] + 1], totalCount := s.totalCount + 1))
  {
    SumIncrement(s.histogram, b);
  }

  /** The width the constructor computes is at least one exactly when there are
      no more buckets than domain values; otherwise it is 0 and the first
      addValue divides by zero. */
  lemma WidthPositiveIff(buckets: nat, min: int, max: int)
    requires buckets > 0 && min < max
    ensures (max - min + 1) / buckets >= 1 <==> buckets <= max - min + 1
  {
    var n := max - min + 1;
    if buckets <= n {
      DivMonotone(buckets, n, buckets);
    } else {
      assert n / buckets == 0;
    }
  }

  /** addValue counts v in the bucket that the EQ estimate of v reads. */
  lemma InsertionBucketIsQueryBucket(s: Stats, v: int)
    requires Queryable(s) && s.min <= v <= s.max
    ensures BucketIndex(s, v) == Min((v - s.min) / s.bucketWidth, s.buckets - 1)
  {
  }

  // ---- The estimates ----

  /** An empty histogram estimates 0 for every operator. */
  lemma EmptyHistogramEstimatesZero(s: Stats, op: PredicateOp, v: int)
    requires WellFormed(s) && s.totalCount == 0
    ensures Estimate(s, op, v) == 0
  {
  }

  /** EQ: 0 outside [min, max], otherwise the clamped bucket's count divided by
      the width, which is at most that count. */
  lemma EqEstimateSpec(s: Stats, v: int)
    requires Queryable(s)
    ensures v < s.min || v > s.max ==> Estimate(s, EQ, v) == 0
    ensures s.totalCount > 0 && s.min <= v <= s.max ==>
      Estimate(s, EQ, v) == s.histogram[BucketIndex(s, v)] / s.bucketWidth
    ensures Estimate(s, EQ, v) <= s.histogram[BucketIndex(s, v)] <= s.totalCount
  {
    var b := BucketIndex(s, v);
    SumElementBound(s.histogram, b);
    ShareAtMost(s.histogram[b], s.bucketWidth);
  }

  /** LT: 0 below min, the total at or above max, otherwise the full buckets
      below the clamped index plus the truncated fraction of that bucket; never
      more than the total. */
  lemma LtEstimateSpec(s: Stats, v: int)
    requires Queryable(s)
    ensures v < s.min ==> Estimate(s, LT, v) == 0
    ensures v >= s.max ==> Estimate(s, LT, v) == s.totalCount
    ensures s.totalCount > 0 && s.min <= v < s.max ==>
      var b := BucketIndex(s, v);
      Estimate(s, LT, v) == Sum(s.histogram[..b]) + Interpolate(s.histogram[b], v - BucketStart(s, v), s.bucketWidth)
    ensures Estimate(s, LT, v) <= s.totalCount
  {
    if s.totalCount > 0 && s.min <= v < s.max {
      var b := BucketIndex(s, v);
      InterpolatePlusShare(s.histogram[b], Offset(s, v), s.bucketWidth);
      SumElementBound(s.histogram, b);
    }
  }

  /** LT and EQ together never exceed the total except at v == max. */
  lemma LtPlusEqBound(s: Stats, v: int)
    requires Queryable(s) && v != s.max
    ensures Estimate(s, LT, v) + Estimate(s, EQ, v) <= s.totalCount
  {
    if s.totalCount > 0 && s.min <= v < s.max {
      var b := BucketIndex(s, v);
      InterpolatePlusShare(s.histogram[b], Offset(s, v), s.bucketWidth);
      SumElementBound(s.histogram, b);
    }
  }

  /** The composed operators, with size_t arithmetic, as long as the total is
      below 2^63: LE is LT + EQ, NE is total - EQ, GT is the size_t difference
      total - LE, and GE comes out as total - LT whether or not GT wrapped. */
  lemma ComposedEstimates(s: Stats, v: int)
    requires Queryable(s) && s.totalCount < SIZE_MODULUS / 2
    ensures Estimate(s, LE, v) == Estimate(s, LT, v) + Estimate(s, EQ, v)
    ensures Estimate(s, NE, v) == s.totalCount - Estimate(s, EQ, v)
    ensures Estimate(s, GT, v) == SizeSub(s.totalCount, Estimate(s, LE, v))
    ensures Estimate(s, GE, v) == s.totalCount - Estimate(s, LT, v)
  {
    EqEstimateSpec(s, v);
    LtEstimateSpec(s, v);
  }

  /** Away from v == max nothing wraps for any total that fits in a size_t:
      GT is exactly total - LE, GE is GT + EQ, and EQ + LT + GT is the total. */
  lemma GtExactAwayFromMax(s: Stats, v: int)
    requires Queryable(s) && s.totalCount < SIZE_MODULUS && v != s.max
    ensures Estimate(s, LE, v) <= s.totalCount
    ensures Estimate(s, GT, v) == s.totalCount - Estimate(s, LE, v)
    ensures Estimate(s, GE, v) == Estimate(s, GT, v) + Estimate(s, EQ, v)
    ensures Estimate(s, EQ, v) + Estimate(s, LT, v) + Estimate(s, GT, v) == s.totalCount
  {
    EqEstimateSpec(s, v);
    LtEstimateSpec(s, v);
    LtPlusEqBound(s, v);
  }

  /** At v == max, LT is the whole total, so any positive EQ makes the size_t
      subtraction in GT wrap to a value above the total. */
  lemma GtWrapsAtMax(s: Stats)
    requires Queryable(s) && s.totalCount < SIZE_MODULUS / 2
    requires Estimate(s, EQ, s.max) > 0
    ensures Estimate(s, GT, s.max) == SIZE_MODULUS - Estimate(s, EQ, s.max)
    ensures Estimate(s, GT, s.max) > s.totalCount
  {
    ComposedEstimates(s, s.max);
    EqEstimateSpec(s, s.max);
  }

  /** A histogram that reaches the wrap: one bucket of width 2 over [0, 1]
      holding two values; GT(1) is 2^64 - 1. */
  lemma GtWrapExample()
    ensures var s := Stats(1, 0, 1, 2, [2], 2);
      Queryable(s) && Estimate(s, EQ, 1) == 1 && Estimate(s, LT, 1) == 2 &&
      Estimate(s, GT, 1) == SIZE_MODULUS - 1
  {
    var s := Stats(1, 0, 1, 2, [2], 2);
    assert s.histogram[..0] == [];
    assert Sum(s.histogram) == 2 by {
      assert s.histogram[..0] == [];
    }
  }

  /** With aligned buckets no index inside the domain needs clamping. */
  lemma AlignedIndex(s: Stats, v: int)
    requires Queryable(s) && s.bucketWidth * s.buckets == s.max - s.min + 1
    requires s.min <= v < s.max
    ensures BucketIndex(s, v) == (v - s.min) / s.bucketWidth
    ensures v - s.min == BucketIndex(s, v) * s.bucketWidth + Offset(s, v)
  {
    var w, q := s.bucketWidth, (v - s.min) / s.bucketWidth;
    assert q * w <= v - s.min < s.buckets * w;
    MulCancelLess(q, s.buckets, w);
  }

  lemma LtMonotoneInDomain(s: Stats, v1: int, v2: int)
    requires Queryable(s) && s.bucketWidth * s.buckets == s.max - s.min + 1
    requires s.totalCount > 0 && s.min <= v1 <= v2 < s.max
    ensures LtEstimate(s, v1) <= LtEstimate(s, v2)
  {
    var w, h := s.bucketWidth, s.histogram;
    AlignedIndex(s, v1);
    AlignedIndex(s, v2);
    var b1, b2 := BucketIndex(s, v1), BucketIndex(s, v2);
    DivMonotone(v1 - s.min, v2 - s.min, w);
    if b1 == b2 {
      InterpolateMonotone(h[b1], Offset(s, v1), Offset(s, v2), w);
    } else {
      InterpolatePlusShare(h[b1], Offset(s, v1), w);
      SumStep(h, b1);
      SumPrefixMonotone(h, b1 + 1, b2);
    }
  }

  /** When the buckets divide the domain exactly, LT is nondecreasing in v. */
  lemma LtMonotoneWhenAligned(s: Stats, v1: int, v2: int)
    requires Queryable(s) && s.bucketWidth * s.buckets == s.max - s.min + 1
    requires v1 <= v2
    ensures Estimate(s, LT, v1) <= Estimate(s, LT, v2)
  {
    LtEstimateSpec(s, v1);
    LtEstimateSpec(s, v2);
    if s.totalCount > 0 && s.min <= v1 && v2 < s.max {
      LtMonotoneInDomain(s, v1, v2);
    }
  }

  /** When they do not, the unclamped bucketStart restarts the fraction in the
      tail past the last full bucket: three buckets of width 2 over [0, 7] with
      two values in the last bucket give LT(5) == 1 but LT(6) == 0. */
  lemma LtDropsInTail()
    ensures var s := Stats(3, 0, 7, 2, [0, 0, 2], 2);
      Queryable(s) && Estimate(s, LT, 5) == 1 && Estimate(s, LT, 6) == 0
  {
    var s := Stats(3, 0, 7, 2, [0, 0, 2], 2);
    assert s.histogram[..2] == [0, 0];
    assert [0, 0][..1] == [0];
    assert [0][..0] == [];
    assert s.histogram[..2] == [0, 0];
    assert Sum(s.histogram) == 2 by {
      assert s.histogram[..2] == [0, 0];
    }
  }
}
