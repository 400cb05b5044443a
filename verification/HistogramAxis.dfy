/** One axis of a histogram: which bucket a value falls into, and the ranges that are reported
    for the buckets. */
module HistogramAxis {
  import opened MixedRadix

  datatype Scale = Linear | Log2

  datatype Axis = Axis(name: string, scale: Scale, min: int, quantSize: int, buckets: int)

  const INT64_MIN: int := -0x8000_0000_0000_0000
  const INT64_MAX: int := 0x7fff_ffff_ffff_ffff
  const INT32_MAX: int := 0x7fff_ffff

  newtype int64 = x: int | INT64_MIN <= x <= INT64_MAX

  /** What the constructor asserts, and the widths of the fields. */
  predicate ValidAxis(ac: Axis) {
    0 < ac.buckets <= INT32_MAX && 0 < ac.quantSize <= INT64_MAX && INT64_MIN <= ac.min <= INT64_MAX
  }

  function Pow2(n: nat): (r: int)
    ensures r >= 1
  {
    if n == 0 then 1 else 2 * Pow2(n - 1)
  }

  function Quants(i: int, scale: Scale): int
    requires i >= 1
  {
    match scale
    case Linear => i
    case Log2 => Pow2(i - 1)
  }

  /** Where bucket `k + 1` begins. */
  function Boundary(ac: Axis, k: nat): int {
    ac.min + (if k == 0 then 0 else Quants(k, ac.scale) * ac.quantSize)
  }

  /** The first boundary is the minimum, and the second a quantum away from it. From then on a linear
      axis goes on by a quantum, and a logarithmic one doubles the distance from the minimum. */
  lemma BoundarySteps(ac: Axis, k: nat)
    ensures Boundary(ac, 0) == ac.min && Boundary(ac, 1) == ac.min + ac.quantSize
    ensures k >= 1 && ac.scale.Linear? ==> Boundary(ac, k + 1) == Boundary(ac, k) + ac.quantSize
    ensures k >= 1 && ac.scale.Log2? ==> Boundary(ac, k + 1) - ac.min == 2 * (Boundary(ac, k) - ac.min)
  {
    assert Pow2(0) == 1;
    if k >= 1 {
      var q := Quants(k, ac.scale);
      assert Quants(k + 1, ac.scale) == if ac.scale.Linear? then q + 1 else 2 * q;
      assert (q + 1) * ac.quantSize == q * ac.quantSize + ac.quantSize;
      assert 2 * q * ac.quantSize == 2 * (q * ac.quantSize);
    }
  }

  /** The inclusive range that is reported for bucket `i`. */
  function Range(ac: Axis, i: int): (int, int)
    requires 0 <= i < ac.buckets
  {
    (if i == 0 then INT64_MIN else Boundary(ac, i - 1),
     if i == ac.buckets - 1 then INT64_MAX else Boundary(ac, i) - 1)
  }

  /** The axes whose ranges are computed within 64 bits: the largest boundary fits, and so does the
      number below the minimum. */
  predicate RangesFit(ac: Axis) {
    && ac.min > INT64_MIN
    && (ac.buckets >= 3 ==>
          && Quants(ac.buckets - 2, ac.scale) * ac.quantSize <= INT64_MAX
          && Boundary(ac, ac.buckets - 2) <= INT64_MAX)
  }

  ghost predicate In64(x: int) {
    INT64_MIN <= x <= INT64_MAX
  }

  /** Everything that is computed for the boundary behind bucket `i`. */
  ghost predicate StepIn64(ac: Axis, i: int)
    requires i >= 1
  {
    && In64(Quants(i, ac.scale))
    && In64(Quants(i, ac.scale) * ac.quantSize)
    && In64(Boundary(ac, i))
    && In64(Boundary(ac, i) - 1)
  }

  lemma StepFitsBelow(ac: Axis, i: int)
    requires ValidAxis(ac) && RangesFit(ac) && 1 <= i < ac.buckets - 1
    ensures StepIn64(ac, i)
  {
    QuantsGrow(i, ac.buckets - 2, ac.scale);
    MulMono(Quants(i, ac.scale), Quants(ac.buckets - 2, ac.scale), ac.quantSize);
    MulPositive(Quants(i, ac.scale), ac.quantSize);
  }

  /** The condition is exact: it holds if and only if every value on the way fits. */
  lemma RangesFitIff(ac: Axis)
    requires ValidAxis(ac)
    ensures RangesFit(ac) <==>
            In64(ac.min - 1) && forall i | 1 <= i < ac.buckets - 1 :: StepIn64(ac, i)
  {
    if RangesFit(ac) {
      forall i | 1 <= i < ac.buckets - 1
        ensures StepIn64(ac, i)
      {
        StepFitsBelow(ac, i);
      }
    } else if ac.buckets >= 3 {
      assert StepIn64(ac, ac.buckets - 2) ==> ac.min == INT64_MIN;
    }
  }

  /** The ranges of the buckets, in order, divide up the 64-bit values, and a value falls into a
      bucket exactly when it lies in the range of the bucket. */
  method GetAxisBucketRanges(ac: Axis) returns (ret: seq<(int64, int64)>)
    requires ValidAxis(ac) && RangesFit(ac)
    ensures |ret| == ac.buckets
    ensures forall i | 0 <= i < ac.buckets :: (ret[i].0 as int, ret[i].1 as int) == Range(ac, i)
    ensures forall i | 0 <= i < ac.buckets :: ret[i].0 <= ret[i].1
    ensures forall i | 0 < i < ac.buckets :: ret[i - 1].1 as int + 1 == ret[i].0 as int
    ensures forall value, i | In64(value) && 0 <= i < ac.buckets ::
              BucketFor(value, ac) == i <==> ret[i].0 as int <= value <= ret[i].1 as int
  {
    ret := FillRanges(ac);
    forall i | 0 <= i < ac.buckets
      ensures ret[i].0 <= ret[i].1
    {
      RangeNotEmpty(ac, i);
    }
    forall value, i | In64(value) && 0 <= i < ac.buckets
      ensures BucketFor(value, ac) == i <==> ret[i].0 as int <= value <= ret[i].1 as int
    {
      BucketIffInRange(value, ac, i);
    }
  }

  lemma RangeNotEmpty(ac: Axis, i: int)
    requires ValidAxis(ac) && RangesFit(ac) && 0 <= i < ac.buckets
    ensures Range(ac, i).0 <= Range(ac, i).1
  {
    if 0 < i < ac.buckets - 1 {
      BoundariesApart(ac, i - 1);
    } else if i >= 2 {
      StepFitsBelow(ac, i - 1);
    }
  }

  /** The loop and the ends; with one bucket the ends are those of the same range. */
  method FillRanges(ac: Axis) returns (ret: seq<(int64, int64)>)
    requires ValidAxis(ac) && RangesFit(ac)
    ensures |ret| == ac.buckets
    ensures forall i | 0 <= i < ac.buckets :: (ret[i].0 as int, ret[i].1 as int) == Range(ac, i)
  {
    var n := ac.buckets;
    ret := seq(n, _ => (0, 0));
    var min := ac.min as int64;
    var i := 1;
    while i < n - 1
      invariant 1 <= i && (i <= n - 1 || n == 1) && |ret| == n
      invariant min as int == Boundary(ac, i - 1)
      invariant forall j | 1 <= j < i && j < n - 1 :: (ret[j].0 as int, ret[j].1 as int) == Range(ac, j)
    {
      StepFitsBelow(ac, i);
      var quants := Quants(i, ac.scale) as int64;
      var maxExclusive := ac.min as int64 + quants * ac.quantSize as int64;
      ret := ret[i := (min, maxExclusive - 1)];
      min := maxExclusive;
      i := i + 1;
    }
    ret := ret[0 := (ret[0].0, ac.min as int64 - 1)];
    ret := ret[n - 1 := (min, ret[n - 1].1)];
    ret := ret[0 := (INT64_MIN as int64, ret[0].1)];
    ret := ret[n - 1 := (ret[n - 1].0, INT64_MAX as int64)];
  }

  /** The first bucket from `i` on whose quants exceed `v`; the last bucket takes the rest. */
  function Search(v: int, i: int, n: int): int
    requires 1 <= i
    decreases n - i
  {
    if i >= n then n - 1
    else if v < Quants(i, Log2) then i
    else Search(v, i + 1, n)
  }

  /** The bucket of a value; a total function, though axes have a positive quantum. */
  function BucketFor(value: int, ac: Axis): int {
    if value < ac.min || ac.quantSize == 0 then 0
    else
      var v := (value - ac.min) / ac.quantSize;
      match ac.scale
      case Linear => if v + 1 < ac.buckets - 1 then v + 1 else ac.buckets - 1
      case Log2 => Search(v, 1, ac.buckets)
  }

  /** The values for which the computation of the bucket stays within 64 bits. */
  predicate Fits(value: int, ac: Axis)
    requires ac.quantSize > 0
  {
    value >= ac.min ==>
      && value - ac.min <= INT64_MAX
      && match ac.scale
         case Linear => (value - ac.min) / ac.quantSize < INT64_MAX
         case Log2 => ac.buckets <= 64 || (value - ac.min) / ac.quantSize < 0x4000_0000_0000_0000
  }

  method GetBucketForAxis(value: int64, ac: Axis) returns (b: int64)
    requires ValidAxis(ac) && Fits(value as int, ac)
    ensures b as int == BucketFor(value as int, ac)
  {
    if value < ac.min as int64 {
      return 0;
    }
    DivBelow(value as int - ac.min, ac.quantSize, 0);
    DivAtMost(value as int - ac.min, ac.quantSize);
    var v: int64 := value - ac.min as int64;
    v := v / ac.quantSize as int64;
    var last := ac.buckets as int64 - 1;
    match ac.scale
    case Linear =>
      b := if v + 1 < last then v + 1 else last;
    case Log2 =>
      var i: int64 := 1;
      while i as int < ac.buckets
        invariant 1 <= i as int <= ac.buckets
        invariant Search(v as int, 1, ac.buckets) == Search(v as int, i as int, ac.buckets)
        invariant i > 1 ==> Pow2(i as int - 2) <= v as int
      {
        ShiftFits(v as int, i as int, ac.buckets);
        var quants := Pow2(i as int - 1) as int64;
        if v < quants {
          return i;
        }
        i := i + 1;
      }
      b := last;
  }

  lemma DivAtMost(x: int, q: int)
    requires x >= 0 && q >= 1
    ensures 0 <= x / q <= x
  {
  }

  lemma {:induction false} Pow2Add(a: nat, b: nat)
    ensures Pow2(a + b) == Pow2(a) * Pow2(b)
    decreases a
  {
    if a > 0 {
      Pow2Add(a - 1, b);
      assert 2 * (Pow2(a - 1) * Pow2(b)) == 2 * Pow2(a - 1) * Pow2(b);
    }
  }

  lemma Pow2Times(a: nat, x: int, b: nat, y: int)
    requires Pow2(a) == x && Pow2(b) == y
    ensures Pow2(a + b) == x * y
  {
    Pow2Add(a, b);
  }

  lemma Pow2At62()
    ensures Pow2(62) == 0x4000_0000_0000_0000
  {
    var one := 1;
    Pow2Times(one, 2, one, 2);
    Pow2Times(2 * one, 4, 2 * one, 4);
    Pow2Times(4 * one, 16, 4 * one, 16);
    Pow2Times(8 * one, 0x100, 8 * one, 0x100);
    Pow2Times(16 * one, 0x1_0000, 16 * one, 0x1_0000);
    Pow2Times(16 * one, 0x1_0000, 8 * one, 0x100);
    Pow2Times(24 * one, 0x100_0000, 4 * one, 16);
    Pow2Times(28 * one, 0x1000_0000, 2 * one, 4);
    Pow2Times(32 * one, 0x1_0000_0000, 30 * one, 0x4000_0000);
  }

  /** The shift of the logarithmic scale stays below the sign bit. */
  lemma ShiftFits(v: int, i: int, buckets: int)
    requires 1 <= i < buckets && (buckets <= 64 || v < 0x4000_0000_0000_0000)
    requires i > 1 ==> Pow2(i - 2) <= v
    ensures Pow2(i - 1) <= 0x4000_0000_0000_0000
  {
    Pow2At62();
    if i > 63 {
      QuantsGrow(63, i - 1, Log2);
    } else {
      QuantsGrow(i, 63, Log2);
    }
  }

  /** The loop of the logarithmic scale gets to bucket `i`. */
  ghost predicate ReachesBucket(v: int, i: int) {
    forall j | 1 <= j < i :: Quants(j, Log2) <= v
  }

  /** Everything that is computed for the bucket of a value. */
  ghost predicate BucketIn64(value: int, ac: Axis)
    requires ac.quantSize > 0
  {
    var v := (value - ac.min) / ac.quantSize;
    value >= ac.min ==>
      && In64(value - ac.min)
      && (ac.scale.Linear? ==> In64(v + 1))
      && (ac.scale.Log2? ==> forall i | 1 <= i < ac.buckets && ReachesBucket(v, i) :: In64(Quants(i, Log2)))
  }

  lemma ShiftsFitIff(v: int, buckets: int)
    requires v >= 0
    ensures (buckets <= 64 || v < 0x4000_0000_0000_0000) <==>
            forall i | 1 <= i < buckets && ReachesBucket(v, i) :: In64(Quants(i, Log2))
  {
    if buckets <= 64 || v < 0x4000_0000_0000_0000 {
      forall i | 1 <= i < buckets && ReachesBucket(v, i)
        ensures In64(Quants(i, Log2))
      {
        assert i > 1 ==> Quants(i - 1, Log2) <= v;
        ShiftFits(v, i, buckets);
      }
    } else {
      Pow2At62();
      assert Quants(64, Log2) == 2 * Pow2(62);
      forall j | 1 <= j < 64
        ensures Quants(j, Log2) <= v
      {
        QuantsGrow(j, 63, Log2);
      }
      assert ReachesBucket(v, 64) && !In64(Quants(64, Log2));
    }
  }

  /** The condition is exact: it holds if and only if every value on the way fits. */
  lemma FitsIff(value: int, ac: Axis)
    requires ValidAxis(ac) && In64(value)
    ensures Fits(value, ac) <==> BucketIn64(value, ac)
  {
    if value >= ac.min {
      DivAtMost(value - ac.min, ac.quantSize);
      ShiftsFitIff((value - ac.min) / ac.quantSize, ac.buckets);
    }
  }

  // ----- buckets and ranges agree

  lemma DivBelow(x: int, q: int, k: int)
    requires q >= 1
    ensures x / q < k <==> x < k * q
  {
    assert x == x / q * q + x % q;
    if x / q < k {
      MulMono(x / q + 1, k, q);
      Distribute(x / q, 1, q);
    } else {
      MulMono(k, x / q, q);
    }
  }

  lemma {:induction false} QuantsGrow(i: int, j: int, scale: Scale)
    requires 1 <= i <= j
    ensures 1 <= Quants(i, scale) <= Quants(j, scale)
    decreases j - i
  {
    if i < j {
      QuantsGrow(i, j - 1, scale);
    }
  }

  lemma BoundariesGrow(ac: Axis, j: nat, k: nat)
    requires ValidAxis(ac) && j <= k
    ensures Boundary(ac, j) <= Boundary(ac, k)
  {
    if k > 0 {
      QuantsGrow(1, k, ac.scale);
      MulMono(0, Quants(k, ac.scale), ac.quantSize);
      if j > 0 {
        QuantsGrow(j, k, ac.scale);
        MulMono(Quants(j, ac.scale), Quants(k, ac.scale), ac.quantSize);
      }
    }
  }

  lemma BoundariesApart(ac: Axis, k: nat)
    requires ValidAxis(ac)
    ensures Boundary(ac, k) < Boundary(ac, k + 1)
  {
  }

  lemma {:induction false} SearchFinds(v: int, i: int, n: int)
    requires v >= 0 && 1 <= i < n
    ensures i <= Search(v, i, n) < n
    ensures Search(v, i, n) < n - 1 ==> v < Quants(Search(v, i, n), Log2)
    ensures Search(v, i, n) > i ==> Quants(Search(v, i, n) - 1, Log2) <= v
    decreases n - i
  {
    if v >= Quants(i, Log2) && i + 1 < n {
      SearchFinds(v, i + 1, n);
    }
  }

  /** The chosen bucket lies between the boundaries of its range. */
  lemma BucketBetween(value: int, ac: Axis)
    requires ValidAxis(ac) && value >= ac.min
    ensures var b := BucketFor(value, ac);
            && 0 <= b < ac.buckets
            && (b == 0 <==> ac.buckets == 1)
            && (b > 0 ==> Boundary(ac, b - 1) <= value)
            && (b < ac.buckets - 1 ==> value < Boundary(ac, b))
  {
    var v := (value - ac.min) / ac.quantSize;
    DivBelow(value - ac.min, ac.quantSize, 0);
    if ac.buckets >= 2 {
      if ac.scale.Log2? {
        SearchFinds(v, 1, ac.buckets);
      }
      var b := BucketFor(value, ac);
      DivBelow(value - ac.min, ac.quantSize, Quants(b, ac.scale));
      if b >= 2 {
        DivBelow(value - ac.min, ac.quantSize, Quants(b - 1, ac.scale));
      }
    }
  }

  /** A value falls into a bucket exactly when it lies in the range reported for it. */
  lemma BucketIffInRange(value: int, ac: Axis, i: int)
    requires ValidAxis(ac) && INT64_MIN <= value <= INT64_MAX && 0 <= i < ac.buckets
    ensures 0 <= BucketFor(value, ac) < ac.buckets
    ensures BucketFor(value, ac) == i <==> Range(ac, i).0 <= value <= Range(ac, i).1
  {
    if value >= ac.min {
      BucketBetween(value, ac);
      if ac.buckets >= 2 {
        var b := BucketFor(value, ac);
        if i < b {
          BoundariesGrow(ac, i, b - 1);
        } else if b < i {
          BoundariesGrow(ac, b, i - 1);
        }
      }
    } else if i > 0 {
      BoundariesGrow(ac, 0, i - 1);
    }
  }
}
