/** The histogram object: a flat array of counters, addressed through its axes. */
module PerfHistogram {
  import opened MixedRadix
  import opened Options
  import opened HistogramAxis
  import HistogramCounts
  import opened HistogramVisit

  newtype int32 = x: int | -0x8000_0000 <= x <= 0x7fff_ffff

  function Dims(axes: seq<Axis>): seq<int> {
    seq(|axes|, k requires 0 <= k < |axes| => axes[k].buckets)
  }

  ghost predicate ValidAxes(axes: seq<Axis>) {
    && (forall k | 0 <= k < |axes| :: ValidAxis(axes[k]))
    && Product(Dims(axes)) <= INT64_MAX
  }

  lemma DimsTail(axes: seq<Axis>)
    requires axes != []
    ensures Dims(axes)[1..] == Dims(axes[1..])
  {
  }

  /** The bucket of each value under `evaluate`. */
  ghost function Evaluated(axes: seq<Axis>, evaluate: (int, Axis) -> int, values: seq<int>): seq<int>
    requires |values| == |axes|
  {
    seq(|axes|, k requires 0 <= k < |axes| => evaluate(values[k], axes[k]))
  }

  /** The level-by-level index computation, in 64-bit arithmetic. */
  function RawIndexInternal(axes: seq<Axis>, evaluate: (int, Axis) -> int, start: int64, values: seq<int>): (r: int64)
    requires |values| == |axes| && (forall k | 0 <= k < |axes| :: ValidAxis(axes[k]))
    requires forall k | 0 <= k < |axes| :: 0 <= evaluate(values[k], axes[k]) < axes[k].buckets
    requires 0 <= start && (start as int + 1) * Product(Dims(axes)) <= INT64_MAX
    ensures r as int == RawIndex(Dims(axes), start as int, Evaluated(axes, evaluate, values))
    decreases |axes|
  {
    if axes == [] then start
    else
      var buckets := axes[0].buckets;
      var bucket := evaluate(values[0], axes[0]);
      StepFits(axes, start as int, bucket);
      DimsTail(axes);
      assert Evaluated(axes, evaluate, values)[1..] == Evaluated(axes[1..], evaluate, values[1..]);
      RawIndexInternal(axes[1..], evaluate, buckets as int64 * start + bucket as int64, values[1..])
  }

  /** Values whose buckets are computed without signed overflow. */
  ghost predicate AllFit(axes: seq<Axis>, values: seq<int>) {
    && |values| == |axes|
    && (forall k | 0 <= k < |axes| :: ValidAxis(axes[k]))
    && (forall k | 0 <= k < |values| :: INT64_MIN <= values[k] <= INT64_MAX && Fits(values[k], axes[k]))
  }

  lemma EvaluatedInRange(axes: seq<Axis>, values: seq<int>)
    requires AllFit(axes, values)
    ensures InRange(Dims(axes), Evaluated(axes, BucketFor, values))
  {
    forall k | 0 <= k < |axes|
      ensures 0 <= BucketFor(values[k], axes[k]) < axes[k].buckets
    {
      BucketIffInRange(values[k], axes[k], 0);
    }
  }

  /** The same computation with the quantizer as the evaluator. */
  method RawIndexForValues(axes: seq<Axis>, start: int64, values: seq<int>) returns (r: int64)
    requires AllFit(axes, values)
    requires 0 <= start && (start as int + 1) * Product(Dims(axes)) <= INT64_MAX
    ensures r as int == RawIndex(Dims(axes), start as int, Evaluated(axes, BucketFor, values))
    decreases |axes|
  {
    if axes == [] {
      return start;
    }
    var bucket := GetBucketForAxis(values[0] as int64, axes[0]);
    BucketIffInRange(values[0], axes[0], 0);
    StepFits(axes, start as int, bucket as int);
    DimsTail(axes);
    assert Evaluated(axes, BucketFor, values)[1..] == Evaluated(axes[1..], BucketFor, values[1..]);
    r := RawIndexForValues(axes[1..], axes[0].buckets as int64 * start + bucket, values[1..]);
  }

  /** A call of inc or of inc_bucket. */
  datatype Increment = ByValue(values: seq<int>) | ByBucket(buckets: seq<int>)

  /** What inc and inc_bucket demand of their arguments. */
  ghost predicate Countable(axes: seq<Axis>, c: Increment) {
    match c
    case ByValue(values) => AllFit(axes, values)
    case ByBucket(bs) => InRange(Dims(axes), bs)
  }

  /** The buckets that a call counts. */
  ghost function TupleOf(axes: seq<Axis>, c: Increment): seq<int> {
    match c
    case ByValue(values) => if |values| == |axes| then Evaluated(axes, BucketFor, values) else []
    case ByBucket(bs) => bs
  }

  ghost function Tuples(axes: seq<Axis>, calls: seq<Increment>): seq<seq<int>> {
    seq(|calls|, j requires 0 <= j < |calls| => TupleOf(axes, calls[j]))
  }

  lemma TuplesInRange(axes: seq<Axis>, calls: seq<Increment>)
    requires forall j | 0 <= j < |calls| :: Countable(axes, calls[j])
    ensures HistogramCounts.Calls(Dims(axes), Tuples(axes, calls))
  {
    forall j | 0 <= j < |calls|
      ensures InRange(Dims(axes), TupleOf(axes, calls[j]))
    {
      if calls[j].ByValue? {
        EvaluatedInRange(axes, calls[j].values);
      }
    }
  }

  /** One level of the index computation stays within 64 bits. */
  lemma StepFits(axes: seq<Axis>, start: int, bucket: int)
    requires axes != [] && (forall k | 0 <= k < |axes| :: ValidAxis(axes[k]))
    requires 0 <= start && (start + 1) * Product(Dims(axes)) <= INT64_MAX && 0 <= bucket < axes[0].buckets
    ensures 0 <= axes[0].buckets * start
    ensures (axes[0].buckets * start + bucket + 1) * Product(Dims(axes[1..])) <= INT64_MAX
    ensures axes[0].buckets * start + bucket < INT64_MAX
  {
    var d, P := axes[0].buckets, Product(Dims(axes[1..]));
    DimsTail(axes);
    ProductPositive(Dims(axes[1..]));
    SubBlock(start, d, bucket, P);
    MulMono(0, start, d);
    MulPositive(d * start + bucket + 1, P);
  }

  lemma ValidDims(axes: seq<Axis>)
    requires ValidAxes(axes)
    ensures Positive(Dims(axes)) && 1 <= Product(Dims(axes)) <= INT64_MAX
  {
    ProductPositive(Dims(axes));
  }

  /** The evaluator of get_raw_index_for_bucket: bucket numbers stand for themselves. */
  function Itself(bucket: int, ac: Axis): int {
    bucket
  }

  class PerfHistogram {
    const axes: seq<Axis>
    const rawData: array<int>

    ghost predicate Valid()
      reads this
    {
      ValidAxes(axes) && rawData.Length == Product(Dims(axes))
    }

    /** Memory for the counters; their values are arbitrary until reset. */
    constructor (axes: seq<Axis>)
      requires ValidAxes(axes)
      ensures Valid() && this.axes == axes && fresh(rawData)
    {
      ValidDims(axes);
      this.axes := axes;
      var size := GetRawSize(axes);
      rawData := new int[size as int];
    }

    constructor Copy(other: PerfHistogram)
      requires other.Valid()
      ensures Valid() && axes == other.axes && fresh(rawData)
      ensures rawData[..] == other.rawData[..]
    {
      ValidDims(other.axes);
      axes := other.axes;
      var size := GetRawSize(other.axes);
      rawData := new int[size as int];
      new;
      var i: int64 := 0;
      while i < size
        invariant 0 <= i <= size && size as int == rawData.Length == other.rawData.Length
        invariant rawData[..i] == other.rawData[..i]
      {
        rawData[i] := other.rawData[i];
        i := i + 1;
      }
    }

    static method GetRawSize(axes: seq<Axis>) returns (ret: int64)
      requires ValidAxes(axes)
      ensures ret as int == Product(Dims(axes))
    {
      ValidDims(axes);
      var dims := Dims(axes);
      ret := 1;
      var k := 0;
      while k < |axes|
        invariant 0 <= k <= |axes| && ret as int == Product(dims[..k])
      {
        ProductAppend(dims[..k], dims[k]);
        assert dims[..k] + [dims[k]] == dims[..k + 1];
        ProductPrefix(dims, k + 1);
        ret := ret * axes[k].buckets as int64;
        k := k + 1;
      }
      assert dims[..k] == dims;
    }

    method Reset()
      requires Valid()
      modifies rawData
      ensures rawData[..] == HistogramCounts.Zeros(rawData.Length)
      ensures forall j | 0 <= j < rawData.Length :: rawData[j] == 0
    {
      var i := GetRawSize(axes);
      i := i - 1;
      while i >= 0
        invariant -1 <= i as int < rawData.Length
        invariant forall j | i as int < j < rawData.Length :: rawData[j] == 0
        decreases i
      {
        rawData[i] := 0;
        i := i - 1;
      }
    }

    /** Both kinds of increment add one, modulo 2^64, at the index of the buckets. */
    method IncBucket(bs: seq<int>)
      requires Valid() && InRange(Dims(axes), bs)
      modifies rawData
      ensures 0 <= RawIndex(Dims(axes), 0, bs) < rawData.Length
      ensures rawData[..] == HistogramCounts.Bumped(old(rawData[..]), RawIndex(Dims(axes), 0, bs))
      ensures forall j | 0 <= j < rawData.Length ::
                rawData[j] == if j == RawIndex(Dims(axes), 0, bs) then (old(rawData[j]) + 1) % 0x1_0000_0000_0000_0000
                              else old(rawData[j])
    {
      var index := IndexForBuckets(bs);
      rawData[index] := (rawData[index] + 1) % HistogramCounts.WORD;
    }

    method Inc(values: seq<int>)
      requires Valid() && AllFit(axes, values)
      modifies rawData
      ensures InRange(Dims(axes), Evaluated(axes, BucketFor, values))
      ensures 0 <= RawIndex(Dims(axes), 0, Evaluated(axes, BucketFor, values)) < rawData.Length
      ensures rawData[..] ==
              HistogramCounts.Bumped(old(rawData[..]), RawIndex(Dims(axes), 0, Evaluated(axes, BucketFor, values)))
    {
      ValidDims(axes);
      EvaluatedInRange(axes, values);
      var index := RawIndexForValues(axes, 0, values);
      RawIndexBounds(Dims(axes), 0, Evaluated(axes, BucketFor, values));
      rawData[index] := (rawData[index] + 1) % HistogramCounts.WORD;
    }

    /** A run of both kinds of increment from zero: the counters are those of the tuples counted. */
    method CountCalls(calls: seq<Increment>)
      requires Valid() && forall j | 0 <= j < |calls| :: Countable(axes, calls[j])
      modifies rawData
      ensures Positive(Dims(axes)) && HistogramCounts.Calls(Dims(axes), Tuples(axes, calls))
      ensures rawData[..] == HistogramCounts.After(Dims(axes), Tuples(axes, calls))
    {
      ValidDims(axes);
      TuplesInRange(axes, calls);
      Reset();
      ghost var dims, tuples := Dims(axes), Tuples(axes, calls);
      var k := 0;
      while k < |calls|
        invariant 0 <= k <= |calls| && rawData[..] == HistogramCounts.After(dims, tuples[..k])
      {
        assert Countable(axes, calls[k]) && tuples[k] == TupleOf(axes, calls[k]);
        match calls[k] {
          case ByValue(values) => Inc(values);
          case ByBucket(bs) => IncBucket(bs);
        }
        HistogramCounts.AfterNext(dims, tuples, k);
        k := k + 1;
      }
      assert tuples[..k] == tuples;
    }

    method IndexForBuckets(bs: seq<int>) returns (index: int64)
      requires Valid() && InRange(Dims(axes), bs)
      ensures index as int == RawIndex(Dims(axes), 0, bs) && 0 <= index as int < rawData.Length
    {
      ValidDims(axes);
      assert Evaluated(axes, Itself, bs) == bs;
      forall k | 0 <= k < |axes|
        ensures 0 <= Itself(bs[k], axes[k]) < axes[k].buckets
      {
        assert Dims(axes)[k] == axes[k].buckets;
      }
      index := RawIndexInternal(axes, Itself, 0, bs);
      RawIndexBounds(Dims(axes), 0, bs);
    }

    method ReadBucket(bs: seq<int>) returns (v: int)
      requires Valid() && InRange(Dims(axes), bs)
      ensures 0 <= RawIndex(Dims(axes), 0, bs) < rawData.Length && v == rawData[RawIndex(Dims(axes), 0, bs)]
    {
      var index := IndexForBuckets(bs);
      v := rawData[index];
    }

    /** The calls that the visitor makes for one block of one level, in 32-bit arithmetic. */
    method VisitFrom(level: int32, start: int32, ghost dims: seq<int>) returns (calls: seq<Call>)
      requires Valid() && rawData.Length <= INT32_MAX && |axes| <= INT32_MAX
      requires 0 <= level as int <= |axes| && dims == Dims(axes)[level..] && Positive(dims)
      requires 0 <= start && (start as int + 1) * Product(dims) <= rawData.Length
      ensures calls == Spelled(TreeOf(dims, rawData[..], start as int), level as int)
      decreases |axes| - level as int, 0
    {
      if level as int == |axes| {
        calls := [Value(rawData[start])];
      } else {
        assert dims[0] == axes[level].buckets;
        BlockFits(dims, start as int, rawData.Length);
        var buckets := axes[level].buckets as int32;
        var row := VisitRow(level, start * buckets, buckets, start as int, dims);
        calls := [Enter(level as int)] + row + [Leave(level as int)];
      }
    }

    /** The loop over the buckets of one axis, from raw index `first` on. */
    method VisitRow(level: int32, first: int32, buckets: int32, ghost start: int, ghost dims: seq<int>)
      returns (calls: seq<Call>)
      requires Valid() && rawData.Length <= INT32_MAX && |axes| <= INT32_MAX
      requires 0 <= level as int < |axes| && dims == Dims(axes)[level..] && Positive(dims) && dims[0] == buckets as int
      requires 0 <= start && (start + 1) * Product(dims) <= rawData.Length
      requires first as int == dims[0] * start && 0 <= first && first as int + buckets as int <= INT32_MAX
      ensures calls == SpelledAll(Trees(dims, rawData[..], start, dims[0]), level as int + 1)
      decreases |axes| - level as int - 1, 1
    {
      ghost var raw, rest := rawData[..], dims[1..];
      assert rest == Dims(axes)[level as int + 1..];
      calls := [];
      var startIndex := first;
      var i: int32 := 0;
      while i < buckets
        invariant 0 <= i <= buckets && startIndex as int == first as int + i as int
        invariant calls == SpelledAll(Trees(dims, raw, start, i as int), level as int + 1)
      {
        RowGrows(dims, raw, start, i as int, startIndex as int, level as int + 1);
        var more := VisitFrom(level + 1, startIndex, rest);
        calls := calls + more;
        i := i + 1;
        startIndex := startIndex + 1;
      }
    }

    /** The report of the whole histogram. */
    method VisitValues() returns (calls: seq<Call>)
      requires Valid() && rawData.Length <= INT32_MAX && |axes| <= INT32_MAX
      ensures Positive(Dims(axes)) && calls == Spelled(TreeOf(Dims(axes), rawData[..], 0), 0)
      ensures Values(calls) == rawData[..]
      ensures LevelAfter(calls, 0, |axes|) == Some(0)
      ensures Parse(calls) == Good(TreeOf(Dims(axes), rawData[..], 0), [])
    {
      ValidDims(axes);
      calls := VisitFrom(0, 0, Dims(axes));
      ValuesInOrder(Dims(axes), rawData[..], 0, 0);
      LevelsRight(Dims(axes), rawData[..], 0, 0);
      ParseSpelled(TreeOf(Dims(axes), rawData[..], 0), 0, []);
      assert calls + [] == calls;
    }
  }

  /** The subtree of bucket `i` is the block with number `k`. */
  lemma RowGrows(dims: seq<int>, raw: seq<int>, start: int, i: int, k: int, level: nat)
    requires Positive(dims) && 0 <= start && (start + 1) * Product(dims) <= |raw|
    requires dims != [] && 0 <= i < dims[0] && k == dims[0] * start + i
    ensures 0 <= k && (k + 1) * Product(dims[1..]) <= |raw|
    ensures SpelledAll(Trees(dims, raw, start, i + 1), level) ==
            SpelledAll(Trees(dims, raw, start, i), level) + Spelled(TreeOf(dims[1..], raw, k), level)
  {
    TreesAt(dims, raw, start, i + 1, i);
    var ts := Trees(dims, raw, start, i + 1);
    assert ts[..i] == Trees(dims, raw, start, i);
  }

  /** The indices of a level's children, and the one past them, stay below the size. */
  lemma BlockFits(dims: seq<int>, start: int, size: int)
    requires Positive(dims) && dims != [] && 0 <= start && (start + 1) * Product(dims) <= size
    ensures 0 <= dims[0] * start && dims[0] * start + dims[0] <= size && dims[0] * start == start * dims[0]
  {
    var d, P := dims[0], Product(dims[1..]);
    ProductPositive(dims[1..]);
    MulMono(0, start, d);
    var e := (start + 1) * d;
    Distribute(start, 1, d);
    Regroup(start + 1, d, P);
    MulPositive(e, P);
  }

  lemma Regroup(a: int, b: int, c: int)
    ensures a * b * c == a * (b * c)
  {
  }
}
