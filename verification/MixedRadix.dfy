/** The numbering of bucket tuples: a tuple with one bucket per axis is a mixed-radix number,
    the first axis most significant. */
module MixedRadix {

  /** Bucket counts of the axes. */
  ghost predicate Positive(dims: seq<int>) {
    forall k | 0 <= k < |dims| :: dims[k] > 0
  }

  ghost predicate InRange(dims: seq<int>, bs: seq<int>) {
    |bs| == |dims| && forall k | 0 <= k < |dims| :: 0 <= bs[k] < dims[k]
  }

  function Product(dims: seq<int>): int {
    if dims == [] then 1 else dims[0] * Product(dims[1..])
  }

  /** The index that the level-by-level recursion reaches from `start`. */
  function RawIndex(dims: seq<int>, start: int, bs: seq<int>): int
    requires |bs| == |dims|
    decreases |dims|
  {
    if dims == [] then start
    else RawIndex(dims[1..], dims[0] * start + bs[0], bs[1..])
  }

  /** The tuple with number `index`, by repeated division. */
  ghost function Unflatten(dims: seq<int>, index: int): (bs: seq<int>)
    requires Positive(dims)
    ensures |bs| == |dims|
    decreases |dims|
  {
    if dims == [] then []
    else
      ProductPositive(dims[1..]);
      [index / Product(dims[1..])] + Unflatten(dims[1..], index % Product(dims[1..]))
  }

  lemma {:induction false} ProductPositive(dims: seq<int>)
    requires Positive(dims)
    ensures Product(dims) >= 1
    decreases |dims|
  {
    if dims != [] {
      ProductPositive(dims[1..]);
      MulPositive(dims[0], Product(dims[1..]));
    }
  }

  lemma MulPositive(a: int, b: int)
    requires a >= 1 && b >= 1
    ensures a * b >= a && a * b >= b
  {
  }

  /** `start` counts whole blocks of the remaining axes. */
  lemma {:induction false} RawIndexFromZero(dims: seq<int>, start: int, bs: seq<int>)
    requires |bs| == |dims|
    ensures RawIndex(dims, start, bs) == start * Product(dims) + RawIndex(dims, 0, bs)
    decreases |dims|
  {
    if dims != [] {
      var rest, bs' := dims[1..], bs[1..];
      var d, b, P := dims[0], bs[0], Product(dims[1..]);
      RawIndexFromZero(rest, d * start + b, bs');
      RawIndexFromZero(rest, d * 0 + b, bs');
      Distribute(d * start, b, P);
      assert d * start * P == start * (d * P);
    }
  }

  /** The index of a tuple lies within its block. */
  lemma {:induction false} RawIndexBounds(dims: seq<int>, start: int, bs: seq<int>)
    requires Positive(dims) && InRange(dims, bs)
    ensures start * Product(dims) <= RawIndex(dims, start, bs) < (start + 1) * Product(dims)
    decreases |dims|
  {
    if dims != [] {
      var d, b, P := dims[0], bs[0], Product(dims[1..]);
      RawIndexBounds(dims[1..], d * start + b, bs[1..]);
      ProductPositive(dims[1..]);
      SubBlock(start, d, b, P);
    }
  }

  /** Block `b` of the `d` blocks that block `start` splits into lies inside it. */
  lemma SubBlock(start: int, d: int, b: int, P: int)
    requires 0 <= b < d && P >= 1
    ensures start * (d * P) <= (d * start + b) * P
    ensures (d * start + b + 1) * P <= (start + 1) * (d * P)
  {
    MulMono(0, b, P);
    MulMono(b + 1, d, P);
    Distribute(d * start, b, P);
    Distribute(d * start, b + 1, P);
    Distribute(start, 1, d * P);
    assert d * start * P == start * (d * P);
  }

  lemma Distribute(a: int, b: int, c: int)
    ensures (a + b) * c == a * c + b * c
  {
  }

  lemma MulMono(a: int, b: int, c: int)
    requires a <= b && 0 <= c
    ensures a * c <= b * c
  {
  }

  lemma DivModUnique(q: int, r: int, P: int)
    requires 0 <= r < P
    ensures (q * P + r) / P == q && (q * P + r) % P == r
  {
    var x := q * P + r;
    assert x == (x / P) * P + x % P;
    var dq := x / P - q;
    assert dq * P == r - x % P;
    if dq >= 1 {
      MulMono(1, dq, P);
    } else if dq <= -1 {
      MulMono(dq, -1, P);
    }
  }

  lemma QuotientBelow(x: int, d: int, P: int)
    requires 1 <= P && 0 <= x < d * P
    ensures 0 <= x / P < d && 0 <= x % P < P && x == x / P * P + x % P
  {
  }

  /** The tuple is recovered from its index. */
  lemma {:induction false} UnflattenRawIndex(dims: seq<int>, bs: seq<int>)
    requires Positive(dims) && InRange(dims, bs)
    ensures Unflatten(dims, RawIndex(dims, 0, bs)) == bs
    decreases |dims|
  {
    if dims != [] {
      var rest, bs' := dims[1..], bs[1..];
      RawIndexFromZero(rest, bs[0], bs');
      RawIndexBounds(rest, 0, bs');
      DivModUnique(bs[0], RawIndex(rest, 0, bs'), Product(rest));
      UnflattenRawIndex(rest, bs');
    }
  }

  /** Every index below the product is the index of an in-range tuple. */
  lemma {:induction false} RawIndexUnflatten(dims: seq<int>, index: int)
    requires Positive(dims) && 0 <= index < Product(dims)
    ensures InRange(dims, Unflatten(dims, index))
    ensures RawIndex(dims, 0, Unflatten(dims, index)) == index
    decreases |dims|
  {
    if dims != [] {
      var rest, P := dims[1..], Product(dims[1..]);
      ProductPositive(rest);
      QuotientBelow(index, dims[0], P);
      var q, r := index / P, index % P;
      RawIndexUnflatten(rest, r);
      RawIndexFromZero(rest, q, Unflatten(rest, r));
    }
  }

  /** Tuples and indices correspond one to one. */
  lemma RawIndexBijection(dims: seq<int>, bs: seq<int>, cs: seq<int>, index: int)
    requires Positive(dims) && InRange(dims, bs) && InRange(dims, cs) && 0 <= index < Product(dims)
    ensures 0 <= RawIndex(dims, 0, bs) < Product(dims)
    ensures RawIndex(dims, 0, bs) == RawIndex(dims, 0, cs) <==> bs == cs
    ensures RawIndex(dims, 0, bs) == index <==> bs == Unflatten(dims, index)
  {
    RawIndexBounds(dims, 0, bs);
    UnflattenRawIndex(dims, bs);
    UnflattenRawIndex(dims, cs);
    RawIndexUnflatten(dims, index);
  }

  /** The first component in which tuples differ decides. */
  predicate Before(bs: seq<int>, cs: seq<int>)
    requires |bs| == |cs|
  {
    bs != [] && (bs[0] < cs[0] || (bs[0] == cs[0] && Before(bs[1..], cs[1..])))
  }

  /** Indices are in the order of their tuples, the first axis most significant. */
  lemma {:induction false} RawIndexInOrder(dims: seq<int>, bs: seq<int>, cs: seq<int>)
    requires Positive(dims) && InRange(dims, bs) && InRange(dims, cs)
    ensures RawIndex(dims, 0, bs) < RawIndex(dims, 0, cs) <==> Before(bs, cs)
    decreases |dims|
  {
    if dims != [] {
      var rest, P := dims[1..], Product(dims[1..]);
      RawIndexFromZero(rest, bs[0], bs[1..]);
      RawIndexFromZero(rest, cs[0], cs[1..]);
      RawIndexBounds(rest, 0, bs[1..]);
      RawIndexBounds(rest, 0, cs[1..]);
      RawIndexInOrder(rest, bs[1..], cs[1..]);
      BlocksApart(bs[0], cs[0], P);
      BlocksApart(cs[0], bs[0], P);
    }
  }

  lemma BlocksApart(a: int, b: int, P: int)
    requires P >= 0
    ensures a < b ==> a * P + P <= b * P
  {
    if a < b {
      MulMono(a + 1, b, P);
      Distribute(a, 1, P);
    }
  }

  lemma {:induction false} ProductAppend(dims: seq<int>, d: int)
    ensures Product(dims + [d]) == Product(dims) * d
  {
    if dims == [] {
      assert Product([d]) == d * Product([]);
    } else {
      assert (dims + [d])[1..] == dims[1..] + [d];
      ProductAppend(dims[1..], d);
      assert dims[0] * (Product(dims[1..]) * d) == dims[0] * Product(dims[1..]) * d;
    }
  }

  lemma {:induction false} ProductPrefix(dims: seq<int>, k: nat)
    requires Positive(dims) && k <= |dims|
    ensures 1 <= Product(dims[..k]) <= Product(dims)
    decreases |dims| - k
  {
    ProductPositive(dims[..k]);
    if k < |dims| {
      ProductPrefix(dims, k + 1);
      assert dims[..k + 1] == dims[..k] + [dims[k]];
      ProductAppend(dims[..k], dims[k]);
      MulPositive(Product(dims[..k]), dims[k]);
    } else {
      assert dims[..k] == dims;
    }
  }
}
