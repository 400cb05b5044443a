/** What a run of increments leaves in the counters of a histogram. */
module HistogramCounts {
  import opened MixedRadix

  /** Counters are unsigned 64-bit words. */
  const WORD: int := 0x1_0000_0000_0000_0000

  function Bumped(c: seq<int>, k: int): seq<int>
    requires 0 <= k < |c|
  {
    c[k := (c[k] + 1) % WORD]
  }

  ghost predicate Indices(ks: seq<int>, n: int) {
    forall j | 0 <= j < |ks| :: 0 <= ks[j] < n
  }

  /** The counters after one increment at each index of `ks`. */
  ghost function Run(c: seq<int>, ks: seq<int>): (c': seq<int>)
    requires Indices(ks, |c|)
    ensures |c'| == |c|
  {
    if ks == [] then c else Bumped(Run(c, ks[..|ks| - 1]), ks[|ks| - 1])
  }

  ghost function SumWhere(c: seq<int>, p: int -> bool): int {
    if c == [] then 0
    else SumWhere(c[..|c| - 1], p) + if p(|c| - 1) then c[|c| - 1] else 0
  }

  /** How many elements of `xs` satisfy `p`. */
  ghost function Hits<T>(xs: seq<T>, p: T -> bool): nat {
    if xs == [] then 0
    else Hits(xs[..|xs| - 1], p) + if p(xs[|xs| - 1]) then 1 else 0
  }

  ghost function Is<T>(x: T): T -> bool {
    y => y == x
  }

  ghost function Every(): int -> bool {
    i => true
  }

  ghost predicate SameWord(a: int, b: int) {
    (a - b) % WORD == 0
  }

  function Zeros(n: nat): seq<int> {
    seq(n, _ => 0)
  }

  lemma {:induction false} SumUpdate(c: seq<int>, k: int, v: int, p: int -> bool)
    requires 0 <= k < |c|
    ensures SumWhere(c[k := v], p) == SumWhere(c, p) + if p(k) then v - c[k] else 0
  {
    var n := |c| - 1;
    if k == n {
      assert c[k := v][..n] == c[..n];
    } else {
      assert c[k := v][..n] == c[..n][k := v];
      SumUpdate(c[..n], k, v, p);
    }
  }

  lemma {:induction false} SumZeros(n: nat, p: int -> bool)
    ensures SumWhere(Zeros(n), p) == 0
  {
    if n > 0 {
      assert Zeros(n)[..n - 1] == Zeros(n - 1);
      SumZeros(n - 1, p);
    }
  }

  lemma WordStep(sum: int, hits: int, x: int)
    requires SameWord(sum, hits)
    ensures SameWord(sum + ((x + 1) % WORD - x), hits + 1)
  {
  }

  /** The sum over any selection of counters is, as a word, the number of increments that fell
      into the selection. */
  lemma {:induction false} RunSum(n: nat, ks: seq<int>, p: int -> bool)
    requires Indices(ks, n)
    ensures SameWord(SumWhere(Run(Zeros(n), ks), p), Hits(ks, p))
  {
    if ks == [] {
      SumZeros(n, p);
    } else {
      var m := |ks| - 1;
      RunSum(n, ks[..m], p);
      var c := Run(Zeros(n), ks[..m]);
      SumUpdate(c, ks[m], (c[ks[m]] + 1) % WORD, p);
      WordStep(SumWhere(c, p), Hits(ks[..m], p), c[ks[m]]);
    }
  }

  lemma {:induction false} SumOne(c: seq<int>, k: int)
    requires 0 <= k < |c|
    ensures SumWhere(c, Is(k)) == c[k]
  {
    var n := |c| - 1;
    if k == n {
      SumNone(c[..n], k);
    } else {
      SumOne(c[..n], k);
    }
  }

  lemma {:induction false} SumNone(c: seq<int>, k: int)
    requires |c| <= k
    ensures SumWhere(c, Is(k)) == 0
  {
    if c != [] {
      SumNone(c[..|c| - 1], k);
    }
  }

  lemma {:induction false} RunWords(n: nat, ks: seq<int>, k: int)
    requires Indices(ks, n) && 0 <= k < n
    ensures 0 <= Run(Zeros(n), ks)[k] < WORD
  {
    if ks != [] {
      RunWords(n, ks[..|ks| - 1], k);
    }
  }

  /** Each counter holds, modulo 2^64, the number of increments at its index. */
  lemma {:induction false} RunCounter(n: nat, ks: seq<int>, k: int)
    requires Indices(ks, n) && 0 <= k < n
    ensures Run(Zeros(n), ks)[k] == Hits(ks, Is(k)) % WORD
  {
    RunSum(n, ks, Is(k));
    SumOne(Run(Zeros(n), ks), k);
    RunWords(n, ks, k);
  }

  lemma {:induction false} HitsAll<T>(xs: seq<T>, p: T -> bool)
    requires forall j | 0 <= j < |xs| :: p(xs[j])
    ensures Hits(xs, p) == |xs|
  {
    if xs != [] {
      HitsAll(xs[..|xs| - 1], p);
    }
  }

  /** The sum of all counters is, as a word, the number of increments. */
  lemma {:induction false} RunTotal(n: nat, ks: seq<int>)
    requires Indices(ks, n)
    ensures SameWord(SumWhere(Run(Zeros(n), ks), Every()), |ks|)
  {
    RunSum(n, ks, Every());
    HitsAll(ks, Every());
  }

  // ----- calls with bucket tuples

  ghost predicate Calls(dims: seq<int>, calls: seq<seq<int>>) {
    forall j | 0 <= j < |calls| :: InRange(dims, calls[j])
  }

  ghost function IndexOf(dims: seq<int>, bs: seq<int>): int {
    if |bs| == |dims| then RawIndex(dims, 0, bs) else 0
  }

  /** The raw indices of a run of calls. */
  ghost function CallIndices(dims: seq<int>, calls: seq<seq<int>>): (ks: seq<int>)
    requires Positive(dims) && Calls(dims, calls)
    ensures |ks| == |calls| && Indices(ks, Product(dims))
  {
    forall j | 0 <= j < |calls|
      ensures 0 <= IndexOf(dims, calls[j]) < Product(dims)
    {
      RawIndexBounds(dims, 0, calls[j]);
    }
    seq(|calls|, j requires 0 <= j < |calls| => IndexOf(dims, calls[j]))
  }

  ghost function After(dims: seq<int>, calls: seq<seq<int>>): (c: seq<int>)
    requires Positive(dims) && Calls(dims, calls)
    ensures |c| == Product(dims)
  {
    ProductPositive(dims);
    Run(Zeros(Product(dims)), CallIndices(dims, calls))
  }

  lemma AfterNext(dims: seq<int>, calls: seq<seq<int>>, k: nat)
    requires Positive(dims) && Calls(dims, calls) && k < |calls|
    ensures 0 <= IndexOf(dims, calls[k]) < Product(dims)
    ensures After(dims, calls[..k + 1]) == Bumped(After(dims, calls[..k]), IndexOf(dims, calls[k]))
  {
    var ks := CallIndices(dims, calls[..k + 1]);
    assert ks[..k] == CallIndices(dims, calls[..k]) && ks[k] == IndexOf(dims, calls[k]);
  }

  /** Selecting calls by their tuple or by their index is the same. */
  lemma {:induction false} HitsByIndex(dims: seq<int>, calls: seq<seq<int>>, p: int -> bool, q: seq<int> -> bool)
    requires Positive(dims) && Calls(dims, calls)
    requires forall bs :: InRange(dims, bs) ==> p(IndexOf(dims, bs)) == q(bs)
    ensures Hits(CallIndices(dims, calls), p) == Hits(calls, q)
  {
    if calls != [] {
      var m := |calls| - 1;
      assert CallIndices(dims, calls)[..m] == CallIndices(dims, calls[..m]);
      HitsByIndex(dims, calls[..m], p, q);
    }
  }

  /** From zero, the counter of a tuple holds the number of calls with that tuple. */
  lemma {:induction false} CounterCountsCalls(dims: seq<int>, calls: seq<seq<int>>, bs: seq<int>)
    requires Positive(dims) && Calls(dims, calls) && InRange(dims, bs)
    ensures 0 <= IndexOf(dims, bs) < Product(dims)
    ensures After(dims, calls)[IndexOf(dims, bs)] == Hits(calls, Is(bs)) % WORD
  {
    var k := IndexOf(dims, bs);
    RawIndexBounds(dims, 0, bs);
    RunCounter(Product(dims), CallIndices(dims, calls), k);
    forall cs | InRange(dims, cs)
      ensures (IndexOf(dims, cs) == k) == (cs == bs)
    {
      UnflattenRawIndex(dims, cs);
      UnflattenRawIndex(dims, bs);
    }
    HitsByIndex(dims, calls, Is(k), Is(bs));
  }

  // ----- summing out axes

  /** The components of `xs` that `keep` selects. */
  ghost function Project<T>(keep: seq<bool>, xs: seq<T>): seq<T>
    requires |keep| == |xs|
  {
    if keep == [] then []
    else (if keep[0] then [xs[0]] else []) + Project(keep[1..], xs[1..])
  }

  lemma {:induction false} ProjectInRange(keep: seq<bool>, dims: seq<int>, bs: seq<int>)
    requires |keep| == |dims| && Positive(dims) && InRange(dims, bs)
    ensures Positive(Project(keep, dims)) && InRange(Project(keep, dims), Project(keep, bs))
  {
    if keep != [] {
      ProjectInRange(keep[1..], dims[1..], bs[1..]);
    }
  }

  ghost function Projection(keep: seq<bool>, bs: seq<int>): seq<int> {
    if |keep| == |bs| then Project(keep, bs) else []
  }

  ghost function ProjectCalls(keep: seq<bool>, calls: seq<seq<int>>): seq<seq<int>> {
    seq(|calls|, j requires 0 <= j < |calls| => Projection(keep, calls[j]))
  }

  ghost function ProjectsTo(keep: seq<bool>, t: seq<int>): seq<int> -> bool {
    bs => Projection(keep, bs) == t
  }

  lemma {:induction false} HitsProjected(keep: seq<bool>, calls: seq<seq<int>>, t: seq<int>)
    ensures Hits(ProjectCalls(keep, calls), Is(t)) == Hits(calls, ProjectsTo(keep, t))
  {
    if calls != [] {
      var m := |calls| - 1;
      assert ProjectCalls(keep, calls)[..m] == ProjectCalls(keep, calls[..m]);
      HitsProjected(keep, calls[..m], t);
    }
  }

  /** The counters that agree with `t` on the kept axes. */
  ghost function Slice(keep: seq<bool>, dims: seq<int>, t: seq<int>): int -> bool
    requires Positive(dims)
  {
    i => Projection(keep, Unflatten(dims, i)) == t
  }

  lemma SameWordMod(a: int, b: int)
    requires SameWord(a, b)
    ensures SameWord(a, b % WORD)
  {
  }

  lemma {:induction false} SliceSum(keep: seq<bool>, dims: seq<int>, calls: seq<seq<int>>, t: seq<int>)
    requires |keep| == |dims| && Positive(dims) && Calls(dims, calls)
    ensures SameWord(SumWhere(After(dims, calls), Slice(keep, dims, t)), Hits(calls, ProjectsTo(keep, t)))
  {
    var p := Slice(keep, dims, t);
    var q := ProjectsTo(keep, t);
    forall cs | InRange(dims, cs)
      ensures p(IndexOf(dims, cs)) == q(cs)
    {
      UnflattenRawIndex(dims, cs);
    }
    HitsByIndex(dims, calls, p, q);
    ProductPositive(dims);
    RunSum(Product(dims), CallIndices(dims, calls), p);
  }

  lemma {:induction false} ProjectedCalls(keep: seq<bool>, dims: seq<int>, calls: seq<seq<int>>)
    requires |keep| == |dims| && Positive(dims) && Calls(dims, calls)
    ensures Calls(Project(keep, dims), ProjectCalls(keep, calls))
  {
    forall j | 0 <= j < |calls|
      ensures InRange(Project(keep, dims), ProjectCalls(keep, calls)[j])
    {
      ProjectInRange(keep, dims, calls[j]);
    }
  }

  /** Summing the counters over the dropped axes gives, as a word, the counter that a histogram
      with only the kept axes holds after the projected calls. */
  lemma {:induction false} SummingOutAxes(keep: seq<bool>, dims: seq<int>, calls: seq<seq<int>>, t: seq<int>)
    requires |keep| == |dims| && Positive(dims) && Calls(dims, calls)
    requires Positive(Project(keep, dims)) && InRange(Project(keep, dims), t)
    ensures Calls(Project(keep, dims), ProjectCalls(keep, calls))
    ensures 0 <= IndexOf(Project(keep, dims), t) < Product(Project(keep, dims))
    ensures SameWord(SumWhere(After(dims, calls), Slice(keep, dims, t)),
                     After(Project(keep, dims), ProjectCalls(keep, calls))[IndexOf(Project(keep, dims), t)])
  {
    ProjectedCalls(keep, dims, calls);
    var dims', calls' := Project(keep, dims), ProjectCalls(keep, calls);
    CounterCountsCalls(dims', calls', t);
    var sum, hits := SumWhere(After(dims, calls), Slice(keep, dims, t)), Hits(calls, ProjectsTo(keep, t));
    var counter := After(dims', calls')[IndexOf(dims', t)];
    assert counter == hits % WORD by {
      HitsProjected(keep, calls, t);
    }
    assert SameWord(sum, hits) by {
      SliceSum(keep, dims, calls, t);
    }
    SameWordMod(sum, hits);
  }
}
