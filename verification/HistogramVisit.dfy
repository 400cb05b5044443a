/** The nested report of a histogram: a stream of enter, value and leave calls that spells out
    one tree, with the counters at its leaves. */
module HistogramVisit {
  import opened MixedRadix
  import opened Options
  import opened Sequences

  datatype Call = Enter(level: nat) | Value(value: int) | Leave(level: nat)

  datatype Tree = Leaf(value: int) | Node(children: seq<Tree>)

  datatype Parsed<+T> = Bad | Good(value: T, rest: seq<Call>)

  // ----- the tree of counters

  /** The tree over the axes `dims` for the block of counters number `start`. */
  ghost function TreeOf(dims: seq<int>, raw: seq<int>, start: int): Tree
    requires Positive(dims) && 0 <= start && (start + 1) * Product(dims) <= |raw|
    decreases |dims|, 0
  {
    if dims == [] then Leaf(raw[start]) else Node(Trees(dims, raw, start, dims[0]))
  }

  /** The first `n` subtrees. */
  ghost function Trees(dims: seq<int>, raw: seq<int>, start: int, n: int): (ts: seq<Tree>)
    requires Positive(dims) && 0 <= start && (start + 1) * Product(dims) <= |raw|
    requires dims != [] && 0 <= n <= dims[0]
    ensures |ts| == n
    decreases |dims| - 1, n + 1
  {
    if n == 0 then []
    else
      ProductPositive(dims[1..]);
      SubBlock(start, dims[0], n - 1, Product(dims[1..]));
      MulMono(0, start, dims[0]);
      Trees(dims, raw, start, n - 1) + [TreeOf(dims[1..], raw, dims[0] * start + n - 1)]
  }

  /** The value at a position, one child number per level. */
  ghost predicate HasAt(t: Tree, bs: seq<int>, v: int)
    decreases |bs|
  {
    if bs == [] then t == Leaf(v)
    else t.Node? && 0 <= bs[0] < |t.children| && HasAt(t.children[bs[0]], bs[1..], v)
  }

  lemma {:induction false} TreesAt(dims: seq<int>, raw: seq<int>, start: int, n: int, i: int)
    requires Positive(dims) && 0 <= start && (start + 1) * Product(dims) <= |raw|
    requires dims != [] && 0 <= i < n <= dims[0]
    ensures 0 <= dims[0] * start + i && (dims[0] * start + i + 1) * Product(dims[1..]) <= |raw|
    ensures Trees(dims, raw, start, n)[i] == TreeOf(dims[1..], raw, dims[0] * start + i)
    decreases n
  {
    ProductPositive(dims[1..]);
    SubBlock(start, dims[0], i, Product(dims[1..]));
    MulMono(0, start, dims[0]);
    if i < n - 1 {
      TreesAt(dims, raw, start, n - 1, i);
    }
  }

  /** The leaf at a bucket tuple is the counter with the tuple's raw index. */
  lemma {:induction false} LeafIsCounter(dims: seq<int>, raw: seq<int>, start: int, bs: seq<int>)
    requires Positive(dims) && 0 <= start && (start + 1) * Product(dims) <= |raw| && InRange(dims, bs)
    ensures 0 <= RawIndex(dims, start, bs) < |raw|
    ensures HasAt(TreeOf(dims, raw, start), bs, raw[RawIndex(dims, start, bs)])
    decreases |dims|
  {
    if dims != [] {
      TreesAt(dims, raw, start, dims[0], bs[0]);
      LeafIsCounter(dims[1..], raw, dims[0] * start + bs[0], bs[1..]);
    }
  }

  // ----- the stream of calls

  ghost function Spelled(t: Tree, level: nat): seq<Call>
    decreases t, 0
  {
    match t
    case Leaf(v) => [Value(v)]
    case Node(ts) => [Enter(level)] + SpelledAll(ts, level + 1) + [Leave(level)]
  }

  ghost function SpelledAll(ts: seq<Tree>, level: nat): seq<Call>
    decreases ts, 1
  {
    if ts == [] then []
    else SpelledAll(ts[..|ts| - 1], level) + Spelled(ts[|ts| - 1], level)
  }

  ghost function Values(calls: seq<Call>): seq<int> {
    if calls == [] then []
    else (if calls[0].Value? then [calls[0].value] else []) + Values(calls[1..])
  }

  lemma {:induction false} ValuesAppend(a: seq<Call>, b: seq<Call>)
    ensures Values(a + b) == Values(a) + Values(b)
  {
    if a == [] {
      assert a + b == b;
    } else {
      assert (a + b)[1..] == a[1..] + b && (a + b)[0] == a[0];
      ValuesAppend(a[1..], b);
      Associate(if a[0].Value? then [a[0].value] else [], Values(a[1..]), Values(b));
    }
  }

  /** The counters of block `start` of size `size`. */
  ghost predicate IsBlock(vs: seq<int>, raw: seq<int>, lo: int, hi: int) {
    0 <= lo <= hi <= |raw| && vs == raw[lo..hi]
  }

  lemma BlockAppend(vs: seq<int>, ws: seq<int>, raw: seq<int>, lo: int, mid: int, hi: int)
    requires IsBlock(vs, raw, lo, mid) && IsBlock(ws, raw, mid, hi)
    ensures IsBlock(vs + ws, raw, lo, hi)
  {
  }

  /** The reported values are the block's counters, each once, in raw-index order. */
  lemma {:induction false} ValuesInOrder(dims: seq<int>, raw: seq<int>, start: int, level: nat)
    requires Positive(dims) && 0 <= start && (start + 1) * Product(dims) <= |raw|
    ensures IsBlock(Values(Spelled(TreeOf(dims, raw, start), level)), raw,
                    start * Product(dims), (start + 1) * Product(dims))
    decreases |dims|, 0
  {
    if dims == [] {
      assert Values([Value(raw[start])]) == [raw[start]] + Values([]);
    } else {
      var d, P := dims[0], Product(dims[1..]);
      var body := SpelledAll(Trees(dims, raw, start, d), level + 1);
      RowValues(dims, raw, start, d, level + 1);
      NodeValues(body, level);
      BlockOffset(start, d, 0, P);
      BlockOffset(start, d, d, P);
      Distribute(start, 1, d * P);
    }
  }

  lemma NodeValues(body: seq<Call>, level: nat)
    ensures Values([Enter(level)] + body + [Leave(level)]) == Values(body)
  {
    ValuesAppend([Enter(level)] + body, [Leave(level)]);
    ValuesAppend([Enter(level)], body);
    assert Values([Enter(level)]) == Values([]) && Values([Leave(level)]) == Values([]);
  }

  lemma BlockOffset(start: int, d: int, k: int, P: int)
    ensures (d * start + k) * P == start * (d * P) + k * P
  {
  }

  lemma RowBegins(dims: seq<int>, raw: seq<int>, start: int)
    requires Positive(dims) && 0 <= start && (start + 1) * Product(dims) <= |raw| && dims != []
    ensures 0 <= (dims[0] * start + 0) * Product(dims[1..]) <= |raw|
  {
    var P := Product(dims[1..]);
    ProductPositive(dims[1..]);
    MulMono(0, start, dims[0]);
    SubBlock(start, dims[0], 0, P);
    MulMono(0, dims[0] * start, P);
    MulMono(dims[0] * start, dims[0] * start + 1, P);
  }

  lemma {:induction false} RowValues(dims: seq<int>, raw: seq<int>, start: int, n: int, level: nat)
    requires Positive(dims) && 0 <= start && (start + 1) * Product(dims) <= |raw|
    requires dims != [] && 0 <= n <= dims[0]
    ensures IsBlock(Values(SpelledAll(Trees(dims, raw, start, n), level)), raw,
                    (dims[0] * start + 0) * Product(dims[1..]), (dims[0] * start + n) * Product(dims[1..]))
    decreases |dims| - 1, n + 1
  {
    var first, P := dims[0] * start, Product(dims[1..]);
    if n == 0 {
      RowBegins(dims, raw, start);
    } else {
      TreesAt(dims, raw, start, n, n - 1);
      var ts := Trees(dims, raw, start, n);
      assert ts[..n - 1] == Trees(dims, raw, start, n - 1);
      ValuesAppend(SpelledAll(ts[..n - 1], level), Spelled(ts[n - 1], level));
      RowValues(dims, raw, start, n - 1, level);
      ValuesInOrder(dims[1..], raw, first + n - 1, level);
      assert first + (n - 1) == first + n - 1 && first + n - 1 + 1 == first + n;
      BlockAppend(Values(SpelledAll(ts[..n - 1], level)), Values(Spelled(ts[n - 1], level)), raw,
                  (first + 0) * P, (first + n - 1) * P, (first + n) * P);
    }
  }

  // ----- levels

  /** The level after some calls; None when a call names another level than the one it is made on, or
      a value is reported above the innermost level. */
  function LevelAfter(calls: seq<Call>, level: nat, innermost: nat): Option<nat> {
    if calls == [] then Some(level)
    else
      match calls[0]
      case Enter(l) => if l == level then LevelAfter(calls[1..], level + 1, innermost) else None
      case Value(_) => if level == innermost then LevelAfter(calls[1..], level, innermost) else None
      case Leave(l) => if l + 1 == level then LevelAfter(calls[1..], l, innermost) else None
  }

  lemma {:induction false} LevelAppend(a: seq<Call>, b: seq<Call>, level: nat, innermost: nat)
    ensures LevelAfter(a + b, level, innermost) ==
            match LevelAfter(a, level, innermost)
            case None => None
            case Some(l) => LevelAfter(b, l, innermost)
    decreases |a|
  {
    if a == [] {
      assert a + b == b;
    } else {
      assert (a + b)[1..] == a[1..] + b;
      match a[0]
      case Enter(l) => LevelAppend(a[1..], b, level + 1, innermost);
      case Value(_) => LevelAppend(a[1..], b, level, innermost);
      case Leave(l) => LevelAppend(a[1..], b, l, innermost);
    }
  }

  lemma LevelFramed(body: seq<Call>, level: nat, innermost: nat)
    requires LevelAfter(body, level + 1, innermost) == Some(level + 1)
    ensures LevelAfter([Enter(level)] + body + [Leave(level)], level, innermost) == Some(level)
  {
    var calls := [Enter(level)] + body + [Leave(level)];
    assert calls[1..] == body + [Leave(level)];
    LevelAppend(body, [Leave(level)], level + 1, innermost);
    assert [Leave(level)][1..] == [];
  }

  /** Every call is made with its level, and the values come below all axes. */
  lemma {:induction false} LevelsRight(dims: seq<int>, raw: seq<int>, start: int, level: nat)
    requires Positive(dims) && 0 <= start && (start + 1) * Product(dims) <= |raw|
    ensures LevelAfter(Spelled(TreeOf(dims, raw, start), level), level, level + |dims|) == Some(level)
    decreases |dims|, 0
  {
    if dims == [] {
      assert [Value(raw[start])][1..] == [];
    } else {
      RowLevels(dims, raw, start, dims[0], level + 1);
      LevelFramed(SpelledAll(Trees(dims, raw, start, dims[0]), level + 1), level, level + |dims|);
    }
  }

  lemma {:induction false} RowLevels(dims: seq<int>, raw: seq<int>, start: int, n: int, level: nat)
    requires Positive(dims) && 0 <= start && (start + 1) * Product(dims) <= |raw|
    requires dims != [] && 0 <= n <= dims[0]
    ensures LevelAfter(SpelledAll(Trees(dims, raw, start, n), level), level, level + |dims| - 1) == Some(level)
    decreases |dims| - 1, n + 1
  {
    if n > 0 {
      TreesAt(dims, raw, start, n, n - 1);
      var ts := Trees(dims, raw, start, n);
      assert ts[..n - 1] == Trees(dims, raw, start, n - 1);
      RowLevels(dims, raw, start, n - 1, level);
      LevelsRight(dims[1..], raw, dims[0] * start + n - 1, level);
      LevelAppend(SpelledAll(ts[..n - 1], level), Spelled(ts[n - 1], level), level, level + |dims| - 1);
    }
  }

  // ----- the stream spells out exactly one tree

  function Parse(calls: seq<Call>): (r: Parsed<Tree>)
    ensures r.Good? ==> |r.rest| < |calls|
    decreases |calls|, 0
  {
    if calls == [] then Bad
    else
      match calls[0]
      case Value(v) => Good(Leaf(v), calls[1..])
      case Leave(_) => Bad
      case Enter(level) =>
        match ParseAll(calls[1..])
        case Bad => Bad
        case Good(ts, rest) =>
          if rest != [] && rest[0] == Leave(level) then Good(Node(ts), rest[1..]) else Bad
  }

  function ParseAll(calls: seq<Call>): (r: Parsed<seq<Tree>>)
    ensures r.Good? ==> |r.rest| <= |calls|
    decreases |calls|, 1
  {
    if calls == [] || calls[0].Leave? then Good([], calls)
    else
      match Parse(calls)
      case Bad => Bad
      case Good(t, rest) =>
        match ParseAll(rest)
        case Bad => Bad
        case Good(ts, rest') => Good([t] + ts, rest')
  }

  lemma {:induction false} SpelledAllCons(ts: seq<Tree>, level: nat)
    requires ts != []
    ensures SpelledAll(ts, level) == Spelled(ts[0], level) + SpelledAll(ts[1..], level)
    decreases |ts|
  {
    var n := |ts| - 1;
    var front, back := ts[..n], ts[1..];
    if n == 0 {
      assert SpelledAll(front, level) == [] && SpelledAll(back, level) == [];
    } else {
      SpelledAllCons(front, level);
      assert front[1..] == back[..n - 1];
      Associate(Spelled(ts[0], level), SpelledAll(back[..n - 1], level), Spelled(ts[n], level));
    }
  }

  lemma {:induction false} ParseSpelled(t: Tree, level: nat, rest: seq<Call>)
    ensures Parse(Spelled(t, level) + rest) == Good(t, rest)
    decreases t, 0
  {
    match t
    case Leaf(v) =>
      assert ([Value(v)] + rest)[1..] == rest;
    case Node(ts) =>
      var tail := [Leave(level)] + rest;
      var calls := Spelled(t, level) + rest;
      assert calls[1..] == SpelledAll(ts, level + 1) + tail;
      ParseAllSpelled(ts, level + 1, tail);
      assert tail[1..] == rest;
  }

  lemma {:induction false} ParseAllSpelled(ts: seq<Tree>, level: nat, rest: seq<Call>)
    requires rest != [] && rest[0].Leave?
    ensures ParseAll(SpelledAll(ts, level) + rest) == Good(ts, rest)
    decreases ts, 1
  {
    if ts == [] {
      assert SpelledAll(ts, level) + rest == rest;
    } else {
      SpelledAllCons(ts, level);
      var more := SpelledAll(ts[1..], level) + rest;
      assert SpelledAll(ts, level) + rest == Spelled(ts[0], level) + more;
      ParseSpelled(ts[0], level, more);
      ParseAllSpelled(ts[1..], level, rest);
      SpelledStarts(ts[0], level);
      assert ts == [ts[0]] + ts[1..];
    }
  }

  lemma SpelledStarts(t: Tree, level: nat)
    ensures Spelled(t, level) != [] && !Spelled(t, level)[0].Leave?
  {
  }
}
