/** The state hierarchy that the diagram script reads, and the nested clusters it draws. */
module StateChart {
  import opened Options
  import opened Sequences

  type Id = string

  /** `states` maps a state to its parent, `machines` a machine to its initial state, `contents`
      a parent to its states in the order of their declarations. */
  datatype Chart = Chart(states: map<Id, Id>, machines: map<Id, Id>, contents: map<Id, seq<Id>>)

  /** A parsed declaration; an empty `initial` of a substate means that it has none. */
  datatype Decl = Machine(name: Id, initial: Id) | Substate(name: Id, parent: Id, initial: Id)

  function ChildrenOf(ch: Chart, p: Id): seq<Id> {
    if p in ch.contents then ch.contents[p] else []
  }

  function Declared(ch: Chart, d: Decl): Chart {
    match d
    case Machine(n, i) => ch.(machines := ch.machines[n := i])
    case Substate(n, p, i) =>
      Chart(ch.states[n := p],
            if i != "" then ch.machines[n := i] else ch.machines,
            ch.contents[p := ChildrenOf(ch, p) + [n]])
  }

  predicate Distinct(xs: seq<Id>) {
    forall j, k | 0 <= j < k < |xs| :: xs[j] != xs[k]
  }

  predicate Unrepeated(ch: Chart) {
    forall p <- ch.contents :: Distinct(ch.contents[p])
  }

  predicate Pointing(ch: Chart) {
    forall p, c | p in ch.contents && c in ch.contents[p] :: c in ch.states && ch.states[c] == p
  }

  predicate Listing(ch: Chart) {
    forall c <- ch.states :: c in ChildrenOf(ch, ch.states[c])
  }

  /** The contents are exactly the inverse of the parent map. */
  predicate Inverse(ch: Chart) {
    Unrepeated(ch) && Pointing(ch) && Listing(ch)
  }

  /** A declaration of a state that already stands somewhere makes the tables disagree. */
  lemma RedeclaredBreaks(ch: Chart, n: Id, p: Id, i: Id, q: Id)
    requires n in ChildrenOf(ch, q)
    ensures !Inverse(Declared(ch, Substate(n, p, i)))
  {
    var ch' := Declared(ch, Substate(n, p, i));
    var before, after := ChildrenOf(ch, p), ch'.contents[p];
    if q == p {
      var j :| 0 <= j < |before| && before[j] == n;
      assert after[j] == after[|before|];
    } else {
      assert q in ch'.contents && n in ch'.contents[q] && ch'.states[n] != q;
    }
  }

  lemma NewPointing(ch: Chart, n: Id, p: Id, i: Id)
    requires Pointing(ch) && n !in ch.states
    ensures Pointing(Declared(ch, Substate(n, p, i)))
  {
  }

  /** A declared state always stands in the contents of its parent. */
  lemma DeclaredListing(ch: Chart, d: Decl)
    requires Listing(ch)
    ensures Listing(Declared(ch, d))
  {
    var ch' := Declared(ch, d);
    forall c <- ch'.states
      ensures c in ChildrenOf(ch', ch'.states[c])
    {
      if !(d.Substate? && c == d.name) {
        assert c in ChildrenOf(ch, ch.states[c]);
      }
    }
  }

  lemma NewDeclared(ch: Chart, n: Id, p: Id, i: Id)
    requires Inverse(ch) && n !in ch.states
    ensures Inverse(Declared(ch, Substate(n, p, i)))
  {
    var ch' := Declared(ch, Substate(n, p, i));
    NewPointing(ch, n, p, i);
    DeclaredListing(ch, Substate(n, p, i));
    assert Distinct(ch'.contents[p]) by {
      assert p in ch.contents ==> n !in ch.contents[p];
    }
  }

  /** A declaration keeps that exactly when it does not declare a state again. */
  lemma DeclaredInverseIff(ch: Chart, d: Decl)
    requires Inverse(ch)
    ensures Inverse(Declared(ch, d)) <==> (d.Substate? ==> d.name !in ch.states)
  {
    if d.Substate? {
      if d.name in ch.states {
        RedeclaredBreaks(ch, d.name, d.parent, d.initial, ch.states[d.name]);
      } else {
        NewDeclared(ch, d.name, d.parent, d.initial);
      }
    }
  }

  // ----- a run of declarations

  const NO_STATES: Chart := Chart(map[], map[], map[])

  /** The tables after some declarations. */
  function DeclaredAll(ds: seq<Decl>): Chart {
    if ds == [] then NO_STATES else Declared(DeclaredAll(ds[..|ds| - 1]), ds[|ds| - 1])
  }

  /** The declaration names `n` and gives it an initial state. */
  predicate Initializes(d: Decl, n: Id) {
    d.name == n && (d.Machine? || d.initial != "")
  }

  /** The declaration puts `n` below a parent. */
  predicate Places(d: Decl, n: Id) {
    d.Substate? && d.name == n
  }

  /** The names declared below `p`, in the order of their declarations. */
  function PlacedIn(ds: seq<Decl>, p: Id): seq<Id> {
    if ds == [] then []
    else
      var d := ds[|ds| - 1];
      PlacedIn(ds[..|ds| - 1], p) + if d.Substate? && d.parent == p then [d.name] else []
  }

  /** `k` is the last of the declarations with `n` in the role. */
  predicate LastOf(ds: seq<Decl>, n: Id, k: int, role: (Decl, Id) -> bool) {
    0 <= k < |ds| && role(ds[k], n) && forall j | k < j < |ds| :: !role(ds[j], n)
  }

  lemma LastBefore(ds: seq<Decl>, d: Decl, n: Id, k: int, role: (Decl, Id) -> bool)
    requires LastOf(ds + [d], n, k, role) && k < |ds|
    ensures !role(d, n) && LastOf(ds, n, k, role)
  {
    var all := ds + [d];
    assert all[|ds|] == d && all[k] == ds[k];
    forall j | k < j < |ds|
      ensures !role(ds[j], n)
    {
      assert all[j] == ds[j];
    }
  }

  /** A state is a machine exactly when some declaration gives it an initial state, and it has the
      initial state of the last such declaration. */
  lemma {:induction false} MachinesDeclared(ds: seq<Decl>, n: Id, k: int)
    ensures n in DeclaredAll(ds).machines <==> exists j | 0 <= j < |ds| :: Initializes(ds[j], n)
    ensures LastOf(ds, n, k, Initializes) ==>
              n in DeclaredAll(ds).machines && DeclaredAll(ds).machines[n] == ds[k].initial
  {
    if ds != [] {
      var front, d := ds[..|ds| - 1], ds[|ds| - 1];
      MachinesDeclared(front, n, k);
      assert ds == front + [d];
      if LastOf(ds, n, k, Initializes) && k < |front| {
        LastBefore(front, d, n, k, Initializes);
      }
    }
  }

  /** A state has the parent of its last declaration. */
  lemma {:induction false} ParentsDeclared(ds: seq<Decl>, n: Id, k: int)
    ensures n in DeclaredAll(ds).states <==> exists j | 0 <= j < |ds| :: Places(ds[j], n)
    ensures LastOf(ds, n, k, Places) ==>
              n in DeclaredAll(ds).states && DeclaredAll(ds).states[n] == ds[k].parent
  {
    if ds != [] {
      var front, d := ds[..|ds| - 1], ds[|ds| - 1];
      ParentsDeclared(front, n, k);
      assert ds == front + [d];
      if LastOf(ds, n, k, Places) && k < |front| {
        LastBefore(front, d, n, k, Places);
      }
    }
  }

  /** The contents of a state are the names declared below it, in order; one without is not listed. */
  lemma {:induction false} ContentsDeclared(ds: seq<Decl>, p: Id)
    ensures ChildrenOf(DeclaredAll(ds), p) == PlacedIn(ds, p)
    ensures p in DeclaredAll(ds).contents <==> PlacedIn(ds, p) != []
  {
    if ds != [] {
      ContentsDeclared(ds[..|ds| - 1], p);
    }
  }

  /** The tables hold for `n` the last initial state and the last parent declared for it, and the
      names declared below it. */
  ghost predicate HoldsFor(ds: seq<Decl>, ch: Chart, n: Id) {
    && (n in ch.machines <==> exists k | 0 <= k < |ds| :: Initializes(ds[k], n))
    && (n in ch.states <==> exists k | 0 <= k < |ds| :: Places(ds[k], n))
    && (forall k | LastOf(ds, n, k, Initializes) :: n in ch.machines && ch.machines[n] == ds[k].initial)
    && (forall k | LastOf(ds, n, k, Places) :: n in ch.states && ch.states[n] == ds[k].parent)
    && ChildrenOf(ch, n) == PlacedIn(ds, n)
    && (n in ch.contents <==> PlacedIn(ds, n) != [])
  }

  lemma DeclaredHolds(ds: seq<Decl>, n: Id)
    ensures HoldsFor(ds, DeclaredAll(ds), n)
  {
    forall k | LastOf(ds, n, k, Initializes)
      ensures n in DeclaredAll(ds).machines && DeclaredAll(ds).machines[n] == ds[k].initial
    {
      MachinesDeclared(ds, n, k);
    }
    forall k | LastOf(ds, n, k, Places)
      ensures n in DeclaredAll(ds).states && DeclaredAll(ds).states[n] == ds[k].parent
    {
      ParentsDeclared(ds, n, k);
    }
    MachinesDeclared(ds, n, 0);
    ParentsDeclared(ds, n, 0);
    ContentsDeclared(ds, n);
  }

  /** No two of the declarations declare the same state. */
  predicate DeclaredOnce(ds: seq<Decl>) {
    forall j, k | 0 <= j < k < |ds| && ds[j].Substate? && ds[k].Substate? :: ds[j].name != ds[k].name
  }

  /** Tables that do not agree never do again. */
  lemma NeverRepaired(ch: Chart, d: Decl)
    requires Listing(ch) && Inverse(Declared(ch, d))
    ensures Inverse(ch)
  {
    if d.Substate? {
      var ch' := Declared(ch, d);
      forall q <- ch.contents
        ensures Distinct(ch.contents[q])
      {
        assert Distinct(ch'.contents[q]) && ch.contents[q] <= ch'.contents[q];
      }
      forall q, c | q in ch.contents && c in ch.contents[q]
        ensures c in ch.states && ch.states[c] == q
      {
        if c == d.name {
          RedeclaredBreaks(ch, d.name, d.parent, d.initial, q);
        } else {
          assert q in ch'.contents && c in ch'.contents[q] && ch'.states[c] == q;
        }
      }
    }
  }

  lemma {:induction false} AllListing(ds: seq<Decl>)
    ensures Listing(DeclaredAll(ds))
  {
    if ds != [] {
      AllListing(ds[..|ds| - 1]);
      DeclaredListing(DeclaredAll(ds[..|ds| - 1]), ds[|ds| - 1]);
    }
  }

  lemma OnceNext(ds: seq<Decl>, d: Decl)
    ensures DeclaredOnce(ds + [d]) <==>
            DeclaredOnce(ds) && (d.Substate? ==> forall k | 0 <= k < |ds| :: ds[k].Substate? ==> ds[k].name != d.name)
  {
    var all := ds + [d];
    assert forall k | 0 <= k < |ds| :: all[k] == ds[k];
    if DeclaredOnce(all) && d.Substate? {
      forall k | 0 <= k < |ds| && ds[k].Substate?
        ensures ds[k].name != d.name
      {
        assert all[k].name != all[|ds|].name;
      }
    }
    if DeclaredOnce(all) {
      forall j, k | 0 <= j < k < |ds| && ds[j].Substate? && ds[k].Substate?
        ensures ds[j].name != ds[k].name
      {
        assert all[j].name != all[k].name;
      }
    }
  }

  /** After any declarations, the tables agree if and only if no state was declared twice. */
  lemma {:induction false} DeclaredOnceIff(ds: seq<Decl>)
    ensures Inverse(DeclaredAll(ds)) <==> DeclaredOnce(ds)
  {
    if ds != [] {
      var front, d := ds[..|ds| - 1], ds[|ds| - 1];
      var ch := DeclaredAll(front);
      DeclaredOnceIff(front);
      AllListing(front);
      ParentsDeclared(front, d.name, 0);
      assert ds == front + [d];
      OnceNext(front, d);
      if Inverse(ch) {
        DeclaredInverseIff(ch, d);
      } else if Inverse(Declared(ch, d)) {
        NeverRepaired(ch, d);
      }
    }
  }

  // ----- hierarchy

  ghost predicate HeightedBy(ch: Chart, height: Id -> nat) {
    forall p, c | p in ch.contents && c in ch.contents[p] :: height(c) < height(p)
  }

  ghost predicate Hierarchy(ch: Chart) {
    Inverse(ch) && exists height: Id -> nat :: HeightedBy(ch, height)
  }

  ghost function Height(ch: Chart): (height: Id -> nat)
    requires Hierarchy(ch)
    ensures HeightedBy(ch, height)
  {
    var height: Id -> nat :| HeightedBy(ch, height);
    height
  }

  /** The `k`-th parent of `x`. */
  function Above(ch: Chart, x: Id, k: nat): Option<Id>
    decreases k
  {
    if k == 0 then Some(x)
    else if x in ch.states then Above(ch, ch.states[x], k - 1)
    else None
  }

  /** `x` is `s` or lies below it. */
  ghost predicate Under(ch: Chart, s: Id, x: Id) {
    exists k: nat :: Above(ch, x, k) == Some(s)
  }

  lemma {:induction false} AboveAdd(ch: Chart, x: Id, j: nat, y: Id, k: nat)
    requires Above(ch, x, j) == Some(y)
    ensures Above(ch, x, j + k) == Above(ch, y, k)
    decreases j
  {
    if j > 0 {
      AboveAdd(ch, ch.states[x], j - 1, y, k);
    }
  }

  lemma {:induction false} AboveHigher(ch: Chart, x: Id, k: nat)
    requires Hierarchy(ch)
    ensures Above(ch, x, k).Some? ==> Height(ch)(x) + k <= Height(ch)(Above(ch, x, k).value)
    decreases k
  {
    if k > 0 && x in ch.states {
      assert x in ChildrenOf(ch, ch.states[x]);
      AboveHigher(ch, ch.states[x], k - 1);
    }
  }

  lemma ChildLower(ch: Chart, p: Id, c: Id)
    requires Hierarchy(ch) && p in ch.contents && c in ch.contents[p]
    ensures c in ch.states && ch.states[c] == p && Height(ch)(c) < Height(ch)(p)
  {
  }

  /** Different children of one state have nothing below them in common. */
  lemma SiblingsApart(ch: Chart, p: Id, c: Id, d: Id, x: Id)
    requires Hierarchy(ch) && p in ch.contents && c in ch.contents[p] && d in ch.contents[p]
    requires Under(ch, c, x) && Under(ch, d, x)
    ensures c == d
  {
    var j: nat :| Above(ch, x, j) == Some(c);
    var k: nat :| Above(ch, x, k) == Some(d);
    if j < k {
      SiblingNotAbove(ch, p, c, d, x, j, k);
    } else if k < j {
      SiblingNotAbove(ch, p, d, c, x, k, j);
    }
  }

  lemma {:induction false} SiblingNotAbove(ch: Chart, p: Id, c: Id, d: Id, x: Id, j: nat, k: nat)
    requires Hierarchy(ch) && p in ch.contents && c in ch.contents[p] && d in ch.contents[p]
    requires Above(ch, x, j) == Some(c) && j < k
    ensures Above(ch, x, k) != Some(d)
  {
    ChildLower(ch, p, c);
    ChildLower(ch, p, d);
    AboveBoth(ch, x, j, c, k);
    AboveHigher(ch, p, k - j - 1);
  }

  lemma {:induction false} AboveBoth(ch: Chart, x: Id, j: nat, c: Id, k: nat)
    requires Above(ch, x, j) == Some(c) && c in ch.states && j < k
    ensures Above(ch, x, k) == Above(ch, ch.states[c], k - j - 1)
  {
    AboveAdd(ch, x, j, c, k - j);
  }

  lemma ChildUnder(ch: Chart, p: Id, c: Id, x: Id)
    requires Inverse(ch) && p in ch.contents && c in ch.contents[p] && Under(ch, c, x)
    ensures Under(ch, p, x)
  {
    var k: nat :| Above(ch, x, k) == Some(c);
    AboveAdd(ch, x, k, c, 1);
    assert Above(ch, c, 1) == Some(p) by {
      assert Above(ch, p, 0) == Some(p);
    }
    assert Above(ch, x, k + 1) == Some(p);
  }

  lemma UnderChild(ch: Chart, p: Id, x: Id)
    requires Hierarchy(ch) && Under(ch, p, x) && x != p
    ensures p in ch.contents && exists c :: c in ch.contents[p] && Under(ch, c, x)
  {
    var k: nat :| Above(ch, x, k) == Some(p);
    var c := LastBelow(ch, x, k, p);
    assert Above(ch, x, k - 1) == Some(c);
    assert c in ChildrenOf(ch, p);
  }

  lemma {:induction false} LastBelow(ch: Chart, x: Id, k: nat, p: Id) returns (c: Id)
    requires Above(ch, x, k) == Some(p) && k > 0
    ensures Above(ch, x, k - 1) == Some(c) && c in ch.states && ch.states[c] == p
    decreases k
  {
    if k == 1 {
      c := x;
      assert Above(ch, ch.states[x], 0) == Some(p);
    } else {
      c := LastBelow(ch, ch.states[x], k - 1, p);
    }
  }

  // ----- the part below a root

  /** The tables agree, and the root is a state of no other. */
  predicate Rooted(ch: Chart, root: Id) {
    Inverse(ch) && root !in ch.states
  }

  lemma {:induction false} RootOnce(ch: Chart, root: Id, x: Id, j: nat, k: nat)
    requires root !in ch.states && Above(ch, x, j) == Some(root) && j < k
    ensures Above(ch, x, k) == None
  {
    AboveAdd(ch, x, j, root, k - j);
  }

  /** The states from `x` up to below its `k`-th parent. */
  function Chain(ch: Chart, x: Id, k: nat): set<Id>
    requires Above(ch, x, k).Some?
    decreases k
  {
    if k == 0 then {} else {x} + Chain(ch, ch.states[x], k - 1)
  }

  lemma {:induction false} ChainAbove(ch: Chart, x: Id, k: nat, y: Id)
    requires Above(ch, x, k).Some? && y in Chain(ch, x, k)
    ensures exists i: nat :: i < k && Above(ch, x, i) == Some(y)
    decreases k
  {
    if y == x {
      assert Above(ch, x, 0) == Some(y);
    } else {
      ChainAbove(ch, ch.states[x], k - 1, y);
      var i: nat :| i < k - 1 && Above(ch, ch.states[x], i) == Some(y);
      assert Above(ch, x, i + 1) == Some(y);
    }
  }

  /** A chain that ends at the root meets no state twice, so it is no longer than the table. */
  lemma {:induction false} ChainSize(ch: Chart, root: Id, x: Id, k: nat)
    requires root !in ch.states && Above(ch, x, k) == Some(root)
    ensures Chain(ch, x, k) <= ch.states.Keys && |Chain(ch, x, k)| == k
    decreases k
  {
    if k > 0 {
      ChainSize(ch, root, ch.states[x], k - 1);
      if x in Chain(ch, ch.states[x], k - 1) {
        ChainAbove(ch, ch.states[x], k - 1, x);
        var i: nat :| i < k - 1 && Above(ch, ch.states[x], i) == Some(x);
        AboveAdd(ch, ch.states[x], i, x, k - 1 - i);
        RootOnce(ch, root, x, k - 1 - i, k);
      }
    }
  }

  lemma StepsBounded(ch: Chart, root: Id, x: Id, k: nat)
    requires root !in ch.states && Above(ch, x, k) == Some(root)
    ensures k <= |ch.states|
  {
    ChainSize(ch, root, x, k);
    SubsetSize(Chain(ch, x, k), ch.states.Keys);
  }

  lemma SubsetSize(a: set<Id>, b: set<Id>)
    requires a <= b
    ensures |a| <= |b|
  {
    assert b == a + (b - a);
  }

  /** How far below the root `x` may still reach. */
  ghost function Room(ch: Chart, root: Id, x: Id): nat {
    if exists k: nat :: k <= |ch.states| && Above(ch, x, k) == Some(root) then
      var k: nat :| k <= |ch.states| && Above(ch, x, k) == Some(root);
      |ch.states| - k
    else 0
  }

  lemma RoomOf(ch: Chart, root: Id, x: Id, k: nat)
    requires root !in ch.states && Above(ch, x, k) == Some(root)
    ensures k <= |ch.states| && Room(ch, root, x) == |ch.states| - k
  {
    StepsBounded(ch, root, x, k);
    forall j: nat | Above(ch, x, j) == Some(root)
      ensures j == k
    {
      if j < k {
        RootOnce(ch, root, x, j, k);
      } else if k < j {
        RootOnce(ch, root, x, k, j);
      }
    }
  }

  lemma RoomShrinks(ch: Chart, root: Id, p: Id, c: Id)
    requires Rooted(ch, root) && Under(ch, root, p) && p in ch.contents && c in ch.contents[p]
    ensures Room(ch, root, c) < Room(ch, root, p)
  {
    var k: nat :| Above(ch, p, k) == Some(root);
    RoomOf(ch, root, p, k);
    RoomOf(ch, root, c, k + 1);
  }

  /** The tables without the states outside `keep`. */
  function Restricted(ch: Chart, keep: set<Id>): Chart {
    Chart(map c | c in ch.states && c in keep :: ch.states[c],
          ch.machines,
          map p | p in ch.contents && p in keep :: ch.contents[p])
  }

  ghost function Reached(ch: Chart, root: Id): set<Id> {
    set x | x in ch.states.Keys + {root} && Under(ch, root, x)
  }

  /** The tables without the states that the root does not reach. */
  ghost function Kept(ch: Chart, root: Id): Chart {
    Restricted(ch, Reached(ch, root))
  }

  predicate ClosedOff(ch: Chart, keep: set<Id>) {
    forall p, c | p in ch.contents && c in ch.contents[p] :: c in keep <==> p in keep
  }

  lemma RestrictedInverse(ch: Chart, keep: set<Id>)
    requires Inverse(ch) && ClosedOff(ch, keep)
    ensures Inverse(Restricted(ch, keep))
  {
  }

  lemma ReachedIff(ch: Chart, root: Id, x: Id)
    ensures x in Reached(ch, root) <==> Under(ch, root, x)
  {
  }

  lemma ReachedClosed(ch: Chart, root: Id)
    requires Rooted(ch, root)
    ensures ClosedOff(ch, Reached(ch, root))
  {
    forall p, c | p in ch.contents && c in ch.contents[p]
      ensures c in Reached(ch, root) <==> p in Reached(ch, root)
    {
      ReachedIff(ch, root, p);
      ReachedIff(ch, root, c);
      ChildReached(ch, root, p, c);
    }
  }

  lemma ChildReached(ch: Chart, root: Id, p: Id, c: Id)
    requires root !in ch.states && c in ch.states && ch.states[c] == p
    ensures Under(ch, root, c) <==> Under(ch, root, p)
  {
    if Under(ch, root, c) {
      ParentUnder(ch, root, c);
    }
    if Under(ch, root, p) {
      var k: nat :| Above(ch, p, k) == Some(root);
      assert Above(ch, c, k + 1) == Some(root);
    }
  }

  lemma ParentUnder(ch: Chart, root: Id, c: Id)
    requires Under(ch, root, c) && c in ch.states && root !in ch.states
    ensures Under(ch, root, ch.states[c])
  {
    var k: nat :| Above(ch, c, k) == Some(root);
    assert Above(ch, ch.states[c], k - 1) == Some(root);
  }

  lemma SelfUnder(ch: Chart, x: Id)
    ensures Under(ch, x, x)
  {
    assert Above(ch, x, 0) == Some(x);
  }

  lemma UnderTransitive(ch: Chart, a: Id, b: Id, c: Id)
    requires Under(ch, a, b) && Under(ch, b, c)
    ensures Under(ch, a, c)
  {
    var j: nat :| Above(ch, b, j) == Some(a);
    var k: nat :| Above(ch, c, k) == Some(b);
    AboveAdd(ch, c, k, b, j);
    assert Above(ch, c, k + j) == Some(a);
  }

  /** What the root reaches is a hierarchy, whatever cycles there are elsewhere. */
  lemma KeptHierarchy(ch: Chart, root: Id)
    requires Rooted(ch, root)
    ensures Hierarchy(Kept(ch, root))
  {
    ReachedClosed(ch, root);
    RestrictedInverse(ch, Reached(ch, root));
    var kept, height := Kept(ch, root), (x: Id) => Room(ch, root, x);
    forall p, c | p in kept.contents && c in kept.contents[p]
      ensures height(c) < height(p)
    {
      ReachedIff(ch, root, p);
      RoomShrinks(ch, root, p, c);
    }
    assert HeightedBy(kept, height);
  }

  lemma {:induction false} KeptAbove(ch: Chart, root: Id, x: Id, k: nat)
    requires root !in ch.states && Under(ch, root, x)
    ensures Above(Kept(ch, root), x, k) == Above(ch, x, k)
    decreases k
  {
    if k > 0 && x in ch.states {
      ReachedIff(ch, root, x);
      ParentUnder(ch, root, x);
      KeptAbove(ch, root, ch.states[x], k - 1);
    }
  }

  lemma KeptUnder(ch: Chart, root: Id, x: Id)
    requires root !in ch.states
    ensures Under(Kept(ch, root), root, x) <==> Under(ch, root, x)
  {
    var kept := Kept(ch, root);
    if Under(ch, root, x) {
      var k: nat :| Above(ch, x, k) == Some(root);
      KeptAbove(ch, root, x, k);
    }
    SelfUnder(ch, root);
    if Under(kept, root, x) && x != root {
      var k: nat :| Above(kept, x, k) == Some(root);
      assert x in kept.states;
      ReachedIff(ch, root, x);
    }
  }

  // ----- drawing

  datatype Line = Open(num: nat) | Label(state: Id) | Color | Leaf(state: Id, initial: bool) | Close

  /** The lines for a part of the hierarchy, the next free cluster number, and the numbers of
      the clusters among the lines. */
  datatype Pic = Pic(lines: seq<Line>, next: nat, labels: map<Id, nat>)

  predicate IsInitial(ch: Chart, s: Id) {
    exists m <- ch.machines :: ch.machines[m] == s
  }

  function Framed(num: nat, s: Id, inner: seq<Line>): seq<Line> {
    [Open(num), Label(s), Color] + inner + [Close]
  }

  ghost predicate Lower(ch: Chart, bound: nat, cs: seq<Id>)
    requires Hierarchy(ch)
  {
    forall c <- cs :: Height(ch)(c) < bound
  }

  ghost function Draw(ch: Chart, s: Id, num: nat): Pic
    requires Hierarchy(ch)
    decreases Height(ch)(s) + 1, 0
  {
    if s in ch.contents then
      var inner := DrawAll(ch, Height(ch)(s), ch.contents[s], num + 1);
      Pic(Framed(num, s, inner.lines), inner.next, map[s := num] + inner.labels)
    else
      Pic([Leaf(s, IsInitial(ch, s))], num, map[])
  }

  /** The drawings of some lower states, one after the other. */
  ghost function DrawAll(ch: Chart, bound: nat, cs: seq<Id>, num: nat): Pic
    requires Hierarchy(ch) && Lower(ch, bound, cs)
    decreases bound, |cs|
  {
    if cs == [] then Pic([], num, map[])
    else
      var front := DrawAll(ch, bound, cs[..|cs| - 1], num);
      var last := Draw(ch, cs[|cs| - 1], front.next);
      Pic(front.lines + last.lines, last.next, front.labels + last.labels)
  }

  /** A state with contents is a cluster with its number and name, around the drawings of its states. */
  lemma ClusterFramed(ch: Chart, s: Id, num: nat)
    requires Hierarchy(ch) && s in ch.contents
    ensures var lines, n := Draw(ch, s, num).lines, |Draw(ch, s, num).lines|;
            && n >= 4 && lines[0] == Open(num) && lines[1] == Label(s) && lines[2] == Color && lines[n - 1] == Close
            && lines[3..n - 1] == DrawAll(ch, Height(ch)(s), ch.contents[s], num + 1).lines
  {
  }

  /** States are drawn in the order in which they are listed. */
  lemma {:induction false} DrawnInOrder(ch: Chart, bound: nat, a: seq<Id>, b: seq<Id>, num: nat)
    requires Hierarchy(ch) && Lower(ch, bound, a) && Lower(ch, bound, b)
    ensures Lower(ch, bound, a + b)
    ensures var first := DrawAll(ch, bound, a, num);
            DrawAll(ch, bound, a + b, num).lines == first.lines + DrawAll(ch, bound, b, first.next).lines
    ensures DrawAll(ch, bound, a + b, num).next == DrawAll(ch, bound, b, DrawAll(ch, bound, a, num).next).next
    decreases |b|
  {
    var first := DrawAll(ch, bound, a, num);
    if b == [] {
      assert a + b == a;
    } else {
      var n := |b| - 1;
      DrawnInOrder(ch, bound, a, b[..n], num);
      assert (a + b)[..|a| + n] == a + b[..n] && (a + b)[|a| + n] == b[n];
      var front := DrawAll(ch, bound, b[..n], first.next);
      Associate(first.lines, front.lines, Draw(ch, b[n], front.next).lines);
    }
  }

  // ----- braces

  /** The nesting depth after some lines; None when a brace closes that was not opened. */
  function Depth(lines: seq<Line>, d: nat): Option<nat> {
    if lines == [] then Some(d)
    else
      match lines[0]
      case Open(_) => Depth(lines[1..], d + 1)
      case Close => if d == 0 then None else Depth(lines[1..], d - 1)
      case _ => Depth(lines[1..], d)
  }

  lemma {:induction false} DepthAppend(a: seq<Line>, b: seq<Line>, d: nat)
    ensures Depth(a + b, d) == match Depth(a, d) case None => None case Some(e) => Depth(b, e)
    decreases |a|
  {
    if a == [] {
      assert a + b == b;
    } else {
      assert (a + b)[1..] == a[1..] + b;
      match a[0]
      case Open(_) => DepthAppend(a[1..], b, d + 1);
      case Close => if d > 0 { DepthAppend(a[1..], b, d - 1); }
      case _ => DepthAppend(a[1..], b, d);
    }
  }

  lemma FramedDepth(num: nat, s: Id, inner: seq<Line>, d: nat)
    requires Depth(inner, d + 1) == Some(d + 1)
    ensures Depth(Framed(num, s, inner), d) == Some(d)
  {
    var head := [Open(num), Label(s), Color];
    assert head[1..] == [Label(s), Color] && head[1..][1..] == [Color] && head[1..][1..][1..] == [];
    assert Depth([Color], d + 1) == Depth([], d + 1);
    assert Depth([Label(s), Color], d + 1) == Some(d + 1);
    assert Depth(head, d) == Some(d + 1);
    DepthAppend(head, inner, d);
    DepthAppend(head + inner, [Close], d);
    assert Depth([Close], d + 1) == Depth([], d);
  }

  /** The braces of a drawing are balanced. */
  lemma {:induction false} DrawBalanced(ch: Chart, s: Id, num: nat, d: nat)
    requires Hierarchy(ch)
    ensures Depth(Draw(ch, s, num).lines, d) == Some(d)
    decreases Height(ch)(s) + 1, 0
  {
    if s in ch.contents {
      DrawAllBalanced(ch, Height(ch)(s), ch.contents[s], num + 1, d + 1);
      FramedDepth(num, s, DrawAll(ch, Height(ch)(s), ch.contents[s], num + 1).lines, d);
    } else {
      assert Depth([Leaf(s, IsInitial(ch, s))], d) == Depth([], d);
    }
  }

  lemma {:induction false} DrawAllBalanced(ch: Chart, bound: nat, cs: seq<Id>, num: nat, d: nat)
    requires Hierarchy(ch) && Lower(ch, bound, cs)
    ensures Depth(DrawAll(ch, bound, cs, num).lines, d) == Some(d)
    decreases bound, |cs|
  {
    if cs != [] {
      var n := |cs| - 1;
      DrawAllBalanced(ch, bound, cs[..n], num, d);
      var front := DrawAll(ch, bound, cs[..n], num);
      DrawBalanced(ch, cs[n], front.next, d);
      DepthAppend(front.lines, Draw(ch, cs[n], front.next).lines, d);
    }
  }

  // ----- cluster numbers

  function Numbers(lines: seq<Line>): seq<nat> {
    if lines == [] then []
    else (if lines[0].Open? then [lines[0].num] else []) + Numbers(lines[1..])
  }

  lemma {:induction false} NumbersAppend(a: seq<Line>, b: seq<Line>)
    ensures Numbers(a + b) == Numbers(a) + Numbers(b)
  {
    if a == [] {
      assert a + b == b;
    } else {
      assert (a + b)[1..] == a[1..] + b && (a + b)[0] == a[0];
      NumbersAppend(a[1..], b);
      var head := if a[0].Open? then [a[0].num] else [];
      Associate(head, Numbers(a[1..]), Numbers(b));
    }
  }

  function From(lo: nat, hi: nat): seq<nat>
    requires lo <= hi
  {
    seq(hi - lo, k requires 0 <= k => lo + k)
  }

  lemma FramedNumbers(num: nat, s: Id, inner: seq<Line>)
    ensures Numbers(Framed(num, s, inner)) == [num] + Numbers(inner)
  {
    var head := [Open(num), Label(s), Color];
    assert head[1..] == [Label(s), Color] && head[1..][1..] == [Color] && head[1..][1..][1..] == [];
    assert Numbers([Color]) == Numbers([]) && Numbers([Label(s), Color]) == Numbers([Color]);
    assert Numbers(head) == [num];
    NumbersAppend(head, inner);
    NumbersAppend(head + inner, [Close]);
    assert Numbers([Close]) == Numbers([]);
  }

  /** The clusters are numbered consecutively, in the order in which they open. */
  lemma {:induction false} DrawNumbers(ch: Chart, s: Id, num: nat)
    requires Hierarchy(ch)
    ensures num <= Draw(ch, s, num).next
    ensures Numbers(Draw(ch, s, num).lines) == From(num, Draw(ch, s, num).next)
    decreases Height(ch)(s) + 1, 0
  {
    if s in ch.contents {
      DrawAllNumbers(ch, Height(ch)(s), ch.contents[s], num + 1);
      var inner := DrawAll(ch, Height(ch)(s), ch.contents[s], num + 1);
      FramedNumbers(num, s, inner.lines);
      assert [num] + From(num + 1, inner.next) == From(num, inner.next);
    } else {
      assert Numbers([Leaf(s, IsInitial(ch, s))]) == Numbers([]);
    }
  }

  lemma {:induction false} DrawAllNumbers(ch: Chart, bound: nat, cs: seq<Id>, num: nat)
    requires Hierarchy(ch) && Lower(ch, bound, cs)
    ensures num <= DrawAll(ch, bound, cs, num).next
    ensures Numbers(DrawAll(ch, bound, cs, num).lines) == From(num, DrawAll(ch, bound, cs, num).next)
    decreases bound, |cs|
  {
    if cs != [] {
      var n := |cs| - 1;
      DrawAllNumbers(ch, bound, cs[..n], num);
      var front := DrawAll(ch, bound, cs[..n], num);
      var last := Draw(ch, cs[n], front.next);
      DrawNumbers(ch, cs[n], front.next);
      NumbersAppend(front.lines, last.lines);
      assert From(num, front.next) + From(front.next, last.next) == From(num, last.next);
    }
  }

  // ----- every state once

  /** The states drawn by some lines, as clusters or as nodes. */
  function Names(lines: seq<Line>): seq<Id> {
    if lines == [] then []
    else (if lines[0].Label? || lines[0].Leaf? then [lines[0].state] else []) + Names(lines[1..])
  }

  lemma {:induction false} NamesAppend(a: seq<Line>, b: seq<Line>)
    ensures Names(a + b) == Names(a) + Names(b)
  {
    if a == [] {
      assert a + b == b;
    } else {
      assert (a + b)[1..] == a[1..] + b && (a + b)[0] == a[0];
      NamesAppend(a[1..], b);
      var head := if a[0].Label? || a[0].Leaf? then [a[0].state] else [];
      Associate(head, Names(a[1..]), Names(b));
    }
  }

  lemma FramedNames(num: nat, s: Id, inner: seq<Line>)
    ensures Names(Framed(num, s, inner)) == [s] + Names(inner)
  {
    var head := [Open(num), Label(s), Color];
    assert head[1..] == [Label(s), Color] && head[1..][1..] == [Color] && head[1..][1..][1..] == [];
    assert Names([Color]) == Names([]) && Names([Label(s), Color]) == [s] + Names([Color]);
    assert Names(head) == [s];
    NamesAppend(head, inner);
    NamesAppend(head + inner, [Close]);
    assert Names([Close]) == Names([]);
  }

  /** A drawing shows exactly the states at and below its root, each once. */
  lemma {:induction false} DrawNames(ch: Chart, s: Id, num: nat)
    requires Hierarchy(ch)
    ensures Distinct(Names(Draw(ch, s, num).lines))
    ensures forall x :: x in Names(Draw(ch, s, num).lines) <==> Under(ch, s, x)
    decreases Height(ch)(s) + 1, 0
  {
    assert Under(ch, s, s) by {
      assert Above(ch, s, 0) == Some(s);
    }
    if s in ch.contents {
      var inner := DrawAll(ch, Height(ch)(s), ch.contents[s], num + 1).lines;
      DrawAllNames(ch, Height(ch)(s), s, ch.contents[s], num + 1);
      FramedNames(num, s, inner);
      forall x
        ensures x in [s] + Names(inner) <==> Under(ch, s, x)
      {
        if Under(ch, s, x) && x != s {
          UnderChild(ch, s, x);
        }
        if x in Names(inner) {
          var c :| c in ch.contents[s] && Under(ch, c, x);
          ChildUnder(ch, s, c, x);
        }
      }
      NotUnderChild(ch, s);
      DistinctAppend([s], Names(inner));
    } else {
      var leaf := [Leaf(s, IsInitial(ch, s))];
      assert Names(leaf) == [s] + Names([]);
      forall x | Under(ch, s, x)
        ensures x == s
      {
        if x != s {
          UnderChild(ch, s, x);
        }
      }
    }
  }

  lemma NotUnderChild(ch: Chart, s: Id)
    requires Hierarchy(ch) && s in ch.contents
    ensures forall c <- ch.contents[s] :: !Under(ch, c, s)
  {
    forall c <- ch.contents[s]
      ensures !Under(ch, c, s)
    {
      forall k: nat
        ensures Above(ch, s, k) != Some(c)
      {
        AboveHigher(ch, s, k);
      }
    }
  }

  lemma {:induction false} DrawAllNames(ch: Chart, bound: nat, p: Id, cs: seq<Id>, num: nat)
    requires Hierarchy(ch) && Lower(ch, bound, cs) && Distinct(cs)
    requires p in ch.contents && forall c <- cs :: c in ch.contents[p]
    ensures Distinct(Names(DrawAll(ch, bound, cs, num).lines))
    ensures forall x :: x in Names(DrawAll(ch, bound, cs, num).lines) <==> exists c <- cs :: Under(ch, c, x)
    decreases bound, |cs|
  {
    if cs != [] {
      var n := |cs| - 1;
      var front := DrawAll(ch, bound, cs[..n], num);
      var last := Draw(ch, cs[n], front.next);
      DrawAllNames(ch, bound, p, cs[..n], num);
      DrawNames(ch, cs[n], front.next);
      NamesAppend(front.lines, last.lines);
      forall x | x in Names(front.lines) && x in Names(last.lines)
        ensures false
      {
        var c :| c in cs[..n] && Under(ch, c, x);
        SiblingsApart(ch, p, c, cs[n], x);
      }
      DistinctAppend(Names(front.lines), Names(last.lines));
      forall x
        ensures (exists c <- cs :: Under(ch, c, x)) <==> (exists c <- cs[..n] :: Under(ch, c, x)) || Under(ch, cs[n], x)
      {
        assert cs == cs[..n] + [cs[n]];
      }
    }
  }

  lemma DistinctAppend(a: seq<Id>, b: seq<Id>)
    requires Distinct(a) && Distinct(b) && forall x :: !(x in a && x in b)
    ensures Distinct(a + b)
  {
    var ab := a + b;
    forall j, k | 0 <= j < k < |ab|
      ensures ab[j] != ab[k]
    {
      if j < |a| <= k {
        assert a[j] in a && b[k - |a|] in b;
      }
    }
  }

  // ----- clusters and their labels

  /** `part` stands as a block in `whole`. */
  ghost predicate BlockOf(part: seq<Line>, whole: seq<Line>) {
    exists i, j :: 0 <= i <= j <= |whole| && whole[i..j] == part
  }

  lemma BlockLeft(part: seq<Line>, a: seq<Line>, b: seq<Line>)
    requires BlockOf(part, a)
    ensures BlockOf(part, a + b)
  {
    var i, j :| 0 <= i <= j <= |a| && a[i..j] == part;
    assert (a + b)[i..j] == part;
  }

  lemma BlockRight(part: seq<Line>, a: seq<Line>, b: seq<Line>)
    requires BlockOf(part, b)
    ensures BlockOf(part, a + b)
  {
    var i, j :| 0 <= i <= j <= |b| && b[i..j] == part;
    assert (a + b)[|a| + i..|a| + j] == part;
  }

  lemma BlockSelf(part: seq<Line>)
    ensures BlockOf(part, part)
  {
    assert part[0..|part|] == part;
  }

  /** The number recorded for a cluster is that of the block in which the state is drawn with
      everything below it. */
  lemma {:induction false} LabelledBlock(ch: Chart, s: Id, num: nat, x: Id)
    requires Hierarchy(ch) && x in Draw(ch, s, num).labels
    ensures x in ch.contents
    ensures BlockOf(Draw(ch, x, Draw(ch, s, num).labels[x]).lines, Draw(ch, s, num).lines)
    decreases Height(ch)(s) + 1, 0
  {
    var inner := DrawAll(ch, Height(ch)(s), ch.contents[s], num + 1);
    if x in inner.labels {
      LabelledBlockAll(ch, Height(ch)(s), ch.contents[s], num + 1, x);
      var part, head := Draw(ch, x, inner.labels[x]).lines, [Open(num), Label(s), Color];
      BlockRight(part, head, inner.lines);
      BlockLeft(part, head + inner.lines, [Close]);
    } else {
      BlockSelf(Draw(ch, s, num).lines);
    }
  }

  lemma {:induction false} LabelledBlockAll(ch: Chart, bound: nat, cs: seq<Id>, num: nat, x: Id)
    requires Hierarchy(ch) && Lower(ch, bound, cs) && x in DrawAll(ch, bound, cs, num).labels
    ensures x in ch.contents
    ensures BlockOf(Draw(ch, x, DrawAll(ch, bound, cs, num).labels[x]).lines, DrawAll(ch, bound, cs, num).lines)
    decreases bound, |cs|
  {
    var n := |cs| - 1;
    var front := DrawAll(ch, bound, cs[..n], num);
    var last := Draw(ch, cs[n], front.next);
    if x in last.labels {
      LabelledBlock(ch, cs[n], front.next, x);
      BlockRight(Draw(ch, x, last.labels[x]).lines, front.lines, last.lines);
    } else {
      LabelledBlockAll(ch, bound, cs[..n], num, x);
      BlockLeft(Draw(ch, x, front.labels[x]).lines, front.lines, last.lines);
    }
  }

  /** Every cluster at or below the root has a label. */
  lemma {:induction false} LabelExists(ch: Chart, s: Id, num: nat, x: Id)
    requires Hierarchy(ch) && Under(ch, s, x) && x in ch.contents
    ensures x in Draw(ch, s, num).labels
    decreases Height(ch)(s) + 1, 0
  {
    if x != s {
      UnderChild(ch, s, x);
      var c :| c in ch.contents[s] && Under(ch, c, x);
      LabelExistsAll(ch, Height(ch)(s), ch.contents[s], num + 1, x, c);
    }
  }

  lemma {:induction false} LabelExistsAll(ch: Chart, bound: nat, cs: seq<Id>, num: nat, x: Id, c: Id)
    requires Hierarchy(ch) && Lower(ch, bound, cs) && x in ch.contents && c in cs && Under(ch, c, x)
    ensures x in DrawAll(ch, bound, cs, num).labels
    decreases bound, |cs|
  {
    var n := |cs| - 1;
    assert cs == cs[..n] + [cs[n]];
    if c == cs[n] {
      LabelExists(ch, c, DrawAll(ch, bound, cs[..n], num).next, x);
    } else {
      LabelExistsAll(ch, bound, cs[..n], num, x, c);
    }
  }

  /** Only clusters at or below the root have one. */
  lemma LabelsUnder(ch: Chart, s: Id, num: nat, x: Id)
    requires Hierarchy(ch) && x in Draw(ch, s, num).labels
    ensures Under(ch, s, x)
  {
    LabelledBlock(ch, s, num, x);
    var cluster, lines := Draw(ch, x, Draw(ch, s, num).labels[x]).lines, Draw(ch, s, num).lines;
    var i, j :| 0 <= i <= j <= |lines| && lines[i..j] == cluster;
    assert lines[i + 1] == cluster[1] == Label(x);
    LineNamed(lines, i + 1);
    DrawNames(ch, s, num);
  }

  lemma {:induction false} LineNamed(lines: seq<Line>, k: nat)
    requires k < |lines| && lines[k].Label?
    ensures lines[k].state in Names(lines)
    decreases k
  {
    if k > 0 {
      LineNamed(lines[1..], k - 1);
    }
  }

  // ----- nodes

  /** Exactly the states at and below the root that have no contents are drawn as nodes, with the
      mark of an initial state when they are one. */
  lemma {:induction false} DrawLeaves(ch: Chart, s: Id, num: nat, x: Id, initial: bool)
    requires Hierarchy(ch)
    ensures Leaf(x, initial) in Draw(ch, s, num).lines <==>
            && Under(ch, s, x) && x !in ch.contents
            && (initial <==> exists m <- ch.machines :: ch.machines[m] == x)
    decreases Height(ch)(s) + 1, 0
  {
    SelfUnder(ch, s);
    if Under(ch, s, x) && x != s {
      UnderChild(ch, s, x);
    }
    if s in ch.contents {
      DrawAllLeaves(ch, Height(ch)(s), ch.contents[s], num + 1, x, initial);
      forall c | c in ch.contents[s] && Under(ch, c, x)
        ensures Under(ch, s, x)
      {
        ChildUnder(ch, s, c, x);
      }
    }
  }

  lemma {:induction false} DrawAllLeaves(ch: Chart, bound: nat, cs: seq<Id>, num: nat, x: Id, initial: bool)
    requires Hierarchy(ch) && Lower(ch, bound, cs)
    ensures Leaf(x, initial) in DrawAll(ch, bound, cs, num).lines <==>
            (exists c <- cs :: Under(ch, c, x)) && x !in ch.contents && initial == IsInitial(ch, x)
    decreases bound, |cs|
  {
    if cs != [] {
      var n := |cs| - 1;
      DrawAllLeaves(ch, bound, cs[..n], num, x, initial);
      DrawLeaves(ch, cs[n], DrawAll(ch, bound, cs[..n], num).next, x, initial);
      assert cs == cs[..n] + [cs[n]];
    }
  }

  // ----- where edges end

  /** Every machine at or below the root has its initial state among its contents. */
  ghost predicate InitialsInside(ch: Chart, root: Id) {
    forall m <- ch.machines :: Under(ch, root, m) ==> ch.machines[m] in ChildrenOf(ch, m)
  }

  lemma InitialUnder(ch: Chart, root: Id, m: Id)
    requires Inverse(ch) && InitialsInside(ch, root) && Under(ch, root, m) && m in ch.machines
    ensures Under(ch, m, ch.machines[m]) && Under(ch, root, ch.machines[m])
  {
    var x := ch.machines[m];
    SelfUnder(ch, x);
    ChildUnder(ch, m, x, x);
    UnderTransitive(ch, root, m, x);
  }

  /** From initial state to initial state, down to a state that is no machine. */
  ghost function Descend(ch: Chart, root: Id, x: Id): (r: Id)
    requires Hierarchy(ch) && InitialsInside(ch, root) && Under(ch, root, x)
    ensures r !in ch.machines
    decreases Height(ch)(x)
  {
    if x in ch.machines then
      InitialUnder(ch, root, x);
      Descend(ch, root, ch.machines[x])
    else x
  }

  /** `x` after `k` steps from a machine to its initial state. */
  function Initially(ch: Chart, x: Id, k: nat): Option<Id>
    decreases k
  {
    if k == 0 then Some(x)
    else if x in ch.machines then Initially(ch, ch.machines[x], k - 1)
    else None
  }

  /** The descent goes from each machine to its own initial state, until there is none. */
  lemma {:induction false} DescendFollows(ch: Chart, root: Id, x: Id)
    requires Hierarchy(ch) && InitialsInside(ch, root) && Under(ch, root, x)
    ensures exists k: nat :: Initially(ch, x, k) == Some(Descend(ch, root, x))
    decreases Height(ch)(x)
  {
    if x in ch.machines {
      InitialUnder(ch, root, x);
      DescendFollows(ch, root, ch.machines[x]);
      var k: nat :| Initially(ch, ch.machines[x], k) == Some(Descend(ch, root, ch.machines[x]));
      assert Initially(ch, x, k + 1) == Some(Descend(ch, root, x));
    } else {
      assert Initially(ch, x, 0) == Some(x);
    }
  }

  lemma {:induction false} DescendUnder(ch: Chart, root: Id, x: Id)
    requires Hierarchy(ch) && InitialsInside(ch, root) && Under(ch, root, x)
    ensures Under(ch, x, Descend(ch, root, x))
    decreases Height(ch)(x)
  {
    if x in ch.machines {
      InitialUnder(ch, root, x);
      DescendUnder(ch, root, ch.machines[x]);
      UnderTransitive(ch, x, ch.machines[x], Descend(ch, root, x));
    } else {
      SelfUnder(ch, x);
    }
  }

  /** `cluster` is the number of the cluster in which machine `m` is drawn, and the end of an edge
      of the machine is a node in that cluster if and only if it has no contents. */
  ghost predicate EndsInside(ch: Chart, lines: seq<Line>, m: Id, end: Id, cluster: nat)
    requires Hierarchy(ch)
  {
    && m in ch.contents
    && BlockOf(Draw(ch, m, cluster).lines, lines)
    && forall initial ::
         Leaf(end, initial) in Draw(ch, m, cluster).lines <==> end !in ch.contents && initial == IsInitial(ch, end)
  }

  /** An edge from or to a machine below the root is attached to a state at or below the very
      machine whose cluster the edge names. */
  lemma EdgeEndsInside(ch: Chart, root: Id, num: nat, m: Id)
    requires Hierarchy(ch) && InitialsInside(ch, root) && Under(ch, root, m) && m in ch.machines
    ensures m in Draw(ch, root, num).labels
    ensures EndsInside(ch, Draw(ch, root, num).lines, m, Descend(ch, root, m), Draw(ch, root, num).labels[m])
  {
    LabelExists(ch, root, num, m);
    LabelledBlock(ch, root, num, m);
    DescendUnder(ch, root, m);
    var cluster, end := Draw(ch, root, num).labels[m], Descend(ch, root, m);
    forall initial
      ensures Leaf(end, initial) in Draw(ch, m, cluster).lines <==> end !in ch.contents && initial == IsInitial(ch, end)
    {
      DrawLeaves(ch, m, cluster, end, initial);
    }
  }

  /** Where every state with contents has an initial state, all edges end at nodes. */
  lemma EdgeEndsAtNode(ch: Chart, root: Id, num: nat, m: Id)
    requires Hierarchy(ch) && InitialsInside(ch, root) && Under(ch, root, m) && m in ch.machines
    requires forall p <- ch.contents :: p in ch.machines
    ensures m in Draw(ch, root, num).labels
    ensures var end := Descend(ch, root, m);
            Leaf(end, IsInitial(ch, end)) in Draw(ch, m, Draw(ch, root, num).labels[m]).lines
  {
    EdgeEndsInside(ch, root, num, m);
  }

  /** A state `A` with contents but without an initial state of its own, initial in `M`. */
  const HALF_MACHINE: Chart :=
    Chart(map["A" := "M", "B" := "A"], map["M" := "A"], map["M" := ["A"], "A" := ["B"]])

  lemma HalfMachineInverse()
    ensures Rooted(HALF_MACHINE, "M")
  {
    var ch := HALF_MACHINE;
    assert ch.contents["M"] == ["A"] && ch.contents["A"] == ["B"];
    assert Unrepeated(ch) && Pointing(ch);
  }

  lemma HalfMachineHierarchy()
    ensures Rooted(HALF_MACHINE, "M") && Hierarchy(HALF_MACHINE)
  {
    HalfMachineInverse();
    var height := (x: Id) => if x == "M" then 2 else if x == "A" then 1 else 0;
    assert HeightedBy(HALF_MACHINE, height);
  }

  /** The edges of `M` end at `A`, which is drawn as a cluster only. */
  lemma EdgeWithoutNode()
    ensures Rooted(HALF_MACHINE, "M") && Hierarchy(HALF_MACHINE) && InitialsInside(HALF_MACHINE, "M")
    ensures Under(HALF_MACHINE, "M", "M") && Descend(HALF_MACHINE, "M", "M") == "A"
    ensures forall initial :: Leaf("A", initial) !in Draw(HALF_MACHINE, "M", 0).lines
  {
    HalfMachineHierarchy();
    SelfUnder(HALF_MACHINE, "M");
    InitialUnder(HALF_MACHINE, "M", "M");
    forall initial
      ensures Leaf("A", initial) !in Draw(HALF_MACHINE, "M", 0).lines
    {
      DrawLeaves(HALF_MACHINE, "M", 0, "A", initial);
    }
  }
}
