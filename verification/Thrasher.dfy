/** The OSD thrasher: which OSDs it holds to be in or out, and live or dead, under its random
    actions. */
module Thrasher {
  import opened Options

  type Osd = nat

  /** A list after Python's `remove`: without the first `x`. */
  function Without(xs: seq<Osd>, x: Osd): seq<Osd> {
    if xs == [] then []
    else if xs[0] == x then xs[1..]
    else [xs[0]] + Without(xs[1..], x)
  }

  lemma {:induction false} WithoutContents(xs: seq<Osd>, x: Osd)
    requires x in xs
    ensures multiset(Without(xs, x)) == multiset(xs) - multiset{x}
    ensures |Without(xs, x)| == |xs| - 1
  {
    assert xs == [xs[0]] + xs[1..];
    if xs[0] != x {
      WithoutContents(xs[1..], x);
    }
  }

  lemma {:induction false} WithoutKeeps(xs: seq<Osd>, x: Osd, y: Osd)
    requires y in xs && y != x
    ensures y in Without(xs, x)
  {
    if xs[0] != x {
      if xs[0] != y {
        WithoutKeeps(xs[1..], x, y);
      }
    }
  }

  /** Only the first `x` goes, and the others stay in their order. */
  lemma {:induction false} WithoutAt(xs: seq<Osd>, x: Osd, k: nat)
    requires k < |xs| && xs[k] == x && x !in xs[..k]
    ensures Without(xs, x) == xs[..k] + xs[k + 1..]
  {
    if k > 0 {
      assert xs[0] == xs[..k][0];
      assert xs[1..][..k - 1] == xs[..k][1..];
      WithoutAt(xs[1..], x, k - 1);
    }
  }

  /** The two lists share out the OSDs of `all`, each OSD on one list, once. */
  ghost predicate SharedOut(a: seq<Osd>, b: seq<Osd>, all: set<Osd>) {
    multiset(a) + multiset(b) == multiset(all)
  }

  lemma SharedOutSize(a: seq<Osd>, b: seq<Osd>, all: set<Osd>)
    requires SharedOut(a, b, all)
    ensures |a| + |b| == |all|
    ensures forall x :: x in all <==> x in a || x in b
    ensures forall x :: !(x in a && x in b)
  {
    assert |multiset(a) + multiset(b)| == |multiset(all)|;
    forall x
      ensures (x in all <==> x in a || x in b) && !(x in a && x in b)
    {
      assert (multiset(a) + multiset(b))[x] == multiset(all)[x];
      assert multiset(a)[x] > 0 <==> x in a;
      assert multiset(b)[x] > 0 <==> x in b;
    }
  }

  lemma MoveKeepsShare(a: seq<Osd>, b: seq<Osd>, all: set<Osd>, x: Osd)
    requires SharedOut(a, b, all) && x in a
    ensures SharedOut(Without(a, x), b + [x], all)
    ensures |Without(a, x)| == |a| - 1
  {
    WithoutContents(a, x);
  }

  lemma ShareSwap(a: seq<Osd>, b: seq<Osd>, all: set<Osd>)
    requires SharedOut(a, b, all)
    ensures SharedOut(b, a, all)
  {
  }

  // ----- the choice of an action

  datatype Action =
    | MarkOut | Kill | RmPastIntervals | MarkIn | Revive
    | PrimaryAffinity | Reweight | TestMinSize | InjectPause
    | Other

  datatype Config = Config(
    minIn: nat, minOut: nat, minLive: nat, minDead: nat, maxDead: nat,
    chanceDown: real,
    affinity: bool,
    reweight: real,
    chanceTestMinSize: real,
    pauseShort: real,
    pauseLong: real,
    // The weights of the actions that neither change the lists nor choose from them, listed
    // before and after test_pool_min_size.
    earlier: seq<real>,
    later: seq<real>)

  predicate GoodConfig(cfg: Config) {
    && cfg.chanceDown >= 0.0 && cfg.reweight >= 0.0 && cfg.chanceTestMinSize >= 0.0
    && cfg.pauseShort >= 0.0 && cfg.pauseLong >= 0.0
    && (forall k | 0 <= k < |cfg.earlier| :: cfg.earlier[k] >= 0.0)
    && (forall k | 0 <= k < |cfg.later| :: cfg.later[k] >= 0.0)
  }

  type Weighted = seq<(Action, real)>

  ghost predicate NonNegative(actions: Weighted) {
    forall k | 0 <= k < |actions| :: actions[k].1 >= 0.0
  }

  /** The total weight of the first `k` actions. */
  function Weight(actions: Weighted, k: nat): real
    requires k <= |actions|
  {
    if k == 0 then 0.0 else Weight(actions, k - 1) + actions[k - 1].1
  }

  function Others(weights: seq<real>): Weighted {
    seq(|weights|, k requires 0 <= k < |weights| => (Other, weights[k]))
  }

  /** A listing under a condition. */
  function When(guard: bool, a: Action, w: real): Weighted {
    if guard then [(a, w)] else []
  }

  /** The actions that are listed when the lists allow them, with their weights. */
  function Guarded(cfg: Config, inn: nat, out: nat, live: nat, dead: nat): Weighted {
    When(inn > cfg.minIn, MarkOut, 1.0) +
    When(live > cfg.minLive && cfg.chanceDown > 0.0, Kill, cfg.chanceDown) +
    When(dead > 1, RmPastIntervals, 1.0) +
    When(out > cfg.minOut, MarkIn, 1.7) +
    When(dead > cfg.minDead, Revive, 1.0)
  }

  /** One pass over the pauses to inject, of which there are two for each of two keys. */
  function Pauses(cfg: Config): Weighted {
    [(InjectPause, cfg.pauseShort), (InjectPause, cfg.pauseLong)]
  }

  /** The actions that are listed whatever the lists hold. */
  function Standing(cfg: Config): Weighted {
    When(cfg.affinity, PrimaryAffinity, 1.0) +
    [(Reweight, cfg.reweight)] +
    Others(cfg.earlier) + [(TestMinSize, cfg.chanceTestMinSize)] + Others(cfg.later) +
    Pauses(cfg) + Pauses(cfg)
  }

  /** The actions that may be chosen, in the order of their listing. */
  function Choices(cfg: Config, inn: nat, out: nat, live: nat, dead: nat): Weighted {
    Guarded(cfg, inn, out, live, dead) + Standing(cfg)
  }

  /** What the listing promises about an action that has a weight. */
  predicate Permitted(cfg: Config, inn: nat, out: nat, live: nat, dead: nat, a: Action) {
    match a
    case MarkOut => inn > cfg.minIn
    case Kill => live > cfg.minLive
    case RmPastIntervals => dead > 1
    case MarkIn => out > cfg.minOut
    case Revive => dead > cfg.minDead
    case PrimaryAffinity => cfg.affinity
    case Reweight => cfg.reweight > 0.0
    case TestMinSize => cfg.chanceTestMinSize > 0.0
    case InjectPause => cfg.pauseShort > 0.0 || cfg.pauseLong > 0.0
    case Other => true
  }

  /** Every action has a weight that is not negative, and if positive, is permitted. */
  ghost predicate AllPermitted(cfg: Config, inn: nat, out: nat, live: nat, dead: nat, actions: Weighted) {
    forall k | 0 <= k < |actions| ::
      actions[k].1 >= 0.0 && (actions[k].1 > 0.0 ==> Permitted(cfg, inn, out, live, dead, actions[k].0))
  }

  lemma GuardedPermitted(cfg: Config, inn: nat, out: nat, live: nat, dead: nat)
    requires GoodConfig(cfg)
    ensures AllPermitted(cfg, inn, out, live, dead, Guarded(cfg, inn, out, live, dead))
  {
  }

  lemma StandingPermitted(cfg: Config, inn: nat, out: nat, live: nat, dead: nat)
    requires GoodConfig(cfg)
    ensures AllPermitted(cfg, inn, out, live, dead, Standing(cfg))
  {
  }

  lemma ChoicesPermitted(cfg: Config, inn: nat, out: nat, live: nat, dead: nat)
    requires GoodConfig(cfg)
    ensures AllPermitted(cfg, inn, out, live, dead, Choices(cfg, inn, out, live, dead))
  {
    GuardedPermitted(cfg, inn, out, live, dead);
    StandingPermitted(cfg, inn, out, live, dead);
  }

  // ----- all that may be chosen is listed, with its weight

  /** The weight of all listings of an action. */
  function WeightOf(actions: Weighted, a: Action): real {
    if actions == [] then 0.0
    else (if actions[0].0 == a then actions[0].1 else 0.0) + WeightOf(actions[1..], a)
  }

  function Sum(weights: seq<real>): real {
    if weights == [] then 0.0 else weights[0] + Sum(weights[1..])
  }

  lemma {:induction false} WeightOfAppend(xs: Weighted, ys: Weighted, a: Action)
    ensures WeightOf(xs + ys, a) == WeightOf(xs, a) + WeightOf(ys, a)
  {
    if xs == [] {
      assert xs + ys == ys;
    } else {
      assert (xs + ys)[1..] == xs[1..] + ys;
      WeightOfAppend(xs[1..], ys, a);
    }
  }

  lemma WeightOfWhen(guard: bool, b: Action, w: real, a: Action)
    ensures WeightOf(When(guard, b, w), a) == if guard && a == b then w else 0.0
  {
    assert guard ==> When(guard, b, w)[1..] == [];
  }

  lemma {:induction false} WeightOfOthers(weights: seq<real>, a: Action)
    ensures WeightOf(Others(weights), a) == if a.Other? then Sum(weights) else 0.0
  {
    if weights != [] {
      assert Others(weights)[1..] == Others(weights[1..]);
      WeightOfOthers(weights[1..], a);
    }
  }

  lemma WeightOfGuarded(cfg: Config, inn: nat, out: nat, live: nat, dead: nat, a: Action)
    ensures WeightOf(Guarded(cfg, inn, out, live, dead), a) ==
            (if inn > cfg.minIn && a == MarkOut then 1.0 else 0.0) +
            (if live > cfg.minLive && cfg.chanceDown > 0.0 && a == Kill then cfg.chanceDown else 0.0) +
            (if dead > 1 && a == RmPastIntervals then 1.0 else 0.0) +
            (if out > cfg.minOut && a == MarkIn then 1.7 else 0.0) +
            (if dead > cfg.minDead && a == Revive then 1.0 else 0.0)
  {
    var a1 := When(inn > cfg.minIn, MarkOut, 1.0);
    var a2 := When(live > cfg.minLive && cfg.chanceDown > 0.0, Kill, cfg.chanceDown);
    var a3, a4 := When(dead > 1, RmPastIntervals, 1.0), When(out > cfg.minOut, MarkIn, 1.7);
    var a5 := When(dead > cfg.minDead, Revive, 1.0);
    WeightOfWhen(inn > cfg.minIn, MarkOut, 1.0, a);
    WeightOfWhen(live > cfg.minLive && cfg.chanceDown > 0.0, Kill, cfg.chanceDown, a);
    WeightOfWhen(dead > 1, RmPastIntervals, 1.0, a);
    WeightOfWhen(out > cfg.minOut, MarkIn, 1.7, a);
    WeightOfWhen(dead > cfg.minDead, Revive, 1.0, a);
    WeightOfFive(a1, a2, a3, a4, a5, a);
  }

  lemma WeightOfFive(a1: Weighted, a2: Weighted, a3: Weighted, a4: Weighted, a5: Weighted, a: Action)
    ensures WeightOf(a1 + a2 + a3 + a4 + a5, a) ==
            WeightOf(a1, a) + WeightOf(a2, a) + WeightOf(a3, a) + WeightOf(a4, a) + WeightOf(a5, a)
  {
    WeightOfAppend(a1 + a2 + a3 + a4, a5, a);
    WeightOfAppend(a1 + a2 + a3, a4, a);
    WeightOfAppend(a1 + a2, a3, a);
    WeightOfAppend(a1, a2, a);
  }

  lemma WeightOfStanding(cfg: Config, a: Action)
    ensures WeightOf(Standing(cfg), a) ==
            match a
            case PrimaryAffinity => if cfg.affinity then 1.0 else 0.0
            case Reweight => cfg.reweight
            case TestMinSize => cfg.chanceTestMinSize
            case InjectPause => 2.0 * (cfg.pauseShort + cfg.pauseLong)
            case Other => Sum(cfg.earlier) + Sum(cfg.later)
            case _ => 0.0
  {
    var a1 := When(cfg.affinity, PrimaryAffinity, 1.0);
    var a2, a3 := [(Reweight, cfg.reweight)], Others(cfg.earlier);
    var a4, a5, a6 := [(TestMinSize, cfg.chanceTestMinSize)], Others(cfg.later), Pauses(cfg);
    WeightOfAppend(a1 + a2 + a3 + a4 + a5 + a6, a6, a);
    WeightOfAppend(a1 + a2 + a3 + a4 + a5, a6, a);
    WeightOfFive(a1, a2, a3, a4, a5, a);
    WeightOfOthers(cfg.earlier, a);
    WeightOfOthers(cfg.later, a);
    assert a6[1..] == [(InjectPause, cfg.pauseLong)] && a6[1..][1..] == [];
  }

  /** Every action whose guard holds is listed with its weight, and no other. */
  lemma ListedWeights(cfg: Config, inn: nat, out: nat, live: nat, dead: nat, a: Action)
    requires GoodConfig(cfg)
    ensures WeightOf(Choices(cfg, inn, out, live, dead), a) ==
            match a
            case MarkOut => if inn > cfg.minIn then 1.0 else 0.0
            case Kill => if live > cfg.minLive then cfg.chanceDown else 0.0
            case RmPastIntervals => if dead > 1 then 1.0 else 0.0
            case MarkIn => if out > cfg.minOut then 1.7 else 0.0
            case Revive => if dead > cfg.minDead then 1.0 else 0.0
            case PrimaryAffinity => if cfg.affinity then 1.0 else 0.0
            case Reweight => cfg.reweight
            case TestMinSize => cfg.chanceTestMinSize
            case InjectPause => 2.0 * (cfg.pauseShort + cfg.pauseLong)
            case Other => Sum(cfg.earlier) + Sum(cfg.later)
  {
    WeightOfAppend(Guarded(cfg, inn, out, live, dead), Standing(cfg), a);
    WeightOfGuarded(cfg, inn, out, live, dead, a);
    WeightOfStanding(cfg, a);
  }

  /** The place of an action in the listing; the others have no fixed one. */
  function Place(a: Action): nat {
    match a
    case MarkOut => 0
    case Kill => 1
    case RmPastIntervals => 2
    case MarkIn => 3
    case Revive => 4
    case PrimaryAffinity => 5
    case Reweight => 6
    case TestMinSize => 7
    case InjectPause => 8
    case Other => 7
  }

  /** Actions are listed in one order, whichever of them are. */
  lemma ListedInOrder(cfg: Config, inn: nat, out: nat, live: nat, dead: nat, j: nat, k: nat)
    requires j < k < |Choices(cfg, inn, out, live, dead)|
    ensures Place(Choices(cfg, inn, out, live, dead)[j].0) <= Place(Choices(cfg, inn, out, live, dead)[k].0)
  {
    var guarded, standing := Guarded(cfg, inn, out, live, dead), Standing(cfg);
    if k < |guarded| {
      GuardedInOrder(cfg, inn, out, live, dead, j, k);
    } else if j >= |guarded| {
      StandingInOrder(cfg, j - |guarded|, k - |guarded|);
    } else {
      assert Place(guarded[j].0) <= 4 && Place(standing[k - |guarded|].0) >= 5;
    }
  }

  lemma GuardedInOrder(cfg: Config, inn: nat, out: nat, live: nat, dead: nat, j: nat, k: nat)
    requires j < k < |Guarded(cfg, inn, out, live, dead)|
    ensures Place(Guarded(cfg, inn, out, live, dead)[j].0) < Place(Guarded(cfg, inn, out, live, dead)[k].0)
  {
  }

  lemma StandingInOrder(cfg: Config, j: nat, k: nat)
    requires j < k < |Standing(cfg)|
    ensures Place(Standing(cfg)[j].0) <= Place(Standing(cfg)[k].0)
  {
  }

  // ----- actions that fail

  /** The action chooses from an empty list, or is the one that logs with two arguments. */
  predicate Fails(a: Action, coin: bool, inn: nat, live: nat) {
    match a
    case PrimaryAffinity => inn == 0
    case Reweight => coin && inn == 0
    case InjectPause => live == 0
    case TestMinSize => true
    case _ => false
  }

  /** What keeps every action that is listed with a weight from failing. */
  predicate Safe(cfg: Config) {
    && cfg.chanceTestMinSize == 0.0
    && (cfg.affinity || cfg.reweight > 0.0 ==> cfg.minIn >= 1)
    && (cfg.pauseShort > 0.0 || cfg.pauseLong > 0.0 ==> cfg.minLive >= 1)
  }

  /** Some action listed with a weight fails. */
  predicate Risky(cfg: Config, coin: bool, inn: nat, out: nat, live: nat, dead: nat) {
    exists k | 0 <= k < |Choices(cfg, inn, out, live, dead)| ::
      var (a, w) := Choices(cfg, inn, out, live, dead)[k];
      w > 0.0 && Fails(a, coin, inn, live)
  }

  function Excess(a: nat, b: nat): nat {
    if a > b then a - b else 0
  }

  /** An unsafe configuration is risky with the fewest OSDs that can meet both bounds. */
  lemma UnsafeRisky(cfg: Config)
    requires GoodConfig(cfg) && !Safe(cfg)
    ensures Risky(cfg, true, cfg.minIn, Excess(cfg.minLive, cfg.minIn), cfg.minLive, Excess(cfg.minIn, cfg.minLive))
  {
    var out, dead := Excess(cfg.minLive, cfg.minIn), Excess(cfg.minIn, cfg.minLive);
    var choices := Choices(cfg, cfg.minIn, out, cfg.minLive, dead);
    var g := |Guarded(cfg, cfg.minIn, out, cfg.minLive, dead)|;
    var r := g + if cfg.affinity then 1 else 0;
    var m := r + 1 + |cfg.earlier|;
    var p := m + 1 + |cfg.later|;
    assert cfg.affinity ==> choices[g] == (PrimaryAffinity, 1.0);
    assert choices[r] == (Reweight, cfg.reweight);
    assert choices[m] == (TestMinSize, cfg.chanceTestMinSize);
    assert choices[p] == (InjectPause, cfg.pauseShort) && choices[p + 1] == (InjectPause, cfg.pauseLong);
  }

  /** The lists share out the same OSDs and meet the bounds. */
  predicate Possible(cfg: Config, inn: nat, out: nat, live: nat, dead: nat) {
    inn + out == live + dead && inn >= cfg.minIn && live >= cfg.minLive
  }

  /** Within the bounds nothing that is listed with a weight fails, if and only if the
      configuration is safe. */
  lemma NeverFailsIff(cfg: Config)
    requires GoodConfig(cfg)
    ensures Safe(cfg) <==>
            forall coin, inn, out, live, dead | Possible(cfg, inn, out, live, dead) ::
              !Risky(cfg, coin, inn, out, live, dead)
  {
    if !Safe(cfg) {
      UnsafeRisky(cfg);
    } else {
      forall coin, inn: nat, out: nat, live: nat, dead: nat | Possible(cfg, inn, out, live, dead)
        ensures !Risky(cfg, coin, inn, out, live, dead)
      {
        var choices := Choices(cfg, inn, out, live, dead);
        forall k | 0 <= k < |choices| && choices[k].1 > 0.0
          ensures !Fails(choices[k].0, coin, inn, live)
        {
          ChoicesPermitted(cfg, inn, out, live, dead);
        }
      }
    }
  }

  /** Sizes that are possible are those of some lists. */
  lemma PossibleLists(cfg: Config, inn: nat, out: nat, live: nat, dead: nat)
    returns (a: seq<Osd>, b: seq<Osd>, c: seq<Osd>, d: seq<Osd>, all: set<Osd>)
    requires Possible(cfg, inn, out, live, dead)
    ensures SharedOut(a, b, all) && SharedOut(c, d, all)
    ensures |a| == inn && |b| == out && |c| == live && |d| == dead
  {
    var osds := OsdList(inn + out);
    all := OsdSet(inn + out);
    a, b, c, d := osds[..inn], osds[inn..], osds[..live], osds[live..];
    assert a + b == osds && c + d == osds;
  }

  function OsdSet(n: nat): (osds: set<Osd>)
    ensures forall x <- osds :: x < n
  {
    if n == 0 then {} else OsdSet(n - 1) + {n - 1}
  }

  function OsdList(n: nat): (osds: seq<Osd>)
    ensures |osds| == n && multiset(osds) == multiset(OsdSet(n))
  {
    if n == 0 then [] else OsdList(n - 1) + [n - 1]
  }

  // ----- the draw

  /** The draw `val` selects action `k` when it falls into that action's stretch of the line. */
  ghost predicate Selects(actions: Weighted, val: real, k: nat) {
    k < |actions| && Weight(actions, k) <= val < Weight(actions, k + 1)
  }

  lemma {:induction false} WeightGrows(actions: Weighted, j: nat, k: nat)
    requires NonNegative(actions) && j <= k <= |actions|
    ensures Weight(actions, j) <= Weight(actions, k)
    decreases k
  {
    if j < k {
      WeightGrows(actions, j, k - 1);
    }
  }

  /** At most one action is selected. */
  lemma SelectsOne(actions: Weighted, val: real, j: nat, k: nat)
    requires NonNegative(actions) && Selects(actions, val, j) && Selects(actions, val, k)
    ensures j == k
  {
    if j < k {
      WeightGrows(actions, j + 1, k);
    } else if k < j {
      WeightGrows(actions, k + 1, j);
    }
  }

  /** The scan of choose_action: subtract weights until the draw is used up. */
  method Pick(actions: Weighted, draw: real) returns (r: Option<nat>)
    requires NonNegative(actions) && draw >= 0.0
    ensures r.Some? ==> Selects(actions, draw, r.value) && actions[r.value].1 > 0.0
    ensures r.None? <==> draw >= Weight(actions, |actions|)
  {
    var val := draw;
    var k := 0;
    while k < |actions|
      invariant 0 <= k <= |actions| && val == draw - Weight(actions, k) && val >= 0.0
    {
      if val < actions[k].1 {
        WeightGrows(actions, k + 1, |actions|);
        return Some(k);
      }
      val := val - actions[k].1;
      k := k + 1;
    }
    r := None;
  }

  /** One pass of the thrashing loop: its random outcomes. */
  datatype Round = Round(clean: bool, discontinuity: bool, draw: real, coin: bool)

  /** The actions that are listed whatever the lists hold have a weight. */
  ghost predicate HasWeight(cfg: Config) {
    Weight(Standing(cfg), |Standing(cfg)|) > 0.0
  }

  ghost predicate AlwaysChooses(cfg: Config, rounds: seq<Round>) {
    HasWeight(cfg) && forall k | 0 <= k < |rounds| :: rounds[k].draw < 1.0
  }

  lemma {:induction false} WeightAppend(a: Weighted, b: Weighted, k: nat)
    requires k <= |b|
    ensures Weight(a + b, |a| + k) == Weight(a, |a|) + Weight(b, k)
    decreases k
  {
    if k > 0 {
      WeightAppend(a, b, k - 1);
    } else {
      WeightPrefix(a, b, |a|);
    }
  }

  lemma {:induction false} WeightPrefix(a: Weighted, b: Weighted, k: nat)
    requires k <= |a|
    ensures Weight(a + b, k) == Weight(a, k)
    decreases k
  {
    if k > 0 {
      WeightPrefix(a, b, k - 1);
    }
  }

  lemma ChoicesWeigh(cfg: Config, inn: nat, out: nat, live: nat, dead: nat)
    requires GoodConfig(cfg) && HasWeight(cfg)
    ensures Weight(Choices(cfg, inn, out, live, dead), |Choices(cfg, inn, out, live, dead)|) > 0.0
  {
    var guarded, standing := Guarded(cfg, inn, out, live, dead), Standing(cfg);
    WeightAppend(guarded, standing, |standing|);
    GuardedPermitted(cfg, inn, out, live, dead);
    WeightGrows(guarded, 0, |guarded|);
  }

  /** `random.uniform(0, total)` for the random number `u`. */
  function Scaled(u: real, total: real): (r: real)
    requires u >= 0.0 && total >= 0.0
    ensures r >= 0.0
    ensures u < 1.0 && total > 0.0 ==> r < total
  {
    assert u < 1.0 && total > 0.0 ==> (1.0 - u) * total > 0.0;
    u * total
  }

  /** The action on whose stretch `val` falls; none beyond the total weight. */
  ghost predicate Takes(actions: Weighted, val: real, r: Option<Action>) {
    match r
    case None => val >= Weight(actions, |actions|)
    case Some(a) => exists k: nat :: Selects(actions, val, k) && actions[k].0 == a
  }

  /** The action that the random number selects from the total weight. */
  ghost predicate Chosen(actions: Weighted, u: real, r: Option<Action>) {
    Takes(actions, u * Weight(actions, |actions|), r)
  }

  method ChooseFrom(actions: Weighted, u: real) returns (r: Option<Action>, ghost k: nat)
    requires NonNegative(actions) && u >= 0.0
    ensures Chosen(actions, u, r)
    ensures r.Some? ==> k < |actions| && actions[k].0 == r.value && actions[k].1 > 0.0
    ensures u < 1.0 && Weight(actions, |actions|) > 0.0 ==> r.Some?
  {
    var total := Weight(actions, |actions|);
    WeightGrows(actions, 0, |actions|);
    var picked := Pick(actions, Scaled(u, total));
    if picked.Some? {
      k := picked.value;
      r := Some(actions[picked.value].0);
    } else {
      r, k := None, 0;
    }
  }

  lemma TakesBelow(actions: Weighted, val: real, a: Action)
    requires NonNegative(actions) && Takes(actions, val, Some(a))
    ensures val < Weight(actions, |actions|)
  {
    var k: nat :| Selects(actions, val, k) && actions[k].0 == a;
    WeightGrows(actions, k + 1, |actions|);
  }

  lemma TakesOne(actions: Weighted, val: real, r: Option<Action>, r': Option<Action>)
    requires NonNegative(actions) && Takes(actions, val, r) && Takes(actions, val, r')
    ensures r == r'
  {
    if r.Some? {
      TakesBelow(actions, val, r.value);
    }
    if r'.Some? {
      TakesBelow(actions, val, r'.value);
    }
    if r.Some? && r'.Some? {
      var k: nat :| Selects(actions, val, k) && actions[k].0 == r.value;
      var k': nat :| Selects(actions, val, k') && actions[k'].0 == r'.value;
      SelectsOne(actions, val, k, k');
    }
  }

  lemma ChosenOne(actions: Weighted, u: real, r: Option<Action>, r': Option<Action>)
    requires NonNegative(actions) && Chosen(actions, u, r) && Chosen(actions, u, r')
    ensures r == r'
  {
    TakesOne(actions, u * Weight(actions, |actions|), r, r');
  }

  // ----- what the parts of a pass do to the lists

  datatype Lists = Lists(inn: seq<Osd>, out: seq<Osd>, live: seq<Osd>, dead: seq<Osd>)

  /** `o` goes from the first list to the end of the second. */
  predicate Moves(a: seq<Osd>, b: seq<Osd>, a': seq<Osd>, b': seq<Osd>, o: Osd) {
    o in a && a' == Without(a, o) && b' == b + [o]
  }

  predicate GoesOut(x: Lists, y: Lists, o: Osd) {
    Moves(x.inn, x.out, y.inn, y.out, o) && y.live == x.live && y.dead == x.dead
  }

  predicate Dies(x: Lists, y: Lists, o: Osd) {
    Moves(x.live, x.dead, y.live, y.dead, o) && y.inn == x.inn && y.out == x.out
  }

  predicate Revives(x: Lists, y: Lists, o: Osd) {
    Moves(x.dead, x.live, y.dead, y.live, o) && y.inn == x.inn && y.out == x.out
  }

  /** A dead OSD is only revived. */
  predicate ComesIn(x: Lists, y: Lists, o: Osd) {
    o in x.out &&
    if o in x.dead then Revives(x, y, o)
    else Moves(x.out, x.inn, y.out, y.inn, o) && y.live == x.live && y.dead == x.dead
  }

  /** What an action does that does not fail. */
  ghost predicate Effect(a: Action, x: Lists, y: Lists) {
    match a
    case MarkOut => exists o :: GoesOut(x, y, o)
    case Kill => exists o :: Dies(x, y, o)
    case MarkIn => exists o :: ComesIn(x, y, o)
    case Revive => exists o :: Revives(x, y, o)
    case _ => y == x
  }

  /** Dead OSDs are revived, `os` in this order, until no more than `maxDead` are dead. */
  ghost predicate ManyRevive(x: Lists, y: Lists, maxDead: nat, os: seq<Osd>) {
    && y.live == x.live + os && multiset(x.dead) == multiset(y.dead) + multiset(os)
    && y.inn == x.inn && y.out == x.out
    && |os| == Excess(|x.dead|, maxDead)
  }

  /** OSDs that are out come in, `os` in this order; those that were dead are first revived, `rs` in
      this order. */
  ghost predicate Enter(x: Lists, y: Lists, os: seq<Osd>, rs: seq<Osd>) {
    && y.inn == x.inn + os && multiset(x.out) == multiset(y.out) + multiset(os)
    && y.live == x.live + rs && multiset(x.dead) == multiset(y.dead) + multiset(rs)
    && (forall o <- rs :: o in multiset(x.out))
    && (forall o <- os :: o !in multiset(y.dead))
  }

  /** They do so until more than `minIn` are in. */
  ghost predicate ManyComeIn(x: Lists, y: Lists, minIn: nat, os: seq<Osd>, rs: seq<Osd>) {
    Enter(x, y, os, rs) && |os| == Excess(minIn + 1, |x.inn|) && (os == [] ==> rs == [])
  }

  /** What leaves one list joins those that left it before. */
  lemma LeavesToo(all: seq<Osd>, xs: seq<Osd>, gone: seq<Osd>, o: Osd)
    requires multiset(all) == multiset(xs) + multiset(gone) && o in xs
    ensures multiset(all) == multiset(Without(xs, o)) + multiset(gone + [o])
    ensures o in multiset(all)
  {
    WithoutContents(xs, o);
    assert o in multiset(xs);
  }

  lemma EnterRevived(x: Lists, y: Lists, os: seq<Osd>, rs: seq<Osd>, z: Lists, o: Osd)
    requires Enter(x, y, os, rs) && o in y.out && Revives(y, z, o)
    ensures Enter(x, z, os, rs + [o])
  {
    LeavesToo(x.dead, y.dead, rs, o);
    WithoutContents(y.dead, o);
    assert o in multiset(y.out);
  }

  lemma EnterIn(x: Lists, y: Lists, os: seq<Osd>, rs: seq<Osd>, z: Lists, o: Osd)
    requires Enter(x, y, os, rs) && o !in y.dead && ComesIn(y, z, o)
    ensures Enter(x, z, os + [o], rs)
  {
    LeavesToo(x.out, y.out, os, o);
  }

  /** `o` dies, and goes out if it is in. */
  predicate DiesOut(x: Lists, y: Lists, o: Osd) {
    && Moves(x.live, x.dead, y.live, y.dead, o)
    && if o in x.inn then Moves(x.inn, x.out, y.inn, y.out, o) else y.inn == x.inn && y.out == x.out
  }

  /** OSDs come in, one dies and goes out, and a dead one is revived. */
  ghost predicate Discontinuity(x: Lists, y: Lists, minIn: nat) {
    exists x1, x2, os, rs, o, o' :: ManyComeIn(x, x1, minIn, os, rs) && DiesOut(x1, x2, o) && Revives(x2, y, o')
  }

  /** The discontinuity test chooses from an empty list. */
  predicate NoDiscontinuity(x: Lists, minIn: nat) {
    |x.inn| + |x.out| <= minIn || (x.live == [] && |x.inn| > minIn)
  }

  /** What a pass does before it chooses an action. */
  ghost predicate Cleans(cfg: Config, round: Round, x: Lists, y: Lists) {
    if !round.clean then y == x
    else if !round.discontinuity then exists os :: ManyRevive(x, y, cfg.maxDead, os)
    else exists x1, os :: ManyRevive(x, x1, cfg.maxDead, os) && Discontinuity(x1, y, cfg.minIn)
  }

  function ChoicesFor(cfg: Config, x: Lists): Weighted {
    Choices(cfg, |x.inn|, |x.out|, |x.live|, |x.dead|)
  }

  /** The draw selects the action, or none. */
  ghost predicate Draws(cfg: Config, round: Round, x: Lists, r: Option<Action>) {
    Chosen(ChoicesFor(cfg, x), round.draw, r)
  }

  /** A pass that does not fail performs the action that the draw selects. */
  ghost predicate Passes(cfg: Config, round: Round, x: Lists, y: Lists) {
    exists x1, a ::
      && Cleans(cfg, round, x, x1) && Draws(cfg, round, x1, Some(a))
      && !Fails(a, round.coin, |x1.inn|, |x1.live|) && Effect(a, x1, y)
  }

  ghost predicate PassesAt(cfg: Config, rounds: seq<Round>, states: seq<Lists>, k: nat) {
    k < |rounds| && k + 1 < |states| && Passes(cfg, rounds[k], states[k], states[k + 1])
  }

  /** Each state but the first comes from the one before by a pass. */
  ghost predicate IsRun(cfg: Config, rounds: seq<Round>, states: seq<Lists>) {
    forall k | 0 <= k < |states| - 1 :: PassesAt(cfg, rounds, states, k)
  }

  lemma RunGoesOn(cfg: Config, rounds: seq<Round>, states: seq<Lists>, y: Lists)
    requires IsRun(cfg, rounds, states) && 0 < |states| <= |rounds|
    requires Passes(cfg, rounds[|states| - 1], states[|states| - 1], y)
    ensures IsRun(cfg, rounds, states + [y])
  {
    forall k | 0 <= k < |states|
      ensures PassesAt(cfg, rounds, states + [y], k)
    {
      assert k < |states| - 1 ==> PassesAt(cfg, rounds, states, k);
    }
  }

  /** Enough OSDs are in and live in every state. */
  predicate AllBounded(cfg: Config, states: seq<Lists>) {
    forall x <- states :: |x.inn| >= cfg.minIn && |x.live| >= cfg.minLive
  }

  /** No action is selected, or one that fails. */
  ghost predicate Stuck(cfg: Config, round: Round, x: Lists) {
    exists r :: Draws(cfg, round, x, r) && (r.None? || Fails(r.value, round.coin, |x.inn|, |x.live|))
  }

  ghost predicate PassFails(cfg: Config, round: Round, x: Lists) {
    || (exists x1 :: Cleans(cfg, round, x, x1) && Stuck(cfg, round, x1))
    || (round.clean && round.discontinuity &&
        exists x1, os :: ManyRevive(x, x1, cfg.maxDead, os) && NoDiscontinuity(x1, cfg.minIn))
  }

  lemma DrawsOne(cfg: Config, round: Round, x: Lists, r: Option<Action>, r': Option<Action>)
    requires GoodConfig(cfg) && Draws(cfg, round, x, r) && Draws(cfg, round, x, r')
    ensures r == r'
  {
    ChoicesPermitted(cfg, |x.inn|, |x.out|, |x.live|, |x.dead|);
    ChosenOne(ChoicesFor(cfg, x), round.draw, r, r');
  }

  lemma StuckIff(cfg: Config, round: Round, x: Lists, r: Option<Action>)
    requires GoodConfig(cfg) && Draws(cfg, round, x, r)
    ensures Stuck(cfg, round, x) <==> r.None? || Fails(r.value, round.coin, |x.inn|, |x.live|)
  {
    forall r' | Draws(cfg, round, x, r')
      ensures r' == r
    {
      DrawsOne(cfg, round, x, r, r');
    }
  }

  class Thrasher {
    const cfg: Config
    ghost const all: set<Osd>
    var inOsds: seq<Osd>
    var outOsds: seq<Osd>
    var liveOsds: seq<Osd>
    var deadOsds: seq<Osd>

    constructor (cfg: Config, inOsds: seq<Osd>, outOsds: seq<Osd>, liveOsds: seq<Osd>, deadOsds: seq<Osd>,
                 ghost all: set<Osd>)
      requires GoodConfig(cfg) && SharedOut(inOsds, outOsds, all) && SharedOut(liveOsds, deadOsds, all)
      ensures Valid() && this.cfg == cfg && this.all == all
      ensures this.inOsds == inOsds && this.outOsds == outOsds && this.liveOsds == liveOsds && this.deadOsds == deadOsds
    {
      this.cfg, this.all := cfg, all;
      this.inOsds, this.outOsds, this.liveOsds, this.deadOsds := inOsds, outOsds, liveOsds, deadOsds;
    }

    ghost predicate Valid()
      reads this
    {
      GoodConfig(cfg) && SharedOut(inOsds, outOsds, all) && SharedOut(liveOsds, deadOsds, all)
    }

    ghost predicate Bounded()
      reads this
    {
      |inOsds| >= cfg.minIn && |liveOsds| >= cfg.minLive
    }

    ghost function Now(): Lists
      reads this
    {
      Lists(inOsds, outOsds, liveOsds, deadOsds)
    }

    // ----- single actions; None stands for a random choice

    method OutOsd(osd: Option<Osd>) returns (o: Osd)
      requires Valid() && (osd.Some? ==> osd.value in inOsds) && (osd.None? ==> inOsds != [])
      modifies this`inOsds, this`outOsds
      ensures Valid() && o in old(inOsds) && (osd.Some? ==> o == osd.value)
      ensures inOsds == Without(old(inOsds), o) && |inOsds| == |old(inOsds)| - 1 && outOsds == old(outOsds) + [o]
    {
      if osd.Some? {
        o := osd.value;
      } else {
        var k :| 0 <= k < |inOsds|;
        o := inOsds[k];
      }
      MoveKeepsShare(inOsds, outOsds, all, o);
      inOsds := Without(inOsds, o);
      outOsds := outOsds + [o];
    }

    method KillOsd(osd: Option<Osd>, markOut: bool) returns (o: Osd)
      requires Valid() && (osd.Some? ==> osd.value in liveOsds) && (osd.None? ==> liveOsds != [])
      modifies this`inOsds, this`outOsds, this`liveOsds, this`deadOsds
      ensures Valid() && o in old(liveOsds) && (osd.Some? ==> o == osd.value)
      ensures liveOsds == Without(old(liveOsds), o) && |liveOsds| == |old(liveOsds)| - 1
      ensures deadOsds == old(deadOsds) + [o]
      ensures if markOut && o in old(inOsds)
              then inOsds == Without(old(inOsds), o) && |inOsds| == |old(inOsds)| - 1 && outOsds == old(outOsds) + [o]
              else inOsds == old(inOsds) && outOsds == old(outOsds)
    {
      if osd.Some? {
        o := osd.value;
      } else {
        var k :| 0 <= k < |liveOsds|;
        o := liveOsds[k];
      }
      MoveKeepsShare(liveOsds, deadOsds, all, o);
      liveOsds := Without(liveOsds, o);
      deadOsds := deadOsds + [o];
      if markOut && o in inOsds {
        var _ := OutOsd(Some(o));
      }
    }

    method ReviveOsd(osd: Option<Osd>) returns (o: Osd)
      requires Valid() && (osd.Some? ==> osd.value in deadOsds) && (osd.None? ==> deadOsds != [])
      modifies this`liveOsds, this`deadOsds
      ensures Valid() && o in old(deadOsds) && (osd.Some? ==> o == osd.value)
      ensures deadOsds == Without(old(deadOsds), o) && |deadOsds| == |old(deadOsds)| - 1
      ensures liveOsds == old(liveOsds) + [o]
    {
      if osd.Some? {
        o := osd.value;
      } else {
        var k :| 0 <= k < |deadOsds|;
        o := deadOsds[k];
      }
      ShareSwap(liveOsds, deadOsds, all);
      MoveKeepsShare(deadOsds, liveOsds, all, o);
      deadOsds := Without(deadOsds, o);
      liveOsds := liveOsds + [o];
      ShareSwap(deadOsds, liveOsds, all);
    }

    /** A dead OSD is only revived; it stays out. */
    method InOsd(osd: Option<Osd>) returns (o: Osd)
      requires Valid() && (osd.Some? ==> osd.value in outOsds) && (osd.None? ==> outOsds != [])
      modifies this`inOsds, this`outOsds, this`liveOsds, this`deadOsds
      ensures Valid() && o in old(outOsds) && (osd.Some? ==> o == osd.value)
      ensures if o in old(deadOsds)
              then && inOsds == old(inOsds) && outOsds == old(outOsds)
                   && deadOsds == Without(old(deadOsds), o) && |deadOsds| == |old(deadOsds)| - 1
                   && liveOsds == old(liveOsds) + [o]
              else && outOsds == Without(old(outOsds), o) && |outOsds| == |old(outOsds)| - 1
                   && inOsds == old(inOsds) + [o]
                   && liveOsds == old(liveOsds) && deadOsds == old(deadOsds)
    {
      if osd.Some? {
        o := osd.value;
      } else {
        var k :| 0 <= k < |outOsds|;
        o := outOsds[k];
      }
      if o in deadOsds {
        var _ := ReviveOsd(Some(o));
        return;
      }
      ShareSwap(inOsds, outOsds, all);
      MoveKeepsShare(outOsds, inOsds, all, o);
      outOsds := Without(outOsds, o);
      inOsds := inOsds + [o];
      ShareSwap(outOsds, inOsds, all);
    }

    /** Whatever is chosen at random, every OSD ends up live and in. */
    method AllUp()
      requires Valid()
      modifies this`inOsds, this`outOsds, this`liveOsds, this`deadOsds
      ensures Valid() && deadOsds == [] && outOsds == []
      ensures multiset(liveOsds) == multiset(all) && multiset(inOsds) == multiset(all)
    {
      while |deadOsds| > 0
        invariant Valid()
        decreases |deadOsds|
      {
        var _ := ReviveOsd(None);
      }
      while |outOsds| > 0
        invariant Valid() && deadOsds == []
        decreases |outOsds|
      {
        var _ := InOsd(None);
      }
    }

    /** After an OSD came in, one is live. */
    lemma SomeLive(x: Lists, y: Lists, os: seq<Osd>, rs: seq<Osd>)
      requires Enter(x, y, os, rs) && SharedOut(y.live, y.dead, all) && SharedOut(y.inn, y.out, all) && os != []
      ensures y.live != []
    {
      SharedOutSize(y.live, y.dead, all);
      SharedOutSize(y.inn, y.out, all);
      assert os[0] in os && os[0] in y.inn && os[0] in all;
      assert os[0] !in multiset(y.dead);
    }

    /** OSDs come in until enough are; fails exactly when there are too few OSDs. */
    method BringIn() returns (raised: bool, ghost os: seq<Osd>, ghost rs: seq<Osd>)
      requires Valid()
      modifies this`inOsds, this`outOsds, this`liveOsds, this`deadOsds
      ensures Valid() && (raised <==> |all| <= cfg.minIn)
      ensures !raised ==> ManyComeIn(old(Now()), Now(), cfg.minIn, os, rs)
    {
      SharedOutSize(inOsds, outOsds, all);
      os, rs := [], [];
      while |inOsds| < cfg.minIn + 1
        invariant Valid() && Enter(old(Now()), Now(), os, rs)
        invariant old(|inOsds|) > cfg.minIn ==> os == [] && rs == []
        invariant |os| <= Excess(cfg.minIn + 1, old(|inOsds|))
        decreases |deadOsds| + |outOsds|
      {
        SharedOutSize(inOsds, outOsds, all);
        if outOsds == [] {
          return true, os, rs;
        }
        SharedOutSize(liveOsds, deadOsds, all);
        ghost var x := Now();
        var o := InOsd(None);
        if o in x.dead {
          EnterRevived(old(Now()), x, os, rs, Now(), o);
          rs := rs + [o];
        } else {
          EnterIn(old(Now()), x, os, rs, Now(), o);
          os := os + [o];
        }
      }
      SharedOutSize(inOsds, outOsds, all);
      raised := false;
    }

    /** One OSD dies and goes out, then a dead one, the same or another, is revived. */
    method KillAndRevive() returns (ghost between: Lists, ghost killed: Osd, ghost revived: Osd)
      requires Valid() && liveOsds != []
      modifies this`inOsds, this`outOsds, this`liveOsds, this`deadOsds
      ensures Valid() && DiesOut(old(Now()), between, killed) && Revives(between, Now(), revived)
      ensures killed in outOsds && (killed == revived || killed in deadOsds)
      ensures |liveOsds| == old(|liveOsds|) && liveOsds[|liveOsds| - 1] == revived && |inOsds| >= old(|inOsds|) - 1
    {
      SharedOutSize(inOsds, outOsds, all);
      SharedOutSize(liveOsds, deadOsds, all);
      var o := KillOsd(None, true);
      between := Now();
      var o' := ReviveOsd(None);
      killed, revived := o, o';
      if o != o' {
        WithoutKeeps(between.dead, o', o);
      }
    }

    /** Fails, by choosing from an empty list, exactly when there are too few OSDs, or none is
        live and none is brought in first. */
    method TestMapDiscontinuity() returns (raised: bool, ghost killed: Osd, ghost revived: Osd)
      requires Valid()
      modifies this`inOsds, this`outOsds, this`liveOsds, this`deadOsds
      ensures Valid()
      ensures raised <==> |all| <= cfg.minIn || (old(liveOsds) == [] && old(|inOsds|) > cfg.minIn)
      ensures raised <==> NoDiscontinuity(old(Now()), cfg.minIn)
      ensures !raised ==> killed in outOsds && (killed == revived || killed in deadOsds)
      ensures !raised ==> liveOsds != [] && liveOsds[|liveOsds| - 1] == revived
      ensures !raised ==> Discontinuity(old(Now()), Now(), cfg.minIn)
      ensures !raised ==> |inOsds| >= cfg.minIn && |liveOsds| >= old(|liveOsds|) && |liveOsds| >= 1
    {
      SharedOutSize(inOsds, outOsds, all);
      killed, revived := 0, 0;
      ghost var os, rs;
      raised, os, rs := BringIn();
      if raised {
        return;
      }
      ghost var x1 := Now();
      if os != [] {
        SomeLive(old(Now()), x1, os, rs);
      }
      if liveOsds == [] {
        return true, 0, 0;
      }
      ghost var x2;
      x2, killed, revived := KillAndRevive();
      assert DiesOut(x1, x2, killed) && Revives(x2, Now(), revived);
    }

    /** The listing and the scan of choose_action; None is a draw that no action uses up. */
    method ChooseAction(u: real) returns (r: Option<Action>)
      requires Valid() && u >= 0.0
      ensures Chosen(Choices(cfg, |inOsds|, |outOsds|, |liveOsds|, |deadOsds|), u, r)
      ensures r.Some? ==> Permitted(cfg, |inOsds|, |outOsds|, |liveOsds|, |deadOsds|, r.value)
      ensures 0.0 <= u < 1.0 && HasWeight(cfg) ==> r.Some?
    {
      var actions := Choices(cfg, |inOsds|, |outOsds|, |liveOsds|, |deadOsds|);
      ChoicesPermitted(cfg, |inOsds|, |outOsds|, |liveOsds|, |deadOsds|);
      ghost var k;
      r, k := ChooseFrom(actions, u);
      if HasWeight(cfg) {
        ChoicesWeigh(cfg, |inOsds|, |outOsds|, |liveOsds|, |deadOsds|);
      }
    }

    /** An action that choose_action permits fails exactly as `Fails` says, and otherwise keeps the
        bounds that the thrasher is given. */
    method Perform(a: Action, coin: bool) returns (raised: bool)
      requires Valid() && Permitted(cfg, |inOsds|, |outOsds|, |liveOsds|, |deadOsds|, a)
      modifies this`inOsds, this`outOsds, this`liveOsds, this`deadOsds
      ensures Valid() && raised == Fails(a, coin, old(|inOsds|), old(|liveOsds|))
      ensures raised <==> || a.TestMinSize?
                          || (a.PrimaryAffinity? && old(inOsds) == [])
                          || (a.Reweight? && coin && old(inOsds) == [])
                          || (a.InjectPause? && old(liveOsds) == [])
      ensures !raised && old(Bounded()) ==> Bounded()
      ensures a.MarkOut? || a.MarkIn? || a.TestMinSize? || (inOsds == old(inOsds) && outOsds == old(outOsds))
      ensures a.Kill? || a.MarkIn? || a.Revive? || a.TestMinSize? ||
              (liveOsds == old(liveOsds) && deadOsds == old(deadOsds))
      ensures a.MarkOut? ==> |inOsds| == old(|inOsds|) - 1
      ensures a.Kill? ==> |liveOsds| == old(|liveOsds|) - 1
      ensures a.MarkIn? ==> |inOsds| + |liveOsds| == old(|inOsds| + |liveOsds|) + 1
      ensures a.Revive? ==> |liveOsds| == old(|liveOsds|) + 1
      ensures a.TestMinSize? ==> deadOsds == [] && outOsds == []
      ensures !raised ==> Effect(a, old(Now()), Now())
    {
      raised := false;
      match a {
        case MarkOut =>
          var o := OutOsd(None);
          assert GoesOut(old(Now()), Now(), o);
        case Kill =>
          var o := KillOsd(None, false);
          assert Dies(old(Now()), Now(), o);
        case MarkIn =>
          var o := InOsd(None);
          assert ComesIn(old(Now()), Now(), o);
        case Revive =>
          var o := ReviveOsd(None);
          assert Revives(old(Now()), Now(), o);
        case PrimaryAffinity => raised := inOsds == [];
        case Reweight => raised := coin && inOsds == [];
        case InjectPause => raised := liveOsds == [];
        case TestMinSize =>
          AllUp();
          raised := true;
        case _ =>
      }
    }

    method ReviveMany() returns (ghost os: seq<Osd>)
      requires Valid()
      modifies this`inOsds, this`outOsds, this`liveOsds, this`deadOsds
      ensures Valid() && ManyRevive(old(Now()), Now(), cfg.maxDead, os)
    {
      os := [];
      while |deadOsds| > cfg.maxDead
        invariant Valid() && inOsds == old(inOsds) && outOsds == old(outOsds)
        invariant liveOsds == old(liveOsds) + os && multiset(old(deadOsds)) == multiset(deadOsds) + multiset(os)
        invariant |deadOsds| + |os| == old(|deadOsds|) && (|deadOsds| < cfg.maxDead ==> os == [])
        decreases |deadOsds|
      {
        ghost var dead := deadOsds;
        var o := ReviveOsd(None);
        LeavesToo(old(deadOsds), dead, os, o);
        os := os + [o];
      }
    }

    /** The part of a pass that brings dead OSDs back and may test a gap in the maps. */
    method CleanUp(round: Round) returns (raised: bool)
      requires Valid()
      modifies this`inOsds, this`outOsds, this`liveOsds, this`deadOsds
      ensures Valid() && (raised ==> |all| <= cfg.minIn || old(liveOsds) == [])
      ensures !raised && old(Bounded()) ==> Bounded()
      ensures round.clean && !round.discontinuity ==> |deadOsds| <= cfg.maxDead
      ensures if raised then round.clean && round.discontinuity && PassFails(cfg, round, old(Now()))
              else Cleans(cfg, round, old(Now()), Now())
    {
      raised := false;
      if round.clean {
        ghost var os := ReviveMany();
        SharedOutSize(inOsds, outOsds, all);
        if round.discontinuity {
          ghost var killed, revived;
          raised, killed, revived := TestMapDiscontinuity();
        }
      }
    }

    /** A pass performs the action that its draw selects. Without a clean-up it fails if and only if
        none is selected or the one that is fails. */
    method Pass(round: Round) returns (raised: bool, ghost cleaned: Lists, ghost action: Option<Action>)
      requires Valid() && round.draw >= 0.0
      modifies this`inOsds, this`outOsds, this`liveOsds, this`deadOsds
      ensures Valid()
      ensures !raised && old(Bounded()) ==> Bounded()
      ensures && old(Bounded()) && |all| > cfg.minIn && cfg.minLive >= 1
              && Safe(cfg) && HasWeight(cfg) && round.draw < 1.0
              ==> !raised
      ensures if raised then PassFails(cfg, round, old(Now())) else Passes(cfg, round, old(Now()), Now())
      ensures !round.clean ==> cleaned == old(Now()) && (raised <==> Stuck(cfg, round, old(Now())))
      ensures !raised ==> Cleans(cfg, round, old(Now()), cleaned) && Draws(cfg, round, cleaned, action)
      ensures !raised ==> action.Some? && Effect(action.value, cleaned, Now())
    {
      raised := CleanUp(round);
      cleaned, action := Now(), None;
      if raised {
        return;
      }
      var chosen := ChooseAction(round.draw);
      action := chosen;
      StuckIff(cfg, round, cleaned, action);
      if chosen.None? {
        return true, cleaned, action;
      }
      raised := Perform(chosen.value, round.coin);
    }

    /** One pass more. */
    method NextPass(rounds: seq<Round>, k: nat, ghost before: seq<Lists>)
      returns (raised: bool, ghost states: seq<Lists>)
      requires Valid() && k < |rounds| && |before| == k + 1 && before[k] == Now() && IsRun(cfg, rounds, before)
      requires 0.0 <= rounds[k].draw
      modifies this`inOsds, this`outOsds, this`liveOsds, this`deadOsds
      ensures Valid() && states == (if raised then before else before + [Now()]) && IsRun(cfg, rounds, states)
      ensures raised ==> PassFails(cfg, rounds[k], before[k])
      ensures !raised && old(Bounded()) ==> Bounded()
      ensures old(Bounded()) && |all| > cfg.minIn && cfg.minLive >= 1 && Safe(cfg) && AlwaysChooses(cfg, rounds) ==>
                !raised
    {
      ghost var cleaned, action;
      raised, cleaned, action := Pass(rounds[k]);
      states := before;
      if !raised {
        RunGoesOn(cfg, rounds, before, Now());
        states := before + [Now()];
      }
    }

    /** The passes of a run; `states` are the lists as each pass begins and after the last. */
    method Thrash(rounds: seq<Round>) returns (raised: bool, ghost states: seq<Lists>)
      requires Valid() && forall k | 0 <= k < |rounds| :: 0.0 <= rounds[k].draw
      modifies this`inOsds, this`outOsds, this`liveOsds, this`deadOsds
      ensures Valid() && 0 < |states| <= |rounds| + 1 && states[0] == old(Now()) && IsRun(cfg, rounds, states)
      ensures raised <==> |states| <= |rounds|
      ensures raised ==> PassFails(cfg, rounds[|states| - 1], states[|states| - 1])
      ensures old(Bounded()) ==> AllBounded(cfg, states)
      ensures old(Bounded()) && |all| > cfg.minIn && cfg.minLive >= 1 && Safe(cfg) && AlwaysChooses(cfg, rounds) ==>
                !raised
    {
      states := [Now()];
      var k := 0;
      while k < |rounds|
        invariant 0 <= k <= |rounds| && |states| == k + 1 && Valid()
        invariant states[0] == old(Now()) && states[k] == Now()
        invariant IsRun(cfg, rounds, states)
        invariant old(Bounded()) ==> Bounded() && AllBounded(cfg, states)
      {
        raised, states := NextPass(rounds, k, states);
        if raised {
          return;
        }
        k := k + 1;
      }
      raised := false;
    }

    /** Each pass does what its draw selects, and the run ends early exactly when a pass fails, or at
        once when no OSD is live. From a bounded start the bounds hold whenever a pass begins; with a
        safe configuration, more OSDs than must be in and one of them live, no pass fails. In the end
        every OSD is live and in. */
    method DoThrash(rounds: seq<Round>) returns (raised: bool, ghost states: seq<Lists>)
      requires Valid()
      requires forall k | 0 <= k < |rounds| :: 0.0 <= rounds[k].draw
      modifies this`inOsds, this`outOsds, this`liveOsds, this`deadOsds
      ensures Valid()
      ensures if old(liveOsds) == [] then states == []
              else 0 < |states| <= |rounds| + 1 && states[0] == old(Now()) && IsRun(cfg, rounds, states)
      ensures raised <==> |states| <= |rounds|
      ensures raised && states != [] ==> PassFails(cfg, rounds[|states| - 1], states[|states| - 1])
      ensures old(Bounded()) ==> AllBounded(cfg, states)
      ensures old(Bounded()) && |all| > cfg.minIn && cfg.minLive >= 1 && Safe(cfg) && AlwaysChooses(cfg, rounds) ==>
                !raised
      ensures !raised ==> deadOsds == [] && outOsds == []
      ensures !raised ==> multiset(liveOsds) == multiset(all) && multiset(inOsds) == multiset(all)
    {
      states := [];
      if liveOsds == [] {
        return true, states;
      }
      raised, states := Thrash(rounds);
      if !raised {
        AllUp();
      }
    }
  }
}
