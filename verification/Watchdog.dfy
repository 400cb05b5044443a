/** The daemon watchdog: it remembers since when each daemon has been failed, and barks when one
    has been failed for too long or a thrasher has died. */
module Watchdog {

  /** A daemon has a name, made of its role and number, and an object that stands for it. */
  datatype Daemon = Daemon(name: string, obj: int)

  /** What the watchdog sees at one of its ticks. */
  datatype Tick = Tick(now: int, failed: seq<Daemon>, thrasherDied: bool)

  /** What the watchdog remembers of a failed daemon. */
  datatype Failure = Failure(obj: int, since: int)

  type Memory = map<string, Failure>

  predicate Names(ds: seq<Daemon>, name: string) {
    exists d <- ds :: d.name == name
  }

  /** The object of the first daemon of that name. */
  function ObjectOf(ds: seq<Daemon>, name: string): (o: int)
    requires Names(ds, name)
    ensures Daemon(name, o) in ds
  {
    if ds[0].name == name then ds[0].obj else ObjectOf(ds[1..], name)
  }

  lemma {:induction false} ObjectOfNew(ds: seq<Daemon>, k: nat)
    requires k < |ds| && !Names(ds[..k], ds[k].name)
    ensures Names(ds, ds[k].name) && ObjectOf(ds, ds[k].name) == ds[k].obj
    decreases k
  {
    if k > 0 {
      assert ds[0] in ds[..k] && ds[1..][..k - 1] == ds[..k][1..];
      ObjectOfNew(ds[1..], k - 1);
    }
  }

  /** The tick with which the failure of `name` that is seen at tick `k` began. */
  function StreakStart(ticks: seq<Tick>, k: nat, name: string): (s: nat)
    requires k < |ticks|
    ensures s <= k
  {
    if k == 0 || !Names(ticks[k - 1].failed, name) then k else StreakStart(ticks, k - 1, name)
  }

  /** That is the unbroken run of failed ticks that ends with `k`, and no longer one. */
  lemma {:induction false} StreakUnbroken(ticks: seq<Tick>, k: nat, name: string)
    requires k < |ticks| && Names(ticks[k].failed, name)
    ensures var s := StreakStart(ticks, k, name);
            && (forall j | s <= j <= k :: Names(ticks[j].failed, name))
            && (s > 0 ==> !Names(ticks[s - 1].failed, name))
  {
    if k > 0 && Names(ticks[k - 1].failed, name) {
      StreakUnbroken(ticks, k - 1, name);
    }
  }

  /** The object and the time with which the failure of `name` began. */
  ghost function Began(ticks: seq<Tick>, k: nat, name: string): Failure
    requires k < |ticks| && Names(ticks[k].failed, name)
  {
    StreakUnbroken(ticks, k, name);
    var start := ticks[StreakStart(ticks, k, name)];
    Failure(ObjectOf(start.failed, name), start.now)
  }

  /** The `i`-th failed daemon has been failed for longer than the timeout. */
  ghost predicate OverdueAt(ticks: seq<Tick>, k: nat, timeout: int, i: nat)
    requires k < |ticks| && i < |ticks[k].failed|
  {
    ticks[k].now - Began(ticks, k, ticks[k].failed[i].name).since > timeout
  }

  ghost predicate Barks(ticks: seq<Tick>, k: nat, timeout: int)
    requires k < |ticks|
  {
    ticks[k].thrasherDied || exists i | 0 <= i < |ticks[k].failed| :: OverdueAt(ticks, k, timeout, i)
  }

  /** The `i`-th failed daemon is not the object with which the failure of its name began. */
  ghost predicate SwappedAt(ticks: seq<Tick>, k: nat, i: nat)
    requires k < |ticks| && i < |ticks[k].failed|
  {
    Began(ticks, k, ticks[k].failed[i].name).obj != ticks[k].failed[i].obj
  }

  ghost predicate Swapped(ticks: seq<Tick>, k: nat)
    requires k < |ticks|
  {
    exists i | 0 <= i < |ticks[k].failed| :: SwappedAt(ticks, k, i)
  }

  /** The failed ticks of `name` from `s` to `k` are unbroken, and `s` is the first of them. */
  ghost predicate IsStreak(ticks: seq<Tick>, s: nat, k: nat, name: string)
    requires k < |ticks|
  {
    && s <= k && (forall j | s <= j <= k :: Names(ticks[j].failed, name))
    && (s > 0 ==> !Names(ticks[s - 1].failed, name))
  }

  lemma StreakUnique(ticks: seq<Tick>, s: nat, k: nat, name: string)
    requires k < |ticks| && IsStreak(ticks, s, k, name)
    ensures s == StreakStart(ticks, k, name)
  {
    StreakUnbroken(ticks, k, name);
  }

  /** The watchdog barks when a thrasher died, or some daemon is failed at an unbroken run of ticks
      that began more than the timeout ago. */
  lemma BarksIff(ticks: seq<Tick>, k: nat, timeout: int)
    requires k < |ticks|
    ensures Barks(ticks, k, timeout) <==>
            || ticks[k].thrasherDied
            || exists s: nat, d | d in ticks[k].failed ::
                 IsStreak(ticks, s, k, d.name) && ticks[k].now - ticks[s].now > timeout
  {
    if i :| 0 <= i < |ticks[k].failed| && OverdueAt(ticks, k, timeout, i) {
      var d := ticks[k].failed[i];
      StreakUnbroken(ticks, k, d.name);
      assert IsStreak(ticks, StreakStart(ticks, k, d.name), k, d.name);
    }
    if s: nat, d :| d in ticks[k].failed && IsStreak(ticks, s, k, d.name) && ticks[k].now - ticks[s].now > timeout {
      StreakUnique(ticks, s, k, d.name);
      var i :| 0 <= i < |ticks[k].failed| && ticks[k].failed[i] == d;
      assert OverdueAt(ticks, k, timeout, i);
    }
  }

  /** It fails when a failed daemon is not the first object of its name at the first tick of the run. */
  lemma SwappedIff(ticks: seq<Tick>, k: nat)
    requires k < |ticks|
    ensures Swapped(ticks, k) <==>
            exists s: nat, d | d in ticks[k].failed ::
              IsStreak(ticks, s, k, d.name) && ObjectOf(ticks[s].failed, d.name) != d.obj
  {
    if i :| 0 <= i < |ticks[k].failed| && SwappedAt(ticks, k, i) {
      var d := ticks[k].failed[i];
      StreakUnbroken(ticks, k, d.name);
      assert IsStreak(ticks, StreakStart(ticks, k, d.name), k, d.name);
    }
    if s: nat, d :| d in ticks[k].failed && IsStreak(ticks, s, k, d.name) &&
                    ObjectOf(ticks[s].failed, d.name) != d.obj {
      StreakUnique(ticks, s, k, d.name);
      var i :| 0 <= i < |ticks[k].failed| && ticks[k].failed[i] == d;
      assert SwappedAt(ticks, k, i);
    }
  }

  /** Exactly the failed daemons, each with the object and time with which its failure began. */
  ghost predicate Tracks(memory: Memory, ticks: seq<Tick>, k: nat)
    requires k < |ticks|
  {
    && (forall name :: name in memory <==> Names(ticks[k].failed, name))
    && (forall name <- memory :: memory[name] == Began(ticks, k, name))
  }

  /** What is remembered of `name` after a tick at which it is failed. */
  function Noted(before: Memory, tick: Tick, name: string): Failure
    requires name in before || Names(tick.failed, name)
  {
    if name in before then before[name] else Failure(ObjectOf(tick.failed, name), tick.now)
  }

  /** The memory after the first `i` failed daemons of a tick. */
  function NotedSoFar(before: Memory, tick: Tick, i: nat): Memory
    requires i <= |tick.failed|
  {
    if i == 0 then before
    else
      var memory, d := NotedSoFar(before, tick, i - 1), tick.failed[i - 1];
      if d.name in memory then memory else memory[d.name := Failure(d.obj, tick.now)]
  }

  lemma {:induction false} NotedSoFarIs(before: Memory, tick: Tick, i: nat, name: string)
    requires i <= |tick.failed|
    ensures name in NotedSoFar(before, tick, i) <==> name in before || Names(tick.failed[..i], name)
    ensures name in NotedSoFar(before, tick, i) ==>
              && (name in before || Names(tick.failed, name))
              && NotedSoFar(before, tick, i)[name] == Noted(before, tick, name)
  {
    if i > 0 {
      NotedSoFarIs(before, tick, i - 1, name);
      assert tick.failed[..i] == tick.failed[..i - 1] + [tick.failed[i - 1]];
      if tick.failed[i - 1].name == name && name !in NotedSoFar(before, tick, i - 1) {
        ObjectOfNew(tick.failed, i - 1);
      }
    }
  }

  lemma NotedDaemon(before: Memory, tick: Tick, i: nat)
    requires i < |tick.failed|
    ensures tick.failed[i].name in NotedSoFar(before, tick, i + 1)
    ensures Names(tick.failed, tick.failed[i].name)
    ensures NotedSoFar(before, tick, i + 1)[tick.failed[i].name] == Noted(before, tick, tick.failed[i].name)
  {
    NotedSoFarIs(before, tick, i + 1, tick.failed[i].name);
  }

  lemma NotedAll(before: Memory, tick: Tick)
    ensures var memory := NotedSoFar(before, tick, |tick.failed|);
            && (forall name :: name in memory <==> name in before || Names(tick.failed, name))
            && (forall name <- memory :: memory[name] == Noted(before, tick, name))
  {
    assert tick.failed[..|tick.failed|] == tick.failed;
    forall name: string
      ensures var memory := NotedSoFar(before, tick, |tick.failed|);
              && (name in memory <==> name in before || Names(tick.failed, name))
              && (name in memory ==> memory[name] == Noted(before, tick, name))
    {
      NotedSoFarIs(before, tick, |tick.failed|, name);
    }
  }

  /** The failure of the `i`-th failed daemon began with another object. */
  predicate OtherObject(before: Memory, tick: Tick, i: nat)
    requires i < |tick.failed|
  {
    Noted(before, tick, tick.failed[i].name).obj != tick.failed[i].obj
  }

  /** The `i`-th failed daemon has been failed for longer than the timeout. */
  predicate Overdue(before: Memory, tick: Tick, timeout: int, i: nat)
    requires i < |tick.failed|
  {
    tick.now - Noted(before, tick, tick.failed[i].name).since > timeout
  }

  /** The first half of a tick: failed daemons enter the memory, unless their name is in it; then
      the object must be the same. */
  method NoteFailures(before: Memory, tick: Tick, timeout: int) returns (raised: bool, memory: Memory, bark: bool)
    ensures raised <==> exists i | 0 <= i < |tick.failed| :: OtherObject(before, tick, i)
    ensures !raised ==> forall name :: name in memory <==> name in before || Names(tick.failed, name)
    ensures !raised ==> forall name <- memory :: memory[name] == Noted(before, tick, name)
    ensures !raised ==> (bark <==> exists i | 0 <= i < |tick.failed| :: Overdue(before, tick, timeout, i))
  {
    memory, bark := before, false;
    var i := 0;
    while i < |tick.failed|
      invariant 0 <= i <= |tick.failed| && memory == NotedSoFar(before, tick, i)
      invariant forall j | 0 <= j < i :: !OtherObject(before, tick, j)
      invariant bark <==> exists j | 0 <= j < i :: Overdue(before, tick, timeout, j)
    {
      var d := tick.failed[i];
      NotedDaemon(before, tick, i);
      if d.name !in memory {
        memory := memory[d.name := Failure(d.obj, tick.now)];
      }
      assert memory == NotedSoFar(before, tick, i + 1);
      if memory[d.name].obj != d.obj {
        assert OtherObject(before, tick, i);
        return true, memory, bark;
      }
      if tick.now - memory[d.name].since > timeout {
        assert Overdue(before, tick, timeout, i);
        bark := true;
      }
      i := i + 1;
    }
    NotedAll(before, tick);
    raised := false;
  }

  /** The second half: restored daemons leave the memory. */
  method ForgetRestored(before: Memory, failed: seq<Daemon>) returns (memory: Memory)
    ensures forall name :: name in memory <==> name in before && Names(failed, name)
    ensures forall name <- memory :: memory[name] == before[name]
  {
    memory := before;
    var names := before.Keys;
    while names != {}
      invariant names <= before.Keys && memory.Keys <= before.Keys
      invariant forall name <- before :: name in memory <==> name in names || Names(failed, name)
      invariant forall name <- memory :: memory[name] == before[name]
      decreases names
    {
      var name :| name in names;
      if !Names(failed, name) {
        memory := memory - {name};
      }
      names := names - {name};
    }
  }

  datatype Outcome = Stopped | Barked(at: nat) | Raised(at: nat)

  /** The first tick at which the watchdog ends, if any. */
  function EndOf(outcome: Outcome, ticks: seq<Tick>): nat {
    match outcome
    case Stopped => |ticks|
    case Barked(k) => k
    case Raised(k) => k
  }

  /** With the memory of the tick before, both decisions are those of the whole history. */
  lemma TickBegan(before: Memory, ticks: seq<Tick>, k: nat, timeout: int)
    requires k < |ticks| && (if k == 0 then before == map[] else Tracks(before, ticks, k - 1))
    ensures forall i | 0 <= i < |ticks[k].failed| :: OtherObject(before, ticks[k], i) == SwappedAt(ticks, k, i)
    ensures forall i | 0 <= i < |ticks[k].failed| ::
              Overdue(before, ticks[k], timeout, i) == OverdueAt(ticks, k, timeout, i)
  {
  }

  lemma MemoryBegan(before: Memory, memory: Memory, ticks: seq<Tick>, k: nat)
    requires k < |ticks| && (if k == 0 then before == map[] else Tracks(before, ticks, k - 1))
    requires forall name :: name in memory <==> Names(ticks[k].failed, name)
    requires forall name <- memory :: memory[name] == Noted(before, ticks[k], name)
    ensures Tracks(memory, ticks, k)
  {
  }

  /** Over every sequence of ticks: the watchdog barks at the first tick that calls for it, fails at
      the first at which a failed daemon is another object, and otherwise goes on; unless it fails,
      its memory tracks the last tick it saw. */
  method Watch(ticks: seq<Tick>, timeout: int) returns (outcome: Outcome, memory: Memory)
    ensures EndOf(outcome, ticks) <= |ticks| && (!outcome.Stopped? ==> EndOf(outcome, ticks) < |ticks|)
    ensures forall j | 0 <= j < EndOf(outcome, ticks) :: !Barks(ticks, j, timeout) && !Swapped(ticks, j)
    ensures outcome.Raised? ==> Swapped(ticks, outcome.at)
    ensures outcome.Barked? ==> Barks(ticks, outcome.at, timeout) && !Swapped(ticks, outcome.at)
    ensures outcome.Barked? ==> Tracks(memory, ticks, outcome.at)
    ensures outcome.Stopped? && ticks != [] ==> Tracks(memory, ticks, |ticks| - 1)
  {
    memory := map[];
    var k := 0;
    while k < |ticks|
      invariant 0 <= k <= |ticks|
      invariant forall j | 0 <= j < k :: !Barks(ticks, j, timeout) && !Swapped(ticks, j)
      invariant if k == 0 then memory == map[] else Tracks(memory, ticks, k - 1)
    {
      TickBegan(memory, ticks, k, timeout);
      ghost var before := memory;
      var raised, bark;
      raised, memory, bark := NoteFailures(memory, ticks[k], timeout);
      if raised {
        return Raised(k), memory;
      }
      memory := ForgetRestored(memory, ticks[k].failed);
      MemoryBegan(before, memory, ticks, k);
      if ticks[k].thrasherDied {
        bark := true;
      }
      if bark {
        return Barked(k), memory;
      }
      k := k + 1;
    }
    outcome := Stopped;
  }
}
