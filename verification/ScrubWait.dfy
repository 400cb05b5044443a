/** The wait for scrubs: it polls the placement groups until all of them have been scrubbed
    since the start, and gives up after too many polls without progress. */
module ScrubWait {

  /** How many scrub stamps are later than the start. */
  function Good(stamps: seq<int>, start: int): (n: nat)
    ensures n <= |stamps|
    ensures n == |stamps| <==> forall k | 0 <= k < |stamps| :: stamps[k] > start
  {
    if stamps == [] then 0
    else Good(stamps[..|stamps| - 1], start) + if stamps[|stamps| - 1] > start then 1 else 0
  }

  /** Each stamp counts for itself, and only if it is later. */
  lemma {:induction false} GoodAppend(a: seq<int>, b: seq<int>, start: int)
    ensures Good(a + b, start) == Good(a, start) + Good(b, start)
    ensures forall stamp :: Good([stamp], start) == if stamp > start then 1 else 0
    decreases |b|
  {
    if b == [] {
      assert a + b == a;
    } else {
      var n := |b| - 1;
      assert (a + b)[..|a| + n] == a + b[..n];
      GoodAppend(a, b[..n], start);
    }
    forall stamp
      ensures Good([stamp], start) == if stamp > start then 1 else 0
    {
      assert [stamp][..0] == [];
    }
  }

  /** The most scrubbed groups that one of the first `k` polls saw. */
  function Best(snap: nat -> seq<int>, start: int, k: nat): nat {
    if k == 0 then 0
    else
      var before, now := Best(snap, start, k - 1), Good(snap(k - 1), start);
      if now > before then now else before
  }

  /** How many polls before poll `k` brought no progress, counted back from it. */
  function Gap(snap: nat -> seq<int>, start: int, k: nat): (g: nat)
    ensures g <= k
  {
    if k == 0 || Good(snap(k - 1), start) > Best(snap, start, k - 1) then 0
    else Gap(snap, start, k - 1) + 1
  }

  lemma {:induction false} BestIsMost(snap: nat -> seq<int>, start: int, k: nat)
    ensures forall j: nat | j < k :: Good(snap(j), start) <= Best(snap, start, k)
    ensures Best(snap, start, k) == 0 || exists j: nat | j < k :: Good(snap(j), start) == Best(snap, start, k)
  {
    if k > 0 {
      BestIsMost(snap, start, k - 1);
    }
  }

  /** Since the last poll that saw more scrubbed groups than all before it, or since the start. */
  lemma {:induction false} GapIsLast(snap: nat -> seq<int>, start: int, k: nat, j: nat)
    requires k - Gap(snap, start, k) - 1 <= j < k
    ensures Good(snap(j), start) > Best(snap, start, j) <==> j == k - Gap(snap, start, k) - 1
    decreases k
  {
    if j < k - 1 {
      GapIsLast(snap, start, k - 1, j);
    }
  }

  ghost predicate Scrubbed(stamps: seq<int>, start: int) {
    forall k | 0 <= k < |stamps| :: stamps[k] > start
  }

  /** Poll `k` neither sees every group scrubbed nor is one too many without progress. */
  ghost predicate GoesOn(snap: nat -> seq<int>, start: int, retries: nat, k: nat) {
    !Scrubbed(snap(k), start) && Gap(snap, start, k + 1) <= retries
  }

  method CountGood(stamps: seq<int>, start: int) returns (count: nat, waiting: bool)
    ensures count == Good(stamps, start) && (waiting <==> !Scrubbed(stamps, start))
  {
    count, waiting := 0, false;
    var k := 0;
    while k < |stamps|
      invariant 0 <= k <= |stamps| && count == Good(stamps[..k], start)
      invariant waiting <==> exists j :: 0 <= j < k && stamps[j] <= start
    {
      assert stamps[..k + 1][..k] == stamps[..k];
      if stamps[k] > start {
        count := count + 1;
      } else {
        waiting := true;
      }
      k := k + 1;
    }
    assert stamps[..k] == stamps;
  }

  /** With at most `n` groups at every poll, the wait ends within (n + 1) * (retries + 1) polls.
      It ends at the first poll that sees every group scrubbed or that is one too many without
      progress; the latter is a failure even when the former holds as well. */
  method WaitForScrubs(snap: nat -> seq<int>, start: int, retries: nat, ghost n: nat) returns (failed: bool, polls: nat)
    requires forall k: nat :: |snap(k)| <= n
    ensures 1 <= polls <= (n + 1) * (retries + 1)
    ensures failed <==> Gap(snap, start, polls) > retries
    ensures failed <==>
            Good(snap(polls - 1), start) <= Best(snap, start, polls - 1) && Gap(snap, start, polls - 1) == retries
    ensures !failed ==> Scrubbed(snap(polls - 1), start)
    ensures forall k: nat | k < polls - 1 :: GoesOn(snap, start, retries, k)
  {
    var prevGood, gapCnt := 0, 0;
    polls := 0;
    while true
      invariant prevGood == Best(snap, start, polls) && gapCnt == Gap(snap, start, polls)
      invariant prevGood <= n && gapCnt <= retries
      invariant polls <= prevGood * (retries + 1) + gapCnt
      invariant forall k: nat | k < polls :: GoesOn(snap, start, retries, k)
      decreases n - prevGood, retries - gapCnt
    {
      var thisCnt, waiting := CountGood(snap(polls), start);
      polls := polls + 1;
      if thisCnt > prevGood {
        MorePolls(prevGood, thisCnt, retries + 1);
        prevGood, gapCnt := thisCnt, 0;
      } else {
        gapCnt := gapCnt + 1;
      }
      MorePolls(prevGood, n, retries + 1);
      if gapCnt > retries {
        return true, polls;
      }
      if !waiting {
        return false, polls;
      }
      assert GoesOn(snap, start, retries, polls - 1);
    }
  }

  lemma MorePolls(a: nat, b: nat, r: nat)
    requires a <= b
    ensures a * r <= b * r && (a < b ==> a * r + r <= b * r) && (b + 1) * r == b * r + r
  {
    assert (b - a) * r >= 0;
    if a < b {
      assert (b - a - 1) * r >= 0;
    }
  }

  lemma {:induction false} GapAllowed(snap: nat -> seq<int>, start: int, retries: nat, last: nat)
    requires forall j: nat | j < last :: GoesOn(snap, start, retries, j)
    ensures Gap(snap, start, last) <= retries
  {
    if last > 0 {
      assert GoesOn(snap, start, retries, last - 1);
    }
  }

  /** When the wait reaches a poll that sees every group scrubbed, it fails there exactly when that
      are no more than the most so far and no poll without progress is left. */
  lemma {:induction false} FailsScrubbedIff(snap: nat -> seq<int>, start: int, retries: nat, last: nat)
    requires forall j: nat | j < last :: GoesOn(snap, start, retries, j)
    requires Scrubbed(snap(last), start)
    ensures Gap(snap, start, last + 1) > retries <==>
            |snap(last)| <= Best(snap, start, last) && Gap(snap, start, last) == retries
  {
    GapAllowed(snap, start, retries, last);
    assert Good(snap(last), start) == |snap(last)|;
  }

  /** Polls that see a group unscrubbed count fewer scrubbed groups than there ever are. */
  lemma {:induction false} BestBelow(snap: nat -> seq<int>, start: int, k: nat, n: nat)
    requires forall j: nat | j < k :: !Scrubbed(snap(j), start) && |snap(j)| <= n
    ensures Best(snap, start, k) <= n && (k > 0 ==> Best(snap, start, k) < n)
  {
    if k > 0 {
      BestBelow(snap, start, k - 1, n);
      assert !Scrubbed(snap(k - 1), start);
    }
  }

  /** Unless some earlier poll saw more groups, it fails there only if no retry is allowed and
      the first poll sees no group at all. */
  lemma {:induction false} NoneDisappearedIff(snap: nat -> seq<int>, start: int, retries: nat, last: nat)
    requires forall j: nat | j < last :: GoesOn(snap, start, retries, j)
    requires forall j: nat | j < last :: |snap(j)| <= |snap(last)|
    requires Scrubbed(snap(last), start)
    ensures Gap(snap, start, last + 1) > retries <==> last == 0 && snap(0) == [] && retries == 0
  {
    FailsScrubbedIff(snap, start, retries, last);
    forall j: nat | j < last
      ensures !Scrubbed(snap(j), start)
    {
      assert GoesOn(snap, start, retries, j);
    }
    BestBelow(snap, start, last, |snap(last)|);
  }

  /** Two groups, one of which is never scrubbed and disappears after `retries + 1` polls. */
  ghost function Dwindling(retries: nat): nat -> seq<int> {
    k => if k <= retries then [1, 0] else [1]
  }

  lemma DwindlingGood(retries: nat, k: nat)
    ensures Good(Dwindling(retries)(k), 0) == 1
  {
  }

  lemma {:induction false} DwindlingGap(retries: nat, k: nat)
    requires k >= 1
    ensures Best(Dwindling(retries), 0, k) == 1 && Gap(Dwindling(retries), 0, k) == k - 1
    decreases k
  {
    DwindlingGood(retries, k - 1);
    if k > 1 {
      DwindlingGap(retries, k - 1);
    } else {
      assert Best(Dwindling(retries), 0, 0) == 0;
    }
  }

  /** Whatever the limit, the wait can fail at a poll that sees every group scrubbed. */
  lemma ScrubbedYetFailed(retries: nat)
    ensures var snap, last := Dwindling(retries), retries + 1;
            && Scrubbed(snap(last), 0)
            && Gap(snap, 0, last + 1) > retries
            && forall k: nat | k < last :: GoesOn(snap, 0, retries, k)
  {
    var snap, last := Dwindling(retries), retries + 1;
    DwindlingGap(retries, last + 1);
    forall k: nat | k < last
      ensures GoesOn(snap, 0, retries, k)
    {
      DwindlingGap(retries, k + 1);
      assert snap(k)[1] == 0;
    }
  }
}
