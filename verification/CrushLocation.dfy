/** Packing of an OSD's CRUSH location into a caller's buffer: type and name of every level,
    each ended by a NUL. */
module CrushLocation {

  const ENOTCONN: int := 107
  const EINVAL: int := 22
  const ERANGE: int := 34
  const INT_MAX: int := 0x7fff_ffff
  const NUL: char := '\0'

  type Location = seq<(string, string)>

  /** Bytes for the types and names of the first `k` levels, with their NULs. */
  function Needed(loc: Location, k: nat): nat
    requires k <= |loc|
  {
    if k == 0 then 0 else Needed(loc, k - 1) + |loc[k - 1].0| + |loc[k - 1].1| + 2
  }

  /** The conversion of a size to the 32-bit result. */
  function ToInt(n: nat): int {
    var m := n % 0x1_0000_0000;
    if m > INT_MAX then m - 0x1_0000_0000 else m
  }

  /** A string as strcpy sees it: up to its first NUL. */
  function UpToNul(s: string): (r: string)
    ensures |r| <= |s| && r == s[..|r|] && NUL !in r
    ensures |r| < |s| ==> s[|r|] == NUL
    ensures NUL !in s ==> r == s
  {
    if s == "" || s[0] == NUL then "" else [s[0]] + UpToNul(s[1..])
  }

  method StrCpy(path: array<char>, at: nat, s: string)
    requires at + |s| + 1 <= path.Length
    modifies path
    ensures path[..at] == old(path[..at])
    ensures path[at..at + |UpToNul(s)| + 1] == UpToNul(s) + [NUL]
    ensures path[at + |UpToNul(s)| + 1..] == old(path[at + |UpToNul(s)| + 1..])
  {
    var c := UpToNul(s);
    var k := 0;
    while k < |c|
      invariant 0 <= k <= |c|
      invariant path[..at] == old(path[..at])
      invariant path[at..at + k] == c[..k]
      invariant path[at + k..] == old(path[at + k..])
    {
      path[at + k] := c[k];
      k := k + 1;
    }
    path[at + k] := NUL;
  }

  /** The packed form of the first `k` levels. */
  function Packed(loc: Location, k: nat): string
    requires k <= |loc|
  {
    if k == 0 then "" else Packed(loc, k - 1) + loc[k - 1].0 + [NUL] + loc[k - 1].1 + [NUL]
  }

  predicate NulFree(loc: Location) {
    forall k | 0 <= k < |loc| :: NUL !in loc[k].0 && NUL !in loc[k].1
  }

  lemma {:induction false} NeededGrows(loc: Location, j: nat, k: nat)
    requires j <= k <= |loc|
    ensures Needed(loc, j) + 2 * (k - j) <= Needed(loc, k)
    decreases k
  {
    if j < k {
      NeededGrows(loc, j, k - 1);
    }
  }

  // ----- what a reader recovers

  /** The strings of a text in which every string is ended by a NUL. */
  function SplitNul(s: string): seq<string> {
    if s == "" then []
    else
      var first := UpToNul(s);
      if |first| + 1 <= |s| then [first] + SplitNul(s[|first| + 1..]) else [first]
  }

  /** Types and names, in their order. */
  function Fields(loc: Location, k: nat): seq<string>
    requires k <= |loc|
  {
    if k == 0 then [] else Fields(loc, k - 1) + [loc[k - 1].0, loc[k - 1].1]
  }

  lemma {:induction false} FieldsAt(loc: Location, k: nat)
    requires k <= |loc|
    ensures |Fields(loc, k)| == 2 * k
    ensures forall i | 0 <= i < k :: Fields(loc, k)[2 * i] == loc[i].0 && Fields(loc, k)[2 * i + 1] == loc[i].1
    decreases k
  {
    if k > 0 {
      FieldsAt(loc, k - 1);
    }
  }

  lemma {:induction false} UpToNulAppend(a: string, b: string)
    requires NUL !in a
    ensures UpToNul(a + [NUL] + b) == a
  {
    if a == "" {
      assert (a + [NUL] + b)[0] == NUL;
    } else {
      assert (a + [NUL] + b)[1..] == a[1..] + [NUL] + b;
      UpToNulAppend(a[1..], b);
    }
  }

  lemma SplitNulFirst(a: string, rest: string)
    requires NUL !in a
    ensures SplitNul(a + [NUL] + rest) == [a] + SplitNul(rest)
  {
    var s := a + [NUL] + rest;
    UpToNulAppend(a, rest);
    assert s[|a| + 1..] == rest;
  }

  /** All NUL-ended strings of a list, one after the other. */
  function Ended(fs: seq<string>): string {
    if fs == [] then "" else fs[0] + [NUL] + Ended(fs[1..])
  }

  lemma {:induction false} EndedAppend(fs: seq<string>, gs: seq<string>)
    ensures Ended(fs + gs) == Ended(fs) + Ended(gs)
  {
    if fs == [] {
      assert fs + gs == gs;
    } else {
      assert (fs + gs)[1..] == fs[1..] + gs && (fs + gs)[0] == fs[0];
      EndedAppend(fs[1..], gs);
      assert fs[0] + [NUL] + (Ended(fs[1..]) + Ended(gs)) == fs[0] + [NUL] + Ended(fs[1..]) + Ended(gs);
    }
  }

  lemma {:induction false} PackedIsEnded(loc: Location, k: nat)
    requires k <= |loc|
    ensures Packed(loc, k) == Ended(Fields(loc, k))
    decreases k
  {
    if k > 0 {
      var (t, n) := loc[k - 1];
      PackedIsEnded(loc, k - 1);
      EndedAppend(Fields(loc, k - 1), [t, n]);
      EndedTwo(t, n, Packed(loc, k - 1));
    }
  }

  lemma EndedTwo(t: string, n: string, before: string)
    ensures before + Ended([t, n]) == before + t + [NUL] + n + [NUL]
  {
    assert [t, n][1..] == [n] && [n][1..] == [];
    assert Ended([n]) == n + [NUL];
    assert Ended([t, n]) == t + [NUL] + (n + [NUL]);
  }

  lemma {:induction false} SplitEnded(fs: seq<string>)
    requires forall f <- fs :: NUL !in f
    ensures SplitNul(Ended(fs)) == fs
  {
    if fs != [] {
      SplitNulFirst(fs[0], Ended(fs[1..]));
      SplitEnded(fs[1..]);
    }
  }

  lemma {:induction false} FieldsNulFree(loc: Location, k: nat)
    requires NulFree(loc) && k <= |loc|
    ensures forall f <- Fields(loc, k) :: NUL !in f
    decreases k
  {
    if k > 0 {
      FieldsNulFree(loc, k - 1);
    }
  }

  /** Splitting the packed form at its NULs gives back the types and names. */
  lemma UnpackPacked(loc: Location, k: nat)
    requires NulFree(loc) && k <= |loc|
    ensures SplitNul(Packed(loc, k)) == Fields(loc, k)
  {
    PackedIsEnded(loc, k);
    FieldsNulFree(loc, k);
    SplitEnded(Fields(loc, k));
  }

  // ----- the call

  /** Two buffers that agree from `k` on agree from any later place on. */
  lemma SameTail(a: seq<char>, b: seq<char>, k: nat, m: nat)
    requires |a| == |b| && k <= m <= |a| && a[k..] == b[k..]
    ensures a[m..] == b[m..]
  {
  }

  lemma SpliceHead(a: seq<char>, k: nat, m: nat)
    requires k <= m <= |a|
    ensures a[..m] == a[..k] + a[k..m]
  {
  }

  /** A string copied to `at`: the buffer up to behind it, and nothing else from `len` on. */
  method Append(path: array<char>, at: nat, s: string, len: nat)
    requires at + |s| + 1 <= len <= path.Length
    modifies path
    ensures path[len..] == old(path[len..])
    ensures NUL !in s ==> path[..at + |s| + 1] == old(path[..at]) + s + [NUL]
  {
    ghost var before := path[..];
    StrCpy(path, at, s);
    ghost var after := path[..];
    SameTail(after, before, at + |UpToNul(s)| + 1, len);
    if NUL !in s {
      SpliceHead(after, at, at + |s| + 1);
      assert after[..at] + (s + [NUL]) == after[..at] + s + [NUL];
    }
  }

  /** Both strings of one level, the second behind the place for the whole first one. */
  method AppendLevel(path: array<char>, cur: nat, t: string, n: string, len: nat)
    requires cur + |t| + |n| + 2 <= len <= path.Length
    modifies path
    ensures path[len..] == old(path[len..])
    ensures NUL !in t && NUL !in n ==> path[..cur + |t| + |n| + 2] == old(path[..cur]) + t + [NUL] + n + [NUL]
  {
    Append(path, cur, t, len);
    Append(path, cur + |t| + 1, n, len);
  }

  /** The loop: it adds up the sizes and packs the levels that fit. */
  method PackLevels(loc: Location, path: array?<char>, len: nat) returns (needed: nat, ghost fitted: nat)
    requires if path == null then len == 0 else len <= path.Length
    modifies if path == null then {} else {path}
    ensures needed == Needed(loc, |loc|)
    ensures fitted <= |loc| && Needed(loc, fitted) <= len && (fitted < |loc| ==> Needed(loc, fitted + 1) > len)
    ensures path != null ==> path[len..] == old(path[len..])
    ensures path != null && NulFree(loc) ==> path[..Needed(loc, fitted)] == Packed(loc, fitted)
  {
    needed, fitted := 0, 0;
    var cur, k := 0, 0;
    while k < |loc|
      invariant 0 <= fitted <= k <= |loc| && needed == Needed(loc, k)
      invariant cur == Needed(loc, fitted) <= len
      invariant if fitted == k then needed <= len else needed > len && Needed(loc, fitted + 1) > len
      invariant path != null ==> path[len..] == old(path[len..])
      invariant path != null && NulFree(loc) ==> path[..cur] == Packed(loc, fitted)
    {
      var (t, n) := loc[k];
      needed := needed + |t| + |n| + 2;
      if needed <= len {
        if path != null {
          AppendLevel(path, cur, t, n, len);
        }
        cur := cur + |t| + 1;
        cur := cur + |n| + 1;
        fitted := k + 1;
      }
      k := k + 1;
    }
  }

  /** `error` and `loc` are what the client answers: an error code, or 0 and the location. The
      levels that fit are packed, nothing is written behind `len`, and the result is the size
      needed, if that fits or was asked for. */
  method GetOsdCrushLocation(mounted: bool, error: int, loc: Location, path: array?<char>, len: nat)
    returns (ret: int, ghost fitted: nat)
    requires path != null ==> len <= path.Length
    modifies if path == null then {} else {path}
    ensures !mounted ==> ret == -ENOTCONN
    ensures mounted && path == null && len != 0 ==> ret == -EINVAL
    ensures mounted && (path != null || len == 0) && error != 0 ==> ret == error
    ensures mounted && (path != null || len == 0) && error == 0 ==>
              ret == if len != 0 && Needed(loc, |loc|) > len then -ERANGE else ToInt(Needed(loc, |loc|))
    ensures path != null ==> path[len..] == old(path[len..])
    ensures path != null && (!mounted || error != 0) ==> path[..] == old(path[..])
    ensures fitted <= |loc| && Needed(loc, fitted) <= len
    ensures mounted && error == 0 && path != null && NulFree(loc) ==>
              && (fitted < |loc| ==> Needed(loc, fitted + 1) > len)
              && path[..Needed(loc, fitted)] == Packed(loc, fitted)
  {
    fitted := 0;
    if !mounted {
      return -ENOTCONN, 0;
    }
    if path == null && len != 0 {
      return -EINVAL, 0;
    }
    if error != 0 {
      return error, 0;
    }
    var needed;
    needed, fitted := PackLevels(loc, path, len);
    if len == 0 {
      return ToInt(needed), fitted;
    }
    if needed > len {
      return -ERANGE, fitted;
    }
    ret := ToInt(needed);
  }

  /** The result is the size itself exactly when the size is an int; otherwise it is the int with the
      same lower 32 bits. */
  lemma ToIntExactIff(n: nat)
    ensures -INT_MAX - 1 <= ToInt(n) <= INT_MAX && (n - ToInt(n)) % 0x1_0000_0000 == 0
    ensures ToInt(n) == n <==> n <= INT_MAX
  {
  }

  /** The two-step protocol: a query for the size, then a call with a buffer of that size, which
      gets the whole location. */
  method QueryThenFetch(loc: Location) returns (path: array<char>, size: int)
    requires NulFree(loc) && Needed(loc, |loc|) <= INT_MAX
    ensures size == Needed(loc, |loc|) == path.Length && SplitNul(path[..]) == Fields(loc, |loc|)
    ensures |SplitNul(path[..])| == 2 * |loc|
    ensures forall i | 0 <= i < |loc| :: SplitNul(path[..])[2 * i] == loc[i].0
    ensures forall i | 0 <= i < |loc| :: SplitNul(path[..])[2 * i + 1] == loc[i].1
  {
    FieldsAt(loc, |loc|);
    ghost var total := Needed(loc, |loc|);
    ToIntExactIff(total);
    UnpackPacked(loc, |loc|);
    var wanted, _ := GetOsdCrushLocation(true, 0, loc, null, 0);
    path := new char[wanted];
    ghost var fitted;
    size, fitted := GetOsdCrushLocation(true, 0, loc, path, wanted);
    AllFits(loc, fitted, total);
    assert path[..] == path[..total];
  }

  lemma AllFits(loc: Location, fitted: nat, len: nat)
    requires fitted <= |loc| && Needed(loc, |loc|) <= len
    requires fitted < |loc| ==> Needed(loc, fitted + 1) > len
    ensures fitted == |loc|
  {
    if fitted < |loc| {
      NeededGrows(loc, fitted + 1, |loc|);
    }
  }
}
