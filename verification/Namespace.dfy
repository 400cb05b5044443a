/** The directory tree below the traced base directory, as the system calls see it:
    entries from (directory inode, name) to inode, path strings, and their resolution. */
module Namespace {
  import opened Options

  type Ino = nat

  const ROOT: Ino := 1

  type Name = string

  /** A path component as the kernel hands it to a handler. */
  predicate IsName(s: string) {
    s != "" && '/' !in s && s != "." && s != ".."
  }

  predicate AreNames(names: seq<Name>) {
    forall k | 0 <= k < |names| :: IsName(names[k])
  }

  /** A name in a directory. */
  datatype Dentry = Dentry(dir: Ino, name: Name)

  type Entries = map<Dentry, Ino>

  /** Follows `names` downwards from inode `start`. */
  function Walk(es: Entries, start: Ino, names: seq<Name>): Option<Ino>
    decreases |names|
  {
    if names == [] then Some(start)
    else if Dentry(start, names[0]) in es then Walk(es, es[Dentry(start, names[0])], names[1..])
    else None
  }

  ghost predicate Reaches(es: Entries, a: Ino, b: Ino) {
    exists names: seq<Name> :: Walk(es, a, names) == Some(b)
  }

  predicate Below(es: Entries, fs: Entries) {
    forall e <- es :: e in fs && fs[e] == es[e]
  }

  lemma {:induction false} WalkSnoc(es: Entries, start: Ino, names: seq<Name>, n: Name)
    ensures Walk(es, start, names + [n]) ==
            match Walk(es, start, names)
            case None => None
            case Some(d) => if Dentry(d, n) in es then Some(es[Dentry(d, n)]) else None
    decreases |names|
  {
    if names == [] {
      assert Walk(es, start, [n]) == if Dentry(start, n) in es then Walk(es, es[Dentry(start, n)], []) else None;
    } else {
      assert (names + [n])[1..] == names[1..] + [n];
      if Dentry(start, names[0]) in es {
        WalkSnoc(es, es[Dentry(start, names[0])], names[1..], n);
      }
    }
  }

  lemma {:induction false} WalkBelow(es: Entries, fs: Entries, start: Ino, names: seq<Name>)
    requires Below(es, fs)
    requires Walk(es, start, names).Some?
    ensures Walk(fs, start, names) == Walk(es, start, names)
    decreases |names|
  {
    if names != [] {
      WalkBelow(es, fs, es[Dentry(start, names[0])], names[1..]);
    }
  }

  // ----- acyclicity

  type Ranks = map<Ino, nat>

  function At(rank: Ranks, i: Ino): nat {
    if i in rank then rank[i] else 0
  }

  ghost predicate RankedBy(es: Entries, rank: Ranks) {
    forall e <- es :: At(rank, e.dir) < At(rank, es[e])
  }

  /** No inode is below itself: some rank grows along every entry. */
  ghost predicate Acyclic(es: Entries) {
    exists rank: Ranks :: RankedBy(es, rank)
  }

  ghost function RankOf(es: Entries): (rank: Ranks)
    requires Acyclic(es)
    ensures RankedBy(es, rank)
  {
    var rank: Ranks :| RankedBy(es, rank);
    rank
  }

  ghost function Rank(es: Entries, i: Ino): nat
    requires Acyclic(es)
  {
    At(RankOf(es), i)
  }

  lemma BelowAcyclic(es: Entries, fs: Entries)
    requires Below(es, fs) && Acyclic(fs)
    ensures Acyclic(es)
  {
    assert RankedBy(es, RankOf(fs));
  }

  /** A walk of at least one step ends at an inode other than its start. */
  lemma {:induction false} WalkClimbs(es: Entries, start: Ino, names: seq<Name>)
    requires Acyclic(es)
    requires Walk(es, start, names).Some?
    ensures Rank(es, start) + |names| <= Rank(es, Walk(es, start, names).value)
    decreases |names|
  {
    if names != [] {
      WalkClimbs(es, es[Dentry(start, names[0])], names[1..]);
    }
  }

  lemma AcyclicNoLoop(es: Entries, start: Ino, names: seq<Name>)
    requires Acyclic(es)
    ensures Walk(es, start, names) == Some(start) <==> names == []
  {
    if Walk(es, start, names) == Some(start) {
      WalkClimbs(es, start, names);
    }
  }

  lemma ReachesStep(es: Entries, a: Ino, e: Dentry)
    requires e in es && Reaches(es, a, e.dir)
    ensures Reaches(es, a, es[e])
  {
    var names: seq<Name> :| Walk(es, a, names) == Some(e.dir);
    WalkSnoc(es, a, names, e.name);
    assert Walk(es, a, names + [e.name]) == Some(es[e]);
  }

  /** A new entry `Dentry(p, n) -> i` closes no cycle when `p` is not at or below `i`. */
  lemma AddEntryAcyclic(es: Entries, p: Ino, n: Name, i: Ino)
    requires Acyclic(es)
    requires !Reaches(es, i, p)
    ensures Acyclic(es[Dentry(p, n) := i])
  {
    var es' := es[Dentry(p, n) := i];
    var rank, ends := RankOf(es), (set e | e in es' :: e.dir) + (set e | e in es' :: es'[e]);
    var lifted: Ranks := map x | x in ends :: if Reaches(es, i, x) then At(rank, x) + At(rank, p) + 1 else At(rank, x);
    assert Reaches(es, i, i) by {
      assert Walk(es, i, []) == Some(i);
    }
    forall e | e in es'
      ensures At(lifted, e.dir) < At(lifted, es'[e])
    {
      assert e.dir in ends && es'[e] in ends;
      if e != Dentry(p, n) && Reaches(es, i, e.dir) {
        ReachesStep(es, i, e);
      }
    }
    assert RankedBy(es', lifted);
  }

  // ----- path strings

  /** The component part of a path string: every name with a slash before it. */
  function Rendered(names: seq<Name>): string {
    if names == [] then "" else "/" + names[0] + Rendered(names[1..])
  }

  /** Length of the first component of `t`. */
  function SegmentLength(t: string): (k: nat)
    ensures k <= |t|
    ensures '/' !in t[..k]
    ensures k < |t| ==> t[k] == '/'
  {
    if t == "" || t[0] == '/' then 0 else 1 + SegmentLength(t[1..])
  }

  /** The components of a path string; runs of slashes count as one. */
  function Components(t: string): seq<string> {
    if t == "" then []
    else if t[0] == '/' then Components(t[1..])
    else [t[..SegmentLength(t)]] + Components(t[SegmentLength(t)..])
  }

  lemma {:induction false} RenderedSnoc(names: seq<Name>, n: Name)
    ensures Rendered(names + [n]) == Rendered(names) + "/" + n
  {
    if names == [] {
      assert Rendered([n]) == "/" + n + Rendered([]);
    } else {
      assert (names + [n])[1..] == names[1..] + [n];
      RenderedSnoc(names[1..], n);
    }
  }

  lemma SegmentLengthOf(n: Name, rest: string)
    requires IsName(n) && (rest == "" || rest[0] == '/')
    ensures SegmentLength(n + rest) == |n|
  {
    var t := n + rest;
    assert forall j | 0 <= j < |n| :: t[j] == n[j] && n[j] != '/';
    assert rest != "" ==> t[|n|] == '/';
    assert forall j | 0 <= j < SegmentLength(t) :: t[j] in t[..SegmentLength(t)];
  }

  /** Splitting a rendered path at its slashes gives back the names. */
  lemma FirstComponent(n: Name, rest: string)
    requires IsName(n) && (rest == "" || rest[0] == '/')
    ensures Components("/" + n + rest) == [n] + Components(rest)
  {
    var t := n + rest;
    assert ("/" + n + rest)[1..] == t;
    assert t[0] == n[0] && n[0] != '/';
    SegmentLengthOf(n, rest);
    assert t[..|n|] == n && t[|n|..] == rest;
  }

  lemma {:induction false} ComponentsOfRendered(names: seq<Name>)
    requires AreNames(names)
    ensures Components(Rendered(names)) == names
  {
    if names != [] {
      FirstComponent(names[0], Rendered(names[1..]));
      ComponentsOfRendered(names[1..]);
    }
  }

  // ----- the file system and its calls

  datatype Fs = Fs(base: string, entries: Entries)

  function PathNames(fs: Fs, path: string): Option<seq<Name>> {
    if fs.base <= path then
      var cs := Components(path[|fs.base|..]);
      if AreNames(cs) then Some(cs) else None
    else None
  }

  /** The path string that `make_inode_path` builds for `names`. */
  function PathString(base: string, names: seq<Name>): string {
    base + "/" + Rendered(names)
  }

  /** A slash behind the base, and one before every name. */
  lemma PathStringSpelled(base: string, names: seq<Name>, n: Name)
    ensures PathString(base, []) == base + "/"
    ensures PathString(base, names + [n]) == PathString(base, names) + "/" + n
  {
    RenderedSnoc(names, n);
  }

  lemma PathNamesOfPathString(fs: Fs, names: seq<Name>)
    requires AreNames(names)
    ensures PathNames(fs, PathString(fs.base, names)) == Some(names)
  {
    var path := PathString(fs.base, names);
    assert path[|fs.base|..] == "/" + Rendered(names);
    assert ("/" + Rendered(names))[1..] == Rendered(names);
    ComponentsOfRendered(names);
  }

  function Lstat(fs: Fs, path: string): Option<Ino> {
    match PathNames(fs, path)
    case None => None
    case Some(names) => Walk(fs.entries, ROOT, names)
  }

  /** The directory and the last component that a call creating or removing `path` acts on. */
  function ParentOf(fs: Fs, path: string): Option<Dentry> {
    match PathNames(fs, path)
    case None => None
    case Some(names) =>
      if names == [] then None else
      match Walk(fs.entries, ROOT, names[..|names| - 1])
      case None => None
      case Some(d) => Some(Dentry(d, names[|names| - 1]))
  }

  datatype Errno = EPERM | ENOENT | EEXIST | ENOTEMPTY | EOTHER

  datatype CallResult = Fails(errno: Errno) | Succeeds(fs: Fs)

  /** mknod, mkdir and symlink: the new object gets the number `newIno`. `fault` says that the
      call fails for a reason outside this model. */
  function SysMknod(fs: Fs, path: string, newIno: Ino, fault: bool): CallResult {
    match ParentOf(fs, path)
    case None => Fails(ENOENT)
    case Some(e) =>
      if fault then Fails(EOTHER)
      else if e in fs.entries then Fails(EEXIST)
      else Succeeds(fs.(entries := fs.entries[e := newIno]))
  }

  /** open with O_CREAT: an existing object is opened as it is. */
  function SysOpenCreate(fs: Fs, path: string, newIno: Ino, fault: bool): CallResult {
    match ParentOf(fs, path)
    case None => Fails(ENOENT)
    case Some(e) =>
      if fault then Fails(EOTHER)
      else if e in fs.entries then Succeeds(fs)
      else Succeeds(fs.(entries := fs.entries[e := newIno]))
  }

  function SysUnlink(fs: Fs, path: string, fault: bool): CallResult {
    match ParentOf(fs, path)
    case None => Fails(ENOENT)
    case Some(e) =>
      if fault then Fails(EOTHER)
      else if e !in fs.entries then Fails(ENOENT)
      else Succeeds(fs.(entries := fs.entries - {e}))
  }

  predicate HasChildren(es: Entries, i: Ino) {
    exists e <- es :: e.dir == i
  }

  function SysRmdir(fs: Fs, path: string, fault: bool): CallResult {
    match ParentOf(fs, path)
    case None => Fails(ENOENT)
    case Some(e) =>
      if fault then Fails(EOTHER)
      else if e !in fs.entries then Fails(ENOENT)
      else if HasChildren(fs.entries, fs.entries[e]) then Fails(ENOTEMPTY)
      else Succeeds(fs.(entries := fs.entries - {e}))
  }

  /** rename: nothing happens when both names are links to the same object. */
  function Renamed(es: Entries, e: Dentry, e': Dentry): Entries
    requires e in es
  {
    if e' in es && es[e'] == es[e] then es
    else (es - {e})[e' := es[e]]
  }

  function SysRename(fs: Fs, path: string, newPath: string, fault: bool): CallResult {
    match (ParentOf(fs, path), ParentOf(fs, newPath))
    case (Some(e), Some(e')) =>
      if fault then Fails(EOTHER)
      else if e !in fs.entries then Fails(ENOENT)
      else Succeeds(fs.(entries := Renamed(fs.entries, e, e')))
    case _ => Fails(ENOENT)
  }

  function SysLink(fs: Fs, path: string, newPath: string, fault: bool): CallResult {
    match (Lstat(fs, path), ParentOf(fs, newPath))
    case (Some(i), Some(e')) =>
      if fault || i == ROOT then Fails(EOTHER)
      else if e' in fs.entries then Fails(EEXIST)
      else Succeeds(fs.(entries := fs.entries[e' := i]))
    case _ => Fails(ENOENT)
  }

  /** The tree property that the calls keep: nothing is above the root, nothing below itself. */
  ghost predicate GoodFs(fs: Fs) {
    && Acyclic(fs.entries)
    && forall e <- fs.entries :: fs.entries[e] != ROOT && IsName(e.name)
  }

  /** No object of the tree has number `i`. */
  predicate Unused(fs: Fs, i: Ino) {
    i != ROOT && forall e <- fs.entries :: e.dir != i && fs.entries[e] != i
  }

  lemma UnusedReaches(fs: Fs, i: Ino, p: Ino)
    requires Unused(fs, i) && i != p
    ensures !Reaches(fs.entries, i, p)
  {
  }

  /** A rename that does not move an object to a place at or below itself keeps the tree. */
  lemma RenamedAcyclic(es: Entries, e: Dentry, e': Dentry)
    requires Acyclic(es) && e in es
    requires !Reaches(es, es[e], e'.dir)
    ensures Acyclic(Renamed(es, e, e'))
  {
    var es1 := es - {e};
    BelowAcyclic(es1, es);
    if Reaches(es1, es[e], e'.dir) {
      var names: seq<Name> :| Walk(es1, es[e], names) == Some(e'.dir);
      WalkBelow(es1, es, es[e], names);
    }
    AddEntryAcyclic(es1, e'.dir, e'.name, es[e]);
  }
}
