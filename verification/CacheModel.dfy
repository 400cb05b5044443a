/** What the tracer's inode cache stands for, as a value, and what each request does to it.
    `cached` is the part of the directory tree the cache holds, `refs` the reference count of
    every inode in its map, and `disk` the tree itself. A lookup can put a second object for an
    inode into the map; the names that keep the first one are the `strays`. */
module CacheModel {
  import opened Options
  import opened Namespace

  datatype State = State(disk: Fs, cached: Entries, refs: map<Ino, int>, strays: set<Dentry>)

  // ----- the order of std::map<pair<string, ino_t>, ...>

  predicate NameLess(a: string, b: string) {
    b != "" && (a == "" || a[0] < b[0] || (a[0] == b[0] && NameLess(a[1..], b[1..])))
  }

  predicate KeyLess(k: Dentry, l: Dentry) {
    NameLess(k.name, l.name) || (k.name == l.name && k.dir < l.dir)
  }

  lemma {:induction false} NameLessOrder(a: string, b: string, c: string)
    ensures a == b || NameLess(a, b) || NameLess(b, a)
    ensures !(NameLess(a, b) && NameLess(b, a)) && !NameLess(a, a)
    ensures NameLess(a, b) && NameLess(b, c) ==> NameLess(a, c)
  {
    if a != "" && b != "" && c != "" {
      NameLessOrder(a[1..], b[1..], c[1..]);
      assert a[0] == b[0] && a[1..] == b[1..] ==> a == b;
    } else if a != "" && b != "" {
      NameLessOrder(a[1..], b[1..], c);
      assert a[0] == b[0] && a[1..] == b[1..] ==> a == b;
    } else if a != "" {
      NameLessOrder(a[1..], b, c);
    }
  }

  /** The strings agree up to `k`, and there the first ends or has the smaller character. */
  predicate LessAt(a: string, b: string, k: int) {
    0 <= k <= |a| && k < |b| && a[..k] == b[..k] && (k == |a| || a[k] < b[k])
  }

  lemma LessAtTail(a: string, b: string, k: int)
    requires a != "" && b != "" && k >= 1
    ensures LessAt(a, b, k) <==> a[0] == b[0] && LessAt(a[1..], b[1..], k - 1)
  {
    if k <= |a| && k <= |b| {
      assert a[..k] == [a[0]] + a[1..][..k - 1] && b[..k] == [b[0]] + b[1..][..k - 1];
    }
  }

  /** Names are in the order of their characters, a beginning before the whole. */
  lemma {:induction false} NameLessIff(a: string, b: string)
    ensures NameLess(a, b) <==> exists k :: LessAt(a, b, k)
  {
    assert b != "" && (a == "" || a[0] < b[0]) ==> LessAt(a, b, 0);
    if a != "" && b != "" {
      forall k | k >= 1
        ensures LessAt(a, b, k) <==> a[0] == b[0] && LessAt(a[1..], b[1..], k - 1)
      {
        LessAtTail(a, b, k);
      }
      if a[0] == b[0] {
        NameLessIff(a[1..], b[1..]);
        if k :| LessAt(a[1..], b[1..], k) {
          assert LessAt(a, b, k + 1);
        }
      }
    }
  }

  /** Keys are ordered by name and, for one name, by directory. */
  lemma KeyLessIff(k: Dentry, l: Dentry)
    ensures KeyLess(k, l) <==> if k.name == l.name then k.dir < l.dir else NameLess(k.name, l.name)
  {
    NameLessOrder(k.name, l.name, l.name);
  }

  predicate IsFirst(keys: set<Dentry>, k: Dentry) {
    k in keys && forall l <- keys :: l == k || KeyLess(k, l)
  }

  lemma {:induction false} FirstExists(keys: set<Dentry>)
    requires keys != {}
    ensures exists k :: IsFirst(keys, k)
  {
    var l :| l in keys;
    if keys == {l} {
      assert IsFirst(keys, l);
    } else {
      FirstExists(keys - {l});
      var k :| IsFirst(keys - {l}, k);
      NameLessOrder(k.name, l.name, l.name);
      if KeyLess(k, l) {
        assert IsFirst(keys, k);
      } else {
        forall m <- keys
          ensures m == l || KeyLess(l, m)
        {
          assert m == l || m in keys - {l};
          NameLessOrder(l.name, k.name, m.name);
        }
        assert IsFirst(keys, l);
      }
    }
  }

  lemma FirstUnique(keys: set<Dentry>, k: Dentry, l: Dentry)
    requires IsFirst(keys, k) && IsFirst(keys, l)
    ensures k == l
  {
    NameLessOrder(k.name, l.name, l.name);
  }

  lemma FirstIff(keys: set<Dentry>, k: Dentry)
    ensures IsFirst(keys, k) <==> k in keys && forall l <- keys :: !KeyLess(l, k)
  {
    forall l <- keys
      ensures KeyLess(l, k) <==> l != k && !KeyLess(k, l)
    {
      NameLessOrder(l.name, k.name, k.name);
    }
  }

  /** The key at `begin()`. */
  ghost function First(keys: set<Dentry>): (k: Dentry)
    requires keys != {}
    ensures IsFirst(keys, k)
  {
    FirstExists(keys);
    var k :| IsFirst(keys, k);
    k
  }

  // ----- paths rebuilt from the cache

  ghost function ParentKeys(es: Entries, i: Ino): set<Dentry> {
    set e | e in es && es[e] == i
  }

  /** The names from the root down to `i` along first parents, if they lead to the root. */
  ghost function PathOf(es: Entries, i: Ino): Option<seq<Name>>
    requires Acyclic(es)
    decreases Rank(es, i)
  {
    var keys := ParentKeys(es, i);
    if keys == {} then
      if i == ROOT then Some([]) else None
    else
      var k := First(keys);
      match PathOf(es, k.dir)
      case None => None
      case Some(names) => Some(names + [k.name])
  }

  /** `i` after `k` steps from a node to its first parent. */
  ghost function Ancestor(es: Entries, i: Ino, k: nat): Option<Ino>
    decreases k
  {
    if k == 0 then Some(i)
    else if ParentKeys(es, i) == {} then None
    else Ancestor(es, First(ParentKeys(es, i)).dir, k - 1)
  }

  /** Walking down a rebuilt path through the cache ends at the inode it was built for. */
  lemma {:induction false} PathRoundTrip(es: Entries, i: Ino)
    requires Acyclic(es)
    requires PathOf(es, i).Some?
    ensures Walk(es, ROOT, PathOf(es, i).value) == Some(i)
    decreases Rank(es, i)
  {
    var keys := ParentKeys(es, i);
    if keys != {} {
      var k := First(keys);
      PathRoundTrip(es, k.dir);
      WalkSnoc(es, ROOT, PathOf(es, k.dir).value, k.name);
    }
  }

  /** The chain of first parents of `i` ends at a root that has no parent itself. */
  ghost predicate ChainToRoot(es: Entries, i: Ino) {
    ParentKeys(es, ROOT) == {} && exists k: nat :: Ancestor(es, i, k) == Some(ROOT)
  }

  lemma {:induction false} PathHasChain(es: Entries, i: Ino)
    requires Acyclic(es) && PathOf(es, i).Some?
    ensures ChainToRoot(es, i)
    decreases Rank(es, i)
  {
    var keys := ParentKeys(es, i);
    if keys == {} {
      assert Ancestor(es, i, 0) == Some(ROOT);
    } else {
      var k := First(keys);
      PathHasChain(es, k.dir);
      var j: nat :| Ancestor(es, k.dir, j) == Some(ROOT);
      assert Ancestor(es, i, j + 1) == Some(ROOT);
    }
  }

  lemma {:induction false} ChainHasPath(es: Entries, i: Ino, j: nat)
    requires Acyclic(es) && ParentKeys(es, ROOT) == {} && Ancestor(es, i, j) == Some(ROOT)
    ensures PathOf(es, i).Some?
    decreases j
  {
    if j > 0 {
      ChainHasPath(es, First(ParentKeys(es, i)).dir, j - 1);
    }
  }

  /** A path exists exactly when the chain of first parents ends at the root. */
  lemma PathExistsIff(es: Entries, i: Ino)
    requires Acyclic(es)
    ensures PathOf(es, i).Some? <==> ChainToRoot(es, i)
  {
    if PathOf(es, i).Some? {
      PathHasChain(es, i);
    }
    if ChainToRoot(es, i) {
      var j: nat :| Ancestor(es, i, j) == Some(ROOT);
      ChainHasPath(es, i, j);
    }
  }

  // ----- requests

  datatype Event =
    | Lookup(parent: Ino, name: Name, allowed: bool, fault: bool)
    | Forget(ino: Ino, count: nat)
    | Make(parent: Ino, name: Name, newIno: Ino, allowed: bool, fault: bool)
    | Create(parent: Ino, name: Name, newIno: Ino, allowed: bool, fault: bool)
    | Unlink(parent: Ino, name: Name, allowed: bool, fault: bool)
    | Rmdir(parent: Ino, name: Name, allowed: bool, fault: bool)
    | Rename(parent: Ino, name: Name, newParent: Ino, newName: Name, allowed: bool, fault: bool)
    | Link(ino: Ino, newParent: Ino, newName: Name, allowed: bool, fault: bool)

  datatype Reply = NoReply | Done | Entry(ino: Ino) | Error(errno: Errno)

  // ----- changes of the cache

  /** The entries whose inode object is the one in the map. */
  function Own(s: State): Entries {
    s.cached - s.strays
  }

  function RefCount(s: State, i: Ino): int {
    if i in s.refs then s.refs[i] else 0
  }

  function Referenced(s: State, i: Ino): State {
    s.(refs := s.refs[i := RefCount(s, i) + 1])
  }

  /** The object of `i` in the map gets the name `e`. */
  function Entered(s: State, e: Dentry, i: Ino): State {
    s.(cached := s.cached[e := i], strays := s.strays - {e})
  }

  /** The object of `i` in the map loses all its names and all names in it. */
  function Unlinked(s: State, i: Ino): State {
    s.(cached := map e | e in s.cached && e.dir != i && (s.cached[e] != i || e in s.strays) :: s.cached[e],
       strays := set e | e in s.strays && e.dir != i)
  }

  /** A new object takes the place of `i` in the map; names of `i` keep the old one. */
  ghost function Displaced(s: State, i: Ino): State {
    s.(refs := s.refs[i := 0], strays := s.strays + ParentKeys(s.cached, i))
  }

  /** A lookup of a cached name counts on the object of the name, in the map or not. */
  function Hit(s: State, e: Dentry, i: Ino): State {
    if e in s.strays then s else Referenced(s, i)
  }

  ghost function Missed(s: State, e: Dentry, i: Ino): State {
    Referenced(Entered(Displaced(s, i), e, i), i)
  }

  ghost function LookedUp(s: State, e: Dentry, i: Ino): State {
    if e in s.cached then Hit(s, e, i) else Missed(s, e, i)
  }

  /** The object of `i` in the map, old or new, has no names. */
  ghost function Freed(s: State, i: Ino): State {
    if i in s.refs then Unlinked(s, i) else Displaced(s, i)
  }

  /** The name `e` now belongs to `i`, whose object in the map has this one name. */
  ghost function Introduced(s: State, e: Dentry, i: Ino): State {
    Entered(Freed(s, i), e, i)
  }

  ghost function Adopted(s: State, e: Dentry, i: Ino): State {
    Referenced(Introduced(s, e, i), i)
  }

  function Dropped(s: State, e: Dentry): State {
    s.(cached := s.cached - {e}, strays := s.strays - {e})
  }

  /** The cache's side of a rename: an uncached source changes nothing. */
  function CachedRename(es: Entries, e: Dentry, e': Dentry): Entries {
    if e in es then es[e' := es[e]] - {e} else es
  }

  /** The object moves with its name. */
  function Moved(s: State, e: Dentry, e': Dentry): State {
    s.(cached := CachedRename(s.cached, e, e'),
       strays := if e !in s.cached then s.strays
                 else if e in s.strays then s.strays + {e'} - {e}
                 else s.strays - {e', e})
  }

  // ----- requests

  ghost predicate HasPath(s: State, i: Ino)
    requires Acyclic(Own(s))
  {
    PathOf(Own(s), i).Some?
  }

  function WithEntries(s: State, es: Entries): State {
    s.(disk := s.disk.(entries := es))
  }

  /** A lookup whose path is known and permitted; the `Call` functions below likewise. */
  ghost function LookupCall(s: State, e: Dentry, fault: bool): (State, Reply) {
    if fault then (s, Error(EOTHER))
    else if e !in s.disk.entries then (s, Error(ENOENT))
    else (LookedUp(s, e, s.disk.entries[e]), Entry(s.disk.entries[e]))
  }

  ghost function LookupStep(s: State, p: Ino, n: Name, allowed: bool, fault: bool): (State, Reply)
    requires Acyclic(Own(s))
  {
    if !allowed then (s, Error(EPERM))
    else if !HasPath(s, p) then (s, Error(ENOENT))
    else LookupCall(s, Dentry(p, n), fault)
  }

  function Forgotten(s: State, i: Ino): State {
    Unlinked(s, i).(refs := s.refs - {i})
  }

  function ForgetStep(s: State, i: Ino, count: nat): (State, Reply) {
    if i == ROOT || i !in s.refs then (s, NoReply)
    else if s.refs[i] - count <= 0 then (Forgotten(s, i), NoReply)
    else (s.(refs := s.refs[i := s.refs[i] - count]), NoReply)
  }

  ghost function MakeCall(s: State, e: Dentry, newIno: Ino, fault: bool): (State, Reply) {
    if fault then (s, Error(EOTHER))
    else if e in s.disk.entries then (s, Error(EEXIST))
    else (Adopted(WithEntries(s, s.disk.entries[e := newIno]), e, newIno), Entry(newIno))
  }

  ghost function MakeStep(s: State, p: Ino, n: Name, newIno: Ino, allowed: bool, fault: bool): (State, Reply)
    requires Acyclic(Own(s))
  {
    if !HasPath(s, p) then (s, Error(ENOENT))
    else if !allowed then (s, Error(EPERM))
    else MakeCall(s, Dentry(p, n), newIno, fault)
  }

  ghost function CreateCall(s: State, e: Dentry, newIno: Ino, fault: bool): (State, Reply) {
    if !fault && e in s.disk.entries then
      (Adopted(s, e, s.disk.entries[e]), Entry(s.disk.entries[e]))
    else MakeCall(s, e, newIno, fault)
  }

  ghost function CreateStep(s: State, p: Ino, n: Name, newIno: Ino, allowed: bool, fault: bool): (State, Reply)
    requires Acyclic(Own(s))
  {
    if !HasPath(s, p) then (s, Error(ENOENT))
    else if !allowed then (s, Error(EPERM))
    else CreateCall(s, Dentry(p, n), newIno, fault)
  }

  function Removed(s: State, e: Dentry): State {
    Dropped(WithEntries(s, s.disk.entries - {e}), e)
  }

  function UnlinkCall(s: State, e: Dentry, fault: bool): (State, Reply) {
    if fault then (s, Error(EOTHER))
    else if e !in s.disk.entries then (s, Error(ENOENT))
    else (Removed(s, e), Done)
  }

  function RmdirCall(s: State, e: Dentry, fault: bool): (State, Reply) {
    if fault then (s, Error(EOTHER))
    else if e !in s.disk.entries then (s, Error(ENOENT))
    else if HasChildren(s.disk.entries, s.disk.entries[e]) then (s, Error(ENOTEMPTY))
    else (Removed(s, e), Done)
  }

  ghost function UnlinkStep(s: State, p: Ino, n: Name, allowed: bool, fault: bool): (State, Reply)
    requires Acyclic(Own(s))
  {
    if !HasPath(s, p) then (s, Error(ENOENT))
    else if !allowed then (s, Error(EPERM))
    else UnlinkCall(s, Dentry(p, n), fault)
  }

  ghost function RmdirStep(s: State, p: Ino, n: Name, allowed: bool, fault: bool): (State, Reply)
    requires Acyclic(Own(s))
  {
    if !HasPath(s, p) then (s, Error(ENOENT))
    else if !allowed then (s, Error(EPERM))
    else RmdirCall(s, Dentry(p, n), fault)
  }

  function RenamedState(s: State, e: Dentry, e': Dentry): State
    requires e in s.disk.entries
  {
    Moved(WithEntries(s, Renamed(s.disk.entries, e, e')), e, e')
  }

  function RenameCall(s: State, e: Dentry, e': Dentry, fault: bool): (State, Reply) {
    if fault then (s, Error(EOTHER))
    else if e !in s.disk.entries then (s, Error(ENOENT))
    else (RenamedState(s, e, e'), Done)
  }

  ghost function RenameStep(s: State, p: Ino, n: Name, p': Ino, n': Name, allowed: bool, fault: bool): (State, Reply)
    requires Acyclic(Own(s))
  {
    if !HasPath(s, p) || !HasPath(s, p') then (s, Error(ENOENT))
    else if !allowed then (s, Error(EPERM))
    else RenameCall(s, Dentry(p, n), Dentry(p', n'), fault)
  }

  function LinkedState(s: State, e: Dentry, i: Ino): State {
    Referenced(Entered(s, e, i), i)
  }

  function LinkCall(s: State, i: Ino, e': Dentry, fault: bool): (State, Reply) {
    if fault || i == ROOT then (s, Error(EOTHER))
    else if e' in s.disk.entries then (s, Error(EEXIST))
    else (LinkedState(WithEntries(s, s.disk.entries[e' := i]), e', i), Entry(i))
  }

  ghost function LinkStep(s: State, i: Ino, p': Ino, n': Name, allowed: bool, fault: bool): (State, Reply)
    requires Acyclic(Own(s))
  {
    if !HasPath(s, i) || !HasPath(s, p') then (s, Error(ENOENT))
    else if !allowed then (s, Error(EPERM))
    else LinkCall(s, i, Dentry(p', n'), fault)
  }

  ghost function Step(s: State, ev: Event): (State, Reply)
    requires Acyclic(Own(s))
  {
    match ev
    case Lookup(p, n, allowed, fault) => LookupStep(s, p, n, allowed, fault)
    case Forget(i, count) => ForgetStep(s, i, count)
    case Make(p, n, newIno, allowed, fault) => MakeStep(s, p, n, newIno, allowed, fault)
    case Create(p, n, newIno, allowed, fault) => CreateStep(s, p, n, newIno, allowed, fault)
    case Unlink(p, n, allowed, fault) => UnlinkStep(s, p, n, allowed, fault)
    case Rmdir(p, n, allowed, fault) => RmdirStep(s, p, n, allowed, fault)
    case Rename(p, n, p', n', allowed, fault) => RenameStep(s, p, n, p', n', allowed, fault)
    case Link(i, p', n', allowed, fault) => LinkStep(s, i, p', n', allowed, fault)
  }

  // ----- the invariant

  predicate Childless(es: Entries, i: Ino) {
    forall e <- es :: e.dir != i
  }

  /** The names of each inode that the map does not account for; such an inode is no directory. */
  ghost predicate StraysFit(cached: Entries, strays: set<Dentry>) {
    strays <= cached.Keys && forall e <- strays :: Childless(cached, cached[e])
  }

  /** Directories are in the map, and so are the inodes of all names that are no strays. */
  ghost predicate Known(cached: Entries, strays: set<Dentry>, refs: map<Ino, int>) {
    forall e <- cached :: e.dir in refs && (e in strays || cached[e] in refs)
  }

  ghost predicate Counting(refs: map<Ino, int>) {
    ROOT in refs && forall i <- refs :: refs[i] >= 1
  }

  /** The cache holds only entries of the tree, between inodes it knows, each referenced. */
  ghost predicate Inv(s: State) {
    && GoodFs(s.disk)
    && Below(s.cached, s.disk.entries)
    && StraysFit(s.cached, s.strays)
    && Known(s.cached, s.strays, s.refs)
    && Counting(s.refs)
  }

  lemma InvAcyclic(s: State)
    requires Inv(s)
    ensures Acyclic(Own(s)) && Below(Own(s), s.disk.entries)
    ensures ParentKeys(Own(s), ROOT) == {}
  {
    BelowAcyclic(Own(s), s.disk.entries);
  }

  lemma {:induction false} PathHasNames(es: Entries, i: Ino)
    requires Acyclic(es) && PathOf(es, i).Some?
    requires forall e <- es :: IsName(e.name)
    ensures AreNames(PathOf(es, i).value)
    decreases Rank(es, i)
  {
    var keys := ParentKeys(es, i);
    if keys != {} {
      PathHasNames(es, First(keys).dir);
    }
  }

  /** In a good state a rebuilt path names its inode on disk too. */
  lemma PathResolvesOnDisk(s: State, i: Ino)
    requires Inv(s)
    ensures Acyclic(Own(s))
    ensures PathOf(Own(s), i).Some? ==>
              && AreNames(PathOf(Own(s), i).value)
              && Walk(s.disk.entries, ROOT, PathOf(Own(s), i).value) == Some(i)
  {
    InvAcyclic(s);
    if PathOf(Own(s), i).Some? {
      PathHasNames(Own(s), i);
      PathRoundTrip(Own(s), i);
      WalkBelow(Own(s), s.disk.entries, ROOT, PathOf(Own(s), i).value);
    }
  }

  /** The calls made with `path` act on the name `e`. */
  predicate LeadsTo(fs: Fs, path: string, e: Dentry) {
    && ParentOf(fs, path) == Some(e)
    && Lstat(fs, path) == if e in fs.entries then Some(fs.entries[e]) else None
  }

  lemma NamesLeadTo(fs: Fs, names: seq<Name>, p: Ino, n: Name)
    requires AreNames(names) && IsName(n) && Walk(fs.entries, ROOT, names) == Some(p)
    ensures LeadsTo(fs, PathString(fs.base, names) + "/" + n, Dentry(p, n))
  {
    var all := names + [n];
    RenderedSnoc(names, n);
    assert PathString(fs.base, names) + "/" + n == PathString(fs.base, all);
    PathNamesOfPathString(fs, all);
    WalkSnoc(fs.entries, ROOT, names, n);
    assert all[..|all| - 1] == names;
  }

  /** A path to a free name leads to the object that then gets the name. */
  lemma PathOfNewEntry(fs: Fs, path: string, e: Dentry, i: Ino)
    requires LeadsTo(fs, path, e) && e !in fs.entries
    ensures Lstat(fs.(entries := fs.entries[e := i]), path) == Some(i)
  {
    var fs' := fs.(entries := fs.entries[e := i]);
    var names := PathNames(fs, path).value;
    assert PathNames(fs', path) == Some(names);
    var dir := names[..|names| - 1];
    WalkBelow(fs.entries, fs'.entries, ROOT, dir);
    WalkSnoc(fs'.entries, ROOT, dir, e.name);
    assert names == dir + [e.name];
  }

  lemma NamePathLeads(s: State, p: Ino, n: Name)
    requires Inv(s) && IsName(n)
    ensures Acyclic(Own(s))
    ensures HasPath(s, p) ==>
              LeadsTo(s.disk, PathString(s.disk.base, PathOf(Own(s), p).value) + "/" + n, Dentry(p, n))
  {
    PathResolvesOnDisk(s, p);
    if HasPath(s, p) {
      NamesLeadTo(s.disk, PathOf(Own(s), p).value, p, n);
    }
  }

  // ----- what the tracer is given

  /** The names of a request are single path components. */
  predicate WellNamed(ev: Event) {
    match ev
    case Forget(_, _) => true
    case Rename(_, n, _, n', _, _) => IsName(n) && IsName(n')
    case Link(_, _, n', _, _) => IsName(n')
    case _ => IsName(ev.name)
  }

  /** What the file system promises: new numbers are unused, nothing moves or is linked to a
      place at or below itself. */
  ghost predicate Environment(disk: Fs, ev: Event) {
    match ev
    case Make(p, _, newIno, _, _) => Unused(disk, newIno) && newIno != p
    case Create(p, _, newIno, _, _) => Unused(disk, newIno) && newIno != p
    case Rename(p, n, p', _, _, fault) =>
      !fault && Dentry(p, n) in disk.entries ==> !Reaches(disk.entries, disk.entries[Dentry(p, n)], p')
    case Link(i, p', _, _, fault) => !fault ==> !Reaches(disk.entries, i, p')
    case _ => true
  }

  /** The object in the map is the only one of the inode that has names. */
  predicate Sole(s: State, i: Ino) {
    i in s.refs && forall e <- s.strays :: e in s.cached ==> s.cached[e] != i
  }

  /** The inodes a request names are in the map, and no directory that it may add a name to has a
      second object. */
  predicate Named(s: State, ev: Event) {
    match ev
    case Forget(i, count) => i == ROOT || i in s.refs
    case Rename(p, _, p', _, _, _) => p in s.refs && Sole(s, p')
    case Link(i, p', _, _, _) => i in s.refs && Sole(s, p')
    case Unlink(p, _, _, _) => p in s.refs
    case Rmdir(p, _, _, _) => p in s.refs
    case _ => Sole(s, ev.parent)
  }

  /** A name that is not cached does not resolve to a directory with cached names. */
  predicate LookupFits(s: State, p: Ino, n: Name) {
    var e := Dentry(p, n);
    e in s.disk.entries && e !in s.cached ==> Childless(s.cached, s.disk.entries[e])
  }

  /** A rename must have a cached source, an uncached target, or one object under both names. */
  predicate RenameTracked(s: State, e: Dentry, e': Dentry) {
    e in s.cached || e' !in s.cached || (e in s.disk.entries && s.cached[e'] == s.disk.entries[e])
  }

  ghost predicate Admissible(s: State, ev: Event) {
    && Environment(s.disk, ev)
    && WellNamed(ev)
    && Named(s, ev)
    && (ev.Lookup? ==> LookupFits(s, ev.parent, ev.name))
    && (ev.Rename? ==> RenameTracked(s, Dentry(ev.parent, ev.name), Dentry(ev.newParent, ev.newName)))
  }

  /** The state after a request, and its reply. */
  ghost function After(s: State, ev: Event): (State, Reply)
    requires Inv(s)
  {
    InvAcyclic(s);
    Step(s, ev)
  }

  // ----- every step keeps the invariant

  lemma ReferencedKeepsInv(s: State, i: Ino)
    requires Inv(s) && i in s.refs
    ensures Inv(Referenced(s, i))
  {
  }

  /** Giving a free name to an inode in the map, old or just put there. */
  lemma EnteredKeepsInv(s: State, e: Dentry, i: Ino)
    requires GoodFs(s.disk) && Below(s.cached, s.disk.entries) && StraysFit(s.cached, s.strays)
    requires Known(s.cached, s.strays, s.refs) && Sole(s, e.dir) && i in s.refs
    requires e in s.disk.entries && s.disk.entries[e] == i
    ensures var s' := Entered(s, e, i);
            && Below(s'.cached, s'.disk.entries)
            && StraysFit(s'.cached, s'.strays)
            && Known(s'.cached, s'.strays, s'.refs)
  {
  }

  lemma DisplacedKeeps(s: State, i: Ino)
    requires StraysFit(s.cached, s.strays) && Known(s.cached, s.strays, s.refs) && Childless(s.cached, i)
    ensures var s' := Displaced(s, i);
            StraysFit(s'.cached, s'.strays) && Known(s'.cached, s'.strays, s'.refs)
  {
  }

  lemma UnlinkedKeeps(s: State, i: Ino)
    requires Inv(s)
    ensures Inv(Unlinked(s, i)) && Known(Unlinked(s, i).cached, Unlinked(s, i).strays, s.refs - {i})
  {
  }

  lemma SoleAfter(s: State, p: Ino, i: Ino)
    requires Inv(s) && Sole(s, p) && p != i
    ensures Sole(Displaced(s, i), p) && Sole(Unlinked(s, i), p)
  {
  }

  lemma MissedKeepsInv(s: State, e: Dentry, i: Ino)
    requires Inv(s) && Sole(s, e.dir) && e.dir != i && Childless(s.cached, i)
    requires e in s.disk.entries && s.disk.entries[e] == i
    ensures Inv(Missed(s, e, i))
  {
    DisplacedKeeps(s, i);
    SoleAfter(s, e.dir, i);
    EnteredKeepsInv(Displaced(s, i), e, i);
    assert Entered(Displaced(s, i), e, i).refs == s.refs[i := 0];
  }

  lemma ParentApart(fs: Fs, e: Dentry)
    requires GoodFs(fs) && e in fs.entries
    ensures e.dir != fs.entries[e]
  {
  }

  lemma LookupKeepsInv(s: State, p: Ino, n: Name, allowed: bool, fault: bool)
    requires Inv(s) && Sole(s, p) && LookupFits(s, p, n)
    ensures Acyclic(Own(s)) && Inv(LookupStep(s, p, n, allowed, fault).0)
  {
    InvAcyclic(s);
    var e := Dentry(p, n);
    if e in s.disk.entries {
      ParentApart(s.disk, e);
      if e in s.cached {
        if e !in s.strays {
          ReferencedKeepsInv(s, s.disk.entries[e]);
        }
      } else {
        MissedKeepsInv(s, e, s.disk.entries[e]);
      }
    }
  }

  lemma ForgetKeepsInv(s: State, i: Ino, count: nat)
    requires Inv(s)
    ensures Inv(ForgetStep(s, i, count).0)
  {
    UnlinkedKeeps(s, i);
  }

  lemma UnknownChildless(s: State, i: Ino)
    requires Known(s.cached, s.strays, s.refs) && i !in s.refs
    ensures Childless(s.cached, i)
  {
  }

  lemma FreedKeeps(s: State, p: Ino, i: Ino)
    requires Inv(s) && Sole(s, p) && p != i
    ensures var s' := Freed(s, i);
            && StraysFit(s'.cached, s'.strays) && Known(s'.cached, s'.strays, s'.refs)
            && Sole(s', p) && i in s'.refs && Below(s'.cached, s.cached) && s'.disk == s.disk
            && s'.refs == s.refs[i := RefCount(s, i)]
  {
    SoleAfter(s, p, i);
    if i in s.refs {
      UnlinkedKeeps(s, i);
    } else {
      UnknownChildless(s, i);
      DisplacedKeeps(s, i);
    }
  }

  lemma DroppedKeeps(s: State, e: Dentry, p: Ino)
    requires StraysFit(s.cached, s.strays) && Known(s.cached, s.strays, s.refs) && Sole(s, p)
    ensures var s' := Dropped(s, e);
            StraysFit(s'.cached, s'.strays) && Known(s'.cached, s'.strays, s'.refs) && Sole(s', p)
  {
  }

  lemma EnteredAfterDrop(s: State, e: Dentry, i: Ino)
    ensures Entered(Dropped(s, e), e, i) == Entered(s, e, i)
  {
  }

  /** `disk` may differ from the one of `s` in the one entry that is adopted. */
  lemma AdoptedKeepsInv(s: State, disk: Fs, e: Dentry, i: Ino)
    requires Inv(s) && Sole(s, e.dir) && e.dir != i
    requires GoodFs(disk) && e in disk.entries && disk.entries[e] == i && Below(s.cached - {e}, disk.entries)
    ensures Inv(Adopted(s.(disk := disk), e, i))
  {
    var freed := Freed(s, i);
    FreedKeeps(s, e.dir, i);
    DroppedKeeps(freed, e, e.dir);
    var s' := Dropped(freed, e).(disk := disk);
    assert Below(s'.cached, disk.entries);
    EnteredKeepsInv(s', e, i);
    EnteredAfterDrop(freed.(disk := disk), e, i);
    var s'' := Entered(freed.(disk := disk), e, i);
    assert s''.refs == s.refs[i := RefCount(s, i)];
    FirstReference(s'', s.refs, i);
    assert Freed(s.(disk := disk), i) == freed.(disk := disk);
  }

  /** An inode that has just been put into the map gets its reference. */
  lemma FirstReference(s: State, refs: map<Ino, int>, i: Ino)
    requires GoodFs(s.disk) && Below(s.cached, s.disk.entries) && StraysFit(s.cached, s.strays)
    requires Known(s.cached, s.strays, s.refs)
    requires Counting(refs) && s.refs == refs[i := if i in refs then refs[i] else 0]
    ensures Inv(Referenced(s, i))
  {
  }

  lemma NewEntryGoodFs(disk: Fs, p: Ino, n: Name, i: Ino)
    requires GoodFs(disk) && Unused(disk, i) && i != p && IsName(n)
    ensures GoodFs(disk.(entries := disk.entries[Dentry(p, n) := i]))
  {
    UnusedReaches(disk, i, p);
    AddEntryAcyclic(disk.entries, p, n, i);
  }

  lemma MakeKeepsInv(s: State, p: Ino, n: Name, newIno: Ino, allowed: bool, fault: bool)
    requires Inv(s) && Sole(s, p) && Unused(s.disk, newIno) && newIno != p && IsName(n)
    ensures Acyclic(Own(s)) && Inv(MakeStep(s, p, n, newIno, allowed, fault).0)
  {
    InvAcyclic(s);
    NewEntryGoodFs(s.disk, p, n, newIno);
    AdoptedKeepsInv(s, s.disk.(entries := s.disk.entries[Dentry(p, n) := newIno]), Dentry(p, n), newIno);
  }

  lemma CreateKeepsInv(s: State, p: Ino, n: Name, newIno: Ino, allowed: bool, fault: bool)
    requires Inv(s) && Sole(s, p) && Unused(s.disk, newIno) && newIno != p && IsName(n)
    ensures Acyclic(Own(s)) && Inv(CreateStep(s, p, n, newIno, allowed, fault).0)
  {
    InvAcyclic(s);
    if Dentry(p, n) in s.disk.entries {
      ParentApart(s.disk, Dentry(p, n));
      AdoptedKeepsInv(s, s.disk, Dentry(p, n), s.disk.entries[Dentry(p, n)]);
      assert s.(disk := s.disk) == s;
    } else {
      MakeKeepsInv(s, p, n, newIno, allowed, fault);
    }
  }

  lemma RemovedKeepsInv(s: State, e: Dentry)
    requires Inv(s)
    ensures Inv(Removed(s, e))
  {
    BelowAcyclic(s.disk.entries - {e}, s.disk.entries);
  }

  lemma CachedRenameBelow(es: Entries, fs: Entries, e: Dentry, e': Dentry)
    requires Below(es, fs) && e in fs
    ensures Below(CachedRename(es, e, e'), Renamed(fs, e, e')) <==>
            e in es || e' !in es || es[e'] == fs[e]
  {
  }

  lemma MovedKeeps(s: State, e: Dentry, e': Dentry)
    requires StraysFit(s.cached, s.strays) && Known(s.cached, s.strays, s.refs) && Sole(s, e'.dir)
    ensures var s' := Moved(s, e, e');
            StraysFit(s'.cached, s'.strays) && Known(s'.cached, s'.strays, s'.refs)
  {
  }

  lemma RenamedGoodFs(fs: Fs, e: Dentry, e': Dentry)
    requires GoodFs(fs) && e in fs.entries && !Reaches(fs.entries, fs.entries[e], e'.dir) && IsName(e'.name)
    ensures GoodFs(fs.(entries := Renamed(fs.entries, e, e')))
  {
    RenamedAcyclic(fs.entries, e, e');
  }

  lemma RenamedInvIff(s: State, e: Dentry, e': Dentry)
    requires Inv(s) && Sole(s, e'.dir) && IsName(e'.name)
    requires e in s.disk.entries && !Reaches(s.disk.entries, s.disk.entries[e], e'.dir)
    ensures Inv(RenamedState(s, e, e')) <==> RenameTracked(s, e, e')
  {
    RenamedGoodFs(s.disk, e, e');
    CachedRenameBelow(s.cached, s.disk.entries, e, e');
    MovedKeeps(WithEntries(s, Renamed(s.disk.entries, e, e')), e, e');
  }

  /** A rename that reaches the disk keeps the cache within the tree exactly when it is tracked. */
  lemma RenameKeepsInvIff(s: State, p: Ino, n: Name, p': Ino, n': Name)
    requires Inv(s) && Sole(s, p') && IsName(n')
    requires Acyclic(Own(s)) && HasPath(s, p) && HasPath(s, p')
    requires Dentry(p, n) in s.disk.entries
    requires !Reaches(s.disk.entries, s.disk.entries[Dentry(p, n)], p')
    ensures Inv(RenameStep(s, p, n, p', n', true, false).0) <==> RenameTracked(s, Dentry(p, n), Dentry(p', n'))
  {
    RenamedInvIff(s, Dentry(p, n), Dentry(p', n'));
    assert RenameStep(s, p, n, p', n', true, false).0 == RenamedState(s, Dentry(p, n), Dentry(p', n'));
  }

  lemma LinkedKeepsInv(s: State, i: Ino, p': Ino, n': Name)
    requires Inv(s) && i in s.refs && Sole(s, p') && i != ROOT && IsName(n')
    requires Acyclic(s.disk.entries[Dentry(p', n') := i]) && Dentry(p', n') !in s.disk.entries
    ensures Inv(LinkCall(s, i, Dentry(p', n'), false).0)
  {
    var e := Dentry(p', n');
    var s1 := WithEntries(s, s.disk.entries[e := i]);
    EnteredKeepsInv(s1, e, i);
    ReferencedKeepsInv(Entered(s1, e, i), i);
  }

  lemma LinkKeepsInv(s: State, i: Ino, p': Ino, n': Name, allowed: bool, fault: bool)
    requires Inv(s) && i in s.refs && Sole(s, p') && IsName(n')
    requires !fault ==> !Reaches(s.disk.entries, i, p')
    ensures Acyclic(Own(s)) && Inv(LinkStep(s, i, p', n', allowed, fault).0)
  {
    InvAcyclic(s);
    if LinkStep(s, i, p', n', allowed, fault).0 != s {
      AddEntryAcyclic(s.disk.entries, p', n', i);
      LinkedKeepsInv(s, i, p', n');
    }
  }

  lemma StepKeepsInv(s: State, ev: Event)
    requires Inv(s) && Admissible(s, ev)
    ensures Acyclic(Own(s)) && Inv(Step(s, ev).0)
  {
    InvAcyclic(s);
    match ev
    case Lookup(p, n, allowed, fault) => LookupKeepsInv(s, p, n, allowed, fault);
    case Forget(i, count) => ForgetKeepsInv(s, i, count);
    case Make(p, n, newIno, allowed, fault) => MakeKeepsInv(s, p, n, newIno, allowed, fault);
    case Create(p, n, newIno, allowed, fault) => CreateKeepsInv(s, p, n, newIno, allowed, fault);
    case Unlink(p, n, allowed, fault) => RemovedKeepsInv(s, Dentry(p, n));
    case Rmdir(p, n, allowed, fault) => RemovedKeepsInv(s, Dentry(p, n));
    case Rename(p, n, p', n', allowed, fault) =>
      if HasPath(s, p) && HasPath(s, p') && allowed && !fault && Dentry(p, n) in s.disk.entries {
        RenameKeepsInvIff(s, p, n, p', n');
      }
    case Link(i, p', n', allowed, fault) => LinkKeepsInv(s, i, p', n', allowed, fault);
  }

  // ----- whole runs

  /** The tracer's start: only the root is known, with one reference of its own. */
  function Initial(disk: Fs): State {
    State(disk, map[], map[ROOT := 1], {})
  }

  /** Every event of the run meets its assumptions in the state it is handled in. */
  ghost predicate AdmissibleRun(s: State, evs: seq<Event>)
    requires Inv(s)
    decreases |evs|
  {
    evs == [] ||
    (&& Admissible(s, evs[0])
     && (StepKeepsInv(s, evs[0]);
         AdmissibleRun(Step(s, evs[0]).0, evs[1..])))
  }

  ghost function Run(s: State, evs: seq<Event>): (s': State)
    requires Inv(s) && AdmissibleRun(s, evs)
    ensures Inv(s')
    decreases |evs|
  {
    if evs == [] then s
    else
      StepKeepsInv(s, evs[0]);
      Run(Step(s, evs[0]).0, evs[1..])
  }

  lemma InitialInv(disk: Fs)
    requires GoodFs(disk)
    ensures Inv(Initial(disk))
  {
  }

  /** From the start, after every run: each cached entry is on disk, and each path that the
      cache can rebuild leads, on disk, to the inode it was rebuilt for. */
  lemma CacheRefinesDisk(disk: Fs, evs: seq<Event>, i: Ino)
    requires GoodFs(disk)
    requires (InitialInv(disk); AdmissibleRun(Initial(disk), evs))
    ensures (InitialInv(disk);
             var s := Run(Initial(disk), evs);
             && Below(s.cached, s.disk.entries)
             && Acyclic(Own(s))
             && (PathOf(Own(s), i).Some? ==>
                   Lstat(s.disk, PathString(s.disk.base, PathOf(Own(s), i).value)) == Some(i))
             && (PathOf(Own(s), i).Some? <==> ChainToRoot(Own(s), i)))
  {
    InitialInv(disk);
    var s := Run(Initial(disk), evs);
    PathResolvesOnDisk(s, i);
    InvAcyclic(s);
    PathExistsIff(Own(s), i);
    if PathOf(Own(s), i).Some? {
      PathNamesOfPathString(s.disk, PathOf(Own(s), i).value);
    }
  }

  // ----- references

  /** What one handled event adds to the number of references the kernel holds on `i`. */
  ghost function Owed(s: State, ev: Event, i: Ino): int
    requires Acyclic(Own(s))
  {
    if ev.Forget? && ev.ino == i then 0 - ev.count
    else if Step(s, ev).1 == Entry(i) then 1
    else 0
  }

  /** Entry replies for `i` minus forgotten references, over a run. */
  ghost function Balance(s: State, evs: seq<Event>, i: Ino): int
    requires Inv(s) && AdmissibleRun(s, evs)
    decreases |evs|
  {
    if evs == [] then 0
    else
      StepKeepsInv(s, evs[0]);
      Owed(s, evs[0], i) + Balance(Step(s, evs[0]).0, evs[1..], i)
  }

  /** The request gets as far as the disk and finds the name there. */
  ghost predicate Finds(s: State, p: Ino, n: Name, allowed: bool, fault: bool)
    requires Acyclic(Own(s))
  {
    allowed && HasPath(s, p) && !fault && Dentry(p, n) in s.disk.entries
  }

  /** A name that is found is cached with the object in the map, or resolves to an inode that is
      not in the map; forgets stay within the count. */
  ghost predicate Tracked(s: State, ev: Event)
    requires Acyclic(Own(s))
  {
    match ev
    case Lookup(p, n, allowed, fault) =>
      Finds(s, p, n, allowed, fault) ==>
        if Dentry(p, n) in s.cached then Dentry(p, n) !in s.strays else s.disk.entries[Dentry(p, n)] !in s.refs
    case Forget(i, count) => i != ROOT ==> count <= RefCount(s, i)
    case _ => true
  }

  ghost predicate Conserves(s: State, ev: Event, i: Ino)
    requires Acyclic(Own(s))
  {
    RefCount(Step(s, ev).0, i) == RefCount(s, i) + Owed(s, ev, i)
  }

  /** The count of `i` grows by one exactly when the reply is an entry for it. */
  predicate Replied(s: State, r: (State, Reply), i: Ino) {
    RefCount(r.0, i) == RefCount(s, i) + if r.1 == Entry(i) then 1 else 0
  }

  lemma LookedUpReplied(s: State, e: Dentry, i: Ino, j: Ino)
    requires if e in s.cached then e !in s.strays else i !in s.refs
    ensures Replied(s, (LookedUp(s, e, i), Entry(i)), j)
  {
  }

  lemma MakeReplied(s: State, e: Dentry, newIno: Ino, fault: bool, i: Ino)
    ensures Replied(s, MakeCall(s, e, newIno, fault), i)
  {
  }

  lemma CreateReplied(s: State, e: Dentry, newIno: Ino, fault: bool, i: Ino)
    ensures Replied(s, CreateCall(s, e, newIno, fault), i)
  {
  }

  lemma LinkReplied(s: State, j: Ino, e: Dentry, fault: bool, i: Ino)
    ensures Replied(s, LinkCall(s, j, e, fault), i)
  {
  }

  lemma ForgetCounted(s: State, j: Ino, count: nat, i: Ino)
    requires j != ROOT ==> count <= RefCount(s, j)
    ensures i != ROOT ==> RefCount(ForgetStep(s, j, count).0, i) == RefCount(s, i) - if i == j then count else 0
  {
  }

  lemma RefsUntouched(s: State, ev: Event)
    requires Acyclic(Own(s)) && (ev.Unlink? || ev.Rmdir? || ev.Rename?)
    ensures Step(s, ev).0.refs == s.refs && !Step(s, ev).1.Entry?
  {
  }

  /** Requests other than forgets. */
  lemma StepReplied(s: State, ev: Event, i: Ino)
    requires Acyclic(Own(s)) && Tracked(s, ev) && !ev.Forget?
    ensures Replied(s, Step(s, ev), i)
  {
    match ev
    case Lookup(p, n, allowed, fault) =>
      if Finds(s, p, n, allowed, fault) {
        LookedUpReplied(s, Dentry(p, n), s.disk.entries[Dentry(p, n)], i);
      }
    case Make(p, n, newIno, _, fault) => MakeReplied(s, Dentry(p, n), newIno, fault, i);
    case Create(p, n, newIno, _, fault) => CreateReplied(s, Dentry(p, n), newIno, fault, i);
    case Link(j, p, n, _, fault) => LinkReplied(s, j, Dentry(p, n), fault, i);
    case _ => RefsUntouched(s, ev);
  }

  lemma TrackedConserves(s: State, ev: Event, i: Ino)
    requires Acyclic(Own(s)) && Tracked(s, ev) && i != ROOT
    ensures Conserves(s, ev, i)
  {
    if ev.Forget? {
      ForgetCounted(s, ev.ino, ev.count, i);
    } else {
      StepReplied(s, ev, i);
    }
  }

  lemma UntrackedLoses(s: State, ev: Event) returns (i: Ino)
    requires Inv(s) && Acyclic(Own(s)) && !Tracked(s, ev)
    ensures i != ROOT && !Conserves(s, ev, i)
  {
    i := if ev.Lookup? then s.disk.entries[Dentry(ev.parent, ev.name)] else ev.ino;
  }

  /** A request changes each count by the replies given minus the forgets received, if and only
      if it is tracked. */
  lemma StepConservesRefsIff(s: State, ev: Event)
    requires Inv(s) && Acyclic(Own(s))
    ensures Tracked(s, ev) <==> forall i | i != ROOT :: Conserves(s, ev, i)
  {
    if Tracked(s, ev) {
      forall i | i != ROOT
        ensures Conserves(s, ev, i)
      {
        TrackedConserves(s, ev, i);
      }
    } else {
      var i := UntrackedLoses(s, ev);
    }
  }

  ghost predicate TrackedRun(s: State, evs: seq<Event>)
    requires Inv(s) && AdmissibleRun(s, evs)
    decreases |evs|
  {
    evs == [] ||
    (StepKeepsInv(s, evs[0]);
     Tracked(s, evs[0]) && TrackedRun(Step(s, evs[0]).0, evs[1..]))
  }

  lemma {:induction false} RunConservesRefs(s: State, evs: seq<Event>, i: Ino)
    requires Inv(s) && AdmissibleRun(s, evs) && TrackedRun(s, evs) && i != ROOT
    ensures RefCount(Run(s, evs), i) == RefCount(s, i) + Balance(s, evs, i)
    decreases |evs|
  {
    if evs != [] {
      StepKeepsInv(s, evs[0]);
      TrackedConserves(s, evs[0], i);
      RunConservesRefs(Step(s, evs[0]).0, evs[1..], i);
    }
  }

  lemma {:induction false} PrefixAdmissible(s: State, evs: seq<Event>, k: nat)
    requires Inv(s) && AdmissibleRun(s, evs) && k <= |evs|
    ensures AdmissibleRun(s, evs[..k])
    ensures TrackedRun(s, evs) ==> TrackedRun(s, evs[..k])
    decreases k
  {
    if k > 0 {
      StepKeepsInv(s, evs[0]);
      assert evs[..k][1..] == evs[1..][..k - 1];
      PrefixAdmissible(Step(s, evs[0]).0, evs[1..], k - 1);
    }
  }

  /** After `k` requests the count of `i` is what the replies and forgets so far make it. */
  ghost predicate Accounted(s: State, evs: seq<Event>, k: nat, i: Ino)
    requires Inv(s) && AdmissibleRun(s, evs) && k <= |evs|
  {
    PrefixAdmissible(s, evs, k);
    RefCount(Run(s, evs[..k]), i) == RefCount(s, i) + Balance(s, evs[..k], i)
  }

  lemma AccountedNext(s: State, evs: seq<Event>, k: nat, i: Ino)
    requires Inv(s) && AdmissibleRun(s, evs) && k < |evs|
    ensures Admissible(s, evs[0]) && Acyclic(Own(s)) && Inv(Step(s, evs[0]).0)
    ensures AdmissibleRun(Step(s, evs[0]).0, evs[1..])
    ensures Conserves(s, evs[0], i) ==>
              (Accounted(s, evs, k + 1, i) <==> Accounted(Step(s, evs[0]).0, evs[1..], k, i))
    ensures k == 0 ==> (Accounted(s, evs, 1, i) <==> Conserves(s, evs[0], i))
  {
    StepKeepsInv(s, evs[0]);
    var s' := Step(s, evs[0]).0;
    PrefixAdmissible(s, evs, k + 1);
    PrefixAdmissible(s', evs[1..], k);
    assert evs[..k + 1][0] == evs[0] && evs[..k + 1][1..] == evs[1..][..k];
    if k == 0 {
      assert evs[1..][..0] == [];
    }
  }

  /** Over a run, every count is right after every request, if and only if every request is
      tracked. */
  lemma {:induction false} RunConservesRefsIff(s: State, evs: seq<Event>)
    requires Inv(s) && AdmissibleRun(s, evs)
    ensures TrackedRun(s, evs) <==> forall k: nat, i | k <= |evs| && i != ROOT :: Accounted(s, evs, k, i)
    decreases |evs|
  {
    if TrackedRun(s, evs) {
      forall k: nat, i | k <= |evs| && i != ROOT
        ensures Accounted(s, evs, k, i)
      {
        PrefixAdmissible(s, evs, k);
        RunConservesRefs(s, evs[..k], i);
      }
    }
    if forall k: nat, i | k <= |evs| && i != ROOT :: Accounted(s, evs, k, i) {
      AccountedTracked(s, evs);
    }
  }

  lemma {:induction false} AccountedTracked(s: State, evs: seq<Event>)
    requires Inv(s) && AdmissibleRun(s, evs)
    requires forall k: nat, i | k <= |evs| && i != ROOT :: Accounted(s, evs, k, i)
    ensures TrackedRun(s, evs)
    decreases |evs|
  {
    if evs != [] {
      StepKeepsInv(s, evs[0]);
      forall i | i != ROOT
        ensures Conserves(s, evs[0], i)
      {
        AccountedNext(s, evs, 0, i);
      }
      StepConservesRefsIff(s, evs[0]);
      forall k: nat, i | k < |evs| && i != ROOT
        ensures AdmissibleRun(Step(s, evs[0]).0, evs[1..]) && Accounted(Step(s, evs[0]).0, evs[1..], k, i)
      {
        AccountedNext(s, evs, k, i);
        assert Accounted(s, evs, k + 1, i);
      }
      AccountedTracked(Step(s, evs[0]).0, evs[1..]);
    }
  }

  /** From the start, over a tracked run, an inode is in the map exactly while the kernel holds
      references to it, and its count is that number. */
  lemma CachedWhileReferenced(disk: Fs, evs: seq<Event>, i: Ino)
    requires GoodFs(disk) && i != ROOT
    requires (InitialInv(disk); AdmissibleRun(Initial(disk), evs) && TrackedRun(Initial(disk), evs))
    ensures (InitialInv(disk);
             var balance := Balance(Initial(disk), evs, i);
             && balance >= 0
             && (i in Run(Initial(disk), evs).refs <==> balance > 0)
             && (balance > 0 ==> Run(Initial(disk), evs).refs[i] == balance))
  {
    InitialInv(disk);
    RunConservesRefs(Initial(disk), evs, i);
  }

  // ----- replies that name an inode outside the map

  /** The inode that an entry reply names is in the map afterwards, unless the name was looked up
      and is that of an object that lost its place, while nothing has taken the place since. */
  lemma ReplyInMapIff(s: State, ev: Event)
    requires Inv(s) && Named(s, ev) && Acyclic(Own(s)) && Step(s, ev).1.Entry?
    ensures Step(s, ev).1.ino in Step(s, ev).0.refs <==>
            !(&& ev.Lookup?
              && Dentry(ev.parent, ev.name) in s.strays
              && s.disk.entries[Dentry(ev.parent, ev.name)] !in s.refs)
  {
  }

  // ----- requests that the cache does not keep up with

  const HARD_LINKED: Fs := Fs("/base", map[Dentry(ROOT, "a") := 2, Dentry(ROOT, "b") := 2])
  const TWO_FILES: Fs := Fs("/base", map[Dentry(ROOT, "a") := 2, Dentry(ROOT, "b") := 3])

  lemma ExamplesGood()
    ensures GoodFs(HARD_LINKED) && GoodFs(TWO_FILES)
  {
    var rank := map[ROOT := 0, 2 := 1, 3 := 1];
    assert RankedBy(HARD_LINKED.entries, rank) && RankedBy(TWO_FILES.entries, rank);
  }

  lemma FirstMissed(disk: Fs, e: Dentry, i: Ino)
    requires i != ROOT
    ensures Missed(Initial(disk), e, i) == State(disk, map[e := i], map[ROOT := 1, i := 1], {})
  {
  }

  lemma FirstLookup(disk: Fs, n: Name)
    requires GoodFs(disk) && Dentry(ROOT, n) in disk.entries
    ensures (InitialInv(disk);
             var i, r := disk.entries[Dentry(ROOT, n)], After(Initial(disk), Lookup(ROOT, n, true, false));
             r == (State(disk, map[Dentry(ROOT, n) := i], map[ROOT := 1, i := 1], {}), Entry(i)) && Inv(r.0))
  {
    InitialInv(disk);
    InvAcyclic(Initial(disk));
    LookupKeepsInv(Initial(disk), ROOT, n, true, false);
    FirstMissed(disk, Dentry(ROOT, n), disk.entries[Dentry(ROOT, n)]);
  }

  /** Looking up both links of a file is admissible, but the second reply is not counted. */
  lemma SecondLinkUntracked()
    ensures (ExamplesGood(); InitialInv(HARD_LINKED);
             var s, ev := After(Initial(HARD_LINKED), Lookup(ROOT, "a", true, false)).0, Lookup(ROOT, "b", true, false);
             && Inv(s) && Admissible(s, ev)
             && After(s, ev).1 == Entry(2)
             && RefCount(s, 2) == 1 == RefCount(After(s, ev).0, 2))
  {
    ExamplesGood();
    FirstLookup(HARD_LINKED, "a");
    SecondLookup(State(HARD_LINKED, map[Dentry(ROOT, "a") := 2], map[ROOT := 1, 2 := 1], {}), "b", 2);
  }

  lemma SecondLookup(s: State, n: Name, i: Ino)
    requires Inv(s) && s.strays == {} && ROOT in s.refs && IsName(n) && Childless(s.cached, i)
    requires Dentry(ROOT, n) in s.disk.entries && s.disk.entries[Dentry(ROOT, n)] == i && Dentry(ROOT, n) !in s.cached
    ensures Admissible(s, Lookup(ROOT, n, true, false))
    ensures After(s, Lookup(ROOT, n, true, false)) == (Missed(s, Dentry(ROOT, n), i), Entry(i))
    ensures RefCount(Missed(s, Dentry(ROOT, n), i), i) == 1
  {
    InvAcyclic(s);
  }

  const NAME_A: Dentry := Dentry(ROOT, "a")
  const NAME_B: Dentry := Dentry(ROOT, "b")

  const A_KNOWN: State := State(HARD_LINKED, map[NAME_A := 2], map[ROOT := 1, 2 := 1], {})
  const BOTH_KNOWN: State := State(HARD_LINKED, map[NAME_A := 2, NAME_B := 2], map[ROOT := 1, 2 := 1], {NAME_A})
  const A_LOST: State := State(HARD_LINKED, map[NAME_A := 2], map[ROOT := 1], {NAME_A})

  lemma BothLookedUp()
    ensures Missed(A_KNOWN, NAME_B, 2) == BOTH_KNOWN
  {
    var s := Missed(A_KNOWN, NAME_B, 2);
    assert ParentKeys(A_KNOWN.cached, 2) == {NAME_A};
    assert s.strays == {NAME_A} && s.cached == BOTH_KNOWN.cached && s.refs == BOTH_KNOWN.refs;
  }

  lemma SecondForgotten()
    ensures ForgetStep(BOTH_KNOWN, 2, 2) == (A_LOST, NoReply)
  {
    var s := Forgotten(BOTH_KNOWN, 2);
    assert s.cached == A_LOST.cached && s.strays == A_LOST.strays && s.refs == A_LOST.refs;
  }

  lemma LostInv()
    ensures Inv(A_KNOWN) && Inv(BOTH_KNOWN) && Inv(A_LOST)
  {
    ExamplesGood();
    FirstLookup(HARD_LINKED, "a");
    SecondLookup(A_KNOWN, "b", 2);
    LookupKeepsInv(A_KNOWN, ROOT, "b", true, false);
    BothLookedUp();
    ForgetKeepsInv(BOTH_KNOWN, 2, 2);
    SecondForgotten();
  }

  /** Both links of a file are looked up and both references forgotten; then the first link is
      looked up again. Every request is admissible, but the last reply names an inode that the map
      does not hold, so that the kernel may not even forget it. */
  lemma ReplyOutsideMap()
    ensures Inv(A_KNOWN) && Inv(BOTH_KNOWN) && Inv(A_LOST)
    ensures (ExamplesGood(); InitialInv(HARD_LINKED);
             && Admissible(Initial(HARD_LINKED), Lookup(ROOT, "a", true, false))
             && After(Initial(HARD_LINKED), Lookup(ROOT, "a", true, false)) == (A_KNOWN, Entry(2)))
    ensures Admissible(A_KNOWN, Lookup(ROOT, "b", true, false))
    ensures After(A_KNOWN, Lookup(ROOT, "b", true, false)) == (BOTH_KNOWN, Entry(2))
    ensures Admissible(BOTH_KNOWN, Forget(2, 2)) && After(BOTH_KNOWN, Forget(2, 2)) == (A_LOST, NoReply)
    ensures Admissible(A_LOST, Lookup(ROOT, "a", true, false))
    ensures After(A_LOST, Lookup(ROOT, "a", true, false)) == (A_LOST, Entry(2))
    ensures 2 !in A_LOST.refs && !Admissible(A_LOST, Forget(2, 1))
  {
    LostInv();
    ExamplesGood();
    FirstLookup(HARD_LINKED, "a");
    SecondLookup(A_KNOWN, "b", 2);
    BothLookedUp();
    SecondForgotten();
    InvAcyclic(A_LOST);
  }

  /** Renaming an uncached file over a cached one leaves a stale entry in the cache. */
  lemma UncachedSourceStale()
    ensures (ExamplesGood(); InitialInv(TWO_FILES);
             var s := After(Initial(TWO_FILES), Lookup(ROOT, "b", true, false)).0;
             Inv(s) && !Inv(After(s, Rename(ROOT, "a", ROOT, "b", true, false)).0))
  {
    ExamplesGood();
    FirstLookup(TWO_FILES, "b");
    var s := After(Initial(TWO_FILES), Lookup(ROOT, "b", true, false)).0;
    InvAcyclic(s);
    var s' := After(s, Rename(ROOT, "a", ROOT, "b", true, false)).0;
    assert Dentry(ROOT, "b") in s'.cached && s'.cached[Dentry(ROOT, "b")] == 3;
    assert s'.disk.entries[Dentry(ROOT, "b")] == 2;
  }
}
