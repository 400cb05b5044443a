/** The tracer's inode cache as objects: inodes linked downwards by `dentries` and upwards by
    `parents`, a map from inode numbers to objects, and the request handlers that update them. */
module Fusetrace {
  import opened Options
  import opened Namespace
  import opened CacheModel
  import opened CacheEffects

  class Inode {
    var ino: Ino
    var refs: int
    var parents: map<Dentry, Inode?>
    var dentries: map<Name, Inode?>

    constructor (ino: Ino)
      ensures this.ino == ino && refs == 0 && parents == map[] && dentries == map[]
    {
      this.ino, refs, parents, dentries := ino, 0, map[], map[];
    }
  }

  type InodeMap = map<Ino, Inode?>

  /** The names that the cache holds, each with the object it links to. */
  type Links = map<Dentry, Inode>

  /** `down` holds the names that `links` has in directory `i`. */
  ghost predicate DownLinks(down: map<Name, Inode?>, links: Links, i: Ino) {
    && (forall n <- down :: Dentry(i, n) in links && down[n] == links[Dentry(i, n)])
    && (forall e <- links :: e.dir == i ==> e.name in down)
  }

  /** `up` holds the links from `o` to the directories that name it. */
  ghost predicate UpLinks(up: map<Dentry, Inode?>, links: Links, m: InodeMap, o: Inode) {
    && (forall e <- up :: e in links && links[e] == o && e.dir in m && up[e] == m[e.dir])
    && (forall e <- links :: links[e] == o ==> e in up)
  }

  lemma RemoveDown(links: Links, e: Dentry, i: Ino, down: map<Name, Inode?>)
    requires DownLinks(down, links, i)
    ensures DownLinks(if i == e.dir then down - {e.name} else down, links - {e}, i)
  {
  }

  lemma RemoveUp(links: Links, m: InodeMap, e: Dentry, o: Inode, up: map<Dentry, Inode?>)
    requires e in links && UpLinks(up, links, m, o)
    ensures UpLinks(if links[e] == o then up - {e} else up, links - {e}, m, o)
  {
  }

  lemma AddDown(links: Links, e: Dentry, c: Inode, i: Ino, down: map<Name, Inode?>)
    requires DownLinks(down, links, i)
    ensures DownLinks(if i == e.dir then down[e.name := c] else down, links[e := c], i)
  {
  }

  lemma AddUp(links: Links, m: InodeMap, e: Dentry, c: Inode, o: Inode, up: map<Dentry, Inode?>)
    requires e !in links && e.dir in m && UpLinks(up, links, m, o)
    ensures UpLinks(if o == c then up[e := m[e.dir]] else up, links[e := c], m, o)
  {
  }

  /** Links do not change when a slot that is no directory of theirs comes, goes or changes. */
  lemma SameUp(links: Links, m: InodeMap, m': InodeMap, o: Inode, up: map<Dentry, Inode?>)
    requires forall e <- links :: e.dir in m && e.dir in m' && m[e.dir] == m'[e.dir]
    requires UpLinks(up, links, m, o)
    ensures UpLinks(up, links, m', o)
  {
  }

  /** The names of an object. */
  ghost function NamesOf(links: Links, o: Inode): set<Dentry> {
    set e | e in links && links[e] == o
  }

  /** All links but those that touch `o`, whose number is `i`. */
  ghost function Cut(links: Links, o: Inode, i: Ino): Links {
    map e | e in links && e.dir != i && links[e] != o :: links[e]
  }

  predicate IsFirstName(names: set<Name>, n: Name) {
    n in names && forall m <- names :: m == n || NameLess(n, m)
  }

  lemma FirstNameExists(names: set<Name>)
    requires names != {}
    ensures exists n :: IsFirstName(names, n)
  {
    var keys := set n | n in names :: Dentry(ROOT, n);
    var n0 :| n0 in names;
    assert Dentry(ROOT, n0) in keys;
    FirstExists(keys);
    var k :| IsFirst(keys, k);
    forall m <- names
      ensures m == k.name || NameLess(k.name, m)
    {
      assert Dentry(ROOT, m) in keys;
    }
    assert IsFirstName(names, k.name);
  }

  /** `links` is `all` without some of the links that touch `o`. */
  ghost predicate Parted(links: Links, all: Links, o: Inode, i: Ino) {
    && (forall e <- links :: e in all && all[e] == links[e])
    && (forall e <- all :: e.dir != i && all[e] != o ==> e in links)
  }

  lemma PartStep(links: Links, all: Links, o: Inode, i: Ino, e: Dentry)
    requires Parted(links, all, o, i) && e in links && (e.dir == i || links[e] == o)
    ensures Parted(links - {e}, all, o, i)
    ensures NamesOf(links - {e}, o) == NamesOf(links, o) - {e}
    ensures |links - {e}| < |links|
  {
  }

  lemma PartsEnd(links: Links, all: Links, o: Inode, i: Ino)
    requires Parted(links, all, o, i) && NamesOf(links, o) == {} && forall e <- links :: e.dir != i
    ensures links == Cut(all, o, i)
  {
    forall e <- links
      ensures links[e] != o
    {
      assert links[e] == o ==> e in NamesOf(links, o);
    }
  }

  class Tracer {
    const root: Inode
    var inodeMap: InodeMap
    var disk: Fs
    /** The inodes that have not been deleted, and the links between them. */
    ghost var objects: set<Inode>
    ghost var links: Links

    ghost predicate InMap(o: Inode)
      reads this`inodeMap, o`ino
    {
      o.ino in inodeMap && inodeMap[o.ino] == o
    }

    ghost predicate Placed(i: Ino)
      reads this`inodeMap, this`objects, objects`ino
    {
      i in inodeMap && inodeMap[i] in objects && inodeMap[i].ino == i
    }

    /** The inodes in the map have not been deleted and stand under their numbers. */
    ghost predicate Numbered()
      reads this`inodeMap, this`objects, objects`ino
    {
      && ROOT in inodeMap && inodeMap[ROOT] == root
      && forall i {:trigger Placed(i)} :: i in inodeMap ==> Placed(i)
    }

    ghost predicate LinkEnds(ls: Links, e: Dentry)
      reads this`inodeMap, this`objects
    {
      e in ls && e.dir in inodeMap && ls[e] in objects
    }

    /** An object in the map has the names of its directory; one that lost its place has none. */
    ghost predicate Held(ls: Links, o: Inode)
      requires o in objects
      reads this`inodeMap, this`objects, objects`ino, objects`dentries, objects`parents
    {
      && (if InMap(o) then DownLinks(o.dentries, ls, o.ino) else o.dentries == map[])
      && UpLinks(o.parents, ls, inodeMap, o)
    }

    /** The links between the inodes are those of `ls`, in both directions. */
    ghost predicate Linked(ls: Links)
      reads this`inodeMap, this`objects, objects`ino, objects`dentries, objects`parents
    {
      && (forall e {:trigger LinkEnds(ls, e)} :: e in ls ==> LinkEnds(ls, e))
      && (forall o {:trigger Held(ls, o)} :: o in objects ==> Held(ls, o))
    }

    ghost predicate Shown(ls: Links, es: Entries, strays: set<Dentry>, e: Dentry)
      reads this`inodeMap, this`objects, objects`ino
    {
      e in ls && e in es && ls[e] in objects && ls[e].ino == es[e] && (e in strays <==> !InMap(ls[e]))
    }

    /** The links stand for the entries `es`; strays are the names of objects not in the map. */
    ghost predicate Shows(ls: Links, es: Entries, strays: set<Dentry>)
      reads this`inodeMap, this`objects, objects`ino
    {
      forall e {:trigger Shown(ls, es, strays, e)} :: e in ls || e in es || e in strays ==> Shown(ls, es, strays, e)
    }

    ghost predicate CountedAt(refs: map<Ino, int>, i: Ino)
      reads this`inodeMap, this`objects, objects`refs
    {
      i in inodeMap && i in refs && inodeMap[i] in objects && inodeMap[i].refs == refs[i]
    }

    ghost predicate Counted(refs: map<Ino, int>)
      reads this`inodeMap, this`objects, objects`refs
    {
      forall i {:trigger CountedAt(refs, i)} :: i in inodeMap || i in refs ==> CountedAt(refs, i)
    }

    /** The objects represent `s`. */
    ghost predicate Valid(s: State)
      reads this, objects
    {
      Numbered() && Linked(links) && Shows(links, s.cached, s.strays) && Counted(s.refs) && disk == s.disk
    }

    lemma Slot(i: Ino)
      requires Numbered() && i in inodeMap
      ensures inodeMap[i] in objects && inodeMap[i].ino == i && InMap(inodeMap[i])
    {
      assert Placed(i);
    }

    lemma MapIff(refs: map<Ino, int>, i: Ino)
      requires Counted(refs)
      ensures i in inodeMap <==> i in refs
    {
      assert i in inodeMap || i in refs ==> CountedAt(refs, i);
    }

    lemma NamedIff(ls: Links, es: Entries, strays: set<Dentry>, e: Dentry)
      requires Shows(ls, es, strays)
      ensures e in ls <==> e in es
      ensures e in strays ==> e in es
    {
      assert e in ls || e in es || e in strays ==> Shown(ls, es, strays, e);
    }

    lemma SlotOf(s: State, i: Ino)
      requires Valid(s) && i in s.refs
      ensures i in inodeMap && inodeMap[i] in objects && inodeMap[i].ino == i && InMap(inodeMap[i])
    {
      MapIff(s.refs, i);
      Slot(i);
    }

    /** Links are symmetric: a dentry one way is a parent link the other way. */
    lemma LinkSymmetry(ls: Links, p: Inode, n: Name, o: Inode)
      requires Numbered() && Linked(ls) && p in objects && o in objects
      ensures n in p.dentries && p.dentries[n] == o <==>
              Dentry(p.ino, n) in o.parents && o.parents[Dentry(p.ino, n)] == p
    {
      assert Held(ls, p) && Held(ls, o);
      if Dentry(p.ino, n) in o.parents {
        Slot(p.ino);
      }
    }

    lemma ChildLinks(ls: Links, o: Inode)
      requires Linked(ls) && o in objects && InMap(o)
      ensures forall n <- o.dentries :: Dentry(o.ino, n) in ls && o.dentries[n] == ls[Dentry(o.ino, n)]
      ensures forall e <- ls :: e.dir == o.ino ==> e.name in o.dentries
    {
      assert Held(ls, o);
    }

    lemma ChildLink(ls: Links, o: Inode, n: Name)
      requires Linked(ls) && o in objects && n in o.dentries
      ensures InMap(o) && Dentry(o.ino, n) in ls && o.dentries[n] == ls[Dentry(o.ino, n)] && o.dentries[n] in objects
    {
      assert Held(ls, o);
      assert LinkEnds(ls, Dentry(o.ino, n));
    }

    lemma ParentLinks(ls: Links, o: Inode)
      requires Numbered() && Linked(ls) && o in objects
      ensures o.parents.Keys == NamesOf(ls, o)
      ensures forall e <- o.parents ::
                && o.parents[e] in objects && o.parents[e].ino == e.dir && InMap(o.parents[e])
                && e.name in o.parents[e].dentries
    {
      assert Held(ls, o);
      forall e <- o.parents
        ensures o.parents[e] in objects && o.parents[e].ino == e.dir && InMap(o.parents[e])
        ensures e.name in o.parents[e].dentries
      {
        Slot(e.dir);
        assert Held(ls, inodeMap[e.dir]);
      }
    }

    /** The start of the tracer: only the root is cached. */
    constructor (disk: Fs)
      ensures Valid(Initial(disk)) && fresh(objects)
      ensures inodeMap == map[ROOT := root] && root.refs == 1 && root.dentries == map[]
    {
      var r := new Inode(ROOT);
      r.refs := 1;
      root := r;
      inodeMap := map[ROOT := r];
      this.disk := disk;
      objects := {r};
      links := map[];
    }

    // ----- links

    method RemoveDentry(pin: Inode, dname: Name, ghost ls: Links)
      requires Numbered() && Linked(ls) && pin in objects && dname in pin.dentries
      modifies objects`dentries, objects`parents
      ensures Linked(ls - {Dentry(pin.ino, dname)})
    {
      ChildLink(ls, pin, dname);
      var e := Dentry(pin.ino, dname);
      var o := pin.dentries[dname];
      pin.dentries := pin.dentries - {dname};
      o.parents := o.parents - {e};
      ghost var ls' := ls - {e};
      forall f | f in ls'
        ensures LinkEnds(ls', f)
      {
        assert LinkEnds(ls, f);
      }
      forall q | q in objects
        ensures Held(ls', q)
      {
        assert old(Held(ls, q));
        RemoveUp(ls, inodeMap, e, q, old(q.parents));
        if InMap(q) {
          RemoveDown(ls, e, q.ino, old(q.dentries));
        }
      }
    }

    /** The linking half of add_dentry, once the name is free. */
    method InsertDentry(parent: Inode, dname: Name, o: Inode, ghost ls: Links)
      requires parent in objects && o in objects && dname !in parent.dentries
      modifies objects`dentries, objects`parents
      ensures old(Linked(ls)) && InMap(parent) ==> Linked(ls[Dentry(parent.ino, dname) := o])
      ensures forall q <- objects :: q != o ==> q.parents == old(q.parents)
    {
      var e := Dentry(parent.ino, dname);
      parent.dentries := parent.dentries[dname := o];
      o.parents := o.parents[e := parent];
      if old(Linked(ls)) && InMap(parent) {
        assert old(Held(ls, parent));
        ghost var ls' := ls[e := o];
        forall f | f in ls'
          ensures LinkEnds(ls', f)
        {
          assert f != e ==> LinkEnds(ls, f);
        }
        forall q | q in objects
          ensures Held(ls', q)
        {
          assert old(Held(ls, q));
          AddUp(ls, inodeMap, e, o, q, old(q.parents));
          if InMap(q) {
            AddDown(ls, e, o, q.ino, old(q.dentries));
          }
        }
      }
    }

    method AddDentry(parent: Inode, dname: Name, o: Inode, ghost ls: Links)
      requires parent in objects && o in objects
      requires dname in parent.dentries ==> Numbered() && Linked(ls)
      modifies objects`dentries, objects`parents
      ensures old(Linked(ls)) && InMap(parent) ==> Linked(ls[Dentry(parent.ino, dname) := o])
      ensures old(dname !in parent.dentries) ==> forall q <- objects :: q != o ==> q.parents == old(q.parents)
    {
      if dname in parent.dentries {
        ghost var e := Dentry(parent.ino, dname);
        ChildLink(ls, parent, dname);
        RemoveDentry(parent, dname, ls);
        ChildLinks(ls - {e}, parent);
        InsertDentry(parent, dname, o, ls - {e});
        assert (ls - {e})[e := o] == ls[e := o];
      } else {
        InsertDentry(parent, dname, o, ls);
      }
    }

    method UnlinkInode(o: Inode, ghost ls: Links)
      requires Numbered() && Linked(ls) && o in objects && InMap(o)
      modifies objects`dentries, objects`parents
      ensures Linked(Cut(ls, o, o.ino))
    {
      ghost var rest := ls;
      while o.parents != map[]
        invariant Linked(rest) && Parted(rest, ls, o, o.ino)
        decreases |NamesOf(rest, o)|
      {
        ParentLinks(rest, o);
        FirstExists(o.parents.Keys);
        var key :| IsFirst(o.parents.Keys, key);
        RemoveDentry(o.parents[key], key.name, rest);
        PartStep(rest, ls, o, o.ino, key);
        rest := rest - {key};
      }
      ParentLinks(rest, o);
      while o.dentries != map[]
        invariant Linked(rest) && Parted(rest, ls, o, o.ino) && NamesOf(rest, o) == {}
        decreases |rest|
      {
        ChildLinks(rest, o);
        FirstNameExists(o.dentries.Keys);
        var dname :| IsFirstName(o.dentries.Keys, dname);
        RemoveDentry(o, dname, rest);
        PartStep(rest, ls, o, o.ino, Dentry(o.ino, dname));
        rest := rest - {Dentry(o.ino, dname)};
      }
      ChildLinks(rest, o);
      PartsEnd(rest, ls, o, o.ino);
    }

    // ----- inodes

    /** Every link of a live inode leads to a live inode. */
    lemma NoDanglingLinks(ls: Links, o: Inode)
      requires Numbered() && Linked(ls) && o in objects
      ensures forall n <- o.dentries :: o.dentries[n] in objects
      ensures forall e <- o.parents :: o.parents[e] in objects
    {
      forall n <- o.dentries
        ensures o.dentries[n] in objects
      {
        ChildLink(ls, o, n);
      }
      ParentLinks(ls, o);
    }

    lemma ShowsCut(ls: Links, s: State, o: Inode)
      requires Shows(ls, s.cached, s.strays) && o in objects && InMap(o)
      ensures Shows(Cut(ls, o, o.ino), Unlinked(s, o.ino).cached, Unlinked(s, o.ino).strays)
    {
      var ls', s' := Cut(ls, o, o.ino), Unlinked(s, o.ino);
      forall e | e in ls' || e in s'.cached || e in s'.strays
        ensures Shown(ls', s'.cached, s'.strays, e)
      {
        assert Shown(ls, s.cached, s.strays, e);
      }
    }

    /** The object in the map loses its links. */
    method Detach(o: Inode, ghost s: State)
      requires Valid(s) && o in objects && InMap(o)
      modifies this`links, objects`dentries, objects`parents
      ensures Valid(Unlinked(s, o.ino)) && links == Cut(old(links), o, o.ino)
    {
      ShowsCut(links, s, o);
      UnlinkInode(o, links);
      links := Cut(links, o, o.ino);
    }

    method RemoveInode(o: Inode, ghost s: State)
      requires Valid(s) && o in objects && InMap(o) && o != root
      modifies this`inodeMap, this`objects, this`links, objects`dentries, objects`parents
      ensures objects == old(objects) - {o}
      ensures Valid(Forgotten(s, o.ino))
    {
      Detach(o, s);
      label Detached:
      ghost var s' := Forgotten(s, o.ino);
      inodeMap := inodeMap - {o.ino};
      objects := objects - {o};
      forall i | i in inodeMap || i in s'.refs
        ensures Placed(i) && CountedAt(s'.refs, i)
      {
        assert old(CountedAt(s.refs, i)) && old(Placed(i));
      }
      forall e | e in links || e in s'.cached || e in s'.strays
        ensures LinkEnds(links, e) && Shown(links, s'.cached, s'.strays, e)
      {
        assert old@Detached(Shown(links, s'.cached, s'.strays, e)) && old@Detached(LinkEnds(links, e));
      }
      forall q | q in objects
        ensures Held(links, q)
      {
        assert old@Detached(Held(links, q));
        SameUp(links, old(inodeMap), inodeMap, q, q.parents);
      }
    }

    /** A new inode in slot `i`, whether or not the slot was taken. */
    method NewInode(i: Ino, ghost s: State) returns (o: Inode)
      requires Valid(s) && i != ROOT
      modifies this`inodeMap, this`objects
      ensures fresh(o) && objects == old(objects) + {o} && inodeMap == old(inodeMap)[i := o]
      ensures o.ino == i && o.refs == 0
      ensures Childless(s.cached, i) ==> Valid(Displaced(s, i))
    {
      o := new Inode(i);
      inodeMap := inodeMap[i := o];
      objects := objects + {o};
      if Childless(s.cached, i) {
        ghost var s' := Displaced(s, i);
        assert Numbered() by {
          forall j | j in inodeMap
            ensures Placed(j)
          {
            assert j != i ==> old(Placed(j));
          }
        }
        assert Counted(s'.refs) by {
          forall j | j in inodeMap || j in s'.refs
            ensures CountedAt(s'.refs, j)
          {
            assert j != i ==> old(CountedAt(s.refs, j));
          }
        }
        forall e | e in links || e in s'.cached || e in s'.strays
          ensures e in links && LinkEnds(links, e) && e.dir != i && links[e] != o
          ensures Shown(links, s'.cached, s'.strays, e)
        {
          assert old(Shown(links, s.cached, s.strays, e)) && old(LinkEnds(links, e));
        }
        assert Linked(links) by {
          forall q | q in objects
            ensures Held(links, q)
          {
            if q != o {
              assert old(Held(links, q));
              SameUp(links, old(inodeMap), inodeMap, q, q.parents);
            }
          }
        }
      }
    }

    lemma ShowsEntered(ls: Links, s: State, e: Dentry, o: Inode)
      requires Shows(ls, s.cached, s.strays) && o in objects && InMap(o)
      ensures Shows(ls[e := o], Entered(s, e, o.ino).cached, Entered(s, e, o.ino).strays)
    {
      var ls', s' := ls[e := o], Entered(s, e, o.ino);
      forall f | f in ls' || f in s'.cached || f in s'.strays
        ensures Shown(ls', s'.cached, s'.strays, f)
      {
        assert f != e ==> Shown(ls, s.cached, s.strays, f);
      }
    }

    /** The object in the map gets a name. */
    method Enter(parent: Inode, name: Name, o: Inode, ghost s: State)
      requires Valid(s) && parent in objects && InMap(parent) && o in objects && InMap(o)
      modifies this`links, objects`dentries, objects`parents
      ensures Valid(Entered(s, Dentry(parent.ino, name), o.ino))
    {
      ShowsEntered(links, s, Dentry(parent.ino, name), o);
      AddDentry(parent, name, o, links);
      links := links[Dentry(parent.ino, name) := o];
    }

    method AddInode(parent: Inode, name: Name, i: Ino, ghost s: State) returns (o: Inode)
      requires Valid(s) && Known(s.cached, s.strays, s.refs) && parent in objects && InMap(parent)
      modifies this`inodeMap, this`objects, this`links, objects`dentries, objects`parents
      ensures fresh(objects - old(objects)) && old(objects) <= objects
      ensures o in objects && o.ino == i && InMap(o)
      ensures Valid(Introduced(s, Dentry(parent.ino, name), i))
    {
      MapIff(s.refs, i);
      if i in inodeMap {
        Slot(i);
        o := inodeMap[i];
        Detach(o, s);
      } else {
        UnknownChildless(s, i);
        o := NewInode(i, s);
      }
      Enter(parent, name, o, Freed(s, i));
    }

    method Reference(o: Inode, ghost s: State)
      requires o in objects
      modifies objects`refs
      ensures old(Valid(s)) ==> Valid(if InMap(o) then Referenced(s, o.ino) else s)
    {
      o.refs := o.refs + 1;
      if old(Valid(s)) {
        ghost var refs := if InMap(o) then Referenced(s, o.ino).refs else s.refs;
        forall i | i in inodeMap || i in refs
          ensures CountedAt(refs, i)
        {
          assert InMap(o) ==> old(Placed(o.ino));
          assert old(CountedAt(s.refs, i)) && old(Placed(i));
        }
      }
    }

    /** Reads the attributes of `o` again; its number does not change. */
    method Restat(o: Inode, st: Ino, ghost s: State)
      requires Valid(s) && o in objects && o.ino == st
      modifies o`ino
      ensures Valid(s) && o.ino == st && InMap(o) == old(InMap(o))
    {
      o.ino := st;
      forall i | i in inodeMap
        ensures Placed(i)
      {
        assert old(Placed(i));
      }
      forall e | e in links || e in s.cached || e in s.strays
        ensures Shown(links, s.cached, s.strays, e)
      {
        assert old(Shown(links, s.cached, s.strays, e));
      }
      forall q | q in objects
        ensures Held(links, q)
      {
        assert old(Held(links, q));
      }
    }

    // ----- paths

    lemma OwnParents(s: State, o: Inode)
      requires Valid(s) && o in objects && InMap(o)
      ensures o.parents.Keys == ParentKeys(Own(s), o.ino)
    {
      ParentLinks(links, o);
      forall e
        ensures e in NamesOf(links, o) <==> e in ParentKeys(Own(s), o.ino)
      {
        assert e in links || e in s.cached ==> Shown(links, s.cached, s.strays, e);
      }
    }

    method MakeInodePath(o: Inode, ghost s: State) returns (ok: bool, buf: string)
      requires Valid(s) && Acyclic(Own(s)) && o in objects && InMap(o)
      ensures ok == HasPath(s, o.ino)
      ensures ok ==> buf == PathString(disk.base, PathOf(Own(s), o.ino).value)
      decreases Rank(Own(s), o.ino)
    {
      ParentLinks(links, o);
      OwnParents(s, o);
      Slot(ROOT);
      buf := "";
      if o.parents != map[] {
        FirstExists(o.parents.Keys);
        var key :| IsFirst(o.parents.Keys, key);
        FirstUnique(o.parents.Keys, key, First(o.parents.Keys));
        ok, buf := MakeInodePath(o.parents[key], s);
        if ok {
          PathStringSpelled(disk.base, PathOf(Own(s), key.dir).value, key.name);
          buf := buf + "/" + key.name;
        }
      } else if o != root {
        ok := false;
      } else {
        ok, buf := true, disk.base + "/";
      }
    }

    /** The path of `o`; on disk it leads to `o` itself. */
    method MakeOwnPath(o: Inode, ghost s: State) returns (ok: bool, buf: string)
      requires Valid(s) && Inv(s) && o in objects && InMap(o)
      ensures Acyclic(Own(s)) && ok == HasPath(s, o.ino)
      ensures ok ==> Lstat(disk, buf) == Some(o.ino)
    {
      PathResolvesOnDisk(s, o.ino);
      ok, buf := MakeInodePath(o, s);
      if ok {
        PathNamesOfPathString(s.disk, PathOf(Own(s), o.ino).value);
      }
    }

    /** The path of `name` in directory `o`; on disk it leads to that very directory. */
    method MakeNamePath(o: Inode, name: Name, ghost s: State) returns (ok: bool, buf: string)
      requires Valid(s) && Inv(s) && o in objects && InMap(o) && IsName(name)
      ensures Acyclic(Own(s)) && ok == HasPath(s, o.ino)
      ensures ok ==> LeadsTo(disk, buf, Dentry(o.ino, name))
    {
      InvAcyclic(s);
      ok, buf := MakeInodePath(o, s);
      if ok {
        NamePathLeads(s, o.ino, name);
        buf := buf + "/" + name;
      }
    }

    // ----- requests

    /** The object of directory `p` in the map has the name `n`, for the object of `i` in the map. */
    ghost predicate NamedBy(p: Ino, n: Name, i: Ino)
      reads this`inodeMap, this`objects, objects`dentries
    {
      && p in inodeMap && inodeMap[p] in objects && i in inodeMap
      && n in inodeMap[p].dentries && inodeMap[p].dentries[n] == inodeMap[i]
    }

    lemma CachedNamed(s: State, e: Dentry)
      requires Valid(s) && e in s.cached && e !in s.strays
      ensures NamedBy(e.dir, e.name, s.cached[e])
    {
      assert Shown(links, s.cached, s.strays, e);
      assert LinkEnds(links, e);
      Slot(e.dir);
      ChildLinks(links, inodeMap[e.dir]);
    }

    /** What is named in a reply to a request that gives it a name is linked under that name. */
    lemma AnswerNamed(s: State, ev: Event)
      requires Inv(s) && (ev.Make? || ev.Create? || ev.Link?)
      requires Valid(After(s, ev).0)
      ensures After(s, ev).1.Entry? ==> NamedBy(Subject(ev).dir, Subject(ev).name, After(s, ev).1.ino)
    {
      InvAcyclic(s);
      if After(s, ev).1.Entry? {
        NameCached(s, ev);
        CachedNamed(After(s, ev).0, Subject(ev));
      }
    }

    method Count(o: Inode, count: nat, ghost s: State)
      requires Valid(s) && o in objects && InMap(o)
      modifies objects`refs
      ensures Valid(s.(refs := s.refs[o.ino := o.refs])) && o.refs == old(o.refs) - count
      ensures o.ino in s.refs && old(o.refs) == s.refs[o.ino]
    {
      assert CountedAt(s.refs, o.ino);
      o.refs := o.refs - count;
      forall i | i in inodeMap || i in s.refs[o.ino := o.refs]
        ensures CountedAt(s.refs[o.ino := o.refs], i)
      {
        assert old(CountedAt(s.refs, i)) && old(Placed(i));
      }
    }

    method HandleForget(i: Ino, count: nat, ghost s: State)
      requires Valid(s) && Inv(s)
      modifies this, objects
      ensures fresh(objects - old(objects))
      ensures Valid(After(s, Forget(i, count)).0) <==> i == ROOT || i in s.refs
    {
      MapIff(s.refs, i);
      if i != ROOT {
        if i in inodeMap {
          Slot(i);
          Slot(ROOT);
          var o := inodeMap[i];
          ghost var s' := s.(refs := s.refs[i := s.refs[i] - count]);
          Count(o, count, s);
          if o.refs <= 0 {
            RemoveInode(o, s');
            assert Forgotten(s', i) == Forgotten(s, i);
          }
        } else {
          inodeMap := inodeMap[i := null];
          assert !Placed(i);
        }
      }
    }

    /** What the handlers that make an object do once it is on disk. */
    method Adopt(pin: Inode, name: Name, st: Ino, ghost s: State)
      requires Valid(s) && Known(s.cached, s.strays, s.refs) && pin in objects && InMap(pin)
      modifies this`inodeMap, this`objects, this`links, objects
      ensures fresh(objects - old(objects))
      ensures Valid(Adopted(s, Dentry(old(pin.ino), name), st))
    {
      ghost var e := Dentry(pin.ino, name);
      var o := AddInode(pin, name, st, s);
      Reference(o, Introduced(s, e, st));
    }

    method CallMake(pin: Inode, name: Name, path: string, newIno: Ino, fault: bool, ghost s: State) returns (r: Reply)
      requires Valid(s) && Known(s.cached, s.strays, s.refs) && pin in objects && InMap(pin)
      requires LeadsTo(disk, path, Dentry(pin.ino, name))
      modifies this, objects
      ensures fresh(objects - old(objects))
      ensures r == MakeCall(s, Dentry(old(pin.ino), name), newIno, fault).1
      ensures Valid(MakeCall(s, Dentry(old(pin.ino), name), newIno, fault).0)
    {
      match SysMknod(disk, path, newIno, fault)
      case Fails(errno) => r := Error(errno);
      case Succeeds(fs) =>
        PathOfNewEntry(disk, path, Dentry(pin.ino, name), newIno);
        disk := fs;
        var st := Lstat(disk, path).value;
        Adopt(pin, name, st, s.(disk := fs));
        r := Entry(st);
    }

    /** mknod, mkdir and symlink. */
    method HandleMake(pino: Ino, name: Name, newIno: Ino, allowed: bool, fault: bool, ghost s: State) returns (r: Reply)
      requires Valid(s) && Inv(s) && pino in s.refs && IsName(name)
      modifies this, objects
      ensures fresh(objects - old(objects))
      ensures r == After(s, Make(pino, name, newIno, allowed, fault)).1
      ensures Valid(After(s, Make(pino, name, newIno, allowed, fault)).0)
      ensures r.Entry? ==> NamedBy(pino, name, r.ino)
    {
      SlotOf(s, pino);
      var pin := inodeMap[pino];
      var ok, path := MakeNamePath(pin, name, s);
      if !ok {
        r := Error(ENOENT);
      } else if !allowed {
        r := Error(EPERM);
      } else {
        r := CallMake(pin, name, path, newIno, fault, s);
      }
      AnswerNamed(s, Make(pino, name, newIno, allowed, fault));
    }

    method CallCreate(pin: Inode, name: Name, path: string, newIno: Ino, fault: bool, ghost s: State) returns (r: Reply)
      requires Valid(s) && Known(s.cached, s.strays, s.refs) && pin in objects && InMap(pin)
      requires LeadsTo(disk, path, Dentry(pin.ino, name))
      modifies this, objects
      ensures fresh(objects - old(objects))
      ensures r == CreateCall(s, Dentry(old(pin.ino), name), newIno, fault).1
      ensures Valid(CreateCall(s, Dentry(old(pin.ino), name), newIno, fault).0)
    {
      match SysOpenCreate(disk, path, newIno, fault)
      case Fails(errno) => r := Error(errno);
      case Succeeds(fs) =>
        if Dentry(pin.ino, name) !in disk.entries {
          PathOfNewEntry(disk, path, Dentry(pin.ino, name), newIno);
        }
        disk := fs;
        var st := Lstat(disk, path).value;
        Adopt(pin, name, st, s.(disk := fs));
        r := Entry(st);
    }

    method HandleCreate(pino: Ino, name: Name, newIno: Ino, allowed: bool, fault: bool, ghost s: State)
      returns (r: Reply)
      requires Valid(s) && Inv(s) && pino in s.refs && IsName(name)
      modifies this, objects
      ensures fresh(objects - old(objects))
      ensures r == After(s, Create(pino, name, newIno, allowed, fault)).1
      ensures Valid(After(s, Create(pino, name, newIno, allowed, fault)).0)
      ensures r.Entry? ==> NamedBy(pino, name, r.ino)
    {
      SlotOf(s, pino);
      var pin := inodeMap[pino];
      var ok, path := MakeNamePath(pin, name, s);
      if !ok {
        r := Error(ENOENT);
      } else if !allowed {
        r := Error(EPERM);
      } else {
        r := CallCreate(pin, name, path, newIno, fault, s);
      }
      AnswerNamed(s, Create(pino, name, newIno, allowed, fault));
    }

    lemma ShowsDropped(ls: Links, s: State, e: Dentry)
      requires Shows(ls, s.cached, s.strays)
      ensures Shows(ls - {e}, Dropped(s, e).cached, Dropped(s, e).strays)
    {
      var ls', s' := ls - {e}, Dropped(s, e);
      forall f | f in ls' || f in s'.cached || f in s'.strays
        ensures Shown(ls', s'.cached, s'.strays, f)
      {
        assert Shown(ls, s.cached, s.strays, f);
      }
    }

    /** What unlink and rmdir do once the name is gone from disk. */
    method Drop(pin: Inode, name: Name, ghost s: State)
      requires Valid(s) && pin in objects && InMap(pin)
      modifies this`links, objects`dentries, objects`parents
      ensures Valid(Dropped(s, Dentry(pin.ino, name)))
    {
      ghost var e := Dentry(pin.ino, name);
      ShowsDropped(links, s, e);
      if name in pin.dentries {
        RemoveDentry(pin, name, links);
        links := links - {e};
      } else {
        ChildLinks(links, pin);
        assert links - {e} == links;
      }
    }

    method CallUnlink(pin: Inode, name: Name, path: string, fault: bool, ghost s: State) returns (r: Reply)
      requires Valid(s) && pin in objects && InMap(pin) && LeadsTo(disk, path, Dentry(pin.ino, name))
      modifies this, objects
      ensures fresh(objects - old(objects))
      ensures r == UnlinkCall(s, Dentry(old(pin.ino), name), fault).1
      ensures Valid(UnlinkCall(s, Dentry(old(pin.ino), name), fault).0)
    {
      match SysUnlink(disk, path, fault)
      case Fails(errno) => r := Error(errno);
      case Succeeds(fs) =>
        disk := fs;
        Drop(pin, name, s.(disk := fs));
        r := Done;
    }

    method HandleUnlink(pino: Ino, name: Name, allowed: bool, fault: bool, ghost s: State) returns (r: Reply)
      requires Valid(s) && Inv(s) && pino in s.refs && IsName(name)
      modifies this, objects
      ensures fresh(objects - old(objects))
      ensures r == After(s, Unlink(pino, name, allowed, fault)).1
      ensures Valid(After(s, Unlink(pino, name, allowed, fault)).0)
    {
      SlotOf(s, pino);
      var pin := inodeMap[pino];
      var ok, path := MakeNamePath(pin, name, s);
      if !ok {
        r := Error(ENOENT);
      } else if !allowed {
        r := Error(EPERM);
      } else {
        r := CallUnlink(pin, name, path, fault, s);
      }
    }

    method CallRmdir(pin: Inode, name: Name, path: string, fault: bool, ghost s: State) returns (r: Reply)
      requires Valid(s) && pin in objects && InMap(pin) && LeadsTo(disk, path, Dentry(pin.ino, name))
      modifies this, objects
      ensures fresh(objects - old(objects))
      ensures r == RmdirCall(s, Dentry(old(pin.ino), name), fault).1
      ensures Valid(RmdirCall(s, Dentry(old(pin.ino), name), fault).0)
    {
      match SysRmdir(disk, path, fault)
      case Fails(errno) => r := Error(errno);
      case Succeeds(fs) =>
        disk := fs;
        Drop(pin, name, s.(disk := fs));
        r := Done;
    }

    method HandleRmdir(pino: Ino, name: Name, allowed: bool, fault: bool, ghost s: State) returns (r: Reply)
      requires Valid(s) && Inv(s) && pino in s.refs && IsName(name)
      modifies this, objects
      ensures fresh(objects - old(objects))
      ensures r == After(s, Rmdir(pino, name, allowed, fault)).1
      ensures Valid(After(s, Rmdir(pino, name, allowed, fault)).0)
    {
      SlotOf(s, pino);
      var pin := inodeMap[pino];
      var ok, path := MakeNamePath(pin, name, s);
      if !ok {
        r := Error(ENOENT);
      } else if !allowed {
        r := Error(EPERM);
      } else {
        r := CallRmdir(pin, name, path, fault, s);
      }
    }

    lemma ShowsMoved(ls: Links, s: State, e: Dentry, e': Dentry)
      requires Shows(ls, s.cached, s.strays) && e in ls
      ensures Shows(ls[e' := ls[e]] - {e}, Moved(s, e, e').cached, Moved(s, e, e').strays)
    {
      var ls', s' := ls[e' := ls[e]] - {e}, Moved(s, e, e');
      assert Shown(ls, s.cached, s.strays, e);
      forall f | f in ls' || f in s'.cached || f in s'.strays
        ensures Shown(ls', s'.cached, s'.strays, f)
      {
        assert f != e' ==> Shown(ls, s.cached, s.strays, f);
      }
    }

    /** The link half of a rename. */
    method MoveLink(pin: Inode, dname: Name, newpin: Inode, newdname: Name, ghost ls: Links)
      requires Numbered() && Linked(ls) && pin in objects && InMap(pin) && newpin in objects && InMap(newpin)
      requires dname in pin.dentries
      modifies objects`dentries, objects`parents
      ensures Dentry(pin.ino, dname) in ls
      ensures Linked(ls[Dentry(newpin.ino, newdname) := ls[Dentry(pin.ino, dname)]] - {Dentry(pin.ino, dname)})
    {
      ghost var e, e' := Dentry(pin.ino, dname), Dentry(newpin.ino, newdname);
      ChildLink(ls, pin, dname);
      var o := pin.dentries[dname];
      AddDentry(newpin, newdname, o, ls);
      ghost var ls' := ls[e' := o];
      ChildLinks(ls', pin);
      assert e in ls';
      RemoveDentry(pin, dname, ls');
    }

    /** The cache's side of a rename. */
    method MoveDentry(pin: Inode, dname: Name, newpin: Inode, newdname: Name, ghost s: State)
      requires Valid(s) && pin in objects && InMap(pin) && newpin in objects && InMap(newpin)
      modifies this`links, objects`dentries, objects`parents
      ensures Valid(Moved(s, Dentry(pin.ino, dname), Dentry(newpin.ino, newdname)))
    {
      ghost var e, e' := Dentry(pin.ino, dname), Dentry(newpin.ino, newdname);
      ChildLinks(links, pin);
      NamedIff(links, s.cached, s.strays, e);
      if dname in pin.dentries {
        ShowsMoved(links, s, e, e');
        MoveLink(pin, dname, newpin, newdname, links);
        links := links[e' := links[e]] - {e};
      }
    }

    method CallRename(pin: Inode, name: Name, path: string, newpin: Inode, newName: Name, newPath: string, fault: bool,
                      ghost s: State)
      returns (r: Reply)
      requires Valid(s) && pin in objects && InMap(pin) && LeadsTo(disk, path, Dentry(pin.ino, name))
      requires newpin in objects && InMap(newpin) && LeadsTo(disk, newPath, Dentry(newpin.ino, newName))
      modifies this, objects
      ensures fresh(objects - old(objects))
      ensures r == RenameCall(s, Dentry(old(pin.ino), name), Dentry(old(newpin.ino), newName), fault).1
      ensures Valid(RenameCall(s, Dentry(old(pin.ino), name), Dentry(old(newpin.ino), newName), fault).0)
    {
      match SysRename(disk, path, newPath, fault)
      case Fails(errno) => r := Error(errno);
      case Succeeds(fs) =>
        disk := fs;
        MoveDentry(pin, name, newpin, newName, s.(disk := fs));
        r := Done;
    }

    method HandleRename(pino: Ino, name: Name, newPino: Ino, newName: Name, allowed: bool, fault: bool, ghost s: State)
      returns (r: Reply)
      requires Valid(s) && Inv(s) && pino in s.refs && newPino in s.refs && IsName(name) && IsName(newName)
      modifies this, objects
      ensures fresh(objects - old(objects))
      ensures r == After(s, Rename(pino, name, newPino, newName, allowed, fault)).1
      ensures Valid(After(s, Rename(pino, name, newPino, newName, allowed, fault)).0)
    {
      SlotOf(s, pino);
      SlotOf(s, newPino);
      var pin, newpin := inodeMap[pino], inodeMap[newPino];
      var ok, path := MakeNamePath(pin, name, s);
      var newOk, newPath := MakeNamePath(newpin, newName, s);
      if !ok || !newOk {
        r := Error(ENOENT);
      } else if !allowed {
        r := Error(EPERM);
      } else {
        r := CallRename(pin, name, path, newpin, newName, newPath, fault, s);
      }
    }

    /** A further name for a known inode: link it, reference it, read it again. */
    method LinkAgain(parent: Inode, name: Name, o: Inode, st: Ino, ghost s: State)
      requires Valid(s) && parent in objects && InMap(parent) && o in objects && InMap(o) && o.ino == st
      modifies this`links, objects
      ensures Valid(LinkedState(s, Dentry(old(parent.ino), name), st)) && o.ino == st
    {
      ghost var s' := Entered(s, Dentry(parent.ino, name), st);
      Enter(parent, name, o, s);
      Reference(o, s');
      Restat(o, st, Referenced(s', st));
    }

    method CallLink(o: Inode, path: string, newpin: Inode, newName: Name, newPath: string, fault: bool, ghost s: State)
      returns (r: Reply)
      requires Valid(s) && o in objects && InMap(o) && Lstat(disk, path) == Some(o.ino)
      requires newpin in objects && InMap(newpin) && LeadsTo(disk, newPath, Dentry(newpin.ino, newName))
      modifies this, objects
      ensures fresh(objects - old(objects))
      ensures r == LinkCall(s, old(o.ino), Dentry(old(newpin.ino), newName), fault).1
      ensures Valid(LinkCall(s, old(o.ino), Dentry(old(newpin.ino), newName), fault).0)
    {
      match SysLink(disk, path, newPath, fault)
      case Fails(errno) => r := Error(errno);
      case Succeeds(fs) =>
        PathOfNewEntry(disk, newPath, Dentry(newpin.ino, newName), o.ino);
        disk := fs;
        LinkAgain(newpin, newName, o, Lstat(disk, newPath).value, s.(disk := fs));
        r := Entry(o.ino);
    }

    method HandleLink(i: Ino, newPino: Ino, newName: Name, allowed: bool, fault: bool, ghost s: State)
      returns (r: Reply)
      requires Valid(s) && Inv(s) && i in s.refs && newPino in s.refs && IsName(newName)
      modifies this, objects
      ensures fresh(objects - old(objects))
      ensures r == After(s, Link(i, newPino, newName, allowed, fault)).1
      ensures Valid(After(s, Link(i, newPino, newName, allowed, fault)).0)
      ensures r.Entry? ==> NamedBy(newPino, newName, r.ino)
    {
      SlotOf(s, i);
      SlotOf(s, newPino);
      var o, newpin := inodeMap[i], inodeMap[newPino];
      var ok, path := MakeOwnPath(o, s);
      var newOk, newPath := MakeNamePath(newpin, newName, s);
      if !ok || !newOk {
        r := Error(ENOENT);
      } else if !allowed {
        r := Error(EPERM);
      } else {
        r := CallLink(o, path, newpin, newName, newPath, fault, s);
      }
      AnswerNamed(s, Link(i, newPino, newName, allowed, fault));
    }

    /** A lookup of a cached name: its inode is read again and referenced, in the map or not. */
    method LookupHit(parent: Inode, name: Name, st: Ino, ghost s: State)
      requires Valid(s) && parent in objects && name in parent.dentries
      requires Dentry(parent.ino, name) in s.cached ==> s.cached[Dentry(parent.ino, name)] == st
      modifies objects
      ensures Valid(Hit(s, Dentry(old(parent.ino), name), st))
    {
      ChildLink(links, parent, name);
      assert Shown(links, s.cached, s.strays, Dentry(parent.ino, name));
      var o := parent.dentries[name];
      Restat(o, st, s);
      Reference(o, s);
    }

    /** Every parent link leads to the object that the map holds for the directory. */
    ghost predicate ParentsInMap()
      reads this`inodeMap, this`objects, objects`ino, objects`parents
    {
      forall c, e | c in objects && e in c.parents :: c.parents[e] in objects && InMap(c.parents[e])
    }

    lemma LinkedInMap(ls: Links)
      requires Numbered() && Linked(ls)
      ensures ParentsInMap()
    {
      forall c, e | c in objects && e in c.parents
        ensures c.parents[e] in objects && InMap(c.parents[e])
      {
        ParentLinks(ls, c);
      }
    }

    /** A lookup of an uncached name: a new inode takes the slot, even if the slot is taken. That
        is right exactly when no names are cached in the inode that had it; otherwise the parent
        links of those names lead to an object that is no longer in the map. */
    method LookupMiss(parent: Inode, name: Name, st: Ino, ghost s: State)
      requires Valid(s) && parent in objects && InMap(parent) && name !in parent.dentries
      requires st != ROOT && st != parent.ino
      modifies this, objects
      ensures fresh(objects - old(objects))
      ensures Valid(Missed(s, Dentry(old(parent.ino), name), st)) <==> Childless(s.cached, st)
      ensures ParentsInMap() <==> Childless(s.cached, st)
    {
      ghost var e := Dentry(parent.ino, name);
      ghost var child: Inode?, n := null, name;
      if !Childless(s.cached, st) {
        child, n := ChildOf(s, st);
      }
      var o := PlaceNew(parent, name, st, s);
      Reference(o, Entered(Displaced(s, st), e, st));
      if child == null {
        LinkedInMap(links);
      } else {
        Misplaced(child, Dentry(st, n));
      }
    }

    /** A new inode in slot `st`, under the name that was looked up. */
    method PlaceNew(parent: Inode, name: Name, st: Ino, ghost s: State) returns (o: Inode)
      requires Valid(s) && parent in objects && InMap(parent) && name !in parent.dentries
      requires st != ROOT && st != parent.ino
      modifies this`inodeMap, this`objects, this`links, objects`dentries, objects`parents
      ensures fresh(o) && objects == old(objects) + {o} && inodeMap == old(inodeMap)[st := o] && InMap(o) && o.ino == st
      ensures forall q <- old(objects) :: q.parents == old(q.parents)
      ensures Childless(s.cached, st) ==> Valid(Entered(Displaced(s, st), Dentry(parent.ino, name), st))
    {
      ghost var e := Dentry(parent.ino, name);
      o := NewInode(st, s);
      if Childless(s.cached, st) {
        ShowsEntered(links, Displaced(s, st), e, o);
      }
      AddDentry(parent, name, o, links);
      links := links[e := o];
    }

    /** An object with a name in directory `i`, and the name. */
    ghost method ChildOf(s: State, i: Ino) returns (c: Inode, n: Name)
      requires Valid(s) && !Childless(s.cached, i)
      ensures c in objects && i in inodeMap && inodeMap[i] in objects && inodeMap[i].ino == i
      ensures Dentry(i, n) in c.parents && c.parents[Dentry(i, n)] == inodeMap[i]
    {
      var e :| e in s.cached && e.dir == i;
      NamedIff(links, s.cached, s.strays, e);
      assert LinkEnds(links, e);
      Slot(i);
      c, n := links[e], e.name;
      assert Held(links, c);
    }

    /** A parent link to an object that is not in the map. */
    lemma Misplaced(c: Inode, e: Dentry)
      requires c in objects && e in c.parents && c.parents[e] in objects
      requires c.parents[e].ino == e.dir && !InMap(c.parents[e])
      ensures !Linked(links) && !ParentsInMap()
    {
      assert !Held(links, c);
    }

    method CallLookup(parent: Inode, name: Name, path: string, fault: bool, ghost s: State) returns (r: Reply)
      requires Valid(s) && Inv(s) && parent in objects && InMap(parent) && LeadsTo(disk, path, Dentry(parent.ino, name))
      modifies this, objects
      ensures fresh(objects - old(objects))
      ensures r == LookupCall(s, Dentry(old(parent.ino), name), fault).1
      ensures Valid(LookupCall(s, Dentry(old(parent.ino), name), fault).0) <==>
              (!fault ==> LookupFits(s, old(parent.ino), name))
    {
      ChildLinks(links, parent);
      NamedIff(links, s.cached, s.strays, Dentry(parent.ino, name));
      if fault {
        r := Error(EOTHER);
      } else {
        match Lstat(disk, path)
        case None => r := Error(ENOENT);
        case Some(st) =>
          ParentApart(s.disk, Dentry(parent.ino, name));
          if name in parent.dentries {
            LookupHit(parent, name, st, s);
          } else {
            LookupMiss(parent, name, st, s);
          }
          r := Entry(st);
      }
    }

    /** The objects afterwards are right exactly when the lookup meets no directory with names. */
    method HandleLookup(pino: Ino, name: Name, allowed: bool, fault: bool, ghost s: State) returns (r: Reply)
      requires Valid(s) && Inv(s) && pino in s.refs && IsName(name)
      modifies this, objects
      ensures fresh(objects - old(objects))
      ensures r == After(s, Lookup(pino, name, allowed, fault)).1
      ensures Acyclic(Own(s))
      ensures Valid(After(s, Lookup(pino, name, allowed, fault)).0) <==>
              (Finds(s, pino, name, allowed, fault) ==> LookupFits(s, pino, name))
    {
      SlotOf(s, pino);
      var parent := inodeMap[pino];
      var ok, path := MakeNamePath(parent, name, s);
      if !allowed {
        r := Error(EPERM);
      } else if !ok {
        r := Error(ENOENT);
      } else {
        r := CallLookup(parent, name, path, fault, s);
      }
    }

    /** The dispatch of one request. */
    method Handle(ev: Event, ghost s: State) returns (r: Reply)
      requires Valid(s) && Inv(s) && Admissible(s, ev)
      modifies this, objects
      ensures fresh(objects - old(objects))
      ensures r == After(s, ev).1
      ensures Valid(After(s, ev).0) && Inv(After(s, ev).0)
    {
      StepKeepsInv(s, ev);
      match ev
      case Lookup(p, n, allowed, fault) => r := HandleLookup(p, n, allowed, fault, s);
      case Forget(i, count) => HandleForget(i, count, s); r := NoReply;
      case Make(p, n, newIno, allowed, fault) => r := HandleMake(p, n, newIno, allowed, fault, s);
      case Create(p, n, newIno, allowed, fault) => r := HandleCreate(p, n, newIno, allowed, fault, s);
      case Unlink(p, n, allowed, fault) => r := HandleUnlink(p, n, allowed, fault, s);
      case Rmdir(p, n, allowed, fault) => r := HandleRmdir(p, n, allowed, fault, s);
      case Rename(p, n, p', n', allowed, fault) => r := HandleRename(p, n, p', n', allowed, fault, s);
      case Link(i, p', n', allowed, fault) => r := HandleLink(i, p', n', allowed, fault, s);
    }

    /** The session loop: requests are handled one after the other. */
    method Session(evs: seq<Event>, ghost s: State)
      requires Valid(s) && Inv(s) && AdmissibleRun(s, evs)
      modifies this, objects
      ensures fresh(objects - old(objects))
      ensures Valid(Run(s, evs))
    {
      ghost var cur := s;
      var k := 0;
      while k < |evs|
        invariant 0 <= k <= |evs|
        invariant Valid(cur) && Inv(cur) && AdmissibleRun(cur, evs[k..]) && Run(cur, evs[k..]) == Run(s, evs)
        invariant fresh(objects - old(objects))
      {
        assert evs[k..][0] == evs[k] && evs[k..][1..] == evs[k + 1..];
        var _ := Handle(evs[k], cur);
        cur := After(cur, evs[k]).0;
        k := k + 1;
      }
    }
  }
}
