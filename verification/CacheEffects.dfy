/** What a request answers and what it does to the tree, the cache and the paths, told by names and
    inodes and not by the functions that compute it. */
module CacheEffects {
  import opened Options
  import opened Namespace
  import opened CacheModel

  // ----- replies

  /** The name that a request is about; for a rename, the old one. */
  function Subject(ev: Event): Dentry
    requires !ev.Forget?
  {
    if ev.Link? then Dentry(ev.newParent, ev.newName) else Dentry(ev.parent, ev.name)
  }

  /** The inodes that a request names have paths. */
  ghost predicate Located(s: State, ev: Event)
    requires Acyclic(Own(s)) && !ev.Forget?
  {
    && HasPath(s, Subject(ev).dir)
    && (ev.Rename? ==> HasPath(s, ev.newParent))
    && (ev.Link? ==> HasPath(s, ev.ino))
  }

  /** The request gets as far as the system call, which does not fail for a reason of its own. */
  ghost predicate Called(s: State, ev: Event)
    requires Acyclic(Own(s)) && !ev.Forget?
  {
    Located(s, ev) && ev.allowed && !ev.fault && !(ev.Link? && ev.ino == ROOT)
  }

  /** Each error in its case; a lookup is the one request that asks for permission first. */
  lemma ErrorsIff(s: State, ev: Event)
    requires Acyclic(Own(s)) && !ev.Forget?
    ensures var r, e, es := Step(s, ev).1, Subject(ev), s.disk.entries;
            && (r == Error(EPERM) <==> !ev.allowed && (ev.Lookup? || Located(s, ev)))
            && (r == Error(ENOENT) <==>
                  || (!Located(s, ev) && (ev.Lookup? ==> ev.allowed))
                  || (Called(s, ev) && e !in es && !ev.Make? && !ev.Create? && !ev.Link?))
            && (r == Error(EEXIST) <==> Called(s, ev) && e in es && (ev.Make? || ev.Link?))
            && (r == Error(ENOTEMPTY) <==> Called(s, ev) && e in es && ev.Rmdir? && exists d <- es :: d.dir == es[e])
            && (r == Error(EOTHER) <==> Located(s, ev) && ev.allowed && !Called(s, ev))
  {
  }

  /** A request that does not fail is answered by its kind, and an entry is that of the name on disk
      afterwards. */
  lemma AnswersIff(s: State, ev: Event)
    requires Acyclic(Own(s))
    ensures Step(s, ev).1 == NoReply <==> ev.Forget?
    ensures Step(s, ev).1 == Done ==> ev.Unlink? || ev.Rmdir? || ev.Rename?
    ensures Step(s, ev).1.Entry? ==>
              && (ev.Lookup? || ev.Make? || ev.Create? || ev.Link?)
              && Subject(ev) in Step(s, ev).0.disk.entries
              && Step(s, ev).0.disk.entries[Subject(ev)] == Step(s, ev).1.ino
  {
  }

  // ----- the tree

  /** The names that a request may give another inode, or take away. */
  function Concerned(ev: Event): set<Dentry>
    requires !ev.Forget?
  {
    {Subject(ev)} + if ev.Rename? then {Dentry(ev.newParent, ev.newName)} else {}
  }

  predicate SameAt(es: Entries, es': Entries, d: Dentry) {
    (d in es' <==> d in es) && (d in es ==> es'[d] == es[d])
  }

  lemma BaseKept(s: State, ev: Event)
    requires Acyclic(Own(s))
    ensures Step(s, ev).0.disk.base == s.disk.base
  {
  }

  lemma FailureFrame(s: State, ev: Event)
    requires Acyclic(Own(s)) && Step(s, ev).1.Error?
    ensures Step(s, ev).0 == s
  {
  }

  /** A request leaves alone all names of the tree but its own; lookup and forget leave all. */
  lemma TreeFrame(s: State, ev: Event, d: Dentry)
    requires Acyclic(Own(s)) && (!ev.Forget? && !ev.Lookup? ==> d !in Concerned(ev))
    ensures SameAt(s.disk.entries, Step(s, ev).0.disk.entries, d)
  {
  }

  /** An object gets a name: an existing one keeps its inode, a new one has the number given. */
  lemma NameGiven(s: State, ev: Event)
    requires Acyclic(Own(s)) && Step(s, ev).1.Entry?
    ensures var e, es, i := Subject(ev), s.disk.entries, Step(s, ev).1.ino;
            && (e in es ==> i == es[e] && Step(s, ev).0.disk == s.disk)
            && (ev.Link? ==> i == ev.ino)
            && (e !in es && !ev.Link? ==> (ev.Make? || ev.Create?) && i == ev.newIno)
  {
  }

  lemma NameTaken(s: State, ev: Event)
    requires Acyclic(Own(s)) && Step(s, ev).1 == Done && !ev.Rename?
    ensures Subject(ev) in s.disk.entries && Subject(ev) !in Step(s, ev).0.disk.entries
    ensures Subject(ev) !in Step(s, ev).0.cached
  {
  }

  /** After a rename the new name holds the inode; the old one is gone, unless both were links to
      that inode before. */
  lemma NameMoved(s: State, ev: Event)
    requires Acyclic(Own(s)) && Step(s, ev).1 == Done && ev.Rename?
    ensures var e, e', es, es' := Subject(ev), Dentry(ev.newParent, ev.newName), s.disk.entries,
                                  Step(s, ev).0.disk.entries;
            && e in es && e' in es' && es'[e'] == es[e]
            && (e in es' <==> e' in es && es[e'] == es[e])
            && (e in es' ==> es' == es)
  {
  }

  // ----- the cache

  /** The name is cached as it was, with an object in the map or without. */
  predicate KeptAt(s: State, s': State, d: Dentry) {
    SameAt(s.cached, s'.cached, d) && (d in s'.strays <==> d in s.strays)
  }

  /** The name is in the directory `i`, or is one of the object of `i` that the map holds. */
  predicate Touches(s: State, d: Dentry, i: Ino) {
    d.dir == i || (d in s.cached && s.cached[d] == i && d !in s.strays)
  }

  /** An object that is made, created or linked, or found under a name that was not cached, has that
      name in the cache, and its object is the one in the map. */
  lemma NameCached(s: State, ev: Event)
    requires Acyclic(Own(s)) && Step(s, ev).1.Entry? && (ev.Lookup? ==> Subject(ev) !in s.cached)
    ensures var e, s' := Subject(ev), Step(s, ev).0;
            e in s'.cached && s'.cached[e] == Step(s, ev).1.ino && e !in s'.strays
  {
  }

  lemma AdoptedFrame(s: State, e: Dentry, i: Ino, d: Dentry)
    requires Known(s.cached, s.strays, s.refs) && d != e
    ensures if Touches(s, d, i) then d !in Adopted(s, e, i).cached else KeptAt(s, Adopted(s, e, i), d)
  {
  }

  /** Making or creating takes all other names from the object in the map, and all names in it; the
      rest of the cache stays. */
  lemma MadeFrame(s: State, ev: Event, d: Dentry)
    requires Inv(s) && Acyclic(Own(s)) && Step(s, ev).1.Entry? && (ev.Make? || ev.Create?) && d != Subject(ev)
    ensures var s', i := Step(s, ev).0, Step(s, ev).1.ino;
            if Touches(s, d, i) then d !in s'.cached else KeptAt(s, s', d)
  {
    var e, i := Subject(ev), Step(s, ev).1.ino;
    if e in s.disk.entries {
      AdoptedFrame(s, e, i, d);
    } else {
      AdoptedFrame(WithEntries(s, s.disk.entries[e := i]), e, i, d);
    }
  }

  /** A lookup of a name that was not cached takes no name from the cache, but leaves the other
      names of the inode with an object that is not in the map, and begins to count again. */
  lemma MissedFrame(s: State, ev: Event, d: Dentry)
    requires Acyclic(Own(s)) && Step(s, ev).1.Entry? && ev.Lookup? && Subject(ev) !in s.cached && d != Subject(ev)
    ensures var s', i := Step(s, ev).0, Step(s, ev).1.ino;
            && SameAt(s.cached, s'.cached, d)
            && (d in s'.strays <==> d in s.strays || (d in s.cached && s.cached[d] == i))
            && s'.refs == s.refs[i := 1]
  {
  }

  /** A lookup of a cached name changes no name, a link none but its own. With an object that is not
      in the map, the lookup is not counted either. */
  lemma FoundFrame(s: State, ev: Event, d: Dentry)
    requires Acyclic(Own(s)) && Step(s, ev).1.Entry?
    requires if ev.Lookup? then Subject(ev) in s.cached else ev.Link? && d != Subject(ev)
    ensures KeptAt(s, Step(s, ev).0, d)
    ensures Subject(ev) in s.strays && ev.Lookup? ==> Step(s, ev).0.refs == s.refs
  {
  }

  lemma TakenFrame(s: State, ev: Event, d: Dentry)
    requires Acyclic(Own(s)) && Step(s, ev).1 == Done && d !in Concerned(ev)
    ensures KeptAt(s, Step(s, ev).0, d)
  {
  }

  /** A cached name moves with its object; one that is not cached leaves the cache alone. */
  lemma CachedNameMoved(s: State, ev: Event)
    requires Acyclic(Own(s)) && Step(s, ev).1 == Done && ev.Rename?
    ensures var e, e', s' := Subject(ev), Dentry(ev.newParent, ev.newName), Step(s, ev).0;
            if e in s.cached then
              && e !in s'.cached
              && (e' != e ==> && e' in s'.cached && s'.cached[e'] == s.cached[e]
                              && (e' in s'.strays <==> e in s.strays))
            else s'.cached == s.cached && s'.strays == s.strays
  {
  }

  /** The last reference forgotten takes the object out of the map with all names of it and in it;
      otherwise the names stay. */
  lemma ForgottenFrame(s: State, i: Ino, count: nat, d: Dentry)
    ensures var s' := ForgetStep(s, i, count).0;
            if i != ROOT && i in s.refs && s.refs[i] <= count
            then i !in s'.refs && if Touches(s, d, i) then d !in s'.cached else KeptAt(s, s', d)
            else KeptAt(s, s', d)
  {
  }

  // ----- the paths

  lemma ParentNotBelow(es: Entries, e: Dentry)
    requires Acyclic(es) && e in es
    ensures !Reaches(es, es[e], e.dir)
  {
    if Reaches(es, es[e], e.dir) {
      var names: seq<Name> :| Walk(es, es[e], names) == Some(e.dir);
      WalkClimbs(es, es[e], names);
    }
  }

  /** An inode that is not at or below `i` keeps its path when only names of the others change. */
  lemma {:induction false} PathKept(es: Entries, es': Entries, fs: Entries, i: Ino, j: Ino)
    requires Acyclic(es) && Acyclic(es') && Below(es, fs) && !Reaches(fs, i, j)
    requires forall x | !Reaches(fs, i, x) :: ParentKeys(es', x) == ParentKeys(es, x)
    ensures PathOf(es', j) == PathOf(es, j)
    decreases Rank(es, j)
  {
    var keys := ParentKeys(es, j);
    if keys != {} {
      var k := First(keys);
      if Reaches(fs, i, k.dir) {
        ReachesStep(fs, i, k);
      }
      PathKept(es, es', fs, i, k.dir);
    }
  }

  lemma ReachesItself(es: Entries, i: Ino)
    ensures Reaches(es, i, i)
  {
    assert Walk(es, i, []) == Some(i);
  }

  /** The name is neither one of `i` nor one in it. */
  predicate Apart(s: State, d: Dentry, i: Ino) {
    d.dir != i && (d in s.cached ==> s.cached[d] != i)
  }

  /** The inode `i` gets the name `e` in tree and cache. Its old names stay with it or are lost, and
      those of the others are kept. */
  ghost predicate Gains(s: State, s': State, e: Dentry, i: Ino, keeps: bool) {
    && Inv(s) && Inv(s')
    && Below(s.cached, s'.disk.entries)
    && e in s'.cached && s'.cached[e] == i && e !in s'.strays
    && (forall d | d != e && Apart(s, d, i) :: KeptAt(s, s', d))
    && ParentKeys(Own(s'), i) == {e} + if keeps then ParentKeys(Own(s), i) else {}
  }

  lemma ParentsKept(s: State, s': State, e: Dentry, i: Ino, keeps: bool, x: Ino)
    requires Gains(s, s', e, i, keeps) && !Reaches(s'.disk.entries, i, x)
    ensures ParentKeys(Own(s'), x) == ParentKeys(Own(s), x)
  {
    var es := s'.disk.entries;
    ReachesItself(es, i);
    forall d | d in es && es[d] == x
      ensures d in Own(s') <==> d in Own(s)
    {
      if d.dir == i {
        ReachesStep(es, i, d);
      }
      assert Apart(s, d, i) && d != e;
      assert KeptAt(s, s', d);
    }
  }

  /** The inodes that are not at or below it keep their paths. */
  lemma OtherPathsKept(s: State, s': State, e: Dentry, i: Ino, keeps: bool, j: Ino)
    requires Gains(s, s', e, i, keeps) && !Reaches(s'.disk.entries, i, j)
    ensures Acyclic(Own(s)) && Acyclic(Own(s')) && PathOf(Own(s'), j) == PathOf(Own(s), j)
  {
    InvAcyclic(s);
    InvAcyclic(s');
    forall x | !Reaches(s'.disk.entries, i, x)
      ensures ParentKeys(Own(s'), x) == ParentKeys(Own(s), x)
    {
      ParentsKept(s, s', e, i, keeps, x);
    }
    PathKept(Own(s), Own(s'), s'.disk.entries, i, j);
  }

  lemma GainHasPath(s: State, s': State, e: Dentry, i: Ino, keeps: bool)
    requires Gains(s, s', e, i, keeps) && Acyclic(Own(s)) && HasPath(s, e.dir) && (keeps ==> HasPath(s, i))
    ensures Acyclic(Own(s')) && HasPath(s', i)
    ensures !keeps ==> PathOf(Own(s'), i) == Some(PathOf(Own(s), e.dir).value + [e.name])
  {
    InvAcyclic(s');
    var k := First(ParentKeys(Own(s'), i));
    ParentNotBelow(s'.disk.entries, k);
    OtherPathsKept(s, s', e, i, keeps, k.dir);
    if k != e {
      FirstUnique(ParentKeys(Own(s), i), k, First(ParentKeys(Own(s), i)));
    }
  }

  /** The request gives the inode `i` a name in the cache. */
  ghost predicate Names(s: State, ev: Event, i: Ino) {
    && Inv(s) && Admissible(s, ev) && Acyclic(Own(s)) && Step(s, ev).1 == Entry(i)
    && (ev.Lookup? ==> Subject(ev) !in s.cached)
  }

  lemma EntryFrame(s: State, ev: Event, i: Ino, d: Dentry)
    requires Names(s, ev, i) && d != Subject(ev)
    ensures Apart(s, d, i) ==> KeptAt(s, Step(s, ev).0, d)
    ensures d in ParentKeys(Own(Step(s, ev).0), i) <==> ev.Link? && d in ParentKeys(Own(s), i)
  {
    if ev.Make? || ev.Create? {
      MadeFrame(s, ev, d);
    } else if ev.Lookup? {
      MissedFrame(s, ev, d);
    } else {
      FoundFrame(s, ev, d);
    }
  }

  lemma EntryBelow(s: State, ev: Event, i: Ino)
    requires Names(s, ev, i)
    ensures Below(s.cached, Step(s, ev).0.disk.entries)
  {
    forall d | d in s.cached
      ensures d in Step(s, ev).0.disk.entries && Step(s, ev).0.disk.entries[d] == s.cached[d]
    {
      if d == Subject(ev) {
        NameGiven(s, ev);
      } else {
        TreeFrame(s, ev, d);
      }
    }
  }

  lemma EntryFrames(s: State, ev: Event, i: Ino)
    requires Names(s, ev, i)
    ensures var s', e := Step(s, ev).0, Subject(ev);
            && e in s'.cached && s'.cached[e] == i && e !in s'.strays
            && (forall d | d != e && Apart(s, d, i) :: KeptAt(s, s', d))
            && ParentKeys(Own(s'), i) == {e} + if ev.Link? then ParentKeys(Own(s), i) else {}
  {
    NameCached(s, ev);
    forall d | d != Subject(ev)
      ensures Apart(s, d, i) ==> KeptAt(s, Step(s, ev).0, d)
      ensures d in ParentKeys(Own(Step(s, ev).0), i) <==> ev.Link? && d in ParentKeys(Own(s), i)
    {
      EntryFrame(s, ev, i, d);
    }
  }

  lemma EntryLocated(s: State, ev: Event, i: Ino)
    requires Names(s, ev, i)
    ensures HasPath(s, Subject(ev).dir) && (ev.Link? ==> HasPath(s, i))
  {
  }

  lemma EntryGains(s: State, ev: Event, i: Ino)
    requires Names(s, ev, i)
    ensures Gains(s, Step(s, ev).0, Subject(ev), i, ev.Link?)
  {
    StepKeepsInv(s, ev);
    EntryBelow(s, ev, i);
    EntryFrames(s, ev, i);
  }

  /** An inode that a request names to the kernel can be reached from then on: a path can be rebuilt
      for it. Except after a link, it is the path of its directory and the name. Inodes that are not
      at or below it keep their paths. */
  lemma EntryHasPath(s: State, ev: Event, i: Ino)
    requires Names(s, ev, i)
    ensures Acyclic(Own(Step(s, ev).0)) && HasPath(Step(s, ev).0, i) && HasPath(s, Subject(ev).dir)
    ensures !ev.Link? ==> PathOf(Own(Step(s, ev).0), i) ==
                          Some(PathOf(Own(s), Subject(ev).dir).value + [Subject(ev).name])
    ensures forall j | !Reaches(Step(s, ev).0.disk.entries, i, j) ::
              PathOf(Own(Step(s, ev).0), j) == PathOf(Own(s), j)
  {
    var s', e := Step(s, ev).0, Subject(ev);
    EntryGains(s, ev, i);
    EntryLocated(s, ev, i);
    GainHasPath(s, s', e, i, ev.Link?);
    forall j | !Reaches(s'.disk.entries, i, j)
      ensures PathOf(Own(s'), j) == PathOf(Own(s), j)
    {
      OtherPathsKept(s, s', e, i, ev.Link?, j);
    }
  }
}
