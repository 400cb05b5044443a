/** The renderer of the diagram script: it collects declarations, then emits nested clusters and
    the edges between their states. */
module StateDiagram {
  import opened Options
  import opened StateChart

  datatype Edge = Edge(source: Id, target: Id, event: Id, ltail: Option<nat>, lhead: Option<nat>)

  lemma MergeAssociates(a: map<Id, nat>, b: map<Id, nat>, c: map<Id, nat>)
    ensures a + b + c == a + (b + c)
  {
  }

  lemma UpdateMerges(a: map<Id, nat>, s: Id, n: nat)
    ensures a[s := n] == a + map[s := n]
  {
  }

  lemma DrawAllStep(ch: Chart, bound: nat, cs: seq<Id>, num: nat, k: nat)
    requires Hierarchy(ch) && Lower(ch, bound, cs) && k < |cs|
    ensures var front := DrawAll(ch, bound, cs[..k], num);
            var last := Draw(ch, cs[k], front.next);
            DrawAll(ch, bound, cs[..k + 1], num) == Pic(front.lines + last.lines, last.next, front.labels + last.labels)
  {
    assert cs[..k + 1][..k] == cs[..k];
  }

  /** What of the full tables a drawing within `keep` needs. */
  lemma RestrictedLookup(ch: Chart, keep: set<Id>, s: Id)
    requires ClosedOff(ch, keep) && s in keep
    ensures s in ch.contents <==> s in Restricted(ch, keep).contents
    ensures s in ch.contents ==> Restricted(ch, keep).contents[s] == ch.contents[s]
    ensures s in ch.contents ==> forall c <- ch.contents[s] :: c in keep
    ensures IsInitial(ch, s) == IsInitial(Restricted(ch, keep), s)
  {
  }

  /** One end of an edge: a machine stands for a state below it, and names its cluster. */
  ghost predicate EndRight(ch: Chart, root: Id, lines: seq<Line>, x: Id, end: Id, cluster: Option<nat>)
    requires Hierarchy(ch) && InitialsInside(ch, root)
  {
    if x in ch.machines then
      && Under(ch, root, x)
      && end == Descend(ch, root, x)
      && cluster.Some?
      && EndsInside(ch, lines, x, end, cluster.value)
    else end == x && cluster.None?
  }

  ghost predicate EdgeRight(ch: Chart, root: Id, lines: seq<Line>, event: Id, pair: (Id, Id), e: Edge)
    requires Hierarchy(ch) && InitialsInside(ch, root)
  {
    && e.event == event
    && EndRight(ch, root, lines, pair.0, e.source, e.ltail)
    && EndRight(ch, root, lines, pair.1, e.target, e.lhead)
  }

  /** The labels of the drawing place both ends. */
  ghost predicate Labelled(ch: Chart, root: Id, lines: seq<Line>, labels: map<Id, nat>)
    requires Hierarchy(ch) && InitialsInside(ch, root)
  {
    forall m <- ch.machines ::
      && (m in labels <==> Under(ch, root, m))
      && (m in labels ==> EndsInside(ch, lines, m, Descend(ch, root, m), labels[m]))
  }

  lemma DrawnLabelled(ch: Chart, root: Id, num: nat)
    requires Hierarchy(ch) && InitialsInside(ch, root)
    ensures Labelled(ch, root, Draw(ch, root, num).lines, Draw(ch, root, num).labels)
  {
    forall m <- ch.machines
      ensures m in Draw(ch, root, num).labels <==> Under(ch, root, m)
      ensures Under(ch, root, m) ==>
                EndsInside(ch, Draw(ch, root, num).lines, m, Descend(ch, root, m), Draw(ch, root, num).labels[m])
    {
      if Under(ch, root, m) {
        EdgeEndsInside(ch, root, num, m);
      }
      if m in Draw(ch, root, num).labels {
        LabelsUnder(ch, root, num, m);
      }
    }
  }

  lemma KeptInitials(ch: Chart, root: Id)
    requires Rooted(ch, root) && InitialsInside(ch, root)
    ensures InitialsInside(Kept(ch, root), root)
  {
    var kept := Kept(ch, root);
    forall m <- kept.machines | Under(kept, root, m)
      ensures kept.machines[m] in ChildrenOf(kept, m)
    {
      KeptUnder(ch, root, m);
      ReachedIff(ch, root, m);
      ReachedClosed(ch, root);
      RestrictedLookup(ch, Reached(ch, root), m);
    }
  }

  /** A root without a parent, whatever the rest of the tables. */
  lemma ReadyToDraw(ch: Chart, root: Id)
    requires Rooted(ch, root) && InitialsInside(ch, root)
    ensures ClosedOff(ch, Reached(ch, root)) && root in Reached(ch, root)
    ensures Hierarchy(Kept(ch, root)) && InitialsInside(Kept(ch, root), root)
  {
    ReachedClosed(ch, root);
    SelfUnder(ch, root);
    ReachedIff(ch, root, root);
    KeptHierarchy(ch, root);
    KeptInitials(ch, root);
  }

  class StateMachineRenderer {
    var states: map<Id, Id>
    var machines: map<Id, Id>
    var contents: map<Id, seq<Id>>
    var edges: map<Id, seq<(Id, Id)>>
    var subgraphnum: nat
    var clusterlabel: map<Id, nat>

    constructor ()
      ensures Chart() == NO_STATES && Inverse(Chart())
      ensures edges == map[] && subgraphnum == 0 && clusterlabel == map[]
    {
      states, machines, contents, edges, subgraphnum, clusterlabel := map[], map[], map[], map[], 0, map[];
    }

    function Chart(): Chart
      reads this
    {
      StateChart.Chart(states, machines, contents)
    }

    method GetState(d: Decl)
      modifies this`states, this`machines, this`contents
      ensures Chart() == Declared(old(Chart()), d)
      ensures old(Inverse(Chart())) ==> (Inverse(Chart()) <==> (d.Substate? ==> d.name !in old(states)))
    {
      ghost var ch := Chart();
      match d {
        case Machine(name, initial) =>
          machines := machines[name := initial];
        case Substate(name, parent, initial) =>
          states := states[name := parent];
          if parent !in contents {
            contents := contents[parent := []];
          }
          contents := contents[parent := contents[parent] + [name]];
          if initial != "" {
            machines := machines[name := initial];
          }
      }
      assert Chart().contents == Declared(ch, d).contents;
      if Inverse(ch) {
        DeclaredInverseIff(ch, d);
      }
    }

    /** A run of declarations from empty tables: they hold what was declared, and agree if and only if
        no state was declared twice. */
    method GetStates(ds: seq<Decl>)
      requires Chart() == NO_STATES
      modifies this`states, this`machines, this`contents
      ensures Chart() == DeclaredAll(ds)
      ensures Inverse(Chart()) <==> DeclaredOnce(ds)
      ensures forall n :: HoldsFor(ds, Chart(), n)
    {
      var k := 0;
      while k < |ds|
        invariant 0 <= k <= |ds| && Chart() == DeclaredAll(ds[..k])
      {
        assert ds[..k + 1][..k] == ds[..k];
        GetState(ds[k]);
        k := k + 1;
      }
      assert ds[..k] == ds;
      DeclaredOnceIff(ds);
      forall n
        ensures HoldsFor(ds, Chart(), n)
      {
        DeclaredHolds(ds, n);
      }
    }

    /** Emitting within states that form a hierarchy ends, and gives the drawing. */
    method EmitState(state: Id, ghost keep: set<Id>, ghost ch: StateChart.Chart) returns (lines: seq<Line>)
      requires ClosedOff(Chart(), keep) && ch == Restricted(Chart(), keep) && Hierarchy(ch) && state in keep
      modifies this`subgraphnum, this`clusterlabel
      ensures lines == Draw(ch, state, old(subgraphnum)).lines
      ensures subgraphnum == Draw(ch, state, old(subgraphnum)).next
      ensures clusterlabel == old(clusterlabel) + Draw(ch, state, old(subgraphnum)).labels
      decreases Height(ch)(state) + 1, 0
    {
      RestrictedLookup(Chart(), keep, state);
      if state in contents {
        var num := subgraphnum;
        clusterlabel := clusterlabel[state := num];
        subgraphnum := num + 1;
        var inner := EmitAll(contents[state], Height(ch)(state), keep, ch);
        UpdateMerges(old(clusterlabel), state, num);
        ghost var drawn := DrawAll(ch, Height(ch)(state), ch.contents[state], num + 1);
        MergeAssociates(old(clusterlabel), map[state := num], drawn.labels);
        lines := [Open(num), Label(state), Color] + inner + [Close];
      } else {
        lines := [Leaf(state, IsInitial(Chart(), state))];
      }
    }

    /** The loop of emit_state over the states in a state. */
    method EmitAll(cs: seq<Id>, ghost bound: nat, ghost keep: set<Id>, ghost ch: StateChart.Chart)
      returns (lines: seq<Line>)
      requires ClosedOff(Chart(), keep) && ch == Restricted(Chart(), keep) && Hierarchy(ch) && Lower(ch, bound, cs)
      requires forall c <- cs :: c in keep
      modifies this`subgraphnum, this`clusterlabel
      ensures lines == DrawAll(ch, bound, cs, old(subgraphnum)).lines
      ensures subgraphnum == DrawAll(ch, bound, cs, old(subgraphnum)).next
      ensures clusterlabel == old(clusterlabel) + DrawAll(ch, bound, cs, old(subgraphnum)).labels
      decreases bound, |cs| + 1
    {
      lines := [];
      ghost var num, labels := subgraphnum, clusterlabel;
      var k := 0;
      while k < |cs|
        invariant 0 <= k <= |cs| && Chart() == old(Chart())
        invariant lines == DrawAll(ch, bound, cs[..k], num).lines
        invariant subgraphnum == DrawAll(ch, bound, cs[..k], num).next
        invariant clusterlabel == labels + DrawAll(ch, bound, cs[..k], num).labels
      {
        DrawAllStep(ch, bound, cs, num, k);
        ghost var front := DrawAll(ch, bound, cs[..k], num);
        var more := EmitState(cs[k], keep, ch);
        MergeAssociates(labels, front.labels, Draw(ch, cs[k], front.next).labels);
        lines := lines + more;
        k := k + 1;
      }
      assert cs[..k] == cs;
    }

    /** The descent of emit_event through initial states. */
    method Descent(x: Id, ghost root: Id, ghost ch: StateChart.Chart) returns (r: Id)
      requires machines == ch.machines && Hierarchy(ch) && InitialsInside(ch, root) && Under(ch, root, x)
      ensures r == Descend(ch, root, x) && r !in machines && exists k: nat :: Initially(ch, x, k) == Some(r)
    {
      DescendFollows(ch, root, x);
      r := x;
      while r in machines
        invariant Under(ch, root, r) && Descend(ch, root, r) == Descend(ch, root, x)
        decreases Height(ch)(r)
      {
        InitialUnder(ch, root, r);
        r := machines[r];
      }
    }

    /** One end of an edge; a machine that was not drawn has no label to look up. */
    method EmitEnd(x: Id, ghost root: Id, ghost ch: StateChart.Chart, ghost lines: seq<Line>)
      returns (failed: bool, end: Id, cluster: Option<nat>)
      requires machines == ch.machines && Hierarchy(ch) && InitialsInside(ch, root)
      requires Labelled(ch, root, lines, clusterlabel)
      ensures failed <==> x in machines && !Under(ch, root, x)
      ensures !failed ==> EndRight(ch, root, lines, x, end, cluster)
      ensures !failed ==> if x in machines then x in clusterlabel && cluster == Some(clusterlabel[x])
                          else end == x && cluster == None
    {
      if x !in machines {
        return false, x, None;
      }
      if x !in clusterlabel {
        return true, x, None;
      }
      end := Descent(x, root, ch);
      failed, cluster := false, Some(clusterlabel[x]);
    }

    /** A pair of states that are no machines is the edge itself; a machine at the first or second end
        gives its label to the tail or the head. */
    predicate Attached(pair: (Id, Id), e: Edge)
      reads this`machines, this`clusterlabel
    {
      && (if pair.0 in machines then pair.0 in clusterlabel && e.ltail == Some(clusterlabel[pair.0])
          else e.source == pair.0 && e.ltail == None)
      && (if pair.1 in machines then pair.1 in clusterlabel && e.lhead == Some(clusterlabel[pair.1])
          else e.target == pair.1 && e.lhead == None)
    }

    /** One edge of an event; None when a machine at an end was not drawn. */
    method EmitPair(event: Id, pair: (Id, Id), ghost root: Id, ghost ch: StateChart.Chart, ghost lines: seq<Line>)
      returns (e: Option<Edge>)
      requires machines == ch.machines && Hierarchy(ch) && InitialsInside(ch, root)
      requires Labelled(ch, root, lines, clusterlabel)
      ensures e.None? <==> Undrawn(ch, root, pair)
      ensures e.Some? ==> EdgeRight(ch, root, lines, event, pair, e.value) && Attached(pair, e.value)
    {
      var failed, source, ltail := EmitEnd(pair.0, root, ch, lines);
      if failed {
        return None;
      }
      var failed', target, lhead := EmitEnd(pair.1, root, ch, lines);
      if failed' {
        return None;
      }
      e := Some(Edge(source, target, event, ltail, lhead));
    }

    /** The edges of an event; None when a machine at an end was not drawn. */
    method EmitEvent(event: Id, pairs: seq<(Id, Id)>,
                     ghost root: Id, ghost ch: StateChart.Chart, ghost lines: seq<Line>)
      returns (out: Option<seq<Edge>>)
      requires machines == ch.machines && Hierarchy(ch) && InitialsInside(ch, root)
      requires Labelled(ch, root, lines, clusterlabel)
      ensures out.None? <==> exists k | 0 <= k < |pairs| :: Undrawn(ch, root, pairs[k])
      ensures out.Some? ==> |out.value| == |pairs|
      ensures out.Some? ==> forall k | 0 <= k < |pairs| :: EdgeRight(ch, root, lines, event, pairs[k], out.value[k])
      ensures out.Some? ==> forall k | 0 <= k < |pairs| :: Attached(pairs[k], out.value[k])
    {
      var es: seq<Edge> := [];
      var k := 0;
      while k < |pairs|
        invariant 0 <= k <= |pairs| && |es| == k
        invariant forall i | 0 <= i < k :: !Undrawn(ch, root, pairs[i])
        invariant forall i | 0 <= i < k :: EdgeRight(ch, root, lines, event, pairs[i], es[i])
        invariant forall i | 0 <= i < k :: Attached(pairs[i], es[i])
      {
        var e := EmitPair(event, pairs[k], root, ch, lines);
        if e.None? {
          return None;
        }
        es := es + [e.value];
        k := k + 1;
      }
      out := Some(es);
    }

    /** The edges of all events, in any order. */
    method EmitEvents(ghost root: Id, ghost ch: StateChart.Chart, ghost lines: seq<Line>)
      returns (raised: bool, out: map<Id, seq<Edge>>)
      requires machines == ch.machines && Hierarchy(ch) && InitialsInside(ch, root)
      requires Labelled(ch, root, lines, clusterlabel)
      ensures raised <==> exists event <- edges :: UndrawnIn(ch, root, edges[event])
      ensures !raised ==> out.Keys == edges.Keys
      ensures !raised ==> forall event <- edges :: EdgesRight(ch, root, lines, event, edges[event], out[event])
    {
      out := map[];
      var left := edges.Keys;
      while left != {}
        invariant left <= edges.Keys && out.Keys == edges.Keys - left
        invariant forall event <- out :: !UndrawnIn(ch, root, edges[event])
        invariant forall event <- out :: EdgesRight(ch, root, lines, event, edges[event], out[event])
      {
        var event :| event in left;
        var es := EmitEvent(event, edges[event], root, ch, lines);
        if es.None? {
          assert UndrawnIn(ch, root, edges[event]);
          return true, out;
        }
        out := out[event := es.value];
        left := left - {event};
      }
      raised := false;
    }

    /** The clusters below some top-level machine, then the edges of all events. It fails exactly
        when there is no such machine or an edge names a machine that is not below it. */
    method EmitDot() returns (raised: bool, lines: seq<Line>, out: map<Id, seq<Edge>>, ghost root: Id)
      requires Inverse(Chart()) && subgraphnum == 0 && clusterlabel == map[]
      requires forall top :: top in machines && top !in states ==> InitialsInside(Chart(), top)
      modifies this`subgraphnum, this`clusterlabel
      ensures (forall m <- machines :: m in states) ==> raised
      ensures (exists m <- machines :: m !in states) ==>
                && root in machines && Rooted(Chart(), root)
                && (raised <==> exists event <- edges :: UndrawnIn(Kept(Chart(), root), root, edges[event]))
      ensures !raised ==> Hierarchy(Kept(Chart(), root)) && InitialsInside(Kept(Chart(), root), root)
      ensures !raised ==> lines == Draw(Kept(Chart(), root), root, 0).lines && out.Keys == edges.Keys
      ensures !raised ==>
                forall event <- edges :: EdgesRight(Kept(Chart(), root), root, lines, event, edges[event], out[event])
    {
      if forall m <- machines :: m in states {
        return true, [], map[], "";
      }
      var top :| top in machines && top !in states;
      root := top;
      ghost var ch := Kept(Chart(), root);
      ReadyToDraw(Chart(), root);
      lines := EmitState(top, Reached(Chart(), root), ch);
      DrawnLabelled(ch, root, 0);
      raised, out := EmitEvents(root, ch, lines);
    }
  }

  /** An end of the pair is a machine that is not below the root. */
  ghost predicate Undrawn(ch: Chart, root: Id, pair: (Id, Id)) {
    || (pair.0 in ch.machines && !Under(ch, root, pair.0))
    || (pair.1 in ch.machines && !Under(ch, root, pair.1))
  }

  ghost predicate UndrawnIn(ch: Chart, root: Id, pairs: seq<(Id, Id)>) {
    exists k | 0 <= k < |pairs| :: Undrawn(ch, root, pairs[k])
  }

  ghost predicate EdgesRight(ch: Chart, root: Id, lines: seq<Line>, event: Id, pairs: seq<(Id, Id)>, es: seq<Edge>)
    requires Hierarchy(ch) && InitialsInside(ch, root)
  {
    |es| == |pairs| && forall k | 0 <= k < |pairs| :: EdgeRight(ch, root, lines, event, pairs[k], es[k])
  }
}
