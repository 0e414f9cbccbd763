/** The order in which a batch workflow runs its pipelines: depth first, parents and dependencies first. */
module HierarchySort {
  import opened Options
  import opened Graph

  datatype Pipeline = Pipeline(id: Id, parent: Option<Id>, dependsOn: seq<Id>, target: Option<Id>, perRecord: bool)

  /** What looking up a missing id gives. */
  const ZERO := Pipeline("", None, [], None, false)

  type Catalog = map<Id, Pipeline>

  /** Pipelines by id; of two pipelines with one id the later one counts. */
  function Catalogue(ps: seq<Pipeline>): (m: Catalog)
    ensures forall id :: id in m <==> exists i :: 0 <= i < |ps| && ps[i].id == id
    ensures forall id :: id in m ==> m[id].id == id && m[id] in ps
  {
    if ps == [] then map[]
    else
      var last := ps[|ps| - 1];
      Catalogue(ps[..|ps| - 1])[last.id := last]
  }

  function Lookup(m: Catalog, id: Id): (p: Pipeline) {
    if id in m then m[id] else ZERO
  }

  /** What must come before a pipeline: its parent, then its dependencies. */
  function Refs(p: Pipeline): (r: seq<Id>)
    ensures forall x :: x in r <==> p.parent == Some(x) || x in p.dependsOn
  {
    (if p.parent.Some? then [p.parent.value] else []) + p.dependsOn
  }

  function RefGraph(m: Catalog): (g: Deps) {
    map id | id in m :: (if m[id].parent.Some? then {m[id].parent.value} else {}) + set d | d in m[id].dependsOn
  }

  /** All ids in sight: listed, or referred to. */
  ghost predicate Spans(m: Catalog, u: set<Id>) {
    m.Keys <= u && forall id, r :: id in m && r in Refs(m[id]) ==> r in u
  }

  datatype State = State(visited: set<Id>, order: seq<Id>)

  function Visit(m: Catalog, ghost u: set<Id>, id: Id, s: State): (t: State)
    requires Spans(m, u) && id in u && s.visited <= u
    ensures s.visited <= t.visited <= u
    decreases u - s.visited, 0, 0
  {
    if id in s.visited then s
    else
      var t := VisitAll(m, u, Refs(Lookup(m, id)), State(s.visited + {id}, s.order));
      State(t.visited, t.order + [id])
  }

  function VisitAll(m: Catalog, ghost u: set<Id>, refs: seq<Id>, s: State): (t: State)
    requires Spans(m, u) && s.visited <= u && forall r :: r in refs ==> r in u
    ensures s.visited <= t.visited <= u
    decreases u - s.visited, 1, |refs|
  {
    if refs == [] then s
    else VisitAll(m, u, refs[1..], Visit(m, u, refs[0], s))
  }

  function Ids(ps: seq<Pipeline>): (r: seq<Id>)
    ensures |r| == |ps| && forall i :: 0 <= i < |ps| ==> r[i] == ps[i].id
  {
    seq(|ps|, i requires 0 <= i < |ps| => ps[i].id)
  }

  ghost function Span(ps: seq<Pipeline>): (u: set<Id>)
    ensures Spans(Catalogue(ps), u) && forall i :: 0 <= i < |ps| ==> ps[i].id in u
  {
    (set i | 0 <= i < |ps| :: ps[i].id) + (set i, r | 0 <= i < |ps| && r in Refs(ps[i]) :: r)
  }

  /** The ids in the order the sort lists them. */
  ghost function Order(ps: seq<Pipeline>): (order: seq<Id>) {
    VisitAll(Catalogue(ps), Span(ps), Ids(ps), State({}, [])).order
  }

  function Rows(m: Catalog, order: seq<Id>): (r: seq<Pipeline>)
    ensures |r| == |order| && forall i :: 0 <= i < |order| ==> r[i] == Lookup(m, order[i])
  {
    seq(|order|, i requires 0 <= i < |order| => Lookup(m, order[i]))
  }

  // ----- every reachable id exactly once

  ghost function Elems(order: seq<Id>): (s: set<Id>) {
    set x | x in order
  }

  ghost predicate Wf(s: State) {
    Distinct(s.order) && Elems(s.order) <= s.visited
  }

  /** Visited, not yet listed: the ids whose references are being visited. */
  ghost function Active(s: State): (r: set<Id>) {
    s.visited - Elems(s.order)
  }

  /** Every listed id from place `n` on has its references visited. */
  ghost predicate RefsSeen(m: Catalog, s: State, n: nat) {
    forall i, r :: n <= i < |s.order| && r in Refs(Lookup(m, s.order[i])) ==> r in s.visited
  }

  lemma ElemsSnoc(order: seq<Id>, id: Id)
    ensures Elems(order + [id]) == Elems(order) + {id}
  {
  }

  lemma {:induction false} VisitFrame(m: Catalog, u: set<Id>, id: Id, s: State)
    requires Spans(m, u) && id in u && s.visited <= u && Wf(s)
    ensures var t := Visit(m, u, id, s);
            Wf(t) && s.order <= t.order && Active(t) == Active(s) && id in t.visited && RefsSeen(m, t, |s.order|)
    decreases u - s.visited, 0, 0
  {
    if id !in s.visited {
      var s1 := State(s.visited + {id}, s.order);
      var t1 := VisitAll(m, u, Refs(Lookup(m, id)), s1);
      VisitAllFrame(m, u, Refs(Lookup(m, id)), s1);
      ElemsSnoc(t1.order, id);
      assert Active(s1) == Active(s) + {id};
      assert id !in t1.order by {
        assert id in Active(t1);
      }
      var t := Visit(m, u, id, s);
      assert t == State(t1.visited, t1.order + [id]);
      assert forall i :: 0 <= i < |t1.order| ==> t.order[i] == t1.order[i];
    }
  }

  lemma {:induction false} VisitAllFrame(m: Catalog, u: set<Id>, refs: seq<Id>, s: State)
    requires Spans(m, u) && s.visited <= u && (forall r :: r in refs ==> r in u) && Wf(s)
    ensures var t := VisitAll(m, u, refs, s);
            && Wf(t) && s.order <= t.order && Active(t) == Active(s) && RefsSeen(m, t, |s.order|)
            && forall r :: r in refs ==> r in t.visited
    decreases u - s.visited, 1, |refs|
  {
    if refs != [] {
      var s1 := Visit(m, u, refs[0], s);
      VisitFrame(m, u, refs[0], s);
      VisitAllFrame(m, u, refs[1..], s1);
      var t := VisitAll(m, u, refs[1..], s1);
      assert forall i :: 0 <= i < |s1.order| ==> t.order[i] == s1.order[i];
    }
  }

  ghost predicate Reaches(g: Deps, a: Id, b: Id) {
    exists p :: IsPath(g, p) && p[0] == a && p[|p| - 1] == b
  }

  lemma ReachesSelf(g: Deps, a: Id)
    ensures Reaches(g, a, a)
  {
    assert IsPath(g, [a]);
  }

  lemma ReachesStep(g: Deps, a: Id, b: Id, c: Id)
    requires Reaches(g, a, b) && Edge(g, b, c)
    ensures Reaches(g, a, c)
  {
    var p :| IsPath(g, p) && p[0] == a && p[|p| - 1] == b;
    assert IsPath(g, p + [c]);
  }

  lemma RefEdge(m: Catalog, id: Id, r: Id)
    ensures r in Refs(Lookup(m, id)) <==> Edge(RefGraph(m), id, r)
  {
  }

  /** A visit of a new id goes to its parent first, then to its dependencies in turn, and lists the id last. */
  lemma VisitSteps(m: Catalog, u: set<Id>, id: Id, s: State)
    requires Spans(m, u) && id in u && s.visited <= u && id in m && id !in s.visited
    ensures m[id].parent.Some? ==> m[id].parent.value in u
    ensures forall d :: d in m[id].dependsOn ==> d in u
    ensures var s1 := State(s.visited + {id}, s.order);
            var s2 := if m[id].parent.Some? then Visit(m, u, m[id].parent.value, s1) else s1;
            var t := VisitAll(m, u, m[id].dependsOn, s2);
            Visit(m, u, id, s) == State(t.visited, t.order + [id])
  {
    var p := m[id];
    if p.parent.Some? {
      assert p.parent.value in Refs(p);
      assert Refs(p)[0] == p.parent.value && Refs(p)[1..] == p.dependsOn;
    } else {
      assert Refs(p) == p.dependsOn;
    }
  }

  /** What a visit adds is reached from where it started. */
  ghost predicate AddsReached(m: Catalog, roots: seq<Id>, s: State, t: State) {
    forall x :: x in t.visited && x !in s.visited ==> FromSome(m, roots, x)
  }

  ghost predicate FromSome(m: Catalog, roots: seq<Id>, x: Id) {
    exists i :: 0 <= i < |roots| && Reaches(RefGraph(m), roots[i], x)
  }

  lemma FromSomeLater(m: Catalog, id: Id, x: Id)
    requires FromSome(m, Refs(Lookup(m, id)), x)
    ensures FromSome(m, [id], x)
  {
    var refs := Refs(Lookup(m, id));
    var i :| 0 <= i < |refs| && Reaches(RefGraph(m), refs[i], x);
    RefEdge(m, id, refs[i]);
    var p :| IsPath(RefGraph(m), p) && p[0] == refs[i] && p[|p| - 1] == x;
    PathCons(RefGraph(m), id, p);
    var q := [id] + p;
    assert q[0] == id && q[|q| - 1] == x;
    assert Reaches(RefGraph(m), [id][0], x);
  }

  lemma {:induction false} VisitReached(m: Catalog, u: set<Id>, id: Id, s: State)
    requires Spans(m, u) && id in u && s.visited <= u
    ensures AddsReached(m, [id], s, Visit(m, u, id, s))
    decreases u - s.visited, 0, 0
  {
    if id !in s.visited {
      var s1 := State(s.visited + {id}, s.order);
      var refs := Refs(Lookup(m, id));
      var t := VisitAll(m, u, refs, s1);
      VisitAllReached(m, u, refs, s1);
      forall x | x in t.visited && x !in s.visited
        ensures FromSome(m, [id], x)
      {
        if x == id {
          ReachesSelf(RefGraph(m), id);
          assert Reaches(RefGraph(m), [id][0], x);
        } else {
          FromSomeLater(m, id, x);
        }
      }
    }
  }

  lemma {:induction false} VisitAllReached(m: Catalog, u: set<Id>, refs: seq<Id>, s: State)
    requires Spans(m, u) && s.visited <= u && (forall r :: r in refs ==> r in u)
    ensures AddsReached(m, refs, s, VisitAll(m, u, refs, s))
    decreases u - s.visited, 1, |refs|
  {
    if refs != [] {
      var s1 := Visit(m, u, refs[0], s);
      var t := VisitAll(m, u, refs[1..], s1);
      VisitReached(m, u, refs[0], s);
      VisitAllReached(m, u, refs[1..], s1);
      forall x | x in t.visited && x !in s.visited
        ensures FromSome(m, refs, x)
      {
        if x in s1.visited {
          var i :| 0 <= i < 1 && Reaches(RefGraph(m), [refs[0]][i], x);
          assert Reaches(RefGraph(m), refs[0], x);
        } else {
          var i :| 0 <= i < |refs[1..]| && Reaches(RefGraph(m), refs[1..][i], x);
          assert Reaches(RefGraph(m), refs[i + 1], x);
        }
      }
    }
  }

  lemma {:induction false} PathStays(m: Catalog, s: set<Id>, p: seq<Id>)
    requires IsPath(RefGraph(m), p) && p[0] in s
    requires forall x, r :: x in s && r in Refs(Lookup(m, x)) ==> r in s
    ensures p[|p| - 1] in s
  {
    if |p| > 1 {
      assert Edge(RefGraph(m), p[0], p[1]);
      RefEdge(m, p[0], p[1]);
      PathSlice(RefGraph(m), p, 1, |p|);
      PathStays(m, s, p[1..]);
    }
  }

  lemma ReachedIsVisited(m: Catalog, roots: seq<Id>, s: set<Id>, x: Id)
    requires FromSome(m, roots, x) && ClosedUnder(m, s) && forall r :: r in roots ==> r in s
    ensures x in s
  {
    var i :| 0 <= i < |roots| && Reaches(RefGraph(m), roots[i], x);
    var p :| IsPath(RefGraph(m), p) && p[0] == roots[i] && p[|p| - 1] == x;
    PathStays(m, s, p);
  }

  ghost predicate ClosedUnder(m: Catalog, s: set<Id>) {
    forall y, r :: y in s && r in Refs(Lookup(m, y)) ==> r in s
  }

  /** When nothing is being visited any more, what is visited is listed and closed under references. */
  lemma SettledIsClosed(m: Catalog, t: State)
    requires Wf(t) && Active(t) == {} && RefsSeen(m, t, 0)
    ensures t.visited == Elems(t.order) && ClosedUnder(m, t.visited)
  {
    forall x | x in t.visited
      ensures x in Elems(t.order)
    {
      assert x !in Active(t);
    }
    forall y, r | y in t.visited && r in Refs(Lookup(m, y))
      ensures r in t.visited
    {
      var i :| 0 <= i < |t.order| && t.order[i] == y;
    }
  }

  /** The state the sort ends in. */
  lemma SortSettles(ps: seq<Pipeline>)
    ensures var m, t := Catalogue(ps), VisitAll(Catalogue(ps), Span(ps), Ids(ps), State({}, []));
            && Wf(t) && t.visited == Elems(t.order) && ClosedUnder(m, t.visited)
            && (forall r :: r in Ids(ps) ==> r in t.visited)
            && (forall x :: x in t.visited ==> FromSome(m, Ids(ps), x))
  {
    var m, u, s := Catalogue(ps), Span(ps), State({}, []);
    assert Active(s) == {};
    VisitAllFrame(m, u, Ids(ps), s);
    VisitAllReached(m, u, Ids(ps), s);
    SettledIsClosed(m, VisitAll(m, u, Ids(ps), s));
  }

  /** On every input, cyclic or not: each id reachable from a listed one is listed exactly once, and no other. */
  lemma ListsReachableOnce(ps: seq<Pipeline>)
    ensures Distinct(Order(ps))
    ensures forall x :: x in Order(ps) <==> FromSome(Catalogue(ps), Ids(ps), x)
  {
    var m := Catalogue(ps);
    var t := VisitAll(m, Span(ps), Ids(ps), State({}, []));
    SortSettles(ps);
    forall x | FromSome(m, Ids(ps), x)
      ensures x in t.visited
    {
      ReachedIsVisited(m, Ids(ps), t.visited, x);
    }
  }

  // ----- references first, exactly on acyclic input

  /** Every listed id comes after everything it refers to. */
  ghost predicate RefsFirst(m: Catalog, order: seq<Id>) {
    forall i, r :: 0 <= i < |order| && r in Refs(Lookup(m, order[i])) ==> r in order[..i]
  }

  ghost predicate AllReach(g: Deps, s: set<Id>, b: Id) {
    forall a :: a in s ==> Reaches(g, a, b)
  }

  lemma NoReturn(g: Deps, a: Id, b: Id)
    requires Reaches(g, a, b) && Edge(g, b, a)
    ensures Cyclic(g)
  {
    var p :| IsPath(g, p) && p[0] == a && p[|p| - 1] == b;
    assert IsCycle(g, p + [a]);
  }

  lemma RefsFirstSnoc(m: Catalog, order: seq<Id>, id: Id)
    requires RefsFirst(m, order) && forall r :: r in Refs(Lookup(m, id)) ==> r in order
    ensures RefsFirst(m, order + [id])
  {
    var more := order + [id];
    forall i, r | 0 <= i < |more| && r in Refs(Lookup(m, more[i]))
      ensures r in more[..i]
    {
      if i < |order| {
        assert more[..i] == order[..i];
      } else {
        assert more[..i] == order;
      }
    }
  }

  lemma {:induction false} VisitRefsFirst(m: Catalog, u: set<Id>, id: Id, s: State)
    requires Spans(m, u) && id in u && s.visited <= u && Wf(s) && !Cyclic(RefGraph(m))
    requires RefsFirst(m, s.order) && id !in Active(s) && AllReach(RefGraph(m), Active(s), id)
    ensures var t := Visit(m, u, id, s); RefsFirst(m, t.order) && id in t.order
    decreases u - s.visited, 0, 0
  {
    if id !in s.visited {
      var s1 := State(s.visited + {id}, s.order);
      var refs := Refs(Lookup(m, id));
      ReachesSelf(RefGraph(m), id);
      assert Active(s1) == Active(s) + {id};
      VisitAllRefsFirst(m, u, id, refs, s1);
      RefsFirstSnoc(m, VisitAll(m, u, refs, s1).order, id);
    }
  }

  lemma {:induction false} VisitAllRefsFirst(m: Catalog, u: set<Id>, id: Id, refs: seq<Id>, s: State)
    requires Spans(m, u) && s.visited <= u && Wf(s) && !Cyclic(RefGraph(m))
    requires forall r :: r in refs ==> r in u && r in Refs(Lookup(m, id))
    requires RefsFirst(m, s.order) && AllReach(RefGraph(m), Active(s), id)
    ensures var t := VisitAll(m, u, refs, s); RefsFirst(m, t.order) && forall r :: r in refs ==> r in t.order
    decreases u - s.visited, 1, |refs|
  {
    if refs != [] {
      var g, r := RefGraph(m), refs[0];
      RefEdge(m, id, r);
      if r in Active(s) {
        NoReturn(g, r, id);
      }
      forall a | a in Active(s)
        ensures Reaches(g, a, r)
      {
        ReachesStep(g, a, id, r);
      }
      VisitRefsFirst(m, u, r, s);
      VisitFrame(m, u, r, s);
      var s1 := Visit(m, u, r, s);
      VisitAllRefsFirst(m, u, id, refs[1..], s1);
      VisitAllFrame(m, u, refs[1..], s1);
      var t := VisitAll(m, u, refs[1..], s1);
      assert s1.order <= t.order;
    }
  }

  lemma {:induction false} TopRefsFirst(m: Catalog, u: set<Id>, ids: seq<Id>, s: State)
    requires Spans(m, u) && s.visited <= u && Wf(s) && !Cyclic(RefGraph(m)) && (forall r :: r in ids ==> r in u)
    requires RefsFirst(m, s.order) && Active(s) == {}
    ensures RefsFirst(m, VisitAll(m, u, ids, s).order)
    decreases |ids|
  {
    if ids != [] {
      VisitRefsFirst(m, u, ids[0], s);
      VisitFrame(m, u, ids[0], s);
      TopRefsFirst(m, u, ids[1..], Visit(m, u, ids[0], s));
    }
  }

  /** Listing references first is listing dependencies first. */
  lemma RefsFirstDeps(m: Catalog, order: seq<Id>)
    requires RefsFirst(m, order)
    ensures DepsFirst(RefGraph(m), order)
  {
    forall i, d | 0 <= i < |order| && Edge(RefGraph(m), order[i], d)
      ensures d in order[..i]
    {
      RefEdge(m, order[i], d);
    }
  }

  /** The parent of the pipeline and each of its dependencies is among the ids. */
  ghost predicate ReferencesIn(p: Pipeline, ids: seq<Id>) {
    (p.parent.Some? ==> p.parent.value in ids) && forall i :: 0 <= i < |p.dependsOn| ==> p.dependsOn[i] in ids
  }

  lemma ReferencesAreRefs(p: Pipeline, ids: seq<Id>)
    ensures ReferencesIn(p, ids) <==> forall r :: r in Refs(p) ==> r in ids
  {
    forall i | 0 <= i < |p.dependsOn|
      ensures p.dependsOn[i] in Refs(p)
    {
    }
  }

  /** Every listed id comes after the parent and the dependencies of its pipeline. */
  ghost predicate ReferencesFirst(m: Catalog, order: seq<Id>) {
    forall i :: 0 <= i < |order| ==> ReferencesIn(Lookup(m, order[i]), order[..i])
  }

  lemma ReferencesFirstRefs(m: Catalog, order: seq<Id>)
    ensures ReferencesFirst(m, order) <==> RefsFirst(m, order)
  {
    forall i | 0 <= i < |order|
      ensures ReferencesIn(Lookup(m, order[i]), order[..i]) <==>
              forall r :: r in Refs(Lookup(m, order[i])) ==> r in order[..i]
    {
      ReferencesAreRefs(Lookup(m, order[i]), order[..i]);
    }
  }

  lemma KeysListed(ps: seq<Pipeline>, x: Id)
    requires x in Catalogue(ps)
    ensures x in Order(ps)
  {
    var i :| 0 <= i < |ps| && ps[i].id == x;
    assert Ids(ps)[i] == x;
    ReachesSelf(RefGraph(Catalogue(ps)), x);
    ListsReachableOnce(ps);
  }

  /** The sort lists every pipeline after its parent and its dependencies if and only if there is no cycle. */
  lemma ParentsFirstExactly(ps: seq<Pipeline>)
    ensures ReferencesFirst(Catalogue(ps), Order(ps)) <==> !Cyclic(RefGraph(Catalogue(ps)))
  {
    var m, g := Catalogue(ps), RefGraph(Catalogue(ps));
    ReferencesFirstRefs(m, Order(ps));
    if !Cyclic(g) {
      assert Active(State({}, [])) == {};
      TopRefsFirst(m, Span(ps), Ids(ps), State({}, []));
    } else if RefsFirst(m, Order(ps)) {
      RefsFirstDeps(m, Order(ps));
      ListsReachableOnce(ps);
      forall x | x in g
        ensures x in Order(ps)
      {
        KeysListed(ps, x);
      }
      OrderedHasNoCycle(g, Order(ps));
    }
  }
}
