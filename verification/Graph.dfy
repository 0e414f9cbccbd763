/** Dependency graphs: an identifier maps to the identifiers it depends on. */
module Graph {
  type Id = string
  type Deps = map<Id, set<Id>>

  predicate Edge(g: Deps, a: Id, b: Id) {
    a in g && b in g[a]
  }

  /** A nonempty walk along dependencies. */
  ghost predicate IsPath(g: Deps, p: seq<Id>) {
    |p| >= 1 && forall i, j :: 0 <= i < j < |p| && j == i + 1 ==> Edge(g, p[i], p[j])
  }

  ghost predicate IsCycle(g: Deps, p: seq<Id>) {
    IsPath(g, p) && |p| >= 2 && p[0] == p[|p| - 1]
  }

  ghost predicate Cyclic(g: Deps) {
    exists p :: IsCycle(g, p)
  }

  ghost predicate Distinct<T>(p: seq<T>) {
    forall i, j :: 0 <= i < j < |p| ==> p[i] != p[j]
  }

  lemma {:induction false} DistinctSize<T>(p: seq<T>)
    requires Distinct(p)
    ensures |set x | x in p| == |p|
  {
    if p == [] {
      assert (set x | x in p) == {};
    } else {
      var q := p[..|p| - 1];
      DistinctSize(q);
      var last := p[|p| - 1];
      assert p == q + [last];
      assert (set x | x in p) == (set x | x in q) + {last};
      assert last !in q;
    }
  }

  /** A list with a repetition has more places than members. */
  lemma {:induction false} RepeatSize<T>(p: seq<T>)
    ensures |set x | x in p| <= |p|
    ensures !Distinct(p) ==> |set x | x in p| < |p|
  {
    if p == [] {
      assert (set x | x in p) == {};
    } else {
      var q, last := p[..|p| - 1], p[|p| - 1];
      RepeatSize(q);
      assert p == q + [last];
      assert (set x | x in p) == (set x | x in q) + {last};
      if Distinct(q) && !Distinct(p) {
        assert last in q;
        assert (set x | x in p) == (set x | x in q);
      }
    }
  }

  lemma {:induction false} SubsetSize<T>(a: set<T>, b: set<T>)
    requires a <= b
    ensures |a| <= |b|
  {
    if a != {} {
      var x :| x in a;
      SubsetSize(a - {x}, b - {x});
    }
  }

  /** More places than values: some value stands at two places. */
  lemma Pigeonhole(p: seq<Id>, s: set<Id>) returns (i: nat, j: nat)
    requires |p| > |s| && forall k :: 0 <= k < |p| ==> p[k] in s
    ensures i < j < |p| && p[i] == p[j]
  {
    if Distinct(p) {
      DistinctSize(p);
      SubsetSize((set x | x in p), s);
      assert false;
    }
    i, j :| 0 <= i < j < |p| && p[i] == p[j];
  }

  ghost predicate HasNext(g: Deps, s: set<Id>, a: Id) {
    exists b :: b in s && Edge(g, a, b)
  }

  /** A set in which every member depends on a member. */
  ghost predicate Closed(g: Deps, s: set<Id>) {
    forall a {:trigger HasNext(g, s, a)} :: a in s ==> HasNext(g, s, a)
  }

  lemma PathCons(g: Deps, a: Id, q: seq<Id>)
    requires IsPath(g, q) && Edge(g, a, q[0])
    ensures IsPath(g, [a] + q)
  {
    var p := [a] + q;
    forall i, j | 0 <= i < j < |p| && j == i + 1
      ensures Edge(g, p[i], p[j])
    {
      if i > 0 {
        assert p[i] == q[i - 1] && p[j] == q[j - 1];
      }
    }
  }

  lemma PathSlice(g: Deps, p: seq<Id>, i: nat, j: nat)
    requires IsPath(g, p) && i < j <= |p|
    ensures IsPath(g, p[i..j])
  {
  }

  lemma {:induction false} Walk(g: Deps, s: set<Id>, a: Id, n: nat) returns (p: seq<Id>)
    requires Closed(g, s) && a in s
    ensures IsPath(g, p) && |p| == n + 1 && p[0] == a && forall k :: 0 <= k < |p| ==> p[k] in s
    decreases n
  {
    if n == 0 {
      p := [a];
    } else {
      assert HasNext(g, s, a);
      var b :| b in s && Edge(g, a, b);
      var q := Walk(g, s, b, n - 1);
      PathCons(g, a, q);
      p := [a] + q;
    }
  }

  /** Following dependencies inside a nonempty closed set must come back somewhere. */
  lemma ClosedHasCycle(g: Deps, s: set<Id>)
    requires s != {} && Closed(g, s)
    ensures Cyclic(g)
  {
    var a :| a in s;
    var p := Walk(g, s, a, |s|);
    var i, j := Pigeonhole(p, s);
    PathSlice(g, p, i, j + 1);
    assert IsCycle(g, p[i..j + 1]);
  }

  lemma CycleIsClosed(g: Deps, p: seq<Id>) returns (s: set<Id>)
    requires IsCycle(g, p)
    ensures s != {} && Closed(g, s) && s <= g.Keys
  {
    s := set i | 0 <= i < |p| - 1 :: p[i];
    assert p[0] in s;
    forall a | a in s
      ensures a in g && HasNext(g, s, a)
    {
      var i :| 0 <= i < |p| - 1 && p[i] == a;
      assert Edge(g, a, p[i + 1]);
      if i + 1 == |p| - 1 {
        assert p[i + 1] == p[0];
      } else {
        assert p[i + 1] in s;
      }
    }
  }

  /** In the order, every listed identifier comes after the identifiers of the graph it depends on. */
  ghost predicate DepsFirst(g: Deps, order: seq<Id>) {
    forall i, d :: 0 <= i < |order| && Edge(g, order[i], d) && d in g ==> d in order[..i]
  }

  /** Along a path the places in such an order go down. */
  lemma {:induction false} PlacesDescend(g: Deps, order: seq<Id>, p: seq<Id>, i: nat) returns (j: nat)
    requires DepsFirst(g, order) && IsPath(g, p) && p[|p| - 1] in g && i < |order| && order[i] == p[0]
    ensures j <= i && order[j] == p[|p| - 1] && (|p| > 1 ==> j < i)
    decreases |p|
  {
    if |p| == 1 {
      j := i;
    } else {
      assert Edge(g, p[0], p[1]);
      assert |p| > 2 ==> Edge(g, p[1], p[2]);
      assert p[1] in order[..i];
      var k :| 0 <= k < i && order[k] == p[1];
      PathSlice(g, p, 1, |p|);
      j := PlacesDescend(g, order, p[1..], k);
    }
  }

  /** A graph that can be listed with dependencies first has no cycle. */
  lemma OrderedHasNoCycle(g: Deps, order: seq<Id>)
    requires DepsFirst(g, order) && Distinct(order) && forall x :: x in g ==> x in order
    ensures !Cyclic(g)
  {
    if Cyclic(g) {
      var p :| IsCycle(g, p);
      assert Edge(g, p[0], p[1]);
      var i :| 0 <= i < |order| && order[i] == p[0];
      var j := PlacesDescend(g, order, p, i);
      assert false;
    }
  }
}
