/** The sort and the batch loop as the execution service runs them. */
module BatchExecution {
  import opened Options
  import opened Graph
  import opened HierarchySort

  // ----- a permutation, on input without surprises

  /** Distinct ids, and every parent and dependency is listed. */
  ghost predicate Tidy(ps: seq<Pipeline>) {
    Distinct(Ids(ps)) && forall i :: 0 <= i < |ps| ==> ReferencesIn(ps[i], Ids(ps))
  }

  lemma {:induction false} CatalogueFinds(ps: seq<Pipeline>, i: nat)
    requires Distinct(Ids(ps)) && i < |ps|
    ensures ps[i].id in Catalogue(ps) && Catalogue(ps)[ps[i].id] == ps[i]
  {
    var last := |ps| - 1;
    if i < last {
      var front := ps[..last];
      assert Ids(front) == Ids(ps)[..last];
      CatalogueFinds(front, i);
      assert Ids(ps)[i] != Ids(ps)[last];
    }
  }

  lemma IdsAreKeys(ps: seq<Pipeline>, x: Id)
    ensures x in Ids(ps) <==> x in Catalogue(ps)
  {
    if x in Ids(ps) {
      var i :| 0 <= i < |ps| && Ids(ps)[i] == x;
      assert ps[i].id == x;
    }
    if x in Catalogue(ps) {
      var i :| 0 <= i < |ps| && ps[i].id == x;
      assert Ids(ps)[i] == x;
    }
  }

  lemma RefsAreKeys(ps: seq<Pipeline>, y: Id, r: Id)
    requires Tidy(ps) && y in Catalogue(ps) && r in Refs(Lookup(Catalogue(ps), y))
    ensures r in Catalogue(ps)
  {
    var k :| 0 <= k < |ps| && ps[k] == Catalogue(ps)[y];
    assert ReferencesIn(ps[k], Ids(ps));
    ReferencesAreRefs(ps[k], Ids(ps));
    IdsAreKeys(ps, r);
  }

  lemma ReachedAreKeys(ps: seq<Pipeline>, x: Id)
    requires Tidy(ps) && FromSome(Catalogue(ps), Ids(ps), x)
    ensures x in Catalogue(ps)
  {
    var m := Catalogue(ps);
    forall y | y in Ids(ps)
      ensures y in m.Keys
    {
      IdsAreKeys(ps, y);
    }
    forall y, r | y in m.Keys && r in Refs(Lookup(m, y))
      ensures r in m.Keys
    {
      RefsAreKeys(ps, y, r);
    }
    ReachedIsVisited(m, Ids(ps), m.Keys, x);
  }

  lemma KeysAreReached(ps: seq<Pipeline>, x: Id)
    requires x in Catalogue(ps)
    ensures FromSome(Catalogue(ps), Ids(ps), x)
  {
    IdsAreKeys(ps, x);
    ReachesSelf(RefGraph(Catalogue(ps)), x);
  }

  lemma OrderListsIds(ps: seq<Pipeline>)
    requires Tidy(ps)
    ensures Distinct(Order(ps)) && forall x :: x in Order(ps) <==> x in Catalogue(ps)
  {
    ListsReachableOnce(ps);
    forall x
      ensures x in Order(ps) <==> x in Catalogue(ps)
    {
      if x in Order(ps) {
        ReachedAreKeys(ps, x);
      }
      if x in Catalogue(ps) {
        KeysAreReached(ps, x);
      }
    }
  }

  lemma {:induction false} DistinctCounts<T>(s: seq<T>, x: T)
    requires Distinct(s)
    ensures multiset(s)[x] == if x in s then 1 else 0
  {
    if s != [] {
      var front, last := s[..|s| - 1], s[|s| - 1];
      assert s == front + [last];
      DistinctCounts(front, x);
    }
  }

  lemma RowsAreListed(ps: seq<Pipeline>)
    requires Tidy(ps)
    ensures var rows := Rows(Catalogue(ps), Order(ps));
            Distinct(rows) && forall p :: p in rows <==> p in ps
  {
    var m, order := Catalogue(ps), Order(ps);
    var rows := Rows(m, order);
    OrderListsIds(ps);
    forall i | 0 <= i < |rows|
      ensures rows[i].id == order[i] && rows[i] in ps
    {
      assert order[i] in m;
    }
    forall p | p in ps
      ensures p in rows
    {
      var k :| 0 <= k < |ps| && ps[k] == p;
      CatalogueFinds(ps, k);
      assert p.id in order;
      var i :| 0 <= i < |order| && order[i] == p.id;
      assert rows[i] == p;
    }
  }

  /** With distinct ids and no dangling references the sort only reorders the pipelines. */
  lemma SortPermutes(ps: seq<Pipeline>)
    requires Tidy(ps)
    ensures multiset(Rows(Catalogue(ps), Order(ps))) == multiset(ps)
  {
    var rows := Rows(Catalogue(ps), Order(ps));
    RowsAreListed(ps);
    assert Distinct(ps) by {
      forall i, j | 0 <= i < j < |ps|
        ensures ps[i] != ps[j]
      {
        assert Ids(ps)[i] != Ids(ps)[j];
      }
    }
    forall p: Pipeline
      ensures multiset(rows)[p] == multiset(ps)[p]
    {
      DistinctCounts(rows, p);
      DistinctCounts(ps, p);
    }
  }

  predicate Named(ps: seq<Pipeline>) {
    forall i :: 0 <= i < |ps| ==> ps[i].id != ""
  }

  /** A permutation lists no missing id: it would come as a pipeline without a name. */
  lemma PermutedIsListed(ps: seq<Pipeline>, x: Id)
    requires Named(ps) && multiset(Rows(Catalogue(ps), Order(ps))) == multiset(ps) && x in Order(ps)
    ensures x in Catalogue(ps)
  {
    var rows := Rows(Catalogue(ps), Order(ps));
    var i :| 0 <= i < |Order(ps)| && Order(ps)[i] == x;
    assert rows[i] in multiset(ps);
    assert rows[i] in ps;
  }

  lemma PermutedIsDistinct(ps: seq<Pipeline>)
    requires Named(ps) && multiset(Rows(Catalogue(ps), Order(ps))) == multiset(ps)
    ensures Distinct(Ids(ps))
  {
    var m, order, rows := Catalogue(ps), Order(ps), Rows(Catalogue(ps), Order(ps));
    assert |multiset(rows)| == |rows| && |multiset(ps)| == |ps|;
    assert |order| == |ps| && |Ids(ps)| == |ps|;
    ListsReachableOnce(ps);
    DistinctSize(order);
    forall x | x in order
      ensures x in Ids(ps)
    {
      PermutedIsListed(ps, x);
      IdsAreKeys(ps, x);
    }
    SubsetSize(set x | x in order, set x | x in Ids(ps));
    RepeatSize(Ids(ps));
  }

  lemma RefIsListed(ps: seq<Pipeline>, i: nat, r: Id)
    requires Distinct(Ids(ps)) && i < |ps| && r in Refs(ps[i])
    ensures r in Order(ps)
  {
    var m := Catalogue(ps);
    CatalogueFinds(ps, i);
    ReachesSelf(RefGraph(m), ps[i].id);
    RefEdge(m, ps[i].id, r);
    ReachesStep(RefGraph(m), ps[i].id, ps[i].id, r);
    assert Ids(ps)[i] == ps[i].id;
    ListsReachableOnce(ps);
  }

  /**
    * For pipelines with names, the sort only reorders them if and only if ids are distinct and every
    * reference is listed: a repeated id loses a pipeline, a dangling one adds an empty one.
    */
  lemma PermutesExactly(ps: seq<Pipeline>)
    requires Named(ps)
    ensures multiset(Rows(Catalogue(ps), Order(ps))) == multiset(ps) <==> Tidy(ps)
  {
    if Tidy(ps) {
      SortPermutes(ps);
    } else if multiset(Rows(Catalogue(ps), Order(ps))) == multiset(ps) {
      PermutedIsDistinct(ps);
      var i :| 0 <= i < |ps| && !ReferencesIn(ps[i], Ids(ps));
      ReferencesAreRefs(ps[i], Ids(ps));
      var r :| r in Refs(ps[i]) && r !in Ids(ps);
      RefIsListed(ps, i, r);
      PermutedIsListed(ps, r);
      IdsAreKeys(ps, r);
      assert false;
    }
  }

  /** A dangling reference: the sort lists an empty pipeline. */
  lemma DanglingAdds()
    ensures var ps := [Pipeline("a", Some("x"), [], None, false)];
            ZERO in Rows(Catalogue(ps), Order(ps)) && ZERO !in ps
  {
    var ps := [Pipeline("a", Some("x"), [], None, false)];
    assert Refs(ps[0])[0] == "x";
    RefIsListed(ps, 0, "x");
    var i :| 0 <= i < |Order(ps)| && Order(ps)[i] == "x";
    assert "x" !in Catalogue(ps);
    assert Rows(Catalogue(ps), Order(ps))[i] == ZERO;
  }

  /** A repeated id: the first of the two pipelines is lost. */
  lemma RepeatLoses()
    ensures var ps := [Pipeline("a", None, [], Some("x"), false), Pipeline("a", None, [], Some("y"), false)];
            ps[0] !in Rows(Catalogue(ps), Order(ps))
  {
    var ps := [Pipeline("a", None, [], Some("x"), false), Pipeline("a", None, [], Some("y"), false)];
    assert Catalogue(ps) == Catalogue(ps[..1])["a" := ps[1]];
  }

  // ----- the sort, with its closure over visited ids and the result

  class Sorter {
    const catalog: Catalog
    var visited: set<Id>
    var result: seq<Pipeline>
    ghost var order: seq<Id>

    constructor (ps: seq<Pipeline>)
      ensures catalog == Catalogue(ps) && visited == {} && result == [] && order == []
    {
      catalog := Catalogue(ps);
      visited, result, order := {}, [], [];
    }

    method Visit(id: Id, ghost u: set<Id>)
      requires Spans(catalog, u) && id in u && visited <= u && result == Rows(catalog, order)
      modifies this
      ensures State(visited, order) == HierarchySort.Visit(catalog, u, id, old(State(visited, order)))
      ensures result == Rows(catalog, order)
      decreases u - visited, 0
    {
      if id in visited {
        return;
      }
      visited := visited + {id};
      var p := Lookup(catalog, id);
      VisitEach(Refs(p), u);
      assert Rows(catalog, order + [id]) == Rows(catalog, order) + [p];
      result := result + [p];
      order := order + [id];
    }

    method VisitEach(refs: seq<Id>, ghost u: set<Id>)
      requires Spans(catalog, u) && visited <= u && result == Rows(catalog, order) && forall r :: r in refs ==> r in u
      modifies this
      ensures State(visited, order) == VisitAll(catalog, u, refs, old(State(visited, order)))
      ensures result == Rows(catalog, order)
      decreases u - visited, 1
    {
      ghost var start := State(visited, order);
      for i := 0 to |refs|
        invariant start.visited <= visited <= u && result == Rows(catalog, order)
        invariant VisitAll(catalog, u, refs[i..], State(visited, order)) == VisitAll(catalog, u, refs, start)
      {
        assert refs[i..][1..] == refs[i + 1..];
        Visit(refs[i], u);
      }
      assert refs[|refs|..] == [];
    }
  }

  // ----- what the sort promises, in terms of the pipelines

  /** A pipeline with id `a` has `b` as its parent or among its dependencies. */
  ghost predicate RefersTo(ps: seq<Pipeline>, a: Id, b: Id) {
    exists i :: 0 <= i < |ps| && ps[i].id == a && (ps[i].parent == Some(b) || b in ps[i].dependsOn)
  }

  ghost predicate IsCircle(ps: seq<Pipeline>, p: seq<Id>) {
    && |p| > 1 && p[0] == p[|p| - 1]
    && forall i, j :: 0 <= i < j < |p| && j == i + 1 ==> RefersTo(ps, p[i], p[j])
  }

  /** Following parents and dependencies leads back somewhere. */
  ghost predicate Circular(ps: seq<Pipeline>) {
    exists p :: IsCircle(ps, p)
  }

  lemma RefersIsEdge(ps: seq<Pipeline>, a: Id, b: Id)
    requires Distinct(Ids(ps))
    ensures RefersTo(ps, a, b) <==> Edge(RefGraph(Catalogue(ps)), a, b)
  {
    if RefersTo(ps, a, b) {
      var i :| 0 <= i < |ps| && ps[i].id == a && (ps[i].parent == Some(b) || b in ps[i].dependsOn);
      CatalogueFinds(ps, i);
      EntryEdge(Catalogue(ps), a, b);
    }
    if Edge(RefGraph(Catalogue(ps)), a, b) {
      EntryEdge(Catalogue(ps), a, b);
      var i :| 0 <= i < |ps| && ps[i] == Catalogue(ps)[a];
      assert ps[i].id == a;
    }
  }

  lemma EntryEdge(m: Catalog, a: Id, b: Id)
    ensures Edge(RefGraph(m), a, b) <==> a in m && (m[a].parent == Some(b) || b in m[a].dependsOn)
  {
  }

  lemma CircularIsCyclic(ps: seq<Pipeline>)
    requires Distinct(Ids(ps))
    ensures Circular(ps) <==> Cyclic(RefGraph(Catalogue(ps)))
  {
    var g := RefGraph(Catalogue(ps));
    forall a, b
      ensures RefersTo(ps, a, b) <==> Edge(g, a, b)
    {
      RefersIsEdge(ps, a, b);
    }
    if Circular(ps) {
      var p :| IsCircle(ps, p);
      assert IsCycle(g, p);
    }
    if Cyclic(g) {
      var p :| IsCycle(g, p);
      assert IsCircle(ps, p);
    }
  }

  /** Every pipeline comes after its parent and after each of its dependencies. */
  ghost predicate EachAfterReferences(rows: seq<Pipeline>) {
    forall i :: 0 <= i < |rows| ==> ReferencesIn(rows[i], Ids(rows[..i]))
  }

  lemma SortedAfterReferences(ps: seq<Pipeline>)
    requires Tidy(ps) && !Circular(ps)
    ensures EachAfterReferences(Rows(Catalogue(ps), Order(ps)))
  {
    var m, order := Catalogue(ps), Order(ps);
    var rows := Rows(m, order);
    assert ReferencesFirst(m, order) by {
      CircularIsCyclic(ps);
      ParentsFirstExactly(ps);
    }
    assert Ids(rows) == order by {
      OrderListsIds(ps);
      RowIds(ps, order);
    }
    forall i | 0 <= i < |rows|
      ensures ReferencesIn(rows[i], Ids(rows[..i]))
    {
      assert Ids(rows[..i]) == Ids(rows)[..i];
      assert ReferencesIn(Lookup(m, order[i]), order[..i]);
    }
  }

  method SortByHierarchy(ps: seq<Pipeline>) returns (rows: seq<Pipeline>)
    ensures rows == Rows(Catalogue(ps), Order(ps))
    ensures Tidy(ps) && !Circular(ps) ==> multiset(rows) == multiset(ps) && EachAfterReferences(rows)
  {
    var sorter := new Sorter(ps);
    sorter.VisitEach(Ids(ps), Span(ps));
    rows := sorter.result;
    if Tidy(ps) && !Circular(ps) {
      SortPermutes(ps);
      SortedAfterReferences(ps);
    }
  }

  // ----- the batch loop

  type Record = map<string, string>

  datatype Result = Result(processed: int, failed: int)

  /** One execution: a pipeline, and the parent record it was expanded for. */
  datatype Job = Job(id: Id, index: Option<nat>, record: Option<Record>)

  /**
    * The surroundings of a batch: what each execution counts, and the records of each data type after
    * the executions so far.
    */
  datatype Env = Env(execute: Job -> Result, query: (Id, seq<Job>) -> seq<Record>)

  predicate Expands(p: Pipeline) {
    p.parent.Some? && p.perRecord
  }

  predicate HasChild(ps: seq<Pipeline>, id: Id) {
    exists i :: 0 <= i < |ps| && ps[i].parent == Some(id)
  }

  /** Where the loop stands: the executions so far, and the outputs kept for children. */
  datatype Loop = Loop(jobs: seq<Job>, outputs: map<Id, seq<Record>>)

  function OwnRecords(p: Pipeline, jobs: seq<Job>, env: Env): (r: seq<Record>) {
    if p.target.Some? then env.query(p.target.value, jobs) else []
  }

  function ExpansionRecords(p: Pipeline, s: Loop, env: Env): (r: seq<Record>) {
    if p.parent.Some? && p.parent.value in s.outputs && s.outputs[p.parent.value] != [] then s.outputs[p.parent.value]
    else OwnRecords(p, s.jobs, env)
  }

  function JobsFor(p: Pipeline, records: seq<Record>): (jobs: seq<Job>)
    ensures |jobs| == if p.parent.Some? && p.perRecord then |records| else 1
  {
    if Expands(p) then seq(|records|, i requires 0 <= i < |records| => Job(p.id, Some(i), Some(records[i])))
    else [Job(p.id, None, None)]
  }

  /** The outputs of a pipeline are kept if it has children and is not itself expanded. */
  predicate Keeps(ps: seq<Pipeline>, p: Pipeline) {
    !Expands(p) && HasChild(ps, p.id) && p.target.Some?
  }

  function RunOne(ps: seq<Pipeline>, p: Pipeline, s: Loop, env: Env): (t: Loop) {
    var jobs := s.jobs + JobsFor(p, ExpansionRecords(p, s, env));
    Loop(jobs, if Keeps(ps, p) then s.outputs[p.id := env.query(p.target.value, jobs)] else s.outputs)
  }

  function Batch(ps: seq<Pipeline>, rows: seq<Pipeline>, env: Env): (s: Loop) {
    if rows == [] then Loop([], map[])
    else RunOne(ps, rows[|rows| - 1], Batch(ps, rows[..|rows| - 1], env), env)
  }

  function Processed(jobs: seq<Job>, env: Env): (n: int) {
    if jobs == [] then 0 else Processed(jobs[..|jobs| - 1], env) + env.execute(jobs[|jobs| - 1]).processed
  }

  function FailedCount(jobs: seq<Job>, env: Env): (n: int) {
    if jobs == [] then 0 else FailedCount(jobs[..|jobs| - 1], env) + env.execute(jobs[|jobs| - 1]).failed
  }

  // ----- what the configuration asks for

  /** Every parent stands before its child. */
  ghost predicate ParentsBefore(rows: seq<Pipeline>) {
    forall i :: 0 <= i < |rows| ==> ParentAt(rows, i)
  }

  predicate ParentAt(rows: seq<Pipeline>, i: nat)
    requires i < |rows|
  {
    ParentIn(rows[i], rows[..i])
  }

  predicate ParentIn(p: Pipeline, rows: seq<Pipeline>) {
    p.parent.Some? ==> p.parent.value in Ids(rows)
  }

  lemma ParentsBeforePrefix(rows: seq<Pipeline>, k: nat)
    requires ParentsBefore(rows) && k <= |rows|
    ensures ParentsBefore(rows[..k])
  {
    forall i | 0 <= i < k
      ensures ParentAt(rows[..k], i)
    {
      assert ParentAt(rows, i);
      assert rows[..k][..i] == rows[..i];
    }
  }

  function Place(rows: seq<Pipeline>, id: Id): (k: nat)
    requires id in Ids(rows)
    ensures k < |rows| && rows[k].id == id
  {
    assert exists i :: 0 <= i < |rows| && Ids(rows)[i] == id;
    if rows[|rows| - 1].id == id then |rows| - 1
    else
      assert Ids(rows) == Ids(rows[..|rows| - 1]) + [rows[|rows| - 1].id];
      Place(rows[..|rows| - 1], id)
  }

  /**
    * The executions the configuration asks for, without a table of outputs: an expanded child runs once
    * for each record its parent's data type held right after the parent ran, or for each record of its
    * own data type if there is none. An expanded parent counts only if `nested` says so: the loop keeps
    * no output of pipelines that are themselves expanded.
    */
  ghost function ConfiguredJobs(rows: seq<Pipeline>, env: Env, nested: bool): (jobs: seq<Job>)
    requires ParentsBefore(rows)
    decreases |rows|, 0
  {
    if rows == [] then []
    else
      var front, last := rows[..|rows| - 1], rows[|rows| - 1];
      ParentsBeforePrefix(rows, |rows| - 1);
      assert ParentAt(rows, |rows| - 1);
      ConfiguredJobs(front, env, nested) + JobsFor(last, ConfiguredRecords(front, last, env, nested))
  }

  ghost function ConfiguredRecords(rows: seq<Pipeline>, p: Pipeline, env: Env, nested: bool): (r: seq<Record>)
    requires ParentsBefore(rows) && ParentIn(p, rows)
    decreases |rows|, 1
  {
    var own := OwnRecords(p, ConfiguredJobs(rows, env, nested), env);
    if p.parent.None? then own
    else
      var k := Place(rows, p.parent.value);
      ParentsBeforePrefix(rows, k + 1);
      if Expands(rows[k]) && !nested then own
      else
        var output := OwnRecords(rows[k], ConfiguredJobs(rows[..k + 1], env, nested), env);
        if output != [] then output else own
  }

  /** The output kept for the k-th pipeline, if any, is what its data type held right after it ran. */
  ghost predicate KeptAt(ps: seq<Pipeline>, rows: seq<Pipeline>, k: nat, s: Loop, env: Env)
    requires k < |rows|
  {
    && ParentsBefore(rows[..k + 1])
    && (rows[k].id in s.outputs <==> Keeps(ps, rows[k]))
    && (Keeps(ps, rows[k]) ==>
          s.outputs[rows[k].id] == env.query(rows[k].target.value, ConfiguredJobs(rows[..k + 1], env, false)))
  }

  ghost predicate Follows(ps: seq<Pipeline>, rows: seq<Pipeline>, s: Loop, env: Env)
    requires ParentsBefore(rows)
  {
    && s.jobs == ConfiguredJobs(rows, env, false)
    && (forall id :: id in s.outputs ==> id in Ids(rows))
    && forall k :: 0 <= k < |rows| ==> KeptAt(ps, rows, k, s, env)
  }

  ghost predicate Known(rows: seq<Pipeline>, ps: seq<Pipeline>) {
    forall i :: 0 <= i < |rows| ==> rows[i] in ps
  }

  /** What the loop keeps for a child's parent is what the configuration means by it. */
  lemma OutputFollows(ps: seq<Pipeline>, rows: seq<Pipeline>, p: Pipeline, k: nat, s: Loop, env: Env)
    requires k < |rows| && KeptAt(ps, rows, k, s, env) && p in ps && p.parent == Some(rows[k].id)
    ensures ExpansionRecords(p, s, env) ==
            var own := OwnRecords(p, s.jobs, env);
            var output := OwnRecords(rows[k], ConfiguredJobs(rows[..k + 1], env, false), env);
            if Expands(rows[k]) || output == [] then own else output
  {
    assert HasChild(ps, rows[k].id);
  }

  lemma RecordsFollow(ps: seq<Pipeline>, rows: seq<Pipeline>, p: Pipeline, s: Loop, env: Env)
    requires ParentsBefore(rows) && ParentIn(p, rows) && Follows(ps, rows, s, env) && p in ps
    ensures ExpansionRecords(p, s, env) == ConfiguredRecords(rows, p, env, false)
  {
    if p.parent.Some? {
      var k := Place(rows, p.parent.value);
      assert KeptAt(ps, rows, k, s, env);
      OutputFollows(ps, rows, p, k, s, env);
    }
  }

  lemma NewId(rows: seq<Pipeline>, k: nat)
    requires k < |rows| && Distinct(Ids(rows))
    ensures rows[k].id !in Ids(rows[..k])
  {
    var front := Ids(rows[..k]);
    assert forall i :: 0 <= i < k ==> front[i] == Ids(rows)[i];
    assert Ids(rows)[k] == rows[k].id;
  }

  lemma KeptOn(ps: seq<Pipeline>, rows: seq<Pipeline>, k: nat, s: Loop, t: Loop, env: Env)
    requires k + 1 < |rows| && ParentsBefore(rows) && Distinct(Ids(rows))
    requires KeptAt(ps, rows[..|rows| - 1], k, s, env)
    requires forall id :: id != rows[|rows| - 1].id ==> (id in s.outputs <==> id in t.outputs)
    requires forall id :: id != rows[|rows| - 1].id && id in s.outputs ==> t.outputs[id] == s.outputs[id]
    ensures KeptAt(ps, rows, k, t, env)
  {
    assert rows[..|rows| - 1][..k + 1] == rows[..k + 1];
    assert Ids(rows)[k] != Ids(rows)[|rows| - 1];
  }

  lemma RunOneJobs(ps: seq<Pipeline>, rows: seq<Pipeline>, s: Loop, env: Env)
    requires rows != [] && ParentsBefore(rows) && Known(rows, ps)
    requires ParentsBefore(rows[..|rows| - 1]) && Follows(ps, rows[..|rows| - 1], s, env)
    ensures RunOne(ps, rows[|rows| - 1], s, env).jobs == ConfiguredJobs(rows, env, false)
  {
    assert ParentAt(rows, |rows| - 1);
    RecordsFollow(ps, rows[..|rows| - 1], rows[|rows| - 1], s, env);
  }

  lemma IdsSnoc(rows: seq<Pipeline>)
    requires rows != []
    ensures Ids(rows) == Ids(rows[..|rows| - 1]) + [rows[|rows| - 1].id]
  {
  }

  lemma RunOneKept(ps: seq<Pipeline>, rows: seq<Pipeline>, s: Loop, env: Env)
    requires rows != [] && ParentsBefore(rows) && Distinct(Ids(rows))
    requires forall id :: id in s.outputs ==> id in Ids(rows[..|rows| - 1])
    requires RunOne(ps, rows[|rows| - 1], s, env).jobs == ConfiguredJobs(rows, env, false)
    ensures KeptAt(ps, rows, |rows| - 1, RunOne(ps, rows[|rows| - 1], s, env), env)
  {
    NewId(rows, |rows| - 1);
    assert rows[..|rows|] == rows;
  }

  lemma RunOneFollows(ps: seq<Pipeline>, rows: seq<Pipeline>, s: Loop, env: Env)
    requires rows != [] && ParentsBefore(rows) && Distinct(Ids(rows)) && Known(rows, ps)
    requires ParentsBefore(rows[..|rows| - 1]) && Follows(ps, rows[..|rows| - 1], s, env)
    ensures Follows(ps, rows, RunOne(ps, rows[|rows| - 1], s, env), env)
  {
    var n := |rows| - 1;
    var t := RunOne(ps, rows[n], s, env);
    RunOneJobs(ps, rows, s, env);
    IdsSnoc(rows);
    RunOneKept(ps, rows, s, env);
    forall k | 0 <= k < n
      ensures KeptAt(ps, rows, k, t, env)
    {
      assert KeptAt(ps, rows[..n], k, s, env);
      KeptOn(ps, rows, k, s, t, env);
    }
  }

  lemma {:induction false} BatchFollows(ps: seq<Pipeline>, rows: seq<Pipeline>, env: Env)
    requires ParentsBefore(rows) && Distinct(Ids(rows)) && Known(rows, ps)
    ensures Follows(ps, rows, Batch(ps, rows, env), env)
  {
    if rows != [] {
      var front := rows[..|rows| - 1];
      ParentsBeforePrefix(rows, |rows| - 1);
      assert Ids(front) == Ids(rows)[..|rows| - 1];
      BatchFollows(ps, front, env);
      RunOneFollows(ps, rows, Batch(ps, front, env), env);
    }
  }

  lemma RowIds(ps: seq<Pipeline>, order: seq<Id>)
    requires forall x :: x in order ==> x in Catalogue(ps)
    ensures Ids(Rows(Catalogue(ps), order)) == order
  {
    var m := Catalogue(ps);
    forall i | 0 <= i < |order|
      ensures Lookup(m, order[i]).id == order[i]
    {
      assert order[i] in m;
    }
  }

  lemma ParentsEarlier(m: Catalog, order: seq<Id>, i: nat)
    requires RefsFirst(m, order) && i < |order| && Rows(m, order)[i].parent.Some?
    ensures Rows(m, order)[i].parent.value in order[..i]
  {
    var p := Lookup(m, order[i]);
    assert p.parent.value in Refs(p);
  }

  lemma RowsParentsBefore(ps: seq<Pipeline>, order: seq<Id>)
    requires RefsFirst(Catalogue(ps), order) && forall x :: x in order ==> x in Catalogue(ps)
    ensures ParentsBefore(Rows(Catalogue(ps), order))
  {
    var rows := Rows(Catalogue(ps), order);
    RowIds(ps, order);
    forall i | 0 <= i < |rows|
      ensures ParentAt(rows, i)
    {
      if rows[i].parent.Some? {
        ParentsEarlier(Catalogue(ps), order, i);
        assert Ids(rows[..i]) == Ids(rows)[..i];
      }
    }
  }

  /**
    * On acyclic tidy input the batch reaches no child before its parent has run, and its executions are
    * those configured, children of expanded parents running over their own data type.
    */
  lemma ChildrenSeeParents(ps: seq<Pipeline>, env: Env)
    requires Tidy(ps) && !Cyclic(RefGraph(Catalogue(ps)))
    ensures var rows := Rows(Catalogue(ps), Order(ps));
            ParentsBefore(rows) && Batch(ps, rows, env).jobs == ConfiguredJobs(rows, env, false)
  {
    OrderListsIds(ps);
    RowsAreListed(ps);
    ParentsFirstExactly(ps);
    ReferencesFirstRefs(Catalogue(ps), Order(ps));
    var rows := Rows(Catalogue(ps), Order(ps));
    RowIds(ps, Order(ps));
    RowsParentsBefore(ps, Order(ps));
    BatchFollows(ps, rows, env);
  }

  // ----- children of expanded parents

  /** A pipeline that cannot run at all: expanded, with no data type of its own and none of its parent. */
  predicate Barren(rows: seq<Pipeline>, j: nat)
    requires j < |rows| && ParentAt(rows, j)
  {
    && Expands(rows[j]) && rows[j].target.None?
    && rows[ParentPlace(rows, j)].target.None?
  }

  /**
    * The parent is not expanded, has no data type, or has that of the child with nothing between the two
    * that can run.
    */
  ghost predicate SeesParent(rows: seq<Pipeline>, n: nat)
    requires ParentsBefore(rows) && n < |rows|
  {
    Expands(rows[n]) ==>
      assert ParentAt(rows, n);
      var k := ParentPlace(rows, n);
      || !Expands(rows[k]) || rows[k].target.None?
      || (rows[k].target == rows[n].target && forall j: nat :: k < j < n ==> Idle(rows, j))
  }

  ghost predicate Idle(rows: seq<Pipeline>, j: nat)
    requires ParentsBefore(rows)
  {
    j < |rows| && ParentAt(rows, j) && Barren(rows, j)
  }

  ghost predicate AllSeeParents(rows: seq<Pipeline>, n: nat)
    requires ParentsBefore(rows) && n <= |rows|
  {
    forall m :: 0 <= m < n ==> SeesParent(rows, m)
  }

  /** The executions after the first `n` pipelines. */
  ghost function JobsUpTo(rows: seq<Pipeline>, env: Env, nested: bool, n: nat): (jobs: seq<Job>)
    requires ParentsBefore(rows) && n <= |rows|
  {
    ParentsBeforePrefix(rows, n);
    ConfiguredJobs(rows[..n], env, nested)
  }

  /** The records the n-th pipeline is expanded over. */
  ghost function RecordsAt(rows: seq<Pipeline>, env: Env, nested: bool, n: nat): (r: seq<Record>)
    requires ParentsBefore(rows) && n < |rows|
  {
    ParentsBeforePrefix(rows, n);
    assert ParentAt(rows, n);
    ConfiguredRecords(rows[..n], rows[n], env, nested)
  }

  lemma JobsNext(rows: seq<Pipeline>, env: Env, nested: bool, n: nat)
    requires ParentsBefore(rows) && n < |rows|
    ensures JobsUpTo(rows, env, nested, n + 1) ==
            JobsUpTo(rows, env, nested, n) + JobsFor(rows[n], RecordsAt(rows, env, nested, n))
  {
    ParentsBeforePrefix(rows, n + 1);
    ParentsBeforePrefix(rows, n);
    var now := rows[..n + 1];
    assert now[..|now| - 1] == rows[..n] && now[|now| - 1] == rows[n];
  }

  /** The place of the parent. */
  function ParentPlace(rows: seq<Pipeline>, n: nat): (k: nat)
    requires n < |rows| && rows[n].parent.Some? && ParentAt(rows, n)
    ensures k < n && rows[k].id == rows[n].parent.value
  {
    Place(rows[..n], rows[n].parent.value)
  }

  lemma RecordsFromParent(rows: seq<Pipeline>, env: Env, nested: bool, n: nat)
    requires ParentsBefore(rows) && n < |rows| && rows[n].parent.Some? && ParentAt(rows, n)
    ensures var k := ParentPlace(rows, n);
            var own := OwnRecords(rows[n], JobsUpTo(rows, env, nested, n), env);
            var output := OwnRecords(rows[k], JobsUpTo(rows, env, nested, k + 1), env);
            RecordsAt(rows, env, nested, n) ==
            if (Expands(rows[k]) && !nested) || output == [] then own else output
  {
    var k := ParentPlace(rows, n);
    ParentsBeforePrefix(rows, n);
    ParentsBeforePrefix(rows, k + 1);
    assert rows[..n][..k + 1] == rows[..k + 1];
  }

  lemma IdleRuns(rows: seq<Pipeline>, env: Env, nested: bool, n: nat)
    requires ParentsBefore(rows) && n < |rows| && Idle(rows, n)
    ensures JobsFor(rows[n], RecordsAt(rows, env, nested, n)) == []
  {
    RecordsFromParent(rows, env, nested, n);
  }

  lemma IdleNext(rows: seq<Pipeline>, env: Env, nested: bool, n: nat)
    requires ParentsBefore(rows) && n < |rows| && Idle(rows, n)
    ensures JobsUpTo(rows, env, nested, n + 1) == JobsUpTo(rows, env, nested, n)
  {
    JobsNext(rows, env, nested, n);
    IdleRuns(rows, env, nested, n);
  }

  lemma {:induction false} NothingBetween(rows: seq<Pipeline>, env: Env, nested: bool, k: nat, n: nat)
    requires ParentsBefore(rows) && k < n <= |rows| && forall j: nat :: k < j < n ==> Idle(rows, j)
    ensures JobsUpTo(rows, env, nested, n) == JobsUpTo(rows, env, nested, k + 1)
    decreases n
  {
    if k + 1 < n {
      NothingBetween(rows, env, nested, k, n - 1);
      IdleNext(rows, env, nested, n - 1);
    }
  }

  ghost predicate SameAt(rows: seq<Pipeline>, env: Env, n: nat)
    requires ParentsBefore(rows) && n <= |rows|
  {
    JobsUpTo(rows, env, false, n) == JobsUpTo(rows, env, true, n)
  }

  ghost predicate SameUpTo(rows: seq<Pipeline>, env: Env, n: nat)
    requires ParentsBefore(rows) && n <= |rows|
  {
    forall m :: 0 <= m <= n ==> SameAt(rows, env, m)
  }

  lemma SameRecords(rows: seq<Pipeline>, env: Env, n: nat)
    requires ParentsBefore(rows) && n < |rows| && SeesParent(rows, n) && Expands(rows[n])
    requires SameUpTo(rows, env, n)
    ensures RecordsAt(rows, env, false, n) == RecordsAt(rows, env, true, n)
  {
    assert ParentAt(rows, n);
    RecordsFromParent(rows, env, false, n);
    RecordsFromParent(rows, env, true, n);
    var k := ParentPlace(rows, n);
    assert SameAt(rows, env, k + 1) && SameAt(rows, env, n);
    if Expands(rows[k]) && rows[k].target.Some? {
      NothingBetween(rows, env, true, k, n);
    }
  }

  lemma SameNext(rows: seq<Pipeline>, env: Env, n: nat)
    requires ParentsBefore(rows) && n < |rows| && SeesParent(rows, n) && SameUpTo(rows, env, n)
    ensures SameAt(rows, env, n + 1)
  {
    assert SameAt(rows, env, n);
    JobsNext(rows, env, false, n);
    JobsNext(rows, env, true, n);
    if Expands(rows[n]) {
      SameRecords(rows, env, n);
    }
    assert JobsFor(rows[n], RecordsAt(rows, env, false, n)) == JobsFor(rows[n], RecordsAt(rows, env, true, n));
  }

  lemma {:induction false} SameJobs(rows: seq<Pipeline>, env: Env, n: nat)
    requires ParentsBefore(rows) && n <= |rows| && AllSeeParents(rows, n)
    ensures SameUpTo(rows, env, n) && SameAt(rows, env, n)
    decreases n
  {
    if n > 0 {
      SameJobs(rows, env, n - 1);
      assert SeesParent(rows, n - 1);
      SameNext(rows, env, n - 1);
    } else {
      assert JobsUpTo(rows, env, false, 0) == JobsUpTo(rows, env, true, 0);
    }
  }

  /** Surroundings where every data type holds one record, which tells the type and the number of executions. */
  function Telling(): (env: Env) {
    Env((job: Job) => Result(0, 0), (id: Id, jobs: seq<Job>) => [map[id := seq(|jobs|, _ => '1')]])
  }

  lemma Differ(id: Id, jobs: seq<Job>, id2: Id, jobs2: seq<Job>)
    requires id != id2 || |jobs| != |jobs2|
    ensures Telling().query(id, jobs) != Telling().query(id2, jobs2)
  {
    var r, r2 := Telling().query(id, jobs)[0], Telling().query(id2, jobs2)[0];
    assert id in r && id2 in r2;
    assert |r[id]| == |jobs| && |r2[id2]| == |jobs2|;
  }

  /** There, a pipeline that sees its parent and is not barren runs. */
  lemma SomeJobs(rows: seq<Pipeline>, n: nat)
    requires ParentsBefore(rows) && n < |rows| && SeesParent(rows, n) && !Idle(rows, n)
    ensures |JobsUpTo(rows, Telling(), true, n + 1)| > |JobsUpTo(rows, Telling(), true, n)|
  {
    JobsNext(rows, Telling(), true, n);
    assert ParentAt(rows, n);
    if rows[n].parent.Some? {
      RecordsFromParent(rows, Telling(), true, n);
    }
  }

  lemma NoFewerJobs(rows: seq<Pipeline>, n: nat)
    requires ParentsBefore(rows) && n < |rows|
    ensures |JobsUpTo(rows, Telling(), true, n)| <= |JobsUpTo(rows, Telling(), true, n + 1)|
  {
    JobsNext(rows, Telling(), true, n);
  }

  lemma {:induction false} MoreJobs(rows: seq<Pipeline>, k: nat, n: nat)
    requires ParentsBefore(rows) && k <= n <= |rows|
    ensures |JobsUpTo(rows, Telling(), true, k)| <= |JobsUpTo(rows, Telling(), true, n)|
    decreases n - k
  {
    if k < n {
      NoFewerJobs(rows, k);
      MoreJobs(rows, k + 1, n);
    }
  }

  /** There, a pipeline between the child and its parent that can run makes a difference in time. */
  lemma TimePasses(rows: seq<Pipeline>, k: nat, j: nat, n: nat)
    requires ParentsBefore(rows) && k < j < n <= |rows| && SeesParent(rows, j) && !Idle(rows, j)
    ensures |JobsUpTo(rows, Telling(), true, k + 1)| < |JobsUpTo(rows, Telling(), true, n)|
  {
    MoreJobs(rows, k + 1, j);
    SomeJobs(rows, j);
    MoreJobs(rows, j + 1, n);
  }

  /** A child that does not see its parent: the parent is expanded and has a data type. */
  lemma Missed(rows: seq<Pipeline>, n: nat) returns (k: nat)
    requires ParentsBefore(rows) && n < |rows| && !SeesParent(rows, n)
    ensures Expands(rows[n]) && ParentAt(rows, n) && k == ParentPlace(rows, n)
    ensures Expands(rows[k]) && rows[k].target.Some?
    ensures rows[k].target == rows[n].target ==> exists j: nat :: k < j < n && !Idle(rows, j)
  {
    assert ParentAt(rows, n);
    k := ParentPlace(rows, n);
  }

  lemma MissedSides(rows: seq<Pipeline>, n: nat, k: nat)
    requires ParentsBefore(rows) && n < |rows| && Expands(rows[n]) && ParentAt(rows, n) && k == ParentPlace(rows, n)
    requires Expands(rows[k]) && rows[k].target.Some? && SameAt(rows, Telling(), n)
    ensures RecordsAt(rows, Telling(), true, n) ==
            Telling().query(rows[k].target.value, JobsUpTo(rows, Telling(), true, k + 1))
    ensures RecordsAt(rows, Telling(), false, n) ==
            OwnRecords(rows[n], JobsUpTo(rows, Telling(), true, n), Telling())
  {
    var own := OwnRecords(rows[n], JobsUpTo(rows, Telling(), false, n), Telling());
    assert RecordsAt(rows, Telling(), false, n) == own by {
      RecordsFromParent(rows, Telling(), false, n);
    }
    assert RecordsAt(rows, Telling(), true, n) ==
           Telling().query(rows[k].target.value, JobsUpTo(rows, Telling(), true, k + 1)) by {
      RecordsFromParent(rows, Telling(), true, n);
    }
  }

  lemma OwnDiffers(p: Pipeline, jobs: seq<Job>, id: Id, left: seq<Job>)
    requires p.target == Some(id) ==> |left| < |jobs|
    ensures Telling().query(id, left) != OwnRecords(p, jobs, Telling())
  {
    if p.target.Some? {
      Differ(id, left, p.target.value, jobs);
    }
  }

  lemma MissedRecords(rows: seq<Pipeline>, n: nat)
    requires ParentsBefore(rows) && n < |rows| && AllSeeParents(rows, n) && !SeesParent(rows, n)
    requires SameAt(rows, Telling(), n)
    ensures RecordsAt(rows, Telling(), true, n) != RecordsAt(rows, Telling(), false, n)
  {
    var k := Missed(rows, n);
    MissedSides(rows, n, k);
    var left, before := JobsUpTo(rows, Telling(), true, k + 1), JobsUpTo(rows, Telling(), true, n);
    assert rows[n].target == rows[k].target ==> |left| < |before| by {
      if rows[n].target == rows[k].target {
        var j: nat :| k < j < n && !Idle(rows, j);
        assert SeesParent(rows, j);
        TimePasses(rows, k, j, n);
      }
    }
    OwnDiffers(rows[n], before, rows[k].target.value, left);
  }

  /** There, the first child that does not see its parent runs over other records than its parent left. */
  lemma FirstMiss(rows: seq<Pipeline>, n: nat)
    requires ParentsBefore(rows) && n < |rows| && AllSeeParents(rows, n) && !SeesParent(rows, n)
    ensures JobsUpTo(rows, Telling(), false, n + 1) != JobsUpTo(rows, Telling(), true, n + 1)
  {
    var env := Telling();
    SameJobs(rows, env, n);
    JobsNext(rows, env, false, n);
    JobsNext(rows, env, true, n);
    var k := Missed(rows, n);
    MissedRecords(rows, n);
    JobsTell(rows[n], RecordsAt(rows, env, true, n), RecordsAt(rows, env, false, n));
    SamePrefix(JobsUpTo(rows, env, true, n), JobsFor(rows[n], RecordsAt(rows, env, true, n)),
               JobsFor(rows[n], RecordsAt(rows, env, false, n)));
  }

  lemma SamePrefix(a: seq<Job>, b: seq<Job>, c: seq<Job>)
    requires b != c
    ensures a + b != a + c
  {
    assert (a + b)[|a|..] == b && (a + c)[|a|..] == c;
  }

  lemma JobsTell(p: Pipeline, r: seq<Record>, r2: seq<Record>)
    requires Expands(p) && r != r2
    ensures JobsFor(p, r) != JobsFor(p, r2)
  {
    if |r| == |r2| {
      var i :| 0 <= i < |r| && r[i] != r2[i];
      assert JobsFor(p, r)[i].record != JobsFor(p, r2)[i].record;
    }
  }

  /** The batch, wherever it is stopped, has executed what is configured if expanded parents count too. */
  ghost predicate NestedHolds(ps: seq<Pipeline>, rows: seq<Pipeline>)
    requires ParentsBefore(rows)
  {
    forall env, n :: 0 <= n <= |rows| ==> Batch(ps, rows[..n], env).jobs == JobsUpTo(rows, env, true, n)
  }

  lemma BatchUpTo(ps: seq<Pipeline>, rows: seq<Pipeline>, env: Env, n: nat)
    requires ParentsBefore(rows) && Distinct(Ids(rows)) && Known(rows, ps) && n <= |rows|
    ensures Batch(ps, rows[..n], env).jobs == JobsUpTo(rows, env, false, n)
  {
    ParentsBeforePrefix(rows, n);
    assert Ids(rows[..n]) == Ids(rows)[..n];
    BatchFollows(ps, rows[..n], env);
  }

  lemma {:induction false} FirstOf(rows: seq<Pipeline>, n: nat) returns (m: nat)
    requires ParentsBefore(rows) && n <= |rows| && !AllSeeParents(rows, n)
    ensures m < n && AllSeeParents(rows, m) && !SeesParent(rows, m)
    decreases n
  {
    if AllSeeParents(rows, n - 1) {
      m := n - 1;
    } else {
      m := FirstOf(rows, n - 1);
    }
  }

  lemma NestedRows(ps: seq<Pipeline>, rows: seq<Pipeline>)
    requires ParentsBefore(rows) && Distinct(Ids(rows)) && Known(rows, ps)
    ensures NestedHolds(ps, rows) <==> AllSeeParents(rows, |rows|)
  {
    if AllSeeParents(rows, |rows|) {
      forall env, n | 0 <= n <= |rows|
        ensures Batch(ps, rows[..n], env).jobs == JobsUpTo(rows, env, true, n)
      {
        BatchUpTo(ps, rows, env, n);
        SameJobs(rows, env, |rows|);
        assert SameAt(rows, env, n);
      }
    } else {
      var m := FirstOf(rows, |rows|);
      FirstMiss(rows, m);
      BatchUpTo(ps, rows, Telling(), m + 1);
    }
  }

  /**
    * On acyclic tidy input, every expanded child runs over what its parent left, whatever the
    * surroundings and wherever the batch is stopped, if and only if every child sees its parent.
    */
  lemma NestedExactly(ps: seq<Pipeline>)
    requires Tidy(ps) && !Cyclic(RefGraph(Catalogue(ps)))
    ensures var rows := Rows(Catalogue(ps), Order(ps));
            ParentsBefore(rows) && (NestedHolds(ps, rows) <==> AllSeeParents(rows, |rows|))
  {
    OrderListsIds(ps);
    RowsAreListed(ps);
    ParentsFirstExactly(ps);
    ReferencesFirstRefs(Catalogue(ps), Order(ps));
    RowIds(ps, Order(ps));
    RowsParentsBefore(ps, Order(ps));
    NestedRows(ps, Rows(Catalogue(ps), Order(ps)));
  }

  // Three levels: b is expanded over a and fills data type y; c is expanded over b and has no data type.

  const LEVEL_A := Pipeline("a", None, [], Some("x"), false)
  const LEVEL_B := Pipeline("b", Some("a"), [], Some("y"), true)
  const LEVEL_C := Pipeline("c", Some("b"), [], None, true)
  const LEVELS := [LEVEL_A, LEVEL_B, LEVEL_C]

  lemma LevelsTidy()
    ensures Tidy(LEVELS) && ParentsBefore(LEVELS) && ParentAt(LEVELS, 2)
    ensures ParentPlace(LEVELS, 2) == 1
  {
    var rows := LEVELS;
    assert Ids(rows) == ["a", "b", "c"] && Ids(rows[..1]) == ["a"] && Ids(rows[..2]) == ["a", "b"];
    assert Refs(LEVEL_A) == [] && Refs(LEVEL_B) == ["a"] && Refs(LEVEL_C) == ["b"];
    assert Ids(rows)[0] == "a" && Ids(rows)[1] == "b";
    assert ParentAt(rows, 0) && ParentAt(rows, 1) && ParentAt(rows, 2);
  }

  lemma LevelsListed()
    ensures RefsFirst(Catalogue(LEVELS), ["a", "b", "c"])
  {
    var m, order := Catalogue(LEVELS), ["a", "b", "c"];
    LevelsFound();
    assert order[..1] == ["a"] && order[..2] == ["a", "b"];
    assert Refs(LEVEL_A) == [] && Refs(LEVEL_B) == ["a"] && Refs(LEVEL_C) == ["b"];
  }

  lemma LevelsAcyclic()
    ensures !Cyclic(RefGraph(Catalogue(LEVELS)))
  {
    LevelsListed();
    RefsFirstDeps(Catalogue(LEVELS), ["a", "b", "c"]);
    assert Catalogue(LEVELS).Keys == {"a", "b", "c"} by {
      LevelsFound();
    }
    OrderedHasNoCycle(RefGraph(Catalogue(LEVELS)), ["a", "b", "c"]);
  }

  lemma LevelsFound()
    ensures var m := Catalogue(LEVELS);
            && m.Keys == {"a", "b", "c"}
            && Lookup(m, "a") == LEVEL_A && Lookup(m, "b") == LEVEL_B && Lookup(m, "c") == LEVEL_C
  {
    LevelsTidy();
    CatalogueFinds(LEVELS, 0);
    CatalogueFinds(LEVELS, 1);
    CatalogueFinds(LEVELS, 2);
  }

  lemma ThreeInOrder(order: seq<Id>, i: nat, j: nat, k: nat)
    requires Distinct(order) && Elems(order) == {"a", "b", "c"}
    requires i < j < k < |order| && order[i] == "a" && order[j] == "b" && order[k] == "c"
    ensures order == ["a", "b", "c"]
  {
    DistinctSize(order);
    assert |{"a", "b", "c"}| == 3;
    assert |order| == 3;
  }

  lemma LevelsOrder(order: seq<Id>)
    requires Distinct(order) && Elems(order) == {"a", "b", "c"} && RefsFirst(Catalogue(LEVELS), order)
    ensures order == ["a", "b", "c"]
  {
    var m := Catalogue(LEVELS);
    LevelsFound();
    assert "c" in Elems(order);
    var k :| 0 <= k < |order| && order[k] == "c";
    assert Refs(LEVEL_C)[0] == "b" && Refs(LEVEL_B)[0] == "a";
    assert "b" in order[..k];
    var j :| 0 <= j < k && order[j] == "b";
    assert "a" in order[..j];
    var i :| 0 <= i < j && order[i] == "a";
    ThreeInOrder(order, i, j, k);
  }

  lemma LevelsRefsFirst()
    ensures var order := Order(LEVELS);
            Distinct(order) && Elems(order) == {"a", "b", "c"} && RefsFirst(Catalogue(LEVELS), order)
  {
    LevelsTidy();
    LevelsAcyclic();
    OrderListsIds(LEVELS);
    ParentsFirstExactly(LEVELS);
    ReferencesFirstRefs(Catalogue(LEVELS), Order(LEVELS));
    assert Catalogue(LEVELS).Keys == {"a", "b", "c"} by {
      LevelsFound();
    }
  }

  /** The sort leaves the three levels as they are. */
  lemma LevelsSorted()
    ensures Rows(Catalogue(LEVELS), Order(LEVELS)) == LEVELS
  {
    assert Order(LEVELS) == ["a", "b", "c"] by {
      LevelsRefsFirst();
      LevelsOrder(Order(LEVELS));
    }
    LevelsRows();
  }

  lemma LevelsRows()
    ensures Rows(Catalogue(LEVELS), ["a", "b", "c"]) == LEVELS
  {
    LevelsFound();
  }

  lemma GrandchildRuns(env: Env)
    requires ParentsBefore(LEVELS)
    ensures JobsUpTo(LEVELS, env, false, 3) == JobsUpTo(LEVELS, env, false, 2)
    ensures RecordsAt(LEVELS, env, true, 2) == env.query("y", JobsUpTo(LEVELS, env, true, 2))
  {
    LevelsTidy();
    JobsNext(LEVELS, env, false, 2);
    RecordsFromParent(LEVELS, env, false, 2);
    RecordsFromParent(LEVELS, env, true, 2);
  }

  lemma LastRunsNothing(ps: seq<Pipeline>, rows: seq<Pipeline>, env: Env, n: nat)
    requires ParentsBefore(rows) && Distinct(Ids(rows)) && Known(rows, ps) && n + 1 == |rows|
    requires JobsUpTo(rows, env, false, n + 1) == JobsUpTo(rows, env, false, n)
    ensures Batch(ps, rows, env).jobs == Batch(ps, rows[..n], env).jobs
  {
    assert rows[..n + 1] == rows;
    BatchUpTo(ps, rows, env, n);
    BatchUpTo(ps, rows, env, n + 1);
  }

  /** The three levels are tidy and acyclic, and stand in the order the sort gives them. */
  ghost predicate WellSorted(rows: seq<Pipeline>) {
    Tidy(rows) && !Cyclic(RefGraph(Catalogue(rows))) && Rows(Catalogue(rows), Order(rows)) == rows
  }

  lemma LevelsWellSorted()
    ensures WellSorted(LEVELS)
  {
    LevelsTidy();
    LevelsAcyclic();
    LevelsSorted();
  }

  lemma GrandchildBatch(env: Env)
    ensures Batch(LEVELS, LEVELS, env).jobs == Batch(LEVELS, LEVELS[..2], env).jobs
  {
    LevelsTidy();
    GrandchildRuns(env);
    LastRunsNothing(LEVELS, LEVELS, env, 2);
  }

  /** Whatever y holds after b, c runs no job, though the configuration asks for one per record of y. */
  lemma GrandchildStarves(env: Env)
    ensures WellSorted(LEVELS) && ParentsBefore(LEVELS)
    ensures Batch(LEVELS, LEVELS, env).jobs == Batch(LEVELS, LEVELS[..2], env).jobs
    ensures RecordsAt(LEVELS, env, true, 2) == env.query("y", JobsUpTo(LEVELS, env, true, 2))
  {
    LevelsTidy();
    LevelsWellSorted();
    GrandchildBatch(env);
    GrandchildRuns(env);
  }

  // ----- the loop

  lemma TotalsMore(jobs: seq<Job>, job: Job, env: Env)
    ensures Processed(jobs + [job], env) == Processed(jobs, env) + env.execute(job).processed
    ensures FailedCount(jobs + [job], env) == FailedCount(jobs, env) + env.execute(job).failed
  {
    assert (jobs + [job])[..|jobs|] == jobs;
  }

  lemma BatchNext(ps: seq<Pipeline>, rows: seq<Pipeline>, i: nat, env: Env)
    requires i < |rows|
    ensures Batch(ps, rows[..i + 1], env) == RunOne(ps, rows[i], Batch(ps, rows[..i], env), env)
  {
    assert rows[..i + 1][..i] == rows[..i];
  }

  /** The loop has run the first `i` pipelines. */
  ghost predicate Stands(ps: seq<Pipeline>, rows: seq<Pipeline>, i: nat, s: Loop, env: Env) {
    i <= |rows| && s == Batch(ps, rows[..i], env)
  }

  predicate Counted(jobs: seq<Job>, total: int, failed: int, env: Env) {
    total == Processed(jobs, env) && failed == FailedCount(jobs, env)
  }

  /** The first `reached` pipelines are run, all of them unless the batch is cancelled there. */
  method RunRows(ps: seq<Pipeline>, rows: seq<Pipeline>, env: Env, cancelled: nat -> bool)
    returns (jobs: seq<Job>, total: int, failed: int, completed: bool, ghost reached: nat)
    ensures reached <= |rows| && jobs == Batch(ps, rows[..reached], env).jobs
    ensures Counted(jobs, total, failed, env)
    ensures completed <==> reached == |rows|
    ensures (reached < |rows| ==> cancelled(reached)) && forall i :: 0 <= i < reached ==> !cancelled(i)
  {
    var outputs: map<Id, seq<Record>> := map[];
    jobs, total, failed, reached := [], 0, 0, 0;
    completed := true;
    for i := 0 to |rows|
      invariant completed && reached == i && Stands(ps, rows, i, Loop(jobs, outputs), env)
      invariant Counted(jobs, total, failed, env)
      invariant forall k :: 0 <= k < i ==> !cancelled(k)
    {
      if cancelled(i) {
        completed := false;
        break;
      }
      jobs, outputs, total, failed := RunNext(ps, rows, i, jobs, outputs, total, failed, env);
      reached := i + 1;
    }
  }

  method RunNext(ps: seq<Pipeline>, rows: seq<Pipeline>, i: nat, before: seq<Job>, kept: map<Id, seq<Record>>,
                 total0: int, failed0: int, env: Env)
    returns (jobs: seq<Job>, outputs: map<Id, seq<Record>>, total: int, failed: int)
    requires i < |rows| && Stands(ps, rows, i, Loop(before, kept), env) && Counted(before, total0, failed0, env)
    ensures Stands(ps, rows, i + 1, Loop(jobs, outputs), env) && Counted(jobs, total, failed, env)
  {
    BatchNext(ps, rows, i, env);
    jobs, outputs, total, failed := RunPipeline(ps, rows[i], before, kept, total0, failed0, env);
  }

  /** What a child is expanded over: the kept output of its parent if there is any, else its own data type. */
  function RecordsFor(p: Pipeline, before: seq<Job>, kept: map<Id, seq<Record>>, env: Env): (r: seq<Record>) {
    if p.parent.Some? && p.parent.value in kept && kept[p.parent.value] != [] then kept[p.parent.value]
    else if p.target.Some? then env.query(p.target.value, before)
    else []
  }

  /** One execution for each record in turn, with its place and the record. */
  ghost predicate RanExpanded(p: Pipeline, records: seq<Record>, before: seq<Job>, jobs: seq<Job>) {
    && |jobs| == |before| + |records| && before <= jobs
    && forall i :: 0 <= i < |records| ==> jobs[|before| + i] == Job(p.id, Some(i), Some(records[i]))
  }

  /** One pipeline: expanded over its records, or run once and its output kept for its children. */
  method RunPipeline(ps: seq<Pipeline>, p: Pipeline, before: seq<Job>, kept: map<Id, seq<Record>>,
                     total0: int, failed0: int, env: Env)
    returns (jobs: seq<Job>, outputs: map<Id, seq<Record>>, total: int, failed: int)
    requires Counted(before, total0, failed0, env)
    ensures Loop(jobs, outputs) == RunOne(ps, p, Loop(before, kept), env)
    ensures Counted(jobs, total, failed, env)
    ensures if p.parent.Some? && p.perRecord
            then RanExpanded(p, RecordsFor(p, before, kept, env), before, jobs) && outputs == kept
            else
              && jobs == before + [Job(p.id, None, None)]
              && total == total0 + env.execute(Job(p.id, None, None)).processed
              && failed == failed0 + env.execute(Job(p.id, None, None)).failed
              && outputs ==
                 if p.target.Some? && (exists q :: q in ps && q.parent == Some(p.id))
                 then kept[p.id := env.query(p.target.value, jobs)]
                 else kept
  {
    outputs := kept;
    if Expands(p) {
      var records := ExpansionRecords(p, Loop(before, kept), env);
      jobs, total, failed := RunJobs(JobsFor(p, records), before, total0, failed0, env);
    } else {
      jobs, total, failed := RunJobs([Job(p.id, None, None)], before, total0, failed0, env);
      if HasChild(ps, p.id) && p.target.Some? {
        outputs := outputs[p.id := env.query(p.target.value, jobs)];
      }
    }
  }

  method RunJobs(todo: seq<Job>, before: seq<Job>, total0: int, failed0: int, env: Env)
    returns (jobs: seq<Job>, total: int, failed: int)
    requires Counted(before, total0, failed0, env)
    ensures jobs == before + todo && Counted(jobs, total, failed, env)
    ensures |todo| == 1 ==>
              && total == total0 + env.execute(todo[0]).processed
              && failed == failed0 + env.execute(todo[0]).failed
  {
    jobs, total, failed := before, total0, failed0;
    for k := 0 to |todo|
      invariant jobs == before + todo[..k] && Counted(jobs, total, failed, env)
      invariant k == 0 ==> total == total0 && failed == failed0
      invariant k == 1 ==> total == total0 + env.execute(todo[0]).processed
      invariant k == 1 ==> failed == failed0 + env.execute(todo[0]).failed
    {
      var result := env.execute(todo[k]);
      TotalsMore(jobs, todo[k], env);
      assert before + todo[..k] + [todo[k]] == before + todo[..k + 1];
      jobs := jobs + [todo[k]];
      total := total + result.processed;
      failed := failed + result.failed;
    }
    assert todo[..|todo|] == todo;
  }

  /** The execution is that of the pipeline: one without a record, or one for the record at its place. */
  predicate BelongsTo(job: Job, p: Pipeline) {
    && job.id == p.id
    && if p.parent.Some? && p.perRecord then job.index.Some? && job.record.Some?
       else job.index.None? && job.record.None?
  }

  /** The execution belongs to one of the pipelines. */
  ghost predicate Owned(job: Job, rows: seq<Pipeline>) {
    exists i :: 0 <= i < |rows| && BelongsTo(job, rows[i])
  }

  ghost predicate AllBelong(jobs: seq<Job>, rows: seq<Pipeline>) {
    forall k :: 0 <= k < |jobs| ==> Owned(jobs[k], rows)
  }

  lemma OwnedLonger(job: Job, rows: seq<Pipeline>, n: nat)
    requires n <= |rows| && Owned(job, rows[..n])
    ensures Owned(job, rows)
  {
    var i :| 0 <= i < n && BelongsTo(job, rows[..n][i]);
    assert BelongsTo(job, rows[i]);
  }

  lemma BelongLonger(jobs: seq<Job>, rows: seq<Pipeline>, n: nat)
    requires n <= |rows| && AllBelong(jobs, rows[..n])
    ensures AllBelong(jobs, rows)
  {
    forall k | 0 <= k < |jobs|
      ensures Owned(jobs[k], rows)
    {
      OwnedLonger(jobs[k], rows, n);
    }
  }

  lemma JobsBelong(p: Pipeline, records: seq<Record>, rows: seq<Pipeline>)
    requires p in rows
    ensures AllBelong(JobsFor(p, records), rows)
  {
    var i :| 0 <= i < |rows| && rows[i] == p;
    forall k | 0 <= k < |JobsFor(p, records)|
      ensures Owned(JobsFor(p, records)[k], rows)
    {
      assert BelongsTo(JobsFor(p, records)[k], rows[i]);
    }
  }

  /** Every execution of a batch belongs to one of its pipelines. */
  lemma {:induction false} BatchBelongs(ps: seq<Pipeline>, rows: seq<Pipeline>, env: Env)
    ensures AllBelong(Batch(ps, rows, env).jobs, rows)
  {
    if rows != [] {
      var n := |rows| - 1;
      var s := Batch(ps, rows[..n], env);
      BatchBelongs(ps, rows[..n], env);
      BelongLonger(s.jobs, rows, n);
      JobsBelong(rows[n], ExpansionRecords(rows[n], s, env), rows);
    }
  }

  /** A batch that is not cancelled runs the configured executions, each counted once, on tidy acyclic input. */
  method RunBatch(ps: seq<Pipeline>, env: Env, cancelled: nat -> bool)
    returns (jobs: seq<Job>, total: int, failed: int, completed: bool)
    ensures total == Processed(jobs, env) && failed == FailedCount(jobs, env)
    ensures completed <==> forall i :: 0 <= i < |Order(ps)| ==> !cancelled(i)
    ensures completed ==> jobs == Batch(ps, Rows(Catalogue(ps), Order(ps)), env).jobs
    ensures AllBelong(jobs, Rows(Catalogue(ps), Order(ps)))
    ensures completed && Tidy(ps) && !Cyclic(RefGraph(Catalogue(ps))) ==>
              var rows := Rows(Catalogue(ps), Order(ps));
              ParentsBefore(rows) && jobs == ConfiguredJobs(rows, env, false)
  {
    var rows := SortByHierarchy(ps);
    ghost var reached;
    jobs, total, failed, completed, reached := RunRows(ps, rows, env, cancelled);
    assert rows[..|rows|] == rows;
    BatchBelongs(ps, rows[..reached], env);
    BelongLonger(jobs, rows, reached);
    if Tidy(ps) && !Cyclic(RefGraph(Catalogue(ps))) {
      ChildrenSeeParents(ps, env);
    }
  }
}
