/** The executor of a pipeline group by dependency waves. */
module DagExecutor {
  import opened Options
  import opened Graph

  datatype Pipeline = Pipeline(id: Id, dependsOn: seq<Id>)

  /** The failure policy of the group; a missing policy is `NoPolicy`. */
  datatype Policy = NoPolicy | StopAll | Continue | Skip | Retry

  /** How a run ends: all waves run, cancelled, stopped by a failure, or nothing left that can run. */
  datatype Ending = Completed | Cancelled | Failed | Circular

  /** The outcome of one pipeline run: counts, if any were reported, and success. */
  datatype Outcome = Outcome(counts: Option<Counts>, ok: bool)
  datatype Counts = Counts(written: int, errors: int)

  /** What the surroundings do: the outcome of each run, and cancellation as seen before each wave. */
  datatype Env = Env(outcome: Id -> Outcome, cancelled: nat -> bool, policy: Policy) {
    predicate Succeeds(id: Id) {
      outcome(id).ok
    }

    predicate Stops() {
      policy.NoPolicy? || policy.StopAll?
    }
  }

  datatype Report = Report(waves: seq<set<Id>>, ending: Ending)

  /** The dependency graph of a list of pipelines; of two pipelines with one id the later one counts. */
  function Dependencies(ps: seq<Pipeline>): (g: Deps)
    ensures forall id :: id in g <==> exists i :: 0 <= i < |ps| && ps[i].id == id
  {
    if ps == [] then map[]
    else
      var last := ps[|ps| - 1];
      Dependencies(ps[..|ps| - 1])[last.id := set d | d in last.dependsOn]
  }

  /** The i-th pipeline is the last of its id. */
  ghost predicate LastOfId(ps: seq<Pipeline>, i: nat) {
    i < |ps| && forall j :: i < j < |ps| ==> ps[j].id != ps[i].id
  }

  /** Its entry in the graph holds exactly the members of its dependency list. */
  lemma {:induction false} DependenciesExactly(ps: seq<Pipeline>, i: nat)
    requires LastOfId(ps, i)
    ensures ps[i].id in Dependencies(ps)
    ensures forall d :: d in Dependencies(ps)[ps[i].id] <==> d in ps[i].dependsOn
  {
    if i < |ps| - 1 {
      DependenciesExactly(ps[..|ps| - 1], i);
    }
  }

  /** The pipelines whose dependencies are all completed. */
  function Ready(g: Deps, remaining: set<Id>, completed: set<Id>): (r: set<Id>)
    requires remaining <= g.Keys
  {
    set p | p in remaining && g[p] <= completed
  }

  function Succeeding(env: Env, s: set<Id>): (r: set<Id>) {
    set p | p in s && env.Succeeds(p)
  }

  /** The waves from wave number `k` on. */
  function Waves(g: Deps, env: Env, k: nat, remaining: set<Id>, completed: set<Id>): (r: Report)
    requires remaining <= g.Keys
    decreases remaining
  {
    var toRun := Ready(g, remaining, completed);
    if remaining == {} then Report([], Completed)
    else if env.cancelled(k) then Report([], Cancelled)
    else if toRun == {} then Report([], Circular)
    else if env.Stops() && Succeeding(env, toRun) != toRun then Report([toRun], Failed)
    else
      var rest := Waves(g, env, k + 1, remaining - toRun, completed + Succeeding(env, toRun));
      Report([toRun] + rest.waves, rest.ending)
  }

  function Run(g: Deps, env: Env): (r: Report) {
    Waves(g, env, 0, g.Keys, {})
  }

  // ----- every run

  /** What holds of the waves from some point on, given what was still to run and what had succeeded. */
  ghost predicate Ordered(g: Deps, env: Env, waves: seq<set<Id>>, remaining: set<Id>, completed: set<Id>) {
    && (forall k, p :: 0 <= k < |waves| && p in waves[k] ==> p in remaining && p in g)
    && (forall j, k, p :: 0 <= j < k < |waves| && p in waves[j] ==> p !in waves[k])
    && (forall k, p, d :: 0 <= k < |waves| && p in waves[k] && Edge(g, p, d) ==>
          d in completed || Earlier(env, waves, k, d))
    && (forall k, p :: 0 < k < |waves| && p in waves[k] ==> LinksBack(g, waves[k - 1], p))
  }

  /** `d` ran with success in a wave before the k-th. */
  ghost predicate Earlier(env: Env, waves: seq<set<Id>>, k: int, d: Id) {
    exists j :: 0 <= j < k && j < |waves| && d in waves[j] && env.Succeeds(d)
  }

  /** `p` depends on something in the wave. */
  ghost predicate LinksBack(g: Deps, wave: set<Id>, p: Id) {
    exists d :: d in wave && Edge(g, p, d)
  }

  lemma EarlierLater(env: Env, first: set<Id>, rest: seq<set<Id>>, k: int, d: Id)
    requires 0 < k && (Earlier(env, rest, k - 1, d) || (d in first && env.Succeeds(d)))
    ensures Earlier(env, [first] + rest, k, d)
  {
    var waves := [first] + rest;
    if Earlier(env, rest, k - 1, d) {
      var j :| 0 <= j < k - 1 && j < |rest| && d in rest[j] && env.Succeeds(d);
      assert d in waves[j + 1];
    } else {
      assert d in waves[0];
    }
  }

  /** A wave put in front of ordered waves. */
  lemma OrderedCons(g: Deps, env: Env, rest: seq<set<Id>>, remaining: set<Id>, completed: set<Id>)
    requires remaining <= g.Keys
    requires var toRun := Ready(g, remaining, completed);
             Ordered(g, env, rest, remaining - toRun, completed + Succeeding(env, toRun))
             && (rest != [] ==> forall p :: p in rest[0] ==>
                   p in remaining - toRun && g[p] <= completed + Succeeding(env, toRun))
    ensures Ordered(g, env, [Ready(g, remaining, completed)] + rest, remaining, completed)
  {
    var toRun := Ready(g, remaining, completed);
    var waves := [toRun] + rest;
    assert forall k :: 1 <= k < |waves| ==> waves[k] == rest[k - 1];
    forall k, p, d | 0 <= k < |waves| && p in waves[k] && Edge(g, p, d)
      ensures d in completed || Earlier(env, waves, k, d)
    {
      if k > 0 && d !in completed {
        assert p in rest[k - 1];
        EarlierLater(env, toRun, rest, k, d);
      }
    }
    forall k, p | 0 < k < |waves| && p in waves[k]
      ensures LinksBack(g, waves[k - 1], p)
    {
      if k == 1 {
        assert p in rest[0];
        var d :| d in g[p] && d !in completed;
        assert d in toRun && Edge(g, p, d);
      } else {
        assert p in rest[k - 1];
      }
    }
  }

  lemma {:induction false} WavesOrdered(g: Deps, env: Env, k: nat, remaining: set<Id>, completed: set<Id>)
    requires remaining <= g.Keys
    ensures var waves := Waves(g, env, k, remaining, completed).waves;
            && Ordered(g, env, waves, remaining, completed)
            && (waves != [] ==> waves[0] == Ready(g, remaining, completed))
    decreases remaining
  {
    var toRun := Ready(g, remaining, completed);
    var r := Waves(g, env, k, remaining, completed);
    if r.waves == [] {
    } else if r == Report([toRun], Failed) {
      OrderedCons(g, env, [], remaining, completed);
      assert [toRun] + [] == [toRun];
    } else {
      var rest := Waves(g, env, k + 1, remaining - toRun, completed + Succeeding(env, toRun));
      WavesOrdered(g, env, k + 1, remaining - toRun, completed + Succeeding(env, toRun));
      OrderedCons(g, env, rest.waves, remaining, completed);
    }
  }

  /** The pipelines started in a run. */
  ghost function Started(waves: seq<set<Id>>): (s: set<Id>) {
    set k, p | 0 <= k < |waves| && p in waves[k] :: p
  }

  /**
    * In every run, whatever fails or cancels: a pipeline starts at most once, and only after each of
    * its dependencies succeeded in an earlier wave.
    */
  lemma StartsOnceAfterDependencies(g: Deps, env: Env)
    ensures var waves := Run(g, env).waves;
            && (forall j, k, p :: 0 <= j < k < |waves| && p in waves[j] ==> p !in waves[k])
            && (forall k, p, d :: 0 <= k < |waves| && p in waves[k] && Edge(g, p, d) ==> Earlier(env, waves, k, d))
  {
    WavesOrdered(g, env, 0, g.Keys, {});
  }

  /** Nothing downstream of a failure starts: whatever a started pipeline reaches has succeeded. */
  lemma {:induction false} UpstreamSucceeded(g: Deps, env: Env, path: seq<Id>, k: nat)
    requires IsPath(g, path) && k < |Run(g, env).waves| && path[0] in Run(g, env).waves[k]
    ensures forall i :: 0 < i < |path| ==> path[i] in Started(Run(g, env).waves) && env.Succeeds(path[i])
    ensures |path| <= k + 1
    decreases |path|
  {
    if |path| > 1 {
      var waves := Run(g, env).waves;
      StartsOnceAfterDependencies(g, env);
      assert Edge(g, path[0], path[1]);
      assert Earlier(env, waves, k, path[1]);
      var j :| 0 <= j < k && j < |waves| && path[1] in waves[j] && env.Succeeds(path[1]);
      PathSlice(g, path, 1, |path|);
      UpstreamSucceeded(g, env, path[1..], j);
      forall i | 0 < i < |path|
        ensures path[i] in Started(waves) && env.Succeeds(path[i])
      {
        if i > 1 {
          assert path[i] == path[1..][i - 1];
        }
      }
    }
  }

  lemma {:induction false} ChainBack(g: Deps, env: Env, k: nat, p: Id) returns (path: seq<Id>)
    requires k < |Run(g, env).waves| && p in Run(g, env).waves[k]
    ensures IsPath(g, path) && path[0] == p && |path| == k + 1
    decreases k
  {
    var waves := Run(g, env).waves;
    if k == 0 {
      path := [p];
    } else {
      WavesOrdered(g, env, 0, g.Keys, {});
      assert LinksBack(g, waves[k - 1], p);
      var d :| d in waves[k - 1] && Edge(g, p, d);
      var rest := ChainBack(g, env, k - 1, d);
      PathCons(g, p, rest);
      path := [p] + rest;
    }
  }

  /** In every run a started pipeline runs in the wave given by its longest dependency chain. */
  lemma WaveIsLongestChain(g: Deps, env: Env, k: nat, p: Id)
    requires k < |Run(g, env).waves| && p in Run(g, env).waves[k]
    ensures exists path :: IsPath(g, path) && path[0] == p && |path| == k + 1
    ensures forall path :: IsPath(g, path) && path[0] == p ==> |path| <= k + 1
  {
    var longest := ChainBack(g, env, k, p);
    forall path | IsPath(g, path) && path[0] == p
      ensures |path| <= k + 1
    {
      UpstreamSucceeded(g, env, path, k);
    }
  }

  // ----- how a run ends

  /** Why a pipeline can never run: a dependency in the set, not listed, or failing. */
  ghost predicate Hindered(g: Deps, env: Env, s: set<Id>, p: Id) {
    p in g && exists d :: d in g[p] && (d in s || d !in g || !env.Succeeds(d))
  }

  /** A nonempty set of pipelines that hold each other up, or wait for something that never completes. */
  ghost predicate Blocked(g: Deps, env: Env, s: set<Id>) {
    s != {} && forall p {:trigger Hindered(g, env, s, p)} :: p in s ==> Hindered(g, env, s, p)
  }

  lemma BlockedNotReady(g: Deps, env: Env, s: set<Id>, remaining: set<Id>, completed: set<Id>)
    requires remaining <= g.Keys && Blocked(g, env, s) && s <= remaining
    requires forall p :: p in completed ==> p in g && p !in remaining && env.Succeeds(p)
    ensures s !! Ready(g, remaining, completed)
  {
    forall p | p in s
      ensures p !in Ready(g, remaining, completed)
    {
      assert Hindered(g, env, s, p);
    }
  }

  lemma StuckIsBlocked(g: Deps, env: Env, remaining: set<Id>, completed: set<Id>)
    requires remaining <= g.Keys && remaining != {} && Ready(g, remaining, completed) == {}
    requires forall p :: p in g && p !in remaining && env.Succeeds(p) ==> p in completed
    ensures Blocked(g, env, remaining)
  {
    forall p | p in remaining
      ensures Hindered(g, env, remaining, p)
    {
      assert p !in Ready(g, remaining, completed);
      var d :| d in g[p] && d !in completed;
    }
  }

  /** Everything still to run is started or stuck. */
  ghost predicate Stuck(g: Deps, env: Env, remaining: set<Id>, waves: seq<set<Id>>, s: set<Id>) {
    s <= remaining && Blocked(g, env, s) && remaining <= Started(waves) + s
  }

  lemma StuckCons(g: Deps, env: Env, remaining: set<Id>, first: set<Id>, rest: seq<set<Id>>, s: set<Id>)
    requires Stuck(g, env, remaining - first, rest, s)
    ensures Stuck(g, env, remaining, [first] + rest, s)
  {
    StartedCons(first, rest);
    forall p | p in remaining
      ensures p in Started([first] + rest) + s
    {
      assert p in first || p in remaining - first;
    }
  }

  /** Completed are exactly the pipelines that ran with success. */
  ghost predicate Tracks(g: Deps, env: Env, remaining: set<Id>, completed: set<Id>) {
    remaining <= g.Keys && forall p :: p in completed <==> p in g && p !in remaining && env.Succeeds(p)
  }

  lemma TracksOn(g: Deps, env: Env, remaining: set<Id>, completed: set<Id>)
    requires Tracks(g, env, remaining, completed)
    ensures var toRun := Ready(g, remaining, completed);
            Tracks(g, env, remaining - toRun, completed + Succeeding(env, toRun))
  {
  }

  /** Not cancelled; if circular, all that is left is stuck; if completed, all was started. */
  ghost predicate Ended(g: Deps, env: Env, remaining: set<Id>, r: Report) {
    && r.ending != Cancelled
    && (r.ending == Circular ==> exists s :: Stuck(g, env, remaining, r.waves, s))
    && (r.ending == Completed ==> remaining <= Started(r.waves))
  }

  lemma EndedCons(g: Deps, env: Env, remaining: set<Id>, first: set<Id>, rest: Report)
    requires Ended(g, env, remaining - first, rest)
    ensures Ended(g, env, remaining, Report([first] + rest.waves, rest.ending))
  {
    StartedCons(first, rest.waves);
    if rest.ending == Circular {
      var s :| Stuck(g, env, remaining - first, rest.waves, s);
      StuckCons(g, env, remaining, first, rest.waves, s);
    }
    if rest.ending == Completed {
      forall p | p in remaining
        ensures p in first + Started(rest.waves)
      {
        assert p in first || p in remaining - first;
      }
    }
  }

  lemma {:induction false} WavesEnding(g: Deps, env: Env, k: nat, remaining: set<Id>, completed: set<Id>)
    requires Tracks(g, env, remaining, completed) && forall i :: !env.cancelled(i)
    ensures Ended(g, env, remaining, Waves(g, env, k, remaining, completed))
    decreases remaining
  {
    var toRun := Ready(g, remaining, completed);
    if remaining == {} {
    } else if toRun == {} {
      StuckIsBlocked(g, env, remaining, completed);
      assert Stuck(g, env, remaining, [], remaining);
    } else if !(env.Stops() && Succeeding(env, toRun) != toRun) {
      var next, done := remaining - toRun, completed + Succeeding(env, toRun);
      TracksOn(g, env, remaining, completed);
      WavesEnding(g, env, k + 1, next, done);
      EndedCons(g, env, remaining, toRun, Waves(g, env, k + 1, next, done));
    }
  }

  /** Nothing in a blocked set is ever started. */
  lemma {:induction false} WavesAvoid(g: Deps, env: Env, k: nat, remaining: set<Id>, completed: set<Id>, s: set<Id>)
    requires remaining <= g.Keys && Blocked(g, env, s) && s <= remaining
    requires forall p :: p in completed ==> p in g && p !in remaining && env.Succeeds(p)
    ensures s !! Started(Waves(g, env, k, remaining, completed).waves)
    decreases remaining
  {
    var toRun := Ready(g, remaining, completed);
    var r := Waves(g, env, k, remaining, completed);
    BlockedNotReady(g, env, s, remaining, completed);
    if r.waves != [] {
      if env.Stops() && Succeeding(env, toRun) != toRun {
        StartedCons(toRun, []);
        assert r.waves == [toRun] + [];
      } else {
        var rest := Waves(g, env, k + 1, remaining - toRun, completed + Succeeding(env, toRun));
        WavesAvoid(g, env, k + 1, remaining - toRun, completed + Succeeding(env, toRun), s);
        StartedCons(toRun, rest.waves);
      }
    }
  }

  /** A failing pipeline that nothing keeps from running. */
  ghost predicate Fails(g: Deps, env: Env, p: Id) {
    p in g && !env.Succeeds(p) && forall s :: s <= g.Keys && Blocked(g, env, s) ==> p !in s
  }

  lemma FailedExactly(g: Deps, env: Env)
    requires forall i :: !env.cancelled(i)
    ensures Run(g, env).ending == Failed <==> env.Stops() && exists p :: Fails(g, env, p)
  {
    var r := Run(g, env);
    if env.Stops() {
      StopsOnFailure(g, env);
      if r.ending == Failed {
        var p :| p in Started(r.waves) && !env.Succeeds(p);
        StartedFails(g, env, p);
      } else if exists p :: Fails(g, env, p) {
        var p :| Fails(g, env, p);
        UnstuckStarts(g, env, p);
      }
    } else {
      NeverStops(g, env, 0, g.Keys, {});
    }
  }

  lemma StartedFails(g: Deps, env: Env, p: Id)
    requires p in Started(Run(g, env).waves) && !env.Succeeds(p)
    ensures Fails(g, env, p)
  {
    WavesOrdered(g, env, 0, g.Keys, {});
    forall s | s <= g.Keys && Blocked(g, env, s)
      ensures p !in s
    {
      WavesAvoid(g, env, 0, g.Keys, {}, s);
    }
  }

  /** In a run that does not stop early, what is in no blocked set is started. */
  lemma UnstuckStarts(g: Deps, env: Env, p: Id)
    requires (forall i :: !env.cancelled(i)) && Run(g, env).ending != Failed && Fails(g, env, p)
    ensures p in Started(Run(g, env).waves)
  {
    WavesEnding(g, env, 0, g.Keys, {});
    var r := Run(g, env);
    if r.ending == Circular {
      var s :| Stuck(g, env, g.Keys, r.waves, s);
    }
  }

  lemma {:induction false} NeverStops(g: Deps, env: Env, k: nat, remaining: set<Id>, completed: set<Id>)
    requires remaining <= g.Keys && !env.Stops()
    ensures Waves(g, env, k, remaining, completed).ending != Failed
    decreases remaining
  {
    var toRun := Ready(g, remaining, completed);
    if remaining != {} && toRun != {} {
      NeverStops(g, env, k + 1, remaining - toRun, completed + Succeeding(env, toRun));
    }
  }

  /** The waves from number `k` on all started before a cancellation. */
  ghost predicate NotCancelled(env: Env, k: nat, n: nat) {
    forall j :: k <= j < k + n ==> !env.cancelled(j)
  }

  /** Cancelled means: not failed, cancelled before the next wave, and something left to start. */
  ghost predicate Interrupted(env: Env, k: nat, remaining: set<Id>, r: Report) {
    r.ending == Cancelled <==>
      r.ending != Failed && env.cancelled(k + |r.waves|) && !(remaining <= Started(r.waves))
  }

  lemma InterruptedCons(env: Env, k: nat, remaining: set<Id>, first: set<Id>, rest: Report)
    requires first <= remaining && Interrupted(env, k + 1, remaining - first, rest)
    ensures Interrupted(env, k, remaining, Report([first] + rest.waves, rest.ending))
  {
    StartedCons(first, rest.waves);
    assert remaining <= first + Started(rest.waves) <==> remaining - first <= Started(rest.waves) by {
      forall p | p in remaining
        ensures p in first || p in remaining - first
      {
      }
      assert remaining - first <= first + Started(rest.waves) ==> remaining - first <= Started(rest.waves);
    }
    assert k + 1 + |rest.waves| == k + |[first] + rest.waves|;
  }

  lemma {:induction false} WavesCancelled(g: Deps, env: Env, k: nat, remaining: set<Id>, completed: set<Id>)
    requires remaining <= g.Keys
    ensures var r := Waves(g, env, k, remaining, completed);
            NotCancelled(env, k, |r.waves|) && Interrupted(env, k, remaining, r)
    decreases remaining
  {
    var toRun := Ready(g, remaining, completed);
    if remaining == {} || env.cancelled(k) || toRun == {} {
      assert Started([]) == {};
    } else if !(env.Stops() && Succeeding(env, toRun) != toRun) {
      var next, done := remaining - toRun, completed + Succeeding(env, toRun);
      WavesCancelled(g, env, k + 1, next, done);
      InterruptedCons(env, k, remaining, toRun, Waves(g, env, k + 1, next, done));
    }
  }

  /**
    * In every run: no wave starts once the run is cancelled, and the run ends as cancelled if and only if,
    * without a failure that stops it, it is cancelled before the next wave with pipelines still not started.
    */
  lemma CancelledExactly(g: Deps, env: Env)
    ensures var r := Run(g, env);
            && (forall k :: 0 <= k < |r.waves| ==> !env.cancelled(k))
            && (r.ending == Cancelled <==>
                  r.ending != Failed && env.cancelled(|r.waves|) && !(g.Keys <= Started(r.waves)))
  {
    WavesCancelled(g, env, 0, g.Keys, {});
  }

  /** Some pipeline waits for one that is not listed or fails. */
  ghost predicate Waits(g: Deps, env: Env) {
    exists p, d :: Edge(g, p, d) && (d !in g || !env.Succeeds(d))
  }

  lemma BlockedBecause(g: Deps, env: Env, s: set<Id>)
    requires s <= g.Keys && Blocked(g, env, s) && !Waits(g, env)
    ensures Cyclic(g)
  {
    forall a | a in s
      ensures HasNext(g, s, a)
    {
      assert Hindered(g, env, s, a);
      var d :| d in g[a] && (d in s || d !in g || !env.Succeeds(d));
      assert Edge(g, a, d);
    }
    ClosedHasCycle(g, s);
  }

  /** A blocked set exists if and only if there is a cycle or a pipeline waits for a failing or missing one. */
  lemma BlockedExactly(g: Deps, env: Env)
    ensures (exists s :: s <= g.Keys && Blocked(g, env, s)) <==> Cyclic(g) || Waits(g, env)
  {
    if !Waits(g, env) {
      forall s | s <= g.Keys && Blocked(g, env, s)
        ensures Cyclic(g)
      {
        BlockedBecause(g, env, s);
      }
    } else {
      var p, d :| Edge(g, p, d) && (d !in g || !env.Succeeds(d));
      assert Hindered(g, env, {p}, p);
      assert Blocked(g, env, {p}) && {p} <= g.Keys;
    }
    if Cyclic(g) {
      var p :| IsCycle(g, p);
      var s := CycleIsClosed(g, p);
      forall a | a in s
        ensures Hindered(g, env, s, a)
      {
        assert HasNext(g, s, a);
      }
      assert Blocked(g, env, s);
    }
  }

  /**
    * The ending of every run nobody cancels, under every policy: failed if and only if the policy stops
    * on failures and a failing pipeline is in no blocked set; otherwise circular if and only if there is
    * a cycle or some pipeline waits for a failing or missing one; otherwise completed, with every pipeline
    * started.
    */
  lemma EndingExactly(g: Deps, env: Env)
    requires forall i :: !env.cancelled(i)
    ensures var r := Run(g, env);
            && (r.ending == Failed <==>
                  (env.policy == NoPolicy || env.policy == StopAll) && exists p :: Fails(g, env, p))
            && (r.ending == Circular <==> r.ending != Failed && (Cyclic(g) || Waits(g, env)))
            && (r.ending != Failed && r.ending != Circular ==> r.ending == Completed && Started(r.waves) == g.Keys)
  {
    var r := Run(g, env);
    FailedExactly(g, env);
    BlockedExactly(g, env);
    WavesEnding(g, env, 0, g.Keys, {});
    WavesOrdered(g, env, 0, g.Keys, {});
    if r.ending == Circular {
      var s :| Stuck(g, env, g.Keys, r.waves, s);
    }
    if exists s :: s <= g.Keys && Blocked(g, env, s) {
      var s :| s <= g.Keys && Blocked(g, env, s);
      WavesAvoid(g, env, 0, g.Keys, {}, s);
      assert !(s <= Started(r.waves));
    }
  }

  /** With every dependency listed and every run succeeding, circular means exactly a cycle. */
  lemma CircularMeansCycle(g: Deps, env: Env)
    requires forall i :: !env.cancelled(i)
    requires forall p :: p in g ==> env.Succeeds(p) && g[p] <= g.Keys
    ensures Run(g, env).ending == Circular <==> Cyclic(g)
    ensures !Cyclic(g) ==> Run(g, env).ending == Completed && Started(Run(g, env).waves) == g.Keys
  {
    EndingExactly(g, env);
    assert !Waits(g, env);
    assert forall p :: !Fails(g, env, p);
  }

  /** b depends on a, and a fails. */
  const CHAIN: Deps := map["a" := {}, "b" := {"a"}]

  function AFails(): (env: Env) {
    Env((id: Id) => Outcome(None, id != "a"), (k: nat) => false, Continue)
  }

  lemma ChainNotClosed(s: set<Id>)
    requires s != {} && s <= CHAIN.Keys
    ensures !Closed(CHAIN, s)
  {
    if "a" in s {
      assert !HasNext(CHAIN, s, "a");
    } else {
      assert "b" in s && !HasNext(CHAIN, s, "b");
    }
  }

  lemma ChainAcyclic()
    ensures !Cyclic(CHAIN)
  {
    if Cyclic(CHAIN) {
      var p :| IsCycle(CHAIN, p);
      var s := CycleIsClosed(CHAIN, p);
      ChainNotClosed(s);
    }
  }

  /** Under a policy that goes on, a pipeline behind a failed one ends the run as circular without a cycle. */
  lemma FailureLooksCircular()
    ensures Run(CHAIN, AFails()).ending == Circular && !Cyclic(CHAIN)
  {
    ChainAcyclic();
    EndingExactly(CHAIN, AFails());
    assert Edge(CHAIN, "b", "a") && !AFails().Succeeds("a");
  }

  lemma {:induction false} WavesStopped(g: Deps, env: Env, k: nat, remaining: set<Id>, completed: set<Id>)
    requires remaining <= g.Keys && env.Stops()
    ensures var r := Waves(g, env, k, remaining, completed);
            r.ending == Failed <==> exists p :: p in Started(r.waves) && !env.Succeeds(p)
    decreases remaining
  {
    var toRun := Ready(g, remaining, completed);
    var r := Waves(g, env, k, remaining, completed);
    if r.waves == [] {
    } else if r == Report([toRun], Failed) {
      StartedCons(toRun, []);
      assert [toRun] + [] == [toRun];
      if Succeeding(env, toRun) != toRun {
        assert exists p :: p in toRun && p !in Succeeding(env, toRun);
      } else {
        assert Waves(g, env, k + 1, remaining - toRun, completed + toRun).ending == Failed;
        WavesStopped(g, env, k + 1, remaining - toRun, completed + Succeeding(env, toRun));
        var rest := Waves(g, env, k + 1, remaining - toRun, completed + Succeeding(env, toRun));
        StartedCons(toRun, rest.waves);
      }
    } else {
      var rest := Waves(g, env, k + 1, remaining - toRun, completed + Succeeding(env, toRun));
      WavesStopped(g, env, k + 1, remaining - toRun, completed + Succeeding(env, toRun));
      StartedCons(toRun, rest.waves);
    }
  }

  lemma StartedCons(first: set<Id>, rest: seq<set<Id>>)
    ensures Started([first] + rest) == first + Started(rest)
  {
    var waves := [first] + rest;
    assert forall k :: 1 <= k < |waves| ==> waves[k] == rest[k - 1];
    forall p | p in first + Started(rest)
      ensures p in Started(waves)
    {
      if p in first {
        assert p in waves[0];
      } else {
        var k :| 0 <= k < |rest| && p in rest[k];
        assert p in waves[k + 1];
      }
    }
  }

  /** Under a stopping policy a run ends in failure if and only if a started pipeline failed. */
  lemma StopsOnFailure(g: Deps, env: Env)
    requires env.Stops()
    ensures Run(g, env).ending == Failed <==> exists p :: p in Started(Run(g, env).waves) && !env.Succeeds(p)
  {
    WavesStopped(g, env, 0, g.Keys, {});
  }

  // ----- the executor

  function Written(rs: seq<(Id, Counts)>): (n: int) {
    if rs == [] then 0 else Written(rs[..|rs| - 1]) + rs[|rs| - 1].1.written
  }

  function Errors(rs: seq<(Id, Counts)>): (n: int) {
    if rs == [] then 0 else Errors(rs[..|rs| - 1]) + rs[|rs| - 1].1.errors
  }

  /** The results of exactly the given runs, each once, in some order. */
  ghost predicate Recorded(env: Env, ran: set<Id>, rs: seq<(Id, Counts)>) {
    && (forall i, j :: 0 <= i < j < |rs| ==> rs[i].0 != rs[j].0)
    && (forall i :: 0 <= i < |rs| ==> rs[i].0 in ran && env.outcome(rs[i].0).counts == Some(rs[i].1))
    && (forall p :: p in ran && env.outcome(p).counts.Some? ==> HasResult(rs, p))
  }

  ghost predicate HasResult(rs: seq<(Id, Counts)>, p: Id) {
    exists i :: 0 <= i < |rs| && rs[i].0 == p
  }

  lemma RecordedMore(env: Env, ran: set<Id>, rs: seq<(Id, Counts)>, p: Id)
    requires Recorded(env, ran, rs) && p !in ran
    ensures env.outcome(p).counts.None? ==> Recorded(env, ran + {p}, rs)
    ensures env.outcome(p).counts.Some? ==> Recorded(env, ran + {p}, rs + [(p, env.outcome(p).counts.value)])
  {
    if env.outcome(p).counts.Some? {
      var more := rs + [(p, env.outcome(p).counts.value)];
      forall q | q in ran + {p} && env.outcome(q).counts.Some?
        ensures HasResult(more, q)
      {
        if q == p {
          assert more[|rs|].0 == p;
        } else {
          assert HasResult(rs, q);
          var i :| 0 <= i < |rs| && rs[i].0 == q;
          assert more[i].0 == q;
        }
      }
    }
  }

  lemma TotalsMore(base: seq<(Id, Counts)>, rs: seq<(Id, Counts)>, e: (Id, Counts))
    ensures Written(rs + [e]) == Written(rs) + e.1.written && Errors(rs + [e]) == Errors(rs) + e.1.errors
    ensures base + rs + [e] == base + (rs + [e])
  {
    assert (rs + [e])[..|rs|] == rs;
  }

  lemma SucceedingMore(env: Env, ran: set<Id>, id: Id)
    ensures Succeeding(env, ran + {id}) == Succeeding(env, ran) + if env.Succeeds(id) then {id} else {}
  {
  }

  /** The dependency was started in a wave before the k-th, and its run succeeded. */
  ghost predicate SucceededBefore(waves: seq<set<Id>>, env: Env, k: int, d: Id) {
    env.outcome(d).ok && exists j :: 0 <= j < k && j < |waves| && d in waves[j]
  }

  /** Whatever a started pipeline lists as a dependency succeeded in an earlier wave. */
  ghost predicate DependenciesFirst(ps: seq<Pipeline>, waves: seq<set<Id>>, env: Env) {
    forall k, i: nat, d :: 0 <= k < |waves| && LastOfId(ps, i) && ps[i].id in waves[k] && d in ps[i].dependsOn ==>
      SucceededBefore(waves, env, k, d)
  }

  lemma RunDependenciesFirst(ps: seq<Pipeline>, env: Env)
    ensures DependenciesFirst(ps, Run(Dependencies(ps), env).waves, env)
  {
    var g := Dependencies(ps);
    var waves := Run(g, env).waves;
    StartsOnceAfterDependencies(g, env);
    forall k, i: nat, d | 0 <= k < |waves| && LastOfId(ps, i) && ps[i].id in waves[k] && d in ps[i].dependsOn
      ensures SucceededBefore(waves, env, k, d)
    {
      DependenciesExactly(ps, i);
      assert Edge(g, ps[i].id, d);
      assert Earlier(env, waves, k, d);
    }
  }

  class GroupExecutor {
    var results: seq<(Id, Counts)>
    var totalRecords: int
    var failedRecords: int

    /** The results and totals are the given earlier ones plus exactly the runs of the given set. */
    ghost predicate Books(env: Env, ran: set<Id>, added: seq<(Id, Counts)>, base: (seq<(Id, Counts)>, int, int))
      reads this
    {
      && Recorded(env, ran, added)
      && results == base.0 + added
      && totalRecords == base.1 + Written(added)
      && failedRecords == base.2 + Errors(added)
    }

    method RunPipeline(id: Id, env: Env, ghost ran: set<Id>, ghost added: seq<(Id, Counts)>,
                       ghost base: (seq<(Id, Counts)>, int, int))
      returns (ok: bool, ghost more: seq<(Id, Counts)>)
      requires id !in ran && Books(env, ran, added, base)
      modifies this
      ensures ok == env.outcome(id).ok && Books(env, ran + {id}, more, base)
      ensures var counts := env.outcome(id).counts;
              if counts.None? then unchanged(this)
              else
                && results == old(results) + [(id, counts.value)]
                && totalRecords == old(totalRecords) + counts.value.written
                && failedRecords == old(failedRecords) + counts.value.errors
    {
      RecordedMore(env, ran, added, id);
      var o := env.outcome(id);
      more := added;
      if o.counts.Some? {
        var entry := (id, o.counts.value);
        more := added + [entry];
        TotalsMore(base.0, added, entry);
        results := results + [entry];
        totalRecords := totalRecords + entry.1.written;
        failedRecords := failedRecords + entry.1.errors;
      }
      ok := o.ok;
    }

    /** One wave: the runs report in any order. */
    method RunWave(toRun: set<Id>, env: Env, completed: set<Id>, ghost before: set<Id>,
                   ghost added: seq<(Id, Counts)>, ghost base: (seq<(Id, Counts)>, int, int))
      returns (now: set<Id>, failed: bool, ghost more: seq<(Id, Counts)>)
      requires toRun !! before && Books(env, before, added, base)
      modifies this
      ensures now == completed + Succeeding(env, toRun) && failed == (Succeeding(env, toRun) != toRun)
      ensures Books(env, before + toRun, more, base)
    {
      now, failed, more := completed, false, added;
      var todo := toRun;
      ghost var ran := {};
      while todo != {}
        invariant todo !! ran && toRun == todo + ran
        invariant now == completed + Succeeding(env, ran)
        invariant failed <==> Succeeding(env, ran) != ran
        invariant Books(env, before + ran, more, base)
        decreases todo
      {
        var id :| id in todo;
        var ok;
        ok, more := RunPipeline(id, env, before + ran, more, base);
        SucceedingMore(env, ran, id);
        assert before + ran + {id} == before + (ran + {id});
        todo, ran := todo - {id}, ran + {id};
        if ok {
          now := now + {id};
        } else {
          failed := true;
        }
      }
    }

    /**
      * The run follows `Run`; the results and totals grow by exactly the runs of the started
      * pipelines, each counted once.
      */
    method RunDAG(ps: seq<Pipeline>, env: Env)
      returns (ending: Ending, ghost waves: seq<set<Id>>, ghost added: seq<(Id, Counts)>)
      modifies this
      ensures Report(waves, ending) == Run(Dependencies(ps), env)
      ensures DependenciesFirst(ps, waves, env)
      ensures Books(env, Started(waves), added, (old(results), old(totalRecords), old(failedRecords)))
    {
      var g := Dependencies(ps);
      ghost var base := (results, totalRecords, failedRecords);
      ending, waves, added := RunWaves(g, env, base);
      RunDependenciesFirst(ps, env);
    }

    method RunWaves(g: Deps, env: Env, ghost base: (seq<(Id, Counts)>, int, int))
      returns (ending: Ending, ghost waves: seq<set<Id>>, ghost added: seq<(Id, Counts)>)
      requires Books(env, {}, [], base)
      modifies this
      ensures Report(waves, ending) == Run(g, env) && Books(env, Started(waves), added, base)
    {
      var remaining, completed, k := g.Keys, {}, 0;
      ghost var ran := {};
      waves, added := [], [];
      while remaining != {}
        invariant remaining <= g.Keys && ran == Started(waves) && ran !! remaining
        invariant Books(env, ran, added, base)
        invariant Run(g, env) == Prefixed(waves, Waves(g, env, k, remaining, completed))
        decreases remaining
      {
        if env.cancelled(k) {
          return Cancelled, waves, added;
        }
        var toRun := Ready(g, remaining, completed);
        if toRun == {} {
          return Circular, waves, added;
        }
        var now, failed;
        now, failed, added := RunWave(toRun, env, completed, ran, added, base);
        StartedSnoc(waves, toRun);
        ran := ran + toRun;
        if failed && env.Stops() {
          return Failed, waves + [toRun], added;
        }
        PrefixedStep(waves, toRun, Waves(g, env, k + 1, remaining - toRun, now));
        waves := waves + [toRun];
        remaining, completed, k := remaining - toRun, now, k + 1;
      }
      return Completed, waves, added;
    }
  }

  /** Waves already run, followed by a report of the rest. */
  ghost function Prefixed(waves: seq<set<Id>>, rest: Report): (r: Report)
    ensures rest.waves == [] ==> r == Report(waves, rest.ending)
  {
    Report(waves + rest.waves, rest.ending)
  }

  lemma PrefixedStep(waves: seq<set<Id>>, wave: set<Id>, rest: Report)
    ensures Prefixed(waves, Report([wave] + rest.waves, rest.ending)) == Prefixed(waves + [wave], rest)
  {
    assert waves + ([wave] + rest.waves) == waves + [wave] + rest.waves;
  }

  lemma StartedSnoc(waves: seq<set<Id>>, last: set<Id>)
    ensures Started(waves + [last]) == Started(waves) + last
  {
    var more := waves + [last];
    assert forall k :: 0 <= k < |waves| ==> more[k] == waves[k];
    forall p | p in Started(waves) + last
      ensures p in Started(more)
    {
      if p in last {
        assert p in more[|waves|];
      } else {
        var k :| 0 <= k < |waves| && p in waves[k];
        assert p in more[k];
      }
    }
  }
}
