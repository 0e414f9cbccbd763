/** The stage chain of a stream processor and its counters. */
module StageChain {
  import opened Graph

  datatype StageStats = StageStats(input: int, output: int, filtered: int, errors: int)

  type Table = map<string, StageStats>

  /** What one stage makes of a record. */
  datatype Result<R> = Failed | Dropped | Passed(record: R)

  type Stage<!R> = R -> Result<R>

  /** Counting one stage call; a name without statistics is ignored. */
  function Bump<R>(t: Table, name: string, v: Result<R>): (u: Table) {
    if name !in t then t
    else
      var s := t[name];
      t[name := StageStats(s.input + 1,
                           s.output + (if v.Passed? then 1 else 0),
                           s.filtered + (if v.Dropped? then 1 else 0),
                           s.errors + (if v.Failed? then 1 else 0))]
  }

  /** A record going through the stages: the statistics after, and what comes out. */
  function Traverse<R>(names: seq<string>, stages: seq<Stage<R>>, r: R, t: Table): (res: (Table, Result<R>))
    requires |names| == |stages|
    decreases names
  {
    if names == [] then (t, Passed(r))
    else
      var v := stages[0](r);
      var u := Bump(t, names[0], v);
      if v.Passed? then Traverse(names[1..], stages[1..], v.record, u) else (u, v)
  }

  datatype State = State(input: int, output: int, filtered: int, errors: int, stages: Table, sinkErrors: int)

  /** One record read from the source while running: `sinkOk` is what the sink will answer. */
  function Handle<R>(names: seq<string>, stages: seq<Stage<R>>, s: State, r: R, sinkOk: bool): (t: State)
    requires |names| == |stages|
  {
    var (u, v) := Traverse(names, stages, r, s.stages);
    var s1 := s.(input := s.input + 1, stages := u);
    match v
    case Failed => s1.(errors := s1.errors + 1)
    case Dropped => s1.(filtered := s1.filtered + 1)
    case Passed(_) =>
      if sinkOk then s1.(output := s1.output + 1)
      else s1.(errors := s1.errors + 1, sinkErrors := s1.sinkErrors + 1)
  }

  /** Records in turn; one that arrives while paused is drained and not counted. */
  datatype Arrival<R> = Arrival(record: R, sinkOk: bool, paused: bool)

  function After<R>(names: seq<string>, stages: seq<Stage<R>>, s: State, rs: seq<Arrival<R>>): (t: State)
    requires |names| == |stages|
    decreases rs
  {
    if rs == [] then s
    else if rs[0].paused then After(names, stages, s, rs[1..])
    else After(names, stages, Handle(names, stages, s, rs[0].record, rs[0].sinkOk), rs[1..])
  }

  // ----- the balance

  ghost predicate Covers(t: Table, names: seq<string>) {
    forall i :: 0 <= i < |names| ==> names[i] in t
  }

  /** Each stage takes in what the one before lets out, `feed` for the first, and every intake is accounted for. */
  ghost predicate Linked(names: seq<string>, t: Table, feed: int)
    requires Covers(t, names)
    decreases names
  {
    names == [] ||
    (&& t[names[0]].input == feed
     && t[names[0]].input == t[names[0]].output + t[names[0]].filtered + t[names[0]].errors
     && Linked(names[1..], t, t[names[0]].output))
  }

  /** What the last stage lets out. */
  ghost function Outflow(names: seq<string>, t: Table, feed: int): (n: int)
    requires Covers(t, names)
    decreases names
  {
    if names == [] then feed else Outflow(names[1..], t, t[names[0]].output)
  }

  ghost function SumFiltered(names: seq<string>, t: Table): (n: int)
    requires Covers(t, names)
  {
    if names == [] then 0 else t[names[0]].filtered + SumFiltered(names[1..], t)
  }

  ghost function SumErrors(names: seq<string>, t: Table): (n: int)
    requires Covers(t, names)
  {
    if names == [] then 0 else t[names[0]].errors + SumErrors(names[1..], t)
  }

  ghost predicate SameOn(names: seq<string>, t: Table, u: Table) {
    Covers(t, names) && Covers(u, names) && forall i :: 0 <= i < |names| ==> t[names[i]] == u[names[i]]
  }

  lemma {:induction false} Frame(names: seq<string>, t: Table, u: Table, feed: int)
    requires SameOn(names, t, u)
    ensures Linked(names, t, feed) <==> Linked(names, u, feed)
    ensures Outflow(names, t, feed) == Outflow(names, u, feed)
    ensures SumFiltered(names, t) == SumFiltered(names, u) && SumErrors(names, t) == SumErrors(names, u)
    decreases names
  {
    if names != [] {
      Frame(names[1..], t, u, t[names[0]].output);
    }
  }

  lemma {:induction false} TraverseTouches<R>(names: seq<string>, stages: seq<Stage<R>>, r: R, t: Table, other: string)
    requires |names| == |stages| && other !in names && other in t && Covers(t, names)
    ensures var u := Traverse(names, stages, r, t).0; other in u && u[other] == t[other] && t.Keys == u.Keys
    decreases names
  {
    if names != [] {
      var v := stages[0](r);
      if v.Passed? {
        TraverseTouches(names[1..], stages[1..], v.record, Bump(t, names[0], v), other);
      }
    }
  }

  lemma {:induction false} TraverseKeys<R>(names: seq<string>, stages: seq<Stage<R>>, r: R, t: Table)
    requires |names| == |stages| && Covers(t, names)
    ensures Traverse(names, stages, r, t).0.Keys == t.Keys
    decreases names
  {
    if names != [] {
      var v := stages[0](r);
      if v.Passed? {
        TraverseKeys(names[1..], stages[1..], v.record, Bump(t, names[0], v));
      }
    }
  }

  /** One record through the chain: the links hold for one more unit of feed, and what it became is counted once. */
  lemma {:induction false} TraverseLinks<R>(names: seq<string>, stages: seq<Stage<R>>, r: R, t: Table, feed: int)
    requires |names| == |stages| && Distinct(names) && Covers(t, names) && Linked(names, t, feed)
    ensures var (u, v) := Traverse(names, stages, r, t);
            && Covers(u, names) && Linked(names, u, feed + 1)
            && Outflow(names, u, feed + 1) == Outflow(names, t, feed) + (if v.Passed? then 1 else 0)
            && SumFiltered(names, u) == SumFiltered(names, t) + (if v.Dropped? then 1 else 0)
            && SumErrors(names, u) == SumErrors(names, t) + (if v.Failed? then 1 else 0)
    decreases names
  {
    TraverseKeys(names, stages, r, t);
    if names != [] {
      var v := stages[0](r);
      var first, rest := names[0], names[1..];
      var b := Bump(t, first, v);
      assert first !in rest;
      assert SameOn(rest, t, b);
      Frame(rest, t, b, t[first].output);
      if v.Passed? {
        TraverseLinks(rest, stages[1..], v.record, b, t[first].output);
        TraverseTouches(rest, stages[1..], v.record, b, first);
      }
    }
  }

  /** Every record read is written, filtered or failed. */
  predicate Accounted(s: State) {
    s.input == s.output + s.filtered + s.errors
  }

  /** Whatever the stages are called: before every record of every run the intake is accounted for. */
  lemma {:induction false} IntakeAccounted<R>(names: seq<string>, stages: seq<Stage<R>>, s: State, rs: seq<Arrival<R>>)
    requires |names| == |stages| && Accounted(s)
    ensures Accounted(After(names, stages, s, rs))
    decreases rs
  {
    if rs != [] {
      if rs[0].paused {
        IntakeAccounted(names, stages, s, rs[1..]);
      } else {
        IntakeAccounted(names, stages, Handle(names, stages, s, rs[0].record, rs[0].sinkOk), rs[1..]);
      }
    }
  }

  /** What the stage counters add up to. */
  ghost predicate Balanced(names: seq<string>, s: State) {
    && Covers(s.stages, names)
    && Linked(names, s.stages, s.input)
    && s.filtered == SumFiltered(names, s.stages)
    && s.errors == SumErrors(names, s.stages) + s.sinkErrors
    && s.output + s.sinkErrors == Outflow(names, s.stages, s.input)
  }

  lemma HandleBalances<R>(names: seq<string>, stages: seq<Stage<R>>, s: State, r: R, sinkOk: bool)
    requires |names| == |stages| && Distinct(names) && Balanced(names, s)
    ensures Balanced(names, Handle(names, stages, s, r, sinkOk))
  {
    TraverseLinks(names, stages, r, s.stages, s.input);
    var (u, v) := Traverse(names, stages, r, s.stages);
    var t := Handle(names, stages, s, r, sinkOk);
    assert t.stages == u && t.input == s.input + 1;
    assert Outflow(names, t.stages, t.input) == Outflow(names, s.stages, s.input) + if v.Passed? then 1 else 0;
  }

  /**
    * With distinct stage names, before every record of every run: each stage takes in what the one
    * before lets out; the filtered count is the sum over the stages, and so is the error count apart
    * from sink errors; what the last stage lets out is written or fails in the sink.
    */
  lemma {:induction false} CountersBalance<R>(names: seq<string>, stages: seq<Stage<R>>, s: State, rs: seq<Arrival<R>>)
    requires |names| == |stages| && Distinct(names) && Balanced(names, s)
    ensures Balanced(names, After(names, stages, s, rs))
    decreases rs
  {
    if rs != [] {
      if rs[0].paused {
        CountersBalance(names, stages, s, rs[1..]);
      } else {
        HandleBalances(names, stages, s, rs[0].record, rs[0].sinkOk);
        CountersBalance(names, stages, Handle(names, stages, s, rs[0].record, rs[0].sinkOk), rs[1..]);
      }
    }
  }

  /** How many records arrive while not paused. */
  function Unpaused<R>(rs: seq<Arrival<R>>): (n: nat) {
    if rs == [] then 0 else (if rs[0].paused then 0 else 1) + Unpaused(rs[1..])
  }

  /** The intake is the number of records that arrive while not paused; the others are drained. */
  lemma {:induction false} IntakeExactly<R>(names: seq<string>, stages: seq<Stage<R>>, s: State, rs: seq<Arrival<R>>)
    requires |names| == |stages|
    ensures After(names, stages, s, rs).input == s.input + Unpaused(rs)
    decreases rs
  {
    if rs != [] {
      if rs[0].paused {
        IntakeExactly(names, stages, s, rs[1..]);
      } else {
        IntakeExactly(names, stages, Handle(names, stages, s, rs[0].record, rs[0].sinkOk), rs[1..]);
      }
    }
  }

  const ZERO := StageStats(0, 0, 0, 0)

  function Fresh(names: seq<string>): (s: State) {
    State(0, 0, 0, 0, map name | name in names :: ZERO, 0)
  }

  lemma {:induction false} FreshLinks(names: seq<string>, t: Table)
    requires Covers(t, names) && forall i :: 0 <= i < |names| ==> t[names[i]] == ZERO
    ensures Linked(names, t, 0) && Outflow(names, t, 0) == 0 && SumFiltered(names, t) == 0 && SumErrors(names, t) == 0
  {
    if names != [] {
      FreshLinks(names[1..], t);
    }
  }

  lemma FreshBalances(names: seq<string>)
    ensures Balanced(names, Fresh(names))
  {
    FreshLinks(names, Fresh(names).stages);
  }

  // ----- repeated names

  /** The stage that lets everything through. */
  function PassAll<R>(): (f: Stage<R>) {
    (x: R) => Passed(x)
  }

  function AllPassing<R>(n: nat): (stages: seq<Stage<R>>)
    ensures |stages| == n && forall i :: 0 <= i < n ==> stages[i] == PassAll()
  {
    seq(n, i => PassAll())
  }

  /** Through an all-passing chain one record adds to each name as many units as it stands in the list. */
  lemma {:induction false} PassingCounts<R>(names: seq<string>, r: R, t: Table)
    requires Covers(t, names)
    ensures var (u, v) := Traverse(names, AllPassing<R>(|names|), r, t);
            && v == Passed(r) && u.Keys == t.Keys
            && forall name :: name in t ==>
                 && u[name].input == t[name].input + multiset(names)[name]
                 && u[name].output == t[name].output + multiset(names)[name]
    decreases names
  {
    if names != [] {
      var b := Bump(t, names[0], PassAll<R>()(r));
      PassingCounts(names[1..], r, b);
      assert AllPassing<R>(|names|)[1..] == AllPassing<R>(|names| - 1);
      assert names == [names[0]] + names[1..];
    }
  }

  lemma {:induction false} LinkedEvenly(names: seq<string>, t: Table, feed: int, i: nat)
    requires Covers(t, names) && Linked(names, t, feed) && i < |names|
    requires forall k :: 0 <= k < |names| ==> t[names[k]].input == t[names[k]].output
    ensures t[names[i]].input == feed
    decreases names
  {
    if i > 0 {
      LinkedEvenly(names[1..], t, t[names[0]].output, i - 1);
    }
  }

  lemma RepeatCounts(names: seq<string>, i: nat, j: nat)
    requires i < j < |names| && names[i] == names[j]
    ensures multiset(names)[names[i]] >= 2
  {
    assert names == names[..j] + names[j..];
    assert names[..j][i] == names[i] && names[j..][0] == names[i];
    assert multiset(names) == multiset(names[..j]) + multiset(names[j..]);
  }

  /** Two stages of one name share their counters: one record through an all-passing chain upsets the balance. */
  lemma SameNameMiscounts<R>(names: seq<string>, r: R)
    requires !Distinct(names)
    ensures !Balanced(names, After(names, AllPassing<R>(|names|), Fresh(names), [Arrival(r, true, false)]))
  {
    var stages, start := AllPassing<R>(|names|), Fresh(names);
    var s := Handle(names, stages, start, r, true);
    var rs := [Arrival(r, true, false)];
    assert After(names, stages, start, rs) == After(names, stages, s, rs[1..]) == s;
    PassingCounts(names, r, start.stages);
    var i: nat, j: nat :| i < j < |names| && names[i] == names[j];
    RepeatCounts(names, i, j);
    if Balanced(names, s) {
      LinkedEvenly(names, s.stages, 1, i);
    }
  }

  ghost predicate AlwaysBalanced<R(!new)>(names: seq<string>) {
    forall stages: seq<Stage<R>>, rs: seq<Arrival<R>> :: |stages| == |names| ==>
      Balanced(names, After(names, stages, Fresh(names), rs))
  }

  /** The stage counters balance in every run of every chain if and only if no two stages share a name. */
  lemma BalancedExactly<R(!new)>(names: seq<string>, r: R)
    ensures AlwaysBalanced<R>(names) <==> Distinct(names)
  {
    if Distinct(names) {
      forall stages: seq<Stage<R>>, rs: seq<Arrival<R>> | |stages| == |names|
        ensures Balanced(names, After(names, stages, Fresh(names), rs))
      {
        FreshBalances(names);
        CountersBalance(names, stages, Fresh(names), rs);
      }
    } else {
      SameNameMiscounts(names, r);
    }
  }

  class StreamProcessor<R> {
    const names: seq<string>
    const stages: seq<Stage<R>>
    var input: int
    var output: int
    var filtered: int
    var errors: int
    var stageStats: Table
    ghost var sinkErrors: int

    ghost function Now(): (s: State)
      reads this
    {
      State(input, output, filtered, errors, stageStats, sinkErrors)
    }

    constructor (names: seq<string>, stages: seq<Stage<R>>)
      requires |names| == |stages|
      ensures this.names == names && this.stages == stages && Now() == Fresh(names)
    {
      this.names, this.stages := names, stages;
      input, output, filtered, errors, sinkErrors := 0, 0, 0, 0, 0;
      stageStats := map name | name in names :: ZERO;
    }

    method ProcessRecord(r: R) returns (v: Result<R>)
      requires |names| == |stages|
      modifies this`stageStats
      ensures (stageStats, v) == Traverse(names, stages, r, old(stageStats))
    {
      var current := r;
      for i := 0 to |names|
        invariant Traverse(names, stages, r, old(stageStats)) == Traverse(names[i..], stages[i..], current, stageStats)
      {
        var res := stages[i](current);
        stageStats := Bump(stageStats, names[i], res);
        assert names[i..][1..] == names[i + 1..] && stages[i..][1..] == stages[i + 1..];
        if !res.Passed? {
          return res;
        }
        current := res.record;
      }
      return Passed(current);
    }

    method OnRecord(r: R, sinkOk: bool)
      requires |names| == |stages|
      modifies this
      ensures Now() == Handle(names, stages, old(Now()), r, sinkOk)
      ensures var v := Traverse(names, stages, r, old(stageStats)).1;
              && input == old(input) + 1
              && output == old(output) + (if v.Passed? && sinkOk then 1 else 0)
              && filtered == old(filtered) + (if v.Dropped? then 1 else 0)
              && errors == old(errors) + (if v.Failed? || (v.Passed? && !sinkOk) then 1 else 0)
    {
      input := input + 1;
      var v := ProcessRecord(r);
      match v
      case Failed => errors := errors + 1;
      case Dropped => filtered := filtered + 1;
      case Passed(_) =>
        if sinkOk {
          output := output + 1;
        } else {
          errors := errors + 1;
          sinkErrors := sinkErrors + 1;
        }
    }
  }
}
