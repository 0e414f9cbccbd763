/** The supervisor's restart limit over a sliding window of time. */
module Supervisor {
  import opened Options

  datatype Settings = Settings(maxRestarts: int, window: int)

  /** Settings as configured: values that are not positive fall back to 3 restarts in 60 seconds. */
  function Configured(maxRestarts: int, withinSeconds: int): (s: Settings)
    ensures s.maxRestarts > 0 && s.window > 0
    ensures (maxRestarts > 0 ==> s.maxRestarts == maxRestarts) && (maxRestarts <= 0 ==> s.maxRestarts == 3)
    ensures (withinSeconds > 0 ==> s.window == withinSeconds) && (withinSeconds <= 0 ==> s.window == 60)
  {
    Settings(if maxRestarts > 0 then maxRestarts else 3, if withinSeconds > 0 then withinSeconds else 60)
  }

  datatype Child = Child(restarts: seq<int>, count: int, last: Option<int>)

  datatype Decision = Restart | Stop

  /** The times after a point in time, in order. */
  function Since(ts: seq<int>, cut: int): (r: seq<int>) {
    if ts == [] then []
    else
      var front := Since(ts[..|ts| - 1], cut);
      if ts[|ts| - 1] > cut then front + [ts[|ts| - 1]] else front
  }

  /** What a failure at time `now` makes of a child, and the decision. */
  function OnFailure(cfg: Settings, c: Child, now: int): (r: (Child, Decision)) {
    var valid := Since(c.restarts, now - cfg.window);
    if |valid| >= cfg.maxRestarts then (c.(restarts := valid), Stop)
    else (Child(valid + [now], c.count + 1, Some(now)), Restart)
  }

  // ----- the run as steps

  /** Children, and for each the times of all restarts granted since it was added. */
  datatype State = State(children: map<string, Child>, grants: map<string, seq<int>>, clock: int)

  datatype Event = Add(name: string) | Remove(name: string) | Fail(name: string, at: int)

  const NEW_CHILD := Child([], 0, None)

  predicate Enabled(s: State, e: Event) {
    e.Fail? ==> s.clock <= e.at
  }

  function Decide(cfg: Settings, s: State, name: string, at: int): (d: Decision) {
    if name in s.children then OnFailure(cfg, s.children[name], at).1 else Stop
  }

  function Step(cfg: Settings, s: State, e: Event): (t: State) {
    match e
    case Add(name) => s.(children := s.children[name := NEW_CHILD], grants := s.grants[name := []])
    case Remove(name) => s.(children := s.children - {name}, grants := s.grants - {name})
    case Fail(name, at) =>
      if name !in s.children || name !in s.grants then s.(clock := at)
      else
        var (c, d) := OnFailure(cfg, s.children[name], at);
        var g := s.grants[name];
        State(s.children[name := c], s.grants[name := if d.Restart? then g + [at] else g], at)
  }

  predicate Runs(cfg: Settings, s: State, es: seq<Event>)
    decreases es
  {
    es == [] || (Enabled(s, es[0]) && Runs(cfg, Step(cfg, s, es[0]), es[1..]))
  }

  function After(cfg: Settings, s: State, es: seq<Event>): (t: State)
    decreases es
  {
    if es == [] then s else After(cfg, Step(cfg, s, es[0]), es[1..])
  }

  // ----- filtering times

  lemma {:induction false} SinceTwice(ts: seq<int>, a: int, b: int)
    requires a <= b
    ensures Since(Since(ts, a), b) == Since(ts, b)
  {
    if ts != [] {
      var front, last := Since(ts[..|ts| - 1], a), ts[|ts| - 1];
      SinceTwice(ts[..|ts| - 1], a, b);
      assert (front + [last])[..|front|] == front;
    }
  }

  lemma SinceSnoc(ts: seq<int>, t: int, cut: int)
    ensures Since(ts + [t], cut) == Since(ts, cut) + if t > cut then [t] else []
  {
    assert (ts + [t])[..|ts|] == ts;
  }

  // ----- what every run keeps

  predicate Ascending(ts: seq<int>, clock: int) {
    && (forall i, j :: 0 <= i < j < |ts| ==> ts[i] <= ts[j])
    && (forall i :: 0 <= i < |ts| ==> ts[i] <= clock)
  }

  /** The restart `maxRestarts` places later comes at least a window later. */
  ghost predicate Spaced(cfg: Settings, ts: seq<int>) {
    forall i, j :: 0 <= i < j < |ts| && j == i + cfg.maxRestarts ==> ts[j] - ts[i] >= cfg.window
  }

  /** The pruned list answers every later question about the window as the full history does. */
  ghost predicate SameAnswers(cfg: Settings, c: Child, g: seq<int>, clock: int) {
    forall cut :: cut >= clock - cfg.window ==> SameSince(c.restarts, g, cut)
  }

  ghost predicate SameSince(ts: seq<int>, us: seq<int>, cut: int) {
    Since(ts, cut) == Since(us, cut)
  }

  ghost predicate Sound(cfg: Settings, c: Child, g: seq<int>, clock: int) {
    && c.count == |g| && (c.last == if g == [] then None else Some(g[|g| - 1]))
    && Ascending(g, clock) && Spaced(cfg, g) && SameAnswers(cfg, c, g, clock)
  }

  ghost predicate Inv(cfg: Settings, s: State) {
    && s.children.Keys == s.grants.Keys
    && forall name :: name in s.children ==> Sound(cfg, s.children[name], s.grants[name], s.clock)
  }

  lemma SoundLater(cfg: Settings, c: Child, g: seq<int>, clock: int, now: int)
    requires Sound(cfg, c, g, clock) && clock <= now
    ensures Sound(cfg, c, g, now)
  {
  }

  lemma SoundPruned(cfg: Settings, c: Child, g: seq<int>, now: int)
    requires Sound(cfg, c, g, now)
    ensures Sound(cfg, c.(restarts := Since(c.restarts, now - cfg.window)), g, now)
  {
    var pruned := Since(c.restarts, now - cfg.window);
    forall cut | cut >= now - cfg.window
      ensures SameSince(pruned, g, cut)
    {
      assert SameSince(c.restarts, g, cut);
      SinceTwice(c.restarts, now - cfg.window, cut);
    }
  }

  lemma {:induction false} SinceNone(ts: seq<int>, cut: int)
    requires forall i :: 0 <= i < |ts| ==> ts[i] <= cut
    ensures Since(ts, cut) == []
  {
    if ts != [] {
      SinceNone(ts[..|ts| - 1], cut);
    }
  }

  /** Of ascending times at least `n` lie after the cut exactly when the n-th from the end does. */
  lemma {:induction false} SinceExactly(ts: seq<int>, clock: int, cut: int, n: int)
    requires Ascending(ts, clock) && n > 0
    ensures |Since(ts, cut)| >= n <==> |ts| >= n && ts[|ts| - n] > cut
    decreases |ts|
  {
    if ts != [] {
      var front := ts[..|ts| - 1];
      if ts[|ts| - 1] <= cut {
        SinceNone(ts, cut);
      } else if n > 1 {
        SinceExactly(front, clock, cut, n - 1);
      }
    }
  }

  lemma SpacedMore(cfg: Settings, g: seq<int>, now: int)
    requires cfg.maxRestarts > 0 && Spaced(cfg, g)
    requires |g| >= cfg.maxRestarts ==> now - g[|g| - cfg.maxRestarts] >= cfg.window
    ensures Spaced(cfg, g + [now])
  {
  }

  lemma GrantSpaced(cfg: Settings, g: seq<int>, now: int)
    requires cfg.maxRestarts > 0 && Ascending(g, now) && Spaced(cfg, g)
    requires |Since(g, now - cfg.window)| < cfg.maxRestarts
    ensures Ascending(g + [now], now) && Spaced(cfg, g + [now])
  {
    SinceExactly(g, now, now - cfg.window, cfg.maxRestarts);
    SpacedMore(cfg, g, now);
  }

  lemma GrantedSince(ts: seq<int>, g: seq<int>, start: int, now: int, cut: int)
    requires start <= cut && SameSince(ts, g, cut)
    ensures SameSince(Since(ts, start) + [now], g + [now], cut)
  {
    SinceTwice(ts, start, cut);
    SinceSnoc(Since(ts, start), now, cut);
    SinceSnoc(g, now, cut);
  }

  lemma AnswersAfterGrant(cfg: Settings, c: Child, c1: Child, g: seq<int>, now: int)
    requires SameAnswers(cfg, c, g, now) && c1.restarts == Since(c.restarts, now - cfg.window) + [now]
    ensures SameAnswers(cfg, c1, g + [now], now)
  {
    forall cut | cut >= now - cfg.window
      ensures SameSince(c1.restarts, g + [now], cut)
    {
      assert SameSince(c.restarts, g, cut);
      GrantedSince(c.restarts, g, now - cfg.window, now, cut);
    }
  }

  lemma SoundGrant(cfg: Settings, c: Child, g: seq<int>, now: int)
    requires cfg.maxRestarts > 0 && Sound(cfg, c, g, now) && |Since(g, now - cfg.window)| < cfg.maxRestarts
    ensures Sound(cfg, Child(Since(c.restarts, now - cfg.window) + [now], c.count + 1, Some(now)), g + [now], now)
  {
    var c1 := Child(Since(c.restarts, now - cfg.window) + [now], c.count + 1, Some(now));
    assert SameAnswers(cfg, c1, g + [now], now) by {
      AnswersAfterGrant(cfg, c, c1, g, now);
    }
    assert Ascending(g + [now], now) && Spaced(cfg, g + [now]) by {
      GrantSpaced(cfg, g, now);
    }
  }

  lemma SoundFailure(cfg: Settings, c: Child, g: seq<int>, now: int)
    requires cfg.maxRestarts > 0 && Sound(cfg, c, g, now)
    ensures var (c1, d) := OnFailure(cfg, c, now);
            && (d == Stop <==> |Since(g, now - cfg.window)| >= cfg.maxRestarts)
            && Sound(cfg, c1, if d.Restart? then g + [now] else g, now)
  {
    var (c1, d) := OnFailure(cfg, c, now);
    assert |Since(c.restarts, now - cfg.window)| == |Since(g, now - cfg.window)| by {
      assert SameSince(c.restarts, g, now - cfg.window);
    }
    assert Sound(cfg, c1, if d.Restart? then g + [now] else g, now) by {
      if d.Restart? {
        SoundGrant(cfg, c, g, now);
      } else {
        SoundPruned(cfg, c, g, now);
      }
    }
  }

  lemma ChildKeeps(cfg: Settings, s: State, e: Event, name: string)
    requires cfg.maxRestarts > 0 && Inv(cfg, s) && Enabled(s, e) && name in Step(cfg, s, e).children
    ensures var t := Step(cfg, s, e);
            name in t.grants && Sound(cfg, t.children[name], t.grants[name], t.clock)
  {
    if e.Fail? {
      SoundLater(cfg, s.children[name], s.grants[name], s.clock, e.at);
      if name == e.name {
        SoundFailure(cfg, s.children[name], s.grants[name], e.at);
      }
    }
  }

  lemma StepKeeps(cfg: Settings, s: State, e: Event)
    requires cfg.maxRestarts > 0 && Inv(cfg, s) && Enabled(s, e)
    ensures Inv(cfg, Step(cfg, s, e))
  {
    var t := Step(cfg, s, e);
    assert t.children.Keys == t.grants.Keys;
    forall name | name in t.children
      ensures Sound(cfg, t.children[name], t.grants[name], t.clock)
    {
      ChildKeeps(cfg, s, e, name);
    }
  }

  lemma {:induction false} RunKeeps(cfg: Settings, s: State, es: seq<Event>)
    requires cfg.maxRestarts > 0 && Inv(cfg, s) && Runs(cfg, s, es)
    ensures Inv(cfg, After(cfg, s, es))
    decreases es
  {
    if es != [] {
      StepKeeps(cfg, s, es[0]);
      RunKeeps(cfg, Step(cfg, s, es[0]), es[1..]);
    }
  }

  /**
    * In every run: of the restarts a child was granted since it was added, the one `maxRestarts`
    * places later comes at least a window later; and its next failure is refused a restart exactly
    * when the grant `maxRestarts` places back lies in the window that ends then.
    */
  lemma RestartLimit(cfg: Settings, es: seq<Event>, name: string, now: int)
    requires cfg.maxRestarts > 0 && Runs(cfg, State(map[], map[], 0), es)
    requires var s := After(cfg, State(map[], map[], 0), es); name in s.children && s.clock <= now
    ensures var s := After(cfg, State(map[], map[], 0), es);
            && name in s.grants && Spaced(cfg, s.grants[name])
            && (Decide(cfg, s, name, now) == Stop <==>
                  var g := s.grants[name];
                  |g| >= cfg.maxRestarts && g[|g| - cfg.maxRestarts] > now - cfg.window)
  {
    RunKeeps(cfg, State(map[], map[], 0), es);
    DecidedByGrants(cfg, After(cfg, State(map[], map[], 0), es), name, now);
  }

  lemma DecidedByGrants(cfg: Settings, s: State, name: string, now: int)
    requires cfg.maxRestarts > 0 && Inv(cfg, s) && name in s.children && s.clock <= now
    ensures var g := s.grants[name];
            Decide(cfg, s, name, now) == Stop <==>
            |g| >= cfg.maxRestarts && g[|g| - cfg.maxRestarts] > now - cfg.window
  {
    var c, g := s.children[name], s.grants[name];
    assert Sound(cfg, c, g, now) by {
      SoundLater(cfg, c, g, s.clock, now);
    }
    assert |Since(g, now - cfg.window)| >= cfg.maxRestarts <==> OnFailure(cfg, c, now).1 == Stop by {
      SoundFailure(cfg, c, g, now);
    }
    SinceExactly(g, now, now - cfg.window, cfg.maxRestarts);
  }

  // ----- the supervisor object

  class SupervisorActor {
    const cfg: Settings
    var children: map<string, Child>
    ghost var grants: map<string, seq<int>>
    ghost var clock: int

    ghost function Now(): (s: State)
      reads this
    {
      State(children, grants, clock)
    }

    constructor (maxRestarts: int, withinSeconds: int)
      ensures cfg == Configured(maxRestarts, withinSeconds) && Now() == State(map[], map[], 0)
    {
      cfg := Configured(maxRestarts, withinSeconds);
      children, grants, clock := map[], map[], 0;
    }

    method AddChild(name: string)
      modifies this
      ensures Now() == Step(cfg, old(Now()), Add(name))
      ensures children == old(children)[name := Child([], 0, None)]
    {
      children := children[name := NEW_CHILD];
      grants := grants[name := []];
    }

    method RemoveChild(name: string)
      modifies this
      ensures Now() == Step(cfg, old(Now()), Remove(name))
      ensures children == old(children) - {name}
    {
      children := children - {name};
      grants := grants - {name};
    }

    /** The restarts still inside the window. */
    method Prune(restarts: seq<int>, windowStart: int) returns (valid: seq<int>)
      ensures valid == Since(restarts, windowStart)
    {
      valid := [];
      for i := 0 to |restarts|
        invariant valid == Since(restarts[..i], windowStart)
      {
        SinceSnoc(restarts[..i], restarts[i], windowStart);
        assert restarts[..i] + [restarts[i]] == restarts[..i + 1];
        if restarts[i] > windowStart {
          valid := valid + [restarts[i]];
        }
      }
      assert restarts[..|restarts|] == restarts;
    }

    method HandleFailure(name: string, now: int) returns (d: Decision)
      requires children.Keys == grants.Keys && clock <= now
      modifies this
      ensures d == Decide(cfg, old(Now()), name, now) && Now() == Step(cfg, old(Now()), Fail(name, now))
      ensures name !in old(children) ==> d == Stop && children == old(children)
      ensures name in old(children) && d == Restart ==>
                && name in children && children[name].last == Some(now)
                && children[name].count == old(children)[name].count + 1
    {
      clock := now;
      if name !in children {
        return Stop;
      }
      var info := children[name];
      var windowStart := now - cfg.window;
      var valid := Prune(info.restarts, windowStart);
      info := info.(restarts := valid);
      if |info.restarts| >= cfg.maxRestarts {
        children := children[name := info];
        assert grants == grants[name := grants[name]];
        return Stop;
      }
      info := Child(info.restarts + [now], info.count + 1, Some(now));
      children := children[name := info];
      grants := grants[name := grants[name] + [now]];
      return Restart;
    }
  }
}
