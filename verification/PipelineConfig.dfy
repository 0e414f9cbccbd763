/** Linear step lists, their translation to a graph of named parts, and the validator of such graphs. */
module PipelineConfig {
  import opened Options
  import opened Graph

  datatype Save = Save(kind: string)

  /** A step: transform text, filter condition, sampling rate, and where to save, each optional. */
  datatype StepConfig = StepConfig(name: string, transform: string, filter: string, sample: real, save: Option<Save>)

  datatype Payload = Source(text: string) | Condition(text: string) | Rate(rate: real)

  datatype Transform = Transform(kind: string, inputs: seq<string>, payload: Payload)

  datatype Sink = Sink(kind: string, inputs: seq<string>)

  datatype Config = Config(sources: set<string>, transforms: map<string, Transform>, sinks: map<string, Sink>)

  const INPUT := "input"

  predicate Processes(step: StepConfig) {
    step.transform != "" || step.filter != "" || step.sample > 0.0
  }

  /** A filter wins over sampling, sampling over a transform. */
  function TransformOf(step: StepConfig, prev: string): (t: Transform) {
    if step.filter != "" then Transform("filter", [prev], Condition(step.filter))
    else if step.sample > 0.0 then Transform("sample", [prev], Rate(step.sample))
    else Transform("remap", [prev], Source(step.transform))
  }

  function SinkName(name: string): (r: string) {
    name + "_sink"
  }

  // ----- the translation

  /** What the step list up to some step feeds: the input, then the processing steps in order. */
  function Feed(steps: seq<StepConfig>): (r: seq<string>)
    ensures |r| >= 1 && r[0] == INPUT
  {
    if steps == [] then [INPUT]
    else
      var last := steps[|steps| - 1];
      Feed(steps[..|steps| - 1]) + if Processes(last) then [last.name] else []
  }

  /** The name the next part reads from. */
  function Outlet(steps: seq<StepConfig>): (r: string) {
    var f := Feed(steps);
    f[|f| - 1]
  }

  function Translate(steps: seq<StepConfig>): (c: Config) {
    if steps == [] then Config({INPUT}, map[], map[])
    else
      var front, last := steps[..|steps| - 1], steps[|steps| - 1];
      var c := Translate(front);
      c.(transforms :=
           if Processes(last) then c.transforms[last.name := TransformOf(last, Outlet(front))]
           else c.transforms,
         sinks :=
           if last.save.Some? then c.sinks[SinkName(last.name) := Sink(last.save.value.kind, [Outlet(steps)])]
           else c.sinks)
  }

  method ToLegacyConfig(steps: seq<StepConfig>) returns (c: Config)
    ensures c == Translate(steps)
  {
    var transforms: map<string, Transform>, sinks: map<string, Sink> := map[], map[];
    var prevStep := INPUT;
    for i := 0 to |steps|
      invariant Config({INPUT}, transforms, sinks) == Translate(steps[..i])
      invariant prevStep == Outlet(steps[..i])
    {
      var step := steps[i];
      assert steps[..i + 1][..i] == steps[..i] && steps[..i + 1][i] == step;
      if Processes(step) {
        transforms := transforms[step.name := TransformOf(step, prevStep)];
        prevStep := step.name;
      }
      if step.save.Some? {
        sinks := sinks[SinkName(step.name) := Sink(step.save.value.kind, [prevStep])];
      }
    }
    assert steps[..|steps|] == steps;
    c := Config({INPUT}, transforms, sinks);
  }

  /** Distinct names, none of them the input's. */
  ghost predicate WellNamed(steps: seq<StepConfig>) {
    && (forall i, j :: 0 <= i < j < |steps| ==> steps[i].name != steps[j].name)
    && (forall i :: 0 <= i < |steps| ==> steps[i].name != INPUT)
  }

  predicate ReadsFrom(c: Config, a: string, b: string) {
    b in c.transforms && c.transforms[b].inputs == [a]
  }

  /** A way through the graph: from a source, each part reading exactly from the one before. */
  ghost predicate IsFeed(c: Config, path: seq<string>) {
    && path != [] && path[0] in c.sources
    && forall i, j :: 0 <= i < j < |path| && j == i + 1 ==> ReadsFrom(c, path[i], path[j])
  }

  lemma {:induction false} TranslateParts(steps: seq<StepConfig>, k: nat)
    requires WellNamed(steps) && k < |steps|
    ensures var c := Translate(steps);
            && (Processes(steps[k]) ==>
                  && steps[k].name in c.transforms
                  && c.transforms[steps[k].name] == TransformOf(steps[k], Outlet(steps[..k])))
            && (steps[k].save.Some? ==>
                  SinkName(steps[k].name) in c.sinks
                  && c.sinks[SinkName(steps[k].name)] == Sink(steps[k].save.value.kind, [Outlet(steps[..k + 1])]))
  {
    var n := |steps| - 1;
    var front, last := steps[..n], steps[n];
    if k < n {
      TranslateParts(front, k);
      assert front[..k] == steps[..k] && front[..k + 1] == steps[..k + 1];
      assert SinkName(last.name)[..|last.name|] == last.name;
      assert SinkName(steps[k].name)[..|steps[k].name|] == steps[k].name;
      assert SinkName(last.name) != SinkName(steps[k].name);
    } else {
      assert steps[..k] == front && steps[..k + 1] == steps;
    }
  }

  lemma {:induction false} FeedAvoids(steps: seq<StepConfig>, name: string)
    requires name != INPUT && forall i :: 0 <= i < |steps| ==> steps[i].name != name
    ensures name !in Feed(steps)
  {
    if steps != [] {
      FeedAvoids(steps[..|steps| - 1], name);
    }
  }

  /** Translating one more step leaves a way that does not use its name as it is. */
  lemma FeedStays(steps: seq<StepConfig>, path: seq<string>)
    requires steps != [] && IsFeed(Translate(steps[..|steps| - 1]), path) && steps[|steps| - 1].name !in path
    ensures IsFeed(Translate(steps), path)
  {
    var c, d := Translate(steps[..|steps| - 1]), Translate(steps);
    forall i, j | 0 <= i < j < |path| && j == i + 1
      ensures ReadsFrom(d, path[i], path[j])
    {
      assert ReadsFrom(c, path[i], path[j]);
    }
  }

  lemma FeedGrows(c: Config, path: seq<string>, name: string)
    requires IsFeed(c, path) && ReadsFrom(c, path[|path| - 1], name)
    ensures IsFeed(c, path + [name])
  {
  }

  lemma {:induction false} FeedIsFeed(steps: seq<StepConfig>)
    requires WellNamed(steps)
    ensures IsFeed(Translate(steps), Feed(steps))
  {
    if steps != [] {
      var front, last := steps[..|steps| - 1], steps[|steps| - 1];
      FeedIsFeed(front);
      FeedAvoids(front, last.name);
      FeedStays(steps, Feed(front));
      if Processes(last) {
        FeedGrows(Translate(steps), Feed(front), last.name);
      } else {
        assert Feed(steps) == Feed(front);
      }
    }
  }

  lemma {:induction false} FeedPrefix(steps: seq<StepConfig>, k: nat)
    requires k <= |steps|
    ensures Feed(steps[..k]) <= Feed(steps)
  {
    if k < |steps| {
      var front := steps[..|steps| - 1];
      FeedPrefix(front, k);
      assert front[..k] == steps[..k];
    } else {
      assert steps[..k] == steps;
    }
  }

  /** Two ways through the graph that end alike are the same. */
  lemma {:induction false} FeedUnique(c: Config, p: seq<string>, q: seq<string>)
    requires c.sources !! c.transforms.Keys && IsFeed(c, p) && IsFeed(c, q) && p[|p| - 1] == q[|q| - 1]
    ensures p == q
    decreases |p|
  {
    if |p| > 1 && |q| > 1 {
      var n, m := |p| - 1, |q| - 1;
      assert ReadsFrom(c, p[n - 1], p[n]) && ReadsFrom(c, q[m - 1], q[m]);
      assert [p[n - 1]][0] == [q[m - 1]][0];
      FeedUnique(c, p[..n], q[..m]);
      assert p == p[..n] + [p[n]] && q == q[..m] + [q[m]];
    } else {
      assert |p| > 1 ==> ReadsFrom(c, p[|p| - 2], p[|p| - 1]);
      assert |q| > 1 ==> ReadsFrom(c, q[|q| - 2], q[|q| - 1]);
    }
  }

  lemma {:induction false} TransformNames(steps: seq<StepConfig>)
    requires WellNamed(steps)
    ensures Translate(steps).sources == {INPUT} && INPUT !in Translate(steps).transforms
    ensures forall name :: name in Translate(steps).transforms <==> name in Feed(steps)[1..]
  {
    if steps != [] {
      var front := steps[..|steps| - 1];
      TransformNames(front);
      assert Feed(steps)[1..] == Feed(front)[1..] + Feed(steps)[|Feed(front)|..];
    }
  }

  /** A way through the graph can be cut short. */
  lemma FeedCut(c: Config, path: seq<string>, front: seq<string>)
    requires IsFeed(c, path) && front <= path && front != []
    ensures IsFeed(c, front)
  {
    forall i, j | 0 <= i < j < |front| && j == i + 1
      ensures ReadsFrom(c, front[i], front[j])
    {
      assert front[i] == path[i] && front[j] == path[j];
    }
  }

  lemma PrefixIsFeed(steps: seq<StepConfig>, k: nat)
    requires WellNamed(steps) && k <= |steps|
    ensures IsFeed(Translate(steps), Feed(steps[..k]))
  {
    FeedIsFeed(steps);
    FeedPrefix(steps, k);
    FeedCut(Translate(steps), Feed(steps), Feed(steps[..k]));
  }

  lemma PrefixUnique(steps: seq<StepConfig>, k: nat, path: seq<string>)
    requires WellNamed(steps) && k <= |steps|
    requires IsFeed(Translate(steps), path) && path[|path| - 1] == Outlet(steps[..k])
    ensures path == Feed(steps[..k])
  {
    PrefixIsFeed(steps, k);
    TransformNames(steps);
    FeedUnique(Translate(steps), path, Feed(steps[..k]));
  }

  /**
    * For distinct names: the sink of the k-th step reads from one part, and the only way from there
    * back to a source goes through exactly the processing steps up to the k-th, in order.
    */
  lemma SinkReadsPrefix(steps: seq<StepConfig>, k: nat, path: seq<string>)
    requires WellNamed(steps) && k < |steps| && steps[k].save.Some?
    ensures var c := Translate(steps);
            && SinkName(steps[k].name) in c.sinks
            && c.sinks[SinkName(steps[k].name)].inputs == [Outlet(steps[..k + 1])]
            && IsFeed(c, Feed(steps[..k + 1]))
            && (IsFeed(c, path) && path[|path| - 1] == Outlet(steps[..k + 1]) ==> path == Feed(steps[..k + 1]))
  {
    TranslateParts(steps, k);
    PrefixIsFeed(steps, k + 1);
    if IsFeed(Translate(steps), path) && path[|path| - 1] == Outlet(steps[..k + 1]) {
      PrefixUnique(steps, k + 1, path);
    }
  }

  /** The kind of a transform: a filter wins over sampling, sampling over a transform text. */
  lemma TransformKinds(steps: seq<StepConfig>, k: nat)
    requires WellNamed(steps) && k < |steps|
    ensures var step, ts := steps[k], Translate(steps).transforms;
            && (step.name in ts <==> step.transform != "" || step.filter != "" || step.sample > 0.0)
            && (step.filter != "" ==>
                  ts[step.name] == Transform("filter", ts[step.name].inputs, Condition(step.filter)))
            && (step.filter == "" && step.sample > 0.0 ==>
                  ts[step.name] == Transform("sample", ts[step.name].inputs, Rate(step.sample)))
            && (step.filter == "" && step.sample <= 0.0 && step.transform != "" ==>
                  ts[step.name] == Transform("remap", ts[step.name].inputs, Source(step.transform)))
  {
    TranslateParts(steps, k);
    TranslatedProcess(steps, k);
  }

  lemma {:induction false} TranslatedProcess(steps: seq<StepConfig>, k: nat)
    requires WellNamed(steps) && k < |steps|
    ensures steps[k].name in Translate(steps).transforms ==> Processes(steps[k])
  {
    var front, last := steps[..|steps| - 1], steps[|steps| - 1];
    if k < |steps| - 1 {
      TranslatedProcess(front, k);
    } else {
      NotTranslated(front, last.name);
    }
  }

  lemma {:induction false} NotTranslated(steps: seq<StepConfig>, name: string)
    requires forall i :: 0 <= i < |steps| ==> steps[i].name != name
    ensures name !in Translate(steps).transforms
  {
    if steps != [] {
      NotTranslated(steps[..|steps| - 1], name);
    }
  }

  /** The sink of a step is called after it, has the kind of its save, and reads from one part. */
  lemma SinkNames(steps: seq<StepConfig>, k: nat)
    requires WellNamed(steps) && k < |steps| && steps[k].save.Some?
    ensures var name := steps[k].name + "_sink";
            && name in Translate(steps).sinks
            && Translate(steps).sinks[name].kind == steps[k].save.value.kind
            && Translate(steps).sources == {"input"}
  {
    TranslateParts(steps, k);
    TransformNames(steps);
  }

  // ----- the validator

  ghost predicate IsOrder(names: seq<string>, keys: set<string>) {
    Distinct(names) && forall x :: x in names <==> x in keys
  }

  /** Every input of the i-th transform is a source or an earlier transform. */
  predicate Supplied(c: Config, order: seq<string>, i: nat)
    requires i < |order| && forall x :: x in order ==> x in c.transforms
  {
    forall input :: input in c.transforms[order[i]].inputs ==> input in c.sources || input in order[..i]
  }

  /** What validation accepts when the transforms are visited in the given order. */
  predicate Accepts(c: Config, order: seq<string>)
    requires forall x :: x in order ==> x in c.transforms
  {
    && c.sources != {} && c.sinks != map[]
    && (forall i :: 0 <= i < |order| ==> Supplied(c, order, i))
    && forall s :: s in c.sinks ==> forall input :: input in c.sinks[s].inputs ==> input in c.sources || input in order
  }

  predicate AllIn(inputs: seq<string>, available: set<string>) {
    forall input :: input in inputs ==> input in available
  }

  method CheckInputs(inputs: seq<string>, available: set<string>) returns (ok: bool)
    ensures ok == AllIn(inputs, available)
  {
    for j := 0 to |inputs|
      invariant forall k :: 0 <= k < j ==> inputs[k] in available
    {
      if inputs[j] !in available {
        return false;
      }
    }
    return true;
  }

  method CheckSinks(c: Config, available: set<string>) returns (ok: bool)
    ensures ok <==> forall s :: s in c.sinks ==> AllIn(c.sinks[s].inputs, available)
  {
    var todo := c.sinks.Keys;
    while todo != {}
      invariant todo <= c.sinks.Keys
      invariant forall s :: s in c.sinks && s !in todo ==> AllIn(c.sinks[s].inputs, available)
      decreases todo
    {
      var s :| s in todo;
      var fine := CheckInputs(c.sinks[s].inputs, available);
      if !fine {
        return false;
      }
      todo := todo - {s};
    }
    return true;
  }

  /** The validator, visiting the transforms in the order the map happens to yield. */
  method ValidateFlat(c: Config, order: seq<string>) returns (ok: bool)
    requires IsOrder(order, c.transforms.Keys)
    ensures ok <==> Accepts(c, order)
  {
    if c.sources == {} || c.sinks == map[] {
      return false;
    }
    var available := c.sources;
    for i := 0 to |order|
      invariant forall x :: x in available <==> x in c.sources || x in order[..i]
      invariant forall k :: 0 <= k < i ==> Supplied(c, order, k)
    {
      var fine := CheckInputs(c.transforms[order[i]].inputs, available);
      assert fine <==> Supplied(c, order, i);
      if !fine {
        return false;
      }
      available := available + {order[i]};
      assert order[..i + 1] == order[..i] + [order[i]];
    }
    assert order[..|order|] == order;
    ok := CheckSinks(c, available);
  }

  lemma {:induction false} OutletKnown(steps: seq<StepConfig>, k: nat)
    requires k <= |steps|
    ensures Outlet(steps[..k]) in Feed(steps)
  {
    FeedPrefix(steps, k);
    var f := Feed(steps[..k]);
    assert Feed(steps)[|f| - 1] == f[|f| - 1];
  }

  lemma {:induction false} SinksReadFeed(steps: seq<StepConfig>)
    requires WellNamed(steps)
    ensures forall s, input :: s in Translate(steps).sinks && input in Translate(steps).sinks[s].inputs ==>
              input in Feed(steps)
    ensures (exists k :: 0 <= k < |steps| && steps[k].save.Some?) ==> Translate(steps).sinks != map[]
  {
    if steps != [] {
      var front := steps[..|steps| - 1];
      SinksReadFeed(front);
      FeedPrefix(steps, |front|);
      OutletKnown(steps, |steps|);
      assert steps[..|steps|] == steps;
      var last := steps[|steps| - 1];
      if last.save.Some? {
        assert SinkName(last.name) in Translate(steps).sinks;
      } else if exists k :: 0 <= k < |steps| && steps[k].save.Some? {
        var k :| 0 <= k < |steps| && steps[k].save.Some?;
        assert front[k].save.Some?;
      }
    }
  }

  lemma {:induction false} FeedDistinct(steps: seq<StepConfig>)
    requires WellNamed(steps)
    ensures Distinct(Feed(steps))
  {
    if steps != [] {
      var front, last := steps[..|steps| - 1], steps[|steps| - 1];
      FeedDistinct(front);
      FeedAvoids(front, last.name);
    }
  }

  /** With a save somewhere, the translated configuration is accepted in step order. */
  lemma TranslationAccepted(steps: seq<StepConfig>)
    requires WellNamed(steps) && exists k :: 0 <= k < |steps| && steps[k].save.Some?
    ensures var order := Feed(steps)[1..];
            IsOrder(order, Translate(steps).transforms.Keys) && Accepts(Translate(steps), order)
  {
    var c, f := Translate(steps), Feed(steps);
    var order := f[1..];
    TransformNames(steps);
    FeedIsFeed(steps);
    FeedDistinct(steps);
    SinksReadFeed(steps);
    forall i | 0 <= i < |order|
      ensures Supplied(c, order, i)
    {
      assert order[i] == f[i + 1];
      assert ReadsFrom(c, f[i], f[i + 1]);
      if i > 0 {
        assert order[..i][i - 1] == f[i];
      }
    }
    assert forall x :: x in f ==> x == INPUT || x in order;
    assert INPUT in c.sources;
  }

  // ----- validation and cycles

  function InputGraph(c: Config): (g: Deps) {
    map t | t in c.transforms :: set x | x in c.transforms[t].inputs
  }

  lemma AcceptedDeps(c: Config, order: seq<string>)
    requires IsOrder(order, c.transforms.Keys) && c.sources !! c.transforms.Keys && Accepts(c, order)
    ensures DepsFirst(InputGraph(c), order)
  {
    forall i, d | 0 <= i < |order| && Edge(InputGraph(c), order[i], d) && d in InputGraph(c)
      ensures d in order[..i]
    {
      assert Supplied(c, order, i);
    }
  }

  /** A configuration accepted in any order, with transforms named apart from sources, has no cycle. */
  lemma AcceptedAcyclic(c: Config, order: seq<string>)
    requires IsOrder(order, c.transforms.Keys) && c.sources !! c.transforms.Keys && Accepts(c, order)
    ensures !Cyclic(InputGraph(c))
  {
    AcceptedDeps(c, order);
    OrderedHasNoCycle(InputGraph(c), order);
  }

  /** Every input names a source or a transform. */
  ghost predicate Connected(c: Config) {
    && (forall t, x :: t in c.transforms && x in c.transforms[t].inputs ==> x in c.sources || x in c.transforms)
    && (forall s, x :: s in c.sinks && x in c.sinks[s].inputs ==> x in c.sources || x in c.transforms)
  }

  lemma FreeMember(g: Deps, rest: set<Id>)
    requires !Cyclic(g) && rest != {} && rest <= g.Keys
    ensures exists t :: t in rest && g[t] !! rest
  {
    if forall t :: t in rest ==> !(g[t] !! rest) {
      forall t | t in rest
        ensures HasNext(g, rest, t)
      {
        var b :| b in g[t] && b in rest;
        assert Edge(g, t, b);
      }
      ClosedHasCycle(g, rest);
    }
  }

  lemma {:induction false} TopologicalOrder(c: Config, rest: set<string>, done: seq<string>)
    returns (order: seq<string>)
    requires !Cyclic(InputGraph(c)) && Connected(c) && rest <= c.transforms.Keys
    requires IsOrder(done, c.transforms.Keys - rest) && forall i :: 0 <= i < |done| ==> Supplied(c, done, i)
    ensures IsOrder(order, c.transforms.Keys) && forall i :: 0 <= i < |order| ==> Supplied(c, order, i)
    decreases rest
  {
    if rest == {} {
      order := done;
    } else {
      var g := InputGraph(c);
      FreeMember(g, rest);
      var t :| t in rest && g[t] !! rest;
      var more := done + [t];
      forall i | 0 <= i < |more|
        ensures Supplied(c, more, i)
      {
        if i < |done| {
          assert Supplied(c, done, i);
          assert more[..i] == done[..i];
        } else {
          assert more[..i] == done;
          forall x | x in c.transforms[t].inputs
            ensures x in c.sources || x in done
          {
            assert x in g[t];
          }
        }
      }
      order := TopologicalOrder(c, rest - {t}, more);
    }
  }

  /**
    * Some visiting order makes the validator accept if and only if there are sources and sinks, every
    * input is known, and the transforms form no cycle.
    */
  lemma AcceptableExactly(c: Config)
    requires c.sources !! c.transforms.Keys
    ensures (exists order :: IsOrder(order, c.transforms.Keys) && Accepts(c, order)) <==>
            c.sources != {} && c.sinks != map[] && Connected(c) && !Cyclic(InputGraph(c))
  {
    if exists order :: IsOrder(order, c.transforms.Keys) && Accepts(c, order) {
      var order :| IsOrder(order, c.transforms.Keys) && Accepts(c, order);
      AcceptedAcyclic(c, order);
      forall t, x | t in c.transforms && x in c.transforms[t].inputs
        ensures x in c.sources || x in c.transforms
      {
        var i :| 0 <= i < |order| && order[i] == t;
        assert Supplied(c, order, i);
      }
    }
    if c.sources != {} && c.sinks != map[] && Connected(c) && !Cyclic(InputGraph(c)) {
      var order := TopologicalOrder(c, c.transforms.Keys, []);
      assert Accepts(c, order);
    }
  }

  // ----- how far the verdict depends on the order

  lemma {:induction false} SomeOrder(keys: set<string>) returns (order: seq<string>)
    ensures IsOrder(order, keys)
  {
    if keys == {} {
      order := [];
    } else {
      var t :| t in keys;
      var rest := SomeOrder(keys - {t});
      order := [t] + rest;
      assert forall i :: 1 <= i < |order| ==> order[i] == rest[i - 1];
    }
  }

  /**
    * The map yields the transforms in any order, so a configuration is accepted every time if and only
    * if, besides having sources, sinks and known sink inputs, no transform reads from a transform.
    */
  lemma AlwaysAccepted(c: Config)
    requires c.sources !! c.transforms.Keys
    ensures (forall order :: IsOrder(order, c.transforms.Keys) ==> Accepts(c, order)) <==>
            c.sources != {} && c.sinks != map[] && Connected(c)
            && forall t, x :: t in c.transforms && x in c.transforms[t].inputs ==> x in c.sources
  {
    if forall order :: IsOrder(order, c.transforms.Keys) ==> Accepts(c, order) {
      var some := SomeOrder(c.transforms.Keys);
      assert Accepts(c, some);
      forall t, x | t in c.transforms && x in c.transforms[t].inputs
        ensures x in c.sources
      {
        var rest := SomeOrder(c.transforms.Keys - {t});
        var order := [t] + rest;
        assert forall i :: 1 <= i < |order| ==> order[i] == rest[i - 1];
        assert IsOrder(order, c.transforms.Keys);
        assert Supplied(c, order, 0);
      }
    }
  }

  /** A translated step list with a save is accepted every time exactly when at most one step processes. */
  lemma TranslationAlwaysAccepted(steps: seq<StepConfig>)
    requires WellNamed(steps) && exists k :: 0 <= k < |steps| && steps[k].save.Some?
    ensures (forall order :: IsOrder(order, Translate(steps).transforms.Keys) ==> Accepts(Translate(steps), order)) <==>
            |Feed(steps)| <= 2
  {
    var c, f := Translate(steps), Feed(steps);
    TransformNames(steps);
    TranslationAccepted(steps);
    AcceptableExactly(c);
    AlwaysAccepted(c);
    FeedIsFeed(steps);
    FeedDistinct(steps);
    if |f| > 2 {
      assert ReadsFrom(c, f[1], f[2]) && f[1] in c.transforms[f[2]].inputs;
      assert f[1] != f[0];
    } else {
      forall t, x | t in c.transforms && x in c.transforms[t].inputs
        ensures x in c.sources
      {
        assert t in f[1..];
        assert t == f[1] && ReadsFrom(c, f[0], f[1]);
      }
    }
  }

  /** Two processing steps, the second saving. */
  const TWO_STEPS := [StepConfig("one", "x", "", 0.0, None), StepConfig("two", "y", "", 0.0, Some(Save("file")))]

  lemma TwoStepsFeed()
    ensures Feed(TWO_STEPS) == [INPUT, "one", "two"] && Outlet(TWO_STEPS[..1]) == "one"
  {
    var steps := TWO_STEPS;
    assert steps[..1] == [steps[0]] && [steps[0]][..0] == [];
    assert Feed([]) == [INPUT];
    assert Feed([steps[0]]) == [INPUT, "one"];
  }

  /** They are accepted in step order and refused when the map yields the second one first. */
  lemma TwoStepsRefused()
    ensures WellNamed(TWO_STEPS) && Accepts(Translate(TWO_STEPS), ["one", "two"])
    ensures IsOrder(["two", "one"], Translate(TWO_STEPS).transforms.Keys)
    ensures !Accepts(Translate(TWO_STEPS), ["two", "one"])
  {
    TwoStepsFeed();
    assert Feed(TWO_STEPS)[1..] == ["one", "two"];
    TranslationAccepted(TWO_STEPS);
    TransformNames(TWO_STEPS);
    TranslateParts(TWO_STEPS, 1);
    assert ["two", "one"][..0] == [];
    assert !Supplied(Translate(TWO_STEPS), ["two", "one"], 0) by {
      assert "one" in Translate(TWO_STEPS).transforms["two"].inputs;
    }
  }
}
