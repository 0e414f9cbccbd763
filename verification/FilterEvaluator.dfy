/** The two evaluators of filters: the one on trees and the older one on expression text. */
module FilterEvaluator {
  import opened Options
  import opened Text
  import opened FilterModel
  import opened FilterConverter
  import opened FilterScan
  import opened FilterLeaf
  import opened FilterRoundTrip
  import opened FilterNormal

  datatype Verdict = Pass | Fail | Error

  /** A record as the evaluators see it: field lookup, nil test and value comparison, all arbitrary. */
  datatype Env<!V> = Env(lookup: string -> Option<V>, isNil: V -> bool, compare: (V, Operator, Value) -> Verdict)

  function Truth(b: bool): (v: Verdict) {
    if b then Pass else Fail
  }

  function EvalCondition<V>(c: Condition, env: Env<V>): (v: Verdict) {
    var found := env.lookup(c.field);
    match c.op
    case Exists => Truth(found.Some?)
    case NotExists => Truth(found.None?)
    case IsNull => Truth(found.None? || env.isNil(found.value))
    case IsNotNull => Truth(found.Some? && !env.isNil(found.value))
    case _ => if found.None? then Fail else env.compare(found.value, c.op, c.value)
  }

  /** Short-circuit: the right verdict counts only when the left one leaves the matter open. */
  function Then(op: Logic, left: Verdict, right: Verdict): (v: Verdict) {
    if left == Truth(op.And?) then right else left
  }

  function Fold(op: Logic, vs: seq<Verdict>): (v: Verdict) {
    if vs == [] then Truth(op.And?) else Then(op, vs[0], Fold(op, vs[1..]))
  }

  function Eval<V>(n: Node, env: Env<V>): (v: Verdict)
    decreases n, 0
  {
    match n
    case Leaf(c) => EvalCondition(c, env)
    case Unknown(_) => Error
    case Group(op, cs) =>
      if cs == [] then Pass
      else if op.OtherLogic? then Error
      else Fold(op, EvalEach(cs, env))
  }

  function EvalEach<V>(cs: seq<Node>, env: Env<V>): (vs: seq<Verdict>)
    ensures |vs| == |cs| && forall i :: 0 <= i < |cs| ==> vs[i] == Eval(cs[i], env)
    decreases cs, 0
  {
    if cs == [] then [] else [Eval(cs[0], env)] + EvalEach(cs[1..], env)
  }

  lemma {:induction false} FoldConcat(op: Logic, a: seq<Verdict>, b: seq<Verdict>)
    ensures Fold(op, a + b) == Then(op, Fold(op, a), Fold(op, b))
  {
    if a == [] {
      assert a + b == b;
    } else {
      assert (a + b)[1..] == a[1..] + b;
      FoldConcat(op, a[1..], b);
    }
  }

  lemma FoldOne(op: Logic, v: Verdict)
    ensures Fold(op, [v]) == v
  {
    assert [v][1..] == [];
    assert Fold(op, [v]) == Then(op, v, Fold(op, []));
  }

  // ----- normal form and meaning

  // ----- what a group's verdict is, child by child

  /** The verdict that leaves a connective open: a pass for `&&`, a fail for `||`. */
  function Open(op: Logic): (v: Verdict) {
    if op.And? then Pass else Fail
  }

  /** The verdict at place `k` is the first that is an error or decides. */
  ghost predicate StopsAt(op: Logic, vs: seq<Verdict>, k: int) {
    0 <= k < |vs| && vs[k] != Open(op) && forall j :: 0 <= j < k ==> vs[j] == Open(op)
  }

  /** The verdict is that of the first child that is an error or decides, or open if there is none. */
  ghost predicate FirstDecides(op: Logic, vs: seq<Verdict>, v: Verdict) {
    && (forall k :: StopsAt(op, vs, k) ==> v == vs[k])
    && ((forall j :: 0 <= j < |vs| ==> vs[j] == Open(op)) ==> v == Open(op))
  }

  lemma {:induction false} FoldFirst(op: Logic, vs: seq<Verdict>)
    requires !op.OtherLogic?
    ensures FirstDecides(op, vs, Fold(op, vs))
  {
    if vs != [] {
      FoldFirst(op, vs[1..]);
      forall k | StopsAt(op, vs, k)
        ensures Fold(op, vs) == vs[k]
      {
        if k > 0 {
          assert vs[0] == Open(op);
          assert forall j :: 0 <= j < k - 1 ==> vs[1..][j] == vs[j + 1];
          assert StopsAt(op, vs[1..], k - 1);
        }
      }
      if forall j :: 0 <= j < |vs| ==> vs[j] == Open(op) {
        assert forall j :: 0 <= j < |vs[1..]| ==> vs[1..][j] == vs[j + 1];
      }
    }
  }

  /**
    * A group with a known connective: the children are asked in turn up to the first one whose verdict is
    * an error or decides, and its verdict is that of the group; if there is none the connective stays
    * open. An empty group passes; an unknown connective or kind of node is an error.
    */
  lemma GroupVerdict<V>(op: Logic, cs: seq<Node>, env: Env<V>)
    ensures cs == [] ==> Eval(Group(op, cs), env) == Pass
    ensures cs != [] && op.OtherLogic? ==> Eval(Group(op, cs), env) == Error
    ensures cs != [] && !op.OtherLogic? ==> FirstDecides(op, EvalEach(cs, env), Eval(Group(op, cs), env))
  {
    if !op.OtherLogic? {
      FoldFirst(op, EvalEach(cs, env));
    }
  }

  /** What each test says, by operator. */
  lemma TestVerdicts<V>(f: string, w: Value, env: Env<V>)
    ensures EvalCondition(Condition(f, Exists, w), env) == if env.lookup(f).Some? then Pass else Fail
    ensures EvalCondition(Condition(f, NotExists, w), env) == if env.lookup(f).Some? then Fail else Pass
    ensures EvalCondition(Condition(f, IsNull, w), env) ==
            if env.lookup(f).None? || env.isNil(env.lookup(f).value) then Pass else Fail
    ensures EvalCondition(Condition(f, IsNotNull, w), env) ==
            if env.lookup(f).None? || env.isNil(env.lookup(f).value) then Fail else Pass
    ensures forall op: Operator :: !TakesNoValue(op) ==>
              EvalCondition(Condition(f, op, w), env) ==
              if env.lookup(f).None? then Fail else env.compare(env.lookup(f).value, op, w)
  {
  }

  /** Conditions that mean the same after being read back: string values, and no null tests. */
  predicate Stringly(n: Node) {
    match n
    case Leaf(c) => Reread(c) == Some(c)
    case Unknown(_) => false
    case Group(_, cs) => forall i :: 0 <= i < |cs| ==> Stringly(cs[i])
  }

  /** Collapsing and splicing keep the verdict, errors included, on every record. */
  lemma {:induction false} NormalEval<V>(n: Node, env: Env<V>)
    requires Plain(n) && Stringly(n)
    ensures Eval(Normal(n), env) == Eval(n, env)
    decreases n, 0
  {
    match n
    case Leaf(_) =>
    case Group(op, cs) =>
      if |cs| == 1 {
        NormalEval(cs[0], env);
        assert EvalEach(cs, env) == [Eval(cs[0], env)];
        FoldOne(op, Eval(cs[0], env));
      } else {
        SpliceEval(op, cs, env);
        SpliceBranches(op, cs);
      }
  }

  lemma {:induction false} ItemsEval<V>(op: Logic, child: Node, env: Env<V>)
    requires Plain(child) && Stringly(child) && !op.OtherLogic?
    ensures Fold(op, EvalEach(Items(op, child), env)) == Eval(child, env)
    decreases child, 1
  {
    NormalEval(child, env);
    NormalBranches(child);
    var m := Normal(child);
    assert EvalEach([m], env) == [Eval(m, env)];
    FoldOne(op, Eval(m, env));
  }

  lemma {:induction false} EachConcat<V>(a: seq<Node>, b: seq<Node>, env: Env<V>)
    ensures EvalEach(a + b, env) == EvalEach(a, env) + EvalEach(b, env)
    decreases |a|
  {
    if a == [] {
      assert a + b == b;
    } else {
      assert (a + b)[0] == a[0] && (a + b)[1..] == a[1..] + b;
      EachConcat(a[1..], b, env);
    }
  }

  lemma EvalEachConcat<V>(op: Logic, a: seq<Node>, b: seq<Node>, env: Env<V>)
    ensures Fold(op, EvalEach(a + b, env)) == Then(op, Fold(op, EvalEach(a, env)), Fold(op, EvalEach(b, env)))
  {
    EachConcat(a, b, env);
    FoldConcat(op, EvalEach(a, env), EvalEach(b, env));
  }

  lemma EvalEachHead<V>(op: Logic, cs: seq<Node>, env: Env<V>)
    requires cs != []
    ensures Fold(op, EvalEach(cs, env)) == Then(op, Eval(cs[0], env), Fold(op, EvalEach(cs[1..], env)))
  {
    var vs := EvalEach(cs, env);
    assert vs[1..] == EvalEach(cs[1..], env);
  }

  lemma {:induction false} SpliceEval<V>(op: Logic, cs: seq<Node>, env: Env<V>)
    requires !op.OtherLogic? && forall i :: 0 <= i < |cs| ==> Plain(cs[i]) && Stringly(cs[i])
    ensures Fold(op, EvalEach(Splice(op, cs), env)) == Fold(op, EvalEach(cs, env))
    decreases cs, 0
  {
    if cs == [] {
    } else {
      var items, rest := Items(op, cs[0]), Splice(op, cs[1..]);
      ItemsEval(op, cs[0], env);
      SpliceEval(op, cs[1..], env);
      EvalEachConcat(op, items, rest, env);
      EvalEachHead(op, cs, env);
    }
  }

  /** A null test comes back as another test: on a record without the field it passes, its re-read form fails. */
  lemma NullTestChanges<V>(c: Condition, env: Env<V>)
    requires PlainCondition(c) && c.op.IsNull? && env.lookup(c.field).None?
    ensures var d := Condition(c.field, Eq, Str("null"));
            Parse(CondText(c)) == Some(Leaf(d)) && EvalCondition(c, env) == Pass && EvalCondition(d, env) == Fail
  {
    var d := Condition(c.field, Eq, Str("null"));
    assert Parse(CondText(c)) == Some(Leaf(d)) by {
      NullTestReread(c);
    }
  }

  /** Printing, parsing and evaluating gives the verdict of the tree itself, on every record. */
  lemma ReparsedEval<V>(n: Node, env: Env<V>)
    requires Plain(n) && Stringly(n) && RoundTrips(n)
    ensures Print(n).Some? && Parse(Print(n).value).Some?
    ensures Eval(Parse(Print(n).value).value, env) == Eval(n, env)
  {
    RoundTrip(n);
    NormalEval(n, env);
  }

  // ----- the evaluator on text

  /** strings.Split for a two-character separator. */
  function SplitAll(s: string, sep: string, cur: string): (r: seq<string>)
    requires |sep| == 2
    ensures |r| >= 1
  {
    if s == [] then [cur]
    else if sep <= s then [cur] + SplitAll(s[2..], sep, [])
    else SplitAll(s[1..], sep, cur + [s[0]])
  }

  lemma {:induction false} SplitAllShorter(s: string, sep: string, cur: string, i: nat)
    requires |sep| == 2
    ensures AtMost(SplitAll(s, sep, cur), |s| + |cur|)
    ensures OccursAt(s, sep, i) ==> AtMost(SplitAll(s, sep, cur), |s| + |cur| - 2)
  {
    if s != [] {
      if sep <= s {
        SplitAllShorter(s[2..], sep, [], 0);
      } else {
        assert i > 0 && OccursAt(s, sep, i) ==> OccursAt(s[1..], sep, i - 1);
        SplitAllShorter(s[1..], sep, cur + [s[0]], if i > 0 then i - 1 else 0);
      }
    }
  }

  /** The first listed operator whose symbol occurs, even at the very start. */
  function FindAnywhere(expr: string, ops: seq<(string, Operator)>): (r: Option<Condition>) {
    if ops == [] then None
    else
      var (symbol, op) := ops[0];
      var idx := Index(expr, symbol);
      if idx >= 0 then Some(CutAt(expr, idx, symbol, op))
      else FindAnywhere(expr, ops[1..])
  }

  function TextAtom(expr: string): (r: Option<Condition>) {
    if HasSuffix(expr, " exists") then
      Some(Condition(TrimPrefix(Trim(TrimSuffix(expr, " exists")), "."), Exists, Nil))
    else FindAnywhere(expr, OPERATORS)
  }

  function EvalSingleText<V>(s: string, env: Env<V>): (v: Verdict) {
    var c := TextAtom(Trim(s));
    if c.None? then Error else EvalCondition(c.value, env)
  }

  /** The text is cut at every `&&` first and at every `||` after, parentheses or not. */
  function EvalText<V>(s: string, env: Env<V>): (v: Verdict)
    decreases |s|, 1, 0
  {
    var expr := Trim(s);
    if Text.Contains(expr, "&&") then
      SplitAllShorter(expr, "&&", [], Index(expr, "&&"));
      Fold(And, EvalTexts(SplitAll(expr, "&&", []), env, |expr|))
    else if Text.Contains(expr, "||") then
      SplitAllShorter(expr, "||", [], Index(expr, "||"));
      Fold(Or, EvalTexts(SplitAll(expr, "||", []), env, |expr|))
    else EvalSingleText(expr, env)
  }

  /**
    * A text with a connective: its parts at every `&&`, or if there is none at every `||`, are asked in turn
    * up to the first whose verdict is an error or decides.
    */
  lemma TextVerdict<V>(s: string, env: Env<V>)
    ensures var e := Trim(s);
            var op, sep := if Text.Contains(e, "&&") then And else Or, if Text.Contains(e, "&&") then "&&" else "||";
            Text.Contains(e, sep) ==>
              var parts := SplitAll(e, sep, []);
              var vs := seq(|parts|, i requires 0 <= i < |parts| => EvalText(Trim(parts[i]), env));
              FirstDecides(op, vs, EvalText(s, env))
  {
    var e := Trim(s);
    var op, sep := if Text.Contains(e, "&&") then And else Or, if Text.Contains(e, "&&") then "&&" else "||";
    if Text.Contains(e, sep) {
      var parts := SplitAll(e, sep, []);
      SplitAllShorter(e, sep, [], Index(e, sep));
      var vs := EvalTexts(parts, env, |e|);
      assert vs == seq(|parts|, i requires 0 <= i < |parts| => EvalText(Trim(parts[i]), env));
      FoldFirst(op, vs);
    }
  }

  function EvalTexts<V>(parts: seq<string>, env: Env<V>, ghost bound: nat): (vs: seq<Verdict>)
    requires AtMost(parts, bound - 1)
    ensures |vs| == |parts| && forall i :: 0 <= i < |parts| ==> vs[i] == EvalText(Trim(parts[i]), env)
    decreases bound, 0, |parts|
  {
    if parts == [] then [] else [EvalText(Trim(parts[0]), env)] + EvalTexts(parts[1..], env, bound)
  }
}
