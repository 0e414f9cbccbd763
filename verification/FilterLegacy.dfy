/** Where the evaluator on text agrees with the evaluator on trees, and where it does not. */
module FilterLegacy {
  import opened Options
  import opened Text
  import opened FilterModel
  import opened FilterConverter
  import opened FilterScan
  import opened FilterLeaf
  import opened FilterRoundTrip
  import opened FilterNormal
  import opened FilterEvaluator

  /** A condition whose text both evaluators can read. */
  predicate Legible(c: Condition) {
    PlainCondition(c) && Reread(c).Some?
  }

  predicate AllLegible(cs: seq<Condition>) {
    forall i :: 0 <= i < |cs| ==> Legible(cs[i])
  }

  function CondTexts(cs: seq<Condition>): (r: seq<string>)
    requires AllLegible(cs)
    ensures |r| == |cs| && forall i :: 0 <= i < |cs| ==> r[i] == CondText(cs[i])
  {
    seq(|cs|, i requires 0 <= i < |cs| && Legible(cs[i]) => CondText(cs[i]))
  }

  function LeafVerdicts<V>(cs: seq<Condition>, env: Env<V>): (r: seq<Verdict>)
    requires AllLegible(cs)
    ensures |r| == |cs|
  {
    seq(|cs|, i requires 0 <= i < |cs| && Legible(cs[i]) => EvalCondition(Reread(cs[i]).value, env))
  }

  lemma {:induction false} FindSame(expr: string, ops: seq<(string, Operator)>)
    requires forall i :: 0 <= i < |ops| ==> Index(expr, ops[i].0) != 0
    ensures FindAnywhere(expr, ops) == FindOperator(expr, ops)
  {
    if ops != [] {
      FindSame(expr, ops[1..]);
    }
  }

  lemma DotAtom(e: string)
    requires e != [] && e[0] == '.'
    ensures TextAtom(e) == ParseAtom(e)
  {
    forall i | 0 <= i < |OPERATORS|
      ensures Index(e, OPERATORS[i].0) != 0
    {
      OccursEnds(e, OPERATORS[i].0);
      TableOrder(i, i);
    }
    FindSame(e, OPERATORS);
  }

  lemma NotContained(e: string, sep: string)
    requires |sep| == 2 && sep[0] == sep[1] && Single(e, sep[0])
    ensures !Text.Contains(e, sep)
  {
    forall i: nat
      ensures !OccursAt(e, sep, i)
    {
      if i + 2 <= |e| {
        assert e[i..i + 2][0] == e[i] && e[i..i + 2][1] == e[i + 1];
      }
    }
  }

  lemma TrimSubset(t: string, c: char)
    requires c !in t && t != [] && !IsSpace(t[0])
    ensures c !in Trim(t)
  {
    var w := TrimTail(t);
    assert Trim(t) == t[..|Trim(t)|];
  }

  lemma TrimSingle(t: string, c: char)
    requires Single(t, c) && t != [] && !IsSpace(t[0])
    ensures Single(Trim(t), c)
  {
    var w := TrimTail(t);
    assert forall i :: 0 <= i < |Trim(t)| ==> Trim(t)[i] == t[i];
  }

  lemma TextLeaf<V>(c: Condition, env: Env<V>)
    requires Legible(c)
    ensures EvalText(CondText(c), env) == EvalCondition(Reread(c).value, env)
  {
    var t := CondText(c);
    var e := Trim(t);
    QuietCondition(c);
    TrimSingle(t, '&');
    TrimSingle(t, '|');
    NotContained(e, "&&");
    NotContained(e, "||");
    ParseCondition(c);
    var w := TrimTail(t);
    DotAtom(e);
  }

  lemma EvalTextTrim<V>(s: string, env: Env<V>)
    ensures EvalText(Trim(s), env) == EvalText(s, env)
  {
    TrimIsTight(s);
    TrimTight(Trim(s));
  }

  lemma {:induction false} SplitAllPieces(s: string, sep: string, cur: string)
    requires |sep| == 2 && '(' !in s && ')' !in s
    ensures SplitAll(s, sep, cur) == PiecesFrom(s, sep, 0, cur)
  {
    if s != [] {
      if sep <= s {
        SplitAllPieces(s[2..], sep, []);
      } else {
        SplitAllPieces(s[1..], sep, cur + [s[0]]);
      }
    }
  }

  // ----- joined texts

  function TextVerdicts<V>(xs: seq<string>, env: Env<V>): (r: seq<Verdict>)
    ensures |r| == |xs| && forall i :: 0 <= i < |xs| ==> r[i] == EvalText(xs[i], env)
  {
    seq(|xs|, i requires 0 <= i < |xs| => EvalText(xs[i], env))
  }

  predicate Lacks(xs: seq<string>, c: char) {
    forall i :: 0 <= i < |xs| ==> c !in xs[i]
  }

  lemma {:induction false} JoinLacks(xs: seq<string>, sep: string, c: char)
    requires Lacks(xs, c) && c !in sep
    ensures c !in Join(xs, sep)
  {
    if |xs| > 1 {
      JoinLacks(xs[1..], sep, c);
    }
  }

  /** In none of the texts the character occurs twice in a row. */
  predicate Calm(xs: seq<string>, c: char) {
    forall i :: 0 <= i < |xs| ==> Single(xs[i], c)
  }

  lemma {:induction false} JoinCalm(xs: seq<string>, sep: string, c: char)
    requires Calm(xs, c) && c !in sep && sep != []
    ensures Single(Join(xs, sep), c)
  {
    if |xs| > 1 {
      JoinCalm(xs[1..], sep, c);
      SingleConcat(xs[0], sep, c);
      assert (xs[0] + sep)[|xs[0] + sep| - 1] == sep[|sep| - 1];
      SingleConcat(xs[0] + sep, Join(xs[1..], sep), c);
    }
  }

  lemma LacksNested(xs: seq<string>, c: char)
    requires Lacks(xs, '(') && Lacks(xs, ')') && Calm(xs, c)
    ensures NestedAll(xs, c)
  {
    forall i | 0 <= i < |xs|
      ensures WellNested(xs[i], 0) && Clean(xs[i], c, 0)
    {
      FlatText(xs[i]);
      CleanText(xs[i], c, 0);
    }
  }

  lemma PartVerdicts<V>(parts: seq<string>, xs: seq<string>, env: Env<V>, bound: nat)
    requires SameTrim(parts, xs) && AtMost(parts, bound - 1)
    ensures EvalTexts(parts, env, bound) == TextVerdicts(xs, env)
  {
    forall i | 0 <= i < |xs|
      ensures EvalText(Trim(parts[i]), env) == EvalText(xs[i], env)
    {
      EvalTextTrim(xs[i], env);
    }
  }

  /** The text evaluator on texts joined by one connective: `&&` between texts that may hold `||`, or `||` alone. */
  lemma EvalJoined<V>(xs: seq<string>, op: Logic, env: Env<V>)
    requires |xs| > 1 && !op.OtherLogic? && Inked(xs)
    requires Lacks(xs, '(') && Lacks(xs, ')') && Calm(xs, '&') && (op.Or? ==> Calm(xs, '|'))
    ensures EvalText(Join(xs, Spaced(op)), env) == Fold(op, TextVerdicts(xs, env))
  {
    var t := Join(xs, Spaced(op));
    var e, sep := Trim(t), Sep(op);
    LacksNested(xs, sep[0]);
    SplitTrimmed(xs, op);
    JoinInked(xs, Spaced(op));
    JoinLacks(xs, Spaced(op), '(');
    JoinLacks(xs, Spaced(op), ')');
    TrimSubset(t, '(');
    TrimSubset(t, ')');
    SplitAllPieces(e, sep, []);
    CutContains(e, op);
    if op.Or? {
      JoinCalm(xs, Spaced(op), '&');
      TrimSingle(t, '&');
      NotContained(e, "&&");
    }
    SplitAllShorter(e, sep, [], Index(e, sep));
    PartVerdicts(SplitAll(e, sep, []), xs, env, |e|);
  }

  lemma QuietTexts(cs: seq<Condition>)
    requires AllLegible(cs)
    ensures var xs := CondTexts(cs);
            Inked(xs) && Lacks(xs, '(') && Lacks(xs, ')') && Calm(xs, '&') && Calm(xs, '|')
  {
    forall i | 0 <= i < |cs|
      ensures Quiet(CondText(cs[i])) && |CondText(cs[i])| > 0 && CondText(cs[i])[0] == '.'
    {
      QuietCondition(cs[i]);
    }
  }

  /** Conditions joined by one connective. */
  lemma EvalConditions<V>(cs: seq<Condition>, op: Logic, env: Env<V>)
    requires cs != [] && !op.OtherLogic? && AllLegible(cs)
    ensures EvalText(Join(CondTexts(cs), Spaced(op)), env) == Fold(op, LeafVerdicts(cs, env))
  {
    var xs := CondTexts(cs);
    forall i | 0 <= i < |cs|
      ensures EvalText(xs[i], env) == LeafVerdicts(cs, env)[i]
    {
      TextLeaf(cs[i], env);
    }
    assert TextVerdicts(xs, env) == LeafVerdicts(cs, env);
    if |cs| == 1 {
      assert LeafVerdicts(cs, env) == [LeafVerdicts(cs, env)[0]];
      FoldOne(op, LeafVerdicts(cs, env)[0]);
    } else {
      QuietTexts(cs);
      EvalJoined(xs, op, env);
    }
  }

  // ----- trees with a single connective

  predicate OnlyOp(n: Node, op: Logic) {
    n.Group? ==> n.op == op && forall i :: 0 <= i < |n.children| ==> OnlyOp(n.children[i], op)
  }

  function Conditions(n: Node): (r: seq<Condition>)
    requires Plain(n) && Readable(n)
    ensures r != [] && AllLegible(r)
    decreases n, 0
  {
    match n
    case Leaf(c) => [c]
    case Group(_, cs) => ConditionsAll(cs)
  }

  function ConditionsAll(cs: seq<Node>): (r: seq<Condition>)
    requires forall i :: 0 <= i < |cs| ==> Plain(cs[i]) && Readable(cs[i])
    ensures (cs != [] ==> r != []) && AllLegible(r)
    decreases cs, 0
  {
    if cs == [] then [] else Conditions(cs[0]) + ConditionsAll(cs[1..])
  }

  lemma ConditionsOne(cs: seq<Node>)
    requires |cs| == 1 && Plain(cs[0]) && Readable(cs[0])
    ensures ConditionsAll(cs) == Conditions(cs[0])
  {
    assert cs[1..] == [];
    assert ConditionsAll(cs[1..]) == [];
  }

  lemma LegibleConcat(x: seq<Condition>, y: seq<Condition>)
    requires AllLegible(x) && AllLegible(y)
    ensures AllLegible(x + y)
  {
    forall i | 0 <= i < |x + y|
      ensures Legible((x + y)[i])
    {
      assert (x + y)[i] == if i < |x| then x[i] else y[i - |x|];
    }
  }

  lemma CondTextsConcat(x: seq<Condition>, y: seq<Condition>, op: Logic)
    requires AllLegible(x) && AllLegible(y) && x != [] && y != [] && !op.OtherLogic?
    ensures AllLegible(x + y)
    ensures CondTexts(x + y) == CondTexts(x) + CondTexts(y)
    ensures Join(CondTexts(x + y), Spaced(op)) ==
            Join(CondTexts(x), Spaced(op)) + Spaced(op) + Join(CondTexts(y), Spaced(op))
  {
    LegibleConcat(x, y);
    assert CondTexts(x + y) == CondTexts(x) + CondTexts(y);
    JoinConcat(CondTexts(x), CondTexts(y), Spaced(op));
  }

  lemma PrintPartsHead(op: Logic, cs: seq<Node>, head: string)
    requires |cs| > 1 && !op.OtherLogic? && PrintPart(op, cs[0]) == Some(head) && PrintParts(op, cs[1..]).Some?
    ensures PrintParts(op, cs).Some?
    ensures Join(PrintParts(op, cs).value, Spaced(op)) ==
            head + Spaced(op) + Join(PrintParts(op, cs[1..]).value, Spaced(op))
  {
    assert PrintParts(op, cs).value[1..] == PrintParts(op, cs[1..]).value;
  }

  lemma {:induction false} PrintConditions(n: Node, op: Logic)
    requires Plain(n) && Readable(n) && OnlyOp(n, op) && !op.OtherLogic?
    ensures Print(n) == Some(Join(CondTexts(Conditions(n)), Spaced(op)))
    decreases n, 0
  {
    match n
    case Leaf(c) =>
      assert CondTexts([c]) == [CondText(c)];
    case Group(_, cs) =>
      if |cs| == 1 {
        PrintConditions(cs[0], op);
        ConditionsOne(cs);
      } else {
        PrintConditionsAll(cs, op);
      }
  }

  lemma {:induction false} PrintConditionsAll(cs: seq<Node>, op: Logic)
    requires cs != [] && !op.OtherLogic?
    requires forall i :: 0 <= i < |cs| ==> Plain(cs[i]) && Readable(cs[i]) && OnlyOp(cs[i], op)
    ensures PrintParts(op, cs).Some?
    ensures Join(PrintParts(op, cs).value, Spaced(op)) == Join(CondTexts(ConditionsAll(cs)), Spaced(op))
    decreases cs, 0
  {
    PrintConditions(cs[0], op);
    var x := Conditions(cs[0]);
    if |cs| == 1 {
      assert cs[1..] == [];
      assert PrintParts(op, cs[1..]) == Some([]);
      ConditionsOne(cs);
    } else {
      PrintConditionsAll(cs[1..], op);
      CondTextsConcat(x, ConditionsAll(cs[1..]), op);
      PrintPartsHead(op, cs, Join(CondTexts(x), Spaced(op)));
    }
  }

  function Verdicts<V>(cs: seq<Condition>, env: Env<V>): (r: seq<Verdict>)
    ensures |r| == |cs|
  {
    seq(|cs|, i requires 0 <= i < |cs| => EvalCondition(cs[i], env))
  }

  lemma VerdictsConcat<V>(op: Logic, x: seq<Condition>, y: seq<Condition>, env: Env<V>)
    ensures Fold(op, Verdicts(x + y, env)) == Then(op, Fold(op, Verdicts(x, env)), Fold(op, Verdicts(y, env)))
  {
    assert Verdicts(x + y, env) == Verdicts(x, env) + Verdicts(y, env);
    FoldConcat(op, Verdicts(x, env), Verdicts(y, env));
  }

  lemma {:induction false} EvalAsConditions<V>(n: Node, op: Logic, env: Env<V>)
    requires Plain(n) && Readable(n) && OnlyOp(n, op) && !op.OtherLogic?
    ensures Eval(n, env) == Fold(op, Verdicts(Conditions(n), env))
    decreases n, 0
  {
    match n
    case Leaf(c) =>
      assert Verdicts([c], env) == [EvalCondition(c, env)];
      FoldOne(op, EvalCondition(c, env));
    case Group(_, cs) =>
      EvalAsConditionsAll(cs, op, env);
  }

  lemma {:induction false} EvalAsConditionsAll<V>(cs: seq<Node>, op: Logic, env: Env<V>)
    requires !op.OtherLogic?
    requires forall i :: 0 <= i < |cs| ==> Plain(cs[i]) && Readable(cs[i]) && OnlyOp(cs[i], op)
    ensures Fold(op, EvalEach(cs, env)) == Fold(op, Verdicts(ConditionsAll(cs), env))
    decreases cs, 0
  {
    if cs == [] {
    } else {
      EvalAsConditions(cs[0], op, env);
      EvalAsConditionsAll(cs[1..], op, env);
      VerdictsConcat(op, Conditions(cs[0]), ConditionsAll(cs[1..]), env);
      EvalEachHead(op, cs, env);
    }
  }

  lemma {:induction false} StringlyReadable(n: Node)
    requires Stringly(n)
    ensures Readable(n)
  {
    if n.Group? {
      forall i | 0 <= i < |n.children|
        ensures Readable(n.children[i])
      {
        StringlyReadable(n.children[i]);
      }
    }
  }

  predicate AllSame(cs: seq<Condition>) {
    forall i :: 0 <= i < |cs| ==> Reread(cs[i]) == Some(cs[i])
  }

  lemma {:induction false} StringlyConditions(n: Node)
    requires Plain(n) && Readable(n) && Stringly(n)
    ensures AllSame(Conditions(n))
    decreases n, 0
  {
    match n
    case Leaf(c) =>
      assert Conditions(n) == [c];
    case Group(_, cs) =>
      StringlyConditionsAll(cs);
  }

  lemma {:induction false} StringlyConditionsAll(cs: seq<Node>)
    requires forall i :: 0 <= i < |cs| ==> Plain(cs[i]) && Readable(cs[i]) && Stringly(cs[i])
    ensures AllSame(ConditionsAll(cs))
    decreases cs, 0
  {
    if cs != [] {
      StringlyConditions(cs[0]);
      StringlyConditionsAll(cs[1..]);
      assert ConditionsAll(cs) == Conditions(cs[0]) + ConditionsAll(cs[1..]);
    }
  }

  /** With a single connective the text evaluator gives the verdict of the tree, on every record. */
  lemma SingleConnective<V>(n: Node, op: Logic, env: Env<V>)
    requires Plain(n) && Stringly(n) && OnlyOp(n, op) && !op.OtherLogic?
    ensures Print(n).Some? && EvalText(Print(n).value, env) == Eval(n, env)
  {
    StringlyReadable(n);
    StringlyConditions(n);
    PrintConditions(n, op);
    EvalAsConditions(n, op, env);
    EvalConditions(Conditions(n), op, env);
    assert LeafVerdicts(Conditions(n), env) == Verdicts(Conditions(n), env);
  }

  // ----- where it does not

  /** The record that has a field a and nothing else. */
  function OnlyA(): (env: Env<int>) {
    Env((f: string) => if f == "a" then Some(0) else None, (v: int) => false, (v: int, op: Operator, w: Value) => Fail)
  }

  function Has(f: string): (n: Node) {
    Leaf(Condition(f, Exists, Nil))
  }

  function HasText(f: string): (t: string) {
    "." + f + " exists"
  }

  /** `.a exists || .b exists && .c exists` */
  function AOrB(): (t: string) {
    HasText("a") + Spaced(Or) + HasText("b")
  }

  function AOrBAndC(): (t: string) {
    AOrB() + Spaced(And) + HasText("c")
  }

  lemma Associate(a: string, s: string, b: string, t: string, c: string)
    ensures a + s + (b + t + c) == a + s + b + t + c
  {
  }

  lemma JoinPair(x: string, y: string, sep: string)
    ensures Join([x, y], sep) == x + sep + y
  {
    assert [x, y][1..] == [y];
  }

  lemma PrintPair(op: Logic, x: Node, y: Node, tx: string, ty: string)
    requires !op.OtherLogic? && PrintPart(op, x) == Some(tx) && PrintPart(op, y) == Some(ty)
    ensures Print(Group(op, [x, y])) == Some(tx + Spaced(op) + ty)
  {
    var cs := [x, y];
    assert cs[1..] == [y] && [y][1..] == [];
    assert PrintParts(op, []) == Some([]);
    assert PrintParts(op, [y]) == Some([ty] + []);
    assert PrintParts(op, cs) == Some([tx] + ([ty] + []));
    assert [tx] + ([ty] + []) == [tx, ty];
    JoinPair(tx, ty, Spaced(op));
  }

  lemma EvalPair<V>(op: Logic, x: Node, y: Node, env: Env<V>)
    requires !op.OtherLogic?
    ensures Eval(Group(op, [x, y]), env) == Then(op, Eval(x, env), Eval(y, env))
  {
    var cs := [x, y];
    assert EvalEach(cs, env) == [Eval(x, env), Eval(y, env)];
    assert [Eval(x, env), Eval(y, env)][1..] == [Eval(y, env)];
    FoldOne(op, Eval(y, env));
  }

  lemma PrintHas(f: string)
    ensures Print(Has(f)) == Some(HasText(f))
  {
  }

  lemma PlainHas(f: string)
    requires f == "a" || f == "b" || f == "c"
    ensures Plain(Has(f)) && Legible(Has(f).cond)
  {
  }

  /** An or-group whose second child is an and-group inside a one-child or-group: `a || b && c`. */
  function OrOfAnd(): (n: Node) {
    Group(Or, [Has("a"), Group(Or, [Group(And, [Has("b"), Has("c")])])])
  }

  /** An and-group whose first child is an or-group inside a one-child and-group: printed the same. */
  function AndOfOr(): (n: Node) {
    Group(And, [Group(And, [Group(Or, [Has("a"), Has("b")])]), Has("c")])
  }

  lemma SamePrint()
    ensures Print(OrOfAnd()) == Some(AOrBAndC()) && Print(AndOfOr()) == Some(AOrBAndC())
  {
    var a, b, c := HasText("a"), HasText("b"), HasText("c");
    PrintHas("a");
    PrintHas("b");
    PrintHas("c");
    PrintPair(And, Has("b"), Has("c"), b, c);
    PrintPair(Or, Has("a"), OrOfAnd().children[1], a, b + Spaced(And) + c);
    PrintPair(Or, Has("a"), Has("b"), a, b);
    PrintPair(And, AndOfOr().children[0], Has("c"), AOrB(), c);
    Associate(a, Spaced(Or), b, Spaced(And), c);
  }

  lemma PlainOrOfAnd()
    ensures Plain(OrOfAnd()) && RoundTrips(OrOfAnd()) && Stringly(OrOfAnd())
  {
    PlainHas("a");
    PlainHas("b");
    PlainHas("c");
    var n := OrOfAnd();
    var m := n.children[1];
    var k := m.children[0];
    assert Plain(k) && RoundTrips(k) && Stringly(k);
    assert Plain(m) && RoundTrips(m) && Stringly(m);
  }

  lemma SampleVerdicts()
    ensures Eval(OrOfAnd(), OnlyA()) == Pass && Eval(AndOfOr(), OnlyA()) == Fail
  {
    var env := OnlyA();
    var m, k := OrOfAnd().children[1], AndOfOr().children[0];
    EvalPair(Or, Has("a"), m, env);
    EvalPair(And, k, Has("c"), env);
    assert Eval(Has("c"), env) == Fail && Eval(Has("a"), env) == Pass;
    EvalPair(Or, Has("a"), Has("b"), env);
    assert EvalEach(k.children, env) == [Eval(k.children[0], env)];
    FoldOne(And, Eval(k.children[0], env));
  }

  /**
    * A one-child group loses its parentheses: this and-group prints a text that parses to another
    * tree with another verdict. `RoundTrips` is false of it.
    */
  lemma LostParentheses()
    ensures Print(AndOfOr()) == Some(AOrBAndC()) && Parse(AOrBAndC()).Some?
    ensures Eval(Parse(AOrBAndC()).value, OnlyA()) != Eval(AndOfOr(), OnlyA())
  {
    SamePrint();
    PlainOrOfAnd();
    ReparsedEval(OrOfAnd(), OnlyA());
    SampleVerdicts();
  }

  lemma FoldPair(op: Logic, u: Verdict, v: Verdict)
    ensures Fold(op, [u, v]) == Then(op, u, v)
  {
    assert [u, v][1..] == [v];
    FoldOne(op, v);
  }

  /** A text that may stand beside `&&`. */
  predicate Conjunct(x: string) {
    x != [] && !IsSpace(x[0]) && '(' !in x && ')' !in x && Single(x, '&')
  }

  lemma EvalBoth<V>(x: string, y: string, env: Env<V>)
    requires Conjunct(x) && Conjunct(y)
    ensures EvalText(x + Spaced(And) + y, env) == Then(And, EvalText(x, env), EvalText(y, env))
  {
    var xs := [x, y];
    JoinPair(x, y, Spaced(And));
    EvalJoined(xs, And, env);
    assert TextVerdicts(xs, env) == [EvalText(x, env), EvalText(y, env)];
    FoldPair(And, EvalText(x, env), EvalText(y, env));
  }

  lemma EitherConjunct(xs: seq<string>)
    requires xs != [] && Inked(xs) && Lacks(xs, '(') && Lacks(xs, ')') && Calm(xs, '&')
    ensures Conjunct(Join(xs, Spaced(Or)))
  {
    JoinInked(xs, Spaced(Or));
    JoinLacks(xs, Spaced(Or), '(');
    JoinLacks(xs, Spaced(Or), ')');
    JoinCalm(xs, Spaced(Or), '&');
  }

  lemma EvalEither<V>(c: Condition, d: Condition, env: Env<V>)
    requires Legible(c) && Legible(d)
    ensures var t := CondText(c) + Spaced(Or) + CondText(d);
            && Conjunct(t)
            && EvalText(t, env) == Then(Or, EvalText(CondText(c), env), EvalText(CondText(d), env))
  {
    var xs := CondTexts([c, d]);
    assert xs == [CondText(c), CondText(d)];
    JoinPair(CondText(c), CondText(d), Spaced(Or));
    QuietTexts([c, d]);
    EitherConjunct(xs);
    EvalJoined(xs, Or, env);
    assert TextVerdicts(xs, env) == [EvalText(xs[0], env), EvalText(xs[1], env)];
    FoldPair(Or, EvalText(xs[0], env), EvalText(xs[1], env));
  }

  lemma HasVerdict(f: string)
    requires f == "a" || f == "b" || f == "c"
    ensures CondText(Has(f).cond) == HasText(f) && Conjunct(HasText(f))
    ensures EvalText(HasText(f), OnlyA()) == Truth(f == "a")
  {
    PlainHas(f);
    TextLeaf(Has(f).cond, OnlyA());
    QuietCondition(Has(f).cond);
  }

  lemma TextVerdict()
    ensures EvalText(AOrBAndC(), OnlyA()) == Fail
  {
    HasVerdict("a");
    HasVerdict("b");
    HasVerdict("c");
    PlainHas("a");
    PlainHas("b");
    EvalEither(Has("a").cond, Has("b").cond, OnlyA());
    EvalBoth(AOrB(), HasText("c"), OnlyA());
  }

  /** With both connectives the text evaluator can differ from the parser: it cuts at `&&` first. */
  lemma OppositePrecedence()
    ensures Print(OrOfAnd()) == Some(AOrBAndC()) && Parse(AOrBAndC()) == Some(Normal(OrOfAnd()))
    ensures Eval(OrOfAnd(), OnlyA()) != EvalText(AOrBAndC(), OnlyA())
  {
    SamePrint();
    PlainOrOfAnd();
    RoundTrip(OrOfAnd());
    SampleVerdicts();
    TextVerdict();
  }
}
