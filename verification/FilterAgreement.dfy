/** Exactly when the evaluator on text gives the verdict of the tree, for trees whose fields lie apart. */
module FilterAgreement {
  import opened Options
  import opened Text
  import opened FilterModel
  import opened FilterConverter
  import opened FilterScan
  import opened FilterLeaf
  import opened FilterRoundTrip
  import opened FilterNormal
  import opened FilterEvaluator
  import opened FilterLegacy
  import opened FilterRecord
  import opened FilterPrecedence

  // ----- a shielded field in every tree with both connectives

  function FieldsOf(n: Node): (fs: seq<string>)
    decreases n, 0
  {
    match n
    case Leaf(c) => [c.field]
    case Group(_, cs) => FieldsAll(cs)
    case Unknown(_) => []
  }

  function FieldsAll(cs: seq<Node>): (fs: seq<string>)
    decreases cs, 0
  {
    if cs == [] then [] else FieldsOf(cs[0]) + FieldsAll(cs[1..])
  }

  /** No field lies on the way to another. */
  ghost predicate Apart(fs: seq<string>) {
    forall i, j :: 0 <= i < j < |fs| ==> !Clash(fs[i], fs[j])
  }

  ghost predicate ApartFrom(fs: seq<string>, f: string) {
    forall i :: 0 <= i < |fs| ==> !Clash(fs[i], f)
  }

  lemma ClashSymmetric(f: string, g: string)
    ensures Clash(f, g) <==> Clash(g, f)
  {
  }

  lemma ApartParts(a: seq<string>, b: seq<string>)
    requires Apart(a + b)
    ensures Apart(a) && Apart(b)
    ensures (forall f :: f in a ==> ApartFrom(b, f)) && forall f :: f in b ==> ApartFrom(a, f)
  {
    assert forall i :: 0 <= i < |a| ==> (a + b)[i] == a[i];
    assert forall i :: 0 <= i < |b| ==> (a + b)[|a| + i] == b[i];
    forall i, j | 0 <= i < |a| && 0 <= j < |b|
      ensures !Clash(a[i], b[j]) && !Clash(b[j], a[i])
    {
      assert !Clash((a + b)[i], (a + b)[|a| + j]);
      ClashSymmetric(a[i], b[j]);
    }
  }

  lemma FromParts(a: seq<string>, b: seq<string>, f: string)
    ensures ApartFrom(a + b, f) <==> ApartFrom(a, f) && ApartFrom(b, f)
  {
    assert forall i :: 0 <= i < |a| ==> (a + b)[i] == a[i];
    assert forall i :: 0 <= i < |b| ==> (a + b)[|a| + i] == b[i];
  }

  lemma {:induction false} HasField(n: Node)
    requires Proper(n)
    ensures FieldsOf(n) != []
    decreases n, 0
  {
    if n.Group? {
      assert Proper(n.children[0]);
      HasField(n.children[0]);
    }
  }

  lemma {:induction false} AbsentShielded(n: Node, inside: bool, f: string)
    requires ApartFrom(FieldsOf(n), f)
    ensures Shielded(n, inside, f)
    decreases n, 0
  {
    match n
    case Leaf(c) => assert FieldsOf(n)[0] == c.field;
    case Group(op, cs) => AbsentAll(op, cs, inside, f);
    case Unknown(_) =>
  }

  lemma {:induction false} AbsentAll(op: Logic, cs: seq<Node>, inside: bool, f: string)
    requires ApartFrom(FieldsAll(cs), f)
    ensures ShieldedAll(op, cs, inside, f)
    decreases cs, 0
  {
    if cs != [] {
      FromParts(FieldsOf(cs[0]), FieldsAll(cs[1..]), f);
      AbsentShielded(cs[0], inside || Wrapped(op, cs[0]), f);
      AbsentAll(op, cs[1..], false, f);
    }
  }

  /** The first field of a tree in parentheses is shielded. */
  lemma {:induction false} FirstShielded(n: Node)
    requires Proper(n) && Apart(FieldsOf(n))
    ensures FieldsOf(n) != [] && Shielded(n, true, FieldsOf(n)[0])
    decreases n
  {
    HasField(n);
    match n
    case Leaf(_) =>
    case Group(op, cs) =>
      assert Proper(cs[0]);
      HasField(cs[0]);
      ApartParts(FieldsOf(cs[0]), FieldsAll(cs[1..]));
      FirstShielded(cs[0]);
      assert FieldsOf(n)[0] in FieldsOf(cs[0]);
      AbsentAll(op, cs[1..], false, FieldsOf(n)[0]);
  }

  lemma {:induction false} FindShielded(n: Node) returns (f: string)
    requires Proper(n) && Apart(FieldsOf(n)) && n.Group? && !OnlyOp(n, n.op)
    ensures f in FieldsOf(n) && Shielded(n, false, f)
    decreases n, 0
  {
    assert AllProper(n.children);
    f := FindShieldedAll(n.op, n.children);
  }

  lemma {:induction false} FindShieldedAll(op: Logic, cs: seq<Node>) returns (f: string)
    requires AllProper(cs) && Apart(FieldsAll(cs)) && exists i :: 0 <= i < |cs| && !OnlyOp(cs[i], op)
    ensures f in FieldsAll(cs) && ShieldedAll(op, cs, false, f)
    decreases cs, 0
  {
    ApartParts(FieldsOf(cs[0]), FieldsAll(cs[1..]));
    if !OnlyOp(cs[0], op) {
      if Wrapped(op, cs[0]) {
        FirstShielded(cs[0]);
        f := FieldsOf(cs[0])[0];
      } else {
        f := FindShielded(cs[0]);
      }
      AbsentAll(op, cs[1..], false, f);
    } else {
      assert exists i :: 0 <= i < |cs[1..]| && !OnlyOp(cs[1..][i], op) by {
        var i :| 0 <= i < |cs| && !OnlyOp(cs[i], op);
        assert cs[1..][i - 1] == cs[i];
      }
      f := FindShieldedAll(op, cs[1..]);
      AbsentShielded(cs[0], Wrapped(op, cs[0]), f);
    }
  }

  // ----- every field of such a tree matters

  /** The tree as a formula over its fields: a condition holds exactly if its field is in the set. */
  predicate Holds(n: Node, fs: set<string>)
    decreases n, 0
  {
    match n
    case Leaf(c) => c.field in fs
    case Group(op, cs) => HoldsAll(op, cs, fs)
    case Unknown(_) => false
  }

  predicate HoldsAll(op: Logic, cs: seq<Node>, fs: set<string>)
    decreases cs, 0
  {
    if cs == [] then op.And?
    else if op.And? then Holds(cs[0], fs) && HoldsAll(op, cs[1..], fs)
    else Holds(cs[0], fs) || HoldsAll(op, cs[1..], fs)
  }

  ghost predicate SameFields(names: seq<string>, a: set<string>, b: set<string>) {
    forall i :: 0 <= i < |names| ==> (names[i] in a <==> names[i] in b)
  }

  lemma SameParts(x: seq<string>, y: seq<string>, a: set<string>, b: set<string>)
    ensures SameFields(x + y, a, b) <==> SameFields(x, a, b) && SameFields(y, a, b)
  {
    assert forall i :: 0 <= i < |x| ==> (x + y)[i] == x[i];
    assert forall i :: 0 <= i < |y| ==> (x + y)[|x| + i] == y[i];
  }

  lemma {:induction false} HoldsSame(n: Node, a: set<string>, b: set<string>)
    requires SameFields(FieldsOf(n), a, b)
    ensures Holds(n, a) <==> Holds(n, b)
    decreases n, 0
  {
    match n
    case Leaf(c) => assert FieldsOf(n)[0] == c.field;
    case Group(op, cs) => HoldsSameAll(op, cs, a, b);
    case Unknown(_) =>
  }

  lemma {:induction false} HoldsSameAll(op: Logic, cs: seq<Node>, a: set<string>, b: set<string>)
    requires SameFields(FieldsAll(cs), a, b)
    ensures HoldsAll(op, cs, a) <==> HoldsAll(op, cs, b)
    decreases cs, 0
  {
    if cs != [] {
      SameParts(FieldsOf(cs[0]), FieldsAll(cs[1..]), a, b);
      HoldsSame(cs[0], a, b);
      HoldsSameAll(op, cs[1..], a, b);
    }
  }

  ghost predicate AllThere(names: seq<string>, fs: set<string>, there: bool) {
    forall i :: 0 <= i < |names| ==> (names[i] in fs <==> there)
  }

  lemma ThereParts(x: seq<string>, y: seq<string>, fs: set<string>, there: bool)
    ensures AllThere(x + y, fs, there) <==> AllThere(x, fs, there) && AllThere(y, fs, there)
  {
    assert forall i :: 0 <= i < |x| ==> (x + y)[i] == x[i];
    assert forall i :: 0 <= i < |y| ==> (x + y)[|x| + i] == y[i];
  }

  lemma {:induction false} HoldsUniform(n: Node, fs: set<string>, there: bool)
    requires Proper(n) && AllThere(FieldsOf(n), fs, there)
    ensures Holds(n, fs) == there
    decreases n, 0
  {
    match n
    case Leaf(c) => assert FieldsOf(n)[0] == c.field;
    case Group(op, cs) =>
      assert AllProper(cs);
      HoldsUniformAll(op, cs, fs, there);
  }

  lemma {:induction false} HoldsUniformAll(op: Logic, cs: seq<Node>, fs: set<string>, there: bool)
    requires AllProper(cs) && AllThere(FieldsAll(cs), fs, there) && (cs == [] ==> there == op.And?)
    ensures HoldsAll(op, cs, fs) == there
    decreases cs, 0
  {
    if cs != [] {
      ThereParts(FieldsOf(cs[0]), FieldsAll(cs[1..]), fs, there);
      HoldsUniform(cs[0], fs, there);
      if there == op.And? {
        HoldsUniformAll(op, cs[1..], fs, there);
      }
    }
  }

  function Members(names: seq<string>): (s: set<string>) {
    set f | f in names
  }

  /** The other fields are there for `&&` and missing for `||`. */
  function Neutral(op: Logic, names: seq<string>): (s: set<string>) {
    if op.And? then Members(names) else {}
  }

  /** With these other fields there, the field decides. */
  ghost predicate Decides(n: Node, f: string, fs: set<string>) {
    f !in fs && !Holds(n, fs) && Holds(n, fs + {f})
  }

  ghost predicate DecidesAll(op: Logic, cs: seq<Node>, f: string, fs: set<string>) {
    f !in fs && !HoldsAll(op, cs, fs) && HoldsAll(op, cs, fs + {f})
  }

  lemma SelfClash(f: string, fs: seq<string>)
    requires ApartFrom(fs, f)
    ensures f !in fs
  {
    assert Clash(f, f);
  }

  lemma PartsDisjoint(x: seq<string>, y: seq<string>)
    requires Apart(x + y)
    ensures Members(x) !! Members(y)
  {
    ApartParts(x, y);
    forall f | f in x
      ensures f !in y
    {
      SelfClash(f, y);
    }
  }

  lemma {:induction false} Sensitive(n: Node, f: string) returns (fs: set<string>)
    requires Proper(n) && Apart(FieldsOf(n)) && f in FieldsOf(n)
    ensures Decides(n, f, fs) && fs <= Members(FieldsOf(n))
    decreases n, 0
  {
    match n
    case Leaf(c) => fs := {};
    case Group(op, cs) =>
      assert AllProper(cs);
      fs := SensitiveAll(op, cs, f);
  }

  lemma {:induction false} SensitiveAll(op: Logic, cs: seq<Node>, f: string) returns (fs: set<string>)
    requires !op.OtherLogic? && AllProper(cs) && Apart(FieldsAll(cs)) && f in FieldsAll(cs)
    ensures DecidesAll(op, cs, f, fs) && fs <= Members(FieldsAll(cs))
    decreases cs, 0
  {
    var x, y := FieldsOf(cs[0]), FieldsAll(cs[1..]);
    ApartParts(x, y);
    if f in x {
      var own := Sensitive(cs[0], f);
      fs := own + Neutral(op, y);
      HeadDecides(op, cs, f, own);
    } else {
      var own := SensitiveAll(op, cs[1..], f);
      fs := own + Neutral(op, x);
      TailDecides(op, cs, f, own);
    }
  }

  lemma HeadDecides(op: Logic, cs: seq<Node>, f: string, own: set<string>)
    requires !op.OtherLogic? && cs != [] && AllProper(cs) && Apart(FieldsAll(cs)) && f in FieldsOf(cs[0])
    requires Decides(cs[0], f, own) && own <= Members(FieldsOf(cs[0]))
    ensures DecidesAll(op, cs, f, own + Neutral(op, FieldsAll(cs[1..])))
  {
    var x, y := FieldsOf(cs[0]), FieldsAll(cs[1..]);
    PartsDisjoint(x, y);
    var fs := own + Neutral(op, y);
    assert f in Members(x);
    assert forall g :: g in y ==> g in Members(y);
    assert SameFields(x, own, fs) && SameFields(x, own + {f}, fs + {f});
    HoldsSame(cs[0], own, fs);
    HoldsSame(cs[0], own + {f}, fs + {f});
    assert AllThere(y, fs, op.And?) && AllThere(y, fs + {f}, op.And?);
    HoldsUniformAll(op, cs[1..], fs, op.And?);
    HoldsUniformAll(op, cs[1..], fs + {f}, op.And?);
  }

  lemma TailDecides(op: Logic, cs: seq<Node>, f: string, own: set<string>)
    requires !op.OtherLogic? && cs != [] && AllProper(cs) && Apart(FieldsAll(cs)) && f in FieldsAll(cs[1..])
    requires DecidesAll(op, cs[1..], f, own) && own <= Members(FieldsAll(cs[1..]))
    ensures DecidesAll(op, cs, f, own + Neutral(op, FieldsOf(cs[0])))
  {
    var x, y := FieldsOf(cs[0]), FieldsAll(cs[1..]);
    PartsDisjoint(x, y);
    var fs := own + Neutral(op, x);
    assert f in Members(y);
    assert forall g :: g in x ==> g in Members(x);
    assert SameFields(y, own, fs) && SameFields(y, own + {f}, fs + {f});
    HoldsSameAll(op, cs[1..], own, fs);
    HoldsSameAll(op, cs[1..], own + {f}, fs + {f});
    assert AllThere(x, fs, op.And?) && AllThere(x, fs + {f}, op.And?);
    HoldsUniform(cs[0], fs, op.And?);
    HoldsUniform(cs[0], fs + {f}, op.And?);
  }

  // ----- records that show a given set of fields

  type Compare = (Data, Operator, Value) -> Verdict

  function Leaves(n: Node): (cs: seq<Condition>)
    decreases n, 0
  {
    match n
    case Leaf(c) => [c]
    case Group(_, ns) => LeavesAll(ns)
    case Unknown(_) => []
  }

  function LeavesAll(ns: seq<Node>): (cs: seq<Condition>)
    decreases ns, 0
  {
    if ns == [] then [] else Leaves(ns[0]) + LeavesAll(ns[1..])
  }

  function FieldNames(cs: seq<Condition>): (fs: seq<string>)
    ensures |fs| == |cs|
  {
    seq(|cs|, i requires 0 <= i < |cs| => cs[i].field)
  }

  lemma {:induction false} LeafFields(n: Node)
    ensures FieldNames(Leaves(n)) == FieldsOf(n)
    decreases n, 0
  {
    if n.Group? {
      LeafFieldsAll(n.children);
    }
  }

  lemma {:induction false} LeafFieldsAll(ns: seq<Node>)
    ensures FieldNames(LeavesAll(ns)) == FieldsAll(ns)
    decreases ns, 0
  {
    if ns != [] {
      LeafFields(ns[0]);
      LeafFieldsAll(ns[1..]);
      var a, b := Leaves(ns[0]), LeavesAll(ns[1..]);
      assert FieldNames(a + b) == FieldNames(a) + FieldNames(b);
    }
  }

  /** Some value passes the condition: its comparison is one that can be met. */
  ghost predicate CanPass(c: Condition, compare: Compare) {
    Comparison(c.op) ==> exists d: Data :: compare(d, c.op, c.value) == Pass
  }

  ghost function PassingValue(c: Condition, compare: Compare): (d: Data)
    requires CanPass(c, compare)
    ensures Comparison(c.op) ==> compare(d, c.op, c.value) == Pass
  {
    if Comparison(c.op) then
      var d :| compare(d, c.op, c.value) == Pass;
      d
    else Object(map[])
  }

  ghost predicate AllCanPass(cs: seq<Condition>, compare: Compare) {
    forall i :: 0 <= i < |cs| ==> CanPass(cs[i], compare)
  }

  /** The record that holds a passing value in the field of each condition whose field is in the set. */
  ghost function Having(cs: seq<Condition>, fs: set<string>, compare: Compare): (record: Data)
    requires AllCanPass(cs, compare)
  {
    if cs == [] then Object(map[])
    else
      var last := cs[|cs| - 1];
      var front := Having(cs[..|cs| - 1], fs, compare);
      if last.field in fs then Put(front, Path(last.field), PassingValue(last, compare)) else front
  }

  /** Every field leads somewhere. */
  ghost predicate Leading(fs: seq<string>) {
    forall i :: 0 <= i < |fs| ==> Path(fs[i]) != []
  }

  lemma {:induction false} HavingObject(cs: seq<Condition>, fs: set<string>, compare: Compare)
    requires AllCanPass(cs, compare) && Leading(FieldNames(cs))
    ensures Having(cs, fs, compare).Object?
  {
    if cs != [] {
      var front := cs[..|cs| - 1];
      assert FieldNames(front) == FieldNames(cs)[..|cs| - 1];
      HavingObject(front, fs, compare);
      assert FieldNames(cs)[|cs| - 1] == cs[|cs| - 1].field;
    }
  }

  lemma {:induction false} HavingOther(cs: seq<Condition>, fs: set<string>, compare: Compare, f: string)
    requires AllCanPass(cs, compare) && ApartFrom(FieldNames(cs), f) && Path(f) != []
    ensures Get(Having(cs, fs, compare), Path(f)) == None
  {
    if cs != [] {
      var front, last := cs[..|cs| - 1], cs[|cs| - 1];
      assert FieldNames(front) == FieldNames(cs)[..|cs| - 1];
      HavingOther(front, fs, compare, f);
      assert FieldNames(cs)[|cs| - 1] == last.field;
      PutOther(Having(front, fs, compare), Path(last.field), PassingValue(last, compare), Path(f));
    }
  }

  lemma {:induction false} HavingLeaf(cs: seq<Condition>, fs: set<string>, compare: Compare, i: nat)
    requires AllCanPass(cs, compare) && Apart(FieldNames(cs)) && Leading(FieldNames(cs)) && i < |cs|
    ensures Get(Having(cs, fs, compare), Path(cs[i].field)) ==
            if cs[i].field in fs then Some(PassingValue(cs[i], compare)) else None
  {
    var front, last := cs[..|cs| - 1], cs[|cs| - 1];
    var names := FieldNames(cs);
    assert FieldNames(front) == names[..|cs| - 1];
    assert names[i] == cs[i].field && names[|cs| - 1] == last.field;
    var before := Having(front, fs, compare);
    if i < |cs| - 1 {
      HavingLeaf(front, fs, compare, i);
      PutOther(before, Path(last.field), PassingValue(last, compare), Path(cs[i].field));
    } else {
      HavingOther(front, fs, compare, last.field);
      PutSame(before, Path(last.field), PassingValue(last, compare));
    }
  }

  /** The record shows exactly the given fields of the conditions, each with a passing value. */
  ghost predicate Shows(env: Env<Data>, cs: seq<Condition>, fs: set<string>) {
    forall i :: 0 <= i < |cs| ==> EvalCondition(cs[i], env) == Truth(cs[i].field in fs)
  }

  lemma ShowsParts(env: Env<Data>, a: seq<Condition>, b: seq<Condition>, fs: set<string>)
    ensures Shows(env, a + b, fs) <==> Shows(env, a, fs) && Shows(env, b, fs)
  {
    assert forall i :: 0 <= i < |a| ==> (a + b)[i] == a[i];
    assert forall i :: 0 <= i < |b| ==> (a + b)[|a| + i] == b[i];
  }

  lemma {:induction false} EvalHolds(n: Node, env: Env<Data>, fs: set<string>)
    requires Proper(n) && Shows(env, Leaves(n), fs)
    ensures Eval(n, env) == Truth(Holds(n, fs))
    decreases n, 0
  {
    match n
    case Leaf(c) => assert Leaves(n)[0] == c;
    case Group(op, cs) =>
      assert AllProper(cs);
      EvalHoldsAll(op, cs, env, fs);
  }

  lemma {:induction false} EvalHoldsAll(op: Logic, cs: seq<Node>, env: Env<Data>, fs: set<string>)
    requires !op.OtherLogic? && AllProper(cs) && Shows(env, LeavesAll(cs), fs)
    ensures Fold(op, EvalEach(cs, env)) == Truth(HoldsAll(op, cs, fs))
    decreases cs, 0
  {
    if cs != [] {
      ShowsParts(env, Leaves(cs[0]), LeavesAll(cs[1..]), fs);
      EvalHolds(cs[0], env, fs);
      EvalHoldsAll(op, cs[1..], env, fs);
      EvalEachHead(op, cs, env);
    }
  }

  // ----- agreement, exactly

  lemma {:induction false} LeavesKept(n: Node)
    requires Proper(n)
    ensures AllKept(Leaves(n))
    decreases n, 0
  {
    if n.Group? {
      assert AllProper(n.children);
      LeavesKeptAll(n.children);
    }
  }

  predicate AllKept(cs: seq<Condition>) {
    forall i :: 0 <= i < |cs| ==> Kept(cs[i])
  }

  lemma {:induction false} LeavesKeptAll(ns: seq<Node>)
    requires AllProper(ns)
    ensures AllKept(LeavesAll(ns))
    decreases ns, 0
  {
    if ns != [] {
      LeavesKept(ns[0]);
      LeavesKeptAll(ns[1..]);
    }
  }

  predicate OneConnective(n: Node) {
    OnlyOp(n, And) || OnlyOp(n, Or)
  }

  /** Of two fields or more that lie apart, each leads somewhere. */
  lemma ApartLeads(fs: seq<string>)
    requires Apart(fs) && |fs| > 1
    ensures Leading(fs)
  {
    forall i | 0 <= i < |fs|
      ensures Path(fs[i]) != []
    {
      var j := if i == 0 then 1 else 0;
      assert !Clash(fs[if i < j then i else j], fs[if i < j then j else i]);
    }
  }

  lemma {:induction false} ManyFields(n: Node)
    requires Proper(n) && n.Group?
    ensures |FieldsOf(n)| > 1
  {
    var cs := n.children;
    assert Proper(cs[0]) && Proper(cs[1]);
    HasField(cs[0]);
    HasField(cs[1]);
    assert cs[1..][0] == cs[1];
    assert FieldsAll(cs) == FieldsOf(cs[0]) + (FieldsOf(cs[1]) + FieldsAll(cs[1..][1..]));
  }

  /** Conditions of a tree whose fields lie apart, with comparisons that can be met. */
  ghost predicate Spread(n: Node, compare: Compare) {
    Proper(n) && Apart(FieldsOf(n)) && AllCanPass(Leaves(n), compare)
  }

  lemma ConditionHaving(cs: seq<Condition>, fs: set<string>, i: nat, isNil: Data -> bool, compare: Compare)
    requires AllCanPass(cs, compare) && Apart(FieldNames(cs)) && Leading(FieldNames(cs)) && i < |cs| && Kept(cs[i])
    ensures EvalCondition(cs[i], Seen(Having(cs, fs, compare), isNil, compare)) == Truth(cs[i].field in fs)
  {
    HavingLeaf(cs, fs, compare, i);
  }

  lemma ShowsHaving(n: Node, fs: set<string>, isNil: Data -> bool, compare: Compare)
    requires Spread(n, compare) && Leading(FieldsOf(n))
    ensures Shows(Seen(Having(Leaves(n), fs, compare), isNil, compare), Leaves(n), fs)
  {
    var cs := Leaves(n);
    LeafFields(n);
    LeavesKept(n);
    forall i | 0 <= i < |cs|
      ensures EvalCondition(cs[i], Seen(Having(cs, fs, compare), isNil, compare)) == Truth(cs[i].field in fs)
    {
      ConditionHaving(cs, fs, i, isNil, compare);
    }
  }

  lemma PutSeen(r: Data, f: string, v: Data, isNil: Data -> bool, compare: Compare)
    ensures SameBut(Seen(r, isNil, compare), Seen(Put(r, Path(f), v), isNil, compare), f)
  {
    forall g | !Clash(g, f)
      ensures Get(Put(r, Path(f), v), Path(g)) == Get(r, Path(g))
    {
      PutOther(r, Path(f), v, Path(g));
    }
  }

  lemma ConditionSeen(c: Condition, e1: Env<Data>, e2: Env<Data>, f: string)
    requires SameBut(e1, e2, f) && !Clash(c.field, f)
    ensures EvalCondition(c, e1) == EvalCondition(c, e2)
  {
  }

  lemma ConditionPut(c: Condition, r: Data, isNil: Data -> bool, compare: Compare)
    requires Kept(c) && CanPass(c, compare)
    ensures EvalCondition(c, Seen(Put(r, Path(c.field), PassingValue(c, compare)), isNil, compare)) == Pass
  {
    PutSame(r, Path(c.field), PassingValue(c, compare));
  }

  /** Putting one more passing value in shows one more field. */
  lemma ShowsOneMore(n: Node, r: Data, fs: set<string>, k: nat, isNil: Data -> bool, compare: Compare)
    requires Spread(n, compare) && k < |Leaves(n)| && Shows(Seen(r, isNil, compare), Leaves(n), fs)
    ensures var c := Leaves(n)[k];
            var r2 := Put(r, Path(c.field), PassingValue(c, compare));
            Shows(Seen(r2, isNil, compare), Leaves(n), fs + {c.field})
  {
    var cs, c := Leaves(n), Leaves(n)[k];
    var v := PassingValue(c, compare);
    var e1, e2 := Seen(r, isNil, compare), Seen(Put(r, Path(c.field), v), isNil, compare);
    LeavesKept(n);
    PutSeen(r, c.field, v, isNil, compare);
    forall i | 0 <= i < |cs|
      ensures EvalCondition(cs[i], e2) == Truth(cs[i].field in fs + {c.field})
    {
      if i == k {
        ConditionPut(c, r, isNil, compare);
      } else {
        LeavesApart(n, i, k);
        ConditionSeen(cs[i], e1, e2, c.field);
      }
    }
  }

  lemma LeavesApart(n: Node, i: nat, k: nat)
    requires Apart(FieldsOf(n)) && i < |Leaves(n)| && k < |Leaves(n)| && i != k
    ensures !Clash(Leaves(n)[i].field, Leaves(n)[k].field) && Leaves(n)[i].field != Leaves(n)[k].field
  {
    LeafFields(n);
    var fs := FieldsOf(n);
    assert fs[i] == Leaves(n)[i].field && fs[k] == Leaves(n)[k].field;
    ClashSymmetric(fs[i], fs[k]);
    assert Clash(fs[i], fs[i]);
  }

  lemma FieldOfLeaf(n: Node, f: string) returns (k: nat)
    requires Proper(n) && f in FieldsOf(n)
    ensures k < |Leaves(n)| && Leaves(n)[k].field == f && OPEN !in f
  {
    LeafFields(n);
    LeavesKept(n);
    k :| 0 <= k < |FieldsOf(n)| && FieldsOf(n)[k] == f;
    assert FieldNames(Leaves(n))[k] == f;
    assert Kept(Leaves(n)[k]);
  }

  /** Two records that show the field decided either way, alike in everything else. */
  lemma DecidedEitherWay(n: Node, f: string, isNil: Data -> bool, compare: Compare) returns (r: Data, r2: Data)
    requires Spread(n, compare) && n.Group? && f in FieldsOf(n)
    ensures r.Object? && r2.Object? && Ordinary(f)
    ensures SameBut(Seen(r, isNil, compare), Seen(r2, isNil, compare), f)
    ensures Eval(n, Seen(r, isNil, compare)) == Fail && Eval(n, Seen(r2, isNil, compare)) == Pass
  {
    var fs := Sensitive(n, f);
    var k := FieldOfLeaf(n, f);
    ManyFields(n);
    ApartLeads(FieldsOf(n));
    LeafFields(n);
    assert FieldsOf(n)[k] == f;
    r := Having(Leaves(n), fs, compare);
    HavingObject(Leaves(n), fs, compare);
    ShowsHaving(n, fs, isNil, compare);
    EvalHolds(n, Seen(r, isNil, compare), fs);
    var v := PassingValue(Leaves(n)[k], compare);
    r2 := Put(r, Path(f), v);
    PutSeen(r, f, v, isNil, compare);
    ShowsOneMore(n, r, fs, k, isNil, compare);
    EvalHolds(n, Seen(r2, isNil, compare), fs + {f});
  }

  /** With both connectives, some record gets one verdict from the tree and another from the text. */
  lemma BothConnectivesDiffer(n: Node, isNil: Data -> bool, compare: Compare) returns (record: Data)
    requires Spread(n, compare) && !OneConnective(n)
    ensures record.Object? && Print(n).Some?
    ensures EvalText(Print(n).value, Seen(record, isNil, compare)) != Eval(n, Seen(record, isNil, compare))
  {
    var f := FindShielded(n);
    var r, r2 := DecidedEitherWay(n, f, isNil, compare);
    NodeSilent(n, "", "", f);
    var t := Print(n).value;
    assert "" + t + "" == t;
    Unread(t, f, Seen(r, isNil, compare), Seen(r2, isNil, compare));
    record := if EvalText(t, Seen(r, isNil, compare)) == Fail then r2 else r;
  }

  /** On every record, for the given comparison of values, text and tree give the same verdict. */
  ghost predicate AlwaysAgree(n: Node, isNil: Data -> bool, compare: Compare)
    requires Print(n).Some?
  {
    forall record: Data :: record.Object? ==>
      EvalText(Print(n).value, Seen(record, isNil, compare)) == Eval(n, Seen(record, isNil, compare))
  }

  /**
    * For a fixed comparison of values, and a tree with at least two children in every group, no field on
    * the way to another and no comparison that no value passes: the text evaluator gives the verdict of
    * the tree on every record if and only if the tree uses one connective.
    */
  lemma AgreeExactly(n: Node, isNil: Data -> bool, compare: Compare)
    requires Spread(n, compare)
    ensures Print(n).Some? && (AlwaysAgree(n, isNil, compare) <==> OneConnective(n))
  {
    PrintProper(n);
    if OneConnective(n) {
      forall record: Data | record.Object?
        ensures EvalText(Print(n).value, Seen(record, isNil, compare)) == Eval(n, Seen(record, isNil, compare))
      {
        SingleConnective(n, if OnlyOp(n, And) then And else Or, Seen(record, isNil, compare));
      }
    } else {
      var record := BothConnectivesDiffer(n, isNil, compare);
    }
  }

  // ----- why each comparison must be one that can be met

  /** The connective after a printed condition is where the text evaluator cuts first. */
  lemma CutAfterCondition(x: string, y: string)
    requires Single(x, '&') && x != [] && !IsSpace(x[0])
    ensures var e := Trim(x + Spaced(And) + y);
            FirstAt(e, "&&", |x| + 1) && e[..|x| + 1] == x + " "
  {
    var t, k := x + Spaced(And) + y, |x| + 1;
    var w := TrimTail(t);
    var e := Trim(t);
    assert t[k] == '&' && t[k + 1] == '&' && t[k - 1] == ' ';
    assert forall i :: |e| <= i < |t| ==> t[i] == w[i - |e|];
    assert |e| > k + 1;
    assert forall i :: 0 <= i < |e| ==> e[i] == t[i];
    assert e[k..k + 2] == "&&";
    forall j: nat | j < k
      ensures !OccursAt(e, "&&", j)
    {
      assert e[j..j + 2][0] == e[j] && e[j..j + 2][1] == e[j + 1];
      assert j < |x| ==> e[j] == x[j];
      assert j + 1 < |x| ==> e[j + 1] == x[j + 1];
    }
  }

  /** A first operand of `&&` that does not pass decides for the text evaluator too. */
  lemma FirstPartDecides<V>(x: string, y: string, env: Env<V>)
    requires Single(x, '&') && x != [] && !IsSpace(x[0]) && EvalText(x, env) != Pass
    ensures EvalText(x + Spaced(And) + y, env) == EvalText(x, env)
  {
    var e := Trim(x + Spaced(And) + y);
    CutAfterCondition(x, y);
    SplitFirst(e, "&&", [], |x| + 1);
    var parts := SplitAll(e, "&&", []);
    assert [] + e[..|x| + 1] == x + " ";
    SplitAllShorter(e, "&&", [], Index(e, "&&"));
    TrimPadding("", x, " ");
    assert "" + x + " " == x + " ";
    EvalTextTrim(x, env);
    assert EvalTexts(parts, env, |e|)[0] == EvalText(x, env);
  }

  /**
    * A comparison no value passes, such as a regular expression that does not compile, hides all that
    * follows it: with it in front of `&&`, text and tree agree on every record whatever the rest is.
    */
  lemma HopelessAgrees(c: Condition, m: Node, env: Env<Data>)
    requires Kept(c) && Comparison(c.op) && Proper(m) && forall d: Data :: env.compare(d, c.op, c.value) != Pass
    ensures var n := Group(And, [Leaf(c), m]);
            Print(n).Some? && EvalText(Print(n).value, env) == Eval(n, env)
  {
    PrintProper(m);
    var y := PrintPart(And, m).value;
    PrintPair(And, Leaf(c), m, CondText(c), y);
    EvalPair(And, Leaf(c), m, env);
    HopelessText(c, y, env);
  }

  lemma HopelessText(c: Condition, y: string, env: Env<Data>)
    requires Kept(c) && Comparison(c.op) && forall d: Data :: env.compare(d, c.op, c.value) != Pass
    ensures EvalText(CondText(c) + Spaced(And) + y, env) == EvalCondition(c, env) != Pass
  {
    var x := CondText(c);
    assert Single(x, '&') && x != [] && !IsSpace(x[0]) by {
      QuietCondition(c);
    }
    assert EvalText(x, env) == EvalCondition(c, env) by {
      TextLeaf(c, env);
    }
    NeverPasses(c, env);
    FirstPartDecides(x, y, env);
  }

  lemma NeverPasses(c: Condition, env: Env<Data>)
    requires Comparison(c.op) && forall d: Data :: env.compare(d, c.op, c.value) != Pass
    ensures EvalCondition(c, env) != Pass
  {
  }
}
