/** What the parser can return at all, for every text, and what printing it again gives. */
module FilterShape {
  import opened Options
  import opened Text
  import opened FilterModel
  import opened FilterConverter
  import opened FilterScan
  import opened FilterLeaf
  import opened FilterRoundTrip
  import opened FilterNormal
  import opened FilterEvaluator

  /** An exists test without value, or a comparison with a string. */
  predicate ParsedCondition(c: Condition) {
    (c.op.Exists? && c.value == Nil) || (Comparison(c.op) && c.value.Str?)
  }

  /** Known connectives, at least two children in every group, and conditions as the parser makes them. */
  predicate Parsed(n: Node) {
    match n
    case Leaf(c) => ParsedCondition(c)
    case Group(op, cs) => !op.OtherLogic? && |cs| > 1 && forall i :: 0 <= i < |cs| ==> Parsed(cs[i])
    case Unknown(_) => false
  }

  lemma {:induction false} FoundIsParsed(expr: string, ops: seq<(string, Operator)>)
    requires forall i :: 0 <= i < |ops| ==> Comparison(ops[i].1)
    ensures FindOperator(expr, ops).Some? ==> ParsedCondition(FindOperator(expr, ops).value)
  {
    if ops != [] {
      FoundIsParsed(expr, ops[1..]);
    }
  }

  lemma {:induction false} ParsedSingle(s: string)
    ensures ParseSingle(s).Some? ==> Parsed(ParseSingle(s).value)
    decreases |s|, 0
  {
    var expr := Trim(s);
    if HasPrefix(expr, "(") && HasSuffix(expr, ")") {
      assert expr[0] == '(' && expr[|expr| - 1] == ')';
      ParsedShape(expr[1..|expr| - 1]);
    } else {
      FoundIsParsed(expr, OPERATORS);
    }
  }

  lemma {:induction false} ParsedGroup(parts: seq<string>, op: Logic, bound: nat)
    requires AtMost(parts, bound - 1) && |parts| > 1 && !op.OtherLogic?
    ensures ParseGroup(parts, op, bound).Some? ==> Parsed(ParseGroup(parts, op, bound).value)
    decreases bound, 0
  {
    forall i | 0 <= i < |parts|
      ensures Parse(Trim(parts[i])).Some? ==> Parsed(Parse(Trim(parts[i])).value)
    {
      ParsedShape(Trim(parts[i]));
    }
  }

  /** Whatever the text, a tree the parser returns has this shape. */
  lemma {:induction false} ParsedShape(s: string)
    ensures Parse(s).Some? ==> Parsed(Parse(s).value)
    decreases |s|, 1
  {
    var expr := Trim(s);
    var ors, ands := Split(expr, "||"), Split(expr, "&&");
    if Text.Contains(expr, "||") && |ors| > 1 {
      SplitShorter(expr, "||");
      ParsedGroup(ors, Or, |expr|);
    } else if Text.Contains(expr, "&&") && |ands| > 1 {
      SplitShorter(expr, "&&");
      ParsedGroup(ands, And, |expr|);
    } else {
      ParsedSingle(expr);
    }
  }

  predicate FieldsNamed(n: Node) {
    match n
    case Leaf(c) => c.field != ""
    case Group(_, cs) => forall i :: 0 <= i < |cs| ==> FieldsNamed(cs[i])
    case Unknown(_) => true
  }

  lemma {:induction false} ParsedValid(n: Node)
    requires Parsed(n)
    ensures Valid(n) <==> FieldsNamed(n)
  {
    if n.Group? {
      forall i | 0 <= i < |n.children|
        ensures Valid(n.children[i]) <==> FieldsNamed(n.children[i])
      {
        ParsedValid(n.children[i]);
      }
    }
  }

  /** Validation of a parsed filter can only fail for a condition without a field name. */
  lemma ParsedTextValid(s: string)
    requires Parse(s).Some?
    ensures Valid(Parse(s).value) <==> FieldsNamed(Parse(s).value)
  {
    ParsedShape(s);
    ParsedValid(Parse(s).value);
  }

  /** The blank expression is refused before parsing, and would be refused by the parser. */
  lemma BlankRefused(s: string)
    ensures ExpressionToStructured(s) == Parse(s)
  {
    ParseTrim(s);
    if Trim(s) == "" {
      FindUnreadable("");
      assert Trim("") == "";
      assert Parse("") == None;
    }
  }

  lemma {:induction false} ParsedBranches(n: Node)
    requires Parsed(n)
    ensures Branching(n)
  {
    if n.Group? {
      forall i | 0 <= i < |n.children|
        ensures Branching(n.children[i])
      {
        ParsedBranches(n.children[i]);
      }
    }
  }

  lemma {:induction false} ParsedStringly(n: Node)
    requires Parsed(n)
    ensures Readable(n) ==> Stringly(n)
  {
    if n.Group? {
      forall i | 0 <= i < |n.children|
        ensures Readable(n.children[i]) ==> Stringly(n.children[i])
      {
        ParsedStringly(n.children[i]);
      }
    }
  }

  lemma {:induction false} RoundTripsReadable(n: Node)
    requires RoundTrips(n)
    ensures Readable(n)
  {
    if n.Group? {
      forall i | 0 <= i < |n.children|
        ensures Readable(n.children[i])
      {
        RoundTripsReadable(n.children[i]);
      }
    }
  }

  /**
    * From text to tree to text to tree: whatever text a plain tree was parsed from, its printed text
    * parses to the same tree with same-operator groups spliced if and only if no unquoted value ends in
    * the word exists, and then the verdict on every record is the same.
    */
  lemma TextRoundTrip<V>(s: string, env: Env<V>)
    requires Parse(s).Some? && Plain(Parse(s).value)
    ensures var n := Parse(s).value;
            && Print(n).Some?
            && (ExpressionToStructured(Print(n).value) == Some(Normal(n)) <==> Readable(n))
            && (Readable(n) ==> Eval(Normal(n), env) == Eval(n, env))
  {
    var n := Parse(s).value;
    ParsedShape(s);
    ParsedBranches(n);
    ParsedStringly(n);
    RoundTrip(n);
    BlankRefused(Print(n).value);
    if Readable(n) {
      BranchingShows(n);
      NormalEval(n, env);
    } else if RoundTrips(n) {
      RoundTripsReadable(n);
    }
  }

  // ----- once flattened, always the same

  /** A plain tree of readable conditions that come back as they are. */
  predicate Settled(m: Node) {
    Plain(m) && Stringly(m)
  }

  predicate AllSettled(ms: seq<Node>) {
    forall i :: 0 <= i < |ms| ==> Settled(ms[i])
  }

  lemma SettledCondition(c: Condition)
    requires PlainCondition(c) && ReadsBack(c)
    ensures PlainCondition(Restored(c).value) && Reread(Restored(c).value) == Restored(c)
  {
    assert MildText("null");
    NullFree(Rank(Eq));
    NullFree(Rank(Neq));
  }

  lemma {:induction false} NormalSettled(n: Node)
    requires Plain(n) && Readable(n)
    ensures Settled(Normal(n))
    decreases n, 0
  {
    match n
    case Leaf(c) => SettledCondition(c);
    case Group(op, cs) =>
      if |cs| == 1 {
        NormalSettled(cs[0]);
      } else {
        SpliceSettled(op, cs);
        SpliceBranches(op, cs);
        assert forall i :: 0 <= i < |Splice(op, cs)| ==> Settled(Splice(op, cs)[i]);
      }
  }

  lemma {:induction false} SpliceSettled(op: Logic, cs: seq<Node>)
    requires forall i :: 0 <= i < |cs| ==> Plain(cs[i]) && Readable(cs[i])
    ensures AllSettled(Splice(op, cs))
    decreases cs, 0
  {
    if cs != [] {
      NormalSettled(cs[0]);
      SpliceSettled(op, cs[1..]);
      assert forall i :: 0 <= i < |Items(op, cs[0])| ==> Settled(Items(op, cs[0])[i]);
    }
  }

  lemma {:induction false} FlatIsNormal(m: Node)
    requires Flat(m) && Settled(m)
    ensures Normal(m) == m && Branching(m) && Readable(m)
    decreases m, 0
  {
    match m
    case Leaf(_) =>
    case Group(op, cs) => FlatSplice(op, cs);
  }

  lemma {:induction false} FlatSplice(op: Logic, cs: seq<Node>)
    requires AllFlat(op, cs) && AllSettled(cs)
    ensures Splice(op, cs) == cs && forall i :: 0 <= i < |cs| ==> Branching(cs[i]) && Readable(cs[i])
    decreases cs, 0
  {
    if cs != [] {
      FlatIsNormal(cs[0]);
      FlatSplice(op, cs[1..]);
      assert Items(op, cs[0]) == [cs[0]];
      assert cs == [cs[0]] + cs[1..];
    }
  }

  /** The tree that comes back from a branching tree is printed and parsed to itself from then on. */
  lemma SecondTripIsIdentity(n: Node)
    requires Plain(n) && Branching(n) && Readable(n)
    ensures Print(Normal(n)).Some? && Parse(Print(Normal(n)).value) == Some(Normal(n))
  {
    NormalFlat(n);
    NormalSettled(n);
    FlatIsNormal(Normal(n));
    BranchingRoundTrip(Normal(n));
  }
}
