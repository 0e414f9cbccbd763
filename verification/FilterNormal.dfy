/** When a printed tree comes back as the original, up to splicing same-operator groups. */
module FilterNormal {
  import opened Options
  import opened FilterModel
  import opened FilterConverter
  import opened FilterScan
  import opened FilterLeaf
  import opened FilterRoundTrip

  /** The tree with one-child groups replaced by their child and same-operator groups spliced. */
  function Normal(n: Node): (r: Node)
    decreases n, 0
  {
    match n
    case Leaf(c) => Leaf(if Restored(c).None? then c else Restored(c).value)
    case Unknown(_) => n
    case Group(op, cs) => if |cs| == 1 then Normal(cs[0]) else Group(op, Splice(op, cs))
  }

  /** The operands a normal node contributes to a group with the given operator. */
  function Operands(op: Logic, m: Node): (r: seq<Node>) {
    if m.Group? && m.op == op then m.children else [m]
  }

  /** What a child contributes: a child in parentheses stays whole. */
  function Items(op: Logic, child: Node): (r: seq<Node>)
    decreases child, 1
  {
    if Wrapped(op, child) then [Normal(child)] else Operands(op, Normal(child))
  }

  function Splice(op: Logic, cs: seq<Node>): (r: seq<Node>)
    decreases cs, 0
  {
    if cs == [] then [] else Items(op, cs[0]) + Splice(op, cs[1..])
  }

  /** The text of the tree shows a `||` outside parentheses. */
  predicate OrShows(n: Node) {
    match n
    case Leaf(_) => false
    case Unknown(_) => false
    case Group(op, cs) =>
      if |cs| == 1 then OrShows(cs[0])
      else op.Or? || exists i :: 0 <= i < |cs| && !Wrapped(op, cs[i]) && OrShows(cs[i])
  }

  /**
    * Every condition reads back, and no and-group has a child that shows a bare `||`, which a one-child
    * and-group around an or-group does.
    */
  predicate RoundTrips(n: Node) {
    match n
    case Leaf(c) => ReadsBack(c)
    case Unknown(_) => false
    case Group(op, cs) =>
      && (forall i :: 0 <= i < |cs| ==> RoundTrips(cs[i]))
      && (|cs| > 1 && op.And? ==> forall i :: 0 <= i < |cs| && !Wrapped(op, cs[i]) ==> !OrShows(cs[i]))
  }

  // ----- counting alternatives

  lemma {:induction false} OneAlternative(n: Node)
    requires Plain(n)
    ensures |Alts(n)| > 1 <==> OrShows(n)
    decreases n, 0
  {
    match n
    case Leaf(_) =>
    case Group(op, cs) =>
      if |cs| == 1 {
        OneAlternative(cs[0]);
      } else {
        OneAlternativeAll(op, cs);
      }
  }

  lemma {:induction false} OneAlternativeAll(op: Logic, cs: seq<Node>)
    requires !op.OtherLogic? && cs != [] && forall i :: 0 <= i < |cs| ==> Plain(cs[i])
    ensures op.And? ==> (|AltsAll(op, cs)| > 1 <==> exists i :: 0 <= i < |cs| && !Wrapped(op, cs[i]) && OrShows(cs[i]))
    ensures op.Or? ==> |AltsAll(op, cs)| >= |cs|
    decreases cs, 0
  {
    OneAlternative(cs[0]);
    if |cs| > 1 {
      var rest := cs[1..];
      OneAlternativeAll(op, rest);
      if exists i :: 0 <= i < |rest| && !Wrapped(op, rest[i]) && OrShows(rest[i]) {
        var i :| 0 <= i < |rest| && !Wrapped(op, rest[i]) && OrShows(rest[i]);
        assert cs[i + 1] == rest[i];
      }
      if exists i :: 0 <= i < |cs| && !Wrapped(op, cs[i]) && OrShows(cs[i]) {
        var i :| 0 <= i < |cs| && !Wrapped(op, cs[i]) && OrShows(cs[i]);
        assert i == 0 || cs[i] == rest[i - 1];
      }
    }
  }

  // ----- comparing what is rebuilt with the normal form

  predicate Agree(rs: seq<Option<Node>>, ns: seq<Node>) {
    |rs| == |ns| && forall i :: 0 <= i < |rs| ==> rs[i] == Some(ns[i])
  }

  lemma AgreeConcat(r1: seq<Option<Node>>, r2: seq<Option<Node>>, n1: seq<Node>, n2: seq<Node>)
    requires |r1| >= |n1| && |r2| >= |n2|
    ensures Agree(r1 + r2, n1 + n2) <==> Agree(r1, n1) && Agree(r2, n2)
  {
    if Agree(r1 + r2, n1 + n2) {
      forall i | 0 <= i < |r1|
        ensures r1[i] == Some(n1[i])
      {
        assert (r1 + r2)[i] == Some((n1 + n2)[i]);
      }
      forall i | 0 <= i < |r2|
        ensures r2[i] == Some(n2[i])
      {
        assert (r1 + r2)[|r1| + i] == Some((n1 + n2)[|r1| + i]);
      }
    }
  }

  lemma AgreeOne(b: Option<Node>, m: Node)
    ensures Agree([b], [m]) <==> b == Some(m)
  {
    assert [b][0] == b && [m][0] == m;
  }

  lemma BundleAgrees(op: Logic, rs: seq<Option<Node>>, ns: seq<Node>)
    requires |rs| > 1
    ensures Bundle(op, rs) == Some(Group(op, ns)) <==> Agree(rs, ns)
  {
    var c := Collect(rs);
    if Agree(rs, ns) {
      assert c.Some? && c.value == ns;
    }
  }

  /**
    * The alternatives against a normal tree: they agree with its or-operands exactly when `good`, and
    * a single alternative agrees with its and-operands exactly when `good`.
    */
  ghost predicate Matches(alts: Alternatives, m: Node, good: bool)
    requires Shaped(alts)
  {
    && |alts| >= |Operands(Or, m)|
    && (m.Group? && m.op.Or? ==> |alts| > 1)
    && (Agree(AltNodes(alts), Operands(Or, m)) <==> good)
    && (|alts| == 1 ==>
          && |alts[0]| == |Operands(And, m)|
          && (Agree(Nodes(alts[0]), Operands(And, m)) <==> good))
  }

  lemma BuildMatches(alts: Alternatives, m: Node, good: bool)
    requires Shaped(alts) && Matches(alts, m, good)
    ensures Build(alts) == Some(m) <==> good
  {
    var rs := AltNodes(alts);
    if |rs| > 1 {
      if m.Group? && m.op.Or? {
        BundleAgrees(Or, rs, m.children);
      }
    } else {
      assert Operands(Or, m) == [m];
      assert rs == [rs[0]];
      AgreeOne(rs[0], m);
    }
  }

  lemma {:induction false} NormalBranches(n: Node)
    requires Plain(n)
    ensures Normal(n).Group? ==> |Normal(n).children| > 1 && !Normal(n).op.OtherLogic?
    decreases n, 0
  {
    match n
    case Leaf(_) =>
    case Group(op, cs) =>
      if |cs| == 1 {
        NormalBranches(cs[0]);
      } else {
        SpliceBranches(op, cs);
      }
  }

  lemma {:induction false} SpliceBranches(op: Logic, cs: seq<Node>)
    requires forall i :: 0 <= i < |cs| ==> Plain(cs[i])
    ensures |Splice(op, cs)| >= |cs|
    decreases cs, 0
  {
    if cs != [] {
      NormalBranches(cs[0]);
      SpliceBranches(op, cs[1..]);
    }
  }

  lemma {:induction false} MatchesNormal(n: Node)
    requires Plain(n)
    ensures Matches(Alts(n), Normal(n), RoundTrips(n))
    decreases n, 0
  {
    match n
    case Leaf(c) =>
      var alts := Alts(n);
      assert AltNodes(alts) == [alts[0][0].node];
      assert Nodes(alts[0]) == [alts[0][0].node];
      AgreeOne(alts[0][0].node, Normal(n));
    case Group(op, cs) =>
      if |cs| == 1 {
        MatchesNormal(cs[0]);
      } else if op.Or? {
        OrMatches(cs);
        OneAlternativeAll(op, cs);
      } else {
        AndGroupMatches(n);
      }
  }

  /** The parts of a group match what the children contribute. */
  lemma {:induction false} PartMatches(op: Logic, child: Node)
    requires Plain(child) && !op.OtherLogic?
    ensures var p, items := PartAlts(op, child), Items(op, child);
            && (op.Or? ==> |p| >= |items| && (Agree(AltNodes(p), items) <==> RoundTrips(child)))
            && (op.And? && (Wrapped(op, child) || !OrShows(child)) ==>
                  |p| == 1 && |p[0]| == |items| && (Agree(Nodes(p[0]), items) <==> RoundTrips(child)))
    decreases child, 1
  {
    MatchesNormal(child);
    OneAlternative(child);
    if Wrapped(op, child) {
      var p, b := PartAlts(op, child), Build(Alts(child));
      BuildMatches(Alts(child), Normal(child), RoundTrips(child));
      assert AltNodes(p) == [b];
      assert Nodes(p[0]) == [b];
      AgreeOne(b, Normal(child));
    }
  }

  predicate AllRoundTrip(cs: seq<Node>) {
    forall i :: 0 <= i < |cs| ==> RoundTrips(cs[i])
  }

  lemma AllRoundTripCons(cs: seq<Node>)
    requires cs != []
    ensures AllRoundTrip(cs) <==> RoundTrips(cs[0]) && AllRoundTrip(cs[1..])
  {
    assert forall i :: 1 <= i < |cs| ==> cs[i] == cs[1..][i - 1];
  }

  lemma {:induction false} OrMatches(cs: seq<Node>)
    requires cs != [] && forall i :: 0 <= i < |cs| ==> Plain(cs[i])
    ensures |AltsAll(Or, cs)| >= |Splice(Or, cs)|
    ensures Agree(AltNodes(AltsAll(Or, cs)), Splice(Or, cs)) <==> AllRoundTrip(cs)
    decreases cs, 0
  {
    PartMatches(Or, cs[0]);
    AllRoundTripCons(cs);
    var a, items := PartAlts(Or, cs[0]), Items(Or, cs[0]);
    if |cs| == 1 {
      assert Splice(Or, cs) == items;
    } else {
      OrMatches(cs[1..]);
      CombineMany(a, AltsAll(Or, cs[1..]), items, Splice(Or, cs[1..]));
    }
  }

  lemma CombineMany(a: Alternatives, b: Alternatives, m: seq<Node>, n: seq<Node>)
    requires Shaped(a) && Shaped(b) && |a| >= |m| && |b| >= |n|
    ensures var c := Combine(Or, a, b);
            |c| >= |m + n| && (Agree(AltNodes(c), m + n) <==> Agree(AltNodes(a), m) && Agree(AltNodes(b), n))
  {
    assert AltNodes(a + b) == AltNodes(a) + AltNodes(b);
    AgreeConcat(AltNodes(a), AltNodes(b), m, n);
  }

  lemma CombineOne(a: Alternatives, b: Alternatives, m: seq<Node>, n: seq<Node>)
    requires Shaped(a) && Shaped(b) && |a| == 1 && |b| == 1 && |a[0]| == |m| && |b[0]| == |n|
    ensures var c := Combine(And, a, b);
            && |c| == 1 && |c[0]| == |m + n|
            && (Agree(Nodes(c[0]), m + n) <==> Agree(Nodes(a[0]), m) && Agree(Nodes(b[0]), n))
  {
    assert Combine(And, a, b) == [a[0] + b[0]];
    assert Nodes(a[0] + b[0]) == Nodes(a[0]) + Nodes(b[0]);
    AgreeConcat(Nodes(a[0]), Nodes(b[0]), m, n);
  }

  lemma {:induction false} AndMatches(cs: seq<Node>)
    requires cs != [] && forall i :: 0 <= i < |cs| ==> Plain(cs[i]) && (Wrapped(And, cs[i]) || !OrShows(cs[i]))
    ensures |AltsAll(And, cs)| == 1 && |AltsAll(And, cs)[0]| == |Splice(And, cs)|
    ensures Agree(Nodes(AltsAll(And, cs)[0]), Splice(And, cs)) <==> AllRoundTrip(cs)
    decreases cs, 0
  {
    PartMatches(And, cs[0]);
    AllRoundTripCons(cs);
    if |cs| == 1 {
      assert Splice(And, cs) == Items(And, cs[0]);
    } else {
      AndMatches(cs[1..]);
      CombineOne(PartAlts(And, cs[0]), AltsAll(And, cs[1..]), Items(And, cs[0]), Splice(And, cs[1..]));
    }
  }

  lemma OneMatches(x: seq<Atom>, ns: seq<Node>, good: bool)
    requires |x| == |ns| && |x| > 1 && (Agree(Nodes(x), ns) <==> good)
    ensures Matches([x], Group(And, ns), good)
  {
    BundleAgrees(And, Nodes(x), ns);
    AgreeOne(AltNode(x), Group(And, ns));
    assert AltNodes([x]) == [AltNode(x)];
  }

  lemma ManyMatch(alts: Alternatives, m: Node)
    requires Shaped(alts) && |alts| > 1 && m.Group? && m.op.And?
    ensures Matches(alts, m, false)
  {
  }

  lemma {:induction false} AndGroupMatches(n: Node)
    requires Plain(n) && n.Group? && n.op.And? && |n.children| > 1
    ensures Matches(Alts(n), Normal(n), RoundTrips(n))
    decreases n.children, 1
  {
    var cs := n.children;
    OneAlternative(n);
    assert Normal(n) == Group(And, Splice(And, cs));
    if OrShows(n) {
      ManyMatch(Alts(n), Normal(n));
      assert !RoundTrips(n);
    } else {
      SpliceBranches(And, cs);
      AndMatches(cs);
      var x := AltsAll(And, cs)[0];
      assert Alts(n) == [x];
      OneMatches(x, Splice(And, cs), RoundTrips(n));
    }
  }

  /**
    * The round trip, exactly: the text of a plain tree parses to the tree with one-child groups
    * collapsed and same-operator groups spliced if and only if every condition reads back and no
    * and-group has a child showing a bare `||`.
    */
  lemma RoundTrip(n: Node)
    requires Plain(n)
    ensures Print(n).Some?
    ensures Parse(Print(n).value) == Some(Normal(n)) <==> RoundTrips(n)
  {
    PrintThenParse(n);
    MatchesNormal(n);
    BuildMatches(Alts(n), Normal(n), RoundTrips(n));
  }

  /** Every group has at least two children. */
  predicate Branching(n: Node) {
    n.Group? ==> |n.children| > 1 && forall i :: 0 <= i < |n.children| ==> Branching(n.children[i])
  }

  predicate Readable(n: Node) {
    match n
    case Leaf(c) => ReadsBack(c)
    case Unknown(_) => false
    case Group(_, cs) => forall i :: 0 <= i < |cs| ==> Readable(cs[i])
  }

  lemma {:induction false} BranchingShows(n: Node)
    requires Plain(n) && Branching(n) && Readable(n)
    ensures n.Group? && n.op.And? ==> !OrShows(n)
    ensures RoundTrips(n)
  {
    if n.Group? {
      forall i | 0 <= i < |n.children|
        ensures RoundTrips(n.children[i])
        ensures n.op.And? && !Wrapped(n.op, n.children[i]) ==> !OrShows(n.children[i])
      {
        BranchingShows(n.children[i]);
      }
    }
  }

  /** With at least two children in every group, a readable tree always comes back flattened. */
  lemma BranchingRoundTrip(n: Node)
    requires Plain(n) && Branching(n) && Readable(n)
    ensures Print(n).Some? && Parse(Print(n).value) == Some(Normal(n))
  {
    BranchingShows(n);
    RoundTrip(n);
  }

  /** No group has a child group with its own operator, or fewer than two children. */
  predicate Flat(m: Node)
    decreases m, 0
  {
    m.Group? ==> |m.children| > 1 && AllFlat(m.op, m.children)
  }

  predicate AllFlat(op: Logic, ms: seq<Node>)
    decreases ms, 0
  {
    forall i :: 0 <= i < |ms| ==> Flat(ms[i]) && !(ms[i].Group? && ms[i].op == op)
  }

  /** The tree that comes back from a branching tree is flat and has the operator of the original. */
  lemma {:induction false} NormalFlat(n: Node)
    requires Plain(n) && Branching(n)
    ensures Flat(Normal(n)) && (n.Group? <==> Normal(n).Group?) && (n.Group? ==> Normal(n).op == n.op)
    decreases n, 0
  {
    if n.Group? {
      SpliceFlat(n.op, n.children);
      SpliceBranches(n.op, n.children);
    }
  }

  lemma AllFlatConcat(op: Logic, a: seq<Node>, b: seq<Node>)
    requires AllFlat(op, a) && AllFlat(op, b)
    ensures AllFlat(op, a + b)
  {
  }

  lemma {:induction false} SpliceFlat(op: Logic, cs: seq<Node>)
    requires forall i :: 0 <= i < |cs| ==> Plain(cs[i]) && Branching(cs[i])
    ensures AllFlat(op, Splice(op, cs))
    decreases cs, 0
  {
    if cs != [] {
      NormalFlat(cs[0]);
      SpliceFlat(op, cs[1..]);
      assert AllFlat(op, Items(op, cs[0]));
      AllFlatConcat(op, Items(op, cs[0]), Splice(op, cs[1..]));
    }
  }
}
