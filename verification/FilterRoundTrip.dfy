/**
  * Printing a filter tree and parsing the text: the exact tree that comes back, for every printable
  * tree, and exactly when it is the original with same-operator groups spliced into their parents.
  */
module FilterRoundTrip {
  import opened Options
  import opened Text
  import opened FilterModel
  import opened FilterConverter
  import opened FilterScan
  import opened FilterLeaf

  /** Trees with known operators and connectives, no empty group, and plain fields and values. */
  predicate Plain(n: Node) {
    match n
    case Leaf(c) => PlainCondition(c)
    case Group(op, cs) => !op.OtherLogic? && cs != [] && forall i :: 0 <= i < |cs| ==> Plain(cs[i])
    case Unknown(_) => false
  }

  // ----- what the text consists of

  /** A part of the text the scanner does not cut, with what it parses to. */
  datatype Atom = Atom(text: string, node: Option<Node>)

  /** A text is a disjunction of conjunctions of atoms, whatever tree it was printed from. */
  type Alternatives = seq<seq<Atom>>

  predicate Shaped(alts: Alternatives) {
    alts != [] && forall i :: 0 <= i < |alts| ==> alts[i] != []
  }

  function Texts(atoms: seq<Atom>): (r: seq<string>)
    ensures |r| == |atoms|
  {
    seq(|atoms|, i requires 0 <= i < |atoms| => atoms[i].text)
  }

  function Nodes(atoms: seq<Atom>): (r: seq<Option<Node>>)
    ensures |r| == |atoms|
  {
    seq(|atoms|, i requires 0 <= i < |atoms| => atoms[i].node)
  }

  function AltText(atoms: seq<Atom>): (r: string) {
    Join(Texts(atoms), Spaced(And))
  }

  function AltTexts(alts: Alternatives): (r: seq<string>)
    ensures |r| == |alts|
  {
    seq(|alts|, i requires 0 <= i < |alts| => AltText(alts[i]))
  }

  function Render(alts: Alternatives): (r: string) {
    Join(AltTexts(alts), Spaced(Or))
  }

  function AltNode(atoms: seq<Atom>): (r: Option<Node>)
    requires atoms != []
  {
    Bundle(And, Nodes(atoms))
  }

  function AltNodes(alts: Alternatives): (r: seq<Option<Node>>)
    requires Shaped(alts)
    ensures |r| == |alts|
  {
    seq(|alts|, i requires 0 <= i < |alts| => AltNode(alts[i]))
  }

  function Build(alts: Alternatives): (r: Option<Node>)
    requires Shaped(alts)
  {
    Bundle(Or, AltNodes(alts))
  }

  /** Joining two texts by a connective: `&&` glues the neighbouring conjunctions. */
  function Combine(op: Logic, a: Alternatives, b: Alternatives): (r: Alternatives)
    requires Shaped(a) && Shaped(b)
    ensures Shaped(r)
  {
    if op.Or? then a + b
    else a[..|a| - 1] + [a[|a| - 1] + b[0]] + b[1..]
  }

  function Alts(n: Node): (r: Alternatives)
    requires Plain(n)
    ensures Shaped(r)
    decreases n, 0
  {
    match n
    case Leaf(c) =>
      [[Atom(CondText(c), if Reread(c).None? then None else Some(Leaf(Reread(c).value)))]]
    case Group(op, cs) =>
      if |cs| == 1 then Alts(cs[0]) else AltsAll(op, cs)
  }

  function PartAlts(op: Logic, child: Node): (r: Alternatives)
    requires Plain(child)
    ensures Shaped(r)
    decreases child, 1
  {
    if Wrapped(op, child) then [[Atom("(" + Render(Alts(child)) + ")", Build(Alts(child)))]]
    else Alts(child)
  }

  function AltsAll(op: Logic, cs: seq<Node>): (r: Alternatives)
    requires cs != [] && forall i :: 0 <= i < |cs| ==> Plain(cs[i])
    ensures Shaped(r)
    decreases cs, 0
  {
    if |cs| == 1 then PartAlts(op, cs[0])
    else Combine(op, PartAlts(op, cs[0]), AltsAll(op, cs[1..]))
  }

  // ----- the printer prints the alternatives

  lemma {:induction false} JoinGlue(a: seq<string>, x: string, m: string, y: string, b: seq<string>, sep: string)
    ensures Join(a + [x + m + y] + b, sep) == Join(a + [x], sep) + m + Join([y] + b, sep)
  {
    if a == [] {
      assert a + [x + m + y] + b == [x + m + y] + b;
      assert a + [x] == [x];
      if b == [] {
        assert [x + m + y] + b == [x + m + y] && [y] + b == [y];
      } else {
        assert ([x + m + y] + b)[1..] == b && ([y] + b)[1..] == b;
        assert x + m + y + sep + Join(b, sep) == x + m + (y + sep + Join(b, sep));
      }
    } else {
      JoinGlue(a[1..], x, m, y, b, sep);
      assert (a + [x + m + y] + b)[1..] == a[1..] + [x + m + y] + b;
      assert (a + [x])[1..] == a[1..] + [x];
      var l, r := Join(a[1..] + [x], sep), Join([y] + b, sep);
      assert a[0] + sep + (l + m + r) == a[0] + sep + l + m + r;
    }
  }

  lemma AltTextConcat(x: seq<Atom>, y: seq<Atom>)
    requires x != [] && y != []
    ensures AltText(x + y) == AltText(x) + Spaced(And) + AltText(y)
  {
    assert Texts(x + y) == Texts(x) + Texts(y);
    JoinConcat(Texts(x), Texts(y), Spaced(And));
  }

  lemma RenderCombine(op: Logic, a: Alternatives, b: Alternatives)
    requires Shaped(a) && Shaped(b) && !op.OtherLogic?
    ensures Render(Combine(op, a, b)) == Render(a) + Spaced(op) + Render(b)
  {
    if op.Or? {
      assert AltTexts(a + b) == AltTexts(a) + AltTexts(b);
      JoinConcat(AltTexts(a), AltTexts(b), Spaced(Or));
    } else {
      var front, x, y, back := a[..|a| - 1], a[|a| - 1], b[0], b[1..];
      AltTextConcat(x, y);
      assert AltTexts(Combine(op, a, b)) == AltTexts(front) + [AltText(x) + Spaced(And) + AltText(y)] + AltTexts(back);
      assert AltTexts(a) == AltTexts(front) + [AltText(x)];
      assert AltTexts(b) == [AltText(y)] + AltTexts(back);
      JoinGlue(AltTexts(front), AltText(x), Spaced(And), AltText(y), AltTexts(back), Spaced(Or));
    }
  }

  lemma {:induction false} PrintAlts(n: Node)
    requires Plain(n)
    ensures Print(n) == Some(Render(Alts(n)))
    decreases n, 0
  {
    match n
    case Leaf(c) =>
      var alts := Alts(n);
      assert AltTexts(alts) == [AltText(alts[0])];
      assert Texts(alts[0]) == [CondText(c)];
    case Group(op, cs) =>
      if |cs| == 1 {
        PrintAlts(cs[0]);
      } else {
        PrintAltsAll(op, cs);
      }
  }

  lemma {:induction false} PrintPartAlts(op: Logic, child: Node)
    requires Plain(child)
    ensures PrintPart(op, child) == Some(Render(PartAlts(op, child)))
    decreases child, 1
  {
    PrintAlts(child);
    if Wrapped(op, child) {
      var alts := PartAlts(op, child);
      assert AltTexts(alts) == [AltText(alts[0])];
      assert Texts(alts[0]) == [alts[0][0].text];
    }
  }

  lemma {:induction false} PrintAltsAll(op: Logic, cs: seq<Node>)
    requires !op.OtherLogic? && cs != [] && forall i :: 0 <= i < |cs| ==> Plain(cs[i])
    ensures PrintParts(op, cs).Some?
    ensures Join(PrintParts(op, cs).value, Spaced(op)) == Render(AltsAll(op, cs))
    decreases cs, 0
  {
    PrintPartAlts(op, cs[0]);
    if |cs| > 1 {
      PrintAltsAll(op, cs[1..]);
      RenderCombine(op, PartAlts(op, cs[0]), AltsAll(op, cs[1..]));
      var rest := PrintParts(op, cs[1..]).value;
      var parts := PrintParts(op, cs).value;
      assert parts[1..] == rest;
    } else {
      assert cs[1..] == [];
      assert PrintParts(op, cs[1..]) == Some([]);
    }
  }

  // ----- the parser rebuilds the alternatives

  predicate GoodAtom(a: Atom) {
    Atomic(a.text) && Parse(a.text) == a.node
  }

  predicate GoodAtoms(atoms: seq<Atom>) {
    forall j :: 0 <= j < |atoms| ==> GoodAtom(atoms[j])
  }

  predicate Good(alts: Alternatives) {
    forall i :: 0 <= i < |alts| ==> GoodAtoms(alts[i])
  }

  lemma ParseAlt(atoms: seq<Atom>)
    requires atoms != [] && GoodAtoms(atoms)
    ensures var t := AltText(atoms);
            && Parse(t) == AltNode(atoms)
            && WellNested(t, 0) && Clean(t, '|', 0) && t != [] && !IsSpace(t[0])
  {
    var xs := Texts(atoms);
    assert NestedAll(xs, '|') && NestedAll(xs, '&') && Inked(xs) by {
      forall i | 0 <= i < |xs|
        ensures Atomic(xs[i])
      {
        assert GoodAtom(atoms[i]);
      }
    }
    JoinNested(xs, And, '|');
    JoinInked(xs, Spaced(And));
    assert ParseEach(xs) == Nodes(atoms) by {
      forall i | 0 <= i < |xs|
        ensures ParseEach(xs)[i] == Nodes(atoms)[i]
      {
        assert GoodAtom(atoms[i]);
      }
    }
    if |atoms| > 1 {
      ParseJoined(xs, And);
    } else {
      assert ParseEach(xs)[0] == Parse(xs[0]);
    }
  }

  /** Parsing a rendered text gives the disjunction of conjunctions it shows. */
  lemma ParseRender(alts: Alternatives)
    requires Shaped(alts) && Good(alts)
    ensures Parse(Render(alts)) == Build(alts) && WellNested(Render(alts), 0)
  {
    var xs := AltTexts(alts);
    forall i | 0 <= i < |xs|
      ensures WellNested(xs[i], 0) && Clean(xs[i], '|', 0) && xs[i] != [] && !IsSpace(xs[i][0])
      ensures Parse(xs[i]) == AltNode(alts[i])
    {
      ParseAlt(alts[i]);
    }
    assert NestedAll(xs, '|') && Inked(xs);
    JoinNested(xs, Or, '|');
    assert ParseEach(xs) == AltNodes(alts);
    if |alts| > 1 {
      ParseJoined(xs, Or);
    } else {
      assert ParseEach(xs)[0] == Parse(xs[0]);
    }
  }

  lemma GoodCombine(op: Logic, a: Alternatives, b: Alternatives)
    requires Shaped(a) && Shaped(b) && Good(a) && Good(b)
    ensures Good(Combine(op, a, b))
  {
    assert GoodAtoms(a[|a| - 1] + b[0]);
  }

  lemma {:induction false} GoodAlts(n: Node)
    requires Plain(n)
    ensures Good(Alts(n))
    decreases n, 0
  {
    match n
    case Leaf(c) =>
      CondAtomic(c);
      ParseLeaf(c);
      assert GoodAtom(Alts(n)[0][0]);
    case Group(op, cs) =>
      if |cs| == 1 {
        GoodAlts(cs[0]);
      } else {
        GoodAltsAll(op, cs);
      }
  }

  lemma {:induction false} GoodPartAlts(op: Logic, child: Node)
    requires Plain(child)
    ensures Good(PartAlts(op, child))
    decreases child, 1
  {
    GoodAlts(child);
    if Wrapped(op, child) {
      var t := Render(Alts(child));
      ParseRender(Alts(child));
      ParenAtomic(t);
      ParseParen(t);
      assert GoodAtom(PartAlts(op, child)[0][0]);
    }
  }

  lemma {:induction false} GoodAltsAll(op: Logic, cs: seq<Node>)
    requires cs != [] && forall i :: 0 <= i < |cs| ==> Plain(cs[i])
    ensures Good(AltsAll(op, cs))
    decreases cs, 0
  {
    GoodPartAlts(op, cs[0]);
    if |cs| > 1 {
      GoodAltsAll(op, cs[1..]);
      GoodCombine(op, PartAlts(op, cs[0]), AltsAll(op, cs[1..]));
    }
  }

  /** Every plain tree prints, and its text parses to the disjunction of conjunctions it shows. */
  lemma PrintThenParse(n: Node)
    requires Plain(n)
    ensures Print(n).Some? && Parse(Print(n).value) == Build(Alts(n))
  {
    PrintAlts(n);
    GoodAlts(n);
    ParseRender(Alts(n));
  }
}
