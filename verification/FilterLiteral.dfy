/** The texts of filters spelled out character by character, and what both readers make of them. */
module FilterLiteral {
  import opened Options
  import opened Text
  import opened FilterModel
  import opened FilterConverter
  import opened FilterScan
  import opened FilterLeaf
  import opened FilterRoundTrip
  import opened FilterNormal
  import opened FilterEvaluator
  import opened FilterLegacy

  // ----- printing

  /** What `%v` prints of a value. */
  predicate PrintsAs(value: Value, v: string) {
    v == (match value case Nil => "<nil>" case Str(s) => s case Other(r) => r)
  }

  lemma QuotedText(f: string, op: Operator, value: Value, v: string, middle: string)
    requires PrintsAs(value, v) && Quoted(op) && " " + Symbol(op) + " '" == middle
    ensures Print(Leaf(Condition(f, op, value))) == Some("." + f + middle + v + "'")
  {
    var g, sym := "." + f, Symbol(op);
    assert g + " " + sym + " " + ("'" + v + "'") == g + (" " + sym + " '") + v + "'" by {
      assert g + " " + sym + " " + ("'" + v + "'") == g + " " + sym + " " + "'" + v + "'";
      assert g + " " + sym + " " + "'" == g + (" " + sym + " '");
    }
  }

  lemma UnquotedText(f: string, op: Operator, value: Value, v: string, middle: string)
    requires PrintsAs(value, v) && !Quoted(op) && !TakesNoValue(op) && !op.OtherOp?
    requires " " + Symbol(op) + " " == middle
    ensures Print(Leaf(Condition(f, op, value))) == Some("." + f + middle + v)
  {
    var g, sym := "." + f, Symbol(op);
    assert g + " " + sym + " " == g + (" " + sym + " ");
  }

  /** The texts of the comparisons with a value that prints as `v`. */
  lemma ComparisonTexts(f: string, value: Value, v: string)
    requires PrintsAs(value, v)
    ensures Print(Leaf(Condition(f, Eq, value))) == Some("." + f + " == '" + v + "'")
    ensures Print(Leaf(Condition(f, Neq, value))) == Some("." + f + " != '" + v + "'")
    ensures Print(Leaf(Condition(f, Regex, value))) == Some("." + f + " ~= '" + v + "'")
    ensures Print(Leaf(Condition(f, Gt, value))) == Some("." + f + " > " + v)
    ensures Print(Leaf(Condition(f, Gte, value))) == Some("." + f + " >= " + v)
    ensures Print(Leaf(Condition(f, Lt, value))) == Some("." + f + " < " + v)
    ensures Print(Leaf(Condition(f, Lte, value))) == Some("." + f + " <= " + v)
  {
    QuotedText(f, Eq, value, v, " == '");
    QuotedText(f, Neq, value, v, " != '");
    QuotedText(f, Regex, value, v, " ~= '");
    UnquotedText(f, Gt, value, v, " > ");
    UnquotedText(f, Gte, value, v, " >= ");
    UnquotedText(f, Lt, value, v, " < ");
    UnquotedText(f, Lte, value, v, " <= ");
  }

  lemma QuotedWords(f: string, value: Value, v: string)
    requires PrintsAs(value, v)
    ensures Print(Leaf(Condition(f, Contains, value))) == Some("." + f + " contains '" + v + "'")
    ensures Print(Leaf(Condition(f, StartsWith, value))) == Some("." + f + " startswith '" + v + "'")
    ensures Print(Leaf(Condition(f, EndsWith, value))) == Some("." + f + " endswith '" + v + "'")
  {
    assert " " + "contains" + " '" == " contains '" && " " + "startswith" + " '" == " startswith '";
    assert " " + "endswith" + " '" == " endswith '";
    QuotedText(f, Contains, value, v, " contains '");
    QuotedText(f, StartsWith, value, v, " startswith '");
    QuotedText(f, EndsWith, value, v, " endswith '");
  }

  lemma UnquotedWords(f: string, value: Value, v: string)
    requires PrintsAs(value, v)
    ensures Print(Leaf(Condition(f, In, value))) == Some("." + f + " in " + v)
    ensures Print(Leaf(Condition(f, NotIn, value))) == Some("." + f + " notin " + v)
  {
    UnquotedText(f, In, value, v, " in ");
    UnquotedText(f, NotIn, value, v, " notin ");
  }

  /** The texts of the operators that print a word. */
  lemma WordTexts(f: string, value: Value, v: string)
    requires PrintsAs(value, v)
    ensures Print(Leaf(Condition(f, Contains, value))) == Some("." + f + " contains '" + v + "'")
    ensures Print(Leaf(Condition(f, StartsWith, value))) == Some("." + f + " startswith '" + v + "'")
    ensures Print(Leaf(Condition(f, EndsWith, value))) == Some("." + f + " endswith '" + v + "'")
    ensures Print(Leaf(Condition(f, In, value))) == Some("." + f + " in " + v)
    ensures Print(Leaf(Condition(f, NotIn, value))) == Some("." + f + " notin " + v)
  {
    QuotedWords(f, value, v);
    UnquotedWords(f, value, v);
  }

  /** The texts of the tests without a value. */
  lemma TestTexts(f: string, value: Value)
    ensures Print(Leaf(Condition(f, Exists, value))) == Some("." + f + " exists")
    ensures Print(Leaf(Condition(f, NotExists, value))) == Some("!(." + f + " exists)")
    ensures Print(Leaf(Condition(f, IsNull, value))) == Some("." + f + " == null")
    ensures Print(Leaf(Condition(f, IsNotNull, value))) == Some("." + f + " != null")
  {
    assert "!(" + ("." + f) + " exists)" == "!(." + f + " exists)";
  }

  // ----- reading

  /** A value for any comparison: no operator character, ends kept, not ending in the word exists. */
  predicate EasyValue(v: string) {
    MildText(v) && NoOperatorChar(v) && Tight(v) && !HasSuffix(" " + v, " exists")
  }

  lemma EasyFree(v: string, n: nat)
    requires NoOperatorChar(v)
    ensures FreeOf(v, n)
  {
    forall i | 0 <= i < n && i < |OPERATORS|
      ensures Index(v, OPERATORS[i].0) == -1
    {
      TableOrder(i, i);
      OccursEnds(v, OPERATORS[i].0);
    }
  }

  /** A plain value that is not taken for the end of an exists test. */
  predicate Unmistaken(op: Operator, v: string) {
    PlainValue(op, v) && !EndsInExists(v)
  }

  /** An easy value is plain for every comparison. */
  lemma EasyPlain(v: string, op: Operator)
    requires EasyValue(v)
    ensures PlainValue(op, v) && Unmistaken(op, v)
  {
    EasyFree(v, Tried(op));
  }

  /** A comparison of a plain value is read by the parser and by the text evaluator as what it was. */
  lemma ReadAsIs<V>(c: Condition, t: string, env: Env<V>)
    requires PlainCondition(c) && Comparison(c.op) && c.value.Str? && !Misread(c)
    requires Print(Leaf(c)) == Some(t)
    ensures Parse(t) == Some(Leaf(c)) && EvalText(t, env) == EvalCondition(c, env)
  {
    ReadsBackExactly(c);
    TextLeaf(c, env);
  }

  /** The comparisons, read by the parser. */
  lemma ComparisonsParsed(f: string, v: string)
    requires PlainField(f)
    ensures PlainValue(Eq, v) ==> Parse("." + f + " == '" + v + "'") == Some(Leaf(Condition(f, Eq, Str(v))))
    ensures PlainValue(Neq, v) ==> Parse("." + f + " != '" + v + "'") == Some(Leaf(Condition(f, Neq, Str(v))))
    ensures PlainValue(Regex, v) ==> Parse("." + f + " ~= '" + v + "'") == Some(Leaf(Condition(f, Regex, Str(v))))
    ensures Unmistaken(Gt, v) ==> Parse("." + f + " > " + v) == Some(Leaf(Condition(f, Gt, Str(v))))
    ensures Unmistaken(Gte, v) ==> Parse("." + f + " >= " + v) == Some(Leaf(Condition(f, Gte, Str(v))))
    ensures Unmistaken(Lt, v) ==> Parse("." + f + " < " + v) == Some(Leaf(Condition(f, Lt, Str(v))))
    ensures Unmistaken(Lte, v) ==> Parse("." + f + " <= " + v) == Some(Leaf(Condition(f, Lte, Str(v))))
  {
    var env := OnlyA();
    ComparisonTexts(f, Str(v), v);
    if PlainValue(Eq, v) {
      ReadAsIs(Condition(f, Eq, Str(v)), "." + f + " == '" + v + "'", env);
    }
    if PlainValue(Neq, v) {
      ReadAsIs(Condition(f, Neq, Str(v)), "." + f + " != '" + v + "'", env);
    }
    if PlainValue(Regex, v) {
      ReadAsIs(Condition(f, Regex, Str(v)), "." + f + " ~= '" + v + "'", env);
    }
    if Unmistaken(Gt, v) {
      ReadAsIs(Condition(f, Gt, Str(v)), "." + f + " > " + v, env);
    }
    if Unmistaken(Gte, v) {
      ReadAsIs(Condition(f, Gte, Str(v)), "." + f + " >= " + v, env);
    }
    if Unmistaken(Lt, v) {
      ReadAsIs(Condition(f, Lt, Str(v)), "." + f + " < " + v, env);
    }
    if Unmistaken(Lte, v) {
      ReadAsIs(Condition(f, Lte, Str(v)), "." + f + " <= " + v, env);
    }
  }

  /** The comparisons, read by the text evaluator. */
  lemma ComparisonsEvaluated<V>(f: string, v: string, env: Env<V>)
    requires PlainField(f)
    ensures PlainValue(Eq, v) ==>
              EvalText("." + f + " == '" + v + "'", env) == EvalCondition(Condition(f, Eq, Str(v)), env)
    ensures PlainValue(Neq, v) ==>
              EvalText("." + f + " != '" + v + "'", env) == EvalCondition(Condition(f, Neq, Str(v)), env)
    ensures PlainValue(Regex, v) ==>
              EvalText("." + f + " ~= '" + v + "'", env) == EvalCondition(Condition(f, Regex, Str(v)), env)
    ensures Unmistaken(Gt, v) ==>
              EvalText("." + f + " > " + v, env) == EvalCondition(Condition(f, Gt, Str(v)), env)
    ensures Unmistaken(Gte, v) ==>
              EvalText("." + f + " >= " + v, env) == EvalCondition(Condition(f, Gte, Str(v)), env)
    ensures Unmistaken(Lt, v) ==>
              EvalText("." + f + " < " + v, env) == EvalCondition(Condition(f, Lt, Str(v)), env)
    ensures Unmistaken(Lte, v) ==>
              EvalText("." + f + " <= " + v, env) == EvalCondition(Condition(f, Lte, Str(v)), env)
  {
    ComparisonTexts(f, Str(v), v);
    if PlainValue(Eq, v) {
      ReadAsIs(Condition(f, Eq, Str(v)), "." + f + " == '" + v + "'", env);
    }
    if PlainValue(Neq, v) {
      ReadAsIs(Condition(f, Neq, Str(v)), "." + f + " != '" + v + "'", env);
    }
    if PlainValue(Regex, v) {
      ReadAsIs(Condition(f, Regex, Str(v)), "." + f + " ~= '" + v + "'", env);
    }
    if Unmistaken(Gt, v) {
      ReadAsIs(Condition(f, Gt, Str(v)), "." + f + " > " + v, env);
    }
    if Unmistaken(Gte, v) {
      ReadAsIs(Condition(f, Gte, Str(v)), "." + f + " >= " + v, env);
    }
    if Unmistaken(Lt, v) {
      ReadAsIs(Condition(f, Lt, Str(v)), "." + f + " < " + v, env);
    }
    if Unmistaken(Lte, v) {
      ReadAsIs(Condition(f, Lte, Str(v)), "." + f + " <= " + v, env);
    }
  }

  /** The exists test, read by both. */
  lemma ExistsRead<V>(f: string, env: Env<V>)
    requires PlainField(f)
    ensures Parse("." + f + " exists") == Some(Leaf(Condition(f, Exists, Nil)))
    ensures EvalText("." + f + " exists", env) == if env.lookup(f).Some? then Pass else Fail
  {
    var c := Condition(f, Exists, Nil);
    TestTexts(f, Nil);
    ReadsBackExactly(c);
    TextLeaf(c, env);
  }

  /** What counts as white space, by code point. */
  lemma WhiteSpace(c: char)
    ensures IsSpace(c) <==>
            || c as int in {0x09, 0x0A, 0x0B, 0x0C, 0x0D, 0x20, 0x85, 0xA0}
            || c as int in {0x1680, 0x2028, 0x2029, 0x202F, 0x205F, 0x3000}
            || 0x2000 <= c as int <= 0x200A
  {
  }

  // ----- connectives

  /** Two conditions joined by a connective, printed, parsed and evaluated. */
  lemma ConnectiveTexts(c: Condition, d: Condition, x: string, y: string)
    requires PlainCondition(c) && PlainCondition(d) && Reread(c) == Some(c) && Reread(d) == Some(d)
    requires Print(Leaf(c)) == Some(x) && Print(Leaf(d)) == Some(y)
    ensures Print(Group(And, [Leaf(c), Leaf(d)])) == Some(x + " && " + y)
    ensures Parse(x + " && " + y) == Some(Group(And, [Leaf(c), Leaf(d)]))
    ensures Print(Group(Or, [Leaf(c), Leaf(d)])) == Some(x + " || " + y)
    ensures Parse(x + " || " + y) == Some(Group(Or, [Leaf(c), Leaf(d)]))
  {
    assert Spaced(And) == " && " && Spaced(Or) == " || ";
    PairText(c, d, And);
    PairText(c, d, Or);
  }

  lemma LeafItems(op: Logic, c: Condition)
    requires Restored(c) == Some(c)
    ensures Items(op, Leaf(c)) == [Leaf(c)]
  {
  }

  lemma PairNormal(n: Node, c: Condition, d: Condition)
    requires n.Group? && n.children == [Leaf(c), Leaf(d)] && Restored(c) == Some(c) && Restored(d) == Some(d)
    ensures Normal(n) == n
  {
    var op, cs := n.op, n.children;
    assert cs[1..] == [Leaf(d)] && cs[1..][1..] == [];
    LeafItems(op, c);
    LeafItems(op, d);
    assert Splice(op, cs[1..]) == Items(op, cs[1..][0]) + Splice(op, cs[1..][1..]);
    assert Splice(op, cs) == Items(op, cs[0]) + Splice(op, cs[1..]);
  }

  lemma PairPlain(n: Node, c: Condition, d: Condition)
    requires n.Group? && !n.op.OtherLogic? && n.children == [Leaf(c), Leaf(d)]
    requires PlainCondition(c) && PlainCondition(d) && ReadsBack(c) && ReadsBack(d)
    ensures Plain(n) && Branching(n) && Readable(n)
  {
    assert forall i :: 0 <= i < 2 ==> n.children[i] == Leaf(c) || n.children[i] == Leaf(d);
  }

  lemma SelfReads(c: Condition)
    requires Reread(c) == Some(c)
    ensures Restored(c) == Some(c) && ReadsBack(c)
  {
  }

  lemma PairText(c: Condition, d: Condition, op: Logic)
    requires PlainCondition(c) && PlainCondition(d) && Reread(c) == Some(c) && Reread(d) == Some(d)
    requires !op.OtherLogic?
    ensures var n, t := Group(op, [Leaf(c), Leaf(d)]), CondText(c) + Spaced(op) + CondText(d);
            Print(n) == Some(t) && Parse(t) == Some(n)
  {
    var n := Group(op, [Leaf(c), Leaf(d)]);
    SelfReads(c);
    SelfReads(d);
    assert Parse(Print(n).value) == Some(n) && Print(n).Some? by {
      PairPlain(n, c, d);
      PairNormal(n, c, d);
      BranchingRoundTrip(n);
    }
    PrintPair(op, Leaf(c), Leaf(d), CondText(c), CondText(d));
  }

  /** Groups in groups: parentheses around another connective, none around the same. */
  lemma NestedTexts(a: Node, b: Node, c: Node, x: string, y: string, z: string)
    requires Print(a) == Some(x) && Print(b) == Some(y) && Print(c) == Some(z)
    requires !a.Group? && !b.Group? && !c.Group?
    ensures Print(Group(And, [a, Group(Or, [b, c])])) == Some(x + " && " + ("(" + (y + " || " + z) + ")"))
    ensures Print(Group(Or, [a, Group(And, [b, c])])) == Some(x + " || " + ("(" + (y + " && " + z) + ")"))
    ensures Print(Group(And, [a, Group(And, [b, c])])) == Some(x + " && " + (y + " && " + z))
    ensures Print(Group(Or, [a, Group(Or, [b, c])])) == Some(x + " || " + (y + " || " + z))
  {
    assert Spaced(And) == " && " && Spaced(Or) == " || ";
    PrintPair(And, b, c, y, z);
    PrintPair(Or, b, c, y, z);
    PrintPair(And, a, Group(Or, [b, c]), x, "(" + (y + " || " + z) + ")");
    PrintPair(Or, a, Group(And, [b, c]), x, "(" + (y + " && " + z) + ")");
    PrintPair(And, a, Group(And, [b, c]), x, y + " && " + z);
    PrintPair(Or, a, Group(Or, [b, c]), x, y + " || " + z);
  }

  /** The other cases of the printer: an empty group, a group of one, unknown operators, connectives and kinds. */
  lemma OddTexts(op: Logic, n: Node, m: Node, c: Condition, kind: string)
    ensures Print(Group(op, [])) == Some("") && Print(Group(op, [n])) == Print(n)
    ensures Print(Unknown(kind)) == None && (c.op.OtherOp? ==> Print(Leaf(c)) == None)
    ensures op.OtherLogic? ==> Print(Group(op, [n, m])) == None
  {
  }

  // ----- several symbols in one text

  /** An occurrence of a symbol lies in one of the two symbols of such a text. */
  lemma OccursInSymbol(h: string, s: string, m: string, sym: string, q: string, other: string, j: nat)
    requires NoOperatorChar(h) && NoOperatorChar(m) && NoOperatorChar(q) && m != []
    requires Symbolic(other) && |sym| <= |other| <= 2 && !Text.Contains(s, other)
    requires OccursAt(h + s + m + sym + q, other, j)
    ensures other == sym && j == |h + s + m|
  {
    var e, p := h + s + m + sym + q, |h + s + m|;
    OccursEnds(e, other);
    assert OperatorChar(e[j]) && OperatorChar(e[j + |other| - 1]);
    assert forall i :: 0 <= i < |h| ==> e[i] == h[i];
    assert forall i :: 0 <= i < |m| ==> e[|h| + |s| + i] == m[i];
    assert forall i :: 0 <= i < |q| ==> e[p + |sym| + i] == q[i];
    if j < p {
      assert e[j..j + |other|] == s[j - |h|..j - |h| + |other|];
      assert OccursAt(s, other, j - |h|);
    } else {
      assert e[p..p + |sym|] == sym;
    }
  }

  /** Where the symbols up to the second one of such a text are found. */
  ghost predicate FoundFirst(e: string, k: nat, place: nat)
    requires k < |OPERATORS|
  {
    forall i :: 0 <= i <= k ==> Index(e, OPERATORS[i].0) == if i == k then place else -1
  }

  lemma SecondPlace(h: string, s: string, m: string, k: nat, q: string)
    requires k < |OPERATORS| && NoOperatorChar(h) && NoOperatorChar(m) && NoOperatorChar(q) && m != []
    requires forall i :: 0 <= i <= k ==> !Text.Contains(s, OPERATORS[i].0)
    ensures FoundFirst(h + s + m + OPERATORS[k].0 + q, k, |h + s + m|)
  {
    var p, sym := h + s + m, OPERATORS[k].0;
    var e := p + sym + q;
    forall i | 0 <= i <= k
      ensures Index(e, OPERATORS[i].0) == if i == k then |p| else -1
    {
      TableOrder(i, k);
      forall j: nat | OccursAt(e, OPERATORS[i].0, j)
        ensures i == k && j == |p|
      {
        OccursInSymbol(h, s, m, sym, q, OPERATORS[i].0, j);
      }
      assert e[|p|..|p| + |sym|] == sym;
      assert OccursAt(e, sym, |p|);
    }
  }

  /** Both readers cut the text there. */
  lemma CutThere(p: string, k: nat, q: string)
    requires k < |OPERATORS| && p != [] && FoundFirst(p + OPERATORS[k].0 + q, k, |p|)
    ensures var e := p + OPERATORS[k].0 + q;
            FindOperator(e, OPERATORS) == FindAnywhere(e, OPERATORS) ==
            Some(Condition(TrimPrefix(Trim(p), "."), OPERATORS[k].1, Str(TrimQuotes(Trim(q)))))
  {
    var sym := OPERATORS[k].0;
    var e := p + sym + q;
    FindAt(e, OPERATORS, k);
    SkipAnywhere(e, OPERATORS, k);
    assert e[..|p|] == p && e[|p| + |sym|..] == q;
  }

  /** Of two symbols the one earlier in the table is found, though it stands later in the text. */
  lemma SecondFound(h: string, s: string, m: string, k: nat, q: string)
    requires k < |OPERATORS| && NoOperatorChar(h) && NoOperatorChar(m) && NoOperatorChar(q) && m != []
    requires forall i :: 0 <= i <= k ==> !Text.Contains(s, OPERATORS[i].0)
    ensures var p, sym := h + s + m, OPERATORS[k].0;
            FindOperator(p + sym + q, OPERATORS) == FindAnywhere(p + sym + q, OPERATORS) ==
            Some(Condition(TrimPrefix(Trim(p), "."), OPERATORS[k].1, Str(TrimQuotes(Trim(q)))))
  {
    SecondPlace(h, s, m, k, q);
    CutThere(h + s + m, k, q);
  }

  /** A nonempty value for any comparison. */
  predicate EasyWord(v: string) {
    EasyValue(v) && v != ""
  }

  lemma RightSide(w: string)
    requires EasyWord(w)
    ensures TrimQuotes(Trim(" " + w)) == w
  {
    TrimTight(w);
    TrimPadding(" ", w, "");
    assert " " + w + "" == " " + w;
    TrimQuotesNone(w);
  }

  lemma SecondAtom(g: string, h: string, s: string, m: string, k: nat, w: string)
    requires k < |OPERATORS| && NoOperatorChar(h) && NoOperatorChar(m) && m != [] && EasyWord(w)
    requires "." + g + " " == h + s + m && g != [] && !IsSpace(g[|g| - 1])
    requires forall i :: 0 <= i <= k ==> !Text.Contains(s, OPERATORS[i].0)
    ensures ParseAtom("." + g + " " + OPERATORS[k].0 + (" " + w)) == Some(Condition(g, OPERATORS[k].1, Str(w)))
  {
    var p := "." + g + " " + OPERATORS[k].0;
    SecondFound(h, s, m, k, " " + w);
    FieldBack(g);
    RightSide(w);
    assert p + (" " + w) == p + " " + w;
    NotExistsTest(p, w);
  }

  lemma AtomRead(t: string, c: Condition)
    requires Quiet(t) && t != [] && t[0] == '.' && !IsSpace(t[|t| - 1]) && ParseAtom(t) == Some(c)
    ensures Parse(t) == Some(Leaf(c))
  {
    TrimTight(t);
    QuietAtomic(t);
    ParseAtomic(t);
  }

  lemma SecondRead(g: string, h: string, s: string, m: string, k: nat, w: string, t: string)
    requires k < |OPERATORS| && NoOperatorChar(h) && NoOperatorChar(m) && m != [] && EasyWord(w)
    requires "." + g + " " == h + s + m && g != [] && !IsSpace(g[|g| - 1]) && Quiet("." + g)
    requires forall i :: 0 <= i <= k ==> !Text.Contains(s, OPERATORS[i].0)
    requires t == "." + g + " " + OPERATORS[k].0 + (" " + w)
    ensures Parse(t) == Some(Leaf(Condition(g, OPERATORS[k].1, Str(w))))
  {
    assert ParseAtom(t) == Some(Condition(g, OPERATORS[k].1, Str(w))) by {
      SecondAtom(g, h, s, m, k, w);
    }
    assert Quiet(t) && t[0] == '.' && t[|t| - 1] == w[|w| - 1] by {
      SecondQuiet(g, k, w);
    }
    AtomRead(t, Condition(g, OPERATORS[k].1, Str(w)));
  }

  lemma SymbolicQuiet(s: string)
    requires Symbolic(s)
    ensures Quiet(" " + s + " ")
  {
    var t := " " + s + " ";
    assert forall i :: 0 <= i < |t| ==> t[i] == ' ' || OperatorChar(t[i]);
  }

  lemma SecondQuiet(g: string, k: nat, w: string)
    requires k < |OPERATORS| && Quiet("." + g) && EasyWord(w)
    ensures Quiet("." + g + " " + OPERATORS[k].0 + (" " + w))
  {
    var end := " " + OPERATORS[k].0 + " ";
    TableOrder(k, k);
    SymbolicQuiet(OPERATORS[k].0);
    QuietConcat("." + g, end);
    QuietConcat("." + g + end, w);
    assert "." + g + end + w == "." + g + " " + OPERATORS[k].0 + (" " + w);
  }

  /** The text before the second symbol. */
  lemma FirstQuiet(f: string, middle: string, s: string, v: string)
    requires PlainField(f) && EasyWord(v) && Symbolic(s) && middle == " " + s + " "
    ensures Quiet("." + (f + middle + v))
  {
    SymbolicQuiet(s);
    QuietConcat(".", f);
    QuietConcat("." + f, middle);
    QuietConcat("." + f + middle, v);
    assert "." + f + middle + v == "." + (f + middle + v);
  }

  lemma Blanks()
    ensures " " + "~=" + " " == " ~= " && " " + "!=" + " " == " != " && " " + ">=" + " " == " >= "
    ensures " " + "<=" + " " == " <= " && " " + "==" + " " == " == "
    ensures " " + ">" + " " == " > " && " " + "<" + " " == " < "
  {
  }

  lemma EarlierOfFirst(f: string, v: string, w: string)
    requires PlainField(f) && EasyWord(v) && EasyWord(w)
    ensures Parse("." + f + " != " + v + " ~= " + w) == Some(Leaf(Condition(f + " != " + v, Regex, Str(w))))
    ensures Parse("." + f + " >= " + v + " != " + w) == Some(Leaf(Condition(f + " >= " + v, Neq, Str(w))))
  {
    Blanks();
    PairRead(f, " != ", "!=", v, 0, " ~= ", w);
    PairRead(f, " >= ", ">=", v, 1, " != ", w);
  }

  lemma EarlierOfMiddle(f: string, v: string, w: string)
    requires PlainField(f) && EasyWord(v) && EasyWord(w)
    ensures Parse("." + f + " <= " + v + " >= " + w) == Some(Leaf(Condition(f + " <= " + v, Gte, Str(w))))
    ensures Parse("." + f + " == " + v + " <= " + w) == Some(Leaf(Condition(f + " == " + v, Lte, Str(w))))
  {
    Blanks();
    PairRead(f, " <= ", "<=", v, 2, " >= ", w);
    PairRead(f, " == ", "==", v, 3, " <= ", w);
  }

  lemma EarlierOfLast(f: string, v: string, w: string)
    requires PlainField(f) && EasyWord(v) && EasyWord(w)
    ensures Parse("." + f + " > " + v + " == " + w) == Some(Leaf(Condition(f + " > " + v, Eq, Str(w))))
    ensures Parse("." + f + " < " + v + " > " + w) == Some(Leaf(Condition(f + " < " + v, Gt, Str(w))))
  {
    Blanks();
    PairRead(f, " > ", ">", v, 4, " == ", w);
    PairRead(f, " < ", "<", v, 5, " > ", w);
  }

  /** In which order the symbols are looked for: of two, the one looked for first is the one read. */
  lemma EarlierSymbolWins(f: string, v: string, w: string)
    requires PlainField(f) && EasyWord(v) && EasyWord(w)
    ensures Parse("." + f + " != " + v + " ~= " + w) == Some(Leaf(Condition(f + " != " + v, Regex, Str(w))))
    ensures Parse("." + f + " >= " + v + " != " + w) == Some(Leaf(Condition(f + " >= " + v, Neq, Str(w))))
    ensures Parse("." + f + " <= " + v + " >= " + w) == Some(Leaf(Condition(f + " <= " + v, Gte, Str(w))))
    ensures Parse("." + f + " == " + v + " <= " + w) == Some(Leaf(Condition(f + " == " + v, Lte, Str(w))))
    ensures Parse("." + f + " > " + v + " == " + w) == Some(Leaf(Condition(f + " > " + v, Eq, Str(w))))
    ensures Parse("." + f + " < " + v + " > " + w) == Some(Leaf(Condition(f + " < " + v, Gt, Str(w))))
  {
    EarlierOfFirst(f, v, w);
    EarlierOfMiddle(f, v, w);
    EarlierOfLast(f, v, w);
  }

  lemma PairShape(f: string, s: string, v: string, sym: string, w: string, middle: string, end: string)
    requires middle == " " + s + " " && end == " " + sym + " "
    ensures "." + (f + middle + v) + " " == ("." + f + " ") + s + (" " + v + " ")
    ensures "." + f + middle + v + end + w == "." + (f + middle + v) + " " + sym + (" " + w)
  {
    assert "." + f + middle + v + end == "." + (f + middle + v) + " " + sym + " ";
  }

  lemma PairRead(f: string, middle: string, s: string, v: string, k: nat, end: string, w: string)
    requires PlainField(f) && EasyWord(v) && EasyWord(w) && k < 6 && s == OPERATORS[k + 1].0
    requires middle == " " + s + " " && end == " " + OPERATORS[k].0 + " "
    ensures Parse("." + f + middle + v + end + w) == Some(Leaf(Condition(f + middle + v, OPERATORS[k].1, Str(w))))
  {
    var g, t := f + middle + v, "." + f + middle + v + end + w;
    assert Quiet("." + g) && g[|g| - 1] == v[|v| - 1] by {
      TableOrder(k + 1, k + 1);
      FirstQuiet(f, middle, s, v);
    }
    NextNotInside(k);
    PairShape(f, s, v, OPERATORS[k].0, w, middle, end);
    SecondRead(g, "." + f + " ", s, " " + v + " ", k, w, t);
  }

  lemma NextNotInside(k: nat)
    requires k < 6
    ensures forall i :: 0 <= i <= k ==> !Text.Contains(OPERATORS[k + 1].0, OPERATORS[i].0)
  {
    var s := OPERATORS[k + 1].0;
    forall i | 0 <= i <= k
      ensures !Text.Contains(s, OPERATORS[i].0)
    {
      TableOrder(i, k + 1);
      assert s[0..|s|] == s;
    }
  }

  // ----- however it is spelled

  /** The meaning of a symbol. */
  predicate Means(sym: string, op: Operator) {
    || (sym == "==" && op == Eq) || (sym == "!=" && op == Neq) || (sym == "~=" && op == Regex)
    || (sym == ">" && op == Gt) || (sym == ">=" && op == Gte)
    || (sym == "<" && op == Lt) || (sym == "<=" && op == Lte)
  }

  lemma Listed(sym: string, op: Operator) returns (k: nat)
    requires Means(sym, op)
    ensures k < |OPERATORS| && OPERATORS[k] == (sym, op) && Symbolic(sym)
  {
    k := if sym == "~=" then 0
      else if sym == "!=" then 1
      else if sym == ">=" then 2
      else if sym == "<=" then 3
      else if sym == "==" then 4
      else if sym == ">" then 5
      else 6;
  }

  predicate AllQuotes(s: string) {
    forall i :: 0 <= i < |s| ==> IsQuote(s[i])
  }

  lemma {:induction false} QuotesRight(v: string, q: string)
    requires AllQuotes(q) && v != "" && !IsQuote(v[0]) && !IsQuote(v[|v| - 1])
    ensures TrimQuotes(v + q) == v
    decreases |q|
  {
    if q == "" {
      assert v + q == v;
    } else {
      assert (v + q)[..|v + q| - 1] == v + q[..|q| - 1];
      QuotesRight(v, q[..|q| - 1]);
    }
  }

  lemma {:induction false} QuotesAround(q: string, v: string, r: string)
    requires AllQuotes(q) && AllQuotes(r) && v != "" && !IsQuote(v[0]) && !IsQuote(v[|v| - 1])
    ensures TrimQuotes(q + v + r) == v
    decreases |q|
  {
    if q == "" {
      assert q + v + r == v + r;
      QuotesRight(v, r);
    } else {
      assert (q + v + r)[1..] == q[1..] + v + r;
      QuotesAround(q[1..], v, r);
    }
  }

  /** What stands right of the symbol. */
  lemma OperandBack(b: string, q: string, v: string, r: string)
    requires AllSpace(b) && AllQuotes(q) && AllQuotes(r) && EasyWord(v)
    ensures TrimQuotes(Trim(b + (q + v + r))) == v
  {
    var x := q + v + r;
    assert x[0] == if q == "" then v[0] else q[0];
    assert x[|x| - 1] == if r == "" then v[|v| - 1] else r[|r| - 1];
    TrimTight(x);
    TrimPadding(b, x, "");
    assert b + x + "" == b + x;
    QuotesAround(q, v, r);
  }

  /** A field written with or without the leading dot. */
  predicate Spells(g: string, f: string) {
    f != "" && !IsSpace(f[0]) && PlainField(f) && (g == "." + f || (g == f && f[0] != '.'))
  }

  lemma TrimAfter(g: string, a: string)
    requires Tight(g) && AllSpace(a)
    ensures Trim(g + a) == g
  {
    TrimPadding("", g, a);
    assert "" + g + a == g + a;
    TrimTight(g);
  }

  lemma SpelledBack(g: string, f: string, a: string)
    requires Spells(g, f) && AllSpace(a)
    ensures TrimPrefix(Trim(g + a), ".") == f
  {
    assert Tight(g) && TrimPrefix(g, ".") == f by {
      assert g == "." + f ==> g[1..] == f;
    }
    TrimAfter(g, a);
  }

  /** A text whose last part does not end in the word exists does not either, if the part is a word of its own. */
  lemma EndsOtherwise(x: string, v: string)
    requires x != "" && !('a' <= x[|x| - 1] <= 'z') && v != "" && !EndsInExists(v)
    ensures !HasSuffix(x + v, " exists")
  {
    var e, y := x + v, " exists";
    if |v| < 6 && |e| >= 7 {
      assert e[|e| - 7..][6 - |v|] == x[|x| - 1];
      assert 'a' <= y[6 - |v|] <= 'z';
    } else if |v| == 6 {
      assert e[|e| - 7..][1..] == v && y[1..] == "exists";
      assert " " + "exists" == y && (" " + v)[0..] == " " + v;
    } else if |v| > 6 {
      assert (" " + v)[|v| - 6..] == e[|e| - 7..];
    }
  }

  /** A text of one symbol, spelled anyhow. */
  function Spelling(g: string, a: string, sym: string, b: string, q: string, v: string, r: string): (t: string) {
    g + a + sym + (b + (q + v + r))
  }

  /** It is found by both readers. */
  lemma SpellingFound(g: string, f: string, a: string, k: nat, b: string, q: string, v: string, r: string)
    requires Spells(g, f) && AllSpace(a) && AllSpace(b) && AllQuotes(q) && AllQuotes(r) && EasyWord(v)
    requires k < |OPERATORS|
    ensures var t := Spelling(g, a, OPERATORS[k].0, b, q, v, r);
            FindOperator(t, OPERATORS) == FindAnywhere(t, OPERATORS) == Some(Condition(f, OPERATORS[k].1, Str(v)))
  {
    var x := b + (q + v + r);
    assert NoOperatorChar(g + a) && NoOperatorChar(x);
    assert "" + "" + (g + a) == g + a;
    SecondFound("", "", g + a, k, x);
    SpelledBack(g, f, a);
    OperandBack(b, q, v, r);
  }

  /** Blanks, quotes and symbols are nothing to the scanner. */
  lemma BlankQuiet(x: string)
    requires forall i :: 0 <= i < |x| ==> IsSpace(x[i]) || IsQuote(x[i]) || OperatorChar(x[i])
    ensures Quiet(x)
  {
  }

  predicate NoConnectiveEnds(x: string) {
    x != [] ==> x[0] != '&' && x[0] != '|' && x[|x| - 1] != '&' && x[|x| - 1] != '|'
  }

  lemma MiddleQuiet(x: string)
    requires forall i :: 0 <= i < |x| ==> IsSpace(x[i]) || IsQuote(x[i]) || OperatorChar(x[i])
    ensures Quiet(x) && NoConnectiveEnds(x)
  {
    BlankQuiet(x);
  }

  lemma FourQuiet(g: string, m: string, v: string, r: string)
    requires Quiet(g) && Quiet(m) && Quiet(v) && Quiet(r) && m != [] && NoConnectiveEnds(m) && NoConnectiveEnds(r)
    ensures Quiet(g + m + v + r)
  {
    QuietConcat(g, m);
    assert (g + m)[|g + m| - 1] == m[|m| - 1];
    QuietConcat(g + m, v);
    QuietConcat(g + m + v, r);
  }

  lemma SpellingShape(g: string, a: string, sym: string, b: string, q: string, v: string, r: string)
    ensures g + (a + sym + b + q) + v + r == Spelling(g, a, sym, b, q, v, r)
  {
    assert b + (q + v + r) == b + q + v + r;
  }

  lemma FieldQuiet(g: string, f: string)
    requires Spells(g, f)
    ensures Quiet(g)
  {
    QuietConcat(".", f);
  }

  lemma BlanksConcat(a: string, sym: string, b: string, q: string)
    requires AllSpace(a) && AllSpace(b) && AllQuotes(q) && Symbolic(sym)
    ensures Quiet(a + sym + b + q) && NoConnectiveEnds(a + sym + b + q)
  {
    MiddleQuiet(a + sym + b + q);
  }

  lemma SpellingQuiet(g: string, f: string, a: string, sym: string, b: string, q: string, v: string, r: string)
    requires Spells(g, f) && AllSpace(a) && AllSpace(b) && AllQuotes(q) && AllQuotes(r) && EasyWord(v)
    requires Symbolic(sym)
    ensures Quiet(Spelling(g, a, sym, b, q, v, r))
  {
    FieldQuiet(g, f);
    BlanksConcat(a, sym, b, q);
    MiddleQuiet(r);
    FourQuiet(g, a + sym + b + q, v, r);
    SpellingShape(g, a, sym, b, q, v, r);
  }

  lemma SpellingNotExists(g: string, a: string, sym: string, b: string, q: string, v: string, r: string)
    requires AllSpace(b) && AllQuotes(q) && AllQuotes(r) && EasyWord(v) && Symbolic(sym)
    ensures !HasSuffix(Spelling(g, a, sym, b, q, v, r), " exists")
  {
    var t, x := Spelling(g, a, sym, b, q, v, r), g + a + sym + b + q;
    assert t == x + v + r;
    if r == "" {
      assert x + v + r == x + v;
      assert x[|x| - 1] == if q != "" then q[|q| - 1] else if b != "" then b[|b| - 1] else sym[|sym| - 1];
      EndsOtherwise(x, v);
    } else {
      assert t[|t| - 1] == r[|r| - 1];
      NotExistsEnd(t);
    }
  }

  /**
    * A comparison however it is spelled, with or without the leading dot, with any white space around the
    * symbol and around the whole, and with any quotes around the value: read alike by both readers.
    */
  lemma AnySpelling<V>(l: string, g: string, f: string, a: string, sym: string, op: Operator, b: string, q: string,
                       v: string, r: string, w: string, env: Env<V>)
    requires Spells(g, f) && Means(sym, op) && EasyWord(v)
    requires AllSpace(l) && AllSpace(a) && AllSpace(b) && AllSpace(w) && AllQuotes(q) && AllQuotes(r)
    ensures var t := l + (g + a + sym + (b + (q + v + r))) + w;
            && Parse(t) == Some(Leaf(Condition(f, op, Str(v))))
            && EvalText(t, env) == EvalCondition(Condition(f, op, Str(v)), env)
  {
    var t := Spelling(g, a, sym, b, q, v, r);
    var k := Listed(sym, op);
    SpellingFound(g, f, a, k, b, q, v, r);
    SpellingNotExists(g, a, sym, b, q, v, r);
    SpellingQuiet(g, f, a, sym, b, q, v, r);
    SpellingTight(g, f, a, sym, b, q, v, r);
    TrimPadding(l, t, w);
    AtomReadBoth(l + t + w, t, Condition(f, op, Str(v)), env);
  }

  lemma SpellingTight(g: string, f: string, a: string, sym: string, b: string, q: string, v: string, r: string)
    requires Spells(g, f) && AllQuotes(r) && EasyWord(v)
    ensures var t := Spelling(g, a, sym, b, q, v, r); Tight(t) && t != [] && t[0] == g[0]
  {
    var t := Spelling(g, a, sym, b, q, v, r);
    assert t[|t| - 1] == if r == "" then v[|v| - 1] else r[|r| - 1];
  }

  lemma AtomReadBoth<V>(s: string, t: string, c: Condition, env: Env<V>)
    requires Quiet(t) && t != [] && Tight(t) && Trim(s) == Trim(t) && ParseAtom(t) == TextAtom(t) == Some(c)
    ensures Parse(s) == Some(Leaf(c)) && EvalText(s, env) == EvalCondition(c, env)
  {
    TrimTight(t);
    assert t[0] != OPEN;
    assert Parse(t) == Some(Leaf(c)) by {
      QuietAtomic(t);
      ParseAtomic(t);
    }
    NotContained(t, "&&");
    NotContained(t, "||");
  }

  /** An exists test, with or without the leading dot, with any further white space. */
  lemma ExistsSpelling<V>(l: string, g: string, f: string, a: string, w: string, env: Env<V>)
    requires Spells(g, f) && AllSpace(l) && AllSpace(a) && AllSpace(w)
    ensures var t := l + (g + a + " exists") + w;
            && Parse(t) == Some(Leaf(Condition(f, Exists, Nil)))
            && EvalText(t, env) == EvalCondition(Condition(f, Exists, Nil), env)
  {
    var t := g + a + " exists";
    ExistsQuiet(g, f, a);
    ExistsAtom(g, f, a);
    assert Trim(l + t + w) == Trim(t) by {
      TrimPadding(l, t, w);
    }
    AtomReadBoth(l + t + w, t, Condition(f, Exists, Nil), env);
  }

  lemma ExistsAtom(g: string, f: string, a: string)
    requires Spells(g, f) && AllSpace(a)
    ensures ParseAtom(g + a + " exists") == TextAtom(g + a + " exists") == Some(Condition(f, Exists, Nil))
  {
    var t := g + a + " exists";
    assert t[..|t| - 7] == g + a && t[|t| - 7..] == " exists";
    SpelledBack(g, f, a);
  }

  lemma ExistsQuiet(g: string, f: string, a: string)
    requires Spells(g, f) && AllSpace(a)
    ensures Quiet(g + a + " exists") && Tight(g + a + " exists") && g != [] && g[0] != OPEN
  {
    FieldQuiet(g, f);
    MiddleQuiet(a);
    FourQuiet(g, a + " ", "exists", "");
    assert g + (a + " ") + "exists" + "" == g + a + " exists";
  }

  // ----- texts the printer does not make

  /** A symbol at the very start: refused by the parser, read with an empty field by the text evaluator. */
  lemma LeadingSymbol<V>(v: string, env: Env<V>)
    requires EasyValue(v) && v != ""
    ensures Parse("> " + v) == None
    ensures EvalText("> " + v, env) == EvalCondition(Condition("", Gt, Str(v)), env)
  {
    var t := "> " + v;
    TrimTight(t);
    LeadingQuiet(v);
    QuietAtomic(t);
    ParseAtomic(t);
    NotExistsTest(">", v);
    assert ">" + " " + v == t;
    LeadingOnly(v);
    FindNone(t, OPERATORS);
    NotContained(t, "&&");
    NotContained(t, "||");
    LeadingFound(v);
  }

  lemma LeadingQuiet(v: string)
    requires Quiet(v)
    ensures Quiet("> " + v)
  {
    QuietConcat("> ", v);
  }

  /** In such a text the only symbol is the one at the start. */
  lemma LeadingOnly(v: string)
    requires NoOperatorChar(v)
    ensures forall i :: 0 <= i < |OPERATORS| ==> Index("> " + v, OPERATORS[i].0) == if i == 5 then 0 else -1
  {
    var t := "> " + v;
    forall i | 0 <= i < |OPERATORS|
      ensures Index(t, OPERATORS[i].0) == if i == 5 then 0 else -1
    {
      OccursEnds(t, OPERATORS[i].0);
      TableOrder(i, i);
      assert forall j :: 1 <= j < |t| ==> !OperatorChar(t[j]);
      assert t[0..1] == ">";
    }
  }

  lemma LeadingFound(v: string)
    requires EasyValue(v)
    ensures FindAnywhere("> " + v, OPERATORS) == Some(Condition("", Gt, Str(v)))
  {
    var t := "> " + v;
    LeadingOnly(v);
    SkipAnywhere(t, OPERATORS, 5);
    assert t[..0] == "" && t[1..] == " " + v;
    TrimTight(v);
    TrimPadding(" ", v, "");
    assert " " + v + "" == " " + v;
    TrimQuotesNone(v);
  }

  lemma {:induction false} SkipAnywhere(e: string, ops: seq<(string, Operator)>, k: nat)
    requires k < |ops| && (forall i :: 0 <= i < k ==> Index(e, ops[i].0) == -1) && Index(e, ops[k].0) >= 0
    ensures FindAnywhere(e, ops) == Some(CutAt(e, Index(e, ops[k].0), ops[k].0, ops[k].1))
  {
    if k > 0 {
      SkipAnywhere(e, ops[1..], k - 1);
    }
  }

  /** A separator at the end of a text adds no part for the parser. */
  lemma TrailingSeparator(s: string, sep: string)
    requires (sep == "&&" || sep == "||") && WellNested(s, 0) && (s != [] ==> s[|s| - 1] != sep[0])
    ensures Split(s + sep, sep) == Pieces(s, sep)
  {
    PiecesConcat(s, "", sep, 0, []);
    assert s + sep + "" == s + sep;
    assert Pieces(s + sep, sep) == Pieces(s, sep) + [""];
  }

  /** The text evaluator cuts without losing anything: the parts joined by the separator are the text. */
  lemma {:induction false} SplitAllJoin(s: string, sep: string, cur: string)
    requires |sep| == 2
    ensures Join(SplitAll(s, sep, cur), sep) == cur + s
  {
    if s == [] {
      assert cur + s == cur;
    } else if sep <= s {
      SplitAllJoin(s[2..], sep, []);
      assert [] + s[2..] == s[2..];
      JoinCons(cur, SplitAll(s[2..], sep, []), sep, s);
    } else {
      SplitAllJoin(s[1..], sep, cur + [s[0]]);
      assert cur + [s[0]] + s[1..] == cur + s;
    }
  }
}
