/** What the parser makes of one printed condition, for each of the sixteen operators. */
module FilterLeaf {
  import opened Options
  import opened Text
  import opened FilterModel
  import opened FilterConverter
  import opened FilterScan

  predicate OperatorChar(c: char) {
    c == '=' || c == '!' || c == '<' || c == '>' || c == '~'
  }

  predicate NoParen(s: string) {
    forall i :: 0 <= i < |s| ==> !IsParen(s[i])
  }

  /** No parenthesis and no connective. */
  predicate Quiet(s: string) {
    NoParen(s) && Single(s, '&') && Single(s, '|')
  }

  /** Text that means nothing to the scanner: no parenthesis, no connective, no quote. */
  predicate MildText(s: string) {
    Quiet(s) && forall i :: 0 <= i < |s| ==> !IsQuote(s[i])
  }

  predicate PlainField(f: string) {
    MildText(f) && NoOperatorChar(f) && (f != [] ==> !IsSpace(f[|f| - 1]))
  }

  predicate NoOperatorChar(s: string) {
    forall i :: 0 <= i < |s| ==> !OperatorChar(s[i])
  }

  /** None of the first `n` operator symbols occurs. */
  predicate FreeOf(s: string, n: nat) {
    forall i :: 0 <= i < n && i < |OPERATORS| ==> Index(s, OPERATORS[i].0) == -1
  }

  /** How many symbols are looked for before the operator is found: all of them for one without a symbol. */
  function Tried(op: Operator): (n: nat)
    ensures n <= |OPERATORS|
  {
    if Comparison(op) then Rank(op) else |OPERATORS|
  }

  /** A value in quotes, or one without that keeps its ends, with no symbol that is looked for earlier. */
  predicate PlainValue(op: Operator, r: string) {
    MildText(r) && FreeOf(r, Tried(op)) && (Quoted(op) || Tight(r))
  }

  predicate PlainCondition(c: Condition) {
    && PlainField(c.field)
    && !c.op.OtherOp?
    && (TakesNoValue(c.op) || PlainValue(c.op, Repr(c.value)))
  }

  /** The printed operand is, or ends in, the word exists. */
  predicate EndsInExists(operand: string) {
    HasSuffix(" " + operand, " exists")
  }

  /** An unquoted value that ends in the word exists makes the text read as an exists test. */
  predicate Misread(c: Condition) {
    !TakesNoValue(c.op) && !Quoted(c.op) && !c.op.OtherOp? && EndsInExists(Repr(c.value))
  }

  /**
    * What a condition means to come back as: comparisons with the printed text of their value as a
    * string, the null tests as comparisons with the word null, the rest not at all.
    */
  function Restored(c: Condition): (r: Option<Condition>) {
    match c.op
    case Exists => Some(Condition(c.field, Exists, Nil))
    case IsNull => Some(Condition(c.field, Eq, Str("null")))
    case IsNotNull => Some(Condition(c.field, Neq, Str("null")))
    case Eq | Neq | Gt | Gte | Lt | Lte | Regex => Some(c.(value := Str(Repr(c.value))))
    case _ => None
  }

  /** How a plain condition really comes back: misread, everything before the word exists is its field. */
  function Reread(c: Condition): (r: Option<Condition>) {
    if Misread(c) then
      var v := " " + Repr(c.value);
      Some(Condition(TrimRight(c.field + " " + Symbol(c.op) + v[..|v| - 7]), Exists, Nil))
    else Restored(c)
  }

  /** The condition comes back as it is meant to. */
  predicate ReadsBack(c: Condition) {
    Restored(c).Some? && !Misread(c)
  }

  // ----- finding the operator

  lemma {:induction false} FindAt(expr: string, ops: seq<(string, Operator)>, k: nat)
    requires k < |ops|
    requires forall i :: 0 <= i < k ==> Index(expr, ops[i].0) <= 0
    requires Index(expr, ops[k].0) > 0
    ensures FindOperator(expr, ops) == Some(CutAt(expr, Index(expr, ops[k].0), ops[k].0, ops[k].1))
  {
    if k > 0 {
      FindAt(expr, ops[1..], k - 1);
    }
  }

  lemma {:induction false} FindNone(expr: string, ops: seq<(string, Operator)>)
    requires forall i :: 0 <= i < |ops| ==> Index(expr, ops[i].0) <= 0
    ensures FindOperator(expr, ops) == None
  {
    if ops != [] {
      FindNone(expr, ops[1..]);
    }
  }

  /** Both ends of a symbol occur where the symbol does. */
  lemma OccursEnds(e: string, sub: string)
    requires sub != []
    ensures forall j: nat :: OccursAt(e, sub, j) ==> e[j] == sub[0] && e[j + |sub| - 1] == sub[|sub| - 1]
    ensures forall j: nat :: OccursAt(e, sub, j) ==> sub[|sub| - 1] in e
  {
    forall j: nat | OccursAt(e, sub, j)
      ensures e[j] == sub[0] && e[j + |sub| - 1] == sub[|sub| - 1] && sub[|sub| - 1] in e
    {
      assert e[j..j + |sub|][0] == e[j] && e[j..j + |sub|][|sub| - 1] == e[j + |sub| - 1];
    }
  }

  predicate Comparison(op: Operator) {
    op.Eq? || op.Neq? || op.Gt? || op.Gte? || op.Lt? || op.Lte? || op.Regex?
  }

  function Rank(op: Operator): (k: nat)
    requires Comparison(op)
    ensures k < |OPERATORS| && OPERATORS[k] == (Symbol(op), op)
  {
    match op
    case Regex => 0
    case Neq => 1
    case Gte => 2
    case Lte => 3
    case Eq => 4
    case Gt => 5
    case Lt => 6
  }

  /** Longer symbols are tried first, and no symbol is listed twice. */
  lemma TableOrder(i: nat, k: nat)
    requires i <= k < |OPERATORS|
    ensures 1 <= |OPERATORS[k].0| <= |OPERATORS[i].0| <= 2
    ensures forall j :: 0 <= j < |OPERATORS[i].0| ==> OperatorChar(OPERATORS[i].0[j])
    ensures OPERATORS[i].0 == OPERATORS[k].0 ==> i == k
  {
  }

  predicate Symbolic(other: string) {
    other != [] && forall i :: 0 <= i < |other| ==> OperatorChar(other[i])
  }

  /** Text without operator characters around another adds no symbol. */
  lemma MiddleAbsent(a: string, r: string, b: string, other: string)
    requires NoOperatorChar(a) && NoOperatorChar(b) && Symbolic(other) && Index(r, other) == -1
    ensures Index(a + r + b, other) == -1
  {
    var e := a + r + b;
    OccursEnds(e, other);
    forall j: nat
      ensures !OccursAt(e, other, j)
    {
      if OccursAt(e, other, j) {
        assert OperatorChar(e[j]) && OperatorChar(e[j + |other| - 1]);
        assert |a| <= j && j + |other| <= |a| + |r|;
        assert e[j..j + |other|] == r[j - |a|..j - |a| + |other|];
        assert OccursAt(r, other, j - |a|);
      }
    }
  }

  lemma FreeMiddle(a: string, r: string, b: string, n: nat)
    requires NoOperatorChar(a) && NoOperatorChar(b) && FreeOf(r, n)
    ensures FreeOf(a + r + b, n)
  {
    forall i | 0 <= i < n && i < |OPERATORS|
      ensures Index(a + r + b, OPERATORS[i].0) == -1
    {
      TableOrder(i, i);
      MiddleAbsent(a, r, b, OPERATORS[i].0);
    }
  }

  /** No symbol tried earlier begins within a later one followed by a blank. */
  lemma TableApart(i: nat, k: nat)
    requires i < k < |OPERATORS|
    ensures !(OPERATORS[i].0 <= OPERATORS[k].0)
    ensures |OPERATORS[k].0| == 2 ==> OPERATORS[i].0[0] != OPERATORS[k].0[1]
  {
    var other, sym := OPERATORS[i].0, OPERATORS[k].0;
    TableOrder(i, k);
    assert other <= sym ==> other == sym;
  }

  lemma ShiftedOccurs(sym: string, q: string, other: string, j: nat)
    requires j >= |sym| && OccursAt(sym + q, other, j)
    ensures OccursAt(q, other, j - |sym|)
  {
    assert (sym + q)[j..j + |other|] == q[j - |sym|..j - |sym| + |other|];
  }

  lemma SymbolThenBlank(sym: string, other: string, q: string)
    requires 1 <= |sym| <= |other| <= 2 && Symbolic(other) && other != sym
    requires |sym| == 2 ==> other[0] != sym[1]
    requires Index(q, other) == -1 && (q == [] || q[0] == ' ')
    ensures Index(sym + q, other) == -1
  {
    var e := sym + q;
    OccursEnds(e, other);
    forall j: nat
      ensures !OccursAt(e, other, j)
    {
      if j >= |sym| && OccursAt(e, other, j) {
        ShiftedOccurs(sym, q, other, j);
      } else if j == 0 && |other| == |sym| {
        assert e[0..|sym|] == sym;
      }
    }
  }

  lemma SymbolAbsent(i: nat, k: nat, q: string)
    requires i < k < |OPERATORS| && Index(q, OPERATORS[i].0) == -1 && (q == [] || q[0] == ' ')
    ensures Index(OPERATORS[k].0 + q, OPERATORS[i].0) == -1
  {
    TableApart(i, k);
    TableOrder(i, k);
    SymbolThenBlank(OPERATORS[k].0, OPERATORS[i].0, q);
  }

  lemma FindPrinted(p: string, k: nat, q: string)
    requires k < |OPERATORS| && p != [] && NoOperatorChar(p) && FreeOf(q, k) && (q == [] || q[0] == ' ')
    ensures FindOperator(p + OPERATORS[k].0 + q, OPERATORS) ==
            Some(Condition(TrimPrefix(Trim(p), "."), OPERATORS[k].1, Str(TrimQuotes(Trim(q)))))
  {
    var sym := OPERATORS[k].0;
    var e := p + sym + q;
    assert e == p + (sym + q) + "";
    forall i | 0 <= i < k
      ensures Index(e, OPERATORS[i].0) == -1
    {
      TableOrder(i, k);
      SymbolAbsent(i, k, q);
      MiddleAbsent(p, sym + q, "", OPERATORS[i].0);
    }
    FoundAt(p, k, q);
    FindAt(e, OPERATORS, k);
    assert e[..|p|] == p;
    assert e[|p| + |sym|..] == q;
  }

  lemma FoundAt(p: string, k: nat, q: string)
    requires k < |OPERATORS| && NoOperatorChar(p)
    ensures Index(p + OPERATORS[k].0 + q, OPERATORS[k].0) == |p|
  {
    var sym := OPERATORS[k].0;
    var e := p + sym + q;
    TableOrder(k, k);
    OccursEnds(e, sym);
    assert e[|p|..|p| + |sym|] == sym;
    assert OccursAt(e, sym, |p|);
    assert forall j: nat :: j < |p| ==> e[j] == p[j];
  }

  lemma FindFree(e: string)
    requires FreeOf(e, |OPERATORS|)
    ensures FindOperator(e, OPERATORS) == None
  {
    FindNone(e, OPERATORS);
  }

  lemma FindUnreadable(e: string)
    requires '=' !in e && '<' !in e && '>' !in e
    ensures FindOperator(e, OPERATORS) == None
  {
    forall i | 0 <= i < |OPERATORS|
      ensures Index(e, OPERATORS[i].0) == -1
    {
      OccursEnds(e, OPERATORS[i].0);
    }
    FindNone(e, OPERATORS);
  }

  // ----- the exists suffix

  lemma NotExistsTest(a: string, r: string)
    requires !EndsInExists(r)
    ensures !HasSuffix(a + " " + r, " exists")
  {
    var e, x := a + " " + r, " exists";
    assert e[|a|] == ' ';
    if |r| >= 6 {
      assert (" " + r)[|r| + 1 - 7..] == e[|e| - 7..];
    } else if |e| >= 7 {
      assert e[|e| - 7..][6 - |r|] == e[|a|];
      assert x[6 - |r|] != ' ';
    }
  }

  lemma NotExistsEnd(e: string)
    requires e != [] && e[|e| - 1] != 's'
    ensures !HasSuffix(e, " exists")
  {
    if |e| >= 7 {
      assert e[|e| - 7..][6] == e[|e| - 1];
    }
  }

  // ----- one condition

  lemma FieldBack(f: string)
    requires f != [] ==> !IsSpace(f[|f| - 1])
    ensures TrimPrefix(Trim("." + f + " "), ".") == f
    ensures TrimPrefix(Trim("." + f), ".") == f
  {
    TrimTight("." + f);
    TrimPadding("", "." + f, " ");
    assert "" + ("." + f) + " " == "." + f + " ";
    assert ("." + f)[1..] == f;
  }

  /** The text left of a printed comparison after trimming, cut at its operator. */
  function Core(f: string, sym: string, operand: string): (e: string) {
    "." + f + " " + sym + (if operand == "" then "" else " " + operand)
  }

  lemma CoreTrim(f: string, sym: string, operand: string)
    requires sym != [] && Tight(sym) && Tight(operand)
    ensures Trim("." + f + " " + sym + " " + operand) == Core(f, sym, operand)
    ensures Trim(Core(f, sym, operand)) == Core(f, sym, operand)
  {
    var e, t := Core(f, sym, operand), "." + f + " " + sym + " " + operand;
    TrimTight(e);
    if operand == "" {
      TrimPadding("", e, " ");
      assert "" + e + " " == t;
    } else {
      assert e == t;
    }
  }

  /** An operand as printed: in quotes, or bare; none of the first `n` symbols occurs in it. */
  predicate PlainOperand(operand: string, r: string, n: nat) {
    MildText(r) && FreeOf(r, n) && (operand == "'" + r + "'" || (operand == r && Tight(r)))
  }

  lemma OperandFacts(operand: string, r: string, n: nat)
    requires PlainOperand(operand, r, n)
    ensures Tight(operand) && TrimQuotes(operand) == r && FreeOf(operand, n)
  {
    TrimQuotesNone(r);
    if operand != r {
      FreeMiddle("'", r, "'", n);
    }
  }

  lemma CoreNotExists(f: string, sym: string, operand: string, r: string)
    requires PlainOperand(operand, r, 0) && !EndsInExists(operand) && sym != [] && sym[|sym| - 1] != 's'
    ensures !HasSuffix(Core(f, sym, operand), " exists")
  {
    var e := Core(f, sym, operand);
    if operand == "" || operand != r {
      NotExistsEnd(e);
    } else {
      NotExistsTest("." + f + " " + sym, r);
      assert e == "." + f + " " + sym + " " + r;
    }
  }

  lemma CoreFound(f: string, k: nat, operand: string)
    requires k < |OPERATORS| && PlainField(f) && FreeOf(operand, k) && Tight(operand)
    ensures FindOperator(Core(f, OPERATORS[k].0, operand), OPERATORS) ==
            Some(Condition(f, OPERATORS[k].1, Str(TrimQuotes(operand))))
  {
    var p := "." + f + " ";
    var q := if operand == "" then "" else " " + operand;
    FreeMiddle(" ", operand, "", k);
    assert q == "" || q == " " + operand + "";
    assert Core(f, OPERATORS[k].0, operand) == p + OPERATORS[k].0 + q;
    FindPrinted(p, k, q);
    FieldBack(f);
    TrimTight(operand);
    TrimPadding(" ", operand, "");
  }

  lemma ReadComparison(f: string, k: nat, operand: string, r: string)
    requires k < |OPERATORS| && PlainField(f) && PlainOperand(operand, r, k) && !EndsInExists(operand)
    ensures ParseAtom(Core(f, OPERATORS[k].0, operand)) == Some(Condition(f, OPERATORS[k].1, Str(r)))
  {
    OperandFacts(operand, r, k);
    CoreFound(f, k, operand);
    assert OPERATORS[k].0 != [] && OPERATORS[k].0[|OPERATORS[k].0| - 1] != 's' by {
      TableOrder(k, k);
    }
    CoreNotExists(f, OPERATORS[k].0, operand, r);
  }

  lemma CoreUnreadable(f: string, word: string, operand: string)
    requires PlainField(f) && NoOperatorChar(word) && FreeOf(operand, |OPERATORS|)
    ensures FreeOf(Core(f, word, operand), |OPERATORS|)
  {
    var a := "." + f + " " + word + if operand == "" then "" else " ";
    FreeMiddle(a, operand, "", |OPERATORS|);
    assert Core(f, word, operand) == a + operand + "";
  }

  /** A word operator is not looked for: nothing is read. */
  lemma ReadNothing(f: string, word: string, operand: string, r: string)
    requires NoOperatorChar(word) && word != [] && (operand == r ==> word[|word| - 1] != 's')
    requires PlainField(f) && PlainOperand(operand, r, |OPERATORS|) && !EndsInExists(operand)
    ensures ParseAtom(Core(f, word, operand)) == None
  {
    var e := Core(f, word, operand);
    OperandFacts(operand, r, |OPERATORS|);
    if operand == r {
      CoreNotExists(f, word, operand, r);
    } else {
      NotExistsEnd(e);
    }
    CoreUnreadable(f, word, operand);
    FindFree(e);
  }

  /** The printed text of a condition. */
  function CondText(c: Condition): (t: string)
    requires !c.op.OtherOp?
  {
    PrintCondition(c).value
  }

  /** The trimmed text `e` of a condition is no parenthesis and reads as `r`. */
  predicate ReadsAs(e: string, r: Option<Condition>) {
    e != [] && e[0] != '(' && Trim(e) == e && ParseAtom(e) == r
  }

  lemma {:induction false} TrimRightDot(h: string)
    ensures TrimRight("." + h) == "." + TrimRight(h)
  {
    var g := "." + h;
    if h != [] {
      assert g[|g| - 1] == h[|h| - 1] && g[..|g| - 1] == "." + h[..|h| - 1];
      if IsSpace(h[|h| - 1]) {
        TrimRightDot(h[..|h| - 1]);
      }
    }
  }

  /** Whatever stands before the word exists is taken for the field, but for white space at its end. */
  lemma ReadExists(h: string)
    ensures ReadsAs("." + h + " exists", Some(Condition(TrimRight(h), Exists, Nil)))
  {
    var g := "." + h;
    var t := g + " exists";
    TrimTight(t);
    assert t[..|t| - 7] == g && t[|t| - 7..] == " exists";
    TrimRightDot(h);
    assert Trim(g) == "." + TrimRight(h);
    assert Trim(g)[1..] == TrimRight(h);
  }

  lemma {:induction false} TrimRightTight(h: string)
    requires h != [] ==> !IsSpace(h[|h| - 1])
    ensures TrimRight(h) == h
  {
  }

  lemma ParseExists(c: Condition)
    requires PlainCondition(c) && c.op.Exists?
    ensures ReadsAs(Trim(CondText(c)), Reread(c))
  {
    ReadExists(c.field);
    TrimRightTight(c.field);
  }

  lemma BareText(f: string, sym: string)
    ensures "." + f + " " + sym + " " + "exists" == "." + (f + " " + sym) + " exists"
  {
    assert " " + "exists" == " exists";
    assert "." + f + " " + sym == "." + (f + " " + sym);
  }

  /** An ordered comparison with the word exists is read back as an exists test of another field. */
  lemma ComparisonWithExists(f: string, op: Operator)
    requires op.Gt? || op.Gte? || op.Lt? || op.Lte?
    ensures var c := Condition(f, op, Str("exists"));
            ReadsAs(Trim(CondText(c)), Some(Condition(f + " " + Symbol(op), Exists, Nil)))
  {
    var h := f + " " + Symbol(op);
    assert !IsSpace(h[|h| - 1]);
    BareText(f, Symbol(op));
    ReadExists(h);
    TrimRightTight(h);
  }

  lemma ParseNotExists(c: Condition)
    requires PlainCondition(c) && c.op.NotExists?
    ensures ReadsAs(Trim(CondText(c)), Reread(c))
  {
    var t := CondText(c);
    TrimTight(t);
    NotExistsEnd(t);
    FindUnreadable(t);
  }

  lemma NullFree(n: nat)
    ensures FreeOf("null", n)
  {
    forall i | 0 <= i < n && i < |OPERATORS|
      ensures Index("null", OPERATORS[i].0) == -1
    {
      OccursEnds("null", OPERATORS[i].0);
    }
  }

  lemma ParseNullTest(c: Condition)
    requires PlainCondition(c) && (c.op.IsNull? || c.op.IsNotNull?)
    ensures ReadsAs(Trim(CondText(c)), Reread(c))
  {
    var op := if c.op.IsNull? then Eq else Neq;
    CoreTrim(c.field, Symbol(op), "null");
    assert !EndsInExists("null");
    NullFree(Rank(op));
    assert CondText(c) == "." + c.field + " " + Symbol(op) + " " + "null";
    ReadComparison(c.field, Rank(op), "null", "null");
  }

  lemma OperandKept(c: Condition)
    requires PlainCondition(c) && !TakesNoValue(c.op) && !Misread(c)
    ensures !EndsInExists(Operand(c))
  {
    if Quoted(c.op) {
      NotExistsEnd(" " + Operand(c));
    }
  }

  lemma Regroup(f: string, sym: string, v: string, rest: string)
    requires v == rest + " exists"
    ensures "." + f + " " + sym + v == "." + (f + " " + sym + rest) + " exists"
  {
    assert "." + f + " " + sym + (rest + " exists") == "." + f + " " + sym + rest + " exists";
    assert "." + f + " " + sym + rest == "." + (f + " " + sym + rest);
  }

  lemma BareCondText(c: Condition)
    requires PlainCondition(c) && Misread(c)
    ensures CondText(c) == "." + c.field + " " + Symbol(c.op) + (" " + Repr(c.value))
  {
    assert CondText(c) == "." + c.field + " " + Symbol(c.op) + " " + Repr(c.value);
  }

  /** The text of a misread condition, taken apart at the word exists. */
  lemma MisreadText(c: Condition)
    requires PlainCondition(c) && Misread(c)
    ensures var v := " " + Repr(c.value);
            CondText(c) == "." + (c.field + " " + Symbol(c.op) + v[..|v| - 7]) + " exists"
  {
    var v := " " + Repr(c.value);
    assert v == v[..|v| - 7] + " exists";
    BareCondText(c);
    Regroup(c.field, Symbol(c.op), v, v[..|v| - 7]);
  }

  lemma ParseMisread(c: Condition)
    requires PlainCondition(c) && Misread(c)
    ensures ReadsAs(Trim(CondText(c)), Reread(c))
  {
    var v := " " + Repr(c.value);
    MisreadText(c);
    ReadExists(c.field + " " + Symbol(c.op) + v[..|v| - 7]);
  }

  lemma ParseCompared(c: Condition)
    requires PlainCondition(c) && Comparison(c.op) && !Misread(c)
    ensures ReadsAs(Trim(CondText(c)), Reread(c))
  {
    var r, operand := Repr(c.value), Operand(c);
    OperandFacts(operand, r, Rank(c.op));
    OperandKept(c);
    CoreTrim(c.field, Symbol(c.op), operand);
    ReadComparison(c.field, Rank(c.op), operand, r);
  }

  predicate Worded(op: Operator) {
    op.Contains? || op.StartsWith? || op.EndsWith? || op.In? || op.NotIn?
  }

  lemma LettersAreMild(w: string)
    requires forall i :: 0 <= i < |w| ==> 'a' <= w[i] <= 'z'
    ensures MildText(w) && NoOperatorChar(w) && Tight(w)
  {
  }

  lemma WordFacts(op: Operator)
    requires Worded(op)
    ensures var w := Symbol(op);
            MildText(w) && NoOperatorChar(w) && Tight(w) && w != [] && (!Quoted(op) ==> w[|w| - 1] != 's')
  {
    LettersAreMild(Symbol(op));
  }

  lemma ParseWorded(c: Condition)
    requires PlainCondition(c) && Worded(c.op) && !Misread(c)
    ensures ReadsAs(Trim(CondText(c)), Reread(c))
  {
    var r, operand := Repr(c.value), Operand(c);
    OperandFacts(operand, r, |OPERATORS|);
    OperandKept(c);
    WordFacts(c.op);
    var word := Symbol(c.op);
    CoreTrim(c.field, word, operand);
    ReadNothing(c.field, word, operand, r);
  }

  /** Printing a plain condition and parsing it gives exactly `Reread`. */
  lemma ParseCondition(c: Condition)
    requires PlainCondition(c)
    ensures ReadsAs(Trim(CondText(c)), Reread(c))
  {
    if Misread(c) {
      ParseMisread(c);
    } else if c.op.Exists? {
      ParseExists(c);
    } else if c.op.NotExists? {
      ParseNotExists(c);
    } else if TakesNoValue(c.op) {
      ParseNullTest(c);
    } else if Comparison(c.op) {
      ParseCompared(c);
    } else {
      ParseWorded(c);
    }
  }

  /** A plain condition comes back as it is meant to if and only if no unquoted value ends in the word exists. */
  lemma RestoredExactly(c: Condition)
    requires PlainCondition(c)
    ensures ParseAtom(Trim(CondText(c))) == Restored(c) <==> !Misread(c)
  {
    ParseCondition(c);
  }

  /**
    * Of the plain conditions exactly these come back as themselves: exists tests without a value, and
    * comparisons with a string, unquoted only if it does not end in the word exists.
    */
  lemma ReadsBackExactly(c: Condition)
    requires PlainCondition(c)
    ensures Parse(CondText(c)) == Some(Leaf(c)) <==>
            (c.op.Exists? && c.value == Nil) || (Comparison(c.op) && c.value.Str? && !Misread(c))
  {
    ParseLeaf(c);
    RereadSelf(c);
  }

  lemma RereadSelf(c: Condition)
    ensures Reread(c) == Some(c) <==>
            (c.op.Exists? && c.value == Nil) || (Comparison(c.op) && c.value.Str? && !Misread(c))
  {
    if Misread(c) {
      assert Reread(c).value.op.Exists?;
    } else if Comparison(c.op) {
      assert Restored(c) == Some(c.(value := Str(Repr(c.value))));
    }
  }

  predicate Ordered(c: Condition) {
    c.op.Gt? || c.op.Gte? || c.op.Lt? || c.op.Lte?
  }

  /** A null test is read back as a comparison. */
  lemma NullTestReread(c: Condition)
    requires PlainCondition(c) && c.op.IsNull?
    ensures Parse(CondText(c)) == Some(Leaf(Condition(c.field, Eq, Str("null"))))
  {
    ParseLeaf(c);
  }

  lemma OrderedReread(c: Condition)
    requires Ordered(c) && c.value.Str?
    ensures Reread(c) == Some(c) <==> !EndsInExists(c.value.s)
  {
  }

  /** An ordered comparison with a string comes back as itself if and only if the string does not end so. */
  lemma OrderedExactly(c: Condition)
    requires PlainCondition(c) && Ordered(c) && c.value.Str?
    ensures Parse(CondText(c)) == Some(Leaf(c)) <==> !HasSuffix(" " + c.value.s, " exists")
  {
    ParseLeaf(c);
    OrderedReread(c);
  }

  lemma QuietConcat(a: string, b: string)
    requires Quiet(a) && Quiet(b) && !Meets(a, b, '&') && !Meets(a, b, '|')
    ensures Quiet(a + b)
  {
    SingleConcat(a, b, '&');
    SingleConcat(a, b, '|');
  }

  lemma QuietAtomic(t: string)
    requires Quiet(t) && t != [] && !IsSpace(t[0])
    ensures Atomic(t)
  {
    CleanText(t, '&', 0);
    CleanText(t, '|', 0);
    FlatText(t);
  }

  lemma QuietOperand(c: Condition)
    requires PlainCondition(c) && !TakesNoValue(c.op)
    ensures Quiet(Operand(c))
  {
    var r := Repr(c.value);
    if Quoted(c.op) {
      QuietConcat("'", r);
      QuietConcat("'" + r, "'");
    }
  }

  lemma QuietSymbol(op: Operator)
    requires !TakesNoValue(op) && !op.OtherOp?
    ensures Quiet(" " + Symbol(op) + " ")
  {
    if Worded(op) {
      WordFacts(op);
    }
    QuietConcat(" ", Symbol(op));
    QuietConcat(" " + Symbol(op), " ");
  }

  lemma QuietValued(c: Condition)
    requires PlainCondition(c) && !TakesNoValue(c.op)
    ensures Quiet(" " + Symbol(c.op) + " " + Operand(c))
  {
    QuietSymbol(c.op);
    QuietOperand(c);
    QuietConcat(" " + Symbol(c.op) + " ", Operand(c));
  }

  /** Apart from the negated exists test, a printed condition has no connective and no parenthesis. */
  lemma QuietCondition(c: Condition)
    requires PlainCondition(c) && !c.op.NotExists?
    ensures Quiet(CondText(c)) && |CondText(c)| > 0 && CondText(c)[0] == '.'
  {
    if TakesNoValue(c.op) {
      var rest := if c.op.Exists? then " exists" else if c.op.IsNull? then " == null" else " != null";
      assert CondText(c) == "." + c.field + rest;
      QuietAfterField(c.field, rest);
    } else {
      var rest := " " + Symbol(c.op) + " " + Operand(c);
      assert CondText(c) == "." + c.field + rest;
      QuietValued(c);
      QuietAfterField(c.field, rest);
    }
  }

  lemma QuietAfterField(f: string, rest: string)
    requires Quiet(f) && Quiet(rest) && rest != [] && rest[0] == ' '
    ensures Quiet("." + f + rest)
  {
    QuietConcat(".", f);
    QuietConcat("." + f, rest);
  }

  lemma NegatedAtomic(f: string)
    requires MildText(f)
    ensures Atomic("!(." + f + " exists)")
  {
    var body := "." + f + " exists";
    var t, inner := "!(." + f + " exists)", "(" + body + ")";
    FlatText(body);
    ParenAtomic(body);
    FlatText("!");
    NestedConcat("!", inner, 0);
    assert t == "!" + inner;
    CleanText("!", '&', 0);
    CleanText("!", '|', 0);
    CleanConcat("!", inner, '&', 0);
    CleanConcat("!", inner, '|', 0);
  }

  lemma CondAtomic(c: Condition)
    requires PlainCondition(c)
    ensures Atomic(CondText(c))
  {
    if c.op.NotExists? {
      NegatedAtomic(c.field);
      assert CondText(c) == "!(." + c.field + " exists)";
    } else {
      QuietCondition(c);
      QuietAtomic(CondText(c));
    }
  }

  lemma ParseLeaf(c: Condition)
    requires PlainCondition(c)
    ensures Parse(CondText(c)) == if Reread(c).None? then None else Some(Leaf(Reread(c).value))
  {
    CondAtomic(c);
    ParseAtomic(CondText(c));
    ParseCondition(c);
  }
}
