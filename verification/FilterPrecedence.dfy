/** Which fields the evaluator on text looks at, and which of a printed tree it does not. */
module FilterPrecedence {
  import opened Options
  import opened Text
  import opened FilterModel
  import opened FilterConverter
  import opened FilterScan
  import opened FilterLeaf
  import opened FilterRoundTrip
  import opened FilterNormal
  import opened FilterEvaluator
  import opened FilterLegacy
  import opened FilterRecord

  // ----- the pieces the text evaluator ends up with

  predicate AtSep(s: string) {
    "&&" <= s || "||" <= s
  }

  /** The text cut at both connectives at once, with `cur` already read of the current piece. */
  function Bits(s: string, cur: string): (r: seq<string>)
    ensures |r| >= 1
  {
    if s == [] then [cur]
    else if AtSep(s) then [cur] + Bits(s[2..], [])
    else Bits(s[1..], cur + [s[0]])
  }

  lemma {:induction false} BitsCur(s: string, cur: string)
    ensures Bits(s, cur) == [cur + Bits(s, [])[0]] + Bits(s, [])[1..]
  {
    if s == [] {
      assert cur + [] == cur;
    } else if AtSep(s) {
      assert cur + [] == cur;
    } else {
      var c, rest := [s[0]], Bits(s[1..], []);
      BitsCur(s[1..], cur + c);
      BitsCur(s[1..], [] + c);
      assert [] + c == c;
      assert Bits(s, []) == [c + rest[0]] + rest[1..];
      assert cur + c + rest[0] == cur + (c + rest[0]);
    }
  }

  /** White space in front only touches the first piece. */
  lemma {:induction false} BitsSpaces(w: string, s: string, cur: string)
    requires AllSpace(w)
    ensures Bits(w + s, cur) == Bits(s, cur + w)
  {
    if w == [] {
      assert w + s == s && cur + w == cur;
    } else {
      assert (w + s)[0] == w[0] && (w + s)[1..] == w[1..] + s;
      BitsSpaces(w[1..], s, cur + [w[0]]);
      assert cur + [w[0]] + w[1..] == cur + w;
    }
  }

  /** A connective after a text that does not end in its character separates the pieces. */
  lemma {:induction false} BitsConcat(a: string, x: string, b: string, cur: string)
    requires x == "&&" || x == "||"
    requires a != [] ==> a[|a| - 1] != x[0]
    ensures Bits(a + x + b, cur) == Bits(a, cur) + Bits(b, [])
  {
    var s := a + x + b;
    if a == [] {
      assert s == x + b && s[..2] == x && s[2..] == b;
      assert AtSep(s);
    } else if AtSep(a) {
      assert s[..2] == a[..2] && s[2..] == a[2..] + x + b;
      assert AtSep(s);
      BitsConcat(a[2..], x, b, []);
      assert [cur] + (Bits(a[2..], []) + Bits(b, [])) == [cur] + Bits(a[2..], []) + Bits(b, []);
    } else {
      assert s[0] == a[0] && s[1..] == a[1..] + x + b;
      NotAtSep(a, x, b);
      BitsConcat(a[1..], x, b, cur + [a[0]]);
    }
  }

  lemma NotAtSep(a: string, x: string, b: string)
    requires (x == "&&" || x == "||") && a != [] && a[|a| - 1] != x[0] && !AtSep(a)
    ensures !AtSep(a + x + b)
  {
    var s := a + x + b;
    assert s[0] == a[0];
    if |a| == 1 {
      assert s[1] == x[0];
    } else {
      assert s[..2] == a[..2];
    }
  }

  lemma {:induction false} BitsTail(s: string, w: string, cur: string)
    requires AllSpace(w)
    ensures Bits(s + w, cur) == PadLast(Bits(s, cur), w)
  {
    if s == [] {
      assert s + w == w + [];
      BitsSpaces(w, [], cur);
    } else {
      var t := s + w;
      assert t[0] == s[0];
      assert AtSep(t) <==> AtSep(s) by {
        if |s| > 1 {
          assert t[..2] == s[..2];
        } else if |t| > 1 {
          assert t[1] == w[0];
        }
      }
      if AtSep(s) {
        assert t[2..] == s[2..] + w;
        BitsTail(s[2..], w, []);
      } else {
        assert t[1..] == s[1..] + w;
        BitsTail(s[1..], w, cur + [s[0]]);
      }
    }
  }

  /** White space around a text only pads its first and last piece. */
  lemma BitsPadded(v: string, s: string, w: string)
    requires AllSpace(v) && AllSpace(w)
    ensures SameTrim(Bits(v + s + w, []), Bits(s, []))
  {
    assert v + s + w == v + (s + w) && [] + v == v;
    BitsSpaces(v, s + w, []);
    BitsCur(s + w, v);
    BitsTail(s, w, []);
    PadEnds(Bits(s, []), v, w);
  }

  /** Pieces with white space before the first and after the last. */
  lemma PadEnds(q: seq<string>, v: string, w: string)
    requires q != [] && AllSpace(v) && AllSpace(w)
    ensures var p := PadLast(q, w); SameTrim([v + p[0]] + p[1..], q)
  {
    var p := PadLast(q, w);
    var r := [v + p[0]] + p[1..];
    forall i | 0 <= i < |q|
      ensures Trim(r[i]) == Trim(q[i])
    {
      var before, after := if i == 0 then v else "", if i == |q| - 1 then w else "";
      assert p[i] == q[i] + after && r[i] == before + p[i];
      assert r[i] == before + q[i] + after;
      TrimPadding(before, q[i], after);
    }
  }

  ghost predicate NoSep(s: string) {
    forall i: nat :: !OccursAt(s, "&&", i) && !OccursAt(s, "||", i)
  }

  lemma OccursLater(s: string, x: string, i: nat)
    requires s != [] && OccursAt(s[1..], x, i)
    ensures OccursAt(s, x, i + 1)
  {
    assert s[1..][i..i + |x|] == s[i + 1..i + 1 + |x|];
  }

  lemma NoSepTail(s: string)
    requires s != [] && NoSep(s)
    ensures !AtSep(s) && NoSep(s[1..])
  {
    assert !OccursAt(s, "&&", 0) && !OccursAt(s, "||", 0);
    forall i: nat
      ensures !OccursAt(s[1..], "&&", i) && !OccursAt(s[1..], "||", i)
    {
      if OccursAt(s[1..], "&&", i) {
        OccursLater(s, "&&", i);
      }
      if OccursAt(s[1..], "||", i) {
        OccursLater(s, "||", i);
      }
    }
  }

  lemma {:induction false} BitsNone(s: string, cur: string)
    requires NoSep(s)
    ensures Bits(s, cur) == [cur + s]
  {
    if s == [] {
      assert cur + s == cur;
    } else {
      NoSepTail(s);
      BitsNone(s[1..], cur + [s[0]]);
      assert cur + [s[0]] + s[1..] == cur + s;
    }
  }

  // ----- fields the text evaluator does not look at

  /** The piece tests the field, or one on the way to it or beyond it. */
  ghost predicate Names(b: string, f: string) {
    var c := TextAtom(Trim(b));
    c.Some? && Clash(c.value.field, f)
  }

  ghost predicate NoneNames(bs: seq<string>, f: string) {
    forall i :: 0 <= i < |bs| ==> !Names(bs[i], f)
  }

  /** No piece of the text tests the field. */
  ghost predicate Silent(s: string, f: string) {
    NoneNames(Bits(s, []), f)
  }

  lemma SameNames(p: seq<string>, q: seq<string>, f: string)
    requires SameTrim(p, q)
    ensures NoneNames(p, f) <==> NoneNames(q, f)
  {
    assert forall i :: 0 <= i < |p| ==> (Names(p[i], f) <==> Names(q[i], f));
  }

  lemma NamesConcat(p: seq<string>, q: seq<string>, f: string)
    ensures NoneNames(p + q, f) <==> NoneNames(p, f) && NoneNames(q, f)
  {
    assert forall i :: 0 <= i < |p| ==> (p + q)[i] == p[i];
    assert forall i :: 0 <= i < |q| ==> (p + q)[|p| + i] == q[i];
  }

  lemma SilentTrim(s: string, f: string)
    ensures Silent(Trim(s), f) <==> Silent(s, f)
  {
    var v := TrimLeftParts(s);
    var w := TrimRightParts(TrimLeft(s));
    assert s == v + Trim(s) + w;
    BitsPadded(v, Trim(s), w);
    SameNames(Bits(s, []), Bits(Trim(s), []), f);
  }

  lemma SilentJoin(a: string, op: Logic, b: string, f: string)
    requires !op.OtherLogic? && Silent(a, f) && Silent(b, f)
    ensures Silent(a + Spaced(op) + b, f)
  {
    var a1, b1 := a + " ", " " + b;
    assert a + Spaced(op) + b == a1 + Sep(op) + b1;
    BitsConcat(a1, Sep(op), b1, []);
    BitsPadded("", a, " ");
    assert "" + a + " " == a1;
    BitsPadded(" ", b, "");
    assert " " + b + "" == b1;
    SameNames(Bits(a1, []), Bits(a, []), f);
    SameNames(Bits(b1, []), Bits(b, []), f);
    NamesConcat(Bits(a1, []), Bits(b1, []), f);
  }

  lemma OccursBefore(s: string, x: string, i: nat)
    requires s != [] && i > 0 && OccursAt(s, x, i)
    ensures OccursAt(s[1..], x, i - 1)
  {
    assert s[1..][i - 1..i - 1 + |x|] == s[i..i + |x|];
  }

  lemma {:induction false} SplitNone(s: string, sep: string, cur: string)
    requires |sep| == 2 && forall i: nat :: !OccursAt(s, sep, i)
    ensures SplitAll(s, sep, cur) == [cur + s]
  {
    if s == [] {
      assert cur + s == cur;
    } else {
      assert !OccursAt(s, sep, 0);
      forall i: nat
        ensures !OccursAt(s[1..], sep, i)
      {
        if OccursAt(s[1..], sep, i) {
          OccursLater(s, sep, i);
        }
      }
      SplitNone(s[1..], sep, cur + [s[0]]);
      assert cur + [s[0]] + s[1..] == cur + s;
    }
  }

  /** The first place where the separator stands. */
  ghost predicate FirstAt(s: string, sep: string, k: nat) {
    OccursAt(s, sep, k) && forall j: nat :: j < k ==> !OccursAt(s, sep, j)
  }

  lemma FirstAtTail(s: string, sep: string, k: nat)
    requires s != [] && k > 0 && FirstAt(s, sep, k)
    ensures FirstAt(s[1..], sep, k - 1) && !OccursAt(s, sep, 0)
  {
    OccursBefore(s, sep, k);
    forall j: nat | j < k - 1
      ensures !OccursAt(s[1..], sep, j)
    {
      if OccursAt(s[1..], sep, j) {
        OccursLater(s, sep, j);
      }
    }
  }

  lemma {:induction false} SplitFirst(s: string, sep: string, cur: string, k: nat)
    requires |sep| == 2 && FirstAt(s, sep, k)
    ensures SplitAll(s, sep, cur) == [cur + s[..k]] + SplitAll(s[k + 2..], sep, [])
    decreases k
  {
    if k == 0 {
      assert s[..0] == [] && cur + [] == cur;
    } else {
      FirstAtTail(s, sep, k);
      SplitFirst(s[1..], sep, cur + [s[0]], k - 1);
      assert s[..k] == [s[0]] + s[1..][..k - 1];
      assert cur + [s[0]] + s[1..][..k - 1] == cur + s[..k];
      assert s[1..][k - 1 + 2..] == s[k + 2..];
    }
  }

  /** At the first place of a connective the text before it does not end in its character. */
  lemma CutClean(s: string, sep: string, k: nat)
    requires (sep == "&&" || sep == "||") && k > 0 && OccursAt(s, sep, k) && !OccursAt(s, sep, k - 1)
    ensures s[k - 1] != sep[0]
  {
    assert s[k] == s[k..k + 2][0];
    assert s[k - 1..k + 1] == [s[k - 1], s[k]];
  }

  lemma SilentCut(s: string, sep: string, f: string, k: nat)
    requires (sep == "&&" || sep == "||") && Silent(s, f)
    requires OccursAt(s, sep, k) && (k > 0 ==> !OccursAt(s, sep, k - 1))
    ensures Silent(s[..k], f) && Silent(s[k + 2..], f)
  {
    assert s == s[..k] + sep + s[k + 2..];
    if k > 0 {
      CutClean(s, sep, k);
    }
    BitsConcat(s[..k], sep, s[k + 2..], []);
    NamesConcat(Bits(s[..k], []), Bits(s[k + 2..], []), f);
  }

  /** The parts of a cut text name no more than the text. */
  lemma {:induction false} SilentParts(s: string, sep: string, f: string)
    requires (sep == "&&" || sep == "||") && Silent(s, f)
    ensures AllSilent(SplitAll(s, sep, []), f)
    decreases |s|
  {
    var k := Index(s, sep);
    if k < 0 {
      SplitNone(s, sep, []);
      assert [] + s == s;
    } else {
      SilentCut(s, sep, f, k);
      SplitFirst(s, sep, [], k);
      assert [] + s[..k] == s[..k];
      SilentParts(s[k + 2..], sep, f);
    }
  }

  ghost predicate AllSilent(parts: seq<string>, f: string) {
    forall i :: 0 <= i < |parts| ==> Silent(parts[i], f)
  }

  /** Two records that differ at most in what lies on the way to a field or beyond it. */
  ghost predicate SameBut<V>(e1: Env<V>, e2: Env<V>, f: string) {
    && e1.isNil == e2.isNil && e1.compare == e2.compare
    && forall g :: !Clash(g, f) ==> e1.lookup(g) == e2.lookup(g)
  }

  lemma {:induction false} Unread<V>(s: string, f: string, e1: Env<V>, e2: Env<V>)
    requires Silent(s, f) && SameBut(e1, e2, f)
    ensures EvalText(s, e1) == EvalText(s, e2)
    decreases |s|, 1
  {
    var expr := Trim(s);
    SilentTrim(s, f);
    if Text.Contains(expr, "&&") {
      SplitAllShorter(expr, "&&", [], Index(expr, "&&"));
      UnreadParts(expr, "&&", f, e1, e2);
    } else if Text.Contains(expr, "||") {
      SplitAllShorter(expr, "||", [], Index(expr, "||"));
      UnreadParts(expr, "||", f, e1, e2);
    } else {
      UnreadSingle(expr, f, e1, e2);
    }
  }

  lemma UnreadSingle<V>(expr: string, f: string, e1: Env<V>, e2: Env<V>)
    requires Silent(expr, f) && SameBut(e1, e2, f) && !Text.Contains(expr, "&&") && !Text.Contains(expr, "||")
    ensures EvalSingleText(expr, e1) == EvalSingleText(expr, e2)
  {
    NamesItself(expr, f);
  }

  lemma NamesItself(expr: string, f: string)
    requires Silent(expr, f) && !Text.Contains(expr, "&&") && !Text.Contains(expr, "||")
    ensures !Names(expr, f)
  {
    BitsNone(expr, []);
    assert [] + expr == expr;
    assert Bits(expr, [])[0] == expr;
  }

  lemma {:induction false} UnreadParts<V>(expr: string, sep: string, f: string, e1: Env<V>, e2: Env<V>)
    requires (sep == "&&" || sep == "||") && Silent(expr, f) && SameBut(e1, e2, f)
    requires AtMost(SplitAll(expr, sep, []), |expr| - 1)
    ensures var parts := SplitAll(expr, sep, []);
            EvalTexts(parts, e1, |expr|) == EvalTexts(parts, e2, |expr|)
    decreases |expr|, 0
  {
    var parts := SplitAll(expr, sep, []);
    SilentParts(expr, sep, f);
    forall i | 0 <= i < |parts|
      ensures EvalText(Trim(parts[i]), e1) == EvalText(Trim(parts[i]), e2)
    {
      SilentTrim(parts[i], f);
      Unread(Trim(parts[i]), f, e1, e2);
    }
  }

  // ----- what a printed condition names, with parentheses stuck to it

  predicate AllOf(s: string, c: char) {
    forall i :: 0 <= i < |s| ==> s[i] == c
  }

  lemma {:induction false} FindOpen(e: string, ops: seq<(string, Operator)>)
    requires e != [] && e[0] == OPEN
    requires forall i :: 0 <= i < |ops| ==> ops[i].0 != "" && OperatorChar(ops[i].0[0])
    ensures var c := FindAnywhere(e, ops); c.Some? ==> c.value.field != "" && c.value.field[0] == OPEN
  {
    if ops != [] {
      var idx := Index(e, ops[0].0);
      if idx >= 0 {
        assert e[idx] == e[idx..idx + |ops[0].0|][0] == ops[0].0[0];
        var w := TrimTail(e[..idx]);
      } else {
        FindOpen(e, ops[1..]);
      }
    }
  }

  /** A piece that starts with a parenthesis names a field that does. */
  lemma OpenNames(e: string)
    requires e != [] && e[0] == OPEN
    ensures var c := TextAtom(e); c.Some? ==> c.value.field != "" && c.value.field[0] == OPEN
  {
    if HasSuffix(e, " exists") {
      assert e[|e| - 7] == e[|e| - 7..][0] == ' ';
      var w := TrimTail(TrimSuffix(e, " exists"));
    } else {
      assert forall i :: 0 <= i < |OPERATORS| ==> OPERATORS[i].0 != "" && OperatorChar(OPERATORS[i].0[0]);
      FindOpen(e, OPERATORS);
    }
  }

  /** Conditions that come back as themselves. */
  predicate Kept(c: Condition) {
    PlainCondition(c) && Reread(c) == Some(c)
  }

  lemma ClosedText(f: string, sym: string, operand: string, r: string)
    ensures "." + f + " " + sym + " " + operand + r == ("." + f + " ") + sym + (" " + operand + r)
  {
  }

  lemma ClosedFound(f: string, k: nat, operand: string, r: string)
    requires k < |OPERATORS| && PlainField(f) && FreeOf(operand, k) && r != [] && AllOf(r, CLOSE)
    ensures var e := "." + f + " " + OPERATORS[k].0 + " " + operand + r;
            && Trim(e) == e && TextAtom(e).Some? && TextAtom(e).value.field == f
  {
    var p, sym, q := "." + f + " ", OPERATORS[k].0, " " + operand + r;
    var e := "." + f + " " + sym + " " + operand + r;
    ClosedText(f, sym, operand, r);
    assert e[|e| - 1] == CLOSE && e[0] == '.';
    TrimTight(e);
    NotExistsEnd(e);
    FreeMiddle(" ", operand, r, k);
    FindPrinted(p, k, q);
    FieldBack(f);
    DotAtom(e);
  }

  lemma ClosedCompared(c: Condition, r: string)
    requires Kept(c) && Comparison(c.op) && r != [] && AllOf(r, CLOSE)
    ensures var e := CondText(c) + r;
            Trim(e) == e && TextAtom(e).Some? && TextAtom(e).value.field == c.field
  {
    assert FreeOf(Operand(c), Rank(c.op)) by {
      OperandFacts(Operand(c), Repr(c.value), Rank(c.op));
    }
    ClosedFound(c.field, Rank(c.op), Operand(c), r);
  }

  lemma ClosedExists(c: Condition, r: string)
    requires Kept(c) && c.op.Exists? && r != [] && AllOf(r, CLOSE)
    ensures var e := CondText(c) + r; Trim(e) == e && TextAtom(e).None?
  {
    var e := CondText(c) + r;
    assert e == "." + c.field + " exists" + r;
    assert e[|e| - 1] == ')' && e[0] == '.';
    TrimTight(e);
    NotExistsEnd(e);
    FindUnreadable(e);
    DotAtom(e);
  }

  /** Closing parentheses after a condition do not make it name another field. */
  lemma ClosedNames(c: Condition, r: string, f: string)
    requires Kept(c) && AllOf(r, CLOSE) && !Clash(c.field, f)
    ensures !Names(CondText(c) + r, f)
  {
    if r == [] {
      assert CondText(c) + r == CondText(c);
      ParseCondition(c);
      QuietCondition(c);
      var w := TrimTail(CondText(c));
      DotAtom(Trim(CondText(c)));
    } else if c.op.Exists? {
      ClosedExists(c, r);
    } else {
      ClosedCompared(c, r);
    }
  }

  lemma QuietBits(t: string)
    requires Single(t, '&') && Single(t, '|')
    ensures Bits(t, []) == [t]
  {
    NotContained(t, "&&");
    NotContained(t, "||");
    BitsNone(t, []);
    assert [] + t == t;
  }

  lemma SingleInside(l: string, t: string, r: string, c: char)
    requires AllOf(l, OPEN) && AllOf(r, CLOSE) && Single(t, c) && !IsParen(c)
    ensures Single(l + t + r, c)
  {
    SingleConcat(l, t, c);
    SingleConcat(l + t, r, c);
  }

  /** A field that leads somewhere and holds no opening parenthesis. */
  predicate Ordinary(f: string) {
    OPEN !in f && Path(f) != []
  }

  lemma LeafSilent(c: Condition, l: string, r: string, f: string)
    requires Kept(c) && AllOf(l, OPEN) && AllOf(r, CLOSE) && Ordinary(f)
    requires l != "" || !Clash(c.field, f)
    ensures Silent(l + CondText(c) + r, f)
  {
    var t := l + CondText(c) + r;
    QuietCondition(c);
    SingleInside(l, CondText(c), r, '&');
    SingleInside(l, CondText(c), r, '|');
    QuietBits(t);
    if l == "" {
      assert t == CondText(c) + r;
      ClosedNames(c, r, f);
    } else {
      var w := TrimTail(t);
      OpenNames(Trim(t));
      var c2 := TextAtom(Trim(t));
      if c2.Some? {
        OddFieldApart(c2.value.field, f);
      }
    }
  }

  // ----- which fields of a tree the text does not test

  /** The leaf with the field, if any, stands right after an opening parenthesis. */
  predicate Shielded(n: Node, inside: bool, f: string)
    decreases n, 0
  {
    match n
    case Leaf(c) => !Clash(c.field, f) || inside
    case Group(op, cs) => ShieldedAll(op, cs, inside, f)
    case Unknown(_) => true
  }

  predicate ShieldedAll(op: Logic, cs: seq<Node>, inside: bool, f: string)
    decreases cs, 0
  {
    cs == [] ||
    (Shielded(cs[0], inside || Wrapped(op, cs[0]), f) && ShieldedAll(op, cs[1..], false, f))
  }

  /** Plain, at least two children in every group, every condition coming back as itself. */
  predicate Proper(n: Node) {
    Plain(n) && Stringly(n) && Branching(n)
  }

  predicate AllProper(cs: seq<Node>) {
    forall i :: 0 <= i < |cs| ==> Proper(cs[i])
  }

  lemma PrintProper(n: Node)
    requires Plain(n)
    ensures Print(n).Some?
  {
    PrintAlts(n);
  }

  lemma {:induction false} NodeSilent(n: Node, l: string, r: string, f: string)
    requires Proper(n) && AllOf(l, OPEN) && AllOf(r, CLOSE) && Ordinary(f) && Shielded(n, l != "", f)
    ensures Print(n).Some? && Silent(l + Print(n).value + r, f)
    decreases n, 0
  {
    match n
    case Leaf(c) => LeafSilent(c, l, r, f);
    case Group(op, cs) =>
      assert AllProper(cs);
      PartsSilent(op, cs, l, r, f);
  }

  lemma {:induction false} PartSilent(op: Logic, child: Node, l: string, r: string, f: string)
    requires Proper(child) && AllOf(l, OPEN) && AllOf(r, CLOSE) && Ordinary(f)
    requires Shielded(child, l != "" || Wrapped(op, child), f)
    ensures PrintPart(op, child).Some? && Silent(l + PrintPart(op, child).value + r, f)
    decreases child, 1
  {
    if Wrapped(op, child) {
      NodeSilent(child, l + "(", ")" + r, f);
      assert l + "(" + Print(child).value + (")" + r) == l + ("(" + Print(child).value + ")") + r;
    } else {
      NodeSilent(child, l, r, f);
    }
  }

  lemma {:induction false} PartsSilent(op: Logic, cs: seq<Node>, l: string, r: string, f: string)
    requires !op.OtherLogic? && cs != [] && AllProper(cs)
    requires AllOf(l, OPEN) && AllOf(r, CLOSE) && Ordinary(f) && ShieldedAll(op, cs, l != "", f)
    ensures PrintParts(op, cs).Some? && Silent(l + Join(PrintParts(op, cs).value, Spaced(op)) + r, f)
    decreases cs, 0
  {
    if |cs| == 1 {
      PartSilent(op, cs[0], l, r, f);
      assert cs[1..] == [];
      assert PrintParts(op, cs[1..]) == Some([]);
    } else {
      PartSilent(op, cs[0], l, "", f);
      PartsSilent(op, cs[1..], "", r, f);
      var head := PrintPart(op, cs[0]).value;
      var tail := Join(PrintParts(op, cs[1..]).value, Spaced(op));
      PrintPartsHead(op, cs, head);
      Regrouped2(l, head, Spaced(op), tail, r);
      SilentJoin(l + head + "", op, "" + tail + r, f);
    }
  }

  lemma Regrouped2(l: string, head: string, sep: string, tail: string, r: string)
    ensures l + (head + sep + tail) + r == (l + head + "") + sep + ("" + tail + r)
  {
    assert l + (head + sep + tail) == l + head + sep + tail;
    assert "" + tail + r == tail + r;
  }
}
