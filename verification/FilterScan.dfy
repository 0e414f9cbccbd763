/** How the scanner takes apart a text of atoms joined by connectives, and what the parser makes of it. */
module FilterScan {
  import opened Options
  import opened Text
  import opened FilterModel
  import opened FilterConverter

  /** From depth `d`, every closing parenthesis has its opening one and the scan ends at depth 0. */
  predicate WellNested(s: string, d: nat) {
    if s == [] then d == 0
    else if s[0] == '(' then WellNested(s[1..], d + 1)
    else if s[0] == ')' then d > 0 && WellNested(s[1..], d - 1)
    else WellNested(s[1..], d)
  }

  /** From depth `d`, the character `c` never occurs twice in a row at depth 0. */
  predicate Clean(s: string, c: char, d: int) {
    if s == [] then true
    else if s[0] == '(' then Clean(s[1..], c, d + 1)
    else if s[0] == ')' then Clean(s[1..], c, d - 1)
    else (d == 0 && s[0] == c && |s| > 1 ==> s[1] != c) && Clean(s[1..], c, d)
  }

  /** The character never occurs twice in a row. */
  predicate Single(s: string, c: char) {
    forall i, j :: 0 <= i < |s| && 0 <= j < |s| && j == i + 1 && s[i] == c ==> s[j] != c
  }

  /** The two texts do not meet in the character. */
  predicate Meets(a: string, b: string, c: char) {
    a != [] && b != [] && a[|a| - 1] == c && b[0] == c
  }

  lemma SingleConcat(a: string, b: string, c: char)
    requires Single(a, c) && Single(b, c) && !Meets(a, b, c)
    ensures Single(a + b, c)
  {
  }

  predicate IsParen(c: char) {
    c == '(' || c == ')'
  }

  /** A text the scanner never cuts: nested, without top-level connectives, not starting with a blank. */
  predicate Atomic(s: string) {
    && WellNested(s, 0) && Clean(s, '&', 0) && Clean(s, '|', 0)
    && s != [] && !IsSpace(s[0])
  }

  lemma {:induction false} NestedConcat(a: string, b: string, d: nat)
    requires WellNested(a, d) && WellNested(b, 0)
    ensures WellNested(a + b, d)
  {
    if a == [] {
      assert a + b == b;
    } else {
      assert (a + b)[1..] == a[1..] + b;
      NestedConcat(a[1..], b, if a[0] == '(' then d + 1 else if a[0] == ')' then d - 1 else d);
    }
  }

  lemma {:induction false} CleanConcat(a: string, b: string, c: char, d: nat)
    requires WellNested(a, d) && Clean(a, c, d) && Clean(b, c, 0) && !Meets(a, b, c)
    ensures Clean(a + b, c, d)
  {
    if a == [] {
      assert a + b == b;
    } else {
      assert (a + b)[1..] == a[1..] + b;
      assert |a| == 1 && b != [] ==> (a + b)[1] == b[0];
      CleanConcat(a[1..], b, c, if a[0] == '(' then d + 1 else if a[0] == ')' then d - 1 else d);
    }
  }

  lemma {:induction false} FlatText(s: string)
    requires forall i :: 0 <= i < |s| ==> !IsParen(s[i])
    ensures WellNested(s, 0)
  {
    if s != [] {
      FlatText(s[1..]);
    }
  }

  lemma {:induction false} CleanText(s: string, c: char, d: int)
    requires Single(s, c)
    ensures Clean(s, c, d)
  {
    if s != [] {
      CleanText(s[1..], c, if s[0] == '(' then d + 1 else if s[0] == ')' then d - 1 else d);
    }
  }

  /** Closing one more level than was opened. */
  lemma {:induction false} Closing(s: string, c: char, d: nat)
    requires WellNested(s, d) && !IsParen(c)
    ensures WellNested(s + ")", d + 1) && Clean(s + ")", c, d + 1)
  {
    var t := s + ")";
    if s == [] {
      assert t[1..] == [];
    } else {
      assert t[1..] == s[1..] + ")";
      Closing(s[1..], c, if s[0] == '(' then d + 1 else if s[0] == ')' then d - 1 else d);
    }
  }

  /** A parenthesised nested text is atomic. */
  lemma ParenAtomic(s: string)
    requires WellNested(s, 0)
    ensures Atomic("(" + s + ")")
  {
    var t := "(" + s + ")";
    assert t[1..] == s + ")";
    Closing(s, '&', 0);
    Closing(s, '|', 0);
  }

  lemma {:induction false} PiecesClean(s: string, sep: string, d: nat, cur: string)
    requires |sep| == 2 && sep[0] == sep[1] && !IsParen(sep[0])
    requires WellNested(s, d) && Clean(s, sep[0], d)
    ensures PiecesFrom(s, sep, d, cur) == [cur + s]
  {
    if s != [] {
      PiecesClean(s[1..], sep, if s[0] == '(' then d + 1 else if s[0] == ')' then d - 1 else d, cur + [s[0]]);
      assert cur + [s[0]] + s[1..] == cur + s;
    } else {
      assert cur + s == cur;
    }
  }

  lemma {:induction false} PiecesConcat(a: string, b: string, sep: string, d: nat, cur: string)
    requires |sep| == 2 && !IsParen(sep[0]) && !IsParen(sep[1])
    requires WellNested(a, d) && (a != [] ==> a[|a| - 1] != sep[0])
    ensures PiecesFrom(a + sep + b, sep, d, cur) == PiecesFrom(a, sep, d, cur) + PiecesFrom(b, sep, 0, [])
  {
    var s := a + sep + b;
    if a == [] {
      assert s == sep + b && sep <= s && s[2..] == b;
    } else {
      assert s[1..] == a[1..] + sep + b;
      if a[0] == '(' || a[0] == ')' {
        PiecesConcat(a[1..], b, sep, if a[0] == '(' then d + 1 else d - 1, cur + [a[0]]);
      } else if d == 0 && sep <= s {
        assert a[0] == sep[0] && |a| >= 2 && s[1] == a[1];
        assert sep <= a;
        assert s[2..] == a[2..] + sep + b;
        assert a[1..][1..] == a[2..];
        PiecesConcat(a[2..], b, sep, 0, []);
      } else {
        assert d == 0 && sep <= a ==> sep <= s;
        PiecesConcat(a[1..], b, sep, d, cur + [a[0]]);
      }
    }
  }

  lemma {:induction false} PiecesBlank(w: string, sep: string, d: int, cur: string)
    requires |sep| == 2 && !IsSpace(sep[0]) && AllSpace(w)
    ensures PiecesFrom(w, sep, d, cur) == [cur + w]
  {
    if w == [] {
      assert cur + w == cur;
    } else {
      assert IsSpace(w[0]);
      PiecesBlank(w[1..], sep, d, cur + [w[0]]);
      assert cur + [w[0]] + w[1..] == cur + w;
    }
  }

  /** The pieces with white space added to the last one. */
  function PadLast(p: seq<string>, w: string): (r: seq<string>)
    requires p != []
    ensures |r| == |p|
  {
    p[..|p| - 1] + [p[|p| - 1] + w]
  }

  lemma {:induction false} PiecesTail(a: string, w: string, sep: string, d: int, cur: string)
    requires |sep| == 2 && sep[0] == sep[1] && !IsSpace(sep[0]) && AllSpace(w)
    ensures PiecesFrom(a + w, sep, d, cur) == PadLast(PiecesFrom(a, sep, d, cur), w)
  {
    var s := a + w;
    if a == [] {
      assert s == w;
      PiecesBlank(w, sep, d, cur);
    } else {
      assert s[1..] == a[1..] + w;
      if a[0] == '(' || a[0] == ')' {
        PiecesTail(a[1..], w, sep, if a[0] == '(' then d + 1 else d - 1, cur + [a[0]]);
      } else if d == 0 && sep <= a {
        assert s[2..] == a[2..] + w;
        PiecesTail(a[2..], w, sep, 0, []);
        var p := PiecesFrom(a[2..], sep, 0, []);
        assert PadLast([cur] + p, w) == [cur] + PadLast(p, w);
      } else {
        assert !(d == 0 && sep <= s) by {
          assert |a| == 1 && w != [] ==> s[1] == w[0];
          assert |a| >= 2 ==> s[1] == a[1];
        }
        PiecesTail(a[1..], w, sep, d, cur + [a[0]]);
      }
    }
  }

  lemma JoinCons(cur: string, rest: seq<string>, sep: string, s: string)
    requires |sep| == 2 && sep <= s && rest != [] && Join(rest, sep) == s[2..]
    ensures Join([cur] + rest, sep) == cur + s
  {
    assert ([cur] + rest)[1..] == rest;
    assert s == sep + s[2..];
    assert cur + sep + s[2..] == cur + (sep + s[2..]);
  }

  /** Cutting loses nothing: the pieces joined by the separator are the text. */
  lemma {:induction false} PiecesJoin(s: string, sep: string, d: int, cur: string)
    requires |sep| == 2
    ensures Join(PiecesFrom(s, sep, d, cur), sep) == cur + s
  {
    if s == [] {
      assert cur + s == cur;
    } else if d == 0 && sep <= s && s[0] != '(' && s[0] != ')' {
      PiecesJoin(s[2..], sep, 0, []);
      assert [] + s[2..] == s[2..];
      JoinCons(cur, PiecesFrom(s[2..], sep, 0, []), sep, s);
    } else {
      PiecesJoin(s[1..], sep, if s[0] == '(' then d + 1 else if s[0] == ')' then d - 1 else d, cur + [s[0]]);
      assert cur + [s[0]] + s[1..] == cur + s;
    }
  }

  /** A text that is cut contains the separator. */
  lemma {:induction false} PiecesContain(s: string, sep: string, d: int, cur: string) returns (i: nat)
    requires |sep| == 2 && |PiecesFrom(s, sep, d, cur)| > 1
    ensures OccursAt(s, sep, i)
  {
    if s[0] == '(' || s[0] == ')' {
      var j := PiecesContain(s[1..], sep, if s[0] == '(' then d + 1 else d - 1, cur + [s[0]]);
      i := j + 1;
    } else if d == 0 && sep <= s {
      i := 0;
    } else {
      var j := PiecesContain(s[1..], sep, d, cur + [s[0]]);
      i := j + 1;
    }
  }

  // ----- joined texts

  predicate NestedAll(xs: seq<string>, c: char) {
    forall i :: 0 <= i < |xs| ==> WellNested(xs[i], 0) && Clean(xs[i], c, 0)
  }

  lemma {:induction false} JoinNested(xs: seq<string>, op: Logic, c: char)
    requires !op.OtherLogic? && NestedAll(xs, c) && !IsParen(c) && c != ' '
    ensures WellNested(Join(xs, Spaced(op)), 0)
    ensures c !in Sep(op) || |xs| <= 1 ==> Clean(Join(xs, Spaced(op)), c, 0)
  {
    if |xs| > 1 {
      var rest := Join(xs[1..], Spaced(op));
      JoinNested(xs[1..], op, c);
      var sp := Spaced(op);
      FlatText(sp);
      NestedConcat(xs[0], sp, 0);
      NestedConcat(xs[0] + sp, rest, 0);
      if c !in Sep(op) {
        CleanText(sp, c, 0);
        CleanConcat(xs[0], sp, c, 0);
        CleanConcat(xs[0] + sp, rest, c, 0);
      }
    }
  }

  predicate SameTrim(p: seq<string>, q: seq<string>) {
    |p| == |q| && forall i :: 0 <= i < |p| ==> Trim(p[i]) == Trim(q[i])
  }

  lemma Padded(v: string, x: string, w: string, c: char)
    requires AllSpace(v) && AllSpace(w) && !IsSpace(c) && !IsParen(c)
    requires WellNested(x, 0) && Clean(x, c, 0)
    ensures WellNested(v + x + w, 0) && Clean(v + x + w, c, 0) && Trim(v + x + w) == Trim(x)
  {
    FlatText(v);
    FlatText(w);
    CleanText(v, c, 0);
    CleanText(w, c, 0);
    NestedConcat(v, x, 0);
    CleanConcat(v, x, c, 0);
    NestedConcat(v + x, w, 0);
    CleanConcat(v + x, w, c, 0);
    TrimPadding(v, x, w);
  }

  lemma PiecesCons(a: string, b: string, sep: string)
    requires sep == "||" || sep == "&&"
    requires WellNested(a, 0) && Clean(a, sep[0], 0) && a != [] && a[|a| - 1] == ' '
    ensures Pieces(a + sep + b, sep) == [a] + Pieces(b, sep)
  {
    PiecesConcat(a, b, sep, 0, []);
    PiecesClean(a, sep, 0, []);
    assert [] + a == a;
  }

  lemma PiecesOne(a: string, sep: string)
    requires sep == "||" || sep == "&&"
    requires WellNested(a, 0) && Clean(a, sep[0], 0)
    ensures Pieces(a, sep) == [a]
  {
    PiecesClean(a, sep, 0, []);
    assert [] + a == a;
  }

  lemma SameTrimCons(a: string, p: seq<string>, xs: seq<string>)
    requires xs != [] && Trim(a) == Trim(xs[0]) && SameTrim(p, xs[1..])
    ensures SameTrim([a] + p, xs)
  {
    forall i | 0 <= i < |xs|
      ensures Trim(([a] + p)[i]) == Trim(xs[i])
    {
      if i > 0 {
        assert ([a] + p)[i] == p[i - 1] && xs[1..][i - 1] == xs[i];
      }
    }
  }

  lemma Regrouped(w: string, x: string, b: string, s: string, c: string, r: string)
    ensures w + (x + (b + s + c) + r) == (w + x + b) + s + (c + r)
  {
    assert x + (b + s + c) + r == x + b + s + (c + r);
  }

  lemma JoinHead(w: string, xs: seq<string>, op: Logic)
    requires |xs| > 1 && !op.OtherLogic?
    ensures w + Join(xs, Spaced(op)) == (w + xs[0] + " ") + Sep(op) + (" " + Join(xs[1..], Spaced(op)))
  {
    Regrouped(w, xs[0], " ", Sep(op), " ", Join(xs[1..], Spaced(op)));
  }

  lemma JoinOne(w: string, xs: seq<string>, op: Logic)
    requires |xs| == 1 && !op.OtherLogic? && NestedAll(xs, Sep(op)[0]) && AllSpace(w)
    ensures SameTrim(Pieces(w + Join(xs, Spaced(op)), Sep(op)), xs)
  {
    var x, sep := xs[0], Sep(op);
    assert Join(xs, Spaced(op)) == x;
    Padded(w, x, "", sep[0]);
    assert w + x + "" == w + x;
    PiecesOne(w + x, sep);
  }

  /** Cutting a joined text gives back the joined texts, up to white space. */
  lemma {:induction false} JoinPieces(w: string, xs: seq<string>, op: Logic)
    requires !op.OtherLogic? && xs != [] && NestedAll(xs, Sep(op)[0])
    requires w == "" || w == " "
    ensures SameTrim(Pieces(w + Join(xs, Spaced(op)), Sep(op)), xs)
    decreases xs
  {
    if |xs| == 1 {
      JoinOne(w, xs, op);
    } else {
      var sep := Sep(op);
      var a := w + xs[0] + " ";
      var b := " " + Join(xs[1..], Spaced(op));
      JoinHead(w, xs, op);
      assert WellNested(a, 0) && Clean(a, sep[0], 0) && Trim(a) == Trim(xs[0]) by {
        Padded(w, xs[0], " ", sep[0]);
      }
      PiecesCons(a, b, sep);
      JoinPieces(" ", xs[1..], op);
      SameTrimCons(a, Pieces(b, sep), xs);
    }
  }

  /** What the parser makes of the parts, in order; nothing if one of them is refused. */
  function Collect(rs: seq<Option<Node>>): (r: Option<seq<Node>>)
    ensures r.Some? <==> forall i :: 0 <= i < |rs| ==> rs[i].Some?
    ensures r.Some? ==> |r.value| == |rs| && forall i :: 0 <= i < |rs| ==> rs[i] == Some(r.value[i])
  {
    if rs == [] then Some([])
    else
      var rest := Collect(rs[1..]);
      if rs[0].None? || rest.None? then None else Some([rs[0].value] + rest.value)
  }

  function Bundle(op: Logic, rs: seq<Option<Node>>): (r: Option<Node>)
    requires rs != []
  {
    if |rs| == 1 then rs[0]
    else
      var nodes := Collect(rs);
      if nodes.None? then None else Some(Group(op, nodes.value))
  }

  function ParseEach(xs: seq<string>): (r: seq<Option<Node>>)
    ensures |r| == |xs| && forall i :: 0 <= i < |xs| ==> r[i] == Parse(xs[i])
  {
    seq(|xs|, i requires 0 <= i < |xs| => Parse(xs[i]))
  }

  lemma ParseTrim(s: string)
    ensures Parse(Trim(s)) == Parse(s)
  {
    TrimIsTight(s);
    TrimTight(Trim(s));
  }

  /** White space at the end of a text only touches its last piece. */
  lemma PiecesTrimmed(t: string, sep: string)
    requires |sep| == 2 && sep[0] == sep[1] && !IsSpace(sep[0])
    requires t != [] && !IsSpace(t[0])
    ensures SameTrim(Pieces(Trim(t), sep), Pieces(t, sep))
  {
    var w := TrimTail(t);
    var p, q := Pieces(Trim(t), sep), Pieces(t, sep);
    PiecesTail(Trim(t), w, sep, 0, []);
    var last := p[|p| - 1];
    TrimPadding("", last, w);
    assert "" + last + w == last + w;
  }

  predicate Inked(xs: seq<string>) {
    forall i :: 0 <= i < |xs| ==> xs[i] != [] && !IsSpace(xs[i][0])
  }

  lemma JoinInked(xs: seq<string>, sep: string)
    requires xs != [] && Inked(xs)
    ensures Join(xs, sep) != [] && !IsSpace(Join(xs, sep)[0])
  {
    assert Join(xs, sep)[0] == xs[0][0];
  }

  lemma SameTrimTrans(p: seq<string>, q: seq<string>, r: seq<string>)
    requires SameTrim(p, q) && SameTrim(q, r)
    ensures SameTrim(p, r)
  {
  }

  /** The last piece of a text that is not blank there is not dropped. */
  lemma LastPieceKept(e: string, sep: string, xs: seq<string>)
    requires |sep| == 2 && SameTrim(Pieces(e, sep), xs) && xs[|xs| - 1] != [] && !IsSpace(xs[|xs| - 1][0])
    ensures Split(e, sep) == Pieces(e, sep)
  {
    var p := Pieces(e, sep);
    var w := TrimTail(xs[|xs| - 1]);
    assert Trim(p[|p| - 1]) == Trim(xs[|xs| - 1]) != [];
  }

  lemma SplitTrimmed(xs: seq<string>, op: Logic)
    requires !op.OtherLogic? && xs != [] && NestedAll(xs, Sep(op)[0]) && Inked(xs)
    ensures var e := Trim(Join(xs, Spaced(op)));
            var p := Split(e, Sep(op));
            p == Pieces(e, Sep(op)) && SameTrim(p, xs)
  {
    var t := Join(xs, Spaced(op));
    JoinInked(xs, Spaced(op));
    PiecesTrimmed(t, Sep(op));
    JoinPieces("", xs, op);
    assert "" + t == t;
    SameTrimTrans(Pieces(Trim(t), Sep(op)), Pieces(t, Sep(op)), xs);
    LastPieceKept(Trim(t), Sep(op), xs);
  }

  /** Parsing the parts of a split is parsing the texts they came from. */
  lemma PartsParse(parts: seq<string>, xs: seq<string>, bound: nat)
    requires SameTrim(parts, xs) && AtMost(parts, bound - 1)
    ensures ParseParts(parts, bound) == Collect(ParseEach(xs))
  {
    var nodes, c := ParseParts(parts, bound), Collect(ParseEach(xs));
    forall i | 0 <= i < |xs|
      ensures Parse(Trim(parts[i])) == ParseEach(xs)[i]
    {
      ParseTrim(xs[i]);
    }
    if nodes.Some? {
      assert c.Some?;
      assert forall i :: 0 <= i < |xs| ==> Some(nodes.value[i]) == Some(c.value[i]);
      assert nodes.value == c.value;
    } else {
      var i :| 0 <= i < |parts| && Parse(Trim(parts[i])).None?;
      assert ParseEach(xs)[i].None?;
    }
  }

  /** A text without top-level `||` is not cut there. */
  lemma UncutTrimmed(t: string, sep: string)
    requires sep == "||" || sep == "&&"
    requires t != [] && !IsSpace(t[0]) && WellNested(t, 0) && Clean(t, sep[0], 0)
    ensures |Split(Trim(t), sep)| <= 1
  {
    PiecesClean(t, sep, 0, []);
    PiecesTrimmed(t, sep);
  }

  lemma CutContains(e: string, op: Logic)
    requires !op.OtherLogic? && |Pieces(e, Sep(op))| > 1
    ensures Text.Contains(e, Sep(op))
  {
    var at := PiecesContain(e, Sep(op), 0, []);
  }

  lemma ParseCut(s: string, op: Logic, parts: seq<string>)
    requires !op.OtherLogic? && parts == Split(Trim(s), Sep(op)) && |parts| > 1
    requires op.And? ==> |Split(Trim(s), "||")| <= 1
    requires AtMost(parts, |Trim(s)| - 1)
    ensures Parse(s) == ParseGroup(parts, op, |Trim(s)|)
  {
    CutContains(Trim(s), op);
  }

  lemma GroupBundle(parts: seq<string>, xs: seq<string>, op: Logic, bound: nat)
    requires SameTrim(parts, xs) && AtMost(parts, bound - 1)
    requires |xs| > 1
    ensures ParseGroup(parts, op, bound) == Bundle(op, ParseEach(xs))
  {
    PartsParse(parts, xs, bound);
  }

  lemma ParseSplit(t: string, parts: seq<string>, xs: seq<string>, op: Logic)
    requires !op.OtherLogic? && |xs| > 1 && parts == Split(Trim(t), Sep(op)) && SameTrim(parts, xs)
    requires op.And? ==> |Split(Trim(t), "||")| <= 1
    ensures Parse(t) == Bundle(op, ParseEach(xs))
  {
    SplitShorter(Trim(t), Sep(op));
    GroupBundle(parts, xs, op, |Trim(t)|);
    ParseCut(t, op, parts);
  }

  lemma UncutJoin(xs: seq<string>)
    requires xs != [] && NestedAll(xs, '|') && Inked(xs)
    ensures |Split(Trim(Join(xs, Spaced(And))), "||")| <= 1
  {
    JoinNested(xs, And, '|');
    JoinInked(xs, Spaced(And));
    UncutTrimmed(Join(xs, Spaced(And)), "||");
  }

  /** The group case of the parser, for either connective. */
  lemma ParseJoined(xs: seq<string>, op: Logic)
    requires !op.OtherLogic? && |xs| > 1 && NestedAll(xs, Sep(op)[0]) && Inked(xs)
    requires op.And? ==> NestedAll(xs, '|')
    ensures Parse(Join(xs, Spaced(op))) == Bundle(op, ParseEach(xs))
  {
    var t := Join(xs, Spaced(op));
    SplitTrimmed(xs, op);
    if op.And? {
      UncutJoin(xs);
    }
    ParseSplit(t, Split(Trim(t), Sep(op)), xs, op);
  }

  /** An atomic text goes to the single-condition case. */
  lemma ParseAtomic(t: string)
    requires Atomic(t)
    ensures Parse(t) == ParseSingle(Trim(t))
  {
    var e := Trim(t);
    UncutTrimmed(t, "||");
    UncutTrimmed(t, "&&");
    TrimIsTight(t);
    TrimTight(e);
  }

  /** Parentheses around a nested text are dropped. */
  lemma ParseParen(s: string)
    requires WellNested(s, 0)
    ensures Parse("(" + s + ")") == Parse(s)
  {
    var t := "(" + s + ")";
    ParenAtomic(s);
    ParseAtomic(t);
    TrimTight(t);
    assert t[1..|t| - 1] == s;
    assert HasPrefix(t, "(") && HasSuffix(t, ")");
  }
}
