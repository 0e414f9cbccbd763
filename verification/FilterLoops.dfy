/** The converter and the evaluators as they are written, with their loops, against the functions above. */
module FilterLoops {
  import opened Options
  import opened Text
  import opened FilterModel
  import opened FilterConverter
  import opened FilterScan
  import opened FilterEvaluator

  /** The scan stands at `i`: the parts so far, and what the rest gives from this depth and piece. */
  ghost predicate Scanned(expr: string, sep: string, parts: seq<string>, i: nat, d: int, cur: string) {
    && |sep| == 2 && i <= |expr|
    && Pieces(expr, sep) == parts + PiecesFrom(expr[i..], sep, d, cur)
  }

  predicate SepAt(expr: string, sep: string, i: nat) {
    i + |sep| <= |expr| && expr[i..i + |sep|] == sep
  }

  lemma ScanStart(expr: string, sep: string)
    requires |sep| == 2
    ensures Scanned(expr, sep, [], 0, 0, "")
  {
    assert expr[0..] == expr && [] + Pieces(expr, sep) == Pieces(expr, sep);
  }

  lemma ScanParen(expr: string, sep: string, parts: seq<string>, i: nat, d: int, cur: string)
    requires i < |expr| && Scanned(expr, sep, parts, i, d, cur) && IsParen(expr[i])
    ensures Scanned(expr, sep, parts, i + 1, if expr[i] == OPEN then d + 1 else d - 1, cur + [expr[i]])
  {
    assert expr[i..][0] == expr[i] && expr[i..][1..] == expr[i + 1..];
  }

  lemma ScanSep(expr: string, sep: string, parts: seq<string>, i: nat, cur: string)
    requires i < |expr| && Scanned(expr, sep, parts, i, 0, cur) && !IsParen(expr[i])
    requires SepAt(expr, sep, i)
    ensures Scanned(expr, sep, parts + [cur], i + 2, 0, "")
  {
    var tail := expr[i..];
    assert tail[0] == expr[i] && tail[..2] == expr[i..i + 2] && tail[2..] == expr[i + 2..];
    var rest := PiecesFrom(expr[i + 2..], sep, 0, "");
    assert PiecesFrom(tail, sep, 0, cur) == [cur] + rest;
    assert parts + ([cur] + rest) == parts + [cur] + rest;
  }

  lemma ScanChar(expr: string, sep: string, parts: seq<string>, i: nat, d: int, cur: string)
    requires i < |expr| && Scanned(expr, sep, parts, i, d, cur) && !IsParen(expr[i])
    requires d != 0 || !SepAt(expr, sep, i)
    ensures Scanned(expr, sep, parts, i + 1, d, cur + [expr[i]])
  {
    var tail := expr[i..];
    assert tail[0] == expr[i] && tail[1..] == expr[i + 1..];
    assert sep <= tail ==> tail[..2] == expr[i..i + 2];
  }

  lemma ScanEnd(expr: string, sep: string, parts: seq<string>, d: int, cur: string)
    requires Scanned(expr, sep, parts, |expr|, d, cur)
    ensures Split(expr, sep) == if cur == "" then parts else parts + [cur]
  {
    assert expr[|expr|..] == [];
    assert Pieces(expr, sep) == parts + [cur];
  }

  method SplitLogical(expr: string, sep: string) returns (parts: seq<string>)
    requires |sep| == 2
    ensures parts == Split(expr, sep)
  {
    parts := [];
    var current := "";
    var depth := 0;
    var i := 0;
    ScanStart(expr, sep);
    while i < |expr|
      invariant 0 <= i <= |expr| && Scanned(expr, sep, parts, i, depth, current)
    {
      var ch := expr[i];
      if ch == '(' {
        ScanParen(expr, sep, parts, i, depth, current);
        depth := depth + 1;
        current := current + [ch];
      } else if ch == ')' {
        ScanParen(expr, sep, parts, i, depth, current);
        depth := depth - 1;
        current := current + [ch];
      } else if depth == 0 && i + |sep| <= |expr| && expr[i..i + |sep|] == sep {
        ScanSep(expr, sep, parts, i, current);
        parts := parts + [current];
        current := "";
        i := i + |sep| - 1;
      } else {
        ScanChar(expr, sep, parts, i, depth, current);
        current := current + [ch];
      }
      i := i + 1;
    }
    ScanEnd(expr, sep, parts, depth, current);
    if |current| > 0 {
      parts := parts + [current];
    }
  }

  method ParseExpression(s: string) returns (r: Option<Node>)
    ensures r == Parse(s)
    decreases |s|, 1
  {
    var expr := Trim(s);
    if Text.Contains(expr, "||") {
      var parts := SplitLogical(expr, "||");
      if |parts| > 1 {
        SplitShorter(expr, "||");
        r := ParseLogicalGroup(parts, Or, |expr|);
        return;
      }
    }
    if Text.Contains(expr, "&&") {
      var parts := SplitLogical(expr, "&&");
      if |parts| > 1 {
        SplitShorter(expr, "&&");
        r := ParseLogicalGroup(parts, And, |expr|);
        return;
      }
    }
    r := ParseSingleCondition(expr);
  }

  /** The nodes read from the first parts. */
  ghost predicate ReadSoFar(parts: seq<string>, nodes: seq<Node>) {
    |nodes| <= |parts| && forall i :: 0 <= i < |nodes| ==> Parse(Trim(parts[i])) == Some(nodes[i])
  }

  lemma ReadOneMore(parts: seq<string>, nodes: seq<Node>, node: Node)
    requires ReadSoFar(parts, nodes) && |nodes| < |parts| && Parse(Trim(parts[|nodes|])) == Some(node)
    ensures ReadSoFar(parts, nodes + [node])
  {
  }

  lemma GroupRefused(parts: seq<string>, op: Logic, bound: nat, k: nat)
    requires AtMost(parts, bound - 1) && k < |parts| && Parse(Trim(parts[k])).None?
    ensures ParseGroup(parts, op, bound) == None
  {
  }

  lemma GroupRead(parts: seq<string>, op: Logic, bound: nat, nodes: seq<Node>)
    requires AtMost(parts, bound - 1) && |nodes| == |parts| && ReadSoFar(parts, nodes)
    ensures ParseGroup(parts, op, bound) == Some(Group(op, nodes))
  {
    var r := ParseParts(parts, bound);
    assert r.Some?;
    assert forall i :: 0 <= i < |parts| ==> Some(r.value[i]) == Some(nodes[i]);
    assert r.value == nodes;
  }

  method ParseLogicalGroup(parts: seq<string>, op: Logic, ghost bound: nat) returns (r: Option<Node>)
    requires AtMost(parts, bound - 1)
    ensures r == ParseGroup(parts, op, bound)
    decreases bound, 0
  {
    var conditions: seq<Node> := [];
    for k := 0 to |parts|
      invariant |conditions| == k && ReadSoFar(parts, conditions)
    {
      var node := ParseExpression(Trim(parts[k]));
      if node.None? {
        GroupRefused(parts, op, bound, k);
        return None;
      }
      ReadOneMore(parts, conditions, node.value);
      conditions := conditions + [node.value];
    }
    GroupRead(parts, op, bound, conditions);
    return Some(Group(op, conditions));
  }

  method ParseSingleCondition(s: string) returns (r: Option<Node>)
    ensures r == ParseSingle(s)
    decreases |s|, 0
  {
    var expr := Trim(s);
    if HasPrefix(expr, "(") && HasSuffix(expr, ")") {
      assert expr[0] == '(' && expr[|expr| - 1] == ')';
      r := ParseExpression(expr[1..|expr| - 1]);
      return;
    }
    if HasSuffix(expr, " exists") {
      return Some(Leaf(Condition(TrimPrefix(Trim(TrimSuffix(expr, " exists")), "."), Exists, Nil)));
    }
    for k := 0 to |OPERATORS|
      invariant FindOperator(expr, OPERATORS) == FindOperator(expr, OPERATORS[k..])
    {
      var (symbol, op) := OPERATORS[k];
      var idx := Index(expr, symbol);
      if idx > 0 {
        return Some(Leaf(CutAt(expr, idx, symbol, op)));
      }
    }
    return None;
  }

  method NodeToExpression(n: Node) returns (r: Option<string>)
    ensures r == Print(n)
    decreases n, 1
  {
    match n
    case Leaf(c) => r := PrintCondition(c);
    case Unknown(_) => r := None;
    case Group(op, cs) => r := GroupToExpression(n, op, cs);
  }

  /** Parts printed so far, followed by what is left to print. */
  ghost function Printed(parts: seq<string>, rest: Option<seq<string>>): (r: Option<seq<string>>) {
    if rest.None? then None else Some(parts + rest.value)
  }

  lemma PrintedNone(rest: Option<seq<string>>)
    ensures Printed([], rest) == rest
  {
    if rest.Some? {
      assert [] + rest.value == rest.value;
    }
  }

  lemma PrintOneMore(op: Logic, cs: seq<Node>, k: nat, parts: seq<string>)
    requires k < |cs|
    ensures var p := PrintPart(op, cs[k]);
            Printed(parts, PrintParts(op, cs[k..])) ==
            if p.None? then None else Printed(parts + [p.value], PrintParts(op, cs[k + 1..]))
  {
    assert cs[k..][0] == cs[k] && cs[k..][1..] == cs[k + 1..];
    var p, rest := PrintPart(op, cs[k]), PrintParts(op, cs[k + 1..]);
    if p.Some? && rest.Some? {
      assert parts + ([p.value] + rest.value) == parts + [p.value] + rest.value;
    }
  }

  method GroupToExpression(ghost n: Node, op: Logic, cs: seq<Node>) returns (r: Option<string>)
    requires n == Group(op, cs)
    ensures r == Print(n)
    decreases n, 0
  {
    if |cs| == 0 {
      return Some("");
    }
    if |cs| == 1 {
      r := NodeToExpression(cs[0]);
      return;
    }
    if op.OtherLogic? {
      return None;
    }
    var parts: seq<string> := [];
    assert cs[0..] == cs;
    PrintedNone(PrintParts(op, cs));
    for k := 0 to |cs|
      invariant PrintParts(op, cs) == Printed(parts, PrintParts(op, cs[k..]))
    {
      PrintOneMore(op, cs, k, parts);
      var e := NodeToExpression(cs[k]);
      if e.None? {
        return None;
      }
      var part := if Wrapped(op, cs[k]) then "(" + e.value + ")" else e.value;
      parts := parts + [part];
    }
    assert cs[|cs|..] == [];
    assert parts + [] == parts;
    return Some(Join(parts, Spaced(op)));
  }

  method EvaluateNode<V>(n: Node, env: Env<V>) returns (v: Verdict)
    ensures v == Eval(n, env)
    decreases n, 1
  {
    match n
    case Leaf(c) => v := EvalCondition(c, env);
    case Unknown(_) => v := Error;
    case Group(op, cs) => v := EvaluateGroup(n, op, cs, env);
  }

  method EvaluateGroup<V>(ghost n: Node, op: Logic, cs: seq<Node>, env: Env<V>) returns (v: Verdict)
    requires n == Group(op, cs)
    ensures v == Eval(n, env)
    ensures cs != [] && !op.OtherLogic? ==> FirstDecides(op, EvalEach(cs, env), v)
    decreases n, 0
  {
    GroupVerdict(op, cs, env);
    if |cs| == 0 {
      return Pass;
    }
    if op.OtherLogic? {
      return Error;
    }
    for k := 0 to |cs|
      invariant Fold(op, EvalEach(cs, env)) == Fold(op, EvalEach(cs[k..], env))
    {
      assert cs[k..][1..] == cs[k + 1..];
      EvalEachHead(op, cs[k..], env);
      var result := EvaluateNode(cs[k], env);
      if result.Error? || result != Truth(op.And?) {
        return result;
      }
    }
    assert cs[|cs|..] == [];
    return Truth(op.And?);
  }

  method EvaluateExpression<V>(s: string, env: Env<V>) returns (v: Verdict)
    ensures v == EvalText(s, env)
    decreases |s|, 1
  {
    var expr := Trim(s);
    if Text.Contains(expr, "&&") {
      SplitAllShorter(expr, "&&", [], Index(expr, "&&"));
      v := EvaluateParts(SplitAll(expr, "&&", []), And, env, |expr|);
    } else if Text.Contains(expr, "||") {
      SplitAllShorter(expr, "||", [], Index(expr, "||"));
      v := EvaluateParts(SplitAll(expr, "||", []), Or, env, |expr|);
    } else {
      v := EvalSingleText(expr, env);
    }
  }

  method EvaluateParts<V>(parts: seq<string>, op: Logic, env: Env<V>, ghost bound: nat) returns (v: Verdict)
    requires AtMost(parts, bound - 1)
    ensures v == Fold(op, EvalTexts(parts, env, bound))
    ensures !op.OtherLogic? ==> FirstDecides(op, EvalTexts(parts, env, bound), v)
    decreases bound, 0
  {
    if !op.OtherLogic? {
      FoldFirst(op, EvalTexts(parts, env, bound));
    }
    for k := 0 to |parts|
      invariant Fold(op, EvalTexts(parts, env, bound)) == Fold(op, EvalTexts(parts[k..], env, bound))
    {
      assert parts[k..][1..] == parts[k + 1..];
      var rest := EvalTexts(parts[k..], env, bound);
      assert rest[1..] == EvalTexts(parts[k + 1..], env, bound);
      var result := EvaluateExpression(Trim(parts[k]), env);
      if result.Error? || result != Truth(op.And?) {
        return result;
      }
    }
    assert parts[|parts|..] == [];
    return Truth(op.And?);
  }
}
