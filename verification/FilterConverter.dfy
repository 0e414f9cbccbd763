/** The converter between filter trees and filter expressions: printer and parser. */
module FilterConverter {
  import opened Options
  import opened Text
  import opened FilterModel

  // ----- printer

  /** Go's `%v` of a value. */
  function Repr(v: Value): (r: string) {
    match v
    case Nil => "<nil>"
    case Str(s) => s
    case Other(r) => r
  }

  function Symbol(op: Operator): (r: string) {
    match op
    case Eq => "=="
    case Neq => "!="
    case Gt => ">"
    case Gte => ">="
    case Lt => "<"
    case Lte => "<="
    case Contains => "contains"
    case StartsWith => "startswith"
    case EndsWith => "endswith"
    case Regex => "~="
    case In => "in"
    case NotIn => "notin"
    case _ => ""
  }

  /** Operators whose value is printed between single quotes. */
  predicate Quoted(op: Operator) {
    op.Eq? || op.Neq? || op.Contains? || op.StartsWith? || op.EndsWith? || op.Regex?
  }

  function Operand(c: Condition): (r: string) {
    if Quoted(c.op) then "'" + Repr(c.value) + "'" else Repr(c.value)
  }

  function PrintCondition(c: Condition): (r: Option<string>) {
    var field := "." + c.field;
    match c.op
    case Exists => Some(field + " exists")
    case NotExists => Some("!(" + field + " exists)")
    case IsNull => Some(field + " == null")
    case IsNotNull => Some(field + " != null")
    case OtherOp(_) => None
    case _ => Some(field + " " + Symbol(c.op) + " " + Operand(c))
  }

  /** The two-character connective, and the same with the blanks the printer puts around it. */
  function Sep(op: Logic): (r: string)
    requires !op.OtherLogic?
    ensures |r| == 2 && r[0] == r[1] && (r[0] == '&' || r[0] == '|')
  {
    if op.And? then "&&" else "||"
  }

  function Spaced(op: Logic): (r: string)
    requires !op.OtherLogic?
  {
    " " + Sep(op) + " "
  }

  /** A nested group is parenthesised exactly when its own operator differs from the enclosing one. */
  predicate Wrapped(op: Logic, child: Node) {
    child.Group? && child.op != op
  }

  function Print(n: Node): (r: Option<string>)
    decreases n, 0
  {
    match n
    case Leaf(c) => PrintCondition(c)
    case Unknown(_) => None
    case Group(op, cs) =>
      if |cs| == 0 then Some("")
      else if |cs| == 1 then Print(cs[0])
      else if op.OtherLogic? then None
      else
        var parts := PrintParts(op, cs);
        if parts.None? then None else Some(Join(parts.value, Spaced(op)))
  }

  function PrintPart(op: Logic, child: Node): (r: Option<string>)
    decreases child, 1
  {
    var t := Print(child);
    if t.None? then None
    else if Wrapped(op, child) then Some("(" + t.value + ")")
    else t
  }

  function PrintParts(op: Logic, cs: seq<Node>): (r: Option<seq<string>>)
    ensures r.Some? ==> |r.value| == |cs|
    decreases cs, 0
  {
    if cs == [] then Some([])
    else
      var t := PrintPart(op, cs[0]);
      if t.None? then None
      else
        var rest := PrintParts(op, cs[1..]);
        if rest.None? then None else Some([t.value] + rest.value)
  }

  // ----- splitting at top-level connectives

  /**
    * The pieces between the separators found at parenthesis depth 0, scanning `s` from depth `d`
    * with `cur` already read of the current piece. There is always a last piece, possibly empty.
    */
  function PiecesFrom(s: string, sep: string, d: int, cur: string): (r: seq<string>)
    requires |sep| == 2
    ensures |r| >= 1
  {
    if s == [] then [cur]
    else if s[0] == '(' then PiecesFrom(s[1..], sep, d + 1, cur + [s[0]])
    else if s[0] == ')' then PiecesFrom(s[1..], sep, d - 1, cur + [s[0]])
    else if d == 0 && sep <= s then [cur] + PiecesFrom(s[2..], sep, 0, [])
    else PiecesFrom(s[1..], sep, d, cur + [s[0]])
  }

  function Pieces(s: string, sep: string): (r: seq<string>)
    requires |sep| == 2
    ensures |r| >= 1
  {
    PiecesFrom(s, sep, 0, [])
  }

  /** `splitLogical`: an empty last piece is dropped. */
  function Split(s: string, sep: string): (r: seq<string>)
    requires |sep| == 2
  {
    var p := Pieces(s, sep);
    if p[|p| - 1] == [] then p[..|p| - 1] else p
  }

  predicate AtMost(parts: seq<string>, n: int) {
    forall i :: 0 <= i < |parts| ==> |parts[i]| <= n
  }

  lemma {:induction false} PiecesShorter(s: string, sep: string, d: int, cur: string)
    requires |sep| == 2
    ensures AtMost(PiecesFrom(s, sep, d, cur), |s| + |cur|)
    ensures |PiecesFrom(s, sep, d, cur)| > 1 ==> AtMost(PiecesFrom(s, sep, d, cur), |s| + |cur| - 2)
  {
    if s == [] {
    } else if s[0] == '(' || s[0] == ')' {
      PiecesShorter(s[1..], sep, if s[0] == '(' then d + 1 else d - 1, cur + [s[0]]);
    } else if d == 0 && sep <= s {
      PiecesShorter(s[2..], sep, 0, []);
    } else {
      PiecesShorter(s[1..], sep, d, cur + [s[0]]);
    }
  }

  /** Every part of a text that was really cut is shorter than the text: the parser terminates. */
  lemma SplitShorter(s: string, sep: string)
    requires |sep| == 2 && |Split(s, sep)| > 1
    ensures AtMost(Split(s, sep), |s| - 1)
  {
    PiecesShorter(s, sep, 0, []);
    var p := Pieces(s, sep);
    assert forall i :: 0 <= i < |Split(s, sep)| ==> Split(s, sep)[i] == p[i];
  }

  // ----- parser

  /** The operator symbols in the order they are looked for. */
  const OPERATORS: seq<(string, Operator)> := [
    ("~=", Regex), ("!=", Neq), (">=", Gte), ("<=", Lte), ("==", Eq), (">", Gt), ("<", Lt)
  ]

  /** The condition read from a text cut at an operator symbol. */
  function CutAt(expr: string, idx: nat, symbol: string, op: Operator): (c: Condition)
    requires idx + |symbol| <= |expr|
  {
    Condition(TrimPrefix(Trim(expr[..idx]), "."), op, Str(TrimQuotes(Trim(expr[idx + |symbol|..]))))
  }

  /** The first listed operator whose symbol occurs after the first character. */
  function FindOperator(expr: string, ops: seq<(string, Operator)>): (r: Option<Condition>) {
    if ops == [] then None
    else
      var (symbol, op) := ops[0];
      var idx := Index(expr, symbol);
      if idx > 0 then Some(CutAt(expr, idx, symbol, op))
      else FindOperator(expr, ops[1..])
  }

  /** A condition that is neither parenthesised nor a group. */
  function ParseAtom(expr: string): (r: Option<Condition>) {
    if HasSuffix(expr, " exists") then
      Some(Condition(TrimPrefix(Trim(TrimSuffix(expr, " exists")), "."), Exists, Nil))
    else FindOperator(expr, OPERATORS)
  }

  function ParseSingle(s: string): (r: Option<Node>)
    decreases |s|, 0, 0
  {
    var expr := Trim(s);
    if HasPrefix(expr, "(") && HasSuffix(expr, ")") then
      assert expr[0] == '(' && expr[|expr| - 1] == ')';
      Parse(expr[1..|expr| - 1])
    else
      var c := ParseAtom(expr);
      if c.None? then None else Some(Leaf(c.value))
  }

  function Parse(s: string): (r: Option<Node>)
    decreases |s|, 1, 0
  {
    var expr := Trim(s);
    var ors := Split(expr, "||");
    if Text.Contains(expr, "||") && |ors| > 1 then
      SplitShorter(expr, "||");
      ParseGroup(ors, Or, |expr|)
    else
      var ands := Split(expr, "&&");
      if Text.Contains(expr, "&&") && |ands| > 1 then
        SplitShorter(expr, "&&");
        ParseGroup(ands, And, |expr|)
      else ParseSingle(expr)
  }

  function ParseGroup(parts: seq<string>, op: Logic, ghost bound: nat): (r: Option<Node>)
    requires AtMost(parts, bound - 1)
    decreases bound, 0, |parts| + 1
  {
    var nodes := ParseParts(parts, bound);
    if nodes.None? then None else Some(Group(op, nodes.value))
  }

  function ParseParts(parts: seq<string>, ghost bound: nat): (r: Option<seq<Node>>)
    requires AtMost(parts, bound - 1)
    ensures r.Some? ==> |r.value| == |parts|
    ensures r.Some? <==> forall i :: 0 <= i < |parts| ==> Parse(Trim(parts[i])).Some?
    ensures r.Some? ==> forall i :: 0 <= i < |parts| ==> Parse(Trim(parts[i])) == Some(r.value[i])
    decreases bound, 0, |parts|
  {
    if parts == [] then Some([])
    else
      var n := Parse(Trim(parts[0]));
      if n.None? then None
      else
        var rest := ParseParts(parts[1..], bound);
        if rest.None? then None else Some([n.value] + rest.value)
  }

  /** `ExpressionToStructured`: the blank expression is refused before parsing. */
  function ExpressionToStructured(s: string): (r: Option<Node>) {
    if Trim(s) == "" then None else Parse(Trim(s))
  }
}
