/** Filter trees: conditions and and/or groups of them (the identifiers for the editor are left out). */
module FilterModel {

  /** The comparison operators; any other string in the operator field is `OtherOp`. */
  datatype Operator =
    | Eq | Neq | Gt | Gte | Lt | Lte | Contains | StartsWith | EndsWith | Regex
    | Exists | NotExists | In | NotIn | IsNull | IsNotNull
    | OtherOp(name: string)

  datatype Logic = And | Or | OtherLogic(name: string)

  /** A comparison value: absent, a string, or anything else, known by the text it prints as. */
  datatype Value = Nil | Str(s: string) | Other(repr: string)

  datatype Condition = Condition(field: string, op: Operator, value: Value)

  datatype Node =
    | Leaf(cond: Condition)
    | Group(op: Logic, children: seq<Node>)
    | Unknown(kind: string)

  /** Operators that take no value. */
  predicate TakesNoValue(op: Operator) {
    op.Exists? || op.NotExists? || op.IsNull? || op.IsNotNull?
  }

  predicate ValidCondition(c: Condition) {
    && c.field != ""
    && c.op != OtherOp("")
    && (TakesNoValue(c.op) || c.value != Nil)
  }

  /** What `Validate` refuses: a missing field, operator or value, an unknown connective or kind, an empty group. */
  lemma Refusals(f: string, op: Operator, v: Value, logic: Logic, cs: seq<Node>, kind: string)
    ensures !Valid(Leaf(Condition("", op, v))) && !Valid(Leaf(Condition(f, OtherOp(""), v)))
    ensures f != "" && (op.Exists? || op.NotExists? || op.IsNull? || op.IsNotNull?) ==> Valid(Leaf(Condition(f, op, v)))
    ensures f != "" && !(op.Exists? || op.NotExists? || op.IsNull? || op.IsNotNull?) && op != OtherOp("") ==>
              (Valid(Leaf(Condition(f, op, v))) <==> v != Nil)
    ensures !Valid(Unknown(kind)) && !Valid(Group(logic, []))
    ensures cs != [] ==> (Valid(Group(logic, cs)) <==>
                            (logic == And || logic == Or) && forall i :: 0 <= i < |cs| ==> Valid(cs[i]))
  {
  }

  /** What `Validate` accepts: known connectives, no empty group, complete conditions. */
  predicate Valid(n: Node) {
    match n
    case Leaf(c) => ValidCondition(c)
    case Group(op, cs) => !op.OtherLogic? && cs != [] && forall i :: 0 <= i < |cs| ==> Valid(cs[i])
    case Unknown(_) => false
  }
}
