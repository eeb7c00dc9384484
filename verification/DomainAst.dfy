/** Abstract syntax of Odoo record-rule domains. */
module DomainAst {

  datatype Operator =
    | Equal | NotEqual
    | Less | LessEq | Greater | GreaterEq
    | In | NotIn
    | Like | NotLike | ILike | NotILike
    | EqLike | EqILike
    | ChildOf | ParentOf

  datatype LogicOp = And | Or | Not

  /** The right-hand side of a condition, as written in the domain. */
  datatype Literal =
    | StringLit(text: string)
    | IntLit(n: int)
    | FloatLit(r: real)
    | BoolLit(b: bool)
    | NoneLit
    | RefLit(name: string)
    | ListLit(items: seq<Literal>)
    | TupleLit(items: seq<Literal>)

  datatype Condition = Condition(field: string, op: Operator, value: Literal)

  datatype Node =
    | MatchAll
    | Leaf(cond: Condition)
    | BoolOp(op: LogicOp, children: seq<Node>)

  /** What the parser promises of its trees: & and | are binary, ! is unary, no nested match-all. */
  predicate WellFormed(n: Node) {
    match n
    case MatchAll => false
    case Leaf(_) => true
    case BoolOp(op, children) =>
      if op == Not then |children| == 1 && WellFormed(children[0])
      else |children| == 2 && WellFormed(children[0]) && WellFormed(children[1])
  }
}
