/** The tree a rule is: the part of Python's `ast` the validator and the
    interpreter look at. Everything else is `Other`, named by its node class. */
module Syntax {
  import opened Values

  datatype BoolOperator = And | Or
  datatype UnaryOperator = Not | USub | UAdd | Invert
  datatype CmpOperator = Eq | NotEq | Lt | LtE | Gt | GtE | In | NotIn | Is | IsNot
  datatype BinOperator = Add | Sub | Mult | FloorDiv | Mod | OtherBin(name: string)

  datatype Keyword = Keyword(arg: Option<string>, value: Expr)

  /** One `op operand` pair of a chained comparison. */
  datatype Link = Link(op: CmpOperator, operand: Expr)

  datatype Expr =
    | Const(value: Value)
    | Name(id: string)
    | BoolOp(bop: BoolOperator, values: seq<Expr>)
    | UnaryOp(uop: UnaryOperator, operand: Expr)
    | Compare(left: Expr, links: seq<Link>)
    | BinOp(lhs: Expr, op: BinOperator, rhs: Expr)
    | Call(func: Expr, args: seq<Expr>, keywords: seq<Keyword>)
    | ListLit(elts: seq<Expr>)
    | TupleLit(elts: seq<Expr>)
    | Other(kind: string, children: seq<Expr>)

  const MAX_NODES := 200
  const MAX_STEPS := 1000

  /** The number of nodes `ast.walk` yields for a subtree. Operators, the load
      context of names and lists, and keywords are nodes too. */
  function Nodes(e: Expr): nat
    decreases e, 0
  {
    match e
    case Const(_) => 1
    case Name(_) => 2
    case BoolOp(_, values) => 2 + NodesAll(values)
    case UnaryOp(_, x) => 2 + Nodes(x)
    case Compare(left, links) => 1 + Nodes(left) + NodesLinks(links)
    case BinOp(l, _, r) => 2 + Nodes(l) + Nodes(r)
    case Call(f, args, keywords) => 1 + Nodes(f) + NodesAll(args) + NodesKeywords(keywords)
    case ListLit(elts) => 2 + NodesAll(elts)
    case TupleLit(elts) => 2 + NodesAll(elts)
    case Other(_, children) => 1 + NodesAll(children)
  }

  function NodesAll(es: seq<Expr>): nat
    decreases es, 0
  {
    if es == [] then 0 else Nodes(es[0]) + NodesAll(es[1..])
  }

  function NodesLinks(ls: seq<Link>): nat
    decreases ls, 0
  {
    if ls == [] then 0
    else
      assert (ls decreases to ls[0]);
      1 + Nodes(ls[0].operand) + NodesLinks(ls[1..])
  }

  function NodesKeywords(ks: seq<Keyword>): nat
    decreases ks, 0
  {
    if ks == [] then 0
    else
      assert (ks decreases to ks[0]);
      1 + Nodes(ks[0].value) + NodesKeywords(ks[1..])
  }

  /** The ceiling `parse` applies to the whole tree, counting its root. */
  predicate WithinNodeCeiling(body: Expr) {
    1 + Nodes(body) <= MAX_NODES
  }
}
