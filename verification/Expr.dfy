/**
 Expression trees (src/expr.c).  The children of a node are its arguments.
 */
module Expr {
  import opened Bytes

  datatype Value = Int(v: int) | Str(s: Text) | Date(v: int) | Time(v: int) | DateTime(v: int)

  datatype BinOp = Or | And | Eq | Ne | Le | Ge | Lt | Gt | Add | Sub | Mul | Div | Mod

  datatype Node =
    | Const(value: Value)
    | Var(name: Text)
    | Local(index: nat)
    | SysVar(name: Text)
    | Builtin(name: Text, args: seq<Node>)
    | User(name: Text, args: seq<Node>)
    | Not(kid: Node)
    | Minus(kid: Node)
    | Bin(op: BinOp, left: Node, right: Node)

  /** How many nodes a tree takes. */
  function Size(n: Node): nat {
    match n
    case Builtin(_, args) => 1 + Sizes(args)
    case User(_, args) => 1 + Sizes(args)
    case Not(kid) => 1 + Size(kid)
    case Minus(kid) => 1 + Size(kid)
    case Bin(_, l, r) => 1 + Size(l) + Size(r)
    case _ => 1
  }

  function Sizes(args: seq<Node>): nat {
    if args == [] then 0 else Size(args[0]) + Sizes(args[1..])
  }
}
