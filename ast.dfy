/**
 * The syntax tree the checker consumes.  Each node carries a stable id,
 * which diagnostics point at and the memo tables are keyed by.  Literal
 * values arrive already parsed: `value` is the integer the literal's text
 * denotes in Go's base-prefixed syntax, or nil when that text is not an
 * integer.
 */
module Ast {
  import opened Wrappers

  type NodeId = nat

  datatype Ident = Ident(id: NodeId, name: string)

  datatype LiteralKind = IntLiteral | FloatLiteral | StringLiteral | OtherLiteral

  datatype OperatorKind =
    | OpNeg | OpNot | OpAddr | OpMutAddr
    | OpAdd | OpSub | OpMul | OpDiv | OpMod
    | OpBitAnd | OpBitOr | OpBitXor | OpBitShl | OpBitShr
    | OpEq | OpNe | OpLt | OpLe | OpGt | OpGe
    | OpAssign | OpUnwrap | OpTry
    | OpOther(spelling: string)

  /** An operator token, which is a node of its own. */
  datatype Operator = Operator(id: NodeId, kind: OperatorKind)

  /** A parenthesised or bracketed expression list. */
  datatype ExprList = ExprList(id: NodeId, exprs: seq<Node>)

  /** A brace-delimited statement list. */
  datatype Curly = Curly(id: NodeId, nodes: seq<Node>)

  /** A function signature: parameters and an optional result type expression. */
  datatype Signature = Signature(id: NodeId, params: ExprList, result: Option<Node>)

  /** `name: type`, the binding of a declaration or a parameter. */
  datatype Binding = Binding(id: NodeId, name: Ident, typ: Option<Node>)

  datatype Node =
    | BadNode(id: NodeId)
    | Empty(id: NodeId)
    | Name(ident: Ident)
    | OperatorNode(op: Operator)
    | Literal(id: NodeId, kind: LiteralKind, value: Option<int>)
    | ArrayType(id: NodeId, args: ExprList, x: Node)
    | ParenList(list: ExprList)
    | BracketList(list: ExprList)
    | CurlyList(block: Curly)
    | PrefixOp(id: NodeId, opr: Operator, x: Node)
    | InfixOp(id: NodeId, opr: Operator, x: Node, y: Node)
    | PostfixOp(id: NodeId, opr: Operator, x: Node)
    | Call(id: NodeId, x: Node, args: ExprList)
    | Index(id: NodeId, x: Node, args: ExprList)
    | BuiltInCall(id: NodeId, name: Ident, builtInArgs: Node)
    | If(id: NodeId, cond: Node, body: Curly, elseBody: Option<Node>)
    | While(id: NodeId, cond: Node, body: Curly)
    | SignatureNode(sig: Signature)
    | BindingNode(binding: Binding)
    | BindingWithValue(id: NodeId, binding: Binding, default: Node)
    | VarDecl(id: NodeId, binding: Binding, init: Option<Node>)
    | TypeAliasDecl(id: NodeId, name: Ident, x: Node)
    | FuncDecl(id: NodeId, name: Ident, signature: Signature, funcBody: Option<Curly>)
    | ModuleDecl(id: NodeId, name: Ident)
      /** Any other node shape. */
    | OtherNode(id: NodeId)

  /** The id of a node, where its diagnostics are placed. */
  function IdOf(n: Node): NodeId
  {
    match n
    case Name(i) => i.id
    case OperatorNode(op) => op.id
    case ParenList(l) => l.id
    case BracketList(l) => l.id
    case CurlyList(b) => b.id
    case SignatureNode(s) => s.id
    case BindingNode(b) => b.id
    case _ => n.id
  }

  predicate IsDecl(n: Node) {
    n.VarDecl? || n.TypeAliasDecl? || n.FuncDecl? || n.ModuleDecl?
  }
}
