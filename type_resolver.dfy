/**
 * Type inference (checker/type_resolver.go `Scope.TypeOf`), together with
 * the two pieces it recurses through: the block checker's step
 * (checker/block.go `Block.visit`) and variable declarations
 * (checker/resolver.go `resolveVarDecl`).
 *
 * Inference changes the scope it runs in: a brace block is checked in the
 * very scope it appears in, and each variable declaration adds a symbol
 * there.  Every function therefore takes a scope and returns the scope as
 * it is afterwards together with the outcome.
 *
 * A Go panic becomes an `Internal` outcome.  Where the source calls a
 * method on a type that can be nil (`x.Equals`, `x.Underlying()`), or
 * hands a nil type to `SkipUntyped` or `SkipTypeDesc`, the outcome is
 * `Internal` too; a nil type passed as the ARGUMENT of `Equals` makes the
 * comparison false.
 */
module Inference {
  import opened Wrappers
  import opened PrimitiveKinds
  import opened Types
  import opened Funcs
  import opened Ast
  import opened Scopes

  datatype ErrorKind =
    | UndefinedIdentifier(name: string)
    | NoType(name: string)
    | ExpectedOneArgument
    | NegativeArraySize
    | ExpectedSizeLiteral
    | ExpectedType(got: Option<Type>)
    | ExpectedExpression(typ: Type)
    | ElementMismatch(expected: Type, got: Option<Type>)
    | UndefinedOperator(op: OperatorKind, typ: Type)
    | TypeMismatch(left: Type, got: Option<Type>)
    | NotAFunction
    | ArgumentError(argError: ArgError)
    | IndexNotI32(got: Option<Type>)
    | IndexOutOfRange(len: nat)
    | ExpectedIntLiteral
    | NotArrayOrTuple
    | UnknownBuiltIn(name: string)
    | BlockArgument
    | BuiltInFailed(message: string)
    | BranchMismatch(first: Option<Type>, got: Option<Type>)
    | ConditionNotBool(got: Option<Type>)
    | WhileBodyTyped(typ: Type)
    | NotAType(typ: Type)
    | ExpectedValue(typ: Type)
    | DeclMismatch(expected: Type, typ: Type)
    | DefaultParameter
    | ResultMismatch(expectedResult: seq<Type>, got: Option<Type>)
    | MissingBody
    | AlreadyDefined(ident: Ident, previous: Ident)

  /**
   * The `(types.Type, error)` pair: a type (nil for statements), or a
   * diagnostic at a node with whatever type was returned beside it, or an
   * internal failure that aborts checking.
   */
  datatype Checked =
    | Ok(t: Option<Type>)
    | Err(partial: Option<Type>, at: NodeId, error: ErrorKind)
    | Internal(reason: string)

  /** `return nil, err`: pass a failure on without a type. */
  function Drop(r: Checked): (d: Checked)
    ensures r.Err? ==> d == Err(None, r.at, r.error)
    ensures !r.Err? ==> d == r
  {
    match r
    case Err(_, at, e) => Err(None, at, e)
    case _ => r
  }

  /** Assumed: the compile-time constants built-in evaluators produce. */
  datatype Value = IntValue(i: int) | BoolValue(b: bool) | StringValue(s: string)

  /** A type with the compile-time value discovered for it, each possibly nil. */
  datatype TypedValue = TypedValue(t: Option<Type>, value: Option<Value>)

  datatype EvalResult = Evaluated(value: Option<TypedValue>) | EvalFailed(at: NodeId, message: string)

  /** An entry of the built-in table: its name, signature and compile-time evaluator. */
  datatype BuiltIn = BuiltIn(name: string, sig: FuncType, eval: (ExprList, Scope) -> EvalResult)

  /** A scope after a step, and the step's outcome. */
  datatype Step = Step(scope: Scope, r: Checked)

  /** The outcome of the block checker's visit of one statement. */
  datatype Visited = Continue(scope: Scope, t: Option<Type>) | Stop(scope: Scope, r: Checked)

  /**
   * The table scan of the `BuiltInCall` case: the loop keeps the LAST
   * entry whose name matches, since it never breaks.  -1 when none does.
   */
  function LastBuiltIn(tbl: seq<BuiltIn>, name: string): (k: int)
    ensures -1 <= k < |tbl|
    ensures k == -1 <==> forall i :: 0 <= i < |tbl| ==> tbl[i].name != name
    ensures k >= 0 ==> tbl[k].name == name && forall j :: k < j < |tbl| ==> tbl[j].name != name
  {
    if tbl == [] then -1
    else if tbl[|tbl| - 1].name == name then |tbl| - 1
    else LastBuiltIn(tbl[..|tbl| - 1], name)
  }

  /** `Scope.SymbolOf`: the symbol the identifier's name resolves to. */
  function SymbolOf(s: Scope, ident: Ident): Option<Symbol> {
    Lookup(s, ident.name)
  }

  predicate InInt32(v: int) { -0x8000_0000 <= v < 0x8000_0000 }
  predicate InInt64(v: int) { -0x8000_0000_0000_0000 <= v < 0x8000_0000_0000_0000 }

  predicate IsArithmetic(op: OperatorKind) {
    op in {OpAdd, OpSub, OpMul, OpDiv, OpMod, OpBitAnd, OpBitOr, OpBitXor, OpBitShl, OpBitShr}
  }

  predicate IsComparison(op: OperatorKind) {
    op in {OpEq, OpNe, OpLt, OpLe, OpGt, OpGe}
  }

  /** `Scope.TypeOf`, one rule per node shape. */
  function TypeOf(s: Scope, n: Node, tbl: seq<BuiltIn>): (res: Step)
    ensures Extends(s, res.scope)
    decreases n, 2
  {
    match n
    case BadNode(_) => Step(s, Internal("ill-formed AST"))
    case Empty(_) => Step(s, Ok(Some(Unit)))
    case Name(ident) => Step(s, TypeOfName(s, ident))
    case OperatorNode(_) => Step(s, Internal("operator node"))
    case Literal(_, kind, _) =>
      Step(s, match kind
        case IntLiteral => Ok(Some(Primitive(UntypedInt)))
        case FloatLiteral => Ok(Some(Primitive(UntypedFloat)))
        case StringLiteral => Ok(Some(Primitive(UntypedString)))
        case OtherLiteral => Internal("unhandled literal kind"))
    case ArrayType(_, _, _) => TypeOfArrayType(s, n, tbl)
    case ParenList(l) => TypeOfParen(s, l, tbl)
    case BracketList(l) => TypeOfBracket(s, l, 0, None, tbl)
    case CurlyList(b) => TypeOfCurly(s, b, tbl)
    case PrefixOp(_, _, _) => TypeOfPrefix(s, n, tbl)
    case InfixOp(_, _, _, _) => TypeOfInfix(s, n, tbl)
    case PostfixOp(_, _, _) => TypeOfPostfix(s, n, tbl)
    case Call(_, _, _) => TypeOfCall(s, n, tbl)
    case Index(_, _, _) => TypeOfIndex(s, n, tbl)
    case BuiltInCall(_, _, _) => TypeOfBuiltInCall(s, n, tbl)
    case If(_, _, _, _) => TypeOfIf(s, n, tbl)
    case While(_, _, _) => TypeOfWhile(s, n, tbl)
    case SignatureNode(sig) => TypeOfSignature(s, sig, tbl)
    case _ => Step(s, Internal("type checking of this node is not implemented"))
  }

  /** An identifier has its symbol's type; an unknown name or an unresolved symbol is an error. */
  function TypeOfName(s: Scope, ident: Ident): Checked {
    match SymbolOf(s, ident)
    case None => Err(None, ident.id, UndefinedIdentifier(ident.name))
    case Some(sym) =>
      if SymType(sym).None? then Err(None, ident.id, NoType(ident.name)) else Ok(SymType(sym))
  }

  datatype SizeOutcome = Size(size: int) | SizeFailed(r: Checked)

  /** The size argument of an array type: a non-negative literal, or `_` for -1. */
  function ArraySize(arg: Node): SizeOutcome {
    match arg
    case Literal(lid, _, v) =>
      if v.None? || !InInt32(v.value) then SizeFailed(Internal("strconv.ParseInt"))
      else if v.value < 0 then SizeFailed(Err(None, lid, NegativeArraySize))
      else Size(v.value)
    case Name(i) =>
      if i.name != "_" then SizeFailed(Err(None, i.id, ExpectedSizeLiteral)) else Size(-1)
    case _ => SizeFailed(Err(None, IdOf(arg), ExpectedSizeLiteral))
  }

  function TypeOfArrayType(s: Scope, n: Node, tbl: seq<BuiltIn>): (res: Step)
    requires n.ArrayType?
    ensures Extends(s, res.scope)
    decreases n, 1
  {
    if |n.args.exprs| != 1 then Step(s, Err(None, n.args.id, ExpectedOneArgument))
    else
      match ArraySize(n.args.exprs[0])
      case SizeFailed(r) => Step(s, r)
      case Size(size) =>
        var e := TypeOf(s, n.x, tbl);
        if !e.r.Ok? then Step(e.scope, Drop(e.r))
        else if e.r.t.None? || !IsTypeDesc(e.r.t.value) then
          Step(e.scope, Err(None, IdOf(n.x), ExpectedType(e.r.t)))
        else
          Step(e.scope, Ok(Some(TypeDesc(Array(size, Some(SkipTypeDesc(e.r.t.value)))))))
  }

  /**
   * A parenthesised list: unit when empty; otherwise its first element
   * decides between a tuple of types and a tuple of values.
   */
  function TypeOfParen(s: Scope, l: ExprList, tbl: seq<BuiltIn>): (res: Step)
    ensures Extends(s, res.scope)
    decreases l, |l.exprs| + 1
  {
    if |l.exprs| == 0 then Step(s, Ok(Some(Unit)))
    else
      var first := TypeOf(s, l.exprs[0], tbl);
      if !first.r.Ok? then Step(first.scope, Drop(first.r))
      else if first.r.t.None? then Step(first.scope, Internal("nil type"))
      else
        var t := first.r.t.value;
        var isTypeDescTuple := IsTypeDesc(t);
        var elem := if isTypeDescTuple then SkipTypeDesc(t) else SkipUntyped(t);
        var rest := TypeOfParenRest(first.scope, l, 1, isTypeDescTuple, [elem], tbl);
        if rest.r.Ok? && isTypeDescTuple then Step(rest.scope, Ok(Some(TypeDesc(rest.r.t.value))))
        else rest
  }

  /** The loop over a parenthesised list's elements after the first. */
  function TypeOfParenRest(s: Scope, l: ExprList, i: nat, isTypeDescTuple: bool, acc: seq<Type>, tbl: seq<BuiltIn>): (res: Step)
    requires 1 <= i <= |l.exprs| && |acc| == i
    ensures Extends(s, res.scope)
    ensures res.r.Ok? ==> res.r.t.Some? && res.r.t.value.Tuple?
    ensures res.r.Ok? ==> |res.r.t.value.elems| == |l.exprs| && res.r.t.value.elems[..i] == acc
    ensures res.r.Ok? && !isTypeDescTuple ==> forall k :: i <= k < |l.exprs| ==> !IsTypeDesc(res.r.t.value.elems[k])
    decreases l, |l.exprs| - i
  {
    if i == |l.exprs| then Step(s, Ok(Some(Tuple(acc))))
    else
      var expr := l.exprs[i];
      var e := TypeOf(s, expr, tbl);
      if !e.r.Ok? then Step(e.scope, Drop(e.r))
      else if isTypeDescTuple then
        if e.r.t.None? || !IsTypeDesc(e.r.t.value) then Step(e.scope, Err(None, IdOf(expr), ExpectedType(e.r.t)))
        else TypeOfParenRest(e.scope, l, i + 1, isTypeDescTuple, acc + [SkipTypeDesc(e.r.t.value)], tbl)
      else
        if e.r.t.None? then Step(e.scope, Internal("nil type"))
        else if IsTypeDesc(e.r.t.value) then Step(e.scope, Err(None, IdOf(expr), ExpectedExpression(e.r.t.value)))
        else TypeOfParenRest(e.scope, l, i + 1, isTypeDescTuple, acc + [SkipUntyped(e.r.t.value)], tbl)
  }

  /**
   * The loop of a bracket list from position `i`; `elemType` is nil until
   * the first element has been seen.
   */
  function TypeOfBracket(s: Scope, l: ExprList, i: nat, elemType: Option<Type>, tbl: seq<BuiltIn>): (res: Step)
    requires i <= |l.exprs| && (elemType.None? <==> i == 0)
    ensures Extends(s, res.scope)
    ensures res.r.Ok? ==> res.r.t.Some? && res.r.t.value.Array? && res.r.t.value.size == |l.exprs|
    ensures res.r.Ok? ==> (res.r.t.value.elem.None? <==> |l.exprs| == 0)
    ensures res.r.Ok? && i > 0 ==> res.r.t.value.elem == elemType
    decreases l, |l.exprs| - i
  {
    if i == |l.exprs| then Step(s, Ok(Some(Array(|l.exprs|, elemType))))
    else
      var expr := l.exprs[i];
      var e := TypeOf(s, expr, tbl);
      if !e.r.Ok? then Step(e.scope, Drop(e.r))
      else if elemType.None? then
        if e.r.t.None? then Step(e.scope, Internal("nil type"))
        else TypeOfBracket(e.scope, l, i + 1, Some(SkipUntyped(e.r.t.value)), tbl)
      else if !EqualsTo(elemType.value, e.r.t) then
        Step(e.scope, Err(None, IdOf(expr), ElementMismatch(elemType.value, e.r.t)))
      else TypeOfBracket(e.scope, l, i + 1, elemType, tbl)
  }

  /** A brace block: a new block over the same scope, starting at unit, visiting each statement. */
  function TypeOfCurly(s: Scope, b: Curly, tbl: seq<BuiltIn>): (res: Step)
    ensures Extends(s, res.scope)
    decreases b, |b.nodes| + 1
  {
    BlockFrom(s, b, 0, Some(Unit), tbl)
  }

  /** The block's statements from position `i`, with running type `t`. */
  function BlockFrom(s: Scope, b: Curly, i: nat, t: Option<Type>, tbl: seq<BuiltIn>): (res: Step)
    requires i <= |b.nodes|
    ensures Extends(s, res.scope)
    decreases b, |b.nodes| - i
  {
    if i == |b.nodes| then Step(s, Ok(t))
    else
      match Visit(s, b.nodes[i], tbl)
      case Continue(s1, t1) => BlockFrom(s1, b, i + 1, t1, tbl)
      case Stop(s1, r) => Step(s1, Drop(r))
  }

  /**
   * `Block.visit` on one statement.  A variable declaration is resolved,
   * then defined, and makes the running type unit; any other declaration
   * is not implemented; any other node's type becomes the running type.
   * The visitor never descends: only the statement itself is checked.
   */
  function Visit(s: Scope, node: Node, tbl: seq<BuiltIn>): (v: Visited)
    ensures Extends(s, v.scope)
    ensures v.Stop? ==> !v.r.Ok?
    decreases node, 3
  {
    if node.VarDecl? then
      var d := VarDeclType(s, node, tbl);
      if !d.r.Ok? then Stop(d.scope, d.r)
      else
        var sym := Var(node.binding.name, d.r.t);
        var (s1, prev) := Define(d.scope, sym);
        if prev.Some? then Stop(s1, Err(None, node.binding.name.id, AlreadyDefined(node.binding.name, prev.value.ident)))
        else Continue(s1, Some(Unit))
    else if IsDecl(node) then
      Stop(s, Internal("declaration not implemented in a block"))
    else
      var e := TypeOf(s, node, tbl);
      if !e.r.Ok? then Stop(e.scope, e.r) else Continue(e.scope, e.r.t)
  }

  /**
   * `resolveVarDecl`: the annotation must denote a type, whose base is
   * the declared type; the initializer must be a value, concretised and
   * equal to the declared type when there is one.
   */
  function VarDeclType(s: Scope, d: Node, tbl: seq<BuiltIn>): (res: Step)
    requires d.VarDecl?
    ensures Extends(s, res.scope)
    decreases d, 1
  {
    if d.binding.typ.Some? then
      var a := TypeOf(s, d.binding.typ.value, tbl);
      if !a.r.Ok? then a
      else if a.r.t.None? then Step(a.scope, Internal("annotation should have a type"))
      else if !Underlying(a.r.t.value).TypeDesc? then
        Step(a.scope, Err(None, IdOf(d.binding.typ.value), NotAType(a.r.t.value)))
      else VarDeclInit(a.scope, d, Some(Underlying(a.r.t.value).base), tbl)
    else VarDeclInit(s, d, None, tbl)
  }

  /** The initializer part of `resolveVarDecl`, given the declared type (nil without annotation). */
  function VarDeclInit(s: Scope, d: Node, declared: Option<Type>, tbl: seq<BuiltIn>): (res: Step)
    requires d.VarDecl?
    ensures Extends(s, res.scope)
    decreases d, 0
  {
    if d.init.None? then Step(s, Ok(declared))
    else
      var v := TypeOf(s, d.init.value, tbl);
      if !v.r.Ok? then Step(v.scope, Drop(v.r))
      else if v.r.t.None? then Step(v.scope, Internal("nil type"))
      else
        var u := Underlying(v.r.t.value);
        if IsTypeDesc(u) then Step(v.scope, Err(None, IdOf(d.init.value), ExpectedValue(u)))
        else
          var c := SkipUntyped(v.r.t.value);
          if declared.Some? && !Equals(declared.value, c) then
            Step(v.scope, Err(declared, IdOf(d.init.value), DeclMismatch(declared.value, c)))
          else if declared.None? then Step(v.scope, Ok(Some(c)))
          else Step(v.scope, Ok(declared))
  }

  function TypeOfPrefix(s: Scope, n: Node, tbl: seq<BuiltIn>): (res: Step)
    requires n.PrefixOp?
    ensures Extends(s, res.scope)
    decreases n, 1
  {
    var e := TypeOf(s, n.x, tbl);
    if !e.r.Ok? then Step(e.scope, Drop(e.r))
    else if e.r.t.None? then Step(e.scope, Internal("nil type"))
    else
      var t := e.r.t.value;
      var u := Underlying(t);
      match n.opr.kind
      case OpNeg =>
        if u.Primitive? && u.kind in {UntypedInt, UntypedFloat, I32} then Step(e.scope, Ok(Some(t)))
        else Step(e.scope, Err(None, n.opr.id, UndefinedOperator(OpNeg, t)))
      case OpNot =>
        if u.Primitive? && u.kind in {UntypedBool, Bool} then Step(e.scope, Ok(Some(t)))
        else Step(e.scope, Err(None, IdOf(n.x), UndefinedOperator(OpNot, t)))
      case OpAddr =>
        if IsTypeDesc(t) then Step(e.scope, Ok(Some(TypeDesc(Ref(SkipTypeDesc(t))))))
        else Step(e.scope, Ok(Some(Ref(SkipUntyped(t)))))
      case OpMutAddr => Step(e.scope, Internal("not implemented"))
      case _ => Step(e.scope, Internal("unhandled prefix operator"))
  }

  /**
   * An infix operator: the operand types must be equal (assignment too);
   * then the operator must be defined for the left operand's primitive
   * kind, except that assignment is always unit.
   */
  function TypeOfInfix(s: Scope, n: Node, tbl: seq<BuiltIn>): (res: Step)
    requires n.InfixOp?
    ensures Extends(s, res.scope)
    decreases n, 1
  {
    var ex := TypeOf(s, n.x, tbl);
    if !ex.r.Ok? then Step(ex.scope, Drop(ex.r))
    else
      var ey := TypeOf(ex.scope, n.y, tbl);
      if !ey.r.Ok? then Step(ey.scope, Drop(ey.r))
      else Step(ey.scope, InfixRule(n, ex.r.t, ey.r.t))
  }

  /** The infix rule on the operand types, once both are known. */
  function InfixRule(n: Node, x: Option<Type>, y: Option<Type>): Checked
    requires n.InfixOp?
  {
    if x.None? then Internal("nil type")
    else if !EqualsTo(x.value, y) then Err(None, n.id, TypeMismatch(x.value, y))
    else
      var p := Underlying(SkipAlias(x.value));
      var op := n.opr.kind;
      if p.Primitive? && IsArithmetic(op) && p.kind in {UntypedInt, UntypedFloat, I32} then Ok(x)
      else if p.Primitive? && IsComparison(op) && p.kind in {UntypedBool, UntypedInt, UntypedFloat} then
        Ok(Some(Primitive(UntypedBool)))
      else if p.Primitive? && IsComparison(op) && p.kind in {Bool, I32} then Ok(Some(Primitive(Bool)))
      else if op == OpAssign then Ok(Some(Unit))
      else Err(None, n.opr.id, UndefinedOperator(op, x.value))
  }

  /**
   * A postfix operator.  Unwrapping a reference gives its base; unwrapping
   * anything else leaves the switch and ends in the default unit result.
   */
  function TypeOfPostfix(s: Scope, n: Node, tbl: seq<BuiltIn>): (res: Step)
    requires n.PostfixOp?
    ensures Extends(s, res.scope)
    decreases n, 1
  {
    var e := TypeOf(s, n.x, tbl);
    if !e.r.Ok? then Step(e.scope, Drop(e.r))
    else
      match n.opr.kind
      case OpUnwrap =>
        if e.r.t.Some? && AsRef(e.r.t.value).Some? then Step(e.scope, Ok(Some(AsRef(e.r.t.value).value.base)))
        else Step(e.scope, Ok(Some(Unit)))
      case OpTry => Step(e.scope, Internal("not implemented"))
      case _ => Step(e.scope, Internal("unreachable"))
  }

  /** Where an argument-check failure is reported: the faulty argument, or the whole list. */
  function ArgFaultAt(args: ExprList, idx: int): NodeId
    requires idx >= 0
  {
    if idx < |args.exprs| then IdOf(args.exprs[idx]) else args.id
  }

  function TypeOfCall(s: Scope, n: Node, tbl: seq<BuiltIn>): (res: Step)
    requires n.Call?
    ensures Extends(s, res.scope)
    decreases n, 1
  {
    var e := TypeOf(s, n.x, tbl);
    if !e.r.Ok? then Step(e.scope, Drop(e.r))
    else if e.r.t.None? then Step(e.scope, Internal("nil type"))
    else if !Underlying(e.r.t.value).Func? then Step(e.scope, Err(None, IdOf(n.x), NotAFunction))
    else
      var fn := Underlying(e.r.t.value).fn;
      var a := TypeOfParen(e.scope, n.args, tbl);
      if !a.r.Ok? then Step(a.scope, Drop(a.r))
      else if a.r.t.None? || !a.r.t.value.Tuple? then Step(a.scope, Internal("type assertion to a tuple"))
      else
        var (idx, err) := ArgFault(fn, a.r.t.value.elems);
        if err.Some? then Step(a.scope, Err(None, ArgFaultAt(n.args, idx), ArgumentError(err.value)))
        else Step(a.scope, Ok(Some(Tuple(fn.result))))
  }

  /** The literal index of a tuple, after `strconv.ParseInt(_, 0, 64)`. */
  function TupleIndex(arg: Node, elems: seq<Type>): Checked {
    match arg
    case Literal(lid, IntLiteral, v) =>
      if v.None? || !InInt64(v.value) then Internal("strconv.ParseInt")
      else if v.value < 0 || v.value > |elems| - 1 then Err(None, lid, IndexOutOfRange(|elems|))
      else Ok(Some(elems[v.value]))
    case _ => Err(None, IdOf(arg), ExpectedIntLiteral)
  }

  function TypeOfIndex(s: Scope, n: Node, tbl: seq<BuiltIn>): (res: Step)
    requires n.Index?
    ensures Extends(s, res.scope)
    decreases n, 1
  {
    var e := TypeOf(s, n.x, tbl);
    if !e.r.Ok? then Step(e.scope, Drop(e.r))
    else if |n.args.exprs| != 1 then Step(e.scope, Err(None, n.args.id, ExpectedOneArgument))
    else
      var arg := n.args.exprs[0];
      var ei := TypeOf(e.scope, arg, tbl);
      if !ei.r.Ok? then Step(ei.scope, Drop(ei.r))
      else if e.r.t.Some? && AsArray(e.r.t.value).Some? then
        if !EqualsTo(Primitive(I32), ei.r.t) then Step(ei.scope, Err(None, IdOf(arg), IndexNotI32(ei.r.t)))
        else Step(ei.scope, Ok(AsArray(e.r.t.value).value.elem))
      else if e.r.t.Some? && AsTuple(e.r.t.value).Some? then
        Step(ei.scope, TupleIndex(arg, AsTuple(e.r.t.value).value.elems))
      else Step(ei.scope, Err(None, IdOf(n.x), NotArrayOrTuple))
  }

  function TypeOfBuiltInCall(s: Scope, n: Node, tbl: seq<BuiltIn>): (res: Step)
    requires n.BuiltInCall?
    ensures Extends(s, res.scope)
    decreases n, 1
  {
    var k := LastBuiltIn(tbl, n.name.name);
    if k < 0 then Step(s, Err(None, n.name.id, UnknownBuiltIn(n.name.name)))
    else if !n.builtInArgs.ParenList? then Step(s, Err(None, IdOf(n.builtInArgs), BlockArgument))
    else
      var args := n.builtInArgs.list;
      var a := TypeOfParen(s, args, tbl);
      if !a.r.Ok? then Step(a.scope, Drop(a.r))
      else if a.r.t.None? || !a.r.t.value.Tuple? then Step(a.scope, Internal("type assertion to a tuple"))
      else
        var (idx, err) := ArgFault(tbl[k].sig, a.r.t.value.elems);
        if err.Some? then Step(a.scope, Err(None, ArgFaultAt(args, idx), ArgumentError(err.value)))
        else
          match tbl[k].eval(args, a.scope)
          case EvalFailed(at, msg) => Step(a.scope, Err(None, at, BuiltInFailed(msg)))
          case Evaluated(Some(v)) => Step(a.scope, Ok(v.t))
          case Evaluated(None) => Step(a.scope, Ok(Some(Unit)))
  }

  /**
   * The node an else-branch mismatch is reported at: the last statement of
   * the else block, or of the body of an `else if`; nil where the source
   * indexes an empty statement list.
   */
  function LastNodeOf(e: Node): Option<NodeId> {
    match e
    case CurlyList(b) => if |b.nodes| == 0 then None else Some(IdOf(b.nodes[|b.nodes| - 1]))
    case If(_, _, body, _) => if |body.nodes| == 0 then None else Some(IdOf(body.nodes[|body.nodes| - 1]))
    case _ => Some(IdOf(e))
  }

  /** `if`: the body first, then the else branch, then the condition. */
  function TypeOfIf(s: Scope, n: Node, tbl: seq<BuiltIn>): (res: Step)
    requires n.If?
    ensures Extends(s, res.scope)
    decreases n, 1
  {
    var b := TypeOfCurly(s, n.body, tbl);
    if !b.r.Ok? then Step(b.scope, Drop(b.r))
    else
      var tBody := b.r.t;
      if n.elseBody.Some? then
        var el := TypeOf(b.scope, n.elseBody.value, tbl);
        if el.r.Err? then Step(el.scope, Err(tBody, el.r.at, el.r.error))
        else if el.r.Internal? then el
        else
          var last := LastNodeOf(n.elseBody.value);
          if last.None? then Step(el.scope, Internal("index out of range"))
          else if (tBody.None? && el.r.t.Some?) || (tBody.Some? && !EqualsTo(tBody.value, el.r.t)) then
            Step(el.scope, Err(None, last.value, BranchMismatch(tBody, el.r.t)))
          else IfCondition(el.scope, n, tBody, tbl)
      else IfCondition(b.scope, n, tBody, tbl)
  }

  /** The condition of an `if`, which returns the body type even when it fails. */
  function IfCondition(s: Scope, n: Node, tBody: Option<Type>, tbl: seq<BuiltIn>): (res: Step)
    requires n.If?
    ensures Extends(s, res.scope)
    decreases n, 0
  {
    var c := TypeOf(s, n.cond, tbl);
    if c.r.Err? then Step(c.scope, Err(tBody, c.r.at, c.r.error))
    else if c.r.Internal? then c
    else if !EqualsTo(Primitive(Bool), c.r.t) then Step(c.scope, Err(tBody, IdOf(n.cond), ConditionNotBool(c.r.t)))
    else Step(c.scope, Ok(tBody))
  }

  /** `typeCheckWhile`: a nil type, with the body check as written and the condition required to be bool. */
  function TypeOfWhile(s: Scope, n: Node, tbl: seq<BuiltIn>): (res: Step)
    requires n.While?
    ensures Extends(s, res.scope)
    decreases n, 1
  {
    var b := TypeOfCurly(s, n.body, tbl);
    if b.r.Internal? then b
    else if b.r.Err? && b.r.partial.Some? then
      Step(b.scope, Err(None, n.body.id, WhileBodyTyped(b.r.partial.value)))
    else
      var c := TypeOf(b.scope, n.cond, tbl);
      if !c.r.Ok? then Step(c.scope, Drop(c.r))
      else if !EqualsTo(Primitive(Bool), c.r.t) then Step(c.scope, Err(None, IdOf(n.cond), ConditionNotBool(c.r.t)))
      else Step(c.scope, Ok(None))
  }

  /** A signature as a type expression: a type descriptor of the function type. */
  function TypeOfSignature(s: Scope, sig: Signature, tbl: seq<BuiltIn>): (res: Step)
    ensures Extends(s, res.scope)
    decreases sig, 1
  {
    var p := TypeOfParen(s, sig.params, tbl);
    if !p.r.Ok? then Step(p.scope, Drop(p.r))
    else if sig.result.Some? then
      var r := TypeOf(p.scope, sig.result.value, tbl);
      if !r.r.Ok? then Step(r.scope, Drop(r.r))
      else if r.r.t.None? || !IsTypeDesc(r.r.t.value) then
        Step(r.scope, Err(None, IdOf(sig.result.value), ExpectedType(r.r.t)))
      else Step(r.scope, SignatureType(p.r.t, WrapInTuple(SkipTypeDesc(r.r.t.value)).elems))
    else Step(p.scope, SignatureType(p.r.t, Unit.elems))
  }

  /**
   * `NewFunc(result, params.(*types.Tuple))` as written: the parameter list
   * must itself be a tuple, so a list of parameter types, which is a type
   * descriptor of a tuple, fails the assertion.
   */
  function SignatureTypeAsWritten(params: Option<Type>, result: seq<Type>): Checked {
    if params.None? || !params.value.Tuple? then Internal("type assertion to a tuple")
    else Ok(Some(TypeDesc(Func(NewFunc(Some(result), Some(params.value.elems), false)))))
  }

  /** The signature's function type, with the parameter tuple taken out of its type descriptor first. */
  function SignatureType(params: Option<Type>, result: seq<Type>): Checked {
    if params.None? || !SkipTypeDesc(params.value).Tuple? then Internal("type assertion to a tuple")
    else Ok(Some(TypeDesc(Func(NewFunc(Some(result), Some(SkipTypeDesc(params.value).elems), false)))))
  }
}
