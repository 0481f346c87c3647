/**
 * The typing rules of checker/type_resolver.go stated as properties of
 * `TypeOf`: for each node shape, what a success guarantees and where each
 * failure is reported.
 */
module InferenceRules {
  import opened Wrappers
  import opened PrimitiveKinds
  import opened Types
  import opened Funcs
  import opened Ast
  import opened Scopes
  import opened Inference

  /** Literals have untyped kinds; `Empty` and `()` are unit; none of them touches the scope. */
  lemma LiteralTypes(s: Scope, id: NodeId, v: Option<int>, l: ExprList, tbl: seq<BuiltIn>)
    ensures TypeOf(s, Literal(id, IntLiteral, v), tbl) == Step(s, Ok(Some(Primitive(UntypedInt))))
    ensures TypeOf(s, Literal(id, FloatLiteral, v), tbl) == Step(s, Ok(Some(Primitive(UntypedFloat))))
    ensures TypeOf(s, Literal(id, StringLiteral, v), tbl) == Step(s, Ok(Some(Primitive(UntypedString))))
    ensures TypeOf(s, Empty(id), tbl) == Step(s, Ok(Some(Unit)))
    ensures l.exprs == [] ==> TypeOf(s, ParenList(l), tbl) == Step(s, Ok(Some(Unit)))
  {
  }

  /** An identifier has the type of the symbol it resolves to; otherwise it is undefined or untyped. */
  lemma NameRule(s: Scope, ident: Ident, tbl: seq<BuiltIn>)
    ensures var res := TypeOf(s, Name(ident), tbl);
      && res.scope == s
      && (Lookup(s, ident.name).None? <==> res.r == Err(None, ident.id, UndefinedIdentifier(ident.name)))
      && (res.r.Ok? <==> Lookup(s, ident.name).Some? && SymType(Lookup(s, ident.name).value).Some?)
      && (res.r.Ok? ==> res.r.t == SymType(Lookup(s, ident.name).value))
  {
  }

  /** What a paren list keeps of an element's type: the described type in a tuple of types, the concretised type otherwise. */
  function ParenElem(isTypeDescTuple: bool, t: Type): Type {
    if isTypeDescTuple then SkipTypeDesc(t) else SkipUntyped(t)
  }

  /** The scope a paren list's element loop, started at element `i` in `s`, has reached before element `k`. */
  function ParenScopeAt(s: Scope, l: ExprList, i: nat, k: nat, tbl: seq<BuiltIn>): Scope
    requires i <= k <= |l.exprs|
    decreases k - i
  {
    if i == k then s else ParenScopeAt(TypeOf(s, l.exprs[i], tbl).scope, l, i + 1, k, tbl)
  }

  /**
   * A successful element loop from `i` keeps, at every later position `k`,
   * what is kept of the type of the `k`-th expression in the scope reached
   * there.
   */
  lemma {:induction false} ParenRestElements(s: Scope, l: ExprList, i: nat, isTypeDescTuple: bool, acc: seq<Type>, tbl: seq<BuiltIn>)
    requires 1 <= i <= |l.exprs| && |acc| == i
    ensures var res := TypeOfParenRest(s, l, i, isTypeDescTuple, acc, tbl);
      res.r.Ok? ==> forall k :: i <= k < |l.exprs| ==>
        var e := TypeOf(ParenScopeAt(s, l, i, k, tbl), l.exprs[k], tbl);
        e.r.Ok? && e.r.t.Some? && res.r.t.value.elems[k] == ParenElem(isTypeDescTuple, e.r.t.value)
    decreases |l.exprs| - i
  {
    var res := TypeOfParenRest(s, l, i, isTypeDescTuple, acc, tbl);
    if i < |l.exprs| && res.r.Ok? {
      var e := TypeOf(s, l.exprs[i], tbl);
      var acc' := acc + [ParenElem(isTypeDescTuple, e.r.t.value)];
      assert res == TypeOfParenRest(e.scope, l, i + 1, isTypeDescTuple, acc', tbl);
      ParenRestElements(e.scope, l, i + 1, isTypeDescTuple, acc', tbl);
      assert res.r.t.value.elems[..i + 1] == acc';
      assert res.r.t.value.elems[i] == acc'[i];
      forall k | i < k < |l.exprs|
        ensures ParenScopeAt(s, l, i, k, tbl) == ParenScopeAt(e.scope, l, i + 1, k, tbl)
      {
      }
    }
  }

  /**
   * An identifier naming a type alias denotes a type, the alias itself,
   * which is equal both ways to the type it stands for.
   */
  lemma AliasNameRule(s: Scope, ident: Ident, base: Type, tbl: seq<BuiltIn>)
    requires Lookup(s, ident.name) == Some(TypeAliasSym(ident, Alias(base, ident.name)))
    ensures var res := TypeOf(s, Name(ident), tbl);
      && res == Step(s, Ok(Some(TypeDesc(Alias(base, ident.name)))))
      && IsTypeDesc(res.r.t.value) && SkipTypeDesc(res.r.t.value) == Alias(base, ident.name)
      && Equals(Alias(base, ident.name), base) && Equals(base, Alias(base, ident.name))
  {
    EqualsReflexive(base);
    EqualsThroughAlias(base, Alias(base, ident.name));
    EqualsThroughAlias(base, base);
  }

  /**
   * A non-empty paren list: its first element fixes whether it is a tuple
   * of types (a type descriptor of the tuple of described types) or a
   * tuple of values (concretised, none of them a type); it has one element
   * per expression, each what is kept of that expression's type in the
   * scope the earlier elements left.
   */
  lemma ParenListShape(s: Scope, l: ExprList, tbl: seq<BuiltIn>)
    requires |l.exprs| > 0
    ensures var res := TypeOf(s, ParenList(l), tbl);
      var first := TypeOf(s, l.exprs[0], tbl);
      && (res.r.Ok? ==> first.r.Ok? && first.r.t.Some? && res.r.t.Some?)
      && (res.r.Ok? && IsTypeDesc(first.r.t.value) ==>
            && res.r.t.value.TypeDesc? && res.r.t.value.base.Tuple?
            && |res.r.t.value.base.elems| == |l.exprs|
            && forall k :: 0 <= k < |l.exprs| ==>
                 var e := TypeOf(ParenScopeAt(s, l, 0, k, tbl), l.exprs[k], tbl);
                 e.r.Ok? && e.r.t.Some? && IsTypeDesc(e.r.t.value) && res.r.t.value.base.elems[k] == SkipTypeDesc(e.r.t.value))
      && (res.r.Ok? && !IsTypeDesc(first.r.t.value) ==>
            && res.r.t.value.Tuple?
            && |res.r.t.value.elems| == |l.exprs|
            && forall k :: 0 <= k < |l.exprs| ==>
                 var e := TypeOf(ParenScopeAt(s, l, 0, k, tbl), l.exprs[k], tbl);
                 e.r.Ok? && e.r.t.Some? && !IsTypeDesc(e.r.t.value) && res.r.t.value.elems[k] == SkipUntyped(e.r.t.value))
  {
    var first := TypeOf(s, l.exprs[0], tbl);
    if first.r.Ok? && first.r.t.Some? {
      var t := first.r.t.value;
      var isTypeDescTuple := IsTypeDesc(t);
      var elem := ParenElem(isTypeDescTuple, t);
      var rest := TypeOfParenRest(first.scope, l, 1, isTypeDescTuple, [elem], tbl);
      if rest.r.Ok? {
        assert rest.r.t.value.elems[..1] == [elem];
        assert rest.r.t.value.elems[0] == elem;
        ParenRestElements(first.scope, l, 1, isTypeDescTuple, [elem], tbl);
        forall k | 1 <= k < |l.exprs|
          ensures ParenScopeAt(s, l, 0, k, tbl) == ParenScopeAt(first.scope, l, 1, k, tbl)
          ensures var e := TypeOf(ParenScopeAt(s, l, 0, k, tbl), l.exprs[k], tbl);
            e.r.Ok? && e.r.t.Some? && IsTypeDesc(e.r.t.value) == isTypeDescTuple
        {
          ParenRestSameKind(first.scope, l, 1, isTypeDescTuple, [elem], k, tbl);
        }
      }
    }
  }

  /** In a successful element loop every element is of the same kind as the first. */
  lemma {:induction false} ParenRestSameKind(s: Scope, l: ExprList, i: nat, isTypeDescTuple: bool, acc: seq<Type>, k: nat, tbl: seq<BuiltIn>)
    requires 1 <= i <= k < |l.exprs| && |acc| == i
    requires TypeOfParenRest(s, l, i, isTypeDescTuple, acc, tbl).r.Ok?
    ensures var e := TypeOf(ParenScopeAt(s, l, i, k, tbl), l.exprs[k], tbl);
      e.r.Ok? && e.r.t.Some? && IsTypeDesc(e.r.t.value) == isTypeDescTuple
    decreases k - i
  {
    var e := TypeOf(s, l.exprs[i], tbl);
    if i < k {
      var acc' := acc + [ParenElem(isTypeDescTuple, e.r.t.value)];
      assert TypeOfParenRest(s, l, i, isTypeDescTuple, acc, tbl) == TypeOfParenRest(e.scope, l, i + 1, isTypeDescTuple, acc', tbl);
      ParenRestSameKind(e.scope, l, i + 1, isTypeDescTuple, acc', k, tbl);
    }
  }

  /**
   * One step of the element loop: it goes on exactly when the element
   * type-checks to a type of the first element's kind, appending what is
   * kept of it.
   */
  lemma ParenListStep(s: Scope, l: ExprList, i: nat, isTypeDescTuple: bool, acc: seq<Type>, tbl: seq<BuiltIn>)
    requires 1 <= i < |l.exprs| && |acc| == i
    ensures var res := TypeOfParenRest(s, l, i, isTypeDescTuple, acc, tbl);
      var e := TypeOf(s, l.exprs[i], tbl);
      && (e.r.Ok? && e.r.t.Some? && IsTypeDesc(e.r.t.value) == isTypeDescTuple ==>
            res == TypeOfParenRest(e.scope, l, i + 1, isTypeDescTuple, acc + [ParenElem(isTypeDescTuple, e.r.t.value)], tbl))
      && (!e.r.Ok? ==> res == Step(e.scope, Drop(e.r)))
  {
  }

  /** In the element loop, an element of the other kind than the first fails at that element. */
  lemma ParenListMixFails(s: Scope, l: ExprList, i: nat, isTypeDescTuple: bool, acc: seq<Type>, tbl: seq<BuiltIn>)
    requires 1 <= i < |l.exprs| && |acc| == i
    ensures var e := TypeOf(s, l.exprs[i], tbl);
      e.r.Ok? && e.r.t.Some? && IsTypeDesc(e.r.t.value) != isTypeDescTuple ==>
        TypeOfParenRest(s, l, i, isTypeDescTuple, acc, tbl) ==
          Step(e.scope, Err(None, IdOf(l.exprs[i]),
            if isTypeDescTuple then ExpectedType(e.r.t) else ExpectedExpression(e.r.t.value)))
  {
  }

  /**
   * A bracket list is an array of as many elements as it has; its element
   * type is the first element's type concretised, and nil when the list
   * is empty.
   */
  lemma BracketListShape(s: Scope, l: ExprList, tbl: seq<BuiltIn>)
    ensures var res := TypeOf(s, BracketList(l), tbl);
      && (l.exprs == [] ==> res == Step(s, Ok(Some(Array(0, None)))))
      && (res.r.Ok? ==> res.r.t.Some? && res.r.t.value.Array? && res.r.t.value.size == |l.exprs|)
      && (res.r.Ok? && |l.exprs| > 0 ==>
            var first := TypeOf(s, l.exprs[0], tbl);
            && first.r.Ok? && first.r.t.Some?
            && res.r.t.value.elem == Some(SkipUntyped(first.r.t.value)))
  {
  }

  /**
   * After the first element, the loop goes on exactly when the element
   * type-checks and equals the element type, and fails at the element
   * when it does not equal it.
   */
  lemma BracketListStep(s: Scope, l: ExprList, i: nat, elemType: Option<Type>, tbl: seq<BuiltIn>)
    requires 0 < i < |l.exprs| && elemType.Some?
    ensures var res := TypeOfBracket(s, l, i, elemType, tbl);
      var e := TypeOf(s, l.exprs[i], tbl);
      && (res.r.Ok? ==> e.r.Ok? && EqualsTo(elemType.value, e.r.t) && res == TypeOfBracket(e.scope, l, i + 1, elemType, tbl))
      && (e.r.Ok? && !EqualsTo(elemType.value, e.r.t) ==>
            res == Step(e.scope, Err(None, IdOf(l.exprs[i]), ElementMismatch(elemType.value, e.r.t))))
  {
  }

  /** The size argument: `_` is -1, a non-negative literal is itself, everything else fails. */
  lemma ArraySizeRules(arg: Node)
    ensures ArraySize(arg).Size? ==> ArraySize(arg).size >= -1
    ensures ArraySize(arg).Size? ==> (ArraySize(arg).size == -1 <==> arg.Name?)
    ensures arg.Name? ==> (ArraySize(arg).Size? <==> arg.ident.name == "_")
    ensures arg.Literal? && arg.value.Some? && InInt32(arg.value.value) ==>
      ArraySize(arg) == (if arg.value.value < 0 then SizeFailed(Err(None, arg.id, NegativeArraySize)) else Size(arg.value.value))
    ensures !arg.Literal? && !arg.Name? ==> ArraySize(arg) == SizeFailed(Err(None, IdOf(arg), ExpectedSizeLiteral))
  {
  }

  /**
   * An array type expression needs exactly one size argument and an
   * element that denotes a type; it denotes the array of that size and of
   * the described element type.
   */
  lemma ArrayTypeRule(s: Scope, id: NodeId, args: ExprList, x: Node, tbl: seq<BuiltIn>)
    ensures var res := TypeOf(s, ArrayType(id, args, x), tbl);
      && (|args.exprs| != 1 ==> res == Step(s, Err(None, args.id, ExpectedOneArgument)))
      && (|args.exprs| == 1 && ArraySize(args.exprs[0]).SizeFailed? ==> res == Step(s, ArraySize(args.exprs[0]).r))
      && (res.r.Ok? <==>
            && |args.exprs| == 1 && ArraySize(args.exprs[0]).Size?
            && TypeOf(s, x, tbl).r.Ok? && TypeOf(s, x, tbl).r.t.Some? && IsTypeDesc(TypeOf(s, x, tbl).r.t.value))
      && (res.r.Ok? ==>
            res.r.t == Some(TypeDesc(Array(ArraySize(args.exprs[0]).size, Some(SkipTypeDesc(TypeOf(s, x, tbl).r.t.value))))))
  {
  }

  /**
   * Prefix operators: negation and `!` accept only numeric, respectively
   * boolean, operands and keep their type; `&` takes a reference, of the
   * described type when the operand denotes a type.
   */
  lemma PrefixRules(s: Scope, id: NodeId, opr: Operator, x: Node, tbl: seq<BuiltIn>)
    ensures var res := TypeOf(s, PrefixOp(id, opr, x), tbl);
      var e := TypeOf(s, x, tbl);
      && (res.r.Ok? ==> e.r.Ok? && e.r.t.Some? && opr.kind in {OpNeg, OpNot, OpAddr})
      && (e.r.Ok? && e.r.t.Some? ==>
            var t := e.r.t.value;
            var u := Underlying(t);
            && (opr.kind == OpNeg ==>
                  res.r == if u.Primitive? && u.kind in {UntypedInt, UntypedFloat, I32} then Ok(Some(t))
                           else Err(None, opr.id, UndefinedOperator(OpNeg, t)))
            && (opr.kind == OpNot ==>
                  res.r == if u.Primitive? && u.kind in {UntypedBool, Bool} then Ok(Some(t))
                           else Err(None, IdOf(x), UndefinedOperator(OpNot, t)))
            && (opr.kind == OpAddr ==>
                  res.r == Ok(Some(if IsTypeDesc(t) then TypeDesc(Ref(SkipTypeDesc(t))) else Ref(SkipUntyped(t))))))
  {
  }

  /** Infix operators: both operands are typed in turn and the infix rule decides on their types. */
  lemma InfixEvaluation(s: Scope, id: NodeId, opr: Operator, x: Node, y: Node, tbl: seq<BuiltIn>)
    ensures var n := InfixOp(id, opr, x, y);
      var res := TypeOf(s, n, tbl);
      var ex := TypeOf(s, x, tbl);
      var ey := TypeOf(ex.scope, y, tbl);
      && (res.r.Ok? ==> ex.r.Ok? && ey.r.Ok? && ex.r.t.Some? && EqualsTo(ex.r.t.value, ey.r.t))
      && (ex.r.Ok? && ey.r.Ok? ==> res == Step(ey.scope, InfixRule(n, ex.r.t, ey.r.t)))
  {
    var n := InfixOp(id, opr, x, y);
    assert TypeOf(s, n, tbl) == TypeOfInfix(s, n, tbl);
  }

  /**
   * The infix rule.  Unequal operand types fail, assignment included;
   * arithmetic keeps the left type on numeric primitives; comparisons give
   * an untyped or a typed bool on bool and numeric primitives and are
   * undefined on every other type; assignment falls back to unit; any other
   * combination is an undefined operator.
   */
  lemma InfixRuleCases(n: Node, x: Type, y: Option<Type>)
    requires n.InfixOp?
    ensures var r := InfixRule(n, Some(x), y);
      var op := n.opr.kind;
      var p := Underlying(x);
      var numeric := p.Primitive? && p.kind in {UntypedInt, UntypedFloat, I32};
      && (!EqualsTo(x, y) ==> r == Err(None, n.id, TypeMismatch(x, y)))
      && (EqualsTo(x, y) ==>
            && (IsArithmetic(op) && numeric ==> r == Ok(Some(x)))
            && (IsComparison(op) && p.Primitive? && p.kind in {UntypedBool, UntypedInt, UntypedFloat} ==>
                  r == Ok(Some(Primitive(UntypedBool))))
            && (IsComparison(op) && p.Primitive? && p.kind in {Bool, I32} ==> r == Ok(Some(Primitive(Bool))))
            && (op == OpAssign ==> r == Ok(Some(Unit)))
            && (IsArithmetic(op) && !numeric ==> r == Err(None, n.opr.id, UndefinedOperator(op, x)))
            && (IsComparison(op) && !(p.Primitive? && p.kind in {UntypedBool, UntypedInt, UntypedFloat, Bool, I32}) ==>
                  r == Err(None, n.opr.id, UndefinedOperator(op, x)))
            && (!IsArithmetic(op) && !IsComparison(op) && op != OpAssign ==>
                  r == Err(None, n.opr.id, UndefinedOperator(op, x))))
  {
    UnderlyingIdempotent(x);
  }

  /** Unwrapping a reference gives its base; unwrapping anything else gives unit. */
  lemma UnwrapRule(s: Scope, id: NodeId, opr: Operator, x: Node, tbl: seq<BuiltIn>)
    requires opr.kind == OpUnwrap
    ensures var res := TypeOf(s, PostfixOp(id, opr, x), tbl);
      var e := TypeOf(s, x, tbl);
      && (!e.r.Ok? ==> res == Step(e.scope, Drop(e.r)))
      && (e.r.Ok? && e.r.t.Some? && Underlying(e.r.t.value).Ref? ==> res == Step(e.scope, Ok(Some(Underlying(e.r.t.value).base))))
      && (e.r.Ok? && (e.r.t.None? || !Underlying(e.r.t.value).Ref?) ==> res == Step(e.scope, Ok(Some(Unit))))
  {
  }

  /**
   * Calls: the callee must be a function; a failed argument check is
   * reported at the faulty argument when it exists and at the whole
   * argument list otherwise; a success has the function's result and
   * arguments pairwise equal to the parameters.
   */
  lemma CallRule(s: Scope, id: NodeId, x: Node, args: ExprList, tbl: seq<BuiltIn>)
    ensures var res := TypeOf(s, Call(id, x, args), tbl);
      var e := TypeOf(s, x, tbl);
      var a := TypeOf(e.scope, ParenList(args), tbl);
      && (e.r.Ok? && e.r.t.Some? && !Underlying(e.r.t.value).Func? ==> res == Step(e.scope, Err(None, IdOf(x), NotAFunction)))
      && (res.r.Ok? ==>
            && e.r.Ok? && e.r.t.Some? && Underlying(e.r.t.value).Func?
            && a.r.Ok? && a.r.t.Some? && a.r.t.value.Tuple?
            && |a.r.t.value.elems| == |Underlying(e.r.t.value).fn.params|
            && SeqEquals(a.r.t.value.elems, Underlying(e.r.t.value).fn.params)
            && res.r.t == Some(Tuple(Underlying(e.r.t.value).fn.result)))
      && (e.r.Ok? && e.r.t.Some? && Underlying(e.r.t.value).Func? && a.r.Ok? && a.r.t.Some? && a.r.t.value.Tuple? ==>
            var (idx, err) := ArgFault(Underlying(e.r.t.value).fn, a.r.t.value.elems);
            && (err.Some? ==> res == Step(a.scope, Err(None, if idx < |args.exprs| then IdOf(args.exprs[idx]) else args.id, ArgumentError(err.value))))
            && (err.None? ==> res == Step(a.scope, Ok(Some(Tuple(Underlying(e.r.t.value).fn.result))))))
  {
  }

  /**
   * Indexing: one index argument; an array is tried first and needs an
   * i32 index; a tuple needs an integer literal within its bounds; any
   * other base fails.
   */
  lemma IndexRule(s: Scope, id: NodeId, x: Node, args: ExprList, tbl: seq<BuiltIn>)
    ensures var res := TypeOf(s, Index(id, x, args), tbl);
      var e := TypeOf(s, x, tbl);
      && (e.r.Ok? && |args.exprs| != 1 ==> res == Step(e.scope, Err(None, args.id, ExpectedOneArgument)))
      && (e.r.Ok? && |args.exprs| == 1 && TypeOf(e.scope, args.exprs[0], tbl).r.Ok? ==>
            var ei := TypeOf(e.scope, args.exprs[0], tbl);
            var arg := args.exprs[0];
            && (e.r.t.Some? && Underlying(e.r.t.value).Array? ==>
                  res.r == if EqualsTo(Primitive(I32), ei.r.t) then Ok(Underlying(e.r.t.value).elem)
                           else Err(None, IdOf(arg), IndexNotI32(ei.r.t)))
            && (e.r.t.Some? && Underlying(e.r.t.value).Tuple? ==>
                  var elems := Underlying(e.r.t.value).elems;
                  && (!(arg.Literal? && arg.kind == IntLiteral) ==> res.r == Err(None, IdOf(arg), ExpectedIntLiteral))
                  && (arg.Literal? && arg.kind == IntLiteral && arg.value.Some? && InInt64(arg.value.value) ==>
                        res.r == if 0 <= arg.value.value < |elems| then Ok(Some(elems[arg.value.value]))
                                 else Err(None, arg.id, IndexOutOfRange(|elems|))))
            && (e.r.t.None? || !(Underlying(e.r.t.value).Array? || Underlying(e.r.t.value).Tuple?) ==>
                  res.r == Err(None, IdOf(x), NotArrayOrTuple)))
  {
  }

  /**
   * Built-in calls: the last table entry of that name is used; a block
   * argument is refused; the arguments are checked like a call's; an
   * evaluator that produces no value leaves the call with unit.
   */
  lemma BuiltInCallRule(s: Scope, id: NodeId, name: Ident, argNode: Node, tbl: seq<BuiltIn>)
    ensures var res := TypeOf(s, BuiltInCall(id, name, argNode), tbl);
      var k := LastBuiltIn(tbl, name.name);
      && ((forall i :: 0 <= i < |tbl| ==> tbl[i].name != name.name) ==> res == Step(s, Err(None, name.id, UnknownBuiltIn(name.name))))
      && (k >= 0 && !argNode.ParenList? ==> res == Step(s, Err(None, IdOf(argNode), BlockArgument)))
      && (k >= 0 && argNode.ParenList? ==>
            var a := TypeOf(s, argNode, tbl);
            a.r.Ok? && a.r.t.Some? && a.r.t.value.Tuple? ==>
              var (idx, err) := ArgFault(tbl[k].sig, a.r.t.value.elems);
              && (err.Some? ==>
                    res == Step(a.scope, Err(None, if idx < |argNode.list.exprs| then IdOf(argNode.list.exprs[idx]) else argNode.list.id,
                                             ArgumentError(err.value))))
              && (err.None? && tbl[k].eval(argNode.list, a.scope) == Evaluated(None) ==> res == Step(a.scope, Ok(Some(Unit))))
              && (err.None? && tbl[k].eval(argNode.list, a.scope).Evaluated? && tbl[k].eval(argNode.list, a.scope).value.Some? ==>
                    res == Step(a.scope, Ok(tbl[k].eval(argNode.list, a.scope).value.value.t))))
  {
  }

  /** The condition of an `if` must be bool; the body type is returned whether or not it is. */
  lemma IfConditionRule(s: Scope, n: Node, tBody: Option<Type>, tbl: seq<BuiltIn>)
    requires n.If?
    ensures var res := IfCondition(s, n, tBody, tbl);
      var c := TypeOf(s, n.cond, tbl);
      && (res.r.Ok? <==> c.r.Ok? && EqualsTo(Primitive(Bool), c.r.t))
      && (res.r.Ok? ==> res.r.t == tBody)
      && (res.r.Err? ==> res.r.partial == tBody)
      && (c.r.Ok? && !EqualsTo(Primitive(Bool), c.r.t) ==> res.r == Err(tBody, IdOf(n.cond), ConditionNotBool(c.r.t)))
  {
  }

  /**
   * `if`: its type is its body's type; with an else branch, both branches
   * agree (both nil, or the else type equal to the body's); a branch
   * disagreement is reported at the else branch's last statement.
   */
  lemma IfRule(s: Scope, id: NodeId, cond: Node, body: Curly, elseBody: Option<Node>, tbl: seq<BuiltIn>)
    ensures var n := If(id, cond, body, elseBody);
      var res := TypeOf(s, n, tbl);
      var b := TypeOf(s, CurlyList(body), tbl);
      && (res.r.Ok? ==> b.r.Ok? && res.r.t == b.r.t)
      && (b.r.Ok? && elseBody.None? ==> res == IfCondition(b.scope, n, b.r.t, tbl))
      && (b.r.Ok? && elseBody.Some? ==>
            var el := TypeOf(b.scope, elseBody.value, tbl);
            && (el.r.Err? ==> res == Step(el.scope, Err(b.r.t, el.r.at, el.r.error)))
            && (res.r.Ok? ==> el.r.Ok? && (b.r.t.None? ==> el.r.t.None?) && (b.r.t.Some? ==> EqualsTo(b.r.t.value, el.r.t)))
            && (el.r.Ok? && LastNodeOf(elseBody.value).Some? &&
                ((b.r.t.None? && el.r.t.Some?) || (b.r.t.Some? && !EqualsTo(b.r.t.value, el.r.t))) ==>
                  res == Step(el.scope, Err(None, LastNodeOf(elseBody.value).value, BranchMismatch(b.r.t, el.r.t)))))
  {
    var n := If(id, cond, body, elseBody);
    var b := TypeOf(s, CurlyList(body), tbl);
    if b.r.Ok? {
      if elseBody.Some? {
        var el := TypeOf(b.scope, elseBody.value, tbl);
        IfConditionRule(el.scope, n, b.r.t, tbl);
      } else {
        IfConditionRule(b.scope, n, b.r.t, tbl);
      }
    }
  }

  /**
   * Errors leave a block without a type: the block checker passes every
   * failure on as `return nil, err`.
   */
  lemma {:induction false} BlockErrorsUntyped(s: Scope, b: Curly, i: nat, t: Option<Type>, tbl: seq<BuiltIn>)
    requires i <= |b.nodes|
    ensures BlockFrom(s, b, i, t, tbl).r.Err? ==> BlockFrom(s, b, i, t, tbl).r.partial.None?
    decreases |b.nodes| - i
  {
    if i < |b.nodes| {
      match Visit(s, b.nodes[i], tbl)
      case Continue(s1, t1) => BlockErrorsUntyped(s1, b, i + 1, t1, tbl);
      case Stop(_, _) =>
    }
  }

  /**
   * `while` has no type.  It succeeds exactly when its body does not fail
   * internally and its condition, typed after the body, is bool.  The
   * check on a typed failing body never fires, since a block's failures
   * carry no type, so a body's ordinary errors are dropped.
   */
  lemma WhileRule(s: Scope, id: NodeId, cond: Node, body: Curly, tbl: seq<BuiltIn>)
    ensures var res := TypeOf(s, While(id, cond, body), tbl);
      var b := TypeOf(s, CurlyList(body), tbl);
      var c := TypeOf(b.scope, cond, tbl);
      && !(b.r.Err? && b.r.partial.Some?)
      && (res.r.Ok? ==> res.r.t.None?)
      && (res.r.Ok? <==> !b.r.Internal? && c.r.Ok? && EqualsTo(Primitive(Bool), c.r.t))
      && (!b.r.Internal? && c.r.Ok? && !EqualsTo(Primitive(Bool), c.r.t) ==>
            res == Step(c.scope, Err(None, IdOf(cond), ConditionNotBool(c.r.t))))
  {
    BlockErrorsUntyped(s, body, 0, Some(Unit), tbl);
  }

  /** A signature denotes the function type of its parameter tuple and its one-element, or unit, result. */
  lemma SignatureRule(s: Scope, sig: Signature, tbl: seq<BuiltIn>)
    ensures var res := TypeOf(s, SignatureNode(sig), tbl);
      var p := TypeOf(s, ParenList(sig.params), tbl);
      && (res.r.Ok? ==> p.r.Ok? && p.r.t.Some? && SkipTypeDesc(p.r.t.value).Tuple?)
      && (p.r.Ok? && p.r.t.Some? && SkipTypeDesc(p.r.t.value).Tuple? && sig.result.None? ==>
            res.r == Ok(Some(TypeDesc(Func(FuncType(SkipTypeDesc(p.r.t.value).elems, [], false))))))
      && (res.r.Ok? && sig.result.Some? ==>
            var r := TypeOf(p.scope, sig.result.value, tbl);
            && r.r.Ok? && r.r.t.Some? && IsTypeDesc(r.r.t.value)
            && res.r.t == Some(TypeDesc(Func(FuncType(SkipTypeDesc(p.r.t.value).elems, [SkipTypeDesc(r.r.t.value)], false)))))
      && (p.r.Ok? && sig.result.Some? && TypeOf(p.scope, sig.result.value, tbl).r.Ok? &&
          (TypeOf(p.scope, sig.result.value, tbl).r.t.None? || !IsTypeDesc(TypeOf(p.scope, sig.result.value, tbl).r.t.value)) ==>
            res.r == Err(None, IdOf(sig.result.value), ExpectedType(TypeOf(p.scope, sig.result.value, tbl).r.t)))
      && (p.r.Ok? && sig.result.Some? && TypeOf(p.scope, sig.result.value, tbl).r.Ok? &&
          TypeOf(p.scope, sig.result.value, tbl).r.t.Some? && IsTypeDesc(TypeOf(p.scope, sig.result.value, tbl).r.t.value) ==>
            res.r.Ok?)
  {
    ParenListIsTuple(s, sig.params, tbl);
  }

  /** A successful paren list is a tuple, or a type descriptor of one. */
  lemma ParenListIsTuple(s: Scope, l: ExprList, tbl: seq<BuiltIn>)
    ensures var p := TypeOf(s, ParenList(l), tbl);
      p.r.Ok? ==> p.r.t.Some? && SkipTypeDesc(p.r.t.value).Tuple?
  {
    if |l.exprs| > 0 {
      ParenListShape(s, l, tbl);
    }
  }

  /**
   * As written, a signature whose parameter list describes types, as in
   * `(i32) i32`, fails the tuple assertion whatever its result.
   */
  lemma SignatureAsWrittenFailsOnTypeList(s: Scope, l: ExprList, result: seq<Type>, tbl: seq<BuiltIn>)
    requires |l.exprs| > 0
    ensures var p := TypeOf(s, ParenList(l), tbl);
      var first := TypeOf(s, l.exprs[0], tbl);
      p.r.Ok? && first.r.Ok? && first.r.t.Some? && IsTypeDesc(first.r.t.value) ==> SignatureTypeAsWritten(p.r.t, result).Internal?
  {
    ParenListShape(s, l, tbl);
  }

  /** The parameter list `(i32)` with result `i32`: the assertion fails as written, and the corrected rule gives `fn(i32) i32`. */
  lemma SignatureOfOneTypeParameter()
    ensures SignatureTypeAsWritten(Some(TypeDesc(Tuple([Primitive(I32)]))), [Primitive(I32)]).Internal?
    ensures SignatureType(Some(TypeDesc(Tuple([Primitive(I32)]))), [Primitive(I32)])
      == Ok(Some(TypeDesc(Func(FuncType([Primitive(I32)], [Primitive(I32)], false)))))
  {
  }
}
