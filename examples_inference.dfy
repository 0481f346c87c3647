/**
 * Small programs and the types the checker gives them.
 */
module InferenceExamples {
  import opened Wrappers
  import opened PrimitiveKinds
  import opened Types
  import opened Ast
  import opened Scopes
  import opened Inference
  import opened Decls

  const EmptyScope: Scope := Scope(map[], None)
  const X: Ident := Ident(1, "x")

  /** Another occurrence of the name `x`, at its own node. */
  const SecondX: Ident := Ident(25, "x")

  /** `var x = 1`, the name being the occurrence `x`. */
  function DeclareVar(id: NodeId, x: Ident, value: int): Node {
    VarDecl(id, Binding(id + 1, x, None), Some(Literal(id + 2, IntLiteral, Some(value))))
  }

  function DeclareX(id: NodeId, value: int): Node {
    DeclareVar(id, X, value)
  }

  /** The scope after `var x = 1`: `x` is an i32 variable. */
  const WithX: Scope := Scope(map["x" := Var(X, Some(Primitive(I32)))], None)

  /** Visiting `var x = 1` defines `x` as an i32 and makes the block's running type unit. */
  lemma DeclareXVisit()
    ensures Visit(EmptyScope, DeclareX(11, 1), []) == Continue(WithX, Some(Unit))
  {
    var decl := DeclareX(11, 1);
    var d := VarDeclType(EmptyScope, decl, []);
    assert d == Step(EmptyScope, Ok(Some(Primitive(I32))));
    assert Define(EmptyScope, Var(X, d.r.t)) == (WithX, None);
  }

  /** `x + 2`. */
  const SumX: Node := InfixOp(20, Operator(21, OpAdd), Name(X), Literal(22, IntLiteral, Some(2)))

  /** Once `x` is an i32, `x + 2` is an i32: the untyped literal equals it. */
  lemma SumXIsI32()
    ensures TypeOf(WithX, SumX, []) == Step(WithX, Ok(Some(Primitive(I32))))
  {
    assert TypeOf(WithX, Name(X), []) == Step(WithX, Ok(Some(Primitive(I32))));
    assert Equals(Primitive(I32), Primitive(UntypedInt));
    assert TypeOf(WithX, SumX, []) == TypeOfInfix(WithX, SumX, []);
  }

  /** `{ var x = 1; x + 2 }` has type i32: the variable got the concrete type of its literal. */
  lemma VarThenSum()
    ensures TypeOf(EmptyScope, CurlyList(Curly(10, [DeclareX(11, 1), SumX])), []).r == Ok(Some(Primitive(I32)))
  {
    var b := Curly(10, [DeclareX(11, 1), SumX]);
    DeclareXVisit();
    SumXIsI32();
    assert Visit(WithX, SumX, []) == Continue(WithX, Some(Primitive(I32)));
    assert BlockFrom(WithX, b, 1, Some(Unit), []) == Step(WithX, Ok(Some(Primitive(I32))));
    assert TypeOf(EmptyScope, CurlyList(b), []) == BlockFrom(EmptyScope, b, 0, Some(Unit), []);
  }

  /** `{ var x = 1; var x = 2 }` is refused at the second `x`, naming the first. */
  lemma Redefinition()
    ensures var block := CurlyList(Curly(10, [DeclareX(11, 1), DeclareVar(20, SecondX, 2)]));
      TypeOf(EmptyScope, block, []).r == Err(None, SecondX.id, AlreadyDefined(SecondX, X))
  {
    var b := Curly(10, [DeclareX(11, 1), DeclareVar(20, SecondX, 2)]);
    DeclareXVisit();
    var d2 := VarDeclType(WithX, DeclareVar(20, SecondX, 2), []);
    assert d2 == Step(WithX, Ok(Some(Primitive(I32))));
    assert Define(WithX, Var(SecondX, d2.r.t)) == (WithX, Some(Var(X, Some(Primitive(I32)))));
    assert Visit(WithX, DeclareVar(20, SecondX, 2), []) == Stop(WithX, Err(None, SecondX.id, AlreadyDefined(SecondX, X)));
    assert BlockFrom(WithX, b, 1, Some(Unit), []).r == Err(None, SecondX.id, AlreadyDefined(SecondX, X));
    assert TypeOf(EmptyScope, CurlyList(b), []) == BlockFrom(EmptyScope, b, 0, Some(Unit), []);
  }

  /** `1 == 2` is an untyped bool, and `1 = 2` is unit since the operand types are equal. */
  lemma ComparisonAndAssignment()
    ensures TypeOf(EmptyScope, InfixOp(1, Operator(2, OpEq), Literal(3, IntLiteral, Some(1)), Literal(4, IntLiteral, Some(2))), []).r
      == Ok(Some(Primitive(UntypedBool)))
    ensures TypeOf(EmptyScope, InfixOp(1, Operator(2, OpAssign), Literal(3, IntLiteral, Some(1)), Literal(4, IntLiteral, Some(2))), []).r
      == Ok(Some(Unit))
  {
  }

  /** `[1, 2]` is an array of two i32, and `[]` is an array of nothing. */
  lemma ArrayLiterals()
    ensures TypeOf(EmptyScope, BracketList(ExprList(1, [Literal(2, IntLiteral, Some(1)), Literal(3, IntLiteral, Some(2))])), []).r
      == Ok(Some(Array(2, Some(Primitive(I32)))))
    ensures TypeOf(EmptyScope, BracketList(ExprList(1, [])), []).r == Ok(Some(Array(0, None)))
  {
    var l := ExprList(1, [Literal(2, IntLiteral, Some(1)), Literal(3, IntLiteral, Some(2))]);
    assert TypeOfBracket(EmptyScope, l, 1, Some(Primitive(I32)), []).r == Ok(Some(Array(2, Some(Primitive(I32)))));
  }

  /** `(1, "a")` is a tuple of an i32 and an untyped string. */
  lemma TupleOfValues()
    ensures TypeOf(EmptyScope, ParenList(ExprList(1, [Literal(2, IntLiteral, Some(1)), Literal(3, StringLiteral, None)])), []).r
      == Ok(Some(Tuple([Primitive(I32), Primitive(UntypedString)])))
  {
    var l := ExprList(1, [Literal(2, IntLiteral, Some(1)), Literal(3, StringLiteral, None)]);
    assert TypeOf(EmptyScope, l.exprs[1], []) == Step(EmptyScope, Ok(Some(Primitive(UntypedString))));
    assert !IsTypeDesc(Primitive(UntypedString)) && SkipUntyped(Primitive(UntypedString)) == Primitive(UntypedString);
    assert [Primitive(I32)] + [Primitive(UntypedString)] == [Primitive(I32), Primitive(UntypedString)];
    assert TypeOfParenRest(EmptyScope, l, 2, false, [Primitive(I32), Primitive(UntypedString)], []).r == Ok(Some(Tuple([Primitive(I32), Primitive(UntypedString)])));
    assert TypeOfParenRest(EmptyScope, l, 1, false, [Primitive(I32)], []).r == Ok(Some(Tuple([Primitive(I32), Primitive(UntypedString)])));
    assert TypeOf(EmptyScope, ParenList(l), []) == TypeOfParen(EmptyScope, l, []);
  }

  /** `while 1 {}` is refused at its condition, which is not bool. */
  lemma WhileNeedsBool()
    ensures TypeOf(EmptyScope, While(1, Literal(2, IntLiteral, Some(1)), Curly(3, [])), []).r
      == Err(None, 2, ConditionNotBool(Some(Primitive(UntypedInt))))
  {
    assert TypeOfCurly(EmptyScope, Curly(3, []), []) == Step(EmptyScope, Ok(Some(Unit)));
  }

  /** `1 == 1`, an untyped bool, which the condition of a loop accepts as bool. */
  function SameOnes(id: NodeId): Node {
    InfixOp(id, Operator(id + 1, OpEq), Literal(id + 2, IntLiteral, Some(1)), Literal(id + 3, IntLiteral, Some(1)))
  }

  /** `while 1 == 1 {}` type-checks, to nil rather than to a type. */
  lemma WhileHasNoType()
    ensures TypeOf(EmptyScope, While(1, SameOnes(2), Curly(6, [])), []).r == Ok(None)
  {
    assert TypeOfCurly(EmptyScope, Curly(6, []), []) == Step(EmptyScope, Ok(Some(Unit)));
    assert TypeOf(EmptyScope, SameOnes(2), []).r == Ok(Some(Primitive(UntypedBool)));
  }

  /** `{ while 1 == 1 {} }` takes the nil of its last statement. */
  lemma BlockEndingInWhile()
    ensures TypeOf(EmptyScope, CurlyList(Curly(10, [While(1, SameOnes(2), Curly(6, []))])), []).r == Ok(None)
  {
    var w := While(1, SameOnes(2), Curly(6, []));
    WhileHasNoType();
    assert Visit(EmptyScope, w, []) == Continue(EmptyScope, None);
    assert BlockFrom(EmptyScope, Curly(10, [w]), 1, None, []) == Step(EmptyScope, Ok(None));
  }

  /** `[][0]` type-checks, to the nil element type of the empty array. */
  lemma IndexOfEmptyArray()
    ensures TypeOf(EmptyScope, Index(1, BracketList(ExprList(2, [])), ExprList(3, [Literal(4, IntLiteral, Some(0))])), []).r == Ok(None)
  {
    assert TypeOf(EmptyScope, BracketList(ExprList(2, [])), []) == Step(EmptyScope, Ok(Some(Array(0, None))));
  }

  /** `(1 + 2) * 3`: the parenthesised sum is a one-element tuple, its underlying type is no number, so `*` is undefined on it. */
  lemma ParenthesizedProduct()
    ensures var sum := InfixOp(3, Operator(4, OpAdd), Literal(5, IntLiteral, Some(1)), Literal(6, IntLiteral, Some(2)));
      var product := InfixOp(1, Operator(2, OpMul), ParenList(ExprList(7, [sum])), Literal(8, IntLiteral, Some(3)));
      TypeOf(EmptyScope, product, []).r == Err(None, 2, UndefinedOperator(OpMul, Tuple([Primitive(I32)])))
  {
    var sum := InfixOp(3, Operator(4, OpAdd), Literal(5, IntLiteral, Some(1)), Literal(6, IntLiteral, Some(2)));
    var l := ExprList(7, [sum]);
    assert TypeOf(EmptyScope, sum, []) == Step(EmptyScope, Ok(Some(Primitive(UntypedInt))));
    assert TypeOfParenRest(EmptyScope, l, 1, false, [Primitive(I32)], []) == Step(EmptyScope, Ok(Some(Tuple([Primitive(I32)]))));
    assert TypeOf(EmptyScope, ParenList(l), []) == Step(EmptyScope, Ok(Some(Tuple([Primitive(I32)]))));
    assert Equals(Tuple([Primitive(I32)]), Primitive(UntypedInt));
    var product := InfixOp(1, Operator(2, OpMul), ParenList(l), Literal(8, IntLiteral, Some(3)));
    assert Underlying(SkipAlias(Tuple([Primitive(I32)]))) == Tuple([Primitive(I32)]);
    assert InfixRule(product, Some(Tuple([Primitive(I32)])), Some(Primitive(UntypedInt)))
      == Err(None, 2, UndefinedOperator(OpMul, Tuple([Primitive(I32)])));
    assert TypeOf(EmptyScope, product, []) == TypeOfInfix(EmptyScope, product, []);
  }

  /** `fn f() i32 { 1 }`: the body's untyped int equals the one-element result tuple. */
  lemma FuncResultOfOneElement()
    ensures var body := Curly(5, [Literal(6, IntLiteral, Some(1))]);
      var d := FuncDecl(1, Ident(2, "f"), Signature(3, ExprList(4, []), None), Some(body));
      ResolveFuncBody(EmptyScope, EmptyScope, d, [Primitive(I32)], [], []).r == Ok(None)
  {
    var body := Curly(5, [Literal(6, IntLiteral, Some(1))]);
    assert TypeOf(EmptyScope, CurlyList(body), []) == Step(EmptyScope, Ok(Some(Primitive(UntypedInt))));
    assert Equals(Tuple([Primitive(I32)]), Primitive(UntypedInt));
  }

  /** `fn f() { f() }`, declared as `f`, whose body calls `f` at the identifier with id 7. */
  const SelfCalling: Node :=
    FuncDecl(1, Ident(2, "f"), Signature(3, ExprList(4, []), None),
             Some(Curly(5, [Call(6, Name(Ident(7, "f")), ExprList(8, []))])))

  /**
   * A function that calls itself is refused: the function's scope reaches
   * the owner's symbol for `f` as the value it had before, without a type.
   */
  lemma SelfCallRejected()
    ensures var owner := Scope(map["f" := FuncSym(Ident(2, "f"), None)], None);
      ResolveFunc(owner, Scope(map[], Some(owner)), None, SelfCalling, []).r == Err(None, 7, NoType("f"))
  {
    var owner := Scope(map["f" := FuncSym(Ident(2, "f"), None)], None);
    var fscope := Scope(map[], Some(owner));
    var call := Call(6, Name(Ident(7, "f")), ExprList(8, []));
    assert TypeOf(fscope, Name(Ident(7, "f")), []).r == Err(None, 7, NoType("f"));
    assert TypeOf(fscope, call, []).r == Err(None, 7, NoType("f"));
    var body := Curly(5, [call]);
    assert TypeOf(fscope, CurlyList(body), []).r.Err?;
  }
}
