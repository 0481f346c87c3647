/**
 * The loops of `Scope.TypeOf` (checker/type_resolver.go) as the source
 * writes them: the element loops of the paren-list and bracket-list cases
 * and the scan of the built-in table.  Each is proved to compute what the
 * corresponding rule of `Inference` states.
 */
module InferenceLoops {
  import opened Wrappers
  import opened Types
  import opened Ast
  import opened Scopes
  import opened Inference

  /** The paren-list case: the first element decides the kind, the rest are appended in a loop. */
  method ParenListType(s: Scope, l: ExprList, tbl: seq<BuiltIn>) returns (res: Step)
    ensures res == TypeOfParen(s, l, tbl)
  {
    if |l.exprs| == 0 {
      return Step(s, Ok(Some(Unit)));
    }
    var first := TypeOf(s, l.exprs[0], tbl);
    if !first.r.Ok? {
      return Step(first.scope, Drop(first.r));
    }
    if first.r.t.None? {
      return Step(first.scope, Internal("nil type"));
    }
    var t := first.r.t.value;
    var isTypeDescTuple := IsTypeDesc(t);
    var elemTypes: seq<Type>;
    if isTypeDescTuple {
      elemTypes := [SkipTypeDesc(t)];
    } else {
      elemTypes := [SkipUntyped(t)];
    }
    ghost var start := elemTypes;
    var scope := first.scope;
    var i := 1;
    while i < |l.exprs|
      invariant 1 <= i <= |l.exprs| && |elemTypes| == i
      invariant TypeOfParenRest(first.scope, l, 1, isTypeDescTuple, start, tbl)
             == TypeOfParenRest(scope, l, i, isTypeDescTuple, elemTypes, tbl)
      decreases |l.exprs| - i
    {
      var expr := l.exprs[i];
      var e := TypeOf(scope, expr, tbl);
      if !e.r.Ok? {
        return Step(e.scope, Drop(e.r));
      }
      if isTypeDescTuple {
        if e.r.t.None? || !IsTypeDesc(e.r.t.value) {
          return Step(e.scope, Err(None, IdOf(expr), ExpectedType(e.r.t)));
        }
        elemTypes := elemTypes + [SkipTypeDesc(e.r.t.value)];
      } else {
        if e.r.t.None? {
          return Step(e.scope, Internal("nil type"));
        }
        if IsTypeDesc(e.r.t.value) {
          return Step(e.scope, Err(None, IdOf(expr), ExpectedExpression(e.r.t.value)));
        }
        elemTypes := elemTypes + [SkipUntyped(e.r.t.value)];
      }
      scope := e.scope;
      i := i + 1;
    }
    var tuple := Tuple(elemTypes);
    if isTypeDescTuple {
      return Step(scope, Ok(Some(TypeDesc(tuple))));
    }
    return Step(scope, Ok(Some(tuple)));
  }

  /** The bracket-list case: the element type is set by the first element and checked against the rest. */
  method BracketListType(s: Scope, l: ExprList, tbl: seq<BuiltIn>) returns (res: Step)
    ensures res == TypeOfBracket(s, l, 0, None, tbl)
  {
    var elemType: Option<Type> := None;
    var scope := s;
    var i := 0;
    while i < |l.exprs|
      invariant 0 <= i <= |l.exprs| && (elemType.None? <==> i == 0)
      invariant TypeOfBracket(s, l, 0, None, tbl) == TypeOfBracket(scope, l, i, elemType, tbl)
      decreases |l.exprs| - i
    {
      var expr := l.exprs[i];
      var e := TypeOf(scope, expr, tbl);
      if !e.r.Ok? {
        return Step(e.scope, Drop(e.r));
      }
      if elemType.None? {
        if e.r.t.None? {
          return Step(e.scope, Internal("nil type"));
        }
        elemType := Some(SkipUntyped(e.r.t.value));
      } else if !EqualsTo(elemType.value, e.r.t) {
        return Step(e.scope, Err(None, IdOf(expr), ElementMismatch(elemType.value, e.r.t)));
      }
      scope := e.scope;
      i := i + 1;
    }
    return Step(scope, Ok(Some(Array(|l.exprs|, elemType))));
  }

  /** The scan of the built-in table, which keeps reassigning on every match. */
  method FindBuiltIn(tbl: seq<BuiltIn>, name: string) returns (k: int)
    ensures k == LastBuiltIn(tbl, name)
    ensures k >= 0 ==> tbl[k].name == name
  {
    k := -1;
    var i := 0;
    while i < |tbl|
      invariant 0 <= i <= |tbl|
      invariant k == LastBuiltIn(tbl[..i], name)
    {
      assert tbl[..i + 1][..i] == tbl[..i];
      if tbl[i].name == name {
        k := i;
      }
      i := i + 1;
    }
    assert tbl[..|tbl|] == tbl;
  }
}
