/**
 * The declaration resolvers of checker/resolver.go.  `resolveVarDecl`
 * works out a variable's type from its annotation and initializer;
 * `resolveFuncDecl` types a function's parameters and result in the
 * declaring scope, defines the parameters in the function's own scope,
 * sets the function's type and then checks its body against the result.
 */
module Decls {
  import opened Wrappers
  import opened PrimitiveKinds
  import opened Types
  import opened Funcs
  import opened Ast
  import opened Scopes
  import opened Inference

  /** `resolveVarDecl`, reassigning the declared type `t` as the source does. */
  method ResolveVarDecl(s: Scope, d: Node, tbl: seq<BuiltIn>) returns (res: Step)
    requires d.VarDecl?
    ensures res == VarDeclType(s, d, tbl)
  {
    var t: Option<Type> := None;
    var scope := s;
    if d.binding.typ.Some? {
      var a := TypeOf(scope, d.binding.typ.value, tbl);
      if !a.r.Ok? {
        return a;
      }
      if a.r.t.None? {
        return Step(a.scope, Internal("annotation should have a type"));
      }
      var typedesc := Underlying(a.r.t.value);
      if !typedesc.TypeDesc? {
        return Step(a.scope, Err(t, IdOf(d.binding.typ.value), NotAType(a.r.t.value)));
      }
      t := Some(typedesc.base);
      scope := a.scope;
    }
    if d.init.Some? {
      var v := TypeOf(scope, d.init.value, tbl);
      if !v.r.Ok? {
        return Step(v.scope, Drop(v.r));
      }
      if v.r.t.None? {
        return Step(v.scope, Internal("nil type"));
      }
      if IsTypeDesc(Underlying(v.r.t.value)) {
        return Step(v.scope, Err(None, IdOf(d.init.value), ExpectedValue(Underlying(v.r.t.value))));
      }
      var tValue := SkipUntyped(v.r.t.value);
      if t.Some? && !Equals(t.value, tValue) {
        return Step(v.scope, Err(t, IdOf(d.init.value), DeclMismatch(t.value, tValue)));
      }
      if t.None? {
        t := Some(tValue);
      }
      scope := v.scope;
    }
    return Step(scope, Ok(t));
  }

  /**
   * The annotation: when it does not denote a type the declaration fails
   * with "not a type"; when it does, the declared type is what it
   * describes, and a success keeps that declared type.
   */
  lemma VarDeclAnnotation(s: Scope, d: Node, tbl: seq<BuiltIn>)
    requires d.VarDecl? && d.binding.typ.Some?
    ensures var res := VarDeclType(s, d, tbl);
      var a := TypeOf(s, d.binding.typ.value, tbl);
      && (!a.r.Ok? ==> res == a)
      && (a.r.Ok? && a.r.t.Some? && !Underlying(a.r.t.value).TypeDesc? ==>
            res == Step(a.scope, Err(None, IdOf(d.binding.typ.value), NotAType(a.r.t.value))))
      && (res.r.Ok? ==>
            && a.r.Ok? && a.r.t.Some? && Underlying(a.r.t.value).TypeDesc?
            && res.r.t == Some(Underlying(a.r.t.value).base))
  {
  }

  /**
   * The initializer: it must be a value; it is concretised; with a
   * declared type it must equal it, and a mismatch reports the declared
   * type with the error; without one it gives the type.
   */
  lemma VarDeclInitializer(s: Scope, d: Node, declared: Option<Type>, tbl: seq<BuiltIn>)
    requires d.VarDecl? && d.init.Some?
    ensures var res := VarDeclInit(s, d, declared, tbl);
      var v := TypeOf(s, d.init.value, tbl);
      && (res.r.Ok? ==> v.r.Ok? && v.r.t.Some? && !IsTypeDesc(v.r.t.value))
      && (v.r.Ok? && v.r.t.Some? && IsTypeDesc(Underlying(v.r.t.value)) ==>
            res.r == Err(None, IdOf(d.init.value), ExpectedValue(Underlying(v.r.t.value))))
      && (v.r.Ok? && v.r.t.Some? && !IsTypeDesc(v.r.t.value) ==>
            var c := SkipUntyped(v.r.t.value);
            && (declared.Some? && !Equals(declared.value, c) ==>
                  res.r == Err(declared, IdOf(d.init.value), DeclMismatch(declared.value, c)))
            && (declared.Some? && Equals(declared.value, c) ==> res.r == Ok(declared))
            && (declared.None? ==> res.r == Ok(Some(c))))
  {
    var v := TypeOf(s, d.init.value, tbl);
    if v.r.Ok? && v.r.t.Some? {
      UnderlyingIdempotent(v.r.t.value);
    }
  }

  /**
   * Without an annotation a variable gets its initializer's concretised
   * type, never an untyped bool or int; with neither annotation nor
   * initializer it has a nil type and no error.
   */
  lemma VarDeclInferred(s: Scope, d: Node, tbl: seq<BuiltIn>)
    requires d.VarDecl? && d.binding.typ.None?
    ensures d.init.None? ==> VarDeclType(s, d, tbl) == Step(s, Ok(None))
    ensures var res := VarDeclType(s, d, tbl);
      res.r.Ok? && d.init.Some? ==>
        && res.r.t.Some?
        && res.r.t.value != Primitive(UntypedInt) && res.r.t.value != Primitive(UntypedBool)
        && !IsTypeDesc(res.r.t.value)
  {
    if d.init.Some? {
      VarDeclInitializer(s, d, None, tbl);
    }
  }

  /** The outcome of the parameter loop: the parameter types so far, or the error that ended it. */
  datatype ParamsOutcome =
    | Params(owner: Scope, scope: Scope, types: seq<Type>)
    | ParamsFailed(owner: Scope, scope: Scope, r: Checked)

  /**
   * The parameter loop from position `i`: a binding's annotation is typed
   * in the declaring scope, and the described type is appended and
   * defined in the function's scope (a repeated name is silently kept);
   * a binding with a default value is refused.
   */
  function ResolveParams(owner: Scope, fscope: Scope, ps: seq<Node>, i: nat, acc: seq<Type>, tbl: seq<BuiltIn>): (res: ParamsOutcome)
    requires i <= |ps|
    ensures Extends(owner, res.owner) && Extends(fscope, res.scope)
    ensures res.Params? ==> |res.types| == |acc| + |ps| - i && res.types[..|acc|] == acc
    decreases |ps| - i, 1
  {
    if i == |ps| then Params(owner, fscope, acc)
    else
      match ps[i]
      case BindingNode(b) => ResolveBinding(owner, fscope, ps, i, acc, tbl)
      case BindingWithValue(id, _, _) => ParamsFailed(owner, fscope, Err(None, id, DefaultParameter))
      case _ => ParamsFailed(owner, fscope, Internal("ill-formed AST: unexpected parameter node"))
  }

  /** The loop's step on a binding: its type is resolved in the owner and the name defined in the function's scope. */
  function ResolveBinding(owner: Scope, fscope: Scope, ps: seq<Node>, i: nat, acc: seq<Type>, tbl: seq<BuiltIn>): (res: ParamsOutcome)
    requires i < |ps| && ps[i].BindingNode?
    ensures Extends(owner, res.owner) && Extends(fscope, res.scope)
    ensures res.Params? ==> |res.types| == |acc| + |ps| - i && res.types[..|acc|] == acc
    decreases |ps| - i, 0
  {
    var b := ps[i].binding;
    if b.typ.None? then ParamsFailed(owner, fscope, Internal("got nil not for expr"))
    else
      var e := TypeOf(owner, b.typ.value, tbl);
      if !e.r.Ok? then ParamsFailed(e.scope, fscope, Drop(e.r))
      else if e.r.t.None? then ParamsFailed(e.scope, fscope, Internal("nil type"))
      else
        var pt := SkipTypeDesc(e.r.t.value);
        var (fs1, _) := Define(fscope, Var(b.name, Some(pt)));
        var rest := ResolveParams(e.scope, fs1, ps, i + 1, acc + [pt], tbl);
        DefineExtends(fscope, Var(b.name, Some(pt)));
        ExtendsTransitive(owner, e.scope, rest.owner);
        ExtendsTransitive(fscope, fs1, rest.scope);
        assert rest.Params? ==> rest.types[..|acc|] == (acc + [pt])[..|acc|];
        rest
  }

  /** After a successful parameter loop every parameter is a binding whose name is defined in the function's scope. */
  lemma {:induction false} ParamNamesDefined(owner: Scope, fscope: Scope, ps: seq<Node>, i: nat, acc: seq<Type>, tbl: seq<BuiltIn>)
    requires i <= |ps|
    ensures var res := ResolveParams(owner, fscope, ps, i, acc, tbl);
      res.Params? ==> forall k :: i <= k < |ps| ==> ps[k].BindingNode? && ps[k].binding.name.name in res.scope.table
    decreases |ps| - i
  {
    var res := ResolveParams(owner, fscope, ps, i, acc, tbl);
    if i < |ps| && res.Params? {
      assert res == ResolveBinding(owner, fscope, ps, i, acc, tbl);
      var b := ps[i].binding;
      var e := TypeOf(owner, b.typ.value, tbl);
      var pt := SkipTypeDesc(e.r.t.value);
      var (fs1, _) := Define(fscope, Var(b.name, Some(pt)));
      assert res == ResolveParams(e.scope, fs1, ps, i + 1, acc + [pt], tbl);
      ParamNamesDefined(e.scope, fs1, ps, i + 1, acc + [pt], tbl);
      assert b.name.name in fs1.table;
      assert Extends(fs1, res.scope);
    }
  }

  /** A function symbol's scopes and type after `resolveFuncDecl`, and its error (`Ok(None)` for none). */
  datatype FuncResolution = FuncResolution(owner: Scope, scope: Scope, t: Option<Type>, r: Checked)

  /** `resolveFuncDecl` on a function symbol with scopes `owner` and `fscope` and type `t0`. */
  function ResolveFunc(owner: Scope, fscope: Scope, t0: Option<Type>, d: Node, tbl: seq<BuiltIn>): (res: FuncResolution)
    requires d.FuncDecl?
    ensures Extends(owner, res.owner) && Extends(fscope, res.scope)
  {
    match ResolveParams(owner, fscope, d.signature.params.exprs, 0, [], tbl)
    case ParamsFailed(o, fs, r) => FuncResolution(o, fs, t0, r)
    case Params(o, fs, params) =>
      if d.signature.result.Some? then
        var e := TypeOf(o, d.signature.result.value, tbl);
        if !e.r.Ok? then FuncResolution(e.scope, fs, t0, Drop(e.r))
        else if e.r.t.None? then FuncResolution(e.scope, fs, t0, Internal("nil type"))
        else ResolveFuncBody(e.scope, fs, d, [SkipTypeDesc(e.r.t.value)], params, tbl)
      else ResolveFuncBody(o, fs, d, Unit.elems, params, tbl)
  }

  /** The function type is set first; then the body, which must exist, must have the result type. */
  function ResolveFuncBody(owner: Scope, fscope: Scope, d: Node, result: seq<Type>, params: seq<Type>, tbl: seq<BuiltIn>): (res: FuncResolution)
    requires d.FuncDecl?
    ensures Extends(fscope, res.scope) && res.owner == owner
    ensures res.t == Some(Func(NewFunc(Some(result), Some(params), false)))
  {
    var t := Some(Func(NewFunc(Some(result), Some(params), false)));
    if d.funcBody.None? then FuncResolution(owner, fscope, t, Err(None, d.name.id, MissingBody))
    else
      var body := d.funcBody.value;
      var b := TypeOf(fscope, CurlyList(body), tbl);
      if !b.r.Ok? then FuncResolution(owner, b.scope, t, Drop(b.r))
      else if !EqualsTo(Tuple(result), b.r.t) then
        if |body.nodes| == 0 then FuncResolution(owner, b.scope, t, Internal("index out of range"))
        else FuncResolution(owner, b.scope, t, Err(None, IdOf(body.nodes[|body.nodes| - 1]), ResultMismatch(result, b.r.t)))
      else FuncResolution(owner, b.scope, t, Ok(None))
  }

  /** `types.Func` of a symbol of kind `Func`: the owner it is declared in, its own scope, its type and declaration. */
  class FuncSymbol {
    var owner: Scope
    var scope: Scope
    var t: Option<Type>
    const node: Node
    const ident: Ident

    /** The symbol stands for a function declaration and is named by its identifier. */
    predicate Valid() {
      node.FuncDecl? && ident == node.name
    }

    constructor (owner: Scope, scope: Scope, node: Node)
      requires node.FuncDecl?
      ensures this.owner == owner && this.scope == scope && this.node == node
      ensures Valid() && t.None?
    {
      this.owner := owner;
      this.scope := scope;
      this.node := node;
      ident := node.name;
      t := None;
    }

    /** `resolveFuncDecl(sym)`: the parameter loop, the result, `setType`, then the body. */
    method ResolveFuncDecl(tbl: seq<BuiltIn>) returns (err: Checked)
      requires Valid()
      modifies this
      ensures FuncResolution(owner, scope, t, err) == ResolveFunc(old(owner), old(scope), old(t), node, tbl)
    {
      var tParams, failure := ResolveParameters(tbl);
      if failure.Some? {
        return failure.value;
      }
      var sig := node.signature;
      var tResult := Unit.elems;
      if sig.result.Some? {
        var e := TypeOf(owner, sig.result.value, tbl);
        owner := e.scope;
        if !e.r.Ok? {
          return Drop(e.r);
        }
        if e.r.t.None? {
          return Internal("nil type");
        }
        tResult := [SkipTypeDesc(e.r.t.value)];
      }
      err := SetTypeAndCheckBody(tResult, tParams, tbl);
    }

    /** The loop over the signature's parameters, appending to `tParams` and defining each in the function's scope. */
    method ResolveParameters(tbl: seq<BuiltIn>) returns (tParams: seq<Type>, failure: Option<Checked>)
      requires Valid()
      modifies this
      ensures t == old(t)
      ensures match ResolveParams(old(owner), old(scope), node.signature.params.exprs, 0, [], tbl)
        case Params(o, fs, types) => failure.None? && owner == o && scope == fs && tParams == types
        case ParamsFailed(o, fs, r) => failure == Some(r) && owner == o && scope == fs
    {
      var ps := node.signature.params.exprs;
      tParams := [];
      var i := 0;
      while i < |ps|
        invariant 0 <= i <= |ps| && |tParams| == i
        invariant ResolveParams(old(owner), old(scope), ps, 0, [], tbl) == ResolveParams(owner, scope, ps, i, tParams, tbl)
        invariant t == old(t)
        decreases |ps| - i
      {
        var f;
        tParams, f := ResolveParameter(ps, i, tParams, tbl);
        if f.Some? {
          return tParams, f;
        }
        i := i + 1;
      }
      failure := None;
    }

    /** One parameter: resolve its type in the owner, append it, and define the name in the function's scope. */
    method ResolveParameter(ps: seq<Node>, i: nat, acc: seq<Type>, tbl: seq<BuiltIn>) returns (tParams: seq<Type>, failure: Option<Checked>)
      requires i < |ps| && |acc| == i
      modifies this
      ensures t == old(t)
      ensures failure.None? ==>
        |tParams| == i + 1 && ResolveParams(old(owner), old(scope), ps, i, acc, tbl) == ResolveParams(owner, scope, ps, i + 1, tParams, tbl)
      ensures failure.Some? ==> ResolveParams(old(owner), old(scope), ps, i, acc, tbl) == ParamsFailed(owner, scope, failure.value)
    {
      tParams := acc;
      match ps[i]
      case BindingNode(b) =>
        BindingParamStep(owner, scope, ps, i, acc, tbl);
        if b.typ.None? {
          return tParams, Some(Internal("got nil not for expr"));
        }
        var e := TypeOf(owner, b.typ.value, tbl);
        owner := e.scope;
        if !e.r.Ok? {
          return tParams, Some(Drop(e.r));
        }
        if e.r.t.None? {
          return tParams, Some(Internal("nil type"));
        }
        var pt := SkipTypeDesc(e.r.t.value);
        tParams := acc + [pt];
        var (s1, _) := Define(scope, Var(b.name, Some(pt)));
        scope := s1;
        failure := None;
      case BindingWithValue(id, _, _) =>
        DefaultParameterRefused(owner, scope, ps, i, acc, tbl);
        return tParams, Some(Err(None, id, DefaultParameter));
      case _ =>
        OtherParamFails(owner, scope, ps, i, acc, tbl);
        return tParams, Some(Internal("ill-formed AST: unexpected parameter node"));
    }

    /** `sym.setType(t)` with the function type, then the check of the body against the result. */
    method SetTypeAndCheckBody(tResult: seq<Type>, tParams: seq<Type>, tbl: seq<BuiltIn>) returns (err: Checked)
      requires Valid()
      modifies this
      ensures FuncResolution(owner, scope, t, err) == ResolveFuncBody(old(owner), old(scope), node, tResult, tParams, tbl)
    {
      t := Some(Func(NewFunc(Some(tResult), Some(tParams), false)));
      if node.funcBody.None? {
        return Err(None, ident.id, MissingBody);
      }
      var body := node.funcBody.value;
      var b := TypeOf(scope, CurlyList(body), tbl);
      scope := b.scope;
      if !b.r.Ok? {
        return Drop(b.r);
      }
      if !EqualsTo(Tuple(tResult), b.r.t) {
        if |body.nodes| == 0 {
          return Internal("index out of range");
        }
        return Err(None, IdOf(body.nodes[|body.nodes| - 1]), ResultMismatch(tResult, b.r.t));
      }
      return Ok(None);
    }
  }

  /**
   * Every parameter is a plain binding with an annotation that resolves;
   * each contributes the type it describes, in order, and its name ends
   * up defined in the function's scope.
   */
  lemma {:induction false} ParamsInOrder(owner: Scope, fscope: Scope, ps: seq<Node>, i: nat, acc: seq<Type>, tbl: seq<BuiltIn>)
    requires i < |ps|
    ensures var res := ResolveParams(owner, fscope, ps, i, acc, tbl);
      res.Params? ==>
        && ps[i].BindingNode? && ps[i].binding.typ.Some?
        && var e := TypeOf(owner, ps[i].binding.typ.value, tbl);
          && e.r.Ok? && e.r.t.Some?
          && res.types[|acc|] == SkipTypeDesc(e.r.t.value)
          && res == ResolveParams(e.scope, Define(fscope, Var(ps[i].binding.name, Some(SkipTypeDesc(e.r.t.value)))).0,
                                  ps, i + 1, acc + [SkipTypeDesc(e.r.t.value)], tbl)
  {
    var res := ResolveParams(owner, fscope, ps, i, acc, tbl);
    if res.Params? && ps[i].BindingNode? {
      assert res == ResolveBinding(owner, fscope, ps, i, acc, tbl);
      var e := TypeOf(owner, ps[i].binding.typ.value, tbl);
      var pt := SkipTypeDesc(e.r.t.value);
      assert res.types[..|acc| + 1] == acc + [pt];
    }
  }

  /**
   * One binding parameter of the loop: without a type it is an internal
   * failure; a type that fails, or is nil, ends the loop there; a
   * described type is appended and the name defined before the next
   * parameter.
   */
  lemma BindingParamStep(owner: Scope, fscope: Scope, ps: seq<Node>, i: nat, acc: seq<Type>, tbl: seq<BuiltIn>)
    requires i < |ps| && ps[i].BindingNode?
    ensures var res := ResolveParams(owner, fscope, ps, i, acc, tbl);
      && (ps[i].binding.typ.None? ==> res == ParamsFailed(owner, fscope, Internal("got nil not for expr")))
      && (ps[i].binding.typ.Some? ==>
            var e := TypeOf(owner, ps[i].binding.typ.value, tbl);
            && (!e.r.Ok? ==> res == ParamsFailed(e.scope, fscope, Drop(e.r)))
            && (e.r.Ok? && e.r.t.None? ==> res == ParamsFailed(e.scope, fscope, Internal("nil type")))
            && (e.r.Ok? && e.r.t.Some? ==>
                  res == ResolveParams(e.scope, Define(fscope, Var(ps[i].binding.name, Some(SkipTypeDesc(e.r.t.value)))).0,
                                       ps, i + 1, acc + [SkipTypeDesc(e.r.t.value)], tbl)))
  {
    assert ResolveParams(owner, fscope, ps, i, acc, tbl) == ResolveBinding(owner, fscope, ps, i, acc, tbl);
  }

  /** A parameter that is neither a binding nor a binding with a default value is an ill-formed tree. */
  lemma OtherParamFails(owner: Scope, fscope: Scope, ps: seq<Node>, i: nat, acc: seq<Type>, tbl: seq<BuiltIn>)
    requires i < |ps| && !ps[i].BindingNode? && !ps[i].BindingWithValue?
    ensures ResolveParams(owner, fscope, ps, i, acc, tbl) == ParamsFailed(owner, fscope, Internal("ill-formed AST: unexpected parameter node"))
  {
  }

  /** A parameter with a default value is refused at that parameter. */
  lemma DefaultParameterRefused(owner: Scope, fscope: Scope, ps: seq<Node>, i: nat, acc: seq<Type>, tbl: seq<BuiltIn>)
    requires i < |ps| && ps[i].BindingWithValue?
    ensures ResolveParams(owner, fscope, ps, i, acc, tbl) == ParamsFailed(owner, fscope, Err(None, ps[i].id, DefaultParameter))
  {
  }

  /**
   * Once parameters and result resolve, the symbol's type is the function
   * type of the parameter types and the result, unit when there is none,
   * whatever the body does.
   */
  lemma FuncTypeSetBeforeBody(owner: Scope, fscope: Scope, t0: Option<Type>, d: Node, tbl: seq<BuiltIn>)
    requires d.FuncDecl?
    ensures var p := ResolveParams(owner, fscope, d.signature.params.exprs, 0, [], tbl);
      var res := ResolveFunc(owner, fscope, t0, d, tbl);
      && (p.ParamsFailed? ==> res.t == t0 && res.r == p.r)
      && (p.Params? && d.signature.result.None? ==>
            && res.t == Some(Func(FuncType(p.types, [], false)))
            && |p.types| == |d.signature.params.exprs|)
      && (p.Params? && d.signature.result.Some? ==>
            var e := TypeOf(p.owner, d.signature.result.value, tbl);
            e.r.Ok? && e.r.t.Some? ==> res.t == Some(Func(FuncType(p.types, [SkipTypeDesc(e.r.t.value)], false))))
  {
  }

  /**
   * The body: a missing one fails at the function's identifier; otherwise
   * the body's type must equal the result tuple, and a mismatch is
   * reported at its last statement.
   */
  lemma FuncBodyRule(owner: Scope, fscope: Scope, d: Node, result: seq<Type>, params: seq<Type>, tbl: seq<BuiltIn>)
    requires d.FuncDecl?
    ensures var res := ResolveFuncBody(owner, fscope, d, result, params, tbl);
      && (d.funcBody.None? ==> res.r == Err(None, d.name.id, MissingBody) && res.scope == fscope)
      && (d.funcBody.Some? ==>
            var body := d.funcBody.value;
            var b := TypeOf(fscope, CurlyList(body), tbl);
            && (res.r.Ok? <==> b.r.Ok? && EqualsTo(Tuple(result), b.r.t))
            && (res.r.Ok? ==> res.r.t.None?)
            && (b.r.Ok? && !EqualsTo(Tuple(result), b.r.t) && |body.nodes| > 0 ==>
                  res.r == Err(None, IdOf(body.nodes[|body.nodes| - 1]), ResultMismatch(result, b.r.t))))
  {
  }
}
