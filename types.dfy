/**
 * The type algebra of Jet: primitives, tuples, arrays, functions,
 * references, aliases and type descriptors.
 *
 * Only the function variant's equality and rendering are taken from the
 * repository (types/func.go).  The other variants' `Equals`, `String`,
 * `Underlying` and the helpers `SkipUntyped`, `SkipTypeDesc`, `SkipAlias`,
 * `AsArray`, `AsTuple`, `AsRef`, `IsTypeDesc` and `WrapInTuple` are not part
 * of this model's sources: they are defined here from their names and
 * marked "Assumed".
 */
module Types {
  import opened Wrappers
  import opened Decimal
  import opened PrimitiveKinds

  datatype Type =
    | Primitive(kind: Kind)
    | Tuple(elems: seq<Type>)
      /** `size` is -1 for the `_` placeholder; `elem` is nil for an empty array literal. */
    | Array(size: int, elem: Option<Type>)
    | Func(fn: FuncType)
    | Ref(base: Type)
    | Alias(base: Type, name: string)
    | TypeDesc(base: Type)

  /** `types.Func`: the parameter and result tuples, kept as their element lists. */
  datatype FuncType = FuncType(params: seq<Type>, result: seq<Type>, variadic: bool)

  /** `types.Unit`, the empty tuple. */
  const Unit: Type := Tuple([])

  /** Assumed: an alias is transparent; every other type is its own underlying type. */
  function Underlying(t: Type): (r: Type)
    ensures !r.Alias?
  {
    match t
    case Alias(b, _) => Underlying(b)
    case _ => t
  }

  /** Assumed: strips every alias layer. */
  function SkipAlias(t: Type): (r: Type)
    ensures !r.Alias?
  {
    Underlying(t)
  }

  /** Assumed: an untyped bool or int literal type gets its default concrete kind. */
  function SkipUntyped(t: Type): (r: Type)
    ensures !IsUntyped(t) ==> r == t
    ensures IsTypeDesc(r) == IsTypeDesc(t)
    ensures !IsUntyped(r) || r.kind !in {UntypedBool, UntypedInt}
  {
    if t == Primitive(UntypedBool) then Primitive(Bool)
    else if t == Primitive(UntypedInt) then Primitive(I32)
    else t
  }

  predicate IsUntyped(t: Type) {
    t.Primitive? && t.kind in {UntypedBool, UntypedInt, UntypedFloat, UntypedString}
  }

  /** Assumed: whether the type denotes a type rather than a value. */
  predicate IsTypeDesc(t: Type) {
    Underlying(t).TypeDesc?
  }

  /** Assumed: the described type of a type descriptor; other types are returned unchanged. */
  function SkipTypeDesc(t: Type): Type {
    if IsTypeDesc(t) then Underlying(t).base else t
  }

  function WrapInTuple(t: Type): (r: Type)
    ensures r.Tuple? && r.elems == [t]
  {
    Tuple([t])
  }

  /** The downcasts: the underlying type when it has the asked-for shape. */
  function AsPrimitive(t: Type): (r: Option<Type>)
    ensures r.Some? <==> Underlying(t).Primitive?
    ensures r.Some? ==> r.value == Underlying(t)
  {
    if Underlying(t).Primitive? then Some(Underlying(t)) else None
  }

  function AsArray(t: Type): (r: Option<Type>)
    ensures r.Some? <==> Underlying(t).Array?
    ensures r.Some? ==> r.value == Underlying(t)
  {
    if Underlying(t).Array? then Some(Underlying(t)) else None
  }

  function AsTuple(t: Type): (r: Option<Type>)
    ensures r.Some? <==> Underlying(t).Tuple?
    ensures r.Some? ==> r.value == Underlying(t)
  {
    if Underlying(t).Tuple? then Some(Underlying(t)) else None
  }

  function AsRef(t: Type): (r: Option<Type>)
    ensures r.Some? <==> Underlying(t).Ref?
    ensures r.Some? ==> r.value == Underlying(t)
  {
    if Underlying(t).Ref? then Some(Underlying(t)) else None
  }

  /** `AsFunc` of types/func.go: the function behind the underlying type, if any. */
  function AsFunc(t: Type): (r: Option<FuncType>)
    ensures r.Some? <==> Underlying(t).Func?
    ensures r.Some? ==> Func(r.value) == Underlying(t)
  {
    if Underlying(t).Func? then Some(Underlying(t).fn) else None
  }

  predicate IsFunc(t: Type) {
    AsFunc(t).Some?
  }

  /**
   * Assumed: equality of primitive kinds.  `Any` absorbs everything, and an
   * untyped bool or int equals its concrete counterpart in both directions.
   */
  predicate KindEquals(a: Kind, b: Kind) {
    || a == b || a == Any || b == Any
    || (a == UntypedInt && b == I32) || (a == I32 && b == UntypedInt)
    || (a == UntypedBool && b == Bool) || (a == Bool && b == UntypedBool)
  }

  /**
   * `t.Equals(other)`.  Assumed: a one-element tuple, the wrapper a
   * function result is returned in, and its element are equal both ways;
   * `EqualsShape` compares one level of structure.  A function, whose
   * `Equals` is that of types/func.go, is not unwrapped that way.
   */
  predicate Equals(a: Type, b: Type)
    decreases a, 2
  {
    if IsOneTuple(Underlying(b)) && !a.Tuple? && !a.Func? && !a.Alias? then
      EqualsShape(a, Underlying(b).elems[0])
    else
      EqualsShape(a, b)
  }

  predicate IsOneTuple(t: Type) {
    t.Tuple? && |t.elems| == 1
  }

  /**
   * The `Func` case is that of types/func.go: against a primitive it holds
   * exactly when the primitive is `Any`; against a function it compares the
   * variadic flags, results and parameters; it is false against everything
   * else.  The other cases are assumed.
   */
  predicate EqualsShape(a: Type, b: Type)
    decreases a, 1
  {
    match a
    case Primitive(k) => k == Any || (Underlying(b).Primitive? && KindEquals(k, Underlying(b).kind))
    case Tuple(xs) =>
      if Underlying(b).Tuple? then SeqEquals(xs, Underlying(b).elems)
      else |xs| == 1 && Equals(xs[0], b)
    case Array(n, e) =>
      && Underlying(b).Array? && n == Underlying(b).size
      && (match (e, Underlying(b).elem)
          case (None, None) => true
          case (Some(x), Some(y)) => Equals(x, y)
          case _ => false)
    case Func(f) =>
      if AsPrimitive(b).Some? then
        AsPrimitive(b).value.kind == Any
      else if AsFunc(b).Some? then
        var g := AsFunc(b).value;
        f.variadic == g.variadic && SeqEquals(f.result, g.result) && SeqEquals(f.params, g.params)
      else
        false
    case Ref(x) => Underlying(b).Ref? && Equals(x, Underlying(b).base)
    case Alias(x, _) => Equals(x, b)
    case TypeDesc(x) => Underlying(b).TypeDesc? && Equals(x, Underlying(b).base)
  }

  /** Element-wise equality of two tuples' element lists. */
  predicate SeqEquals(xs: seq<Type>, ys: seq<Type>)
    decreases xs, 0
  {
    |xs| == |ys| && forall i :: 0 <= i < |xs| ==> Equals(xs[i], ys[i])
  }

  /** `a.Equals(b)` where `b` may be nil: no type equals nil. */
  predicate EqualsTo(a: Type, b: Option<Type>) {
    b.Some? && Equals(a, b.value)
  }

  lemma UnderlyingIdempotent(t: Type)
    ensures Underlying(Underlying(t)) == Underlying(t)
  {
  }

  /**
   * `AsFunc` and `IsFunc` of types/func.go: an alias is seen through, a
   * function type gives its function, and every other underlying type
   * gives nil.
   */
  lemma AsFuncRules(t: Type, x: Type, name: string, f: FuncType)
    ensures AsFunc(Alias(x, name)) == AsFunc(x)
    ensures AsFunc(Func(f)) == Some(f)
    ensures !Underlying(t).Func? ==> AsFunc(t).None?
    ensures IsFunc(t) <==> Underlying(t).Func?
    ensures IsFunc(Alias(x, name)) == IsFunc(x)
  {
  }

  /** Equality looks at its right operand only through its underlying type. */
  lemma {:induction false} EqualsThroughAlias(a: Type, b: Type)
    ensures Equals(a, b) == Equals(a, Underlying(b))
    decreases a, 2
  {
    UnderlyingIdempotent(b);
    ShapeThroughAlias(a, b);
  }

  lemma {:induction false} ShapeThroughAlias(a: Type, b: Type)
    ensures EqualsShape(a, b) == EqualsShape(a, Underlying(b))
    decreases a, 1
  {
    UnderlyingIdempotent(b);
    match a
    case Alias(x, _) => EqualsThroughAlias(x, b);
    case Tuple(xs) => if |xs| == 1 { EqualsThroughAlias(xs[0], b); }
    case _ =>
  }

  /** `Equals` is reflexive on every type. */
  lemma {:induction false} EqualsReflexive(a: Type)
    ensures Equals(a, a)
  {
    match a
    case Primitive(_) =>
    case Tuple(xs) => SeqEqualsReflexive(xs);
    case Array(_, e) => if e.Some? { EqualsReflexive(e.value); }
    case Func(f) => SeqEqualsReflexive(f.result); SeqEqualsReflexive(f.params);
    case Ref(x) => EqualsReflexive(x);
    case Alias(x, _) =>
      EqualsReflexive(x);
      EqualsThroughAlias(x, a);
      EqualsThroughAlias(x, x);
    case TypeDesc(x) => EqualsReflexive(x);
  }

  lemma {:induction false} SeqEqualsReflexive(xs: seq<Type>)
    ensures SeqEquals(xs, xs)
  {
    forall i | 0 <= i < |xs| ensures Equals(xs[i], xs[i]) {
      EqualsReflexive(xs[i]);
    }
  }

  /** Two tuples are equal exactly when they are element-wise equal, which is what `Func.Equals` compares. */
  lemma TupleEqualsElementwise(xs: seq<Type>, ys: seq<Type>)
    ensures Equals(Tuple(xs), Tuple(ys)) == SeqEquals(xs, ys)
  {
  }

  /** A tuple equals the empty tuple, unit, exactly when it is empty itself. */
  lemma EqualsUnitIffEmpty(xs: seq<Type>)
    ensures Equals(Tuple(xs), Unit) <==> xs == []
  {
    assert Underlying(Unit) == Unit && !IsOneTuple(Unit);
    assert Equals(Tuple(xs), Unit) == EqualsShape(Tuple(xs), Unit) == SeqEquals(xs, []);
  }

  /**
   * `Func.Equals` of types/func.go: against a primitive it holds exactly
   * when that primitive is `Any`; against a function it compares the
   * variadic flags, the results and the parameters; against anything else
   * it is false.
   */
  lemma FuncEqualsRule(f: FuncType, b: Type)
    ensures Underlying(b).Primitive? ==> (Equals(Func(f), b) <==> Underlying(b).kind == Any)
    ensures Underlying(b).Func? ==>
      var g := Underlying(b).fn;
      (Equals(Func(f), b) <==> f.variadic == g.variadic && SeqEquals(f.result, g.result) && SeqEquals(f.params, g.params))
    ensures !Underlying(b).Primitive? && !Underlying(b).Func? ==> !Equals(Func(f), b)
  {
  }

  /**
   * A one-element tuple equals `t` exactly when its element does, for any
   * `t` that is not a tuple.  The other way round, `t` equals the tuple
   * exactly when it equals the element at one level, for a `t` that is not
   * a tuple, a function or an alias.
   */
  lemma OneTupleEqualsElement(x: Type, t: Type)
    requires !Underlying(t).Tuple?
    ensures Equals(Tuple([x]), t) == Equals(x, t)
    ensures !t.Tuple? && !t.Func? && !t.Alias? ==> Equals(t, Tuple([x])) == EqualsShape(t, x)
  {
  }

  /** A function type never equals a tuple, not even a one-element tuple of itself, as `Func.Equals` says. */
  lemma FuncNeverEqualsTuple(f: FuncType, xs: seq<Type>)
    ensures !Equals(Func(f), Tuple(xs))
  {
  }

  /**
   * `t.String()`.  The `Func` case is that of types/func.go: "func", the
   * parameter tuple, then the result after a space unless it is unit, a
   * one-element result printed without its parentheses.  The other cases
   * are assumed.
   */
  function TypeString(t: Type): string
    decreases t, 1
  {
    match t
    case Primitive(k) => KindString(k)
    case Tuple(xs) => "(" + JoinTypes(xs) + ")"
    case Array(n, e) =>
      "[" + (if n < 0 then "_" else IntToString(n)) + "]"
      + (match e case Some(x) => TypeString(x) case None => "<nil>")
    case Func(f) =>
      "func" + "(" + JoinTypes(f.params) + ")"
      + (if SeqEquals(f.result, []) then ""
         else if |f.result| == 1 then " " + TypeString(f.result[0])
         else " " + "(" + JoinTypes(f.result) + ")")
    case Ref(b) => "&" + TypeString(b)
    case Alias(_, name) => name
    case TypeDesc(b) => "typedesc(" + TypeString(b) + ")"
  }

  /** The elements of a tuple, separated by a comma and a space. */
  function JoinTypes(xs: seq<Type>): string
    decreases xs, 0
  {
    if xs == [] then ""
    else if |xs| == 1 then TypeString(xs[0])
    else TypeString(xs[0]) + ", " + JoinTypes(xs[1..])
  }
}
