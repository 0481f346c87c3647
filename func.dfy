/**
 * Function types (types/func.go): construction, the argument check that
 * calls and built-in calls rely on, ordinal numbers for its messages, and
 * the rendering of a function type.
 */
module Funcs {
  import opened Wrappers
  import opened Decimal
  import opened Types

  /** `NewFunc`: a nil result or nil parameter tuple stands for unit. */
  function NewFunc(result: Option<seq<Type>>, params: Option<seq<Type>>, variadic: bool): (f: FuncType)
    ensures f.result == (if result.None? then Unit.elems else result.value)
    ensures f.params == (if params.None? then Unit.elems else params.value)
    ensures f.variadic == variadic
  {
    FuncType(params.GetOr([]), result.GetOr([]), variadic)
  }

  /** Passing nil or passing unit builds the same function type. */
  lemma NewFuncNilIsUnit(result: Option<seq<Type>>, params: Option<seq<Type>>, variadic: bool)
    requires result.None? || result.value == []
    requires params.None? || params.value == []
    ensures NewFunc(result, params, variadic) == NewFunc(Some([]), Some([]), variadic)
    ensures Equals(Func(NewFunc(result, params, variadic)), Func(FuncType([], [], variadic)))
  {
    EqualsReflexive(Func(FuncType([], [], variadic)));
  }

  // The accessors `Result`, `Params` and `Variadic` are the fields of `FuncType`.

  /** Go's `%` truncates toward zero, so a negative dividend leaves a non-positive remainder. */
  function GoRem(a: int, m: int): (r: int)
    requires m > 0
    ensures a >= 0 ==> r == a % m
    ensures a < 0 ==> -m < r <= 0
  {
    if a >= 0 then a % m else -((-a) % m)
  }

  /** `ordinalize`: the numeral followed by its English ordinal suffix. */
  function Ordinalize(num: int): string
  {
    var s := IntToString(num);
    match GoRem(num, 100)
    case 11 => s + "th"
    case 12 => s + "th"
    case 13 => s + "th"
    case _ =>
      match GoRem(num, 10)
      case 1 => s + "st"
      case 2 => s + "nd"
      case 3 => s + "rd"
      case _ => s + "th"
  }

  /** The suffix rule for non-negative numbers, and "th" for every negative one. */
  lemma OrdinalizeSuffix(n: int)
    ensures var suffix := Ordinalize(n)[|IntToString(n)|..];
      && Ordinalize(n) == IntToString(n) + suffix
      && (n < 0 ==> suffix == "th")
      && (n >= 0 && n % 100 in {11, 12, 13} ==> suffix == "th")
      && (n >= 0 && n % 100 !in {11, 12, 13} ==>
            suffix == (if n % 10 == 1 then "st" else if n % 10 == 2 then "nd"
                       else if n % 10 == 3 then "rd" else "th"))
  {
  }

  /** The numeral in front of the suffix reads back as the number. */
  lemma OrdinalizeNumeral(n: nat)
    ensures |Ordinalize(n)| == |NatToString(n)| + 2
    ensures Ordinalize(n)[..|NatToString(n)|] == NatToString(n)
    ensures ParseNat(Ordinalize(n)[..|NatToString(n)|]) == n
  {
    ParseNatToString(n);
  }

  lemma OrdinalizeUnitsExamples()
    ensures Ordinalize(1) == "1st" && Ordinalize(2) == "2nd" && Ordinalize(3) == "3rd"
    ensures Ordinalize(4) == "4th" && Ordinalize(-1) == "-1th"
  {
  }

  lemma OrdinalizeTeensExamples()
    ensures Ordinalize(11) == "11th" && Ordinalize(12) == "12th" && Ordinalize(13) == "13th"
    ensures Ordinalize(21) == "21st" && Ordinalize(22) == "22nd"
  {
    assert NatToString(11) == "11" && NatToString(12) == "12" && NatToString(13) == "13";
    assert NatToString(21) == "21" && NatToString(22) == "22";
  }

  lemma OrdinalizeHundredsExample()
    ensures Ordinalize(111) == "111th" && Ordinalize(101) == "101st"
  {
    assert NatToString(11) == "11" && NatToString(10) == "10";
    assert NatToString(111) == "111" && NatToString(101) == "101";
  }

  datatype ArgError =
    | TooManyArguments(expected: nat, got: nat)
    | NotEnoughArguments(expected: nat, got: nat)
      /** `ordinal` names the argument's position counted from one. */
    | ArgumentMismatch(param: Type, ordinal: string, actual: Type)

  function Min(a: int, b: int): int { if a <= b then a else b }
  function Max(a: int, b: int): int { if a >= b then a else b }

  /**
   * The result of `CheckArgs(args)` on a function with parameters `f.params`:
   * a fault index and an error, or -1 and no error.
   */
  function ArgFault(f: FuncType, args: seq<Type>): (res: (int, Option<ArgError>))
    ensures |f.params| != |args| ==> res.0 == Min(|f.params|, |args|) && res.1.Some?
    ensures |f.params| < |args| ==> res.1 == Some(TooManyArguments(|f.params|, |args|))
    ensures |f.params| > |args| ==> res.1 == Some(NotEnoughArguments(|f.params|, |args|))
    ensures (res.0 == -1 && res.1.None?) <==> (|f.params| == |args| && SeqEquals(args, f.params))
    ensures res.1.Some? <==> res.0 != -1
    ensures res.1.Some? ==> 0 <= res.0 < Max(|f.params|, |args|)
    ensures |f.params| == |args| && res.0 >= 0 ==>
      && !Equals(args[res.0], f.params[res.0])
      && (forall j :: 0 <= j < res.0 ==> Equals(args[j], f.params[j]))
      && res.1 == Some(ArgumentMismatch(f.params[res.0], Ordinalize(res.0 + 1), args[res.0]))
  {
    var diff := |f.params| - |args|;
    if diff < 0 then
      (Min(|f.params|, |args|), Some(TooManyArguments(|f.params|, |args|)))
    else if diff > 0 then
      (Min(|f.params|, |args|), Some(NotEnoughArguments(|f.params|, |args|)))
    else
      FirstMismatch(f.params, args, 0)
  }

  /** The first position from `i` on where an argument does not equal its parameter. */
  function FirstMismatch(params: seq<Type>, args: seq<Type>, i: nat): (res: (int, Option<ArgError>))
    requires |params| == |args| && i <= |args|
    ensures res.1.None? <==> res.0 == -1
    ensures res.0 == -1 ==> forall j :: i <= j < |args| ==> Equals(args[j], params[j])
    ensures res.0 != -1 ==>
      && i <= res.0 < |args|
      && !Equals(args[res.0], params[res.0])
      && (forall j :: i <= j < res.0 ==> Equals(args[j], params[j]))
      && res.1 == Some(ArgumentMismatch(params[res.0], Ordinalize(res.0 + 1), args[res.0]))
    decreases |args| - i
  {
    if i == |args| then (-1, None)
    else if !Equals(args[i], params[i]) then (i, Some(ArgumentMismatch(params[i], Ordinalize(i + 1), args[i])))
    else FirstMismatch(params, args, i + 1)
  }

  /** `CheckArgs` never reads the variadic flag: arity is always exact. */
  lemma ArgFaultIgnoresVariadic(f: FuncType, args: seq<Type>, variadic: bool)
    ensures ArgFault(f, args) == ArgFault(f.(variadic := variadic), args)
    ensures f.variadic && |args| > |f.params| ==> ArgFault(f, args).1.Some?
  {
  }

  /** `Func.CheckArgs`: the arity test, then the loop over the positions. */
  method CheckArgs(f: FuncType, args: seq<Type>) returns (idx: int, err: Option<ArgError>)
    ensures (idx, err) == ArgFault(f, args)
    ensures err.None? <==> idx == -1
    ensures err.None? <==> (|f.params| == |args| && SeqEquals(args, f.params))
  {
    var diff := |f.params| - |args|;
    if diff < 0 {
      return Min(|f.params|, |args|), Some(TooManyArguments(|f.params|, |args|));
    }
    if diff > 0 {
      return Min(|f.params|, |args|), Some(NotEnoughArguments(|f.params|, |args|));
    }
    var i := 0;
    while i < |args|
      invariant 0 <= i <= |args|
      invariant FirstMismatch(f.params, args, 0) == FirstMismatch(f.params, args, i)
    {
      var expected, actual := f.params[i], args[i];
      if !Equals(actual, expected) {
        return i, Some(ArgumentMismatch(expected, Ordinalize(i + 1), actual));
      }
      i := i + 1;
    }
    return -1, None;
  }

  /** The layout of a function type's text, with "the result is not unit" read as "the result is not empty". */
  lemma FuncStringLayout(f: FuncType)
    ensures TypeString(Func(f)) ==
      "func" + TypeString(Tuple(f.params))
      + (if f.result == [] then ""
         else if |f.result| == 1 then " " + TypeString(f.result[0])
         else " " + TypeString(Tuple(f.result)))
  {
    EqualsUnitIffEmpty(f.result);
  }

  /** `Func.String`, built step by step as the source's string builder does. */
  method FuncString(f: FuncType) returns (s: string)
    ensures s == TypeString(Func(f))
    ensures s[..4] == "func" && s[4..4 + |TypeString(Tuple(f.params))|] == TypeString(Tuple(f.params))
    ensures f.result == [] <==> s == "func" + TypeString(Tuple(f.params))
  {
    var buf := "func";
    buf := buf + TypeString(Tuple(f.params));
    if !Equals(Tuple(f.result), Unit) {
      if |f.result| == 1 {
        buf := buf + " ";
        buf := buf + TypeString(f.result[0]);
      } else {
        buf := buf + " ";
        buf := buf + TypeString(Tuple(f.result));
      }
    }
    EqualsUnitIffEmpty(f.result);
    FuncStringLayout(f);
    s := buf;
  }

  /** The names of the two primitive kinds the examples below use. */
  lemma I32AndBoolNames()
    ensures TypeString(Primitive(PrimitiveKinds.I32)) == "i32"
    ensures TypeString(Primitive(PrimitiveKinds.Bool)) == "bool"
  {
    PrimitiveKinds.KindNamesSpelled();
  }

  lemma FuncStringExamples()
    ensures TypeString(Func(FuncType([], [], false))) == "func()"
    ensures TypeString(Func(FuncType([Primitive(6), Primitive(6)], [Primitive(6)], false))) == "func(i32, i32) i32"
  {
    var i32 := Primitive(PrimitiveKinds.I32);
    I32AndBoolNames();
    assert JoinTypes([i32, i32]) == "i32, i32" by {
      assert [i32, i32][1..] == [i32];
    }
    assert !SeqEquals([i32], []);
  }

  lemma FuncStringTupleResult()
    ensures TypeString(Func(FuncType([], [Primitive(5), Primitive(6)], false))) == "func() (bool, i32)"
  {
    var i32, b := Primitive(PrimitiveKinds.I32), Primitive(PrimitiveKinds.Bool);
    I32AndBoolNames();
    assert JoinTypes([b, i32]) == "bool, i32" by {
      assert [b, i32][1..] == [i32];
    }
    assert !SeqEquals([b, i32], []);
  }
}
