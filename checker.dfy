/**
 * The checker's tables (checker/checker.go): `module.Types` memoises the
 * type and value found for each node, `Defs` and `Uses` map identifiers
 * to the symbols they define and use, `TypeSyms` maps the types of
 * struct and enum symbols back to them.  Nodes and identifiers are keyed
 * by their ids.  `typeOfInternal` and `valueOfInternal`, the actual
 * analyses, are not part of this model and are passed in as functions.
 */
module Checkers {
  import opened Wrappers
  import opened Types
  import opened Ast
  import opened Scopes
  import opened Inference

  type TypeTable = map<NodeId, TypedValue>

  /** Every entry of `module.Types` has a type: `setType` and `setValue` only store typed entries. */
  predicate TableValid(types: TypeTable) {
    forall id :: id in types ==> types[id].t.Some?
  }

  /** `setType`: replace the entry's type, keeping the value an earlier entry had. */
  function SetTypeIn(types: TypeTable, id: NodeId, t: Type): (m: TypeTable)
    ensures id in m && m[id].t == Some(t)
    ensures m[id].value == (if id in types then types[id].value else None)
    ensures m.Keys == types.Keys + {id}
    ensures forall k :: k in types && k != id ==> m[k] == types[k]
    ensures TableValid(types) ==> TableValid(m)
  {
    if id in types then types[id := TypedValue(Some(t), types[id].value)]
    else types[id := TypedValue(Some(t), None)]
  }

  /** `valueOf`: the memoised entry if there is one; otherwise the analysis, whose value is memoised. */
  function ValueOfIn(types: TypeTable, e: Node, valueOfInternal: Node -> Option<TypedValue>): (res: (Option<TypedValue>, TypeTable))
    requires IdOf(e) !in types && valueOfInternal(e).Some? ==> valueOfInternal(e).value.t.Some?
    ensures IdOf(e) in types ==> res == (Some(types[IdOf(e)]), types)
    ensures IdOf(e) !in types ==> res.0 == valueOfInternal(e)
    ensures res.0.Some? <==> IdOf(e) in res.1
    ensures res.0.Some? ==> res.1[IdOf(e)] == res.0.value
    ensures forall k :: k != IdOf(e) ==> (k in res.1 <==> k in types) && (k in types ==> res.1[k] == types[k])
    ensures TableValid(types) ==> TableValid(res.1)
  {
    if IdOf(e) in types then (Some(types[IdOf(e)]), types)
    else match valueOfInternal(e)
      case Some(v) => (Some(v), types[IdOf(e) := v])
      case None => (None, types)
  }

  /**
   * `typeOf`: the type of the value `valueOf` finds, if any; only
   * otherwise the type analysis runs, and a type it finds is stored.
   */
  function TypeOfIn(types: TypeTable, e: Node, typeOfInternal: Node -> Option<Type>, valueOfInternal: Node -> Option<TypedValue>): (res: (Option<Type>, TypeTable))
    requires IdOf(e) !in types && valueOfInternal(e).Some? ==> valueOfInternal(e).value.t.Some?
    ensures IdOf(e) in types ==> res == (types[IdOf(e)].t, types)
    ensures IdOf(e) !in types && valueOfInternal(e).Some? ==> res == (valueOfInternal(e).value.t, types[IdOf(e) := valueOfInternal(e).value])
    ensures IdOf(e) !in types && valueOfInternal(e).None? ==>
      && res.0 == typeOfInternal(e)
      && res.1 == if res.0.Some? then types[IdOf(e) := TypedValue(res.0, None)] else types
  {
    var (v, m) := ValueOfIn(types, e, valueOfInternal);
    if v.Some? then (v.value.t, m)
    else match typeOfInternal(e)
      case Some(t) => (Some(t), SetTypeIn(m, IdOf(e), t))
      case None => (None, m)
  }

  /** Asking again for a type that was found gives it back from the table, with nothing changed. */
  lemma TypeOfMemoised(types: TypeTable, e: Node, typeOfInternal: Node -> Option<Type>, valueOfInternal: Node -> Option<TypedValue>)
    requires IdOf(e) !in types && valueOfInternal(e).Some? ==> valueOfInternal(e).value.t.Some?
    ensures var (t, m) := TypeOfIn(types, e, typeOfInternal, valueOfInternal);
      t.Some? ==> TypeOfIn(m, e, typeOfInternal, valueOfInternal) == (t, m)
  {
  }

  /** `typeOf` keeps every entry typed and touches no other node's entry. */
  lemma TypeOfKeepsTable(types: TypeTable, e: Node, typeOfInternal: Node -> Option<Type>, valueOfInternal: Node -> Option<TypedValue>)
    requires IdOf(e) !in types && valueOfInternal(e).Some? ==> valueOfInternal(e).value.t.Some?
    ensures var (t, m) := TypeOfIn(types, e, typeOfInternal, valueOfInternal);
      && (TableValid(types) ==> TableValid(m))
      && (TableValid(types) && IdOf(e) in m ==> t.Some?)
      && (forall k :: k != IdOf(e) && k in types ==> k in m && m[k] == types[k])
  {
  }

  predicate IsTypeSymbol(sym: Symbol) {
    sym.StructSym? || sym.EnumSym?
  }

  class Module {
    var types: TypeTable
    var defs: map<NodeId, Symbol>
    var uses: map<NodeId, Symbol>
    var typeSyms: map<Type, Symbol>

    constructor ()
      ensures types == map[] && defs == map[] && uses == map[] && typeSyms == map[]
    {
      types := map[];
      defs := map[];
      uses := map[];
      typeSyms := map[];
    }
  }

  /** The checker state that the table updates touch: the module being checked and the current scope. */
  class Checker {
    const mod: Module
    var scope: Option<Scope>

    constructor (mod: Module, scope: Scope)
      ensures this.mod == mod && this.scope == Some(scope)
    {
      this.mod := mod;
      this.scope := Some(scope);
    }

    /** `setScope`: the new scope may not be nil. */
    method SetScope(s: Option<Scope>)
      requires s.Some?
      modifies this
      ensures scope == s
    {
      scope := s;
    }

    /** `setType`: the entry's type is replaced and its value kept; no other table changes. */
    method SetType(expr: Node, t: Type)
      modifies mod
      ensures mod.types == SetTypeIn(old(mod.types), IdOf(expr), t)
      ensures mod.defs == old(mod.defs) && mod.uses == old(mod.uses) && mod.typeSyms == old(mod.typeSyms)
    {
      var id := IdOf(expr);
      if id in mod.types {
        var prev := mod.types[id];
        mod.types := mod.types[id := TypedValue(Some(t), prev.value)];
      } else {
        mod.types := mod.types[id := TypedValue(Some(t), None)];
      }
    }

    /** `setValue`: a value with a type overwrites the whole entry. */
    method SetValue(expr: Node, value: TypedValue)
      requires value.t.Some?
      modifies mod
      ensures mod.types == old(mod.types)[IdOf(expr) := value]
      ensures TableValid(old(mod.types)) ==> TableValid(mod.types)
      ensures mod.defs == old(mod.defs) && mod.uses == old(mod.uses) && mod.typeSyms == old(mod.typeSyms)
    {
      mod.types := mod.types[IdOf(expr) := value];
    }

    /** `valueOf`. */
    method ValueOf(expr: Node, valueOfInternal: Node -> Option<TypedValue>) returns (v: Option<TypedValue>)
      requires IdOf(expr) !in mod.types && valueOfInternal(expr).Some? ==> valueOfInternal(expr).value.t.Some?
      modifies mod
      ensures (v, mod.types) == ValueOfIn(old(mod.types), expr, valueOfInternal)
      ensures mod.defs == old(mod.defs) && mod.uses == old(mod.uses) && mod.typeSyms == old(mod.typeSyms)
    {
      if IdOf(expr) in mod.types {
        return Some(mod.types[IdOf(expr)]);
      }
      v := valueOfInternal(expr);
      if v.Some? {
        SetValue(expr, v.value);
      }
    }

    /** `typeOf`. */
    method TypeOf(expr: Node, typeOfInternal: Node -> Option<Type>, valueOfInternal: Node -> Option<TypedValue>) returns (t: Option<Type>)
      requires IdOf(expr) !in mod.types && valueOfInternal(expr).Some? ==> valueOfInternal(expr).value.t.Some?
      modifies mod
      ensures (t, mod.types) == TypeOfIn(old(mod.types), expr, typeOfInternal, valueOfInternal)
      ensures mod.defs == old(mod.defs) && mod.uses == old(mod.uses) && mod.typeSyms == old(mod.typeSyms)
    {
      var v := ValueOf(expr, valueOfInternal);
      if v.Some? {
        return v.value.t;
      }
      t := typeOfInternal(expr);
      if t.Some? {
        SetType(expr, t.value);
      }
    }

    /**
     * `newDef`.  The definition is recorded, replacing an earlier one
     * (which only draws a warning, reported as `redefined`); a struct or
     * enum symbol is also recorded under the type it describes, which
     * fails (`crashed`) when the symbol has no type yet.
     */
    method NewDef(ident: Ident, sym: Symbol) returns (redefined: bool, crashed: bool)
      modifies mod
      ensures mod.defs == old(mod.defs)[ident.id := sym]
      ensures redefined <==> ident.id in old(mod.defs)
      ensures crashed <==> IsTypeSymbol(sym) && SymType(sym).None?
      ensures IsTypeSymbol(sym) && SymType(sym).Some? ==>
        mod.typeSyms == old(mod.typeSyms)[SkipTypeDesc(SymType(sym).value) := sym]
      ensures !IsTypeSymbol(sym) || SymType(sym).None? ==> mod.typeSyms == old(mod.typeSyms)
      ensures mod.types == old(mod.types) && mod.uses == old(mod.uses)
    {
      redefined := ident.id in mod.defs;
      mod.defs := mod.defs[ident.id := sym];
      crashed := false;
      if IsTypeSymbol(sym) {
        var t := SymType(sym);
        if t.None? {
          crashed := true;
          return;
        }
        mod.typeSyms := mod.typeSyms[SkipTypeDesc(t.value) := sym];
      }
    }

    /** `newUse`: the identifier may not be a definition; the use is recorded and nothing else changes. */
    method NewUse(ident: Ident, sym: Symbol)
      requires ident.id !in mod.defs
      modifies mod
      ensures mod.uses == old(mod.uses)[ident.id := sym]
      ensures mod.types == old(mod.types) && mod.defs == old(mod.defs) && mod.typeSyms == old(mod.typeSyms)
    {
      mod.uses := mod.uses[ident.id := sym];
    }
  }
}
