/**
 * Symbols and lexical scopes.  The scope's internals are not part of this
 * model's sources; from the uses in checker/block.go and
 * checker/type_resolver.go a scope is a table from names to symbols with
 * a parent, looked up along the parent chain, and `Define` hands back the
 * symbol already under the name without touching the table.
 */
module Scopes {
  import opened Wrappers
  import opened Types
  import opened Ast

  /** The symbols a scope can hold, with the type each reports (nil while unresolved). */
  datatype Symbol =
    | Var(ident: Ident, t: Option<Type>)
    | FuncSym(ident: Ident, t: Option<Type>)
    | TypeAliasSym(ident: Ident, alias: Type)
    | StructSym(ident: Ident, t: Option<Type>)
    | EnumSym(ident: Ident, t: Option<Type>)

  function SymType(sym: Symbol): (r: Option<Type>)
    ensures sym.TypeAliasSym? ==> r.Some? && r.value.TypeDesc?
  {
    match sym
    case TypeAliasSym(_, a) => Some(TypeDesc(a))
    case _ => sym.t
  }

  function SymName(sym: Symbol): string { sym.ident.name }

  datatype Scope = Scope(table: map<string, Symbol>, parent: Option<Scope>)

  /** `Scope.Lookup`: this scope's table first, then the parent chain. */
  function Lookup(s: Scope, name: string): (r: Option<Symbol>)
    ensures name in s.table ==> r == Some(s.table[name])
    ensures r.None? ==> name !in s.table
  {
    if name in s.table then Some(s.table[name])
    else if s.parent.Some? then Lookup(s.parent.value, name)
    else None
  }

  /** `Scope.Define`: the previous symbol of that name, or the scope with the new one added. */
  function Define(s: Scope, sym: Symbol): (r: (Scope, Option<Symbol>))
    ensures SymName(sym) in s.table ==> r == (s, Some(s.table[SymName(sym)]))
    ensures SymName(sym) !in s.table ==>
      && r.1.None?
      && r.0.parent == s.parent
      && r.0.table == s.table[SymName(sym) := sym]
  {
    if SymName(sym) in s.table then (s, Some(s.table[SymName(sym)]))
    else (s.(table := s.table[SymName(sym) := sym]), None)
  }

  /** `s2` is `s1` with possibly more names defined in its own table. */
  ghost predicate Extends(s1: Scope, s2: Scope) {
    && s2.parent == s1.parent
    && s1.table.Keys <= s2.table.Keys
    && forall k :: k in s1.table ==> s2.table[k] == s1.table[k]
  }

  lemma ExtendsTransitive(s1: Scope, s2: Scope, s3: Scope)
    requires Extends(s1, s2) && Extends(s2, s3)
    ensures Extends(s1, s3)
  {
  }

  /** Defining never overwrites: the scope only grows. */
  lemma DefineExtends(s: Scope, sym: Symbol)
    ensures Extends(s, Define(s, sym).0)
  {
  }

  /** A fresh definition shadows any outer symbol of the same name. */
  lemma DefineShadows(s: Scope, sym: Symbol)
    requires SymName(sym) !in s.table
    ensures Lookup(Define(s, sym).0, SymName(sym)) == Some(sym)
    ensures forall n :: n != SymName(sym) ==> Lookup(Define(s, sym).0, n) == Lookup(s, n)
  {
  }

  /** A second definition of a name in the same scope is refused, naming the first. */
  lemma RedefinitionRefused(s: Scope, first: Symbol, second: Symbol)
    requires SymName(first) == SymName(second) && SymName(first) !in s.table
    ensures var s1 := Define(s, first).0;
      Define(s1, second) == (s1, Some(first))
  {
  }
}
