/**
 * The block checker of checker/block.go: a block holds the scope it
 * defines names in and the type of the statement it saw last.  The brace
 * case of `Scope.TypeOf` creates one over the current scope and visits
 * each statement in order.
 */
module Blocks {
  import opened Wrappers
  import opened Types
  import opened Ast
  import opened Scopes
  import Inference
  import opened InferenceRules

  class Block {
    var scope: Scope
    var t: Option<Type>

    /** `NewBlock`: a block starts with the unit type. */
    constructor (scope: Scope)
      ensures this.scope == scope && t == Some(Unit)
    {
      this.scope := scope;
      t := Some(Unit);
    }

    /**
     * `Block.visit`.  The returned value is the visitor's error, `Ok(None)`
     * for none; a failure leaves the block's type as it was.
     */
    method Visit(node: Node, tbl: seq<Inference.BuiltIn>) returns (err: Inference.Checked)
      modifies this
      ensures match Inference.Visit(old(scope), node, tbl)
        case Continue(s1, t1) => err == Inference.Ok(None) && scope == s1 && t == t1
        case Stop(s1, r) => err == r && scope == s1 && t == old(t)
      ensures err.Ok? ==> err.t.None?
    {
      if node.VarDecl? {
        var d := Inference.VarDeclType(scope, node, tbl);
        if !d.r.Ok? {
          scope := d.scope;
          return d.r;
        }
        var sym := Var(node.binding.name, d.r.t);
        var (s1, defined) := Define(d.scope, sym);
        scope := s1;
        if defined.Some? {
          return Inference.Err(None, node.binding.name.id, Inference.AlreadyDefined(node.binding.name, defined.value.ident));
        }
        t := Some(Unit);
        return Inference.Ok(None);
      } else if IsDecl(node) {
        return Inference.Internal("declaration not implemented in a block");
      }
      var e := Inference.TypeOf(scope, node, tbl);
      scope := e.scope;
      if !e.r.Ok? {
        return e.r;
      }
      t := e.r.t;
      return Inference.Ok(None);
    }
  }

  /** The brace case of `Scope.TypeOf`: a new block over the same scope, visited statement by statement. */
  method CheckBlock(s: Scope, b: Curly, tbl: seq<Inference.BuiltIn>) returns (res: Inference.Step)
    ensures res == Inference.TypeOfCurly(s, b, tbl)
  {
    var block := new Block(s);
    var i := 0;
    while i < |b.nodes|
      invariant 0 <= i <= |b.nodes|
      invariant Inference.TypeOfCurly(s, b, tbl) == Inference.BlockFrom(block.scope, b, i, block.t, tbl)
    {
      var err := block.Visit(b.nodes[i], tbl);
      if !err.Ok? {
        return Inference.Step(block.scope, Inference.Drop(err));
      }
      i := i + 1;
    }
    return Inference.Step(block.scope, Inference.Ok(block.t));
  }

  /** An empty block has the unit type and leaves the scope as it was. */
  lemma EmptyBlockIsUnit(s: Scope, id: NodeId, tbl: seq<Inference.BuiltIn>)
    ensures Inference.TypeOf(s, CurlyList(Curly(id, [])), tbl) == Inference.Step(s, Inference.Ok(Some(Unit)))
  {
    var b := Curly(id, []);
    assert Inference.TypeOf(s, CurlyList(b), tbl) == Inference.TypeOfCurly(s, b, tbl);
    assert Inference.TypeOfCurly(s, b, tbl) == Inference.BlockFrom(s, b, 0, Some(Unit), tbl);
  }

  /**
   * One visit: a variable declaration makes the type unit, any other
   * statement gives its own type.  A declaration whose type does not
   * resolve stops before anything is defined; one whose name is already
   * in the scope is refused, naming both identifiers, and leaves the
   * scope as it was; otherwise the variable with its resolved type is
   * added under its name.
   */
  lemma VisitRules(s: Scope, node: Node, tbl: seq<Inference.BuiltIn>)
    ensures var v := Inference.Visit(s, node, tbl);
      && (!node.VarDecl? && !IsDecl(node) ==>
            var e := Inference.TypeOf(s, node, tbl);
            v == if e.r.Ok? then Inference.Continue(e.scope, e.r.t) else Inference.Stop(e.scope, e.r))
      && (IsDecl(node) && !node.VarDecl? ==> v.Stop? && v.r.Internal? && v.scope == s)
      && (node.VarDecl? ==>
            var d := Inference.VarDeclType(s, node, tbl);
            var name := node.binding.name;
            && (v.Continue? ==> v.t == Some(Unit))
            && (!d.r.Ok? ==> v == Inference.Stop(d.scope, d.r))
            && (d.r.Ok? && name.name in d.scope.table ==>
                  v == Inference.Stop(d.scope, Inference.Err(None, name.id, Inference.AlreadyDefined(name, d.scope.table[name.name].ident))))
            && (d.r.Ok? && name.name !in d.scope.table ==>
                  && v.Continue?
                  && v.scope.parent == d.scope.parent
                  && v.scope.table == d.scope.table[name.name := Var(name, d.r.t)]
                  && Lookup(v.scope, name.name) == Some(Var(name, d.r.t))))
  {
  }

  /**
   * A block that type-checks has the type its last statement's visit
   * produced, in a scope grown from the block's starting scope.
   */
  lemma {:induction false} BlockTypeIsLastStatement(s: Scope, b: Curly, i: nat, t: Option<Type>, tbl: seq<Inference.BuiltIn>)
    requires i < |b.nodes|
    ensures var res := Inference.BlockFrom(s, b, i, t, tbl);
      res.r.Ok? ==>
        exists s1 :: Extends(s, s1) &&
          Inference.Visit(s1, b.nodes[|b.nodes| - 1], tbl) == Inference.Continue(res.scope, res.r.t)
    decreases |b.nodes| - i
  {
    var res := Inference.BlockFrom(s, b, i, t, tbl);
    if res.r.Ok? {
      match Inference.Visit(s, b.nodes[i], tbl)
      case Continue(s1, t1) =>
        if i + 1 == |b.nodes| {
          assert res == Inference.BlockFrom(s1, b, i + 1, t1, tbl) == Inference.Step(s1, Inference.Ok(t1));
          assert Extends(s, s);
        } else {
          BlockTypeIsLastStatement(s1, b, i + 1, t1, tbl);
          var s2 :| Extends(s1, s2) &&
            Inference.Visit(s2, b.nodes[|b.nodes| - 1], tbl) == Inference.Continue(res.scope, res.r.t);
          ExtendsTransitive(s, s1, s2);
        }
      case Stop(_, _) =>
    }
  }

  /** Hence a block ending in a variable declaration has the unit type. */
  lemma BlockEndingInDeclIsUnit(s: Scope, b: Curly, tbl: seq<Inference.BuiltIn>)
    requires |b.nodes| > 0 && b.nodes[|b.nodes| - 1].VarDecl?
    ensures Inference.TypeOf(s, CurlyList(b), tbl).r.Ok? ==> Inference.TypeOf(s, CurlyList(b), tbl).r.t == Some(Unit)
  {
    var res := Inference.BlockFrom(s, b, 0, Some(Unit), tbl);
    BlockTypeIsLastStatement(s, b, 0, Some(Unit), tbl);
    if res.r.Ok? {
      var s1 :| Extends(s, s1) &&
        Inference.Visit(s1, b.nodes[|b.nodes| - 1], tbl) == Inference.Continue(res.scope, res.r.t);
      VisitRules(s1, b.nodes[|b.nodes| - 1], tbl);
    }
  }
}
