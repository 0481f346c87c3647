/**
 * The symbol of a type alias declaration (checker/type_alias.go): the
 * scope it is declared in, the alias type it introduces, its declaration
 * and its identifier.
 */
module TypeAliases {
  import opened Wrappers
  import opened Types
  import opened Ast
  import opened Scopes

  class TypeAlias {
    const owner: Scope
    var t: Type
    const node: Node
    const name: Ident

    /** The symbol stands for an alias declaration, and its alias carries the declared name. */
    predicate Valid()
      reads this
    {
      node.TypeAliasDecl? && name == node.name && t.Alias? && t.name == name.name
    }

    /** `NewTypeAlias`: the alias of the described type under the declaration's name. */
    constructor (owner: Scope, desc: Type, node: Node)
      requires desc.TypeDesc? && node.TypeAliasDecl?
      ensures Owner() == owner && Node() == node && Ident() == node.name
      ensures t == Alias(desc.base, node.name.name)
      ensures Valid()
    {
      this.owner := owner;
      t := Alias(desc.base, node.name.name);
      this.node := node;
      name := node.name;
    }

    /** `Owner()`: the scope the alias is declared in, fixed when the symbol is made. */
    function Owner(): Scope { owner }

    /** `Type()`: an alias symbol always denotes a type, the alias itself. */
    function Type(): (r: Types.Type)
      reads this
      ensures IsTypeDesc(r) && SkipTypeDesc(r) == t
    {
      TypeDesc(t)
    }

    /** `Name()`: the identifier's name, which is also the name the alias type carries. */
    function Name(): (r: string)
      reads this
      requires Valid()
      ensures r == Ident().name && r == t.name
    {
      name.name
    }

    /** `Ident()`: the declaration's own identifier, whose name the alias type carries. */
    function Ident(): (r: Ast.Ident)
      reads this
      ensures Valid() ==> r == node.name && r.name == t.name
    {
      name
    }

    /** `Node()`: the alias declaration the symbol was made from. */
    function Node(): (r: Ast.Node)
      reads this
      ensures Valid() ==> r.TypeAliasDecl? && r.name == name
    {
      node
    }

    /** `setType`: the alias now stands for the type described by `t`, under the same name. */
    method SetType(t: Types.Type)
      requires Valid()
      modifies this
      ensures this.t == Alias(SkipTypeDesc(t), old(Name()))
      ensures Ident() == old(Ident()) && Node() == old(Node())
      ensures Valid()
    {
      this.t := Alias(SkipTypeDesc(t), Name());
    }
  }
}
