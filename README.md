# A model of the Jet semantic checker

Jet is a small language whose front end is written in Go. This project models the core of its
semantic checker in Dafny and proves properties of that model. The modelled parts are:

- **Type inference for expressions and statements** (`Scope.TypeOf` in `checker/type_resolver.go`).
  One rule per node shape: literals, names, array types, paren, bracket and brace lists, prefix,
  infix and postfix operators, calls, indexing, built-in calls, `if`, `while` and signatures.
- **The block checker** (`checker/block.go`). It visits the statements of a brace block in order,
  defines local variables and remembers the type of the last statement.
- **The declaration resolvers** (`checker/resolver.go`). They work out a variable's type from its
  annotation and initializer, and a function's type from its parameters and result before its body
  is checked.
- **The checker's tables** (`checker/checker.go`). The memoised type/value table, definitions, uses
  and the map from struct and enum types back to their symbols.
- **Type alias symbols** (`checker/type_alias.go`).
- **Function types** (`types/func.go`): construction, equality of results and parameters, the
  argument check with its error positions, the ordinal suffixes used in its messages, and the text
  of a function type.
- **Primitive kind names** (`types/primitive_kind_string.go`).

The modules follow the source files:

| module | file | form |
|---|---|---|
| `Inference` | type_resolver.dfy | functions, one per case of `TypeOf`, threading the scope |
| `InferenceRules` | inference_rules.dfy | lemmas stating each typing rule |
| `InferenceLoops` | type_resolver_loops.dfy | the list loops and the built-in lookup as methods, proved equal to the functions |
| `Blocks` | block.dfy | the `Block` class and the brace-block loop |
| `Decls` | resolver.dfy | `resolveVarDecl`, and a `FuncSymbol` class whose `ResolveFuncDecl` updates its scopes and its type |
| `Checkers` | checker.dfy | the `Module` and `Checker` classes over `map` fields |
| `TypeAliases` | type_alias.dfy | the `TypeAlias` class |
| `Funcs` | func.dfy | function types, `CheckArgs`, `ordinalize`, `String` |
| `PrimitiveKinds` | primitive_kind.dfy | kinds and their names |
| `Types`, `Ast`, `Scopes`, `Decimal`, `Wrappers` | types.dfy, ast.dfy, scope.dfy, decimal.dfy, wrappers.dfy | supporting definitions |
| `InferenceExamples` | examples_inference.dfy | small programs and the types they get |

How the Go program is represented:

- **Scopes.** A scope is a value: its own table plus an optional parent. Every inference function
  takes a scope and returns the scope afterwards, because `Scope.Define` inside a block changes the
  scope in place. Every such function proves that the scope only grows (`Extends`).
- **Nil types** are `Option<Type>`. A method called on a nil type in the Go code (`Equals`,
  `Underlying`, a type assertion) panics. The model writes that outcome as `Internal(reason)`, and
  every other panic of the inference, block and declaration code the same way. A nil type handed to
  `types.SkipUntyped` or `types.SkipTypeDesc`, whose code is not part of this model, is taken to
  panic as well. So `[while c {}, 1]` and `(while c {}, 1)` are `Internal` (type_resolver.go:124,
  166). If `SkipUntyped` accepted nil, the bracket loop would instead take the next element's type
  (type_resolver.go:165-168). The `assert.Ok`
  calls of checker.go are different: they are preconditions of the `Checkers.Checker` methods. A
  non-nil scope (checker.go:53), a typed value (:70-72) and an identifier that is not a definition
  (:108) are `requires` clauses there, as is the table invariant that every stored value is typed.
- **Errors** are `Err(partial, at, kind)`. `partial` is the type returned next to the error, `at` is
  the id of the node the error is reported at, and `kind` says which message it is. `return nil, err`
  is `Drop`, which empties `partial`.
- **Built-in functions** are a table parameter of name, signature and evaluator. A later entry
  with the same name wins, as the source's lookup loop has no `break`.
- **State.** `typeOfInternal` and `valueOfInternal`, which `checker.go` calls, are function
  parameters.

Where the Go code behaves otherwise than a reader of its names and comments would expect, the model
follows the code:

- A brace block is checked in the **same** scope as the code around it: `NewBlock` is called with
  the current scope (type_resolver.go:423-435), not a nested one. Names defined in a block therefore
  stay visible after it.
- The `while` case checks the body before the condition (type_resolver.go:535-551), and its check
  on a body that fails with a type can never fire. `Inference.TypeOfWhile` keeps both, and
  `InferenceRules.WhileRule` proves the second.
- The comment at type_resolver.go:12 promises that `TypeOf` never returns a nil type without an
  error. Three successful cases return nil. A `while` returns nil (type_resolver.go:492-493), as a
  loop is a statement without a value. So does a block whose last statement
  is a `while`, and indexing an empty array literal, `[][0]`, whose element type is nil. The model
  keeps these nil results as `Ok(None)`: see `InferenceRules.WhileRule`,
  `InferenceExamples.WhileHasNoType`, `InferenceExamples.BlockEndingInWhile` and
  `InferenceExamples.IndexOfEmptyArray`. A caller that then asks the nil type for a method panics,
  and the model reports that as `Internal`.

The helpers these files call from files that are not part of this model carry an "Assumed" comment
where they are defined: `Equals` for types other than functions, including that a one-element
tuple and its element are equal both ways against a type other than a tuple or a function, the `KindEquals` rule for primitives, `Underlying`, `SkipUntyped`,
`SkipTypeDesc`, the `As*` downcasts, the `String` of other types, and `Scope.Lookup` and
`Scope.Define`. types/types.go, checker/scope.go and the ast package are not part of this model.

Some helpers are definitions the model relies on rather than properties it proves, and they have
no row below. Their contracts only say what they are:

- `Types.WrapInTuple` is the one-element tuple of a type (resolver.go:95).
- `Types.AsPrimitive`, `Types.AsArray`, `Types.AsTuple`, `Types.AsRef` and `Types.AsFunc` are the
  underlying type when it has that shape, and nothing otherwise. `AsFunc` is the one whose Go code
  is modelled, and `Types.AsFuncRules` states it.
- `Inference.Drop` is `return nil, err`: an error is kept with a nil type, and a success is left as
  it is. `InferenceRules.BlockErrorsUntyped` relies on its first half.

## Model

| member | source | states |
|---|---|---|
| Inference.LastBuiltIn | checker/type_resolver.go:382-392 | the index of the last table entry with that name, -1 when none has it |
| Inference.SymbolOf | checker/type_resolver.go:527-533 | the symbol the scope chain finds for the name, or nil; Scopes.Lookup states the lookup and InferenceRules.NameRule its use |
| Inference.TypeOfName | checker/type_resolver.go:24-33 | the name case; InferenceRules.NameRule states the symbol's type as the result and the two errors at the identifier |
| Inference.ArraySize | checker/type_resolver.go:60-84 | the size argument of an array type; InferenceRules.ArraySizeRules states `_`, literals and the other nodes |
| Inference.InfixRule | checker/type_resolver.go:250-283 | the operator step after both operands; InferenceRules.InfixRuleCases states its cases |
| Inference.ArgFaultAt | checker/type_resolver.go:320-327 | where an argument fault is reported: the argument at that index, or the list past its end; InferenceRules.CallRule states it |
| Inference.TupleIndex | checker/type_resolver.go:355-372 | indexing a tuple by an integer literal; InferenceRules.IndexRule states the range check and the element |
| Inference.LastNodeOf | checker/type_resolver.go:460-468 | the last statement of an else branch, where a branch mismatch is reported; InferenceRules.IfRule states it |
| Inference.SignatureTypeAsWritten | checker/type_resolver.go:516 | the signature's function type as written; InferenceRules.SignatureAsWrittenFailsOnTypeList shows that it fails on every list of parameter types |
| Inference.SignatureType | checker/type_resolver.go:516 | the corrected signature type; InferenceRules.SignatureRule states the function of the described parameter tuple and the result |
| Inference.TypeOf | checker/type_resolver.go:13-525 | checking any node leaves a scope that extends the one it started in |
| Inference.TypeOfArrayType | checker/type_resolver.go:53-102 | an array type expression only extends the scope |
| Inference.TypeOfParen | checker/type_resolver.go:104-155 | a paren list only extends the scope |
| Inference.TypeOfParenRest | checker/type_resolver.go:128-155 | a successful element loop gives a tuple with one element per expression, which starts with the elements already collected; in a value tuple no later element is a type |
| Inference.TypeOfBracket | checker/type_resolver.go:157-182 | a success is an array whose size is the number of elements; its element type is nil exactly when the list is empty, and is the first element's type once that is known |
| Inference.TypeOfCurly | checker/type_resolver.go:423-435 | a brace block only extends the scope |
| Inference.BlockFrom | checker/type_resolver.go:427-435 | the statement loop from a position only extends the scope |
| Inference.Visit | checker/block.go:19-61 | one visit only extends the scope, and a visit that stops always carries a failure |
| Inference.VarDeclType | checker/resolver.go:11-54 | resolving a variable declaration only extends the scope |
| Inference.VarDeclInit | checker/resolver.go:31-51 | typing the initializer only extends the scope |
| Inference.TypeOfPrefix | checker/type_resolver.go:184-237 | a prefix operator only extends the scope |
| Inference.TypeOfInfix | checker/type_resolver.go:239-283 | an infix operator only extends the scope |
| Inference.TypeOfPostfix | checker/type_resolver.go:285-302 | a postfix operator only extends the scope |
| Inference.TypeOfCall | checker/type_resolver.go:304-330 | a call only extends the scope |
| Inference.TypeOfIndex | checker/type_resolver.go:332-379 | an index expression only extends the scope |
| Inference.TypeOfBuiltInCall | checker/type_resolver.go:381-421 | a built-in call only extends the scope |
| Inference.TypeOfIf | checker/type_resolver.go:445-490 | an `if` only extends the scope |
| Inference.IfCondition | checker/type_resolver.go:481-490 | the condition check only extends the scope |
| Inference.TypeOfWhile | checker/type_resolver.go:535-551 | a `while` only extends the scope |
| Inference.TypeOfSignature | checker/type_resolver.go:495-517 | a signature only extends the scope |
| InferenceRules.LiteralTypes | checker/type_resolver.go:21-51 | int, float and string literals have the untyped kinds, while `Empty` and `()` are unit; the scope is unchanged |
| InferenceRules.NameRule | checker/type_resolver.go:24-33 | a name has its symbol's type; an unknown name is undefined and a symbol without a type is an error, both at the identifier |
| InferenceRules.ParenListShape | checker/type_resolver.go:104-155 | the first element decides: a type descriptor of the tuple of described types, or a value tuple of concretised, non-type elements, as long as the list; element `k` is kept from the type of expression `k` in the scope the earlier elements left, and is of the first element's kind |
| InferenceRules.ParenRestElements | checker/type_resolver.go:128-155 | a successful element loop from `i` keeps, at every later position, the described or concretised type of that expression in the scope reached there |
| InferenceRules.ParenRestSameKind | checker/type_resolver.go:128-147 | in a successful element loop every element type-checks to a type of the first element's kind |
| InferenceRules.ParenListStep | checker/type_resolver.go:128-155 | an element of the first element's kind continues the loop with what is kept of it appended; a failing element ends it with that failure |
| InferenceRules.ParenListIsTuple | checker/type_resolver.go:104-155 | a successful paren list is a tuple or a type descriptor of a tuple |
| InferenceRules.ParenListMixFails | checker/type_resolver.go:128-147 | an element of the other kind than the first fails at that element |
| InferenceRules.BracketListShape | checker/type_resolver.go:157-182 | the array's size is the element count, and its element type is the first element's concretised type, nil for `[]` |
| InferenceRules.BracketListStep | checker/type_resolver.go:160-179 | a later element that does not equal the element type fails at that element; an equal one continues |
| InferenceRules.ArraySizeRules | checker/type_resolver.go:60-84 | `_` gives -1, a non-negative 32-bit literal gives itself, a negative one and every other node fail at the argument |
| InferenceRules.ArrayTypeRule | checker/type_resolver.go:53-102 | exactly one size argument, and an element that denotes a type; the result describes the array of that size and element |
| InferenceRules.PrefixRules | checker/type_resolver.go:184-237 | negation accepts numeric and `!` boolean operands, keeping their type; `&` gives a reference, to the described type for a type operand |
| InferenceRules.InfixEvaluation | checker/type_resolver.go:239-248 | the left operand is typed, then the right in the scope it left, then the infix rule decides |
| InferenceRules.InfixRuleCases | checker/type_resolver.go:250-283 | unequal operands fail at the node; arithmetic keeps the left type on numbers; comparisons give an untyped or a typed bool on bool and numeric primitives and are an undefined operator on any other type; `=` gives unit; anything else is an undefined operator at the operator |
| InferenceRules.UnwrapRule | checker/type_resolver.go:285-302 | unwrapping a reference gives its base, unwrapping anything else gives unit |
| InferenceRules.CallRule | checker/type_resolver.go:304-330 | the callee must be a function; an argument fault is reported at the faulty argument or at the list; a success has the result type, with the arguments equal to the parameters |
| InferenceRules.IndexRule | checker/type_resolver.go:332-379 | one argument; an array needs an i32 index and gives its element; a tuple needs an in-range integer literal and gives that element; other bases fail |
| InferenceRules.BuiltInCallRule | checker/type_resolver.go:381-421 | the last entry of that name is used, a block argument is refused, the arguments are checked as for a call, and no value means unit |
| InferenceRules.IfConditionRule | checker/type_resolver.go:481-490 | a non-bool condition fails at the condition; otherwise the body's type is the result |
| InferenceRules.IfRule | checker/type_resolver.go:445-490 | the type is the body's; an else branch must agree with it, and a disagreement is reported at the else branch's last statement |
| InferenceRules.BlockErrorsUntyped | checker/block.go:25-28 | every error out of a block carries no type, each `return nil, err` going through `Inference.Drop` |
| InferenceRules.WhileRule | checker/type_resolver.go:535-551 | a `while` succeeds with no type exactly when its body does not fail internally and its condition is bool; its check on a typed failing body never fires |
| InferenceRules.SignatureRule | checker/type_resolver.go:495-517 | a signature describes the function of its parameter tuple, taken out of its type descriptor, and its result, or unit when there is none; once the parameters succeed it fails only at a result that is not a type |
| InferenceRules.SignatureAsWrittenFailsOnTypeList | checker/type_resolver.go:516 | as written, a signature whose parameter list describes types fails the tuple assertion, whatever its result |
| InferenceRules.SignatureOfOneTypeParameter | checker/type_resolver.go:516 | `(i32) i32` fails the assertion as written and is `fn(i32) i32` under the corrected rule |
| InferenceRules.AliasNameRule | checker/type_resolver.go:24-31 | an identifier naming a type alias denotes a type, the alias itself, which is equal both ways to the type it stands for |
| InferenceLoops.ParenListType | checker/type_resolver.go:104-155 | the loop over a paren list computes `TypeOfParen` |
| InferenceLoops.BracketListType | checker/type_resolver.go:157-182 | the loop over a bracket list computes the bracket rule |
| InferenceLoops.FindBuiltIn | checker/type_resolver.go:382-388 | the lookup loop finds the last entry of that name |
| InferenceExamples.DeclareXVisit | checker/block.go:23-35 | visiting `var x = 1` defines `x` as an i32 and makes the running type unit |
| InferenceExamples.SumXIsI32 | checker/type_resolver.go:239-262 | with `x` an i32, `x + 2` is an i32 |
| InferenceExamples.VarThenSum | checker/block.go:23-55 | `{ var x = 1; x + 2 }` has type i32 |
| InferenceExamples.Redefinition | checker/block.go:32-34 | `{ var x = 1; var x = 2 }` fails at the second `x`, naming the first |
| InferenceExamples.ComparisonAndAssignment | checker/type_resolver.go:250-276 | `1 == 2` is an untyped bool and `1 = 2` is unit |
| InferenceExamples.ArrayLiterals | checker/type_resolver.go:157-182 | `[1, 2]` is an array of two i32, `[]` an array of nothing |
| InferenceExamples.TupleOfValues | checker/type_resolver.go:104-155 | `(1, "a")` is a tuple of an i32 and an untyped string |
| InferenceExamples.WhileNeedsBool | checker/type_resolver.go:535-551 | `while 1 {}` fails at its condition |
| InferenceExamples.WhileHasNoType | checker/type_resolver.go:492-493 | `while 1 == 1 {}` succeeds with a nil type |
| InferenceExamples.BlockEndingInWhile | checker/type_resolver.go:423-443 | a block whose last statement is a `while` succeeds with a nil type |
| InferenceExamples.IndexOfEmptyArray | checker/type_resolver.go:332-352 | `[][0]` succeeds with a nil type, the element type of the empty array |
| InferenceExamples.ParenthesizedProduct | checker/type_resolver.go:239-284 | `(1 + 2) * 3` fails at `*`, undefined on the one-element tuple `(i32)` |
| InferenceExamples.FuncResultOfOneElement | checker/resolver.go:105-118 | `fn f() i32 { 1 }` is accepted: its body's untyped int equals the result tuple `(i32)` |
| Blocks.Block.constructor | checker/block.go:15-17 | a new block has the given scope and the unit type |
| Blocks.Block.Visit | checker/block.go:19-61 | the block's new scope and type are those of one visit; a failure leaves the type as it was |
| Blocks.CheckBlock | checker/type_resolver.go:423-435 | the loop over a block's statements computes `TypeOfCurly` |
| Blocks.EmptyBlockIsUnit | checker/block.go:15-17 | `{}` has the unit type and leaves the scope unchanged |
| Blocks.VisitRules | checker/block.go:19-61 | a variable declaration is resolved, then defined, unless its name is taken, and makes the type unit; other declarations fail internally; any other statement gives its own type |
| Blocks.BlockTypeIsLastStatement | checker/block.go:38-54 | a block that type-checks has the type that the visit of its last statement produced |
| Blocks.BlockEndingInDeclIsUnit | checker/block.go:38 | a block ending in a variable declaration is unit |
| Decls.ResolveVarDecl | checker/resolver.go:11-54 | the method, which reassigns the declared type, computes `VarDeclType` |
| Decls.VarDeclAnnotation | checker/resolver.go:14-29 | an annotation that does not denote a type fails; otherwise a success has the described type |
| Decls.VarDeclInitializer | checker/resolver.go:31-51 | the initializer must be a value and is made concrete; it must equal a declared type, and a mismatch returns the declared type with the error |
| Decls.VarDeclInferred | checker/resolver.go:31-53 | without an annotation the variable has its initializer's concrete type, never untyped bool or int; with neither part it is nil |
| Decls.ResolveParams | checker/resolver.go:60-83 | both scopes only grow; a success has one type per parameter after the ones collected |
| Decls.ResolveBinding | checker/resolver.go:62-72 | the step on a binding: both scopes only grow, and a success keeps the types collected and adds one per remaining parameter |
| Decls.ParamNamesDefined | checker/resolver.go:60-83 | after a successful loop every parameter is a binding whose name is defined in the function scope |
| Decls.BindingParamStep | checker/resolver.go:62-72 | a binding's type is resolved in the owner; its failure or nil type ends the loop there, and a described type is appended with the name defined before the next parameter |
| Decls.OtherParamFails | checker/resolver.go:80-81 | a parameter node of any other shape is an ill-formed tree |
| Decls.ResolveFunc | checker/resolver.go:56-126 | resolving a function only extends its two scopes |
| InferenceExamples.SelfCallRejected | checker/resolver.go:102-108 | `fn f() { f() }` is refused with NoType at the inner `f`, the scope holding the symbol as it was before `setType`, as the "## Left out" line starting `Decls.ResolveFunc:` admits |
| Decls.ResolveFuncBody | checker/resolver.go:100-125 | the symbol's type is the function of the parameters and the result, whatever the body gives |
| Decls.FuncSymbol.constructor | checker/resolver.go:57-71 | the `Func` symbol's struct and constructor are outside this model; the fields read at :57, :63 and :71 are set from the arguments, and the type starts nil |
| Decls.FuncSymbol.ResolveFuncDecl | checker/resolver.go:56-126 | the symbol's new scopes, its type and the error are those `ResolveFunc` gives |
| Decls.FuncSymbol.ResolveParameters | checker/resolver.go:60-83 | the parameter loop computes `ResolveParams` and leaves the type alone |
| Decls.FuncSymbol.ResolveParameter | checker/resolver.go:61-82 | one parameter: the new scopes and the list continue `ResolveParams`, or its failure is the outcome |
| Decls.FuncSymbol.SetTypeAndCheckBody | checker/resolver.go:98-125 | `setType`, then the body check, computes `ResolveFuncBody` |
| Decls.ParamsInOrder | checker/resolver.go:60-83 | when the loop succeeds, each parameter is a binding whose annotation resolves in the declaring scope; its described type is next in the list, and the loop goes on with that name defined in the function scope |
| Decls.DefaultParameterRefused | checker/resolver.go:77-78 | a parameter with a default value fails at that parameter |
| Decls.FuncTypeSetBeforeBody | checker/resolver.go:85-102 | once parameters and result resolve, the type is set to the function of them, with unit for a missing result |
| Decls.FuncBodyRule | checker/resolver.go:107-123 | a missing body fails at the identifier; a body whose type differs from the result fails at its last statement |
| Checkers.SetTypeIn | checker/checker.go:58-67 | the entry gets the type and keeps an earlier value; other entries are unchanged and the table stays typed |
| Checkers.ValueOfIn | checker/checker.go:39-50 | a stored entry is returned as it is; otherwise the analysis's value is returned, and stored when there is one |
| Checkers.TypeOfIn | checker/checker.go:26-37 | a stored or evaluated value gives its type; only otherwise does the type analysis run, and a type it finds is stored |
| Checkers.TypeOfMemoised | checker/checker.go:26-50 | asking again for a type that was found returns it from the table and changes nothing |
| Checkers.TypeOfKeepsTable | checker/checker.go:26-75 | `typeOf` keeps every entry typed and changes no other node's entry |
| Checkers.Module.constructor | checker/checker.go:13 | the checker's module; the `Module` struct and its constructor are in a file outside this model, and the tables read at :40, :92, :99 and :122 start empty |
| Checkers.Checker.constructor | checker/checker.go:12-20 | a checker over a module and a non-nil scope; it is constructed in a file outside this model |
| Checkers.Checker.SetScope | checker/checker.go:52-56 | the scope may not be nil and is replaced |
| Checkers.Checker.SetType | checker/checker.go:58-67 | the type table becomes `SetTypeIn` of the old one; nothing else changes |
| Checkers.Checker.SetValue | checker/checker.go:69-75 | the value needs a type and replaces the whole entry |
| Checkers.Checker.ValueOf | checker/checker.go:39-50 | the method computes `ValueOfIn` on the module's table |
| Checkers.Checker.TypeOf | checker/checker.go:26-37 | the method computes `TypeOfIn` on the module's table |
| Checkers.Checker.NewDef | checker/checker.go:77-101 | the definition replaces any earlier one, reported as a redefinition exactly then; a struct or enum is also recorded under its described type |
| Checkers.Checker.NewUse | checker/checker.go:103-123 | the identifier may not be a definition; the use is recorded and nothing else changes |
| TypeAliases.TypeAlias.constructor | checker/type_alias.go:15-22 | a new alias symbol holds the alias of the described type under the declaration's name |
| TypeAliases.TypeAlias.Type | checker/type_alias.go:25 | an alias symbol denotes a type, and that type is the alias |
| TypeAliases.TypeAlias.Name | checker/type_alias.go:26 | the name is the identifier's and the alias type's |
| TypeAliases.TypeAlias.Owner | checker/type_alias.go:24 | the declaring scope, which the constructor sets and nothing changes |
| TypeAliases.TypeAlias.Ident | checker/type_alias.go:27 | the declaration's own identifier, whose name the alias type carries |
| TypeAliases.TypeAlias.Node | checker/type_alias.go:28 | the alias declaration the symbol was made from, named by the symbol's identifier |
| TypeAliases.TypeAlias.SetType | checker/type_alias.go:30-32 | the alias now stands for the described type, under the same name |
| Funcs.NewFunc | types/func.go:15-27 | a nil result or parameter tuple becomes unit, and the flag is kept |
| Funcs.NewFuncNilIsUnit | types/func.go:15-27 | passing nil and passing unit build the same, equal function types |
| Funcs.Ordinalize | types/func.go:114-136 | the ordinal of a number; Funcs.OrdinalizeSuffix states the suffix and Funcs.OrdinalizeNumeral the numeral |
| Funcs.GoRem | types/func.go:117-122 | Go's truncating `%`: a non-negative dividend gives the usual remainder, and a negative one gives a remainder in (-m, 0] |
| Funcs.OrdinalizeSuffix | types/func.go:114-136 | 11 to 13 modulo 100 take "th"; otherwise 1, 2, 3 modulo 10 take "st", "nd", "rd"; everything else, every negative number included, takes "th" |
| Funcs.OrdinalizeNumeral | types/func.go:115 | the text is the numeral plus two letters, and the numeral reads back as the number |
| Funcs.OrdinalizeUnitsExamples | types/func.go:114-136 | 1st, 2nd, 3rd, 4th, and -1th |
| Funcs.OrdinalizeTeensExamples | types/func.go:117-119 | 11th, 12th, 13th, then 21st, 22nd |
| Funcs.OrdinalizeHundredsExample | types/func.go:117-124 | 111th and 101st |
| Funcs.ArgFault | types/func.go:65-100 | an arity mismatch reports the smaller length as too many or too few; otherwise the first argument unequal to its parameter; -1 and no error exactly when all agree |
| Funcs.FirstMismatch | types/func.go:86-97 | no mismatch means every later argument equals its parameter; a mismatch is the first position where one does not |
| Funcs.ArgFaultIgnoresVariadic | types/func.go:65-100 | the variadic flag plays no part: a variadic function with extra arguments still fails |
| Funcs.CheckArgs | types/func.go:65-100 | the method computes `ArgFault`; it succeeds exactly when the counts agree and every argument equals its parameter |
| Funcs.FuncStringLayout | types/func.go:41-57 | "func", the parameter tuple, then nothing for a unit result, the lone type for one result, or the tuple for several |
| Funcs.FuncString | types/func.go:41-57 | the builder produces the function type's text, which starts with "func" and the parameters and ends there exactly for a unit result |
| Funcs.I32AndBoolNames | types/primitive_kind_string.go:22-30 | `i32` and `bool` are written by their kind names |
| Funcs.FuncStringExamples | types/func.go:41-57 | `func()`, and `func(i32, i32) i32` for a one-element result |
| Funcs.FuncStringTupleResult | types/func.go:50-53 | `func() (bool, i32)`: a result of several types keeps its parentheses |
| PrimitiveKinds.OffsetTableShape | types/primitive_kind_string.go:22-24 | ten strictly increasing offsets from 0 to the length of the name string |
| PrimitiveKinds.KindString | types/primitive_kind_string.go:26-31 | a kind's name; PrimitiveKinds.KindNamesSpelled, KindStringOutOfRange and KindStringInjective state it |
| PrimitiveKinds.KindNamesSpelled | types/primitive_kind_string.go:11-31 | the nine kinds' names, as the generated table spells them |
| PrimitiveKinds.KindStringOutOfRange | types/primitive_kind_string.go:27-29 | a kind past the table is written `PrimitiveKind(n)` |
| PrimitiveKinds.KindStringInjective | types/primitive_kind_string.go:26-31 | different kinds have different names |
| PrimitiveKinds.DeclaredNamesDiffer | types/primitive_kind_string.go:22-30 | the nine declared kinds have pairwise different names |
| PrimitiveKinds.NumberedNameDiffers | types/primitive_kind_string.go:26-31 | no numbered fallback spells a declared kind's name |
| Decimal.DigitChar | types/func.go:115 | a digit below ten is the character of that value |
| Decimal.NatToString | types/func.go:115 | the numeral is non-empty and all digits |
| Decimal.IntToString | types/primitive_kind_string.go:28 | the text starts with a minus sign exactly for a negative number |
| Decimal.ParseNatToString | types/func.go:115 | a numeral reads back as its number |
| Decimal.NatToStringInjective | types/func.go:115 | different numbers have different numerals |
| Decimal.IntToStringInjective | types/primitive_kind_string.go:28 | different integers have different texts |
| Types.Underlying | types/func.go:39 | the underlying type is never an alias |
| Types.SkipAlias | checker/type_resolver.go:254 | skipping aliases leaves no alias |
| Types.SkipUntyped | checker/resolver.go:41 | a typed type is unchanged; untyped bool and int are replaced; whether it is a type is preserved |
| Types.AsFuncRules | types/func.go:102-112 | `AsFunc` sees through an alias, gives the function of a function type and nil for every other underlying type; `IsFunc` holds exactly for an underlying function |
| Types.IsFunc | types/func.go:102 | whether the underlying type is a function; Types.AsFuncRules states it |
| Types.Equals | types/func.go:29-37 | `t.Equals(other)`; Types.FuncEqualsRule states the function case, and EqualsReflexive, EqualsThroughAlias, TupleEqualsElementwise and OneTupleEqualsElement the rest |
| Types.EqualsShape | types/func.go:29-37 | one level of `Equals`, whose function case is `Func.Equals`; Types.FuncEqualsRule states it |
| Types.FuncEqualsRule | types/func.go:29-37 | a function equals a primitive exactly when that is `Any`, another function exactly when flags, results and parameters agree, and nothing else |
| Types.TypeString | types/func.go:41-57 | the text of a type; Funcs.FuncStringLayout and Funcs.FuncString state the function case |
| Types.UnderlyingIdempotent | types/func.go:39 | taking the underlying type twice is taking it once |
| Types.EqualsThroughAlias | types/func.go:29-37 | equality looks at its right operand only through its underlying type |
| Types.EqualsReflexive | types/func.go:29-37 | every type equals itself |
| Types.SeqEqualsReflexive | types/func.go:34 | every list of types is element-wise equal to itself |
| Types.TupleEqualsElementwise | types/func.go:34 | tuples are equal exactly when they are element-wise equal |
| Types.EqualsUnitIffEmpty | types/func.go:46 | a tuple equals unit exactly when it is empty |
| Types.OneTupleEqualsElement | checker/resolver.go:113 | a one-element tuple equals `t` exactly when its element does, for any `t` that is not a tuple; the other way round, `t` equals the tuple exactly when it equals the element at one level, for any `t` other than a tuple, a function or an alias |
| Types.FuncNeverEqualsTuple | types/func.go:29-37 | a function type equals no tuple, a one-element tuple of itself included, since `Func.Equals` is false against anything but a primitive or a function |
| Scopes.SymType | checker/type_alias.go:25 | a type alias symbol's type is a type descriptor |
| Scopes.Lookup | checker/type_resolver.go:527-533 | a name in the scope's own table is found there, and a name not found anywhere is not in it |
| Scopes.Define | checker/block.go:32-34 | a taken name gives back the previous symbol with the scope unchanged; otherwise the symbol is added |
| Scopes.ExtendsTransitive | checker/block.go:19-61 | a scope grown from one grown from `s` is grown from `s` |
| Scopes.DefineExtends | checker/resolver.go:71-72 | defining only adds to a scope |
| Scopes.DefineShadows | checker/resolver.go:71-72 | a new definition is what its name now finds, and other names' answers are unchanged |
| Scopes.RedefinitionRefused | checker/block.go:32-34 | a second definition of a name in the same scope is refused, naming the first |

## Findings

| source | as written | input that shows it | evidently intended | confidence | as-written member | corrected member |
|---|---|---|---|---|---|---|
| checker/type_resolver.go:516 | `params.(*types.Tuple)` asserts that the parameter list's type is a tuple, but a list of parameter types is a type descriptor of a tuple, so the assertion panics | the signature `(i32) i32`, whose parameter list has type `TypeDesc(Tuple([i32]))` | take the tuple out of its type descriptor, as `SkipTypeDesc` does for the result, and build `fn(i32) i32` | not executed | InferenceRules.SignatureAsWrittenFailsOnTypeList | InferenceRules.SignatureRule |

`Inference.SignatureTypeAsWritten` is the signature rule as written. `Inference.SignatureType` is
the corrected rule, which `Inference.TypeOfSignature` uses. `InferenceRules.SignatureOfOneTypeParameter`
shows both on `(i32) i32`.

## Left out

- Printing: the `fmt.Printf` trace lines, `report` debug output and the debug helpers of
  checker/debug.go have no effect on checking and are not modelled. The redefinition warning of
  `newDef` appears only as the `redefined` result of `Checkers.Checker.NewDef`.
- Literal values arrive already parsed: an int literal carries its value, or none when it does not
  parse. The text-to-integer conversion of `strconv` is not modelled; only its range check and failure are.
- The Go pointer identity of nodes, identifiers and symbols is replaced by node ids and by values.
  A scope stores symbols by value, so a later `setType` on a symbol is not seen through a scope
  that holds an earlier copy. Aliasing between scopes is not modelled.
- `NewVar(scope, t, binding, name)` (block.go:24, resolver.go:71) keeps its owner scope and its
  binding node. The model's `Var` keeps only the identifier and the type, since neither is read
  during checking. Symbol kinds other than variables, type aliases, functions, structs and enums
  are not modelled.
- Declarations other than `var` inside a block (type alias, function, module) panic in the source
  and are `Internal` in the model. The `ModuleDecl` checking path is not part of this model.
- `Defs.Set` and `Defs.Get` are in a file that is not part of this model. `Checkers.Checker.NewDef`
  takes `Set` to overwrite and to report whether the key was new.
- `Checkers.Checker.NewDef`: `sym.Type()` of a struct or enum without a type yet is taken to fail,
  reported as `crashed`; the definition is then already recorded.
- `errorAlreadyDefined` is in a file that is not part of this model. The model reports the error at
  the new identifier and carries both identifiers.
- `types.NewFunc` is called with two arguments at resolver.go:100 (`resolveFuncDecl`) and at
  type_resolver.go:516 (the signature case), while types/func.go declares three. `Decls.ResolveFunc`,
  `Inference.SignatureType` and `Inference.SignatureTypeAsWritten` pass `variadic = false`.
- A call and a built-in call assert that their argument list is a tuple (type_resolver.go:320 and
  404), so a call whose arguments are types fails that assertion. `Inference.TypeOfCall` and
  `Inference.TypeOfBuiltInCall` keep that failure as `Internal`.
- `Types.Equals`: tuple equality is in a file that is not part of this model. It is assumed to
  compare element-wise, and to take a one-element tuple as equal to `t` exactly when its element
  is, for any `t` that is not a tuple. The reverse holds for a `t` that is not a tuple, a function or
  an alias: a function on the left is never equal to a tuple (`Types.FuncNeverEqualsTuple`), as
  types/func.go:29-37 has it. So `fn f() i32 { 1 }` is accepted (`InferenceExamples.FuncResultOfOneElement`). A one-element tuple
  is still not a primitive for the operators. `(1 + 2) * 3` is an undefined operator on `(i32)`
  (`InferenceExamples.ParenthesizedProduct`), and so is `f(1) + 1` where `f` returns `i32`.
- `Types.Underlying`: assumed to strip every alias layer. `Types.SkipAlias` is then the same
  function, and `SkipAlias(x).Underlying()` (type_resolver.go:254) is just `Underlying(x)`. A
  one-layer `Underlying` would give an alias back for an alias of an alias of `i32` at the places
  where the Go code calls `Underlying()` directly, so it would reject the prefix `-x`
  (type_resolver.go:192) on such an `x` as an undefined operator. The model accepts it. Equality
  and the `As*` downcasts see through every layer in the same way.
- `Types.KindEquals`: assumed to take an untyped int equal to `i32` and an untyped bool equal to
  `bool`, both ways. A `KindEquals` under which `bool` equals only `bool` would refuse the condition
  `1 == 2`, an untyped bool. The model accepts it in `if` and `while`
  (`InferenceExamples.WhileHasNoType`).
- `Decls.ResolveFunc`: a function whose body names the function itself, a recursive function among
  them, is refused with NoType at that name, where the Go code accepts it. In Go, `setType`
  (resolver.go:102) changes the `*Func` that the owner scope holds, so the body checked at :108
  sees `func(...)`. In the model the function's scope reaches only the copy made before, with no
  type. `InferenceExamples.SelfCallRejected` shows it on `fn f() { f() }`.
- `Decls.ResolveFunc`: an empty body whose type differs from the result indexes its statements at
  -1, which panics in Go; the model reports it as `Internal`.
- `Funcs.FuncString`: the text of types other than a function is an assumed rendering, since their
  `String` methods are in files that are not part of this model.
- The `Value` of a `TypedValue` is kept abstract. Constant evaluation beyond what a built-in's
  evaluator returns is not modelled.
