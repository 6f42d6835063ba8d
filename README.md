# typeshed_client name resolver, in Dafny

This project models the name-resolution engine of `typeshed_client`. Given a
fully qualified name such as `os.path.join`, the engine finds the declaration
that name refers to in a tree of stub files. Stubs can re-export names with
`from X import Y`, so the engine follows those chains. It tells a submodule
(`from pkg import sub`, where `pkg.sub` is a module) apart from a re-exported
symbol. It also reads a module's literal `__all__` list, merging the branches
of an overloaded `__all__` in order.

The model is organised in five modules:

- `Wrappers` holds `Option`, plus `Outcome`, whose `InvalidStub` variant stands
  for the `parser.InvalidStub` exception.
- `Stubs` holds the parser's output as the resolver consumes it:
  - module paths;
  - the syntax shapes the resolver inspects (`Assign`, `AugAssign`, `List`,
    `Str`, `OverloadedName`, `ImportedName`, and one "other" case);
  - `NameInfo` with its `ast`;
  - the fixed `World` of stubs, keyed by dotted module name;
  - `Join`/`Split` for `".".join` and `str.split`.
- `Resolution` holds `ResolvedName`, which is `None | ModulePath |
  ImportedInfo | NameInfo` written as `Absent | ModuleRef | Imported | Direct`.
  It also holds `Resolve`, the function that states what a name means in a
  module, and the lemmas about it.
- `DunderAll` holds the functional meaning of `_get_dunder_all_from_ast` and
  `get_dunder_all`, and the lemmas about it.
- `NameResolver` holds the two classes of the source:
  - `Resolver`, with its module cache;
  - `Module`, with its name cache.

  Their methods follow the source statement by statement, caches and loops
  included. Each method is proved against the functions above. The
  invariant `Resolver.Valid` says three things:
  - every cached module was built from the world's stub for its own path;
  - every memoized name equals `Resolve` of that name;
  - the parser has been consulted exactly once per cached path.

  `Resolver.Grown` states that the caches only grow.

The source has no guard against re-export cycles (the TODO at
`typeshed_client/resolver.py:100`): such a cycle would recurse without end.
The model therefore requires an acyclic world. It is witnessed by a ghost
ranking `rank` that falls along every `from X import Y` edge that is followed
(`Resolution.Ranked`). `Resolution.RankIrrelevant` shows that the ranking
chosen does not affect any result. No cycle guard is modelled, because the code
has none.

## Model

| member | source | states |
|---|---|---|
| NameResolver.Resolver.constructor | typeshed_client/resolver.py:19-23 | A new resolver over an acyclic world has an empty module cache, has consulted the parser zero times, and satisfies the invariant. |
| NameResolver.Resolver.GetModule | typeshed_client/resolver.py:25-34 | Returns the module cached for `path`, building it on the first request only. It has the stub's names and `hasStub` true when a stub exists; otherwise an empty table and `hasStub` false. A repeat request returns the same object and changes nothing in the resolver: the cache and the parse count stay as they were. A first request adds exactly that one fresh module with an empty name cache. Either way the invariant is kept and the caches only grow. |
| NameResolver.Resolver.GetName | typeshed_client/resolver.py:36-38 | The result is `Resolve` of `name` in the module at `path`. Afterwards that module is cached and has the result memoized. When the name was already memoized in an already cached module, the old value is returned and neither the resolver nor any module changes. The invariant is kept and the caches only grow. |
| NameResolver.Resolver.GetFullyQualifiedName | typeshed_client/resolver.py:40-43 | The result is `Resolve` of the last dot-separated piece of `name`, looked up in the module formed by the pieces before it. Afterwards that module is cached with the last piece memoized, so a repeat query returns the memoized value and changes nothing. The invariant is kept and the caches only grow. |
| NameResolver.Module.constructor | typeshed_client/resolver.py:47-53 | A new module holds the given names and existence flag, with an empty name cache. |
| NameResolver.Module.GetName | typeshed_client/resolver.py:55-58 | The result is `Resolve` of the name, and it is memoized. When the name was already memoized, the old value is returned and neither the resolver nor any module changes. No memoized entry of any module ever changes. |
| NameResolver.Module.Remember | typeshed_client/resolver.py:57 | Storing a correct result adds exactly that entry to the name cache and keeps the resolver's invariant. |
| NameResolver.Module.UncachedGetName | typeshed_client/resolver.py:94-114 | One resolution step agrees with `Resolve`, including the `get_module` probe for a submodule and the recursive `get_name` through the resolver. The invariant is kept and the caches only grow. |
| NameResolver.Module.GetDunderAll | typeshed_client/resolver.py:60-79 | The result is `DunderAllOf` applied to what `__all__` resolves to in this module. Afterwards `__all__` is memoized, and when it already was, neither the resolver nor any module changes. The invariant is kept and the caches only grow. |
| NameResolver.Module.DunderAllOfResolved | typeshed_client/resolver.py:63-79 | The loop over overloaded branches, with its early `InvalidStub` on the first branch that is not a literal list, computes exactly `DunderAllOf` of the resolved name. |
| NameResolver.Module.DunderAllFromAst | typeshed_client/resolver.py:81-92 | The element-by-element loop, returning `None` at the first element that is not a string literal, computes exactly `LiteralAll` of the node. |
| Resolution.Resolve | typeshed_client/resolver.py:94-114 | What a name means in a module, following `from M import N` chains through `get_name` (lines 55-58, 36-38). A name the module lacks gives `Absent`. A `Direct` result is the module's own declaration of the name, and that declaration is not an import. An `Imported` result arises only from an import declaration of the name. |
| Resolution.MissingModuleAbsent | typeshed_client/resolver.py:30-33 | Every lookup in a module without a stub gives `Absent`. |
| Resolution.ResolveConcrete | typeshed_client/resolver.py:94-114 | No `NameInfo` in a result, bare or inside `Imported`, is an `ImportedName`: resolution always follows an import to its end. |
| Resolution.ResolveDeclared | typeshed_client/resolver.py:97-99 | A declaration in any result is one some stub really makes. A `Direct` result is the module's own declaration of the name. |
| Resolution.ModuleRefJustified | typeshed_client/resolver.py:102-114 | A module-path result names a module that has a stub, or it is the target of some `import X` declaration. |
| Resolution.LocalDeclaration | typeshed_client/resolver.py:97-99 | A declaration that is not an import resolves to itself, as `Direct`. |
| Resolution.PlainImport | typeshed_client/resolver.py:113-114 | `import X` resolves to the module path `X`, whether or not `X` has a stub. |
| Resolution.SubmoduleWins | typeshed_client/resolver.py:102-106 | `from M import N`, where module `M.N` exists, resolves to the path `M+[N]` and not to a symbol. |
| Resolution.ReExportWrapsOnce | typeshed_client/resolver.py:107-112 | `from M import N`, where `M.N` is not a module, wraps a `Direct` result from `M` once as `Imported(M, info)`. Any other result (absent, a module path, an already imported declaration) passes through unchanged. |
| Resolution.RankIrrelevant | typeshed_client/resolver.py:94-114 | The result depends on the world only, not on the ranking that witnesses it is acyclic. |
| Resolution.ChainFalls | typeshed_client/resolver.py:100-107 | Along a chain of followed re-exports the rank falls by at least one per hop, so a chain has at most as many hops as the rank of its first pair. |
| Resolution.NoCycleWhenRanked | typeshed_client/resolver.py:100 | In a ranked world, a chain of re-exports never returns to the (module, name) pair it started from. |
| Stubs.Join | typeshed_client/resolver.py:28 | `".".join`: the result begins with the first piece, and it contains the separator exactly when there are two or more pieces or some piece already contains it. |
| Stubs.StubNames | typeshed_client/resolver.py:27-29 | The parser's answer for a module: its stub's names exactly when the dotted name has a stub, otherwise nothing. |
| Stubs.NamesAt | typeshed_client/resolver.py:30-32 | The names a module holds: the stub's names when it has one, otherwise the empty table (`names = {}`). |
| Stubs.Split | typeshed_client/resolver.py:42 | `str.split` gives at least one piece, and no piece contains the separator. |
| Stubs.JoinSplit | typeshed_client/resolver.py:42 | Joining the pieces of a split gives back the original string. |
| Stubs.SplitJoin | typeshed_client/resolver.py:28 | Splitting the join of at least one separator-free piece gives back those pieces, so `".".join` of a module path is unambiguous. |
| Stubs.SplitQualified | typeshed_client/resolver.py:42 | The module path and tail of a qualified name contain no dots. |
| Stubs.QualifiedRoundTrip | typeshed_client/resolver.py:42-43 | Joining `path + [tail]` with "." gives back the qualified name. |
| Stubs.UndottedName | typeshed_client/resolver.py:42-43 | A name without a dot is looked up in the module with the empty path. |
| Stubs.QualifiedOfPath | typeshed_client/resolver.py:42-43 | A qualified name built from a dot-free path and tail splits back into exactly that path and tail. |
| DunderAll.LiteralStrings | typeshed_client/resolver.py:87-92 | A list yields strings exactly when every element is a string literal. It then yields one string per element, in order. |
| DunderAll.LiteralAll | typeshed_client/resolver.py:81-92 | A definition yields a list exactly when it is an `Assign` or `AugAssign` of a list of string literals. That list has one string per element, in order. |
| DunderAll.MergeBranches | typeshed_client/resolver.py:70-76 | The branches of an overloaded `__all__` merge to a list exactly when every branch yields one. |
| DunderAll.MergeAppend | typeshed_client/resolver.py:70-76 | The merge of two runs of branches is the concatenation of their merges, and it fails when either run fails. |
| DunderAll.MergeOne | typeshed_client/resolver.py:70-76 | One branch merges to that branch's own list. |
| DunderAll.MergeExample | typeshed_client/resolver.py:70-76 | Branches `["a"]` and `["b"]` merge to `["a", "b"]`, in order. |
| DunderAll.DunderAllOf | typeshed_client/resolver.py:62-79 | No `__all__` gives `None` without error, and a module path raises `InvalidStub`. For a declaration the error arises exactly when `DunderAllOfInfo` raises. A list comes only from a declaration. |
| DunderAll.DunderAllOfInfo | typeshed_client/resolver.py:69-79 | For a declaration, `InvalidStub` is raised exactly for an import, or for an overload with a branch that is not a literal list. A list comes only from an overload or from a literal list. |
| DunderAll.ImportedUnwrapped | typeshed_client/resolver.py:65-66 | An imported `__all__` reads exactly as the declaration it wraps. |
| DunderAll.DunderAllInvalid | typeshed_client/resolver.py:62-79 | `get_dunder_all` raises `InvalidStub` exactly when `__all__` resolves to a module path, or to an overloaded declaration with a branch that is not a literal list. The raise for an imported declaration (lines 77-78) is unreachable. |
| DunderAll.LeafVersusBranch | typeshed_client/resolver.py:69-79 | A definition that is not a literal list gives `None` without error on its own, but the same definition as a branch of an overloaded `__all__` raises `InvalidStub`. |

## Left out

- The stub finder and parser (`get_search_context`, `SearchContext`,
  `parser.get_stub_names`) are replaced by the fixed `World` map handed to the
  resolver. The `ctx` the source passes through is not modelled. A parser
  call is recorded only as the ghost counter `Resolver.parses`.
- Python's `ast` module and stub parsing are left out. Only the node shapes
  the resolver inspects are modelled, and `NameInfo` carries only its `ast`.
  The parser module is not part of this model.
- The `InvalidStub` message text is left out; the error is the single
  `InvalidStub` variant.
- NameResolver.Resolver.constructor: requires the whole world to be acyclic
  (`Ranked`), because the source has no cycle guard: on a re-export cycle it
  recurses until Python's recursion limit, and that failure is not modelled.
  A world with a cycle anywhere is therefore excluded, although the source
  still answers every query whose chain never reaches that cycle. Every
  method that needs the invariant inherits this precondition through
  `Resolver.Valid`. The converse of `Resolution.NoCycleWhenRanked`, that
  every acyclic world has a ranking, is not proved.
- A module's ghost `path` records which path it was created
  for. The source's `Module` does not know its path, and the model uses it
  only in proofs.
- Python object identity beyond the caches (for example, two resolvers
  sharing a `Module`) is not modelled. Modules are created only by
  `Resolver.GetModule`.
