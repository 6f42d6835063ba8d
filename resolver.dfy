/**
 * The resolver's objects: `Resolver`, with its lazily filled cache of
 * modules, and `Module`, with its lazily filled cache of resolved names.
 * Each method is proved against the functions of `Resolution` and
 * `DunderAll`.
 */
module NameResolver {
  import opened Wrappers
  import opened Stubs
  import opened Resolution
  import opened DunderAll

  /** One module's symbol table and its memo of resolved names. */
  class Module {
    const names: NameDict
    /** Whether a stub was found (the source's `exists`, a keyword in Dafny). */
    const hasStub: bool
    /** The path the resolver created this module for; a proof aid. */
    ghost const path: ModulePath
    var nameCache: map<string, ResolvedName>

    constructor (names: NameDict, hasStub: bool, ghost path: ModulePath)
      ensures this.names == names && this.hasStub == hasStub && this.path == path
      ensures nameCache == map[]
    {
      this.names := names;
      this.hasStub := hasStub;
      this.path := path;
      nameCache := map[];
    }

    /** Every memoized result is what resolution gives for that name. */
    ghost predicate CacheSound(world: World, rank: Rank)
      requires Ranked(world, rank)
      reads this
    {
      forall name :: name in nameCache ==> nameCache[name] == Resolve(world, rank, path, name)
    }

    /** `Module.get_name`: the memoized resolution of `name` in this module. */
    method GetName(name: string, resolver: Resolver) returns (r: ResolvedName)
      requires resolver.Valid() && resolver.Holds(this)
      modifies resolver, resolver.Repr
      ensures resolver.Valid() && resolver.Grown() && resolver.Holds(this)
      ensures r == Resolve(resolver.world, resolver.rank, path, name)
      ensures name in nameCache && nameCache[name] == r
      ensures name in old(nameCache) ==>
        r == old(nameCache[name]) && unchanged(resolver) && unchanged(resolver.Repr)
      decreases resolver.rank(Join(path, '.'), name), 1
    {
      if name !in nameCache {
        var result := UncachedGetName(name, resolver);
        Remember(name, result, resolver);
      }
      r := nameCache[name];
    }

    /** Stores a name's resolution in this module's cache, keeping the resolver's invariant. */
    method Remember(name: string, result: ResolvedName, resolver: Resolver)
      requires resolver.Valid() && resolver.Holds(this)
      requires result == Resolve(resolver.world, resolver.rank, path, name)
      modifies this
      ensures resolver.Valid() && resolver.Holds(this)
      ensures nameCache == old(nameCache)[name := result]
    {
      nameCache := nameCache[name := result];
      assert this in resolver.Repr;
    }

    /** `Module._uncached_get_name`: one step of resolution, recursing through the resolver. */
    method UncachedGetName(name: string, resolver: Resolver) returns (r: ResolvedName)
      requires resolver.Valid() && resolver.Holds(this)
      modifies resolver, resolver.Repr
      ensures resolver.Valid() && resolver.Grown() && resolver.Holds(this)
      ensures r == Resolve(resolver.world, resolver.rank, path, name)
      decreases resolver.rank(Join(path, '.'), name), 0
    {
      assert this in resolver.Repr && names == NamesAt(resolver.world, path);
      if name !in names {
        return Absent;
      }
      var info := names[name];
      if !info.ast.ImportedName? {
        return Direct(info);
      }
      var importInfo := info.ast;
      if importInfo.name.Some? {
        var modulePath := importInfo.moduleName + [importInfo.name.value];
        var candidate := resolver.GetModule(modulePath);
        if candidate.hasStub {
          SubmoduleWins(resolver.world, resolver.rank, path, name, importInfo.moduleName, importInfo.name.value);
          return ModuleRef(modulePath);
        }
        assert ReExportEdge(resolver.world, Join(path, '.'), name, importInfo.moduleName, importInfo.name.value);
        ReExportWrapsOnce(resolver.world, resolver.rank, path, name, importInfo.moduleName, importInfo.name.value);
        var resolved := resolver.GetName(importInfo.moduleName, importInfo.name.value);
        if resolved.Direct? {
          return Imported(importInfo.moduleName, resolved.info);
        } else {
          return resolved;
        }
      } else {
        return ModuleRef(importInfo.moduleName);
      }
    }

    /**
     * `Module.get_dunder_all`: the strings of `__all__`, `None` when it is not
     * declared or not a literal list, `InvalidStub` when it names a module or
     * is overloaded with a branch that is not a literal list.
     */
    method GetDunderAll(resolver: Resolver) returns (r: Outcome<Option<seq<string>>>)
      requires resolver.Valid() && resolver.Holds(this)
      modifies resolver, resolver.Repr
      ensures resolver.Valid() && resolver.Grown() && resolver.Holds(this)
      ensures r == DunderAllOf(Resolve(resolver.world, resolver.rank, path, "__all__"))
      ensures "__all__" in nameCache
      ensures "__all__" in old(nameCache) ==> unchanged(resolver) && unchanged(resolver.Repr)
    {
      var resolved := GetName("__all__", resolver);
      r := DunderAllOfResolved(resolved);
    }

    /**
     * The part of `Module.get_dunder_all` after the lookup: unwrap an
     * imported declaration, merge the branches of an overloaded one in order
     * (raising on the first that is not a literal list), or read a single
     * definition.
     */
    method DunderAllOfResolved(resolved: ResolvedName) returns (r: Outcome<Option<seq<string>>>)
      ensures r == DunderAllOf(resolved)
    {
      if resolved.Absent? {
        return Ok(None);
      }
      if resolved.ModuleRef? {
        return InvalidStub;
      }
      var info := resolved.info;
      assert DunderAllOf(resolved) == DunderAllOfInfo(info);
      if info.ast.OverloadedName? {
        var definitions := info.ast.definitions;
        var names: seq<string> := [];
        var i := 0;
        while i < |definitions|
          invariant 0 <= i <= |definitions|
          invariant MergeBranches(definitions[..i]) == Some(names)
        {
          var subnames := DunderAllFromAst(definitions[i]);
          assert definitions[..i + 1][..i] == definitions[..i];
          if subnames.None? {
            MergeAppend(definitions[..i + 1], definitions[i + 1..]);
            assert definitions[..i + 1] + definitions[i + 1..] == definitions;
            return InvalidStub;
          }
          names := names + subnames.value;
          i := i + 1;
        }
        assert definitions[..i] == definitions;
        return Ok(Some(names));
      }
      if info.ast.ImportedName? {
        return InvalidStub;
      }
      var leaf := DunderAllFromAst(info.ast);
      return Ok(leaf);
    }

    /**
     * `Module._get_dunder_all_from_ast`: the strings of an assignment of a list
     * of string literals, collected element by element; `None` for any other shape.
     */
    method DunderAllFromAst(node: Ast) returns (r: Option<seq<string>>)
      ensures r == LiteralAll(node)
    {
      if !(node.Assign? || node.AugAssign?) {
        return None;
      }
      var rhs := node.value;
      if !rhs.List? {
        return None;
      }
      var names: seq<string> := [];
      var i := 0;
      while i < |rhs.elts|
        invariant 0 <= i <= |rhs.elts|
        invariant LiteralStrings(rhs.elts[..i]) == Some(names)
      {
        var elt := rhs.elts[i];
        assert rhs.elts[..i + 1][..i] == rhs.elts[..i];
        if !elt.Str? {
          assert !LiteralStrings(rhs.elts).Some?;
          return None;
        }
        names := names + [elt.s];
        i := i + 1;
      }
      assert rhs.elts[..i] == rhs.elts;
      return Some(names);
    }

  }

  /** The process-wide resolver over a fixed world of stubs. */
  class Resolver {
    /** The stubs the parser can find (the search context's contents). */
    const world: World
    /** A witness that the world has no re-export cycle. */
    ghost const rank: Rank
    var moduleCache: map<ModulePath, Module>
    /** The modules this resolver has created. */
    ghost var Repr: set<Module>
    /** How many times the parser has been consulted. */
    ghost var parses: nat

    /** The resolver's invariant: its structure is right and every memo is sound. */
    ghost predicate Valid()
      reads this, Repr
    {
      Wellformed() && Sound()
    }

    /**
     * The cache holds exactly the modules of `Repr`, each under its own path
     * and built from the parser's answer for it, and the parser has been
     * consulted once per cached path.
     */
    ghost predicate Wellformed()
      reads this
    {
      && Ranked(world, rank)
      && (forall p :: p in moduleCache ==> moduleCache[p] in Repr && moduleCache[p].path == p)
      && (forall m :: m in Repr ==>
            && Holds(m)
            && m.names == NamesAt(world, m.path)
            && m.hasStub == (Join(m.path, '.') in world))
      && parses == |moduleCache|
    }

    /** Every module's memo agrees with `Resolve`. */
    ghost predicate Sound()
      requires Ranked(world, rank)
      reads this, Repr
    {
      forall m :: m in Repr ==> m.CacheSound(world, rank)
    }

    /** `m` is the module cached for its own path. */
    ghost predicate Holds(m: Module)
      reads this
    {
      m.path in moduleCache && moduleCache[m.path] == m
    }

    /**
     * Between the old and the new state the caches only grew: every cached
     * module stays cached under its path, every memoized name keeps its
     * result, and new modules are fresh.
     */
    twostate predicate Grown()
      reads this, Repr
    {
      && old(Repr) <= Repr && fresh(Repr - old(Repr))
      && (forall p :: p in old(moduleCache) ==> p in moduleCache && moduleCache[p] == old(moduleCache[p]))
      && (forall m: Module, name :: m in old(Repr) && name in old(m.nameCache) ==>
            name in m.nameCache && m.nameCache[name] == old(m.nameCache[name]))
    }

    constructor (world: World, ghost rank: Rank)
      requires Ranked(world, rank)
      ensures Valid()
      ensures this.world == world && this.rank == rank
      ensures moduleCache == map[] && Repr == {} && parses == 0
    {
      this.world := world;
      this.rank := rank;
      moduleCache := map[];
      Repr := {};
      parses := 0;
    }

    /** The state right after caching a fresh, empty module `m` for the new path `path`. */
    twostate predicate JustAdded(path: ModulePath, new m: Module)
      reads this, Repr, m
    {
      && path !in old(moduleCache) && fresh(m)
      && m.path == path && m.nameCache == map[]
      && m.names == NamesAt(world, path) && m.hasStub == (Join(path, '.') in world)
      && moduleCache == old(moduleCache)[path := m] && Repr == old(Repr) + {m}
      && parses == old(parses) + 1
      && forall mm :: mm in old(Repr) ==> unchanged(mm)
    }

    /** Caching a fresh, empty module under a new path keeps the structure right. */
    twostate lemma AddedWellformed(path: ModulePath, new m: Module)
      requires old(Valid()) && JustAdded(path, m)
      ensures Wellformed()
    {
      forall mm | mm in Repr
        ensures Holds(mm) && mm.names == NamesAt(world, mm.path) && mm.hasStub == (Join(mm.path, '.') in world)
      {
        if mm != m {
          assert mm in old(Repr) && old(Holds(mm)) && unchanged(mm);
          assert mm.path != path;
        }
      }
    }

    /** Caching a fresh, empty module keeps every memo sound. */
    twostate lemma AddedSound(path: ModulePath, new m: Module)
      requires old(Valid()) && JustAdded(path, m)
      ensures Ranked(world, rank) && Sound()
    {
    }

    /** Caching a fresh, empty module only grows the caches. */
    twostate lemma AddedGrown(path: ModulePath, new m: Module)
      requires old(Valid()) && JustAdded(path, m)
      ensures Grown()
    {
    }

    /**
     * `Resolver.get_module`: the cached module for `path`, created from the
     * parser's answer on the first request only.
     */
    method GetModule(path: ModulePath) returns (m: Module)
      requires Valid()
      modifies this
      ensures Valid() && Grown() && Holds(m)
      ensures path in moduleCache && moduleCache[path] == m
      ensures m.names == NamesAt(world, path) && m.hasStub == (Join(path, '.') in world)
      ensures path in old(moduleCache) ==> m == old(moduleCache[path]) && unchanged(this)
      ensures path !in old(moduleCache) ==>
        && fresh(m) && m.nameCache == map[]
        && moduleCache == old(moduleCache)[path := m] && Repr == old(Repr) + {m}
        && parses == old(parses) + 1
    {
      if path !in moduleCache {
        var stub := StubNames(world, path);
        var hasStub := stub.Some?;
        var names := if stub.Some? then stub.value else map[];
        m := new Module(names, hasStub, path);
        moduleCache := moduleCache[path := m];
        Repr := Repr + {m};
        parses := parses + 1;
        AddedWellformed(path, m);
        AddedSound(path, m);
        AddedGrown(path, m);
      }
      m := moduleCache[path];
    }

    /** `Resolver.get_name`: resolve `name` in the module at `path`. */
    method GetName(path: ModulePath, name: string) returns (r: ResolvedName)
      requires Valid()
      modifies this, Repr
      ensures Valid() && Grown()
      ensures r == Resolve(world, rank, path, name)
      ensures path in moduleCache && name in moduleCache[path].nameCache && moduleCache[path].nameCache[name] == r
      ensures path in old(moduleCache) && name in old(moduleCache[path].nameCache) ==>
        r == old(moduleCache[path].nameCache[name]) && unchanged(this) && unchanged(Repr)
      decreases rank(Join(path, '.'), name), 2
    {
      var m := GetModule(path);
      r := m.GetName(name, this);
    }

    /** `Resolver.get_fully_qualified_name`: split at the dots and resolve the last piece. */
    method GetFullyQualifiedName(name: string) returns (r: ResolvedName)
      requires Valid()
      modifies this, Repr
      ensures Valid() && Grown()
      ensures r == Resolve(world, rank, SplitQualified(name).0, SplitQualified(name).1)
      ensures var (path, tail) := SplitQualified(name);
        path in moduleCache && tail in moduleCache[path].nameCache && moduleCache[path].nameCache[tail] == r
      ensures var (path, tail) := SplitQualified(name);
        path in old(moduleCache) && tail in old(moduleCache[path].nameCache) ==>
          r == old(moduleCache[path].nameCache[tail]) && unchanged(this) && unchanged(Repr)
    {
      var parts := Split(name, '.');
      var path, tail := parts[..|parts| - 1], parts[|parts| - 1];
      r := GetName(path, tail);
    }
  }
}
