/**
 * What a bare name means inside a module: the semantics that
 * `Module._uncached_get_name` computes, over a fixed world of stubs.
 */
module Resolution {
  import opened Wrappers
  import opened Stubs

  /**
   * `ResolvedName = Union[None, ModulePath, ImportedInfo, NameInfo]`.
   * `Imported` is `ImportedInfo(source_module, info)`.
   */
  datatype ResolvedName =
    | Absent
    | ModuleRef(path: ModulePath)
    | Imported(sourceModule: ModulePath, info: NameInfo)
    | Direct(info: NameInfo)

  /** A ranking of (dotted module, name) pairs, used to measure re-export chains. */
  type Rank = (string, string) -> nat

  /**
   * `name` in module `key` is `from source import sub` where `source.sub` is not
   * itself a module, so resolving it looks `sub` up in `source`.
   */
  predicate ReExportEdge(world: World, key: string, name: string, source: ModulePath, sub: string)
  {
    && key in world && name in world[key]
    && world[key][name].ast == ImportedName(source, Some(sub))
    && Join(source + [sub], '.') !in world
  }

  /** Along every re-export edge the rank falls: the world has no re-export cycle. */
  ghost predicate Ranked(world: World, rank: Rank)
  {
    forall key, name, source, sub ::
      ReExportEdge(world, key, name, source, sub) ==> rank(Join(source, '.'), sub) < rank(key, name)
  }

  /** The result of looking up `name` in the module at `path`. */
  function Resolve(world: World, rank: Rank, path: ModulePath, name: string): (r: ResolvedName)
    requires Ranked(world, rank)
    ensures name !in NamesAt(world, path) ==> r.Absent?
    ensures r.Direct? ==>
      name in NamesAt(world, path) && NamesAt(world, path)[name] == r.info && !r.info.ast.ImportedName?
    ensures r.Imported? ==> name in NamesAt(world, path) && NamesAt(world, path)[name].ast.ImportedName?
    decreases rank(Join(path, '.'), name)
  {
    var names := NamesAt(world, path);
    if name !in names then Absent
    else
      var info := names[name];
      match info.ast
      case ImportedName(source, Some(sub)) =>
        if Join(source + [sub], '.') in world then ModuleRef(source + [sub])
        else
          assert ReExportEdge(world, Join(path, '.'), name, source, sub);
          var inner := Resolve(world, rank, source, sub);
          if inner.Direct? then Imported(source, inner.info) else inner
      case ImportedName(source, None) => ModuleRef(source)
      case _ => Direct(info)
  }

  /** No `NameInfo` in a result, bare or inside `Imported`, is itself an import. */
  predicate Concrete(r: ResolvedName)
  {
    (r.Imported? || r.Direct?) ==> !r.info.ast.ImportedName?
  }

  /** Some module's stub declares `info` under some name. */
  ghost predicate Declared(world: World, info: NameInfo)
  {
    exists key, name :: key in world && name in world[key] && world[key][name] == info
  }

  /** A module with no stub behaves as an empty one: every lookup is `Absent`. */
  lemma MissingModuleAbsent(world: World, rank: Rank, path: ModulePath, name: string)
    requires Ranked(world, rank)
    requires Join(path, '.') !in world
    ensures Resolve(world, rank, path, name) == Absent
  {
  }

  /** Resolution follows an import to its end: no result carries an `ImportedName`. */
  lemma {:induction false} ResolveConcrete(world: World, rank: Rank, path: ModulePath, name: string)
    requires Ranked(world, rank)
    ensures Concrete(Resolve(world, rank, path, name))
    decreases rank(Join(path, '.'), name)
  {
    var names := NamesAt(world, path);
    if name in names {
      match names[name].ast
      case ImportedName(source, Some(sub)) =>
        if Join(source + [sub], '.') !in world {
          assert ReExportEdge(world, Join(path, '.'), name, source, sub);
          ResolveConcrete(world, rank, source, sub);
        }
      case _ =>
    }
  }

  /**
   * A declaration in a result is one that some stub really makes; a local
   * (`Direct`) result is the module's own declaration of that name.
   */
  lemma {:induction false} ResolveDeclared(world: World, rank: Rank, path: ModulePath, name: string)
    requires Ranked(world, rank)
    ensures var r := Resolve(world, rank, path, name);
      (r.Imported? || r.Direct?) ==> Declared(world, r.info)
    ensures var r := Resolve(world, rank, path, name);
      r.Direct? ==> name in NamesAt(world, path) && NamesAt(world, path)[name] == r.info
    decreases rank(Join(path, '.'), name)
  {
    var names := NamesAt(world, path);
    if name in names {
      var key := Join(path, '.');
      match names[name].ast
      case ImportedName(source, Some(sub)) =>
        if Join(source + [sub], '.') !in world {
          assert ReExportEdge(world, key, name, source, sub);
          ResolveDeclared(world, rank, source, sub);
        }
      case ImportedName(source, None) =>
      case _ =>
        assert key in world && name in world[key] && world[key][name] == names[name];
    }
  }

  /**
   * A module reference is either a module that has a stub or the target of
   * some `import X` declaration.
   */
  lemma {:induction false} ModuleRefJustified(world: World, rank: Rank, path: ModulePath, name: string)
    requires Ranked(world, rank)
    ensures var r := Resolve(world, rank, path, name);
      r.ModuleRef? ==> Join(r.path, '.') in world || Declared(world, NameInfo(ImportedName(r.path, None)))
    decreases rank(Join(path, '.'), name)
  {
    var names := NamesAt(world, path);
    if name in names {
      var key := Join(path, '.');
      match names[name].ast
      case ImportedName(source, Some(sub)) =>
        if Join(source + [sub], '.') !in world {
          assert ReExportEdge(world, key, name, source, sub);
          ModuleRefJustified(world, rank, source, sub);
        }
      case ImportedName(source, None) =>
        assert key in world && name in world[key] && world[key][name] == NameInfo(ImportedName(source, None));
      case _ =>
    }
  }

  /**
   * The result does not depend on which ranking witnesses acyclicity: it is a
   * function of the world alone.
   */
  lemma {:induction false} RankIrrelevant(world: World, rank1: Rank, rank2: Rank, path: ModulePath, name: string)
    requires Ranked(world, rank1) && Ranked(world, rank2)
    ensures Resolve(world, rank1, path, name) == Resolve(world, rank2, path, name)
    decreases rank1(Join(path, '.'), name)
  {
    var names := NamesAt(world, path);
    if name in names {
      match names[name].ast
      case ImportedName(source, Some(sub)) =>
        if Join(source + [sub], '.') !in world {
          assert ReExportEdge(world, Join(path, '.'), name, source, sub);
          RankIrrelevant(world, rank1, rank2, source, sub);
        }
      case _ =>
    }
  }

  /** A declaration that is not an import is returned as it stands. */
  lemma LocalDeclaration(world: World, rank: Rank, path: ModulePath, name: string)
    requires Ranked(world, rank)
    requires name in NamesAt(world, path) && !NamesAt(world, path)[name].ast.ImportedName?
    ensures Resolve(world, rank, path, name) == Direct(NamesAt(world, path)[name])
  {
  }

  /** `import X` denotes the module path `X`, whether or not `X` has a stub. */
  lemma PlainImport(world: World, rank: Rank, path: ModulePath, name: string, source: ModulePath)
    requires Ranked(world, rank)
    requires name in NamesAt(world, path) && NamesAt(world, path)[name].ast == ImportedName(source, None)
    ensures Resolve(world, rank, path, name) == ModuleRef(source)
  {
  }

  /**
   * `from M import N` where the module `M.N` exists denotes that submodule,
   * never a re-exported symbol.
   */
  lemma SubmoduleWins(world: World, rank: Rank, path: ModulePath, name: string, source: ModulePath, sub: string)
    requires Ranked(world, rank)
    requires name in NamesAt(world, path)
    requires NamesAt(world, path)[name].ast == ImportedName(source, Some(sub))
    requires Join(source + [sub], '.') in world
    ensures Resolve(world, rank, path, name) == ModuleRef(source + [sub])
  {
  }

  /**
   * `from M import N` where `M.N` is not a module: a local declaration found in
   * `M` is wrapped once with `M` as its source; anything else found there is
   * passed on unchanged.
   */
  lemma ReExportWrapsOnce(world: World, rank: Rank, path: ModulePath, name: string, source: ModulePath, sub: string)
    requires Ranked(world, rank)
    requires name in NamesAt(world, path)
    requires NamesAt(world, path)[name].ast == ImportedName(source, Some(sub))
    requires Join(source + [sub], '.') !in world
    ensures var inner := Resolve(world, rank, source, sub);
      Resolve(world, rank, path, name) == if inner.Direct? then Imported(source, inner.info) else inner
  {
  }

  /** A chain of re-export edges, each pair in the list leading to the next. */
  predicate Chain(world: World, chain: seq<(ModulePath, string)>)
  {
    forall i :: 0 <= i < |chain| - 1 ==>
      ReExportEdge(world, Join(chain[i].0, '.'), chain[i].1, chain[i + 1].0, chain[i + 1].1)
  }

  /**
   * The rank falls by at least one per hop, so a chain has at most as many
   * hops as the rank of its first pair.
   */
  lemma {:induction false} ChainFalls(world: World, rank: Rank, chain: seq<(ModulePath, string)>)
    requires Ranked(world, rank)
    requires |chain| >= 1 && Chain(world, chain)
    ensures rank(Join(chain[|chain| - 1].0, '.'), chain[|chain| - 1].1) + |chain| - 1
      <= rank(Join(chain[0].0, '.'), chain[0].1)
    decreases |chain|
  {
    if |chain| > 1 {
      var rest := chain[1..];
      assert Chain(world, rest) by {
        forall i | 0 <= i < |rest| - 1
          ensures ReExportEdge(world, Join(rest[i].0, '.'), rest[i].1, rest[i + 1].0, rest[i + 1].1)
        {
          assert rest[i] == chain[i + 1] && rest[i + 1] == chain[i + 2];
        }
      }
      ChainFalls(world, rank, rest);
      assert ReExportEdge(world, Join(chain[0].0, '.'), chain[0].1, chain[1].0, chain[1].1);
    }
  }

  /**
   * The hazard the source leaves open (resolver.py:100): a re-export cycle,
   * such as two stubs importing a name from each other, has no ranking; in a
   * ranked world a chain never comes back to the pair it started from.
   */
  lemma NoCycleWhenRanked(world: World, rank: Rank, chain: seq<(ModulePath, string)>)
    requires Ranked(world, rank)
    requires |chain| >= 2 && Chain(world, chain)
    ensures (Join(chain[0].0, '.'), chain[0].1) != (Join(chain[|chain| - 1].0, '.'), chain[|chain| - 1].1)
  {
    ChainFalls(world, rank, chain);
  }
}
