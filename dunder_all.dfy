/**
 * What `__all__` contains: the literal list extraction of
 * `Module._get_dunder_all_from_ast` and the merging and error rules of
 * `Module.get_dunder_all`.
 */
module DunderAll {
  import opened Wrappers
  import opened Stubs
  import opened Resolution

  /** The strings of a list of literals, or `None` as soon as one element is not a string. */
  function LiteralStrings(elts: seq<Expr>): (r: Option<seq<string>>)
    ensures r.Some? <==> forall i :: 0 <= i < |elts| ==> elts[i].Str?
    ensures r.Some? ==> |r.value| == |elts| && forall i :: 0 <= i < |elts| ==> r.value[i] == elts[i].s
    decreases |elts|
  {
    if |elts| == 0 then Some([])
    else
      var last := elts[|elts| - 1];
      match LiteralStrings(elts[..|elts| - 1])
      case Some(names) => if last.Str? then Some(names + [last.s]) else None
      case None => None
  }

  /**
   * The statically known value of one `__all__` definition: exactly an
   * assignment or augmented assignment of a list of string literals gives a
   * list, with one string per element, in order.
   */
  function LiteralAll(node: Ast): (r: Option<seq<string>>)
    ensures r.Some? <==> IsLiteralList(node)
    ensures r.Some? ==>
      var elts := node.value.elts;
      |r.value| == |elts| && forall i :: 0 <= i < |elts| ==> r.value[i] == elts[i].s
  {
    match node
    case Assign(value) => if value.List? then LiteralStrings(value.elts) else None
    case AugAssign(value) => if value.List? then LiteralStrings(value.elts) else None
    case _ => None
  }

  /** The shape of `__all__` definition whose strings can be read off statically. */
  predicate IsLiteralList(node: Ast)
  {
    && (node.Assign? || node.AugAssign?)
    && node.value.List?
    && forall i :: 0 <= i < |node.value.elts| ==> node.value.elts[i].Str?
  }

  /**
   * The branches of an overloaded `__all__` merged in order, or `None` when
   * some branch is not a literal list.
   */
  function MergeBranches(definitions: seq<Ast>): (r: Option<seq<string>>)
    ensures r.Some? <==> forall i :: 0 <= i < |definitions| ==> LiteralAll(definitions[i]).Some?
    decreases |definitions|
  {
    if |definitions| == 0 then Some([])
    else
      match (MergeBranches(definitions[..|definitions| - 1]), LiteralAll(definitions[|definitions| - 1]))
      case (Some(names), Some(more)) => Some(names + more)
      case _ => None
  }

  /** Merging is concatenation: the merge of two runs of branches joins their merges. */
  lemma {:induction false} MergeAppend(left: seq<Ast>, right: seq<Ast>)
    ensures MergeBranches(left + right) ==
      if MergeBranches(left).Some? && MergeBranches(right).Some?
      then Some(MergeBranches(left).value + MergeBranches(right).value)
      else None
    decreases |right|
  {
    if |right| == 0 {
      assert left + right == left;
      assert MergeBranches(right) == Some([]);
      if MergeBranches(left).Some? {
        assert MergeBranches(left).value + [] == MergeBranches(left).value;
      }
    } else {
      var init, last := right[..|right| - 1], right[|right| - 1];
      MergeAppend(left, init);
      assert right == init + [last];
      assert left + right == (left + init) + [last];
      MergeSnoc(init, last);
      MergeSnoc(left + init, last);
      match (MergeBranches(left), MergeBranches(init), LiteralAll(last))
      case (Some(a), Some(b), Some(c)) =>
        assert (a + b) + c == a + (b + c);
      case _ =>
    }
  }

  /** One more branch at the end extends the merge by that branch's list. */
  lemma MergeSnoc(definitions: seq<Ast>, last: Ast)
    ensures MergeBranches(definitions + [last]) ==
      if MergeBranches(definitions).Some? && LiteralAll(last).Some?
      then Some(MergeBranches(definitions).value + LiteralAll(last).value)
      else None
  {
    assert (definitions + [last])[..|definitions|] == definitions;
  }

  /** A single branch merges to its own list. */
  lemma MergeOne(definition: Ast)
    ensures MergeBranches([definition]) == LiteralAll(definition)
  {
    assert [definition][..0] == [];
    assert MergeBranches([]) == Some([]);
    if LiteralAll(definition).Some? {
      assert [] + LiteralAll(definition).value == LiteralAll(definition).value;
    }
  }

  /**
   * `get_dunder_all` applied to what `__all__` resolved to: no `__all__` gives
   * `None` without error, a module path is an error, and an imported
   * declaration is read exactly as the declaration itself.
   */
  function DunderAllOf(resolved: ResolvedName): (r: Outcome<Option<seq<string>>>)
    ensures resolved.Absent? ==> r == Ok(None)
    ensures resolved.ModuleRef? ==> r.InvalidStub?
    ensures r.InvalidStub? <==>
      resolved.ModuleRef? || ((resolved.Imported? || resolved.Direct?) && DunderAllOfInfo(resolved.info).InvalidStub?)
    ensures r.Ok? && r.value.Some? ==> resolved.Imported? || resolved.Direct?
  {
    match resolved
    case Absent => Ok(None)
    case ModuleRef(_) => InvalidStub
    case Imported(_, info) => DunderAllOfInfo(info)
    case Direct(info) => DunderAllOfInfo(info)
  }

  /**
   * `get_dunder_all` once the result is a declaration: an error exactly for an
   * import or an overload with a branch that is not a literal list; a list
   * only from an overload or a literal list.
   */
  function DunderAllOfInfo(info: NameInfo): (r: Outcome<Option<seq<string>>>)
    ensures r.InvalidStub? <==>
      || info.ast.ImportedName?
      || (info.ast.OverloadedName?
          && exists i :: 0 <= i < |info.ast.definitions| && LiteralAll(info.ast.definitions[i]).None?)
    ensures r.Ok? && r.value.Some? ==> info.ast.OverloadedName? || IsLiteralList(info.ast)
  {
    match info.ast
    case OverloadedName(definitions) =>
      (match MergeBranches(definitions)
       case Some(names) => Ok(Some(names))
       case None => InvalidStub)
    case ImportedName(_, _) => InvalidStub
    case _ => Ok(LiteralAll(info.ast))
  }

  /** Where an imported `__all__` came from does not matter: it reads as the declaration itself. */
  lemma ImportedUnwrapped(source: ModulePath, info: NameInfo)
    ensures DunderAllOf(Imported(source, info)) == DunderAllOf(Direct(info))
  {
  }

  /**
   * For a module's `__all__`, `InvalidStub` arises exactly when it names a
   * module or it is overloaded with a branch that is not a literal list; the
   * error for an imported declaration never arises.
   */
  lemma {:induction false} DunderAllInvalid(world: World, rank: Rank, path: ModulePath)
    requires Ranked(world, rank)
    ensures var resolved := Resolve(world, rank, path, "__all__");
      DunderAllOf(resolved).InvalidStub? <==>
        || resolved.ModuleRef?
        || ((resolved.Imported? || resolved.Direct?) && resolved.info.ast.OverloadedName?
            && exists i :: 0 <= i < |resolved.info.ast.definitions| && LiteralAll(resolved.info.ast.definitions[i]).None?)
  {
    ResolveConcrete(world, rank, path, "__all__");
  }

  /**
   * The asymmetry of the two contexts: a definition that is not a literal list
   * gives no list and no error on its own, but makes an overloaded `__all__`
   * invalid.
   */
  lemma LeafVersusBranch(node: Ast, others: seq<Ast>)
    requires !node.OverloadedName? && !node.ImportedName?
    requires LiteralAll(node).None?
    ensures DunderAllOfInfo(NameInfo(node)) == Ok(None)
    ensures DunderAllOfInfo(NameInfo(OverloadedName(others + [node]))) == InvalidStub
  {
    assert (others + [node])[|others|] == node;
  }

  /** Overloaded branches `__all__ = ["a"]` and `__all__ = ["b"]` give `["a", "b"]`. */
  lemma MergeExample()
    ensures DunderAllOfInfo(NameInfo(OverloadedName([Assign(List([Str("a")])), Assign(List([Str("b")]))])))
      == Ok(Some(["a", "b"]))
  {
    var a, b := [Str("a")], [Str("b")];
    assert LiteralStrings(a) == Some(["a"]) by {
      assert a[..0] == [] && LiteralStrings([]) == Some([]);
      assert [] + ["a"] == ["a"];
    }
    assert LiteralStrings(b) == Some(["b"]) by {
      assert b[..0] == [] && LiteralStrings([]) == Some([]);
      assert [] + ["b"] == ["b"];
    }
    var defs := [Assign(List(a)), Assign(List(b))];
    MergeOne(defs[0]);
    assert defs[..1] == [defs[0]];
    assert MergeBranches(defs) == Some(["a"] + ["b"]);
    assert ["a"] + ["b"] == ["a", "b"];
  }
}
