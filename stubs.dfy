/**
 * The parser's view of the stubs, as the resolver consumes it: module paths,
 * the few syntax-tree shapes the resolver inspects, per-name declarations,
 * and the fixed world of stub files the parser can find.
 */
module Stubs {
  import opened Wrappers

  /** A module path such as ["pkg", "sub", "mod"] for `pkg.sub.mod`. */
  type ModulePath = seq<string>

  /** Expressions the resolver looks at on the right-hand side of `__all__`. */
  datatype Expr =
    | List(elts: seq<Expr>)
    | Str(s: string)
    | OtherExpr

  /**
   * What a declaration's `ast` can be: an assignment or augmented assignment,
   * any other syntax node, an overloaded name holding the nodes of all its
   * textual definitions in order, or an import (`name` is `None` for
   * `import X`, `Some(Y)` for `from X import Y`).
   */
  datatype Ast =
    | Assign(value: Expr)
    | AugAssign(value: Expr)
    | OtherNode
    | OverloadedName(definitions: seq<Ast>)
    | ImportedName(moduleName: ModulePath, name: Option<string>)

  /** One symbol's parsed declaration. */
  datatype NameInfo = NameInfo(ast: Ast)

  /** A module's symbol table. */
  type NameDict = map<string, NameInfo>

  /**
   * Every stub the parser can find, keyed by dotted module name; a name that
   * is not a key is a module for which no stub exists.
   */
  type World = map<string, NameDict>

  /** `sep.join(parts)`. */
  function Join(parts: seq<string>, sep: char): (r: string)
    ensures |parts| >= 1 ==> |parts[0]| <= |r| && r[..|parts[0]|] == parts[0]
    ensures sep in r <==> |parts| >= 2 || exists i :: 0 <= i < |parts| && sep in parts[i]
    decreases |parts|
  {
    if |parts| == 0 then ""
    else if |parts| == 1 then parts[0]
    else parts[0] + [sep] + Join(parts[1..], sep)
  }

  /** `s.split(sep)`: the pieces between separators, never an empty list. */
  function Split(s: string, sep: char): (parts: seq<string>)
    ensures |parts| >= 1
    ensures forall i :: 0 <= i < |parts| ==> sep !in parts[i]
    decreases |s|
  {
    if |s| == 0 then [""]
    else
      var rest := Split(s[1..], sep);
      if s[0] == sep then [""] + rest
      else [[s[0]] + rest[0]] + rest[1..]
  }

  lemma {:induction false} JoinSplit(s: string, sep: char)
    ensures Join(Split(s, sep), sep) == s
    decreases |s|
  {
    if |s| > 0 {
      var rest := Split(s[1..], sep);
      JoinSplit(s[1..], sep);
      if s[0] == sep {
        assert Split(s, sep) == [""] + rest;
        assert ([""] + rest)[1..] == rest;
        assert [s[0]] + s[1..] == s;
      } else if |rest| == 1 {
        assert [s[0]] + s[1..] == s;
      } else {
        var parts := Split(s, sep);
        assert parts[1..] == rest[1..];
        assert Join(rest, sep) == rest[0] + [sep] + Join(rest[1..], sep);
        assert Join(parts, sep) == ([s[0]] + rest[0]) + [sep] + Join(rest[1..], sep);
        assert [s[0]] + s[1..] == s;
      }
    }
  }

  /** Splitting a piece free of separators, with or without more text after a separator. */
  lemma {:induction false} SplitPiece(p: string, sep: char, tail: Option<string>)
    requires sep !in p
    ensures tail.None? ==> Split(p, sep) == [p]
    ensures tail.Some? ==> Split(p + [sep] + tail.value, sep) == [p] + Split(tail.value, sep)
    decreases |p|
  {
    if |p| > 0 {
      SplitPiece(p[1..], sep, tail);
      if tail.Some? {
        assert (p + [sep] + tail.value)[1..] == p[1..] + [sep] + tail.value;
      }
      assert [p[0]] + p[1..] == p;
    } else if tail.Some? {
      assert p + [sep] + tail.value == [sep] + tail.value;
      assert ([sep] + tail.value)[1..] == tail.value;
    }
  }

  lemma {:induction false} SplitJoin(parts: seq<string>, sep: char)
    requires |parts| >= 1
    requires forall i :: 0 <= i < |parts| ==> sep !in parts[i]
    ensures Split(Join(parts, sep), sep) == parts
    decreases |parts|
  {
    if |parts| == 1 {
      SplitPiece(parts[0], sep, None);
    } else {
      SplitJoin(parts[1..], sep);
      SplitPiece(parts[0], sep, Some(Join(parts[1..], sep)));
      assert [parts[0]] + parts[1..] == parts;
    }
  }

  /**
   * `*path, tail = name.split(".")`: every piece but the last is the module
   * path, the last is the symbol.
   */
  function SplitQualified(name: string): (r: (ModulePath, string))
    ensures '.' !in r.1 && forall i :: 0 <= i < |r.0| ==> '.' !in r.0[i]
  {
    var parts := Split(name, '.');
    (parts[..|parts| - 1], parts[|parts| - 1])
  }

  /** Splitting a qualified name and joining its pieces back gives the name. */
  lemma QualifiedRoundTrip(name: string)
    ensures Join(SplitQualified(name).0 + [SplitQualified(name).1], '.') == name
  {
    var parts := Split(name, '.');
    assert parts[..|parts| - 1] + [parts[|parts| - 1]] == parts;
    JoinSplit(name, '.');
  }

  /** A name without a dot is looked up in the module with the empty path. */
  lemma UndottedName(name: string)
    requires '.' !in name
    ensures SplitQualified(name) == ([], name)
  {
    SplitPiece(name, '.', None);
  }

  /** A dotted name built from dot-free pieces splits back into the same path and tail. */
  lemma QualifiedOfPath(path: ModulePath, tail: string)
    requires '.' !in tail && forall i :: 0 <= i < |path| ==> '.' !in path[i]
    ensures SplitQualified(Join(path + [tail], '.')) == (path, tail)
  {
    var parts := path + [tail];
    SplitJoin(parts, '.');
    assert parts[..|parts| - 1] == path;
  }

  /** `parser.get_stub_names(".".join(path))`: the module's names, or `None` when no stub exists. */
  function StubNames(world: World, path: ModulePath): (r: Option<NameDict>)
    ensures r.Some? <==> Join(path, '.') in world
    ensures r.Some? ==> r.value == world[Join(path, '.')]
  {
    var key := Join(path, '.');
    if key in world then Some(world[key]) else None
  }

  /** The names a `Module` holds for `path`: an empty table when no stub exists. */
  function NamesAt(world: World, path: ModulePath): (r: NameDict)
    ensures Join(path, '.') !in world ==> r == map[]
    ensures Join(path, '.') in world ==> r == world[Join(path, '.')]
  {
    match StubNames(world, path)
    case Some(names) => names
    case None => map[]
  }
}
