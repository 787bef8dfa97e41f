/**
 * `extract_imports` (cli/context.py): the module names a Python source file
 * imports, read off the nodes of its syntax tree in `ast.walk` order.
 */
module Imports {
  import opened Wrappers

  /** The part of a syntax-tree node that import extraction looks at. */
  datatype PyNode =
    | ImportNode(names: seq<string>)         // `import a, b as c`: the alias names a, b
    | ImportFromNode(moduleName: Option<string>) // `from m import x`; `None` for `from . import x`
    | OtherNode

  /** The names one node contributes: every alias of an `import`, the module of a `from` with a non-empty module. */
  function NodeImports(n: PyNode): seq<string>
  {
    match n
    case ImportNode(names) => names
    case ImportFromNode(m) => if m.Some? && m.value != "" then [m.value] else []
    case OtherNode => []
  }

  /** Whether node `n` makes `x` one of the imported names. */
  predicate Imports(n: PyNode, x: string)
  {
    || (n.ImportNode? && x in n.names)
    || (n.ImportFromNode? && n.moduleName == Some(x) && x != "")
  }

  /** The names of all nodes, in walk order. */
  function ImportsOf(nodes: seq<PyNode>): seq<string>
  {
    if nodes == [] then [] else ImportsOf(nodes[..|nodes| - 1]) + NodeImports(nodes[|nodes| - 1])
  }

  /**
   * The names come node after node: the list for a concatenated walk is the
   * concatenation of the lists.
   */
  lemma {:induction false} ImportsOfAppend(a: seq<PyNode>, b: seq<PyNode>)
    ensures ImportsOf(a + b) == ImportsOf(a) + ImportsOf(b)
    decreases |b|
  {
    if b == [] {
      assert a + b == a;
    } else {
      var init := b[..|b| - 1];
      var last := NodeImports(b[|b| - 1]);
      assert (a + b)[..|a + b| - 1] == a + init;
      assert (a + b)[|a + b| - 1] == b[|b| - 1];
      assert ImportsOf(a + b) == ImportsOf(a + init) + last;
      assert ImportsOf(b) == ImportsOf(init) + last;
      ImportsOfAppend(a, init);
    }
  }

  /**
   * A name is extracted exactly when some node is an `import` listing it or a
   * `from` naming it as its module; `from . import x` contributes nothing.
   */
  lemma {:induction false} ImportsOfMember(nodes: seq<PyNode>, x: string)
    ensures x in ImportsOf(nodes) <==> exists i :: 0 <= i < |nodes| && Imports(nodes[i], x)
  {
    if nodes != [] {
      var init := nodes[..|nodes| - 1];
      var last := nodes[|nodes| - 1];
      ImportsOfMember(init, x);
      assert x in NodeImports(last) <==> Imports(last, x);
      if exists i :: 0 <= i < |nodes| && Imports(nodes[i], x) {
        var i :| 0 <= i < |nodes| && Imports(nodes[i], x);
        if i < |init| {
          assert init[i] == nodes[i];
        }
      }
      if x in ImportsOf(init) {
        var i :| 0 <= i < |init| && Imports(init[i], x);
        assert nodes[i] == init[i];
      }
    }
  }

  /** What `extract_imports` returns for a walk, or for a parse failure (`None`). */
  function Extracted(walk: Option<seq<PyNode>>): seq<string>
  {
    match walk
    case None => []
    case Some(nodes) => ImportsOf(nodes)
  }

  /**
   * `extract_imports(code)`: `walk` is the `ast.walk` order of the parsed code,
   * or `None` when `ast.parse` raises, in which case nothing is extracted.
   */
  method ExtractImports(walk: Option<seq<PyNode>>) returns (imports: seq<string>)
    ensures walk.None? ==> imports == []
    ensures walk.Some? ==> imports == ImportsOf(walk.value)
    ensures imports == Extracted(walk)
  {
    imports := [];
    if walk.Some? {
      var nodes := walk.value;
      var i := 0;
      while i < |nodes|
        invariant 0 <= i <= |nodes|
        invariant imports == ImportsOf(nodes[..i])
      {
        var node := nodes[i];
        match node {
          case ImportNode(names) =>
            var j := 0;
            ghost var before := imports;
            while j < |names|
              invariant 0 <= j <= |names|
              invariant imports == before + names[..j]
            {
              imports := imports + [names[j]];
              j := j + 1;
              assert names[..j] == names[..j - 1] + [names[j - 1]];
            }
            assert names[..|names|] == names;
          case ImportFromNode(m) =>
            if m.Some? && m.value != "" {
              imports := imports + [m.value];
            }
          case OtherNode =>
        }
        assert nodes[..i + 1][..i] == nodes[..i];
        i := i + 1;
      }
      assert nodes[..|nodes|] == nodes;
    }
  }

  /** The file `import os, sys` followed by `from . import x` and `from pkg.mod import y`. */
  lemma ExtractExample()
    ensures ImportsOf([ImportNode(["os", "sys"]), ImportFromNode(None), OtherNode, ImportFromNode(Some("pkg.mod"))])
            == ["os", "sys", "pkg.mod"]
  {
    var ns := [ImportNode(["os", "sys"]), ImportFromNode(None), OtherNode, ImportFromNode(Some("pkg.mod"))];
    assert ns[..3][..2][..1] == [ImportNode(["os", "sys"])];
    assert ImportsOf(ns[..3][..2][..1]) == ["os", "sys"];
  }
}
