/**
 * `build_file_dependency_graph` (cli/context.py): map every project file to
 * the project files it imports, resolving import names through the module
 * names derived from relative paths.
 */
module DepGraph {
  import opened Wrappers
  import opened Text
  import Imports
  import SourceFiles

  /** The module name of a relative path: every ".py" removed, then every "/" turned into ".". */
  function ModuleName(rel: string): string
  {
    ReplaceChar(ReplaceAll(rel, ".py", ""), '/', '.')
  }

  /** Removing ".py" from a path whose stem has no dot leaves the stem. */
  lemma {:induction false} StripPySuffix(stem: string)
    requires '.' !in stem
    ensures ReplaceAll(stem + ".py", ".py", "") == stem
  {
    var s := stem + ".py";
    if stem == [] {
      assert s[..3] == ".py" && s[3..] == "";
    } else {
      assert s[..3] != ".py" by {
        assert s[0] == stem[0] && stem[0] in stem;
      }
      assert s[1..] == stem[1..] + ".py";
      assert forall c :: c in stem[1..] ==> c in stem;
      StripPySuffix(stem[1..]);
    }
  }

  /** For a path `stem.py` whose stem has no dot, the module name is the stem with "/" read as ".". */
  lemma ModuleNameOfPlainPath(stem: string)
    requires '.' !in stem
    ensures ModuleName(stem + ".py") == ReplaceChar(stem, '/', '.')
    ensures '/' !in ModuleName(stem + ".py")
  {
    StripPySuffix(stem);
  }

  /** `pkg/mod.py` is the module `pkg.mod`. */
  lemma ModuleNameExample()
    ensures ModuleName("pkg/mod.py") == "pkg.mod"
  {
    assert "pkg/mod.py" == "pkg/mod" + ".py";
    ModuleNameOfPlainPath("pkg/mod");
  }

  /** `module_to_file` after the first loop: later files overwrite earlier ones with the same module name. */
  function ModuleMap(files: seq<SourceFiles.PyFile>): map<string, string>
  {
    if files == [] then map[]
    else
      var last := files[|files| - 1];
      ModuleMap(files[..|files| - 1])[ModuleName(last.rel) := last.path]
  }

  /** The module map has exactly the files' module names as keys. */
  lemma {:induction false} ModuleMapKeys(files: seq<SourceFiles.PyFile>)
    ensures ModuleMap(files).Keys == set f | f in files :: ModuleName(f.rel)
  {
    if files != [] {
      var init := files[..|files| - 1];
      ModuleMapKeys(init);
      assert files == init + [files[|files| - 1]];
    }
  }

  /** File `i` is the last of `files` whose module name is `m`. */
  predicate LastWithModule(files: seq<SourceFiles.PyFile>, i: int, m: string)
  {
    0 <= i < |files| && ModuleName(files[i].rel) == m
    && forall j :: i < j < |files| ==> ModuleName(files[j].rel) != m
  }

  /**
   * A module name maps to the path of the last file carrying it: on a
   * collision the later file wins.
   */
  lemma {:induction false} ModuleMapLaterWins(files: seq<SourceFiles.PyFile>, m: string)
    requires m in ModuleMap(files)
    ensures exists i :: LastWithModule(files, i, m) && ModuleMap(files)[m] == files[i].path
  {
    var init := files[..|files| - 1];
    var last := files[|files| - 1];
    if ModuleName(last.rel) != m {
      ModuleMapLaterWins(init, m);
      var i :| LastWithModule(init, i, m) && ModuleMap(init)[m] == init[i].path;
      assert files[i] == init[i];
      assert forall j :: i < j < |init| ==> files[j] == init[j];
      assert LastWithModule(files, i, m);
    } else {
      assert LastWithModule(files, |files| - 1, m);
    }
  }

  /** The dependencies of one import list: the files of the names in the module map, in import order. */
  function Resolve(imports: seq<string>, moduleToFile: map<string, string>): (r: seq<string>)
    ensures |r| <= |imports|
  {
    if imports == [] then []
    else
      var rest := Resolve(imports[..|imports| - 1], moduleToFile);
      var imp := imports[|imports| - 1];
      if imp in moduleToFile then rest + [moduleToFile[imp]] else rest
  }

  /** A file is a dependency exactly when some import resolves to it; other imports are dropped. */
  lemma {:induction false} ResolveMember(imports: seq<string>, moduleToFile: map<string, string>, x: string)
    ensures x in Resolve(imports, moduleToFile)
            <==> exists k :: 0 <= k < |imports| && imports[k] in moduleToFile && moduleToFile[imports[k]] == x
  {
    if imports != [] {
      var init := imports[..|imports| - 1];
      ResolveMember(init, moduleToFile, x);
      assert forall k :: 0 <= k < |init| ==> imports[k] == init[k];
    }
  }

  /**
   * Resolution keeps import order: the dependencies of a concatenated import
   * list are those of the first part followed by those of the second.
   */
  lemma {:induction false} ResolveAppend(a: seq<string>, b: seq<string>, moduleToFile: map<string, string>)
    ensures Resolve(a + b, moduleToFile) == Resolve(a, moduleToFile) + Resolve(b, moduleToFile)
    decreases |b|
  {
    if b == [] {
      assert a + b == a;
    } else {
      var init := b[..|b| - 1];
      assert (a + b)[..|a + b| - 1] == a + init;
      assert (a + b)[|a + b| - 1] == b[|b| - 1];
      ResolveAppend(a, init, moduleToFile);
    }
  }

  /** No import name resolves when none is a project module. */
  lemma {:induction false} ResolveNone(imports: seq<string>, moduleToFile: map<string, string>)
    requires forall k :: 0 <= k < |imports| ==> imports[k] !in moduleToFile
    ensures Resolve(imports, moduleToFile) == []
  {
    if imports != [] {
      ResolveNone(imports[..|imports| - 1], moduleToFile);
    }
  }

  /** The graph entry of one file: `[]` when it cannot be read. */
  function Dependencies(f: SourceFiles.PyFile, moduleToFile: map<string, string>): seq<string>
  {
    if f.read.None? then [] else Resolve(Imports.Extracted(f.walk), moduleToFile)
  }

  /** `dependency_graph` after the second loop. */
  function Graph(files: seq<SourceFiles.PyFile>, moduleToFile: map<string, string>): map<string, seq<string>>
  {
    if files == [] then map[]
    else
      var last := files[|files| - 1];
      Graph(files[..|files| - 1], moduleToFile)[last.path := Dependencies(last, moduleToFile)]
  }

  /** Every file is a key of the graph, and nothing else is. */
  lemma {:induction false} GraphKeys(files: seq<SourceFiles.PyFile>, moduleToFile: map<string, string>)
    ensures Graph(files, moduleToFile).Keys == set f | f in files :: f.path
  {
    if files != [] {
      var init := files[..|files| - 1];
      GraphKeys(init, moduleToFile);
      assert files == init + [files[|files| - 1]];
    }
  }

  /** With distinct paths, each file's entry is its own dependency list. */
  lemma {:induction false} GraphValue(files: seq<SourceFiles.PyFile>, moduleToFile: map<string, string>, i: nat)
    requires SourceFiles.DistinctPaths(files)
    requires i < |files|
    ensures files[i].path in Graph(files, moduleToFile)
    ensures Graph(files, moduleToFile)[files[i].path] == Dependencies(files[i], moduleToFile)
  {
    var init := files[..|files| - 1];
    if i < |init| {
      assert files[i] == init[i];
      assert files[i].path != files[|files| - 1].path;
      GraphValue(init, moduleToFile, i);
    }
  }

  /** The files `build_file_dependency_graph` considers. */
  function Considered(files: seq<SourceFiles.PyFile>): seq<SourceFiles.PyFile>
  {
    SourceFiles.Unignored(files, SourceFiles.IgnorePatterns)
  }

  /** The loop resolving one file's imports. */
  method ResolveImports(imports: seq<string>, moduleToFile: map<string, string>) returns (dependencies: seq<string>)
    ensures dependencies == Resolve(imports, moduleToFile)
  {
    dependencies := [];
    var k := 0;
    while k < |imports|
      invariant 0 <= k <= |imports|
      invariant dependencies == Resolve(imports[..k], moduleToFile)
    {
      var imp := imports[k];
      if imp in moduleToFile {
        dependencies := dependencies + [moduleToFile[imp]];
      }
      assert imports[..k + 1][..k] == imports[..k];
      k := k + 1;
    }
    assert imports[..|imports|] == imports;
  }

  /** The first loop of `build_file_dependency_graph`: each file's module name mapped to its path. */
  method BuildModuleMap(files: seq<SourceFiles.PyFile>) returns (moduleToFile: map<string, string>)
    ensures moduleToFile == ModuleMap(files)
  {
    moduleToFile := map[];
    var i := 0;
    while i < |files|
      invariant 0 <= i <= |files|
      invariant moduleToFile == ModuleMap(files[..i])
    {
      var f := files[i];
      moduleToFile := moduleToFile[ModuleName(f.rel) := f.path];
      assert files[..i + 1][..i] == files[..i];
      i := i + 1;
    }
    assert files[..|files|] == files;
  }

  /** The body of the second loop: `[]` for a file that cannot be read, else its resolved imports. */
  method FileDependencies(f: SourceFiles.PyFile, moduleToFile: map<string, string>) returns (dependencies: seq<string>)
    ensures dependencies == Dependencies(f, moduleToFile)
  {
    if f.read.None? {
      dependencies := [];
    } else {
      var imports := Imports.ExtractImports(f.walk);
      dependencies := ResolveImports(imports, moduleToFile);
    }
  }

  /** The two loops of `build_file_dependency_graph` over the files it considers. */
  method BuildGraph(filtered: seq<SourceFiles.PyFile>) returns (graph: map<string, seq<string>>)
    ensures graph == Graph(filtered, ModuleMap(filtered))
  {
    var moduleToFile := BuildModuleMap(filtered);
    graph := map[];
    var i := 0;
    while i < |filtered|
      invariant 0 <= i <= |filtered|
      invariant graph == Graph(filtered[..i], moduleToFile)
    {
      var f := filtered[i];
      var dependencies := FileDependencies(f, moduleToFile);
      graph := graph[f.path := dependencies];
      assert filtered[..i + 1][..i] == filtered[..i];
      i := i + 1;
    }
    assert filtered[..|filtered|] == filtered;
  }

  /** `build_file_dependency_graph`: drop the ignored files, fill `module_to_file`, then the graph. */
  method BuildDependencyGraph(files: seq<SourceFiles.PyFile>) returns (graph: map<string, seq<string>>)
    ensures graph == Graph(Considered(files), ModuleMap(Considered(files)))
  {
    graph := BuildGraph(Considered(files));
  }

  /**
   * For files with distinct paths: every file is a key and nothing else; an
   * unreadable file maps to `[]`; every edge leads to a file whose module name
   * the source file imports, and that file is the last one carrying that name.
   */
  lemma GraphOf(fs: seq<SourceFiles.PyFile>, i: nat, x: string)
    requires SourceFiles.DistinctPaths(fs)
    requires i < |fs|
    ensures var graph := Graph(fs, ModuleMap(fs));
            && graph.Keys == (set f | f in fs :: f.path)
            && (fs[i].read.None? ==> graph[fs[i].path] == [])
            && (x in graph[fs[i].path] ==>
                  exists j :: 0 <= j < |fs| && fs[j].path == x && ModuleName(fs[j].rel) in Imports.Extracted(fs[i].walk)
                              && LastWithModule(fs, j, ModuleName(fs[j].rel)))
  {
    var mm := ModuleMap(fs);
    GraphKeys(fs, mm);
    GraphValue(fs, mm, i);
    if x in Graph(fs, mm)[fs[i].path] {
      var imports := Imports.Extracted(fs[i].walk);
      ResolveMember(imports, mm, x);
      var k :| 0 <= k < |imports| && imports[k] in mm && mm[imports[k]] == x;
      ModuleMapLaterWins(fs, imports[k]);
    }
  }

  /**
   * The keys are the files not ignored; an unreadable file maps to `[]`; every
   * edge leads to a considered file whose module name the source file imports,
   * and that file is the last one carrying that module name.
   */
  lemma GraphProperties(files: seq<SourceFiles.PyFile>, i: nat, x: string)
    requires SourceFiles.DistinctPaths(files)
    requires i < |Considered(files)|
    ensures var fs := Considered(files);
            var graph := Graph(fs, ModuleMap(fs));
            && graph.Keys == (set f | f in fs :: f.path)
            && (fs[i].read.None? ==> graph[fs[i].path] == [])
            && (x in graph[fs[i].path] ==>
                  exists j :: 0 <= j < |fs| && fs[j].path == x && ModuleName(fs[j].rel) in Imports.Extracted(fs[i].walk)
                              && LastWithModule(fs, j, ModuleName(fs[j].rel)))
  {
    SourceFiles.UnignoredDistinct(files, SourceFiles.IgnorePatterns);
    GraphOf(Considered(files), i, x);
  }
}
