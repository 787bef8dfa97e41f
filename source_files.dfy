/**
 * The Python files found under the context directory, and the substring-based
 * ignore filter applied to them (cli/context.py).
 */
module SourceFiles {
  import opened Wrappers
  import opened Text
  import Imports
  import Chunker

  /**
   * One `*.py` file as `rglob` yields it, with what reading and parsing it
   * gives: `path` is `str(file)`, `rel` the path relative to the context
   * directory, `mtime` its modification time (only its order matters), `read`
   * its text (`None` when opening or decoding raises), `walk` and `tree` its
   * syntax trees and `reread` the text a fallback reads back.
   */
  datatype PyFile = PyFile(
    path: string,
    rel: string,
    mtime: int,
    read: Option<string>,
    walk: Option<seq<Imports.PyNode>>,
    tree: Option<seq<Chunker.TsNode>>,
    reread: Option<string>)

  /** The patterns of `get_simple_context` and `build_file_dependency_graph`. */
  const IgnorePatterns: seq<string> :=
    ["__pycache__", ".venv", "venv", ".git", "node_modules", ".pytest_cache", ".mypy_cache"]

  /** The patterns of `index_codebase`, which also skips the vector store's own folder. */
  const IndexIgnorePatterns: seq<string> := IgnorePatterns + [".code_assistant_db"]

  /** `any(pattern in path for pattern in patterns)`. */
  predicate Ignored(path: string, patterns: seq<string>)
  {
    exists k :: 0 <= k < |patterns| && IsSubstring(patterns[k], path)
  }

  /** The files whose full path contains no pattern, in their original order. */
  function Unignored(files: seq<PyFile>, patterns: seq<string>): (r: seq<PyFile>)
    ensures |r| <= |files|
    ensures forall f :: f in r <==> f in files && !Ignored(f.path, patterns)
  {
    if files == [] then []
    else
      var rest := Unignored(files[..|files| - 1], patterns);
      var last := files[|files| - 1];
      assert files == files[..|files| - 1] + [last];
      if Ignored(last.path, patterns) then rest else rest + [last]
  }

  /** Filtering keeps the relative order: filtering a concatenation concatenates the filtered parts. */
  lemma {:induction false} UnignoredAppend(a: seq<PyFile>, b: seq<PyFile>, patterns: seq<string>)
    ensures Unignored(a + b, patterns) == Unignored(a, patterns) + Unignored(b, patterns)
    decreases |b|
  {
    if b == [] {
      assert a + b == a;
    } else {
      assert (a + b)[..|a + b| - 1] == a + b[..|b| - 1];
      UnignoredAppend(a, b[..|b| - 1], patterns);
    }
  }

  /** `s` occurs in `s + t` and in `t + s`. */
  lemma OccursInConcat(sub: string, s: string, pre: string, post: string)
    requires IsSubstring(sub, s)
    ensures IsSubstring(sub, pre + s + post)
  {
    var i :| 0 <= i <= |s| && OccursAt(sub, s, i);
    assert (pre + s + post)[|pre| + i..|pre| + i + |sub|] == s[i..i + |sub|];
    assert OccursAt(sub, pre + s + post, |pre| + i);
  }

  /**
   * The test is on the whole path, not on its components: when the context
   * directory's own path contains a pattern (say it lives under a folder named
   * `venv-projects`), every file under it is dropped.
   */
  lemma IgnoredRootDropsAll(root: string, files: seq<PyFile>, patterns: seq<string>)
    requires Ignored(root, patterns)
    requires forall f :: f in files ==> root <= f.path
    ensures Unignored(files, patterns) == []
  {
    var k :| 0 <= k < |patterns| && IsSubstring(patterns[k], root);
    forall f | f in files
      ensures Ignored(f.path, patterns)
    {
      var rest := f.path[|root|..];
      assert "" + root + rest == f.path;
      OccursInConcat(patterns[k], root, "", rest);
    }
  }

  /** No two files share a path. */
  predicate DistinctPaths(files: seq<PyFile>)
  {
    forall a, b :: 0 <= a < b < |files| ==> files[a].path != files[b].path
  }

  /** Filtering keeps distinct paths distinct. */
  lemma {:induction false} UnignoredDistinct(files: seq<PyFile>, patterns: seq<string>)
    requires DistinctPaths(files)
    ensures DistinctPaths(Unignored(files, patterns))
  {
    if files != [] {
      var init := files[..|files| - 1];
      var last := files[|files| - 1];
      assert DistinctPaths(init) by {
        forall a, b | 0 <= a < b < |init| ensures init[a].path != init[b].path {
          assert init[a] == files[a] && init[b] == files[b];
        }
      }
      UnignoredDistinct(init, patterns);
      var fi := Unignored(init, patterns);
      if !Ignored(last.path, patterns) {
        var r := fi + [last];
        assert Unignored(files, patterns) == r;
        forall a, b | 0 <= a < b < |r| ensures r[a].path != r[b].path {
          assert r[a] == fi[a] && fi[a] in init;
          if b == |fi| {
            var j :| 0 <= j < |init| && init[j] == fi[a];
            assert files[j] == init[j];
          } else {
            assert r[b] == fi[b];
          }
        }
      }
    }
  }
}
