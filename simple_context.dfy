/**
 * `get_simple_context` (cli/context.py): the newest files, truncated, joined
 * into one text when the vector search is unavailable.
 */
module SimpleContext {
  import opened Wrappers
  import opened Text
  import opened Lists
  import SourceFiles

  /** Newest first: each file is at least as recent as the next one. */
  predicate SortedDesc(files: seq<SourceFiles.PyFile>)
  {
    forall i :: 0 < i < |files| ==> files[i - 1].mtime >= files[i].mtime
  }

  /** In a list sorted newest first, no file is newer than an earlier one. */
  lemma {:induction false} SortedDescPairs(files: seq<SourceFiles.PyFile>, i: int, j: int)
    requires SortedDesc(files)
    requires 0 <= i <= j < |files|
    ensures files[i].mtime >= files[j].mtime
  {
    if i < j {
      SortedDescPairs(files, i, j - 1);
    }
  }

  /** Dropping the newest file of a sorted list leaves it sorted. */
  lemma SortedDescTail(files: seq<SourceFiles.PyFile>)
    requires SortedDesc(files) && files != []
    ensures SortedDesc(files[1..])
  {
    var tail := files[1..];
    forall i | 0 < i < |tail| ensures tail[i - 1].mtime >= tail[i].mtime {
      assert tail[i - 1] == files[i] && tail[i] == files[i + 1];
    }
  }

  /** Insert `f` after every file at least as recent, keeping the others' order. */
  function Insert(sorted: seq<SourceFiles.PyFile>, f: SourceFiles.PyFile): (r: seq<SourceFiles.PyFile>)
    ensures |r| == |sorted| + 1
  {
    if sorted == [] then [f]
    else if sorted[0].mtime < f.mtime then [f] + sorted
    else [sorted[0]] + Insert(sorted[1..], f)
  }

  /** Insertion adds `f` and loses nothing. */
  lemma {:induction false} InsertPermutation(sorted: seq<SourceFiles.PyFile>, f: SourceFiles.PyFile)
    ensures multiset(Insert(sorted, f)) == multiset(sorted) + multiset{f}
  {
    if sorted != [] && sorted[0].mtime >= f.mtime {
      InsertPermutation(sorted[1..], f);
      assert sorted == [sorted[0]] + sorted[1..];
    }
  }

  /** Inserting into a list sorted newest first keeps it sorted, with the newer of `f` and the old head first. */
  lemma {:induction false} InsertSorted(sorted: seq<SourceFiles.PyFile>, f: SourceFiles.PyFile)
    requires SortedDesc(sorted)
    ensures SortedDesc(Insert(sorted, f))
    ensures Insert(sorted, f)[0] == (if sorted == [] || sorted[0].mtime < f.mtime then f else sorted[0])
  {
    if sorted != [] && sorted[0].mtime >= f.mtime {
      var tail := sorted[1..];
      SortedDescTail(sorted);
      InsertSorted(tail, f);
      var rest := Insert(tail, f);
      var r := [sorted[0]] + rest;
      assert Insert(sorted, f) == r;
      forall i | 0 < i < |r| ensures r[i - 1].mtime >= r[i].mtime {
        if i == 1 {
          assert r[1] == rest[0];
        } else {
          assert r[i - 1] == rest[i - 2] && r[i] == rest[i - 1];
        }
      }
    }
  }

  /** `files.sort(key=mtime, reverse=True)`, a stable sort, written as an insertion sort. */
  function SortByMtimeDesc(files: seq<SourceFiles.PyFile>): (r: seq<SourceFiles.PyFile>)
    ensures |r| == |files|
  {
    if files == [] then []
    else Insert(SortByMtimeDesc(files[..|files| - 1]), files[|files| - 1])
  }

  /** The sort is a permutation. */
  lemma {:induction false} SortPermutation(files: seq<SourceFiles.PyFile>)
    ensures multiset(SortByMtimeDesc(files)) == multiset(files)
  {
    if files != [] {
      var init := files[..|files| - 1];
      SortPermutation(init);
      InsertPermutation(SortByMtimeDesc(init), files[|files| - 1]);
      assert files == init + [files[|files| - 1]];
    }
  }

  /** The sort puts the newest files first. */
  lemma {:induction false} SortSorted(files: seq<SourceFiles.PyFile>)
    ensures SortedDesc(SortByMtimeDesc(files))
  {
    if files != [] {
      var init := files[..|files| - 1];
      SortSorted(init);
      InsertSorted(SortByMtimeDesc(init), files[|files| - 1]);
    }
  }

  /** The files with modification time `t`, in order. */
  function WithMtime(files: seq<SourceFiles.PyFile>, t: int): seq<SourceFiles.PyFile>
  {
    if files == [] then []
    else (if files[0].mtime == t then [files[0]] else []) + WithMtime(files[1..], t)
  }

  lemma {:induction false} WithMtimeAppend(a: seq<SourceFiles.PyFile>, b: seq<SourceFiles.PyFile>, t: int)
    ensures WithMtime(a + b, t) == WithMtime(a, t) + WithMtime(b, t)
  {
    if a == [] {
      assert a + b == b;
    } else {
      assert (a + b)[1..] == a[1..] + b;
      WithMtimeAppend(a[1..], b, t);
    }
  }

  /** In a sorted list whose first file is older than `t`, no file has time `t`. */
  lemma {:induction false} WithMtimeOlder(files: seq<SourceFiles.PyFile>, t: int)
    requires SortedDesc(files)
    requires files != [] ==> files[0].mtime < t
    ensures WithMtime(files, t) == []
  {
    if files != [] {
      var tail := files[1..];
      if tail != [] {
        assert tail[0] == files[1];
      }
      SortedDescTail(files);
      WithMtimeOlder(tail, t);
    }
  }

  /** The files with time `t` in a one-file list. */
  lemma WithMtimeSingle(f: SourceFiles.PyFile, t: int)
    ensures WithMtime([f], t) == if f.mtime == t then [f] else []
  {
    assert [f][1..] == [];
  }

  /** Inserting into a sorted list puts `f` after the files with the same time. */
  lemma {:induction false} InsertStable(sorted: seq<SourceFiles.PyFile>, f: SourceFiles.PyFile, t: int)
    requires SortedDesc(sorted)
    ensures WithMtime(Insert(sorted, f), t) == WithMtime(sorted, t) + (if f.mtime == t then [f] else [])
  {
    WithMtimeSingle(f, t);
    if sorted == [] {
      assert Insert(sorted, f) == [f];
    } else if sorted[0].mtime < f.mtime {
      assert Insert(sorted, f) == [f] + sorted;
      WithMtimeAppend([f], sorted, t);
      if f.mtime == t {
        WithMtimeOlder(sorted, t);
      }
    } else {
      var head := sorted[0];
      var tail := sorted[1..];
      SortedDescTail(sorted);
      InsertStable(tail, f, t);
      assert Insert(sorted, f) == [head] + Insert(tail, f);
      assert sorted == [head] + tail;
      WithMtimeAppend([head], Insert(tail, f), t);
      WithMtimeAppend([head], tail, t);
    }
  }

  /** The sort is stable: files with the same time keep their relative order. */
  lemma {:induction false} SortStable(files: seq<SourceFiles.PyFile>, t: int)
    ensures WithMtime(SortByMtimeDesc(files), t) == WithMtime(files, t)
  {
    if files != [] {
      var init := files[..|files| - 1];
      var last := files[|files| - 1];
      SortStable(init, t);
      SortSorted(init);
      InsertStable(SortByMtimeDesc(init), last, t);
      assert files == init + [last];
      WithMtimeAppend(init, [last], t);
      WithMtimeSingle(last, t);
    }
  }

  /** The files `get_simple_context` picks: not ignored, newest first, at most `maxFiles`. */
  function Selected(files: seq<SourceFiles.PyFile>, maxFiles: int): seq<SourceFiles.PyFile>
  {
    Head(SortByMtimeDesc(SourceFiles.Unignored(files, SourceFiles.IgnorePatterns)), maxFiles)
  }

  const TruncationMarker := "\n\n# ... (truncated)"

  /** Content longer than 5000 characters is cut to 5000 and marked. */
  function Truncated(content: string): (r: string)
    ensures |r| <= 5000 + |TruncationMarker|
    ensures Prefix(content, 5000) <= r
    ensures |content| <= 5000 ==> r == content
    ensures |content| > 5000 ==> |r| == 5000 + |TruncationMarker| && r[5000..] == TruncationMarker
  {
    if |content| > 5000 then content[..5000] + TruncationMarker else content
  }

  /** One file's section. */
  function Section(f: SourceFiles.PyFile): string
    requires f.read.Some?
  {
    "# File: " + f.rel + "\n" + Truncated(f.read.value)
  }

  /** A file's section, or none when it cannot be read. */
  function SectionOf(f: SourceFiles.PyFile): Option<string>
  {
    if f.read.Some? then Some(Section(f)) else None
  }

  /** The sections of the selected files that can be read, in order. */
  function Sections(selected: seq<SourceFiles.PyFile>): (r: seq<string>)
    ensures |r| <= |selected|
  {
    FilterMap(selected, SectionOf)
  }

  const SectionSeparator := "\n\n---\n\n"

  /** The body of the loop over selected files: append the file's section if it can be read. */
  method AppendSection(parts: seq<string>, f: SourceFiles.PyFile) returns (parts': seq<string>)
    ensures parts' == parts + OptionToSeq(SectionOf(f))
  {
    parts' := parts;
    if f.read.Some? {
      var content := f.read.value;
      if |content| > 5000 {
        content := content[..5000] + TruncationMarker;
      }
      parts' := parts' + ["# File: " + f.rel + "\n" + content];
    }
  }

  /** The loop of `get_simple_context` over the selected files, then the join. */
  method RenderSections(selected: seq<SourceFiles.PyFile>) returns (context: string)
    ensures context == Join(Sections(selected), SectionSeparator)
  {
    var parts: seq<string> := [];
    var i := 0;
    while i < |selected|
      invariant 0 <= i <= |selected|
      invariant parts == Sections(selected[..i])
    {
      parts := AppendSection(parts, selected[i]);
      assert selected[..i + 1][..i] == selected[..i];
      i := i + 1;
    }
    assert selected[..|selected|] == selected;
    context := Join(parts, SectionSeparator);
  }

  /** `get_simple_context`: select the newest files, then render those that can be read. */
  method RenderSimpleContext(files: seq<SourceFiles.PyFile>, maxFiles: int) returns (context: string)
    ensures context == Join(Sections(Selected(files, maxFiles)), SectionSeparator)
  {
    context := RenderSections(Selected(files, maxFiles));
  }

  /**
   * The selection holds at most `maxFiles` files, none of them ignored, newest
   * first, and no file left out is newer than one selected.
   */
  lemma SelectedProperties(files: seq<SourceFiles.PyFile>, maxFiles: int)
    ensures var sel := Selected(files, maxFiles);
            var sorted := SortByMtimeDesc(SourceFiles.Unignored(files, SourceFiles.IgnorePatterns));
            && (maxFiles >= 0 ==> |sel| <= maxFiles)
            && (forall f :: f in sel ==> f in files && !SourceFiles.Ignored(f.path, SourceFiles.IgnorePatterns))
            && SortedDesc(sel)
            && sel <= sorted
            && (forall i, j :: 0 <= i < |sel| <= j < |sorted| ==> sorted[i].mtime >= sorted[j].mtime)
  {
    var considered := SourceFiles.Unignored(files, SourceFiles.IgnorePatterns);
    var sorted := SortByMtimeDesc(considered);
    var sel := Selected(files, maxFiles);
    SortSorted(considered);
    SortPermutation(considered);
    forall f | f in sel
      ensures f in files && !SourceFiles.Ignored(f.path, SourceFiles.IgnorePatterns)
    {
      assert f in multiset(sorted);
      assert f in considered;
    }
    forall i, j | 0 <= i < |sel| <= j < |sorted|
      ensures sorted[i].mtime >= sorted[j].mtime
    {
      SortedDescPairs(sorted, i, j);
    }
    assert SortedDesc(sel) by {
      forall i | 0 < i < |sel| ensures sel[i - 1].mtime >= sel[i].mtime {
        assert sel[i - 1] == sorted[i - 1] && sel[i] == sorted[i];
      }
    }
  }

  /** A section is produced exactly for each selected file that can be read. */
  lemma SectionsMember(selected: seq<SourceFiles.PyFile>, s: string)
    ensures s in Sections(selected) <==> exists i :: 0 <= i < |selected| && selected[i].read.Some? && s == Section(selected[i])
  {
    FilterMapMember(selected, SectionOf, s);
    if exists i :: 0 <= i < |selected| && selected[i].read.Some? && s == Section(selected[i]) {
      var i :| 0 <= i < |selected| && selected[i].read.Some? && s == Section(selected[i]);
      assert SectionOf(selected[i]) == Some(s);
    }
  }
}
