/**
 * The text `get_relevant_context` (cli/context.py) builds from the inferred
 * target files and the hits of the semantic search.
 */
module RelevantContext {
  import opened Wrappers
  import opened Text

  /**
   * One search hit: the document, the `chunk_type` and `name` metadata when
   * present, and `relPath`, what `os.path.relpath` gives for its `file_path`
   * (or for "unknown" when that is absent) relative to the context directory.
   */
  datatype Hit = Hit(doc: string, chunkType: Option<string>, name: Option<string>, relPath: string)

  /** `metadata.get(key, default)`. */
  function OrDefault(o: Option<string>, default: string): string
  {
    if o.Some? then o.value else default
  }

  /**
   * The fixed lines of the rendering. The functions and lemmas below take them
   * as a parameter so that proofs about the layout need not look inside them.
   */
  datatype Template = Template(targetsHeading: string, targetsInstruction: string, targetsFormat: string, hitsHeading: string)

  /**
   * The lines `get_relevant_context` writes. The two headings are written as
   * two literals each so that proofs can read their first characters cheaply.
   */
  const Fixed := Template(
    "# I" + "MPORTANT: Inferred target files for this query:",
    "# When creating/editing files, use these EXACT paths (preserve subdirectories):",
    "# Use format: ```python:{exact_filename_with_path}",
    "# R" + "elevant code from codebase:\n")

  /** The lines listing the inferred files. */
  function TargetLines(targets: seq<string>): (r: seq<string>)
    ensures |r| == |targets|
  {
    seq(|targets|, k requires 0 <= k < |targets| => "#   - " + targets[k])
  }

  /** The block about inferred files, present only when some file was inferred. */
  function TargetSection(tpl: Template, targets: seq<string>): seq<string>
  {
    if targets == [] then [] else [tpl.targetsHeading, tpl.targetsInstruction] + TargetLines(targets) + ["#", tpl.targetsFormat, ""]
  }

  /** The title line of a hit: chunk type and name when it has a non-empty name, else the file alone. */
  function HitTitle(h: Hit): string
  {
    var name := OrDefault(h.name, "");
    if name != "" then "# " + Capitalize(OrDefault(h.chunkType, "code")) + ": " + name + " (" + h.relPath + ")"
    else "# File: " + h.relPath
  }

  /** Three lines per hit, in ranking order: its title, its document, an empty line. */
  function HitBlocks(hits: seq<Hit>): (r: seq<string>)
    ensures |r| == 3 * |hits|
  {
    if hits == [] then []
    else HitBlocks(hits[..|hits| - 1]) + [HitTitle(hits[|hits| - 1]), hits[|hits| - 1].doc, ""]
  }

  /** Hit `k` occupies lines `3k` to `3k + 2` of the hit blocks. */
  lemma {:induction false} HitBlockAt(hits: seq<Hit>, k: nat)
    requires k < |hits|
    ensures HitBlocks(hits)[3 * k] == HitTitle(hits[k])
    ensures HitBlocks(hits)[3 * k + 1] == hits[k].doc
    ensures HitBlocks(hits)[3 * k + 2] == ""
  {
    var init := hits[..|hits| - 1];
    var last := hits[|hits| - 1];
    var before := HitBlocks(init);
    var tail := [HitTitle(last), last.doc, ""];
    assert HitBlocks(hits) == before + tail;
    if k < |init| {
      HitBlockAt(init, k);
      assert hits[k] == init[k];
      assert 3 * k + 2 < |before|;
      assert (before + tail)[3 * k] == before[3 * k];
      assert (before + tail)[3 * k + 1] == before[3 * k + 1];
      assert (before + tail)[3 * k + 2] == before[3 * k + 2];
    } else {
      assert 3 * k == |before|;
    }
  }

  /** The hits block, present only when the search returned documents. */
  function HitSection(tpl: Template, hits: seq<Hit>): seq<string>
  {
    if hits == [] then [] else [tpl.hitsHeading] + HitBlocks(hits)
  }

  /** `context_parts` of `get_relevant_context`. */
  function RelevantParts(tpl: Template, targets: seq<string>, hits: seq<Hit>): seq<string>
  {
    TargetSection(tpl, targets) + HitSection(tpl, hits)
  }

  /** The first part of `get_relevant_context`: the inferred-files block, when there is one. */
  method AppendTargetSection(parts: seq<string>, tpl: Template, targets: seq<string>) returns (parts': seq<string>)
    ensures parts' == parts + TargetSection(tpl, targets)
  {
    parts' := parts;
    if targets != [] {
      parts' := parts' + [tpl.targetsHeading];
      parts' := parts' + [tpl.targetsInstruction];
      var k := 0;
      while k < |targets|
        invariant 0 <= k <= |targets|
        invariant parts' == parts + [tpl.targetsHeading, tpl.targetsInstruction] + TargetLines(targets[..k])
      {
        parts' := parts' + ["#   - " + targets[k]];
        k := k + 1;
        assert TargetLines(targets[..k]) == TargetLines(targets[..k - 1]) + ["#   - " + targets[k - 1]];
      }
      assert targets[..|targets|] == targets;
      parts' := parts' + ["#"];
      parts' := parts' + [tpl.targetsFormat];
      parts' := parts' + [""];
    }
  }

  /** The body of the loop over hits: the title line, the document, an empty line. */
  method AppendHit(parts: seq<string>, hit: Hit) returns (parts': seq<string>)
    ensures parts' == parts + [HitTitle(hit), hit.doc, ""]
  {
    var name := OrDefault(hit.name, "");
    if name != "" {
      parts' := parts + ["# " + Capitalize(OrDefault(hit.chunkType, "code")) + ": " + name + " (" + hit.relPath + ")"];
    } else {
      parts' := parts + ["# File: " + hit.relPath];
    }
    parts' := parts' + [hit.doc];
    parts' := parts' + [""];
  }

  /** The second part of `get_relevant_context`: the hits block, when the search returned documents. */
  method AppendHitSection(parts: seq<string>, tpl: Template, hits: seq<Hit>) returns (parts': seq<string>)
    ensures parts' == parts + HitSection(tpl, hits)
  {
    parts' := parts;
    if hits != [] {
      parts' := parts' + [tpl.hitsHeading];
      var k := 0;
      while k < |hits|
        invariant 0 <= k <= |hits|
        invariant parts' == parts + [tpl.hitsHeading] + HitBlocks(hits[..k])
      {
        var hit := hits[k];
        parts' := AppendHit(parts', hit);
        assert hits[..k + 1][..k] == hits[..k];
        assert HitBlocks(hits[..k + 1]) == HitBlocks(hits[..k]) + [HitTitle(hits[k]), hits[k].doc, ""];
        k := k + 1;
      }
      assert hits[..|hits|] == hits;
    }
  }

  /**
   * `get_relevant_context` once the inferred files and the search hits are
   * known: the parts appended one after another, joined with newlines.
   */
  method RenderRelevantContext(targets: seq<string>, hits: seq<Hit>) returns (context: string)
    ensures context == Join(RelevantParts(Fixed, targets, hits), "\n")
  {
    var parts := AppendTargetSection([], Fixed, targets);
    parts := AppendHitSection(parts, Fixed, hits);
    assert parts == RelevantParts(Fixed, targets, hits);
    context := Join(parts, "\n");
  }

  /** Line `2 + k` of the parts lists inferred file `k`. */
  lemma TargetLineAt(tpl: Template, targets: seq<string>, hits: seq<Hit>, k: nat)
    requires k < |targets|
    ensures RelevantParts(tpl, targets, hits)[2 + k] == "#   - " + targets[k]
  {
    var ts := TargetSection(tpl, targets);
    assert ts == [tpl.targetsHeading, tpl.targetsInstruction] + TargetLines(targets) + ["#", tpl.targetsFormat, ""];
    assert ts[2 + k] == TargetLines(targets)[k];
    assert RelevantParts(tpl, targets, hits)[2 + k] == ts[2 + k];
  }

  /** Hit `k` has its title and document at lines `1 + 3k` and `2 + 3k` of the hits block. */
  lemma HitSectionAt(tpl: Template, hits: seq<Hit>, k: nat)
    requires k < |hits|
    ensures HitSection(tpl, hits)[1 + 3 * k] == HitTitle(hits[k])
    ensures HitSection(tpl, hits)[2 + 3 * k] == hits[k].doc
  {
    HitBlockAt(hits, k);
    assert HitSection(tpl, hits) == [tpl.hitsHeading] + HitBlocks(hits);
  }

  /** Hit `k` has its title and document right after the inferred-files block and the heading. */
  lemma HitLinesAt(tpl: Template, targets: seq<string>, hits: seq<Hit>, k: nat)
    requires k < |hits|
    ensures var offset := if targets == [] then 0 else |targets| + 5;
            && RelevantParts(tpl, targets, hits)[offset + 1 + 3 * k] == HitTitle(hits[k])
            && RelevantParts(tpl, targets, hits)[offset + 2 + 3 * k] == hits[k].doc
  {
    var ts := TargetSection(tpl, targets);
    var hs := HitSection(tpl, hits);
    HitSectionAt(tpl, hits, k);
    var j := 3 * k;
    assert |ts| == if targets == [] then 0 else |targets| + 5;
    assert RelevantParts(tpl, targets, hits) == ts + hs;
    assert (ts + hs)[|ts| + 1 + j] == hs[1 + j];
    assert (ts + hs)[|ts| + 2 + j] == hs[2 + j];
  }

  /**
   * The inferred files are only listed: whatever they are, every hit is
   * rendered, in order, right after them, and each inferred file has its line.
   */
  lemma InferredFilesOnlyListed(tpl: Template, targets: seq<string>, hits: seq<Hit>)
    ensures var parts := RelevantParts(tpl, targets, hits);
            var offset := if targets == [] then 0 else |targets| + 5;
            && |parts| == offset + (if hits == [] then 0 else 1 + 3 * |hits|)
            && (forall k :: 0 <= k < |targets| ==> parts[2 + k] == "#   - " + targets[k])
            && (forall k :: 0 <= k < |hits| ==> parts[offset + 1 + 3 * k] == HitTitle(hits[k])
                                                && parts[offset + 2 + 3 * k] == hits[k].doc)
  {
    forall k | 0 <= k < |targets| {
      TargetLineAt(tpl, targets, hits, k);
    }
    forall k | 0 <= k < |hits| {
      HitLinesAt(tpl, targets, hits, k);
    }
  }

  /**
   * With headings that differ by their third character, the context starts
   * with the inferred-files heading exactly when some file was inferred, and is
   * empty exactly when there is neither an inferred file nor a hit.
   */
  lemma RelevantContextHeader(tpl: Template, targets: seq<string>, hits: seq<Hit>)
    requires |tpl.targetsHeading| > 2 && |tpl.hitsHeading| > 2 && tpl.targetsHeading[2] != tpl.hitsHeading[2]
    ensures var context := Join(RelevantParts(tpl, targets, hits), "\n");
            && (tpl.targetsHeading <= context <==> targets != [])
            && (context == "" <==> targets == [] && hits == [])
  {
    var parts := RelevantParts(tpl, targets, hits);
    JoinEmpty(parts, "\n");
    if parts != [] {
      JoinHead(parts, "\n");
    }
  }

  /** For the lines actually written, the heading test above applies. */
  lemma FixedContextHeader(targets: seq<string>, hits: seq<Hit>)
    ensures var context := Join(RelevantParts(Fixed, targets, hits), "\n");
            && (Fixed.targetsHeading <= context <==> targets != [])
            && (context == "" <==> targets == [] && hits == [])
  {
    RelevantContextHeader(Fixed, targets, hits);
  }
}
