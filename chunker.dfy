/**
 * `parse_file_with_treesitter` (cli/context.py): splitting one Python file into
 * `CodeChunk` records, one per named top-level function or class definition,
 * or one whole-file chunk when there is none.
 */
module Chunker {
  import opened Wrappers
  import opened Lists
  import opened Text
  import Imports

  /** The `chunk_type` field. */
  datatype ChunkType = FunctionChunk | ClassChunk | FileChunk
  {
    /** The string the source stores for the type. */
    function Label(): string
    {
      match this
      case FunctionChunk => "function"
      case ClassChunk => "class"
      case FileChunk => "file"
    }
  }

  /** The `CodeChunk` dataclass. */
  datatype CodeChunk = CodeChunk(
    filePath: string,
    content: string,
    chunkType: ChunkType,
    name: string,
    startLine: nat,
    endLine: nat,
    imports: seq<string>)

  /** A node's byte range `[start, end)` in the UTF-8 encoding of the file. */
  datatype ByteSpan = ByteSpan(start: nat, end: nat)

  /**
   * A top-level child of the tree-sitter module node: its type, the span of its
   * `name` field if it has one, its start and end rows, and its own span.
   */
  datatype TsNode = TsNode(kind: string, nameField: Option<ByteSpan>, startRow: nat, endRow: nat, span: ByteSpan)

  /** Number of bytes of `c` in UTF-8. */
  function Utf8Len(c: char): (n: nat)
    ensures 1 <= n <= 4
    ensures n == 1 <==> c as int < 0x80
  {
    if c as int < 0x80 then 1 else if c as int < 0x800 then 2 else if c as int < 0x10000 then 3 else 4
  }

  /** Byte offset, in the UTF-8 encoding of `s`, at which character `i` starts. */
  function ByteOffset(s: string, i: nat): (r: nat)
    requires i <= |s|
    ensures i <= r <= 4 * i
  {
    if i == 0 then 0 else Utf8Len(s[0]) + ByteOffset(s[1..], i - 1)
  }

  /** Index of the first character of `s` whose encoding starts at or after byte `b` (or `|s|`). */
  function CharIndexOfByte(s: string, b: nat): (r: nat)
    ensures r <= |s|
    ensures r <= b
  {
    if b == 0 || s == [] then 0
    else if b <= Utf8Len(s[0]) then 1
    else 1 + CharIndexOfByte(s[1..], b - Utf8Len(s[0]))
  }

  /** Byte offsets and character indices convert back exactly at character boundaries. */
  lemma {:induction false} CharIndexOfByteOffset(s: string, i: nat)
    requires i <= |s|
    ensures CharIndexOfByte(s, ByteOffset(s, i)) == i
  {
    if i > 0 {
      CharIndexOfByteOffset(s[1..], i - 1);
    }
  }

  /** On pure ASCII text bytes and characters coincide. */
  lemma {:induction false} CharIndexOfByteAscii(s: string, b: nat)
    requires forall k :: 0 <= k < |s| ==> s[k] as int < 0x80
    ensures CharIndexOfByte(s, b) == if b < |s| then b else |s|
  {
    if b != 0 && s != [] && b > 1 {
      CharIndexOfByteAscii(s[1..], b - 1);
    }
  }

  /** The text of a node: the characters whose encoding the node's byte span covers. */
  function NodeText(code: string, span: ByteSpan): string
  {
    Slice(code, CharIndexOfByte(code, span.start), CharIndexOfByte(code, span.end))
  }

  /** A node spanning characters `i` to `j` has exactly those characters as its text. */
  lemma NodeTextOfCharRange(code: string, i: nat, j: nat)
    requires i <= j <= |code|
    ensures NodeText(code, ByteSpan(ByteOffset(code, i), ByteOffset(code, j))) == code[i..j]
  {
    CharIndexOfByteOffset(code, i);
    CharIndexOfByteOffset(code, j);
  }

  /** `extract_node_text` as written: the character string sliced with byte offsets. */
  function NodeTextAsWritten(code: string, span: ByteSpan): string
  {
    Slice(code, span.start, span.end)
  }

  /** On ASCII files the slice as written is the intended text. */
  lemma NodeTextAsciiAgrees(code: string, span: ByteSpan)
    requires forall k :: 0 <= k < |code| ==> code[k] as int < 0x80
    ensures NodeTextAsWritten(code, span) == NodeText(code, span)
  {
    CharIndexOfByteAscii(code, span.start);
    CharIndexOfByteAscii(code, span.end);
  }

  /**
   * How node text is cut out of the file: `SliceByBytes` is the program as
   * written (byte offsets used as character indices), `SliceByChars` the
   * evidently intended text (byte offsets converted to character indices).
   */
  datatype Slicing = SliceByBytes | SliceByChars

  /** The text of a node's span under the given slicing. */
  function TextOf(how: Slicing, code: string, span: ByteSpan): string
  {
    match how
    case SliceByBytes => NodeTextAsWritten(code, span)
    case SliceByChars => NodeText(code, span)
  }

  /**
   * One non-ASCII character before a definition shifts the slice as written:
   * when a file is a character `c` of `n >= 2` UTF-8 bytes, a newline and then
   * ASCII text `rest` (say "é\ndef f(): pass"), the definition covers bytes
   * `n + 1` to `n + 1 + |rest|`, and slicing the characters there drops the
   * first `n - 1` characters of `rest`; for "é" the text becomes "ef f(): pass".
   */
  lemma NodeTextShiftedByNonAscii(c: char, rest: string)
    requires c as int >= 0x80
    requires forall k :: 0 <= k < |rest| ==> rest[k] as int < 0x80
    ensures var code := [c, '\n'] + rest;
            var n := Utf8Len(c);
            var span := ByteSpan(ByteOffset(code, 2), ByteOffset(code, |code|));
            && span == ByteSpan(n + 1, n + 1 + |rest|)
            && NodeText(code, span) == rest
            && NodeTextAsWritten(code, span) == Slice(rest, n - 1, |rest|)
            && (rest != [] ==> NodeTextAsWritten(code, span) != rest)
  {
    var code := [c, '\n'] + rest;
    var n := Utf8Len(c);
    assert ByteOffset(code, 2) == n + 1 && ByteOffset(code, |code|) == n + 1 + |rest| by {
      assert code[1..][1..] == rest;
      AsciiByteOffset(rest, |rest|);
    }
    assert NodeText(code, ByteSpan(n + 1, n + 1 + |rest|)) == rest by {
      NodeTextOfCharRange(code, 2, |code|);
      assert code[2..|code|] == rest;
    }
    SliceAfterPrefix([c, '\n'], rest, n - 1);
  }

  /** Slicing `p + t` from `|p| + d` to its end, with the end past it by `d`, is slicing `t` from `d`. */
  lemma SliceAfterPrefix(p: string, t: string, d: nat)
    ensures Slice(p + t, |p| + d, |p| + |t| + d) == Slice(t, d, |t|)
  {
    var code := p + t;
    if d < |t| {
      assert Slice(code, |p| + d, |p| + |t| + d) == code[|p| + d..|code|];
      assert code[|p| + d..|code|] == t[d..];
    }
  }

  /** On ASCII text the byte offset of a character is its index. */
  lemma {:induction false} AsciiByteOffset(s: string, i: nat)
    requires i <= |s|
    requires forall k :: 0 <= k < |s| ==> s[k] as int < 0x80
    ensures ByteOffset(s, i) == i
  {
    if i > 0 {
      AsciiByteOffset(s[1..], i - 1);
    }
  }

  /** Whether a top-level node becomes a chunk: a function or class definition with a `name` field. */
  predicate IsDefinition(n: TsNode)
  {
    (n.kind == "function_definition" || n.kind == "class_definition") && n.nameField.Some?
  }

  /** The chunk a top-level node becomes, if it is a definition. */
  function NodeChunk(how: Slicing, path: string, code: string, imports: seq<string>, n: TsNode): (r: Option<CodeChunk>)
    ensures r.Some? <==> IsDefinition(n)
    ensures r.Some? ==> r.value.filePath == path && r.value.imports == imports && !r.value.chunkType.FileChunk?
    ensures r.Some? ==> (r.value.chunkType == FunctionChunk <==> n.kind == "function_definition")
                        && (r.value.chunkType == ClassChunk <==> n.kind == "class_definition")
    ensures r.Some? ==> && r.value.content == TextOf(how, code, n.span)
                        && r.value.name == TextOf(how, code, n.nameField.value)
                        && r.value.startLine == n.startRow && r.value.endLine == n.endRow
  {
    if n.nameField.None? then None
    else if n.kind == "function_definition" then
      Some(CodeChunk(path, TextOf(how, code, n.span), FunctionChunk, TextOf(how, code, n.nameField.value), n.startRow, n.endRow, imports))
    else if n.kind == "class_definition" then
      Some(CodeChunk(path, TextOf(how, code, n.span), ClassChunk, TextOf(how, code, n.nameField.value), n.startRow, n.endRow, imports))
    else None
  }

  /** The chunks of the definitions among `nodes`, in node order. */
  function DefinitionChunks(how: Slicing, path: string, code: string, imports: seq<string>, nodes: seq<TsNode>): (r: seq<CodeChunk>)
    ensures |r| <= |nodes|
  {
    FilterMap(nodes, n => NodeChunk(how, path, code, imports, n))
  }

  /** The chunks of consecutive runs of nodes follow one another, so source order is kept. */
  lemma DefinitionChunksAppend(how: Slicing, path: string, code: string, imports: seq<string>, a: seq<TsNode>, b: seq<TsNode>)
    ensures DefinitionChunks(how, path, code, imports, a + b)
            == DefinitionChunks(how, path, code, imports, a) + DefinitionChunks(how, path, code, imports, b)
  {
    FilterMapAppend(a, b, n => NodeChunk(how, path, code, imports, n));
  }

  /** Extending a run of nodes by one appends that node's chunk, if any. */
  lemma DefinitionChunksStep(how: Slicing, path: string, code: string, imports: seq<string>, nodes: seq<TsNode>, i: nat)
    requires i < |nodes|
    ensures DefinitionChunks(how, path, code, imports, nodes[..i + 1])
            == DefinitionChunks(how, path, code, imports, nodes[..i]) + OptionToSeq(NodeChunk(how, path, code, imports, nodes[i]))
  {
    assert nodes[..i + 1][..i] == nodes[..i];
  }

  /** A chunk is produced exactly when some node is a definition that becomes it. */
  lemma DefinitionChunksMember(how: Slicing, path: string, code: string, imports: seq<string>, nodes: seq<TsNode>, c: CodeChunk)
    ensures c in DefinitionChunks(how, path, code, imports, nodes)
            <==> exists i :: 0 <= i < |nodes| && NodeChunk(how, path, code, imports, nodes[i]) == Some(c)
  {
    FilterMapMember(nodes, n => NodeChunk(how, path, code, imports, n), c);
  }

  /**
   * Every definition chunk is a function or class chunk of this file carrying
   * its import list, and there are none exactly when no node is a definition.
   */
  lemma DefinitionChunksShape(how: Slicing, path: string, code: string, imports: seq<string>, nodes: seq<TsNode>)
    ensures var r := DefinitionChunks(how, path, code, imports, nodes);
            && (forall k :: 0 <= k < |r| ==> r[k].filePath == path && r[k].imports == imports && !r[k].chunkType.FileChunk?)
            && (r == [] <==> forall i :: 0 <= i < |nodes| ==> !IsDefinition(nodes[i]))
  {
    var r := DefinitionChunks(how, path, code, imports, nodes);
    forall k | 0 <= k < |r|
      ensures r[k].filePath == path && r[k].imports == imports && !r[k].chunkType.FileChunk?
    {
      DefinitionChunksMember(how, path, code, imports, nodes, r[k]);
    }
    if r != [] {
      DefinitionChunksMember(how, path, code, imports, nodes, r[0]);
    }
    if exists i :: 0 <= i < |nodes| && IsDefinition(nodes[i]) {
      var i :| 0 <= i < |nodes| && IsDefinition(nodes[i]);
      DefinitionChunksMember(how, path, code, imports, nodes, NodeChunk(how, path, code, imports, nodes[i]).value);
    }
  }

  /** The whole-file chunk: content capped at 5000 characters, named after the file's base name. */
  function WholeFileChunk(path: string, content: string, lines: nat, imports: seq<string>): CodeChunk
  {
    CodeChunk(path, Prefix(content, 5000), FileChunk, Basename(path), 0, lines, imports)
  }

  /**
   * What `parse_file_with_treesitter(path)` returns. `read` is the file's text
   * (`None` when opening or decoding it raises), `walk` the `ast.walk` order of
   * its syntax tree (`None` when `ast.parse` fails), `tree` the top-level
   * children of the tree-sitter parse (`None` when tree-sitter raises) and
   * `reread` what the exception handler reads back (`None` when that raises too);
   * `how` says how node text is sliced.
   */
  function Chunks(how: Slicing, path: string, read: Option<string>, walk: Option<seq<Imports.PyNode>>,
                  tree: Option<seq<TsNode>>, reread: Option<string>): seq<CodeChunk>
  {
    if read.Some? && tree.Some? then
      var code := read.value;
      var imports := Imports.Extracted(walk);
      var defs := DefinitionChunks(how, path, code, imports, tree.value);
      if defs != [] then defs else [WholeFileChunk(path, code, |Split(code, '\n')|, imports)]
    else if reread.Some? then
      var content := Prefix(reread.value, 5000);
      [WholeFileChunk(path, content, |Split(content, '\n')|, [])]
    else []
  }

  /** The body of the loop over the top-level children: append the node's chunk if it is a named definition. */
  method AppendNodeChunk(how: Slicing, chunks: seq<CodeChunk>, path: string, code: string, imports: seq<string>, child: TsNode)
    returns (chunks': seq<CodeChunk>)
    ensures chunks' == chunks + OptionToSeq(NodeChunk(how, path, code, imports, child))
  {
    chunks' := chunks;
    if child.kind == "function_definition" {
      if child.nameField.Some? {
        var name := TextOf(how, code, child.nameField.value);
        var content := TextOf(how, code, child.span);
        chunks' := chunks' + [CodeChunk(path, content, FunctionChunk, name, child.startRow, child.endRow, imports)];
      }
    } else if child.kind == "class_definition" {
      if child.nameField.Some? {
        var name := TextOf(how, code, child.nameField.value);
        var content := TextOf(how, code, child.span);
        chunks' := chunks' + [CodeChunk(path, content, ClassChunk, name, child.startRow, child.endRow, imports)];
      }
    }
  }

  /** The loop over the top-level children: append a chunk for each named function or class definition. */
  method CollectDefinitions(how: Slicing, path: string, code: string, imports: seq<string>, nodes: seq<TsNode>)
    returns (chunks: seq<CodeChunk>)
    ensures chunks == DefinitionChunks(how, path, code, imports, nodes)
  {
    chunks := [];
    var i := 0;
    while i < |nodes|
      invariant 0 <= i <= |nodes|
      invariant chunks == DefinitionChunks(how, path, code, imports, nodes[..i])
    {
      chunks := AppendNodeChunk(how, chunks, path, code, imports, nodes[i]);
      DefinitionChunksStep(how, path, code, imports, nodes, i);
      i := i + 1;
    }
    assert nodes[..|nodes|] == nodes;
  }

  /**
   * `parse_file_with_treesitter`: the definition chunks, else the whole-file
   * chunk, else the exception fallback; with `SliceByBytes` this is the
   * program as written.
   */
  method ParseFile(how: Slicing, path: string, read: Option<string>, walk: Option<seq<Imports.PyNode>>,
                   tree: Option<seq<TsNode>>, reread: Option<string>) returns (chunks: seq<CodeChunk>)
    ensures chunks == Chunks(how, path, read, walk, tree, reread)
  {
    chunks := [];
    if read.Some? && tree.Some? {
      var code := read.value;
      var imports := Imports.ExtractImports(walk);
      chunks := CollectDefinitions(how, path, code, imports, tree.value);
      if chunks == [] {
        chunks := [WholeFileChunk(path, code, |Split(code, '\n')|, imports)];
      }
    } else if reread.Some? {
      var content := Prefix(reread.value, 5000);
      chunks := [WholeFileChunk(path, content, |Split(content, '\n')|, [])];
    }
  }

  /**
   * A file that reads and parses always yields a chunk; when it has
   * definitions, all chunks are function or class chunks of this file carrying
   * the file's import list, one per definition node.
   */
  lemma ParsedFileChunks(how: Slicing, path: string, code: string, walk: Option<seq<Imports.PyNode>>, nodes: seq<TsNode>, reread: Option<string>, c: CodeChunk)
    requires exists i :: 0 <= i < |nodes| && IsDefinition(nodes[i])
    ensures var chunks := Chunks(how, path, Some(code), walk, Some(nodes), reread);
            && chunks != []
            && (forall k :: 0 <= k < |chunks| ==> chunks[k].filePath == path && chunks[k].imports == Imports.Extracted(walk)
                                                  && !chunks[k].chunkType.FileChunk?)
            && (c in chunks <==> exists i :: 0 <= i < |nodes| && NodeChunk(how, path, code, Imports.Extracted(walk), nodes[i]) == Some(c))
  {
    DefinitionChunksShape(how, path, code, Imports.Extracted(walk), nodes);
    DefinitionChunksMember(how, path, code, Imports.Extracted(walk), nodes, c);
  }

  /**
   * With no definition among the top-level nodes (decorated or nested
   * definitions are not top-level definitions), exactly one whole-file chunk is
   * emitted: the first 5000 characters, the base name, rows 0 to the number of
   * `\n`-separated lines.
   */
  lemma NoDefinitionsOneFileChunk(how: Slicing, path: string, code: string, walk: Option<seq<Imports.PyNode>>, nodes: seq<TsNode>, reread: Option<string>)
    requires forall i :: 0 <= i < |nodes| ==> !IsDefinition(nodes[i])
    ensures var chunks := Chunks(how, path, Some(code), walk, Some(nodes), reread);
            && |chunks| == 1
            && chunks[0].chunkType == FileChunk
            && chunks[0].content == Prefix(code, 5000)
            && chunks[0].name == Basename(path)
            && chunks[0].startLine == 0
            && chunks[0].endLine == CountChar(code, '\n') + 1
            && chunks[0].imports == Imports.Extracted(walk)
  {
    DefinitionChunksShape(how, path, code, Imports.Extracted(walk), nodes);
  }

  /** An empty file still yields one chunk, of one line. */
  lemma EmptyFileOneChunk(how: Slicing, path: string, walk: Option<seq<Imports.PyNode>>, reread: Option<string>)
    ensures Chunks(how, path, Some(""), walk, Some([]), reread)
            == [CodeChunk(path, "", FileChunk, Basename(path), 0, 1, Imports.Extracted(walk))]
  {
    assert CountChar("", '\n') == 0;
    assert DefinitionChunks(how, path, "", Imports.Extracted(walk), []) == [];
  }

  /**
   * When reading or parsing raises, the fallback yields one whole-file chunk
   * without imports if the file can be read again, and nothing otherwise.
   */
  lemma FailedParseFallback(how: Slicing, path: string, read: Option<string>, walk: Option<seq<Imports.PyNode>>, tree: Option<seq<TsNode>>, reread: Option<string>)
    requires read.None? || tree.None?
    ensures reread.None? ==> Chunks(how, path, read, walk, tree, reread) == []
    ensures reread.Some? ==>
              var chunks := Chunks(how, path, read, walk, tree, reread);
              && |chunks| == 1
              && chunks[0].chunkType == FileChunk
              && chunks[0].imports == []
              && chunks[0].content == Prefix(reread.value, 5000)
              && |chunks[0].content| == (if |reread.value| < 5000 then |reread.value| else 5000)
              && chunks[0].name == Basename(path)
              && chunks[0].startLine == 0
              && chunks[0].endLine == CountChar(chunks[0].content, '\n') + 1
  {
    if reread.Some? {
      var content := Prefix(reread.value, 5000);
      assert Chunks(how, path, read, walk, tree, reread) == [WholeFileChunk(path, content, |Split(content, '\n')|, [])];
    }
  }

  /** On a file that is pure ASCII, the chunker as written and the corrected one give the same chunks. */
  lemma ChunksAsciiAgree(path: string, read: Option<string>, walk: Option<seq<Imports.PyNode>>,
                         tree: Option<seq<TsNode>>, reread: Option<string>)
    requires read.Some? ==> forall k :: 0 <= k < |read.value| ==> read.value[k] as int < 0x80
    ensures Chunks(SliceByBytes, path, read, walk, tree, reread) == Chunks(SliceByChars, path, read, walk, tree, reread)
  {
    if read.Some? && tree.Some? {
      var code := read.value;
      var imports := Imports.Extracted(walk);
      var nodes := tree.value;
      forall i | 0 <= i < |nodes|
        ensures NodeChunk(SliceByBytes, path, code, imports, nodes[i]) == NodeChunk(SliceByChars, path, code, imports, nodes[i])
      {
        NodeTextAsciiAgrees(code, nodes[i].span);
        if nodes[i].nameField.Some? {
          NodeTextAsciiAgrees(code, nodes[i].nameField.value);
        }
      }
      FilterMapPointwise(nodes, n => NodeChunk(SliceByBytes, path, code, imports, n),
                         n => NodeChunk(SliceByChars, path, code, imports, n));
    }
  }

  /**
   * After a non-ASCII first line the two chunkers differ: for the file
   * `c + "\n" + rest` whose one function definition spans `rest`, the
   * corrected chunk's content is `rest`, while the chunk as written loses the
   * first `n - 1` characters of it, `n` being the UTF-8 length of `c`.
   */
  lemma ChunksShiftedByNonAscii(c: char, rest: string, path: string, walk: Option<seq<Imports.PyNode>>,
                                nameSpan: ByteSpan, endRow: nat, reread: Option<string>)
    requires c as int >= 0x80
    requires rest != []
    requires forall k :: 0 <= k < |rest| ==> rest[k] as int < 0x80
    ensures var code := [c, '\n'] + rest;
            var node := TsNode("function_definition", Some(nameSpan), 1, endRow, ByteSpan(ByteOffset(code, 2), ByteOffset(code, |code|)));
            var written := Chunks(SliceByBytes, path, Some(code), walk, Some([node]), reread);
            var intended := Chunks(SliceByChars, path, Some(code), walk, Some([node]), reread);
            && |written| == 1 && |intended| == 1
            && intended[0].content == rest
            && written[0].content == Slice(rest, Utf8Len(c) - 1, |rest|)
            && written[0].content != intended[0].content
  {
    var code := [c, '\n'] + rest;
    var node := TsNode("function_definition", Some(nameSpan), 1, endRow, ByteSpan(ByteOffset(code, 2), ByteOffset(code, |code|)));
    var imports := Imports.Extracted(walk);
    NodeTextShiftedByNonAscii(c, rest);
    assert [node][..0] == [];
    assert DefinitionChunks(SliceByBytes, path, code, imports, [node]) == [NodeChunk(SliceByBytes, path, code, imports, node).value];
    assert DefinitionChunks(SliceByChars, path, code, imports, [node]) == [NodeChunk(SliceByChars, path, code, imports, node).value];
  }
}
