/**
 * The batch `index_codebase` (cli/context.py) hands to the vector store: one
 * document, embedding, id and metadata record per chunk of every indexed file.
 */
module Indexing {
  import opened Wrappers
  import opened Text
  import Chunker
  import SourceFiles

  /** The metadata record stored beside each chunk. */
  datatype Metadata = Metadata(
    filePath: string,
    chunkType: string,
    name: string,
    startLine: nat,
    endLine: nat,
    imports: string)

  /** One chunk of the batch: the file it came from, its position among that file's chunks, the chunk. */
  datatype Entry = Entry(path: string, idx: nat, chunk: Chunker.CodeChunk)

  /** The chunk id `f"{file_path}:{start_line}:{chunk_idx}"`. */
  function ChunkId(path: string, startLine: nat, idx: nat): string
  {
    path + ":" + NatToString(startLine) + ":" + NatToString(idx)
  }

  /** The last `c` of `x + [c] + d` is the one between them when `d` has none. */
  lemma LastIndexOfSplit(x: string, d: string, c: char)
    requires c !in d
    ensures LastIndexOf(x + [c] + d, c) == |x|
    decreases |d|
  {
    var s := x + [c] + d;
    if d != [] {
      assert s[..|s| - 1] == x + [c] + d[..|d| - 1];
      assert d[|d| - 1] in d;
      LastIndexOfSplit(x, d[..|d| - 1], c);
    }
  }

  /** Decimal renderings contain no colon. */
  lemma NoColonInNumber(n: nat)
    ensures ':' !in NatToString(n)
  {
    var s := NatToString(n);
    assert forall i :: 0 <= i < |s| ==> IsDigit(s[i]);
  }

  /** Decimal rendering is injective. */
  lemma NatToStringInjective(m: nat, n: nat)
    requires NatToString(m) == NatToString(n)
    ensures m == n
  {
    ParseNatToString(m);
    ParseNatToString(n);
  }

  /**
   * Ids determine their parts, whatever colons the path holds: the last two
   * colons separate the two numbers, which contain none.
   */
  lemma ChunkIdInjective(p1: string, s1: nat, i1: nat, p2: string, s2: nat, i2: nat)
    requires ChunkId(p1, s1, i1) == ChunkId(p2, s2, i2)
    ensures p1 == p2 && s1 == s2 && i1 == i2
  {
    var id := ChunkId(p1, s1, i1);
    var x1, d1 := p1 + ":" + NatToString(s1), NatToString(i1);
    var x2, d2 := p2 + ":" + NatToString(s2), NatToString(i2);
    NoColonInNumber(s1);
    NoColonInNumber(i1);
    NoColonInNumber(s2);
    NoColonInNumber(i2);
    assert id == x1 + [':'] + d1 && id == x2 + [':'] + d2;
    LastIndexOfSplit(x1, d1, ':');
    LastIndexOfSplit(x2, d2, ':');
    assert |x1| == |x2|;
    assert x1 == id[..|x1|] == x2;
    assert d1 == id[|x1| + 1..] == d2;
    NatToStringInjective(i1, i2);
    var e1, e2 := NatToString(s1), NatToString(s2);
    assert x1 == p1 + [':'] + e1 && x2 == p2 + [':'] + e2;
    LastIndexOfSplit(p1, e1, ':');
    LastIndexOfSplit(p2, e2, ':');
    assert p1 == x1[..|p1|] && p2 == x2[..|p2|];
    assert e1 == x1[|p1| + 1..] && e2 == x2[|p2| + 1..];
    NatToStringInjective(s1, s2);
  }

  /** The metadata record of a chunk of the file at `path`; imports are joined with ",". */
  function MetadataOf(path: string, c: Chunker.CodeChunk): Metadata
  {
    Metadata(path, c.chunkType.Label(), c.name, c.startLine, c.endLine, Join(c.imports, ","))
  }

  /**
   * The stored imports string gives the import list back on splitting at ","
   * when the list is non-empty and no name contains a comma; an empty list is
   * stored as "", which splits to `[""]`, not `[]`.
   */
  lemma MetadataImportsRoundTrip(path: string, c: Chunker.CodeChunk)
    requires forall k :: 0 <= k < |c.imports| ==> ',' !in c.imports[k]
    ensures c.imports != [] ==> Split(MetadataOf(path, c).imports, ',') == c.imports
    ensures c.imports == [] ==> MetadataOf(path, c).imports == "" && Split("", ',') == [""]
  {
    if c.imports != [] {
      SplitJoin(c.imports, ',');
    }
  }

  /** The chunks `parse_file_with_treesitter` gives for one file, node text sliced as the program does. */
  function FileChunks(f: SourceFiles.PyFile): seq<Chunker.CodeChunk>
  {
    Chunker.Chunks(Chunker.SliceByBytes, f.path, f.read, f.walk, f.tree, f.reread)
  }

  /** The entries of one file's chunks, numbered from 0. */
  function FileEntries(path: string, chunks: seq<Chunker.CodeChunk>): (r: seq<Entry>)
    ensures |r| == |chunks|
    ensures forall k :: 0 <= k < |r| ==> r[k] == Entry(path, k, chunks[k])
  {
    seq(|chunks|, k requires 0 <= k < |chunks| => Entry(path, k, chunks[k]))
  }

  /** All entries of the files, file after file. */
  function Entries(files: seq<SourceFiles.PyFile>): seq<Entry>
  {
    if files == [] then []
    else
      var last := files[|files| - 1];
      Entries(files[..|files| - 1]) + FileEntries(last.path, FileChunks(last))
  }

  function Documents(es: seq<Entry>): (r: seq<string>)
    ensures |r| == |es|
  {
    seq(|es|, k requires 0 <= k < |es| => es[k].chunk.content)
  }

  function Ids(es: seq<Entry>): (r: seq<string>)
    ensures |r| == |es|
  {
    seq(|es|, k requires 0 <= k < |es| => ChunkId(es[k].path, es[k].chunk.startLine, es[k].idx))
  }

  function Metadatas(es: seq<Entry>): (r: seq<Metadata>)
    ensures |r| == |es|
  {
    seq(|es|, k requires 0 <= k < |es| => MetadataOf(es[k].path, es[k].chunk))
  }

  function Embeddings<V>(es: seq<Entry>, embed: string -> V): (r: seq<V>)
    ensures |r| == |es|
  {
    seq(|es|, k requires 0 <= k < |es| => embed(es[k].chunk.content))
  }

  /** The files `index_codebase` indexes. */
  function Indexed(files: seq<SourceFiles.PyFile>): seq<SourceFiles.PyFile>
  {
    SourceFiles.Unignored(files, SourceFiles.IndexIgnorePatterns)
  }

  /** Every entry comes from one of the files. */
  lemma {:induction false} EntryFromFile(files: seq<SourceFiles.PyFile>, k: nat)
    requires k < |Entries(files)|
    ensures exists i :: 0 <= i < |files| && Entries(files)[k].path == files[i].path
  {
    var init := files[..|files| - 1];
    var last := files[|files| - 1];
    var fe := FileEntries(last.path, FileChunks(last));
    assert Entries(files) == Entries(init) + fe;
    if k < |Entries(init)| {
      EntryFromFile(init, k);
      var i :| 0 <= i < |init| && Entries(init)[k].path == init[i].path;
      assert files[i] == init[i];
    } else {
      assert Entries(files)[k] == fe[k - |Entries(init)|];
    }
  }

  /** No two entries share both their path and their index. */
  predicate KeysDistinct(es: seq<Entry>)
  {
    forall k, l :: 0 <= k < l < |es| ==> es[k].path != es[l].path || es[k].idx != es[l].idx
  }

  /** Appending the entries of a file whose path no earlier entry has keeps the keys distinct. */
  lemma KeysDistinctAppend(ei: seq<Entry>, path: string, chunks: seq<Chunker.CodeChunk>)
    requires KeysDistinct(ei)
    requires forall k :: 0 <= k < |ei| ==> ei[k].path != path
    ensures KeysDistinct(ei + FileEntries(path, chunks))
  {
    var fe := FileEntries(path, chunks);
    var es := ei + fe;
    forall k, l | 0 <= k < l < |es|
      ensures es[k].path != es[l].path || es[k].idx != es[l].idx
    {
      if l < |ei| {
        assert es[k] == ei[k] && es[l] == ei[l];
      } else if k < |ei| {
        assert es[k] == ei[k] && es[l] == fe[l - |ei|];
      } else {
        assert es[k] == fe[k - |ei|] && es[l] == fe[l - |ei|];
      }
    }
  }

  /** With distinct file paths, no two entries share both their path and their index. */
  lemma {:induction false} EntryKeysDistinct(files: seq<SourceFiles.PyFile>)
    requires SourceFiles.DistinctPaths(files)
    ensures forall k, l :: 0 <= k < l < |Entries(files)| ==>
              Entries(files)[k].path != Entries(files)[l].path || Entries(files)[k].idx != Entries(files)[l].idx
  {
    if files != [] {
      var init := files[..|files| - 1];
      var last := files[|files| - 1];
      var ei := Entries(init);
      EntryKeysDistinct(init);
      forall k | 0 <= k < |ei|
        ensures ei[k].path != last.path
      {
        EntryFromFile(init, k);
        var i :| 0 <= i < |init| && ei[k].path == init[i].path;
        assert files[i] == init[i];
      }
      KeysDistinctAppend(ei, last.path, FileChunks(last));
      assert Entries(files) == ei + FileEntries(last.path, FileChunks(last));
      assert KeysDistinct(Entries(files));
    }
  }

  /** Chunk ids are pairwise distinct, because each file's indices are and the paths are. */
  lemma IdsDistinct(files: seq<SourceFiles.PyFile>)
    requires SourceFiles.DistinctPaths(files)
    ensures var ids := Ids(Entries(Indexed(files)));
            forall k, l :: 0 <= k < l < |ids| ==> ids[k] != ids[l]
  {
    var fs := Indexed(files);
    SourceFiles.UnignoredDistinct(files, SourceFiles.IndexIgnorePatterns);
    EntryKeysDistinct(fs);
    var es := Entries(fs);
    forall k, l | 0 <= k < l < |es|
      ensures Ids(es)[k] != Ids(es)[l]
    {
      assert Ids(es)[k] == ChunkId(es[k].path, es[k].chunk.startLine, es[k].idx);
      assert Ids(es)[l] == ChunkId(es[l].path, es[l].chunk.startLine, es[l].idx);
      if Ids(es)[k] == Ids(es)[l] {
        ChunkIdInjective(es[k].path, es[k].chunk.startLine, es[k].idx, es[l].path, es[l].chunk.startLine, es[l].idx);
      }
    }
  }

  /** Appending one entry appends one element to each parallel list. */
  lemma ProjectionsSnoc<V>(es: seq<Entry>, e: Entry, embed: string -> V)
    ensures Documents(es + [e]) == Documents(es) + [e.chunk.content]
    ensures Ids(es + [e]) == Ids(es) + [ChunkId(e.path, e.chunk.startLine, e.idx)]
    ensures Metadatas(es + [e]) == Metadatas(es) + [MetadataOf(e.path, e.chunk)]
    ensures Embeddings(es + [e], embed) == Embeddings(es, embed) + [embed(e.chunk.content)]
  {
    assert forall k :: 0 <= k < |es| ==> (es + [e])[k] == es[k];
  }

  /** The inner loop of `index_codebase`: add every chunk of one file to the four lists and the counter. */
  method AddFileChunks<V>(path: string, chunks: seq<Chunker.CodeChunk>, embed: string -> V, ghost es: seq<Entry>,
                          documents: seq<string>, embeddings: seq<V>, ids: seq<string>, metadatas: seq<Metadata>, total: nat)
    returns (documents': seq<string>, embeddings': seq<V>, ids': seq<string>, metadatas': seq<Metadata>, total': nat)
    requires documents == Documents(es) && embeddings == Embeddings(es, embed)
    requires ids == Ids(es) && metadatas == Metadatas(es) && total == |es|
    ensures var es' := es + FileEntries(path, chunks);
            && documents' == Documents(es') && embeddings' == Embeddings(es', embed)
            && ids' == Ids(es') && metadatas' == Metadatas(es') && total' == |es'|
  {
    documents', embeddings', ids', metadatas', total' := documents, embeddings, ids, metadatas, total;
    var fe := FileEntries(path, chunks);
    var chunkIdx := 0;
    while chunkIdx < |chunks|
      invariant 0 <= chunkIdx <= |chunks|
      invariant documents' == Documents(es + fe[..chunkIdx]) && embeddings' == Embeddings(es + fe[..chunkIdx], embed)
      invariant ids' == Ids(es + fe[..chunkIdx]) && metadatas' == Metadatas(es + fe[..chunkIdx])
      invariant total' == |es + fe[..chunkIdx]|
    {
      var chunk := chunks[chunkIdx];
      var chunkId := ChunkId(path, chunk.startLine, chunkIdx);
      var embedding := embed(chunk.content);
      var metadata := Metadata(path, chunk.chunkType.Label(), chunk.name, chunk.startLine, chunk.endLine, Join(chunk.imports, ","));
      documents' := documents' + [chunk.content];
      embeddings' := embeddings' + [embedding];
      ids' := ids' + [chunkId];
      metadatas' := metadatas' + [metadata];
      total' := total' + 1;
      ProjectionsSnoc(es + fe[..chunkIdx], fe[chunkIdx], embed);
      assert es + fe[..chunkIdx + 1] == es + fe[..chunkIdx] + [fe[chunkIdx]];
      chunkIdx := chunkIdx + 1;
    }
    assert fe[..|chunks|] == fe;
  }

  /**
   * `index_codebase`: parse every file not ignored, and build the four parallel
   * lists and the counter; `added` tells whether the batch is handed to the
   * store, which happens only when there is at least one chunk. `embed` stands
   * for the embedding model, whose vectors are opaque here.
   */
  method IndexCodebase<V>(files: seq<SourceFiles.PyFile>, embed: string -> V)
    returns (documents: seq<string>, embeddings: seq<V>, ids: seq<string>, metadatas: seq<Metadata>, total: nat, added: bool)
    ensures |documents| == |embeddings| == |ids| == |metadatas| == total
    ensures var es := Entries(Indexed(files));
            && total == |es|
            && documents == Documents(es) && embeddings == Embeddings(es, embed)
            && ids == Ids(es) && metadatas == Metadatas(es)
    ensures added <==> total > 0
  {
    var filtered := Indexed(files);
    documents, embeddings, ids, metadatas, total := [], [], [], [], 0;
    var i := 0;
    while i < |filtered|
      invariant 0 <= i <= |filtered|
      invariant var es := Entries(filtered[..i]);
                && documents == Documents(es) && embeddings == Embeddings(es, embed)
                && ids == Ids(es) && metadatas == Metadatas(es) && total == |es|
    {
      var f := filtered[i];
      var chunks := Chunker.ParseFile(Chunker.SliceByBytes, f.path, f.read, f.walk, f.tree, f.reread);
      assert filtered[..i + 1][..i] == filtered[..i];
      assert Entries(filtered[..i + 1]) == Entries(filtered[..i]) + FileEntries(f.path, chunks);
      documents, embeddings, ids, metadatas, total :=
        AddFileChunks(f.path, chunks, embed, Entries(filtered[..i]), documents, embeddings, ids, metadatas, total);
      i := i + 1;
    }
    assert filtered[..|filtered|] == filtered;
    added := |documents| > 0;
  }
}
