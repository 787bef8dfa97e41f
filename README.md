# sage context engine — a Dafny model

This project models the deterministic core of the `sage` coding assistant's
command-line tool and proves properties of it. Everything here is written in
Dafny; nothing in it is executed.

- **cli/context.py**, the context-retrieval engine:
  - `infer_target_files`: the six explicit-mention regexes, matched as the
    greedy regex engine matches them, then the keyword table gated by file
    existence, then de-duplication.
  - `extract_imports`, over the `ast.walk` order of the parsed file.
  - `parse_file_with_treesitter`, over the list of top-level tree-sitter nodes.
  - The batch assembly of `index_codebase`: chunk ids, metadata records, the
    four parallel lists and the chunk counter.
  - `build_file_dependency_graph`: the module map, then the graph.
  - The substring-based ignore filter.
  - The text `get_relevant_context` builds from the inferred files and the
    search hits.
  - `get_simple_context`: the stable newest-first sort, the selection, the
    truncation and the join.
  - The keyword-scan fallback of `search_codebase`.
- **cli/theme.py**: banner truncation and template choice, and the message
  and code-block wrappers.
- **cli/model.py**: prompt assembly in `generate_response` and
  `generate_response_streaming`, and the fallback parse of `ollama list`.

Things the source gets from outside become inputs:

| Source behaviour | Input in the model |
|---|---|
| file contents | an optional string per file (`None` when `open` fails) |
| parse results | an optional list of nodes (`None` when parsing raises) |
| file existence | a set of names |
| modification times | integers |
| search hits | a list |
| embeddings | an opaque function |
| Ollama library answers | optional values |

Module layout:

- `wrappers.dfy`, `lists.dfy` and `text.dfy` hold the option type, two
  generic list builders and the Python string operations the source uses:
  - `lower`, `capitalize`, `split`, `strip`, `replace`, `count`, `join`;
  - slicing with clamping;
  - `str.format` padding;
  - `os.path.basename`.
- Each of the other files models one function, or one group of functions,
  of the source.

Imperative code becomes methods with loops. The mutating loops are
`infer_target_files`, `extract_imports`, the chunker, `index_codebase`, the
dependency graph and both renderers. Each method is proved equal to a
specification function, and the properties are proved about that function.
Pure code becomes functions and lemmas.

The two places where the source evidently does not do what it means (see
"## Findings") are modelled as written. The chunker's node slicing and the
keyword scan's match count are parameters of the model: one value gives the
program as written, the other the corrected behaviour, and lemmas relate the
two.

## Model

| member | source | states |
|---|---|---|
| Inference.InferTargetFiles | cli/context.py:174-218 | the result has no duplicates and holds exactly the explicit mentions and the keyword-table files |
| Inference.CollectCandidates | cli/context.py:189-216 | the list before de-duplication: every verb's matches in verb order, then one file per firing rule in table order |
| Inference.MatchAtSound | cli/context.py:181-190 | a reported match is the verb (case-insensitive), at least one whitespace character, then a token of `[a-zA-Z0-9_./]+\.[a-zA-Z0-9]+` |
| Inference.MatchAtLongest | cli/context.py:181-190 | if the pattern matches at an index, a match is reported there; it starts after all the whitespace and is at least as long as any match |
| Inference.MatchAtComplete | cli/context.py:181-190 | no match is reported at an index only when the pattern cannot match there |
| Inference.MatchStart | cli/context.py:181-190 | the group of any match at `i` starts right after the whole whitespace run following the verb |
| Inference.TokenEndSound | cli/context.py:181-186 | the token the greedy scan ends (at the last usable dot plus its alphanumeric run) is a full match of the token regex |
| Inference.TokenEndLongest | cli/context.py:181-186 | every token regex match starting at the same place ends no later than the token found, so the greedy match is the longest |
| Inference.FindAllSound | cli/context.py:190 | every string `re.findall` returns is the group of a match at or after the start, copied from the request unchanged |
| Inference.MatchReturned | cli/context.py:190 | a match not overlapped by an earlier match is returned, followed by everything after it: all mentions are returned, not only the first |
| Inference.FindAllEmptyIff | cli/context.py:190 | `re.findall` returns nothing exactly when the pattern matches at no index |
| Inference.MentionsMember | cli/context.py:189-191 | a token is an explicit mention exactly when some verb's scan reports it |
| Inference.MentionsEmptyIff | cli/context.py:189-191 | there is no explicit mention exactly when no verb's scan reports anything |
| Inference.EditKeepsDirectory | cli/context.py:182 | "edit a/b.py" yields "a/b.py", with its directory |
| Inference.FirstExisting | cli/context.py:212-216 | the index found is the first candidate that exists; none is found exactly when no candidate exists |
| Inference.RuleFile | cli/context.py:209-216 | a rule adds at most one file; it adds one only when its whole-word pattern occurs, and that file is an existing candidate; it adds none exactly when the pattern does not occur or no candidate exists |
| Inference.AppendFirstExisting | cli/context.py:212-216 | the inner loop appends the first existing candidate, or nothing |
| Inference.KeywordFilesMember | cli/context.py:208-216 | a file comes from the keyword table exactly when some rule adds it, and then it exists |
| Inference.KeywordFilesEmptyIff | cli/context.py:208-216 | the keyword table adds nothing exactly when no rule adds a file |
| Inference.Dedup | cli/context.py:218 | the de-duplicated list has no duplicates, the same elements as its input and no more entries |
| Inference.InferredFileOrigin | cli/context.py:174-218 | every inferred file is either the group of a mention match, taken from the request, or an existing candidate of a rule that fires on the lower-cased request |
| Inference.InferEmptyIff | cli/context.py:174-218 | nothing is inferred exactly when no mention pattern matches anywhere and no rule adds a file |
| Imports.ExtractImports | cli/context.py:74-88 | the loop returns the names of all nodes in walk order, and `[]` when parsing fails |
| Imports.ImportsOfMember | cli/context.py:79-85 | a name is extracted exactly when an `import` lists it or a `from` names it as a non-empty module; `from . import x` adds nothing |
| Imports.ImportsOfAppend | cli/context.py:79-85 | names come node after node: a concatenated walk gives the concatenated lists |
| Imports.ExtractExample | cli/context.py:80-85 | `import os, sys`, `from . import x`, `from pkg.mod import y` give `["os", "sys", "pkg.mod"]` |
| Chunker.NodeChunk | cli/context.py:104-140 | a node gives a chunk exactly when it is a top-level function or class definition with a name field; the chunk has the file's path and imports, type "function" exactly for a `function_definition` and "class" exactly for a `class_definition`, the node's text as content, its name field's text as name, and the node's start and end rows; with `SliceByBytes` the text is `code[start_byte:end_byte]` as written |
| Chunker.DefinitionChunksMember | cli/context.py:111-140 | a chunk is produced exactly when some node produces it |
| Chunker.DefinitionChunksShape | cli/context.py:111-140 | all chunks share the path and the import list and are not file chunks; there are none exactly when no node is a definition |
| Chunker.DefinitionChunksAppend | cli/context.py:111 | chunks come in node order: concatenated node lists give concatenated chunk lists |
| Chunker.AppendNodeChunk | cli/context.py:112-140 | one loop step appends the node's chunk, if it has one, with its text sliced as chosen |
| Chunker.CollectDefinitions | cli/context.py:111-140 | the loop over the root's children produces the definition chunks, in node order |
| Chunker.ParseFile | cli/context.py:91-171 | the whole function, including both fallbacks, equals `Chunks`; with `SliceByBytes`, the slicing the program uses, this is the program as written, and `Indexing.IndexCodebase` calls it that way |
| Chunker.ParsedFileChunks | cli/context.py:111-140 | with at least one definition, the chunks are exactly the definition chunks, all sharing the path and the extracted imports |
| Chunker.NoDefinitionsOneFileChunk | cli/context.py:143-152 | with no definition, there is exactly one file chunk: `code[:5000]`, the basename, start line 0, end line = number of `'\n'`-split lines, the extracted imports |
| Chunker.EmptyFileOneChunk | cli/context.py:143-152 | an empty file gives one chunk, with end line 1 |
| Chunker.FailedParseFallback | cli/context.py:154-169 | when reading or parsing fails: one file chunk holding the first 5000 characters of the re-read content, named after the base name, from line 0 to its number of lines, with no imports; nothing when the re-read fails |
| Chunker.NodeTextOfCharRange | cli/context.py:107-108 | the corrected node text (byte offsets read back as character indices) is exactly the characters the node spans |
| Chunker.NodeTextAsciiAgrees | cli/context.py:107-108 | on ASCII code the as-written slicing agrees with the corrected one |
| Chunker.NodeTextShiftedByNonAscii | cli/context.py:107-108 | one non-ASCII character before a node shifts the as-written slice by its extra UTF-8 bytes, so the text differs from the node's own |
| Chunker.ChunksAsciiAgree | cli/context.py:104-140 | on a pure ASCII file the chunker as written and the corrected chunker return the same chunks |
| Chunker.ChunksShiftedByNonAscii | cli/context.py:104-140 | after a non-ASCII first line they differ: the corrected chunk holds the whole definition, the chunk as written loses its first characters |
| Chunker.CharIndexOfByteOffset | cli/context.py:104 | the UTF-8 byte offset of a character index converts back to that index |
| SourceFiles.Unignored | cli/context.py:301-309 | a file is kept exactly when no pattern occurs anywhere in its full path, and order is kept |
| SourceFiles.UnignoredAppend | cli/context.py:306-309 | filtering a concatenation concatenates the filtered parts |
| SourceFiles.IgnoredRootDropsAll | cli/context.py:306-309 | the test is on the whole path: if the context directory's own path contains a pattern, every file is dropped |
| SourceFiles.UnignoredDistinct | cli/context.py:350-353 | filtering keeps distinct paths distinct |
| Indexing.ChunkIdInjective | cli/context.py:386 | the id `path:start_line:idx` determines its three parts |
| Indexing.MetadataImportsRoundTrip | cli/context.py:398 | splitting the `","`-joined imports on "," gives a non-empty import list back when no name contains a comma; an empty list becomes "", which splits to `[""]` |
| Indexing.EntryFromFile | cli/context.py:380-384 | every indexed chunk comes from one of the files |
| Indexing.EntryKeysDistinct | cli/context.py:380-384 | with distinct file paths, no two chunks share both path and index |
| Indexing.IdsDistinct | cli/context.py:380-405 | the chunk ids are pairwise distinct |
| Indexing.AddFileChunks | cli/context.py:384-405 | the inner loop appends one element per chunk to each parallel list and counts it |
| Indexing.IndexCodebase | cli/context.py:374-414 | the four lists have length `total_chunks` and hold, in order, each chunk's content, embedding, id and metadata; `add` happens exactly when there is a chunk |
| DepGraph.ModuleNameExample | cli/context.py:504 | `pkg/mod.py` is module `pkg.mod` |
| DepGraph.ModuleNameOfPlainPath | cli/context.py:504 | for `stem.py` with no other dot, the module name is the stem with "/" read as "." |
| DepGraph.ModuleMapKeys | cli/context.py:501-505 | the module map's keys are exactly the files' module names |
| DepGraph.ModuleMapLaterWins | cli/context.py:501-505 | a module name maps to the path of the last file carrying it |
| DepGraph.ResolveMember | cli/context.py:516-519 | a file is a dependency exactly when some import resolves to it; other imports are dropped |
| DepGraph.ResolveAppend | cli/context.py:516-519 | resolution keeps import order: a concatenated import list resolves to the concatenated dependency lists |
| DepGraph.ResolveNone | cli/context.py:516-519 | no dependency when no import is a project module |
| DepGraph.ResolveImports | cli/context.py:514-519 | the resolving loop builds the resolved list |
| DepGraph.GraphKeys | cli/context.py:508-524 | the graph's keys are exactly the files' paths |
| DepGraph.GraphValue | cli/context.py:508-524 | with distinct paths, each file's entry is its own dependency list |
| DepGraph.BuildModuleMap | cli/context.py:501-505 | the first loop builds the module map |
| DepGraph.FileDependencies | cli/context.py:509-524 | an unreadable file gets `[]`, any other file its resolved imports |
| DepGraph.BuildGraph | cli/context.py:498-524 | the two loops build the graph of their specification |
| DepGraph.BuildDependencyGraph | cli/context.py:479-526 | the graph of the files not ignored |
| DepGraph.GraphOf | cli/context.py:498-524 | keys are the files; an unreadable file maps to `[]`; every edge leads to a file whose module the source imports, the last one with that module name |
| DepGraph.GraphProperties | cli/context.py:479-526 | the same, for the files left after the ignore filter |
| RelevantContext.AppendTargetSection | cli/context.py:258-265 | appends the inferred-files block, present only when some file was inferred |
| RelevantContext.AppendHit | cli/context.py:275-287 | appends a hit's title line (type and name, or the file alone when the name is empty), its document and an empty line |
| RelevantContext.AppendHitSection | cli/context.py:268-287 | appends the hits block, present only when there are hits |
| RelevantContext.RenderRelevantContext | cli/context.py:255-289 | the context is the newline join of both blocks |
| RelevantContext.HitBlockAt | cli/context.py:271-287 | hit `k` occupies lines `3k` to `3k+2` of the hits block |
| RelevantContext.TargetLineAt | cli/context.py:261-262 | inferred file `k` is listed on line `2+k` |
| RelevantContext.HitSectionAt | cli/context.py:269-287 | hit `k`'s title and document sit after the heading |
| RelevantContext.HitLinesAt | cli/context.py:258-287 | hit `k`'s title and document come right after the inferred-files block |
| RelevantContext.InferredFilesOnlyListed | cli/context.py:242-289 | the inferred files are only listed: every hit is rendered, in order, whatever files were inferred |
| RelevantContext.RelevantContextHeader | cli/context.py:258-289 | the context starts with the inferred-files heading exactly when a file was inferred, and is empty exactly when there are no files and no hits |
| RelevantContext.FixedContextHeader | cli/context.py:259-269 | the same for the headings the source writes |
| SimpleContext.SortByMtimeDesc | cli/context.py:311 | the sort keeps the number of files |
| SimpleContext.SortPermutation | cli/context.py:311 | the sort is a permutation |
| SimpleContext.SortSorted | cli/context.py:311 | the sort puts newer files first |
| SimpleContext.SortStable | cli/context.py:311 | the sort is stable: files with equal times keep their order |
| SimpleContext.InsertPermutation | cli/context.py:311 | one insertion adds the file and loses nothing |
| SimpleContext.InsertSorted | cli/context.py:311 | one insertion keeps the list sorted |
| SimpleContext.InsertStable | cli/context.py:311 | one insertion places the file after those with the same time |
| SimpleContext.Truncated | cli/context.py:320-321 | content over 5000 characters becomes its first 5000 characters followed by exactly the marker `"\n\n# ... (truncated)"`; shorter content is unchanged |
| SimpleContext.AppendSection | cli/context.py:315-326 | a loop step appends the file's section when it can be read, else nothing |
| SimpleContext.RenderSections | cli/context.py:314-328 | the loop and join give the sections joined by `"\n\n---\n\n"` |
| SimpleContext.RenderSimpleContext | cli/context.py:296-328 | the context is the joined sections of the selected files |
| SimpleContext.SelectedProperties | cli/context.py:306-312 | at most `max_files` files, none ignored, newest first, a prefix of the sorted list, and no file left out is newer than a selected one |
| SimpleContext.SectionsMember | cli/context.py:315-326 | a section exists exactly for each selected file that can be read |
| KeywordSearch.KeywordSearchFallback | cli/context.py:459-476 | only the first `max_results` files are scanned; each readable one that mentions the query ignoring case is reported with `content.count(query.lower())`, as written |
| KeywordSearch.KeywordResultsMember | cli/context.py:463-472 | a file is reported exactly when it is scanned, readable and mentions the query ignoring case, and it carries its count: the count as written (`CountInContent`) or the corrected one (`CountIgnoringCase`) |
| KeywordSearch.KeywordResults | cli/context.py:463-472 | at most one result per file; with the corrected count each result has at least one match, while the count as written may be 0 |
| KeywordSearch.MatchesPositive | cli/context.py:468-471 | a reported file has at least one case-insensitive occurrence |
| KeywordSearch.MatchesAsWrittenMissesCapitals | cli/context.py:471 | as written, an upper-case file mentioning a query with a letter is reported with 0 matches |
| KeywordSearch.KeywordCountsAgree | cli/context.py:463-472 | both counts report the same files in the same order, and the same counts when no readable file has an upper-case ASCII letter |
| Theme.ModelDisplay | cli/theme.py:89 | at most 50 characters; unchanged when short; otherwise the first 47 characters then "...", exactly 50 |
| Theme.ContextDisplay | cli/theme.py:90 | at most 48 characters; unchanged when short; otherwise "..." then the last 45 characters, exactly 48 |
| Theme.DisplaysIdempotent | cli/theme.py:89-90 | truncating twice is truncating once |
| Theme.Fill | cli/theme.py:93-95 | a filled template's length adds each field's padded width |
| Theme.FillFields | cli/theme.py:93-95 | the filled template is the template text with each value at the start of its field and only spaces after it |
| Theme.BannerWidth | cli/theme.py:86-95 | from 80 columns the full banner has a fixed length; the simple banner keeps its length exactly when the displays fit its fields |
| Theme.BannerShowsDisplays | cli/theme.py:92-95 | width 80 or more shows the displays in the full template, any smaller width in the simple one |
| Theme.FormatUserMessage | cli/theme.py:99-101 | the user label, then the message unchanged |
| Theme.FormatAssistantMessage | cli/theme.py:104-106 | the assistant label whatever the message |
| Theme.Icon | cli/theme.py:111-117 | "•" exactly for a type other than success, error, warning and info |
| Theme.FormatSystemMessage | cli/theme.py:109-118 | `[type]`, the icon, a space, the message, `[/type]`, at computed positions |
| Theme.FormatCodeBlock | cli/theme.py:121-123 | the code between `[code]` and `[/code]` |
| Prompting.PromptParts | cli/model.py:40-85 | two parts without context, four with it |
| Prompting.BuildPrompt | cli/model.py:40-87 | the appending and joining give the prompt of the specification, and the history is never read |
| Prompting.PromptLayout | cli/model.py:40-87 | the prompt is the instructions, a newline, the optional heading and fenced context, then `"User request: " + query` |
| Prompting.PromptEnds | cli/model.py:40-87 | the prompt starts with the instructions and ends with the user request line |
| Prompting.PromptContextBlock | cli/model.py:81-83 | the context heading follows the instructions exactly when the context is non-empty, and the fence holds the context |
| Prompting.FirstWord | cli/model.py:25 | `line.split()[0]` is a word with no whitespace, preceded in the line only by whitespace and followed by whitespace or the end of the line |
| Prompting.LineName | cli/model.py:25 | a line gives a name exactly when it is not blank |
| Prompting.FirstWordsMember | cli/model.py:25 | a name is listed exactly when it is the first word of some non-blank line |
| Prompting.ParseModelList | cli/model.py:24-25 | at most (line count − 1) names, each a word with no whitespace |
| Prompting.ParseModelListMember | cli/model.py:24-25 | a name is returned exactly when it is the first word of a non-blank line after the header |
| Prompting.ListAvailableModels | cli/model.py:10-28 | the library's names when that call succeeds, else the parsed listing, else nothing |
| Text.SplitJoin | cli/context.py:398 | `str.split` undoes `join` when no part holds the separator |
| Text.Split | cli/context.py:150 | `split(c)` gives one more part than there are separators, with none inside the parts, and the parts join back to the string |
| Text.ParseNatToString | cli/context.py:386 | reading back a rendered line number gives the number |
| Text.Strip | cli/model.py:24-25 | `strip()` is `s[a..b]` with only whitespace before `a` and after `b`, and it starts and ends with non-whitespace; it is empty exactly for an all-whitespace string |
| Text.Words | cli/model.py:25 | `split()` gives no word exactly for an all-whitespace string; every word has no whitespace, and the first is the run after the leading whitespace, ending at whitespace or the end |
| Text.Basename | cli/context.py:148 | `basename` is the suffix after the last "/" |

## Left out

- The SentenceTransformer, ChromaDB and tree-sitter singletons, and every `encode`, `query`, `add` and `create_collection` call, are foreign libraries.
  - Embeddings are modelled as an opaque function.
  - Search hits are an input list; their ranking happens inside the vector store over floats.
  - Parse results are inputs.
- The filesystem (`rglob`, `open`, `os.path.exists`, `stat().st_mtime`, `relative_to`, `relpath`) is modelled as inputs: a file list with optional contents, a set of existing names and integer modification times.
- `os.path.relpath` of a hit is an input string. Floating-point times are integers; only their order matters.
- Ollama and `subprocess` are inputs: the library's model names, or the `ollama list` output, each optional.
  - `ollama.generate` and the streaming call are left out.
- Prompting.ListAvailableModels: the exception fallback chain is modelled by which of its inputs are present, not by exceptions.
- The exception-driven fallbacks in `get_relevant_context` and `search_codebase` are not modelled as control flow, because they are decided by foreign libraries. The keyword fallback and `get_simple_context`, which they reach, are modelled.
- `index_codebase` deleting and recreating the collection is left out, because it happens inside the store.
- Inference.InferTargetFiles: `list(set(...))` has an order Python does not specify. The model keeps first occurrences, and the contract states only membership and the absence of duplicates.
- Text.Lower, Text.Capitalize and the `IGNORECASE` and `\w` regex classes cover ASCII letters only. Python's Unicode case mapping is not modelled.
- Chunker.NodeText: the tree-sitter node offsets are inputs. The model does not re-derive them from the source text.
- Chunker.Chunks and Chunker.ParseFile take the slicing as a parameter. `SliceByBytes` is the program as written; `SliceByChars` is the corrected slicing of the first finding below. The indexer uses `SliceByBytes`.
- KeywordSearch.KeywordResults takes the count as a parameter. The fallback method uses `CountInContent`, the program as written; `CountIgnoringCase` is the corrected count of the second finding below.
- Text.Words: the contract ties the first word to its position in the string; the later words are stated only to be whitespace-free, non-empty and absent exactly for blank strings.
- Theme.GetBanner and the banner lemmas take the template texts as a parameter. The proofs hold for any texts, including the two box-drawing templates of the source, which are the constant `Theme.Templates`. The constant itself is not inspected by any proof.
- The `THEME` colour table and `get_console` in cli/theme.py are console styling.
- Prompting.GenerationPrompt models both `generate_response` and `generate_response_streaming` with one instruction constant. The two copies in the source are the same text, character for character, so both functions build the same prompt.
- cli/chat.py, cli/main.py and the test scripts are user interface and harness code, not part of this model.

## Findings

| source | as written | input that shows it | evidently intended | confidence | as-written member | corrected member |
|---|---|---|---|---|---|---|
| cli/context.py:107-108 | node text is `code[node.start_byte:node.end_byte]`: tree-sitter's UTF-8 byte offsets are used as indices into the Python `str` | a file reading `"é\ndef f(): pass"`: the definition starts at byte 3 but character 2, so its text loses its first character | convert the byte offsets to character indices (or slice the encoded bytes) | not executed | Chunker.NodeTextShiftedByNonAscii / Chunker.ChunksShiftedByNonAscii | Chunker.NodeTextOfCharRange / Chunker.ChunksAsciiAgree |
| cli/context.py:471 | `content.count(query.lower())` counts the lowered query in the content as it is, although line 468 decided on `content.lower()` | a file reading `"FOO = 1"` and the query `"FOO"`: it is reported with 0 matches | count in `content.lower()` as the test does | not executed | KeywordSearch.KeywordSearchFallback / KeywordSearch.MatchesAsWrittenMissesCapitals | KeywordSearch.MatchesPositive / KeywordSearch.KeywordCountsAgree |
