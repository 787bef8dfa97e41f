/**
 * The model client (cli/model.py) apart from its calls into Ollama: the
 * prompt `generate_response` and `generate_response_streaming` send, and the
 * parse of the `ollama list` listing.
 */
module Prompting {
  import opened Wrappers
  import opened Lists
  import opened Text

  /**
   * The instructions both generation functions put first. Their two copies in
   * the program are the same text; the functions and lemmas below take the
   * instructions as a parameter so that proofs need not look inside them.
   */
  const Instructions := "You are an expert Python coding assistant. Follow these guidelines:\n\n1. Write clean, idiomatic Python code\n2. Use type hints for function parameters and return values\n3. Include docstrings for functions and classes\n4. Follow PEP 8 style guidelines\n5. Use meaningful variable names\n6. Add error handling where appropriate\n7. Keep functions focused and concise\n\nCODE BLOCK FORMAT - Use this EXACT format (no deviations):\n\n```python:filename.py\ndef example():\n    pass\n```\n\nFor multiple files:\n\n```python:file1.py\ncode here\n```\n\n```python:utils/file2.py\ncode here\n```\n\nCRITICAL RULES:\n- First line: ```python:filename (backticks, python, colon, filename - NO spaces, NO comments)\n- Last line: ``` (just backticks)\n- PRESERVE paths: utils/helper.py stays utils/helper.py (not just helper.py)\n- Use EXACT filename from \"Inferred target files\" if shown in context\n- Multiple files = multiple SEPARATE code blocks\n- NO explanatory text between ``` and code\n- NO numbered lines, NO function headers like \"# Function: ...\"\n\n"

  const ContextHeading := "Relevant code from the codebase:\n"

  const RequestLabel := "User request: "

  /** The context inside a Python code fence. */
  function Fence(context: string): string
  {
    "```python\n" + context + "\n```\n\n"
  }

  /** `prompt_parts`: the instructions, the context block when there is context, the request. */
  function PromptParts(instructions: string, query: string, context: string): (r: seq<string>)
    ensures |r| == if context == "" then 2 else 4
  {
    [instructions] + (if context != "" then [ContextHeading, Fence(context)] else []) + [RequestLabel + query]
  }

  /** `"\n".join(prompt_parts)`. */
  function Prompt(instructions: string, query: string, context: string): string
  {
    Join(PromptParts(instructions, query, context), "\n")
  }

  /** The prompt `generate_response` and `generate_response_streaming` send with the program's instructions. */
  function GenerationPrompt(query: string, context: string): string
  {
    Prompt(Instructions, query, context)
  }

  /**
   * The prompt assembly of both generation functions: parts appended one by
   * one and joined with newlines. The history is accepted and never read.
   */
  method BuildPrompt(instructions: string, query: string, context: string, history: seq<map<string, string>>)
    returns (prompt: string)
    ensures prompt == Prompt(instructions, query, context)
  {
    var parts: seq<string> := [];
    parts := parts + [instructions];
    if context != "" {
      parts := parts + [ContextHeading];
      parts := parts + ["```python\n" + context + "\n```\n\n"];
    }
    parts := parts + [RequestLabel + query];
    assert parts == PromptParts(instructions, query, context);
    prompt := Join(parts, "\n");
  }

  /**
   * The prompt spelled out: the instructions, then the heading and the fenced
   * context only when there is context, then the request, one newline between
   * consecutive parts.
   */
  lemma PromptLayout(instructions: string, query: string, context: string)
    ensures Prompt(instructions, query, context)
            == instructions + "\n"
               + (if context != "" then ContextHeading + "\n" + Fence(context) + "\n" else "")
               + RequestLabel + query
  {
    var request := RequestLabel + query;
    if context != "" {
      var parts := [instructions, ContextHeading, Fence(context), request];
      assert PromptParts(instructions, query, context) == parts;
      assert Join(parts[1..][1..][1..], "\n") == request;
      assert Join(parts[1..][1..], "\n") == Fence(context) + "\n" + request;
      assert Join(parts[1..], "\n") == ContextHeading + "\n" + (Fence(context) + "\n" + request);
      assert Join(parts, "\n") == instructions + "\n" + (ContextHeading + "\n" + (Fence(context) + "\n" + request));
    } else {
      var parts := [instructions, request];
      assert PromptParts(instructions, query, context) == parts;
      assert Join(parts[1..], "\n") == request;
    }
  }

  /** The prompt always starts with the instructions and ends with the request line. */
  lemma PromptEnds(instructions: string, query: string, context: string)
    ensures var p := Prompt(instructions, query, context);
            && instructions <= p
            && |p| >= |RequestLabel + query|
            && p[|p| - |RequestLabel + query|..] == RequestLabel + query
  {
    PromptLayout(instructions, query, context);
    var p := Prompt(instructions, query, context);
    var request := RequestLabel + query;
    var before := instructions + "\n" + (if context != "" then ContextHeading + "\n" + Fence(context) + "\n" else "");
    assert p == before + request;
    assert p[|before|..] == request;
  }

  /**
   * The context block is there exactly when the context is non-empty, and then
   * it holds the context verbatim right after the heading line.
   */
  lemma PromptContextBlock(instructions: string, query: string, context: string)
    ensures var p := Prompt(instructions, query, context);
            var start := |instructions| + 1 + |ContextHeading| + 1;
            && (instructions + "\n" + ContextHeading <= p <==> context != "")
            && (context != "" ==> |p| >= start + |Fence(context)| && p[start..start + |Fence(context)|] == Fence(context))
  {
    PromptLayout(instructions, query, context);
    var p := Prompt(instructions, query, context);
    var lead := instructions + "\n";
    if context == "" {
      assert !(lead + ContextHeading <= p) by {
        assert p == lead + (RequestLabel + query);
        assert p[|lead|] == 'U';
        assert (lead + ContextHeading)[|lead|] == 'R';
      }
    } else {
      var fence := Fence(context);
      var rest := RequestLabel + query;
      assert lead + ContextHeading <= p by {
        assert p == lead + ContextHeading + ("\n" + fence + "\n" + rest);
      }
      var start := |lead| + |ContextHeading| + 1;
      assert p[start..start + |fence|] == fence by {
        assert p == (lead + ContextHeading + "\n") + fence + ("\n" + rest);
      }
    }
  }

  /** `line.split()[0]` for a line that is not blank. */
  function FirstWord(line: string): (r: string)
    requires !AllSpace(line)
    ensures IsWord(r)
    ensures FirstWordAt(line, r)
  {
    Words(line)[0]
  }

  /** The name a line of `ollama list` gives: its first word, or none when the line is blank. */
  function LineName(line: string): (r: Option<string>)
    ensures r.Some? <==> !AllSpace(line)
  {
    if Strip(line) != "" then Some(FirstWord(line)) else None
  }

  /** The names of the lines that are not blank: the first whitespace-separated word of each. */
  function FirstWords(lines: seq<string>): (r: seq<string>)
    ensures |r| <= |lines|
  {
    FilterMap(lines, LineName)
  }

  /** A name is listed exactly when some non-blank line starts with it. */
  lemma FirstWordsMember(lines: seq<string>, name: string)
    ensures name in FirstWords(lines)
            <==> exists i :: 0 <= i < |lines| && !AllSpace(lines[i]) && name == FirstWord(lines[i])
  {
    FilterMapMember(lines, LineName, name);
  }

  /** The fallback parse of `ollama list`: drop the header line, keep the first word of every other non-blank line. */
  function ParseModelList(stdout: string): (r: seq<string>)
    ensures |r| <= CountChar(Strip(stdout), '\n')
    ensures forall k :: 0 <= k < |r| ==> IsWord(r[k])
  {
    var r := FirstWords(Split(Strip(stdout), '\n')[1..]);
    assert forall k :: 0 <= k < |r| ==> IsWord(r[k]) by {
      forall k | 0 <= k < |r| ensures IsWord(r[k]) {
        FirstWordsMember(Split(Strip(stdout), '\n')[1..], r[k]);
      }
    }
    r
  }

  /** A name comes from a line after the header and is that line's first word. */
  lemma ParseModelListMember(stdout: string, name: string)
    ensures var lines := Split(Strip(stdout), '\n');
            name in ParseModelList(stdout)
            <==> exists i :: 1 <= i < |lines| && !AllSpace(lines[i]) && name == FirstWord(lines[i])
  {
    var lines := Split(Strip(stdout), '\n');
    FirstWordsMember(lines[1..], name);
    assert forall i :: 1 <= i < |lines| ==> lines[1..][i - 1] == lines[i];
  }

  /**
   * `list_available_models`: the names the Ollama library reports when that
   * call succeeds, else the parsed `ollama list` output when the command
   * succeeds, else nothing.
   */
  function ListAvailableModels(library: Option<seq<string>>, listing: Option<string>): (r: seq<string>)
    ensures library.Some? ==> r == library.value
    ensures library.None? && listing.Some? ==> r == ParseModelList(listing.value)
    ensures library.None? && listing.None? ==> r == []
  {
    if library.Some? then library.value
    else if listing.Some? then ParseModelList(listing.value)
    else []
  }
}
