/**
 * File-target inference: which files a free-text request names or implies.
 *
 * Two sources of candidates, in this order:
 *  - explicit mentions, found by the case-insensitive regexes
 *    `<verb>\s+([a-zA-Z0-9_./]+\.[a-zA-Z0-9]+)` for the verbs create, edit,
 *    modify, update, in and file (no word boundary before the verb, no
 *    existence check on the token);
 *  - a keyword table: when a whole word of a rule occurs in the lower-cased
 *    request, the first of the rule's candidate files that exists is added.
 * The combined list is de-duplicated.
 */
module Inference {
  import opened Wrappers
  import opened Lists
  import opened Text

  /** The verbs of the explicit-mention patterns, in the order they are tried. */
  const MentionVerbs: seq<string> := ["create", EditVerb, "modify", "update", "in", "file"]

  /** The verb of the patterns for edits. */
  const EditVerb := "edit"

  /** The character class `[a-zA-Z0-9_./]` of the mention token. */
  predicate IsPathChar(c: char)
  {
    IsAsciiAlnum(c) || c == '_' || c == '.' || c == '/'
  }

  /** The three character classes of a mention pattern: `\s`, `[a-zA-Z0-9_./]` and `[a-zA-Z0-9]`. */
  datatype CharClass = Space | Path | Alnum

  predicate InClass(c: char, cls: CharClass)
  {
    match cls
    case Space => IsSpace(c)
    case Path => IsPathChar(c)
    case Alnum => IsAsciiAlnum(c)
  }

  predicate AllIn(s: string, cls: CharClass)
  {
    forall i :: 0 <= i < |s| ==> InClass(s[i], cls)
  }

  /** `t` is a full match of `[a-zA-Z0-9_./]+\.[a-zA-Z0-9]+`. */
  predicate IsMentionToken(t: string)
  {
    AllIn(t, Path)
    && exists q :: 0 < q < |t| - 1 && t[q] == '.' && AllIn(t[q + 1..], Alnum)
  }

  /** The verb occurs at `i`, compared case-insensitively (the verbs are lower case). */
  predicate VerbAt(s: string, i: nat, verb: string)
  {
    i + |verb| <= |s| && Lower(s[i..i + |verb|]) == verb
  }

  /**
   * The pattern for `verb` matches `s[i..e]` with its group `s[p..e]`:
   * the verb, at least one whitespace character, then a mention token.
   */
  predicate MentionMatch(s: string, i: nat, verb: string, p: nat, e: nat)
  {
    VerbAt(s, i, verb) && i + |verb| < p <= e <= |s|
    && AllIn(s[i + |verb|..p], Space) && IsMentionToken(s[p..e])
  }

  /** End of the maximal run, starting at `k`, of characters of class `cls`. */
  function RunEnd(s: string, k: nat, cls: CharClass): (r: nat)
    requires k <= |s|
    ensures k <= r <= |s|
    decreases |s| - k
  {
    if k == |s| || !InClass(s[k], cls) then k else RunEnd(s, k + 1, cls)
  }

  /** The run is maximal: all of its characters are in the class, the next one is not. */
  lemma {:induction false} RunEndMaximal(s: string, k: nat, cls: CharClass)
    requires k <= |s|
    ensures forall x :: k <= x < RunEnd(s, k, cls) ==> InClass(s[x], cls)
    ensures RunEnd(s, k, cls) == |s| || !InClass(s[RunEnd(s, k, cls)], cls)
    decreases |s| - k
  {
    if k < |s| && InClass(s[k], cls) {
      RunEndMaximal(s, k + 1, cls);
    }
  }

  /** A `.` at `q` that can end the first part of the token in the run `s[p..e]`. */
  predicate UsableDot(s: string, p: nat, e: nat, q: int)
  {
    p < q && q + 1 < e <= |s| && s[q] == '.' && IsAsciiAlnum(s[q + 1])
  }

  /** The largest usable dot below `hi`: where backtracking of the greedy `[...]+` stops first. */
  function LastDotBelow(s: string, p: nat, e: nat, hi: nat): (r: Option<nat>)
    ensures r.Some? ==> r.value < hi && UsableDot(s, p, e, r.value)
    decreases hi
  {
    if hi == 0 then None
    else if UsableDot(s, p, e, hi - 1) then Some(hi - 1)
    else LastDotBelow(s, p, e, hi - 1)
  }

  /** The dot found is the last usable one below `hi`, and none is found only when there is none. */
  lemma {:induction false} LastDotBelowLast(s: string, p: nat, e: nat, hi: nat)
    ensures var r := LastDotBelow(s, p, e, hi);
            && (r.Some? ==> forall q :: r.value < q < hi ==> !UsableDot(s, p, e, q))
            && (r.None? ==> forall q :: q < hi ==> !UsableDot(s, p, e, q))
    decreases hi
  {
    if hi > 0 && !UsableDot(s, p, e, hi - 1) {
      LastDotBelowLast(s, p, e, hi - 1);
    }
  }

  /** One match of a mention pattern: the group `token == s[start..end]`. */
  datatype Mention = Mention(start: nat, end: nat, token: string)

  /**
   * Where the regex engine ends the token `[a-zA-Z0-9_./]+\.[a-zA-Z0-9]+` it
   * tries at `p`: the greedy first part backtracks to the last usable dot,
   * then the extension takes every alphanumeric character after it.
   */
  function TokenEnd(s: string, p: nat): (r: Option<nat>)
    requires p <= |s|
    ensures r.Some? ==> p < r.value <= |s|
  {
    var e := RunEnd(s, p, Path);
    match LastDotBelow(s, p, e, e)
    case None => None
    case Some(q) => Some(RunEnd(s, q + 1, Alnum))
  }

  /** A token end found is the end of a mention token. */
  lemma TokenEndSound(s: string, p: nat)
    requires p <= |s| && TokenEnd(s, p).Some?
    ensures IsMentionToken(s[p..TokenEnd(s, p).value])
  {
    var e := RunEnd(s, p, Path);
    var q := LastDotBelow(s, p, e, e).value;
    var end := RunEnd(s, q + 1, Alnum);
    RunEndMaximal(s, p, Path);
    RunEndMaximal(s, q + 1, Alnum);
    assert end <= e;
    var t := s[p..end];
    assert t[q - p + 1..] == s[q + 1..end];
    assert 0 < q - p < |t| - 1 && t[q - p] == '.' && AllIn(t[q - p + 1..], Alnum);
    assert AllIn(t, Path);
  }

  /** A run of class characters from `k` to `e` ends no later than the maximal run from `k`. */
  lemma {:induction false} RunEndReaches(s: string, k: nat, e: nat, cls: CharClass)
    requires k <= e <= |s|
    requires forall x :: k <= x < e ==> InClass(s[x], cls)
    ensures e <= RunEnd(s, k, cls)
    decreases |s| - k
  {
    if k < e {
      RunEndReaches(s, k + 1, e, cls);
    }
  }

  /**
   * When the characters after a usable dot are alphanumeric up to `e`, the
   * last usable dot of the run is that dot or lies at or beyond `e`.
   */
  lemma LastDotFromToken(s: string, p: nat, pe: nat, e: nat, dot: nat)
    requires p < dot && dot + 1 < e <= pe <= |s| && s[dot] == '.' && IsAsciiAlnum(s[dot + 1])
    requires forall x :: dot + 1 <= x < e ==> InClass(s[x], Alnum)
    ensures LastDotBelow(s, p, pe, pe).Some?
    ensures var qs := LastDotBelow(s, p, pe, pe).value;
            dot <= qs && (qs < e ==> qs == dot)
  {
    LastDotBelowLast(s, p, pe, pe);
    assert UsableDot(s, p, pe, dot);
  }

  /** Every character of a slice in a class is a character of the string in that class. */
  lemma SliceAllIn(s: string, k: nat, e: nat, cls: CharClass)
    requires k <= e <= |s| && AllIn(s[k..e], cls)
    ensures forall x :: k <= x < e ==> InClass(s[x], cls)
  {
    forall x | k <= x < e ensures InClass(s[x], cls) {
      assert s[k..e][x - k] == s[x];
    }
  }

  /**
   * A path run from `p` to `e` with a dot whose tail up to `e` is alphanumeric
   * ends no later than the token end found.
   */
  lemma TokenEndCovers(s: string, p: nat, e: nat, dot: nat)
    requires p < dot && dot + 1 < e <= |s| && s[dot] == '.'
    requires forall x :: p <= x < e ==> InClass(s[x], Path)
    requires forall x :: dot + 1 <= x < e ==> InClass(s[x], Alnum)
    ensures TokenEnd(s, p).Some? && e <= TokenEnd(s, p).value
  {
    var pe := RunEnd(s, p, Path);
    RunEndReaches(s, p, e, Path);
    assert InClass(s[dot + 1], Alnum);
    LastDotFromToken(s, p, pe, e, dot);
    var qs := LastDotBelow(s, p, pe, pe).value;
    if qs < e {
      RunEndReaches(s, qs + 1, e, Alnum);
    }
  }

  /** Every mention token starting at `p` ends at or before the token end found, so the match is the longest. */
  lemma TokenEndLongest(s: string, p: nat, e: nat)
    requires p <= e <= |s| && IsMentionToken(s[p..e])
    ensures TokenEnd(s, p).Some? && e <= TokenEnd(s, p).value
  {
    var q :| 0 < q < |s[p..e]| - 1 && s[p..e][q] == '.' && AllIn(s[p..e][q + 1..], Alnum);
    assert s[p..e][q + 1..] == s[p + q + 1..e];
    SliceAllIn(s, p, e, Path);
    SliceAllIn(s, p + q + 1, e, Alnum);
    TokenEndCovers(s, p, e, p + q);
  }

  /** What the regex engine finds when it tries the pattern for `verb` at index `i`. */
  function MatchAt(s: string, i: nat, verb: string): (r: Option<Mention>)
    requires i <= |s|
    ensures r.Some? ==> i + |verb| < r.value.start < r.value.end <= |s|
    ensures r.Some? ==> r.value.token == s[r.value.start..r.value.end]
  {
    if !VerbAt(s, i, verb) then None
    else
      var p := RunEnd(s, i + |verb|, Space);
      if p == i + |verb| then None
      else
        match TokenEnd(s, p)
        case None => None
        case Some(end) => Some(Mention(p, end, s[p..end]))
  }

  /** A reported match is a match of the pattern: verb, whitespace, then a mention token. */
  lemma MatchAtSound(s: string, i: nat, verb: string)
    requires i <= |s| && MatchAt(s, i, verb).Some?
    ensures MentionMatch(s, i, verb, MatchAt(s, i, verb).value.start, MatchAt(s, i, verb).value.end)
  {
    var p := RunEnd(s, i + |verb|, Space);
    RunEndMaximal(s, i + |verb|, Space);
    TokenEndSound(s, p);
  }

  /** Any match of the pattern at `i` starts where the whitespace after the verb ends. */
  lemma MatchStart(s: string, i: nat, verb: string, p: nat, e: nat)
    requires MentionMatch(s, i, verb, p, e)
    ensures p == RunEnd(s, i + |verb|, Space)
  {
    RunEndMaximal(s, i + |verb|, Space);
    var t := s[p..e];
    assert IsPathChar(t[0]) && t[0] == s[p];
  }

  /** No match at `i` is reported only when the pattern cannot match there at all. */
  lemma MatchAtComplete(s: string, i: nat, verb: string, p: nat, e: nat)
    requires i <= |s| && MentionMatch(s, i, verb, p, e)
    ensures MatchAt(s, i, verb).Some?
  {
    MatchAtLongest(s, i, verb, p, e);
  }

  /** The reported match is the longest one at `i`, as the greedy pattern makes it. */
  lemma MatchAtLongest(s: string, i: nat, verb: string, p: nat, e: nat)
    requires i <= |s| && MentionMatch(s, i, verb, p, e)
    ensures MatchAt(s, i, verb).Some?
    ensures MatchAt(s, i, verb).value.start == p
    ensures e <= MatchAt(s, i, verb).value.end
  {
    MatchStart(s, i, verb, p, e);
    TokenEndLongest(s, p, e);
  }

  /** `re.findall` of the pattern for `verb`, scanning from index `i`. */
  function FindAll(s: string, verb: string, i: nat): seq<string>
    requires i <= |s|
    decreases |s| - i
  {
    if i == |s| then []
    else
      match MatchAt(s, i, verb)
      case Some(m) => [m.token] + FindAll(s, verb, m.end)
      case None => FindAll(s, verb, i + 1)
  }

  /**
   * Every reported token is the group of a match of the pattern at or after
   * `i`; in particular it is a mention token taken from the request unchanged.
   */
  lemma {:induction false} FindAllSound(s: string, verb: string, i: nat, t: string)
    requires i <= |s| && t in FindAll(s, verb, i)
    ensures exists j: nat, p: nat, e: nat :: i <= j < |s| && MentionMatch(s, j, verb, p, e) && t == s[p..e]
    decreases |s| - i
  {
    match MatchAt(s, i, verb)
    case Some(m) =>
      if t != m.token {
        FindAllSound(s, verb, m.end, t);
      } else {
        MatchAtSound(s, i, verb);
      }
    case None =>
      FindAllSound(s, verb, i + 1, t);
  }

  /** `ys` is a suffix of `xs`. */
  predicate EndsWith(xs: seq<string>, ys: seq<string>)
  {
    |ys| <= |xs| && xs[|xs| - |ys|..] == ys
  }

  /**
   * A match at `j` is reported, followed by everything after it, unless an
   * earlier match overlaps it: all mentions are returned, not only the first.
   */
  lemma {:induction false} MatchReturned(s: string, verb: string, i: nat, j: nat)
    requires i <= j < |s| && MatchAt(s, j, verb).Some?
    requires forall k :: i <= k < j && MatchAt(s, k, verb).Some? ==> MatchAt(s, k, verb).value.end <= j
    ensures EndsWith(FindAll(s, verb, i), [MatchAt(s, j, verb).value.token] + FindAll(s, verb, MatchAt(s, j, verb).value.end))
    decreases j - i
  {
    if i < j {
      match MatchAt(s, i, verb)
      case Some(mi) =>
        MatchReturned(s, verb, mi.end, j);
        var rest := FindAll(s, verb, mi.end);
        assert FindAll(s, verb, i) == [mi.token] + rest;
        assert ([mi.token] + rest)[|[mi.token] + rest| - |rest|..] == rest;
      case None =>
        MatchReturned(s, verb, i + 1, j);
    }
  }

  /** Nothing is reported exactly when the pattern matches nowhere from `i` on. */
  lemma {:induction false} FindAllEmptyIff(s: string, verb: string, i: nat)
    requires i <= |s|
    ensures FindAll(s, verb, i) == [] <==> forall j :: i <= j < |s| ==> MatchAt(s, j, verb).None?
    decreases |s| - i
  {
    if i < |s| {
      FindAllEmptyIff(s, verb, i + 1);
    }
  }

  /** The explicit mentions for a list of verbs, in verb order then position order. */
  function Mentions(query: string, verbs: seq<string>): seq<string>
  {
    FlatMap(verbs, verb => FindAll(query, verb, 0))
  }

  /** A token is an explicit mention exactly when some verb's scan reports it. */
  lemma MentionsMember(query: string, verbs: seq<string>, t: string)
    ensures t in Mentions(query, verbs) <==> exists k :: 0 <= k < |verbs| && t in FindAll(query, verbs[k], 0)
  {
    FlatMapMember(verbs, verb => FindAll(query, verb, 0), t);
  }

  /** No explicit mention is found exactly when no verb's scan reports anything. */
  lemma MentionsEmptyIff(query: string, verbs: seq<string>)
    ensures Mentions(query, verbs) == [] <==> forall k :: 0 <= k < |verbs| ==> FindAll(query, verbs[k], 0) == []
  {
    FlatMapEmptyIff(verbs, verb => FindAll(query, verb, 0));
  }

  /** The keyword table adds nothing exactly when no rule contributes a file. */
  lemma KeywordFilesEmptyIff(s: string, existing: set<string>, rules: seq<KeywordRule>)
    ensures KeywordFiles(s, existing, rules) == [] <==> forall k :: 0 <= k < |rules| ==> RuleFile(s, existing, rules[k]) == []
  {
    FlatMapEmptyIff(rules, rule => RuleFile(s, existing, rule));
  }

  /**
   * Every inferred file is either the token of a match of a mention pattern,
   * copied from the request with its case and directories, or an existing
   * candidate of a keyword rule that fires on the lower-cased request.
   */
  lemma InferredFileOrigin(query: string, existing: set<string>, x: string)
    requires x in Candidates(query, existing)
    ensures || (exists k, j: nat, p: nat, e: nat :: 0 <= k < |MentionVerbs| && j < |query|
                  && MentionMatch(query, j, MentionVerbs[k], p, e) && x == query[p..e])
            || (exists k :: 0 <= k < |KeywordRules| && RuleFires(Lower(query), KeywordRules[k])
                  && x in KeywordRules[k].candidates && x in existing)
  {
    if x in Mentions(query, MentionVerbs) {
      MentionsMember(query, MentionVerbs, x);
      var k :| 0 <= k < |MentionVerbs| && x in FindAll(query, MentionVerbs[k], 0);
      FindAllSound(query, MentionVerbs[k], 0, x);
    } else {
      KeywordFilesMember(Lower(query), existing, KeywordRules, x);
      var k :| 0 <= k < |KeywordRules| && RuleFile(Lower(query), existing, KeywordRules[k]) == [x];
      assert x in RuleFile(Lower(query), existing, KeywordRules[k]);
    }
  }

  /**
   * Nothing is inferred exactly when no mention pattern matches anywhere in the
   * request and no keyword rule contributes an existing file.
   */
  lemma InferEmptyIff(query: string, existing: set<string>)
    ensures Candidates(query, existing) == [] <==>
      && (forall k, j: nat, p: nat, e: nat :: 0 <= k < |MentionVerbs| && j < |query| ==> !MentionMatch(query, j, MentionVerbs[k], p, e))
      && (forall k :: 0 <= k < |KeywordRules| ==> RuleFile(Lower(query), existing, KeywordRules[k]) == [])
  {
    MentionsEmptyIff(query, MentionVerbs);
    KeywordFilesEmptyIff(Lower(query), existing, KeywordRules);
    forall k | 0 <= k < |MentionVerbs| {
      FindAllEmptyIff(query, MentionVerbs[k], 0);
    }
    if Mentions(query, MentionVerbs) == [] {
      forall k, j: nat, p: nat, e: nat | 0 <= k < |MentionVerbs| && j < |query|
        ensures !MentionMatch(query, j, MentionVerbs[k], p, e)
      {
        if MentionMatch(query, j, MentionVerbs[k], p, e) {
          MatchAtComplete(query, j, MentionVerbs[k], p, e);
        }
      }
    } else {
      var k :| 0 <= k < |MentionVerbs| && FindAll(query, MentionVerbs[k], 0) != [];
      var j :| 0 <= j < |query| && MatchAt(query, j, MentionVerbs[k]).Some?;
      MatchAtSound(query, j, MentionVerbs[k]);
    }
  }

  /** Whole word `w` at `i`: `\b` on both sides of the occurrence. */
  predicate WholeWordAt(s: string, i: nat, w: string)
  {
    i + |w| <= |s| && s[i..i + |w|] == w
    && (i == 0 || !IsWordChar(s[i - 1]))
    && (i + |w| == |s| || !IsWordChar(s[i + |w|]))
  }

  /**
   * One row of the keyword table. `words` are the whole words the row's regex
   * accepts (`\bauth(?:entication)?\b` accepts "auth" and "authentication").
   */
  datatype KeywordRule = KeywordRule(words: seq<string>, candidates: seq<string>)

  /** The keyword table, in the dictionary's insertion order. */
  const KeywordRules: seq<KeywordRule> := [
    KeywordRule(["calculator"], ["calc.py", "calculator.py"]),
    KeywordRule(["auth", "authentication"], ["auth.py", "authentication.py"]),
    KeywordRule(["config", "configuration"], ["config.py", "settings.py"]),
    KeywordRule(["util", "utils"], ["utils.py", "helpers.py"]),
    KeywordRule(["test", "tests"], ["test.py", "tests.py"]),
    KeywordRule(["model", "models"], ["model.py", "models.py"]),
    KeywordRule(["view", "views"], ["view.py", "views.py"]),
    KeywordRule(["api"], ["api.py", "routes.py"]),
    KeywordRule(["database"], ["database.py", "db.py"])
  ]

  /** `re.search` of the rule's pattern succeeds on `s`. */
  predicate RuleFires(s: string, rule: KeywordRule)
  {
    exists w, i :: w in rule.words && 0 <= i <= |s| && WholeWordAt(s, i, w)
  }

  /** Index of the first candidate that exists, if any. */
  function FirstExisting(candidates: seq<string>, existing: set<string>): (r: Option<nat>)
    ensures r.Some? ==> r.value < |candidates| && candidates[r.value] in existing
    ensures r.Some? ==> forall j :: 0 <= j < r.value ==> candidates[j] !in existing
    ensures r.None? <==> forall j :: 0 <= j < |candidates| ==> candidates[j] !in existing
  {
    if candidates == [] then None
    else if candidates[0] in existing then Some(0)
    else
      match FirstExisting(candidates[1..], existing)
      case None => None
      case Some(j) => Some(j + 1)
  }

  /** What one rule adds: at most one file, the first of its candidates that exists. */
  function RuleFile(s: string, existing: set<string>, rule: KeywordRule): (r: seq<string>)
    ensures |r| <= 1
    ensures r != [] ==> RuleFires(s, rule) && r[0] in rule.candidates && r[0] in existing
    ensures r == [] <==> !RuleFires(s, rule) || forall c :: c in rule.candidates ==> c !in existing
  {
    if !RuleFires(s, rule) then []
    else
      match FirstExisting(rule.candidates, existing)
      case None => []
      case Some(j) => [rule.candidates[j]]
  }

  /** The files the keyword table adds for the lower-cased request `s`. */
  function KeywordFiles(s: string, existing: set<string>, rules: seq<KeywordRule>): seq<string>
  {
    FlatMap(rules, rule => RuleFile(s, existing, rule))
  }

  /** A file comes from the keyword table exactly when some rule contributes it, and it exists. */
  lemma KeywordFilesMember(s: string, existing: set<string>, rules: seq<KeywordRule>, x: string)
    ensures x in KeywordFiles(s, existing, rules) <==> exists k :: 0 <= k < |rules| && RuleFile(s, existing, rules[k]) == [x]
    ensures x in KeywordFiles(s, existing, rules) ==> x in existing
  {
    FlatMapMember(rules, rule => RuleFile(s, existing, rule), x);
  }

  /** Every candidate before de-duplication: explicit mentions, then keyword files. */
  function Candidates(query: string, existing: set<string>): seq<string>
  {
    Mentions(query, MentionVerbs) + KeywordFiles(Lower(query), existing, KeywordRules)
  }

  predicate NoDuplicates<T(==)>(xs: seq<T>)
  {
    forall i, j :: 0 <= i < j < |xs| ==> xs[i] != xs[j]
  }

  /** `list(set(xs))`, keeping first occurrences (the source leaves the order to the set). */
  function Dedup(xs: seq<string>): (r: seq<string>)
    ensures NoDuplicates(r)
    ensures forall x :: x in r <==> x in xs
    ensures |r| <= |xs|
  {
    if xs == [] then []
    else
      var rest := Dedup(xs[..|xs| - 1]);
      assert forall x :: x in xs <==> x in xs[..|xs| - 1] || x == xs[|xs| - 1] by {
        assert xs == xs[..|xs| - 1] + [xs[|xs| - 1]];
      }
      if xs[|xs| - 1] in rest then rest else rest + [xs[|xs| - 1]]
  }

  /** The inner loop of the keyword phase: append the first candidate that exists, then stop. */
  method AppendFirstExisting(targets: seq<string>, candidates: seq<string>, existing: set<string>)
    returns (result: seq<string>)
    ensures result == match FirstExisting(candidates, existing)
                      case None => targets
                      case Some(j) => targets + [candidates[j]]
  {
    result := targets;
    var c := 0;
    while c < |candidates|
      invariant 0 <= c <= |candidates|
      invariant result == targets
      invariant forall j :: 0 <= j < c ==> candidates[j] !in existing
    {
      if candidates[c] in existing {
        result := result + [candidates[c]];
        assert FirstExisting(candidates, existing) == Some(c);
        break;
      }
      c := c + 1;
    }
  }

  /**
   * The two scanning phases of `infer_target_files`, for any verb list and rule
   * table: every verb's mentions in verb order, then one file per firing rule.
   */
  method CollectCandidates(query: string, verbs: seq<string>, rules: seq<KeywordRule>, existing: set<string>)
    returns (targets: seq<string>)
    ensures targets == Mentions(query, verbs) + KeywordFiles(Lower(query), existing, rules)
  {
    targets := [];
    var v := 0;
    while v < |verbs|
      invariant 0 <= v <= |verbs|
      invariant targets == Mentions(query, verbs[..v])
    {
      var matches := FindAll(query, verbs[v], 0);
      targets := targets + matches;
      v := v + 1;
      assert verbs[..v][..v - 1] == verbs[..v - 1];
    }
    assert verbs[..|verbs|] == verbs;
    var lowered := Lower(query);
    var k := 0;
    while k < |rules|
      invariant 0 <= k <= |rules|
      invariant targets == Mentions(query, verbs) + KeywordFiles(lowered, existing, rules[..k])
    {
      var rule := rules[k];
      ghost var before := targets;
      if RuleFires(lowered, rule) {
        targets := AppendFirstExisting(targets, rule.candidates, existing);
      }
      assert targets == before + RuleFile(lowered, existing, rule);
      k := k + 1;
      assert rules[..k][..k - 1] == rules[..k - 1];
    }
    assert rules[..|rules|] == rules;
  }

  /**
   * `infer_target_files`. `existing` holds the candidate names that exist under
   * the context directory.
   */
  method InferTargetFiles(query: string, existing: set<string>) returns (files: seq<string>)
    ensures NoDuplicates(files)
    ensures forall x :: x in files <==> x in Candidates(query, existing)
  {
    var targets := CollectCandidates(query, MentionVerbs, KeywordRules, existing);
    files := Dedup(targets);
  }

  /** In "edit a/b.py" the pattern for "edit" matches at 0 with the group "a/b.py". */
  lemma EditMentionMatch()
    ensures MentionMatch("edit a/b.py", 0, EditVerb, 5, 11)
    ensures "edit a/b.py"[5..11] == "a/b.py"
  {
    var s := "edit a/b.py";
    assert VerbAt(s, 0, EditVerb) by {
      assert s[0..4] == EditVerb;
    }
    assert AllIn(s[4..5], Space);
    var t := s[5..11];
    assert t == "a/b.py";
    assert t[3] == '.' && t[4..] == "py";
    assert AllIn(t, Path);
  }

  /** The explicit-mention group of a request naming a file in a sub-directory keeps the directory. */
  lemma EditKeepsDirectory()
    ensures "a/b.py" in Candidates("edit a/b.py", {})
  {
    var s := "edit a/b.py";
    assert MentionVerbs[1] == EditVerb;
    assert "a/b.py" in Mentions(s, MentionVerbs) by {
      EditMentionMatch();
      MatchAtLongest(s, 0, EditVerb, 5, 11);
      var m := MatchAt(s, 0, EditVerb).value;
      assert m.start == 5 && m.end == 11 && m.token == "a/b.py";
      assert FindAll(s, EditVerb, 0) == [m.token] + FindAll(s, EditVerb, 11);
      MentionsMember(s, MentionVerbs, "a/b.py");
    }
  }
}
