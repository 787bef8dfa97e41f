/**
 * The keyword scan `search_codebase` (cli/context.py) falls back to when the
 * vector search raises.
 */
module KeywordSearch {
  import opened Wrappers
  import opened Text
  import SourceFiles

  /** One fallback result: the file and its match count. */
  datatype KeywordHit = KeywordHit(file: string, matches: nat)

  /** `query.lower() in content.lower()`. */
  predicate MentionsQuery(content: string, query: string)
  {
    IsSubstring(Lower(query), Lower(content))
  }

  /** `content.count(query.lower())` as written: the lowered query counted in the unlowered content. */
  function MatchesAsWritten(content: string, query: string): nat
  {
    Count(content, Lower(query))
  }

  /** The count the test above evidently means: occurrences of the query ignoring case. */
  function Matches(content: string, query: string): nat
  {
    Count(Lower(content), Lower(query))
  }

  /** A reported file always has at least one case-insensitive match. */
  lemma MatchesPositive(content: string, query: string)
    requires MentionsQuery(content, query)
    ensures Matches(content, query) >= 1
  {
    if Lower(query) != "" {
      CountPositiveIff(Lower(content), Lower(query));
    }
  }

  /**
   * As written, a file with no lower-case letter that mentions a query with a
   * letter in it (a file reading `FOO = 1` and the query "FOO") is reported
   * with zero matches, although it has at least one ignoring case.
   */
  lemma MatchesAsWrittenMissesCapitals(content: string, query: string)
    requires forall i :: 0 <= i < |content| ==> !('a' <= content[i] <= 'z')
    requires exists k :: 0 <= k < |query| && IsAsciiLetter(query[k])
    requires MentionsQuery(content, query)
    ensures MatchesAsWritten(content, query) == 0
    ensures Matches(content, query) >= 1
  {
    var q := Lower(query);
    var k :| 0 <= k < |query| && IsAsciiLetter(query[k]);
    assert 'a' <= q[k] <= 'z';
    assert forall i :: 0 <= i <= |content| ==> !OccursAt(q, content, i);
    CountFromZero(content, q, 0);
    MatchesPositive(content, query);
  }

  /**
   * How a reported file's matches are counted: `CountInContent` is the
   * program as written, `CountIgnoringCase` the count the test evidently means.
   */
  datatype Counting = CountInContent | CountIgnoringCase

  function MatchCount(how: Counting, content: string, query: string): nat
  {
    match how
    case CountInContent => MatchesAsWritten(content, query)
    case CountIgnoringCase => Matches(content, query)
  }

  /** The fallback's results over the scanned files; only the corrected count is always positive. */
  function KeywordResults(how: Counting, files: seq<SourceFiles.PyFile>, query: string): (r: seq<KeywordHit>)
    ensures |r| <= |files|
    ensures how == CountIgnoringCase ==> forall k :: 0 <= k < |r| ==> r[k].matches >= 1
  {
    if files == [] then []
    else
      var rest := KeywordResults(how, files[..|files| - 1], query);
      var f := files[|files| - 1];
      if f.read.Some? && MentionsQuery(f.read.value, query) then
        MatchesPositive(f.read.value, query);
        rest + [KeywordHit(f.path, MatchCount(how, f.read.value, query))]
      else rest
  }

  /**
   * The keyword fallback of `search_codebase`, as written: the first
   * `maxResults` files `rglob` yields (the ignore filter is not applied here),
   * each readable file mentioning the query ignoring case reported with the
   * count of the lowered query in its unlowered content.
   */
  method KeywordSearchFallback(query: string, files: seq<SourceFiles.PyFile>, maxResults: int) returns (results: seq<KeywordHit>)
    ensures results == KeywordResults(CountInContent, Head(files, maxResults), query)
  {
    var scanned := Head(files, maxResults);
    results := [];
    var lowered := Lower(query);
    var i := 0;
    while i < |scanned|
      invariant 0 <= i <= |scanned|
      invariant results == KeywordResults(CountInContent, scanned[..i], query)
    {
      var f := scanned[i];
      if f.read.Some? {
        var content := f.read.value;
        if IsSubstring(lowered, Lower(content)) {
          results := results + [KeywordHit(f.path, Count(content, lowered))];
        }
      }
      assert scanned[..i + 1][..i] == scanned[..i];
      i := i + 1;
    }
    assert scanned[..|scanned|] == scanned;
  }

  /**
   * A file is reported exactly when it is among the files scanned, can be
   * read and mentions the query ignoring case, and it carries its count.
   */
  lemma {:induction false} KeywordResultsMember(how: Counting, files: seq<SourceFiles.PyFile>, query: string, h: KeywordHit)
    ensures h in KeywordResults(how, files, query)
            <==> exists i :: 0 <= i < |files| && files[i].read.Some? && MentionsQuery(files[i].read.value, query)
                             && h == KeywordHit(files[i].path, MatchCount(how, files[i].read.value, query))
  {
    if files != [] {
      var init := files[..|files| - 1];
      KeywordResultsMember(how, init, query, h);
      assert forall i :: 0 <= i < |init| ==> files[i] == init[i];
    }
  }

  /** Lower-casing leaves text without upper-case ASCII letters unchanged. */
  lemma LowerOfLowerCase(s: string)
    requires forall i :: 0 <= i < |s| ==> !('A' <= s[i] <= 'Z')
    ensures Lower(s) == s
  {
  }

  /**
   * Both counts report the same files in the same order, and the same counts
   * when no readable file holds an upper-case ASCII letter.
   */
  lemma {:induction false} KeywordCountsAgree(files: seq<SourceFiles.PyFile>, query: string)
    ensures var written := KeywordResults(CountInContent, files, query);
            var intended := KeywordResults(CountIgnoringCase, files, query);
            && |written| == |intended|
            && (forall k :: 0 <= k < |written| ==> written[k].file == intended[k].file)
            && ((forall i, j :: 0 <= i < |files| && files[i].read.Some? && 0 <= j < |files[i].read.value| ==> !('A' <= files[i].read.value[j] <= 'Z'))
                ==> written == intended)
  {
    if files != [] {
      var init := files[..|files| - 1];
      var f := files[|files| - 1];
      KeywordCountsAgree(init, query);
      if (forall i, j :: 0 <= i < |files| && files[i].read.Some? && 0 <= j < |files[i].read.value| ==> !('A' <= files[i].read.value[j] <= 'Z')) {
        assert forall i :: 0 <= i < |init| ==> init[i] == files[i];
        if f.read.Some? {
          LowerOfLowerCase(f.read.value);
        }
      }
    }
  }
}
