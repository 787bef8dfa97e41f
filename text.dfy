/**
 * The pieces of Python's `str` semantics the context engine relies on:
 * whitespace as `str.isspace()` and the regex class `\s` define it, ASCII case
 * mapping, `sep.join`, `str.split`, `str.strip`, `in`, `str.count`,
 * `str.replace`, slicing, left-justified formatting and decimal rendering.
 */
module Text {

  /** `str.isspace()` for one character; also what `\s`, `strip()` and `split()` use. */
  predicate IsSpace(c: char)
  {
    c == ' ' || ('\t' <= c <= '\r') || ('\U{1c}' <= c <= '\U{1f}')
    || c == '\U{85}' || c == '\U{a0}' || c == '\U{1680}'
    || ('\U{2000}' <= c <= '\U{200a}') || c == '\U{2028}' || c == '\U{2029}'
    || c == '\U{202f}' || c == '\U{205f}' || c == '\U{3000}'
  }

  predicate IsAsciiLetter(c: char) { ('a' <= c <= 'z') || ('A' <= c <= 'Z') }

  predicate IsDigit(c: char) { '0' <= c <= '9' }

  predicate IsAsciiAlnum(c: char) { IsAsciiLetter(c) || IsDigit(c) }

  /** The regex class `\w`, restricted to ASCII. */
  predicate IsWordChar(c: char) { IsAsciiAlnum(c) || c == '_' }

  predicate AllSpace(s: string)
  {
    forall i :: 0 <= i < |s| ==> IsSpace(s[i])
  }

  predicate AllDigits(s: string)
  {
    forall i :: 0 <= i < |s| ==> IsDigit(s[i])
  }

  predicate AllBlank(s: string)
  {
    forall i :: 0 <= i < |s| ==> s[i] == ' '
  }

  function LowerChar(c: char): (r: char)
    ensures !('A' <= r <= 'Z')
    ensures ('A' <= c <= 'Z') || r == c
  {
    if 'A' <= c <= 'Z' then (c as int + 32) as char else c
  }

  function UpperChar(c: char): (r: char)
    ensures !('a' <= r <= 'z')
    ensures ('a' <= c <= 'z') || r == c
  {
    if 'a' <= c <= 'z' then (c as int - 32) as char else c
  }

  /** `s.lower()` on the ASCII letters. */
  function Lower(s: string): (r: string)
    ensures |r| == |s|
    ensures forall i :: 0 <= i < |s| ==> r[i] == LowerChar(s[i])
  {
    seq(|s|, i requires 0 <= i < |s| => LowerChar(s[i]))
  }

  /** `s.capitalize()` on the ASCII letters: first character upper, the rest lower. */
  function Capitalize(s: string): (r: string)
    ensures |r| == |s|
    ensures |s| > 0 ==> r[0] == UpperChar(s[0]) && r[1..] == Lower(s[1..])
  {
    if s == "" then "" else [UpperChar(s[0])] + Lower(s[1..])
  }

  /** `sep.join(parts)`. */
  function Join(parts: seq<string>, sep: string): string
  {
    if |parts| == 0 then ""
    else if |parts| == 1 then parts[0]
    else parts[0] + sep + Join(parts[1..], sep)
  }

  /** Appending a part to a non-empty list adds one separator and the part. */
  lemma {:induction false} JoinSnoc(parts: seq<string>, x: string, sep: string)
    ensures Join(parts + [x], sep) == if parts == [] then x else Join(parts, sep) + sep + x
  {
    if |parts| > 1 {
      assert (parts + [x])[1..] == parts[1..] + [x];
      JoinSnoc(parts[1..], x, sep);
    } else if |parts| == 1 {
      assert (parts + [x])[1..] == [x];
    }
  }

  /** A joined list starts with its first part. */
  lemma JoinHead(parts: seq<string>, sep: string)
    requires parts != []
    ensures parts[0] <= Join(parts, sep)
  {
  }

  /** Joining gives "" exactly for no parts or one empty part. */
  lemma JoinEmpty(parts: seq<string>, sep: string)
    requires sep != ""
    ensures Join(parts, sep) == "" <==> parts == [] || parts == [""]
  {
    if |parts| > 1 {
      assert |Join(parts, sep)| >= |sep|;
    }
  }

  /** Index of the first `c` in `s`, or `|s|` when there is none. */
  function IndexOf(s: string, c: char): (r: nat)
    ensures r <= |s|
    ensures r < |s| ==> s[r] == c
    ensures forall i :: 0 <= i < r ==> s[i] != c
  {
    if |s| == 0 then 0 else if s[0] == c then 0 else 1 + IndexOf(s[1..], c)
  }

  /** Number of occurrences of one character. */
  function CountChar(s: string, c: char): nat
  {
    if |s| == 0 then 0 else (if s[0] == c then 1 else 0) + CountChar(s[1..], c)
  }

  /** `s.split(c)` for a one-character separator. */
  function Split(s: string, c: char): (r: seq<string>)
    ensures |r| >= 1
    ensures forall k :: 0 <= k < |r| ==> c !in r[k]
    ensures Join(r, [c]) == s
    ensures |r| == CountChar(s, c) + 1
    decreases |s|
  {
    var k := IndexOf(s, c);
    if k == |s| then
      CountCharAbsent(s, c);
      [s]
    else
      var rest := Split(s[k + 1..], c);
      var r := [s[..k]] + rest;
      assert c !in s[..k];
      assert Join(r, [c]) == s by {
        assert r[1..] == rest;
        assert s == s[..k] + [c] + s[k + 1..];
      }
      assert |r| == CountChar(s, c) + 1 by {
        assert s == s[..k] + ([c] + s[k + 1..]);
        CountCharAppend(s[..k], [c] + s[k + 1..], c);
        CountCharAbsent(s[..k], c);
        assert ([c] + s[k + 1..])[1..] == s[k + 1..];
      }
      r
  }

  lemma {:induction false} CountCharAbsent(s: string, c: char)
    requires c !in s
    ensures CountChar(s, c) == 0
  {
    if |s| > 0 {
      assert s[1..] <= s[1..];
      assert forall x :: x in s[1..] ==> x in s;
      CountCharAbsent(s[1..], c);
    }
  }

  lemma {:induction false} CountCharAppend(a: string, b: string, c: char)
    ensures CountChar(a + b, c) == CountChar(a, c) + CountChar(b, c)
  {
    if |a| > 0 {
      assert (a + b)[1..] == a[1..] + b;
      CountCharAppend(a[1..], b, c);
    } else {
      assert a + b == b;
    }
  }

  /** The first `c` in `p + [c] + t` is the one after `p` when `p` holds none. */
  lemma {:induction false} IndexOfSeparator(p: string, t: string, c: char)
    requires c !in p
    ensures IndexOf(p + [c] + t, c) == |p|
  {
    if p != [] {
      assert (p + [c] + t)[1..] == p[1..] + [c] + t;
      IndexOfSeparator(p[1..], t, c);
    }
  }

  /** Splitting a joined list gives the list back when no part holds the separator. */
  lemma {:induction false} SplitJoin(parts: seq<string>, c: char)
    requires |parts| >= 1
    requires forall k :: 0 <= k < |parts| ==> c !in parts[k]
    ensures Split(Join(parts, [c]), c) == parts
  {
    var s := Join(parts, [c]);
    if |parts| == 1 {
      assert IndexOf(s, c) == |s|;
    } else {
      var p := parts[0];
      var tail := Join(parts[1..], [c]);
      assert s == p + [c] + tail;
      IndexOfSeparator(p, tail, c);
      assert s[..|p|] == p && s[|p| + 1..] == tail;
      SplitJoin(parts[1..], c);
      assert Split(s, c) == [p] + Split(tail, c);
      assert parts == [p] + parts[1..];
    }
  }

  /** `sub` occurs in `s` starting at index `i`. */
  predicate OccursAt(sub: string, s: string, i: nat)
  {
    i + |sub| <= |s| && s[i..i + |sub|] == sub
  }

  /** Python's `sub in s`. */
  predicate IsSubstring(sub: string, s: string)
  {
    exists i :: 0 <= i <= |s| && OccursAt(sub, s, i)
  }

  /** `s.count(sub)`: non-overlapping occurrences from the left, `len(s) + 1` for the empty string. */
  function Count(s: string, sub: string): nat
  {
    if sub == "" then |s| + 1 else CountFrom(s, sub, 0)
  }

  function CountFrom(s: string, sub: string, i: nat): nat
    requires sub != ""
    decreases |s| - i
  {
    if i + |sub| > |s| then 0
    else if OccursAt(sub, s, i) then 1 + CountFrom(s, sub, i + |sub|)
    else CountFrom(s, sub, i + 1)
  }

  /** A non-empty string is counted at least once exactly when it occurs. */
  lemma CountPositiveIff(s: string, sub: string)
    requires sub != ""
    ensures Count(s, sub) > 0 <==> IsSubstring(sub, s)
  {
    if IsSubstring(sub, s) {
      var j :| 0 <= j <= |s| && OccursAt(sub, s, j);
      CountFromReaches(s, sub, 0, j);
    } else {
      CountFromZero(s, sub, 0);
    }
  }

  lemma {:induction false} CountFromReaches(s: string, sub: string, i: nat, j: nat)
    requires sub != "" && i <= j && OccursAt(sub, s, j)
    ensures CountFrom(s, sub, i) > 0
    decreases |s| - i
  {
    if i + |sub| <= |s| && !OccursAt(sub, s, i) {
      CountFromReaches(s, sub, i + 1, j);
    }
  }

  lemma {:induction false} CountFromZero(s: string, sub: string, i: nat)
    requires sub != "" && !IsSubstring(sub, s)
    ensures CountFrom(s, sub, i) == 0
    decreases |s| - i
  {
    if i + |sub| <= |s| {
      assert !OccursAt(sub, s, i);
      CountFromZero(s, sub, i + 1);
    }
  }

  /** `s.replace(pat, rep)`: every non-overlapping occurrence, scanning from the left. */
  function ReplaceAll(s: string, pat: string, rep: string): string
    requires pat != ""
    decreases |s|
  {
    if |s| < |pat| then s
    else if s[..|pat|] == pat then rep + ReplaceAll(s[|pat|..], pat, rep)
    else [s[0]] + ReplaceAll(s[1..], pat, rep)
  }

  /** `s.replace(a, b)` for one character. */
  function ReplaceChar(s: string, a: char, b: char): (r: string)
    ensures |r| == |s|
    ensures forall i :: 0 <= i < |s| ==> r[i] == (if s[i] == a then b else s[i])
  {
    seq(|s|, i requires 0 <= i < |s| => if s[i] == a then b else s[i])
  }

  /** Length of the leading whitespace of `s`. */
  function LeadingSpace(s: string): (n: nat)
    ensures n <= |s|
    ensures forall i :: 0 <= i < n ==> IsSpace(s[i])
    ensures n < |s| ==> !IsSpace(s[n])
  {
    if |s| == 0 || !IsSpace(s[0]) then 0 else 1 + LeadingSpace(s[1..])
  }

  /** Length of the trailing whitespace of `s`. */
  function TrailingSpace(s: string): (n: nat)
    ensures n <= |s|
    ensures forall i :: |s| - n <= i < |s| ==> IsSpace(s[i])
    ensures n < |s| ==> !IsSpace(s[|s| - n - 1])
  {
    if |s| == 0 || !IsSpace(s[|s| - 1]) then 0 else 1 + TrailingSpace(s[..|s| - 1])
  }

  /** `s.strip()`. */
  function Strip(s: string): (r: string)
    ensures r == "" <==> AllSpace(s)
    ensures r != "" ==> !IsSpace(r[0]) && !IsSpace(r[|r| - 1])
    ensures exists a, b :: 0 <= a <= b <= |s| && AllSpace(s[..a]) && AllSpace(s[b..]) && r == s[a..b]
  {
    var a := LeadingSpace(s);
    var t := s[a..];
    var b := TrailingSpace(t);
    assert a < |s| ==> t[0] == s[a];
    var e := a + |t| - b;
    assert AllSpace(s[..a]);
    assert t[..|t| - b] == s[a..e];
    assert s[e..] == t[|t| - b..];
    assert AllSpace(s[e..]);
    t[..|t| - b]
  }

  /** Length of the leading run of non-whitespace characters. */
  function LeadingWord(s: string): (n: nat)
    ensures n <= |s|
    ensures forall i :: 0 <= i < n ==> !IsSpace(s[i])
    ensures n < |s| ==> IsSpace(s[n])
  {
    if |s| == 0 || IsSpace(s[0]) then 0 else 1 + LeadingWord(s[1..])
  }

  /** A non-empty run of non-whitespace characters. */
  predicate IsWord(w: string)
  {
    w != "" && forall i :: 0 <= i < |w| ==> !IsSpace(w[i])
  }

  /**
   * `w` is the first whitespace-separated word of `s`: only whitespace comes
   * before it, and whitespace or the end of `s` after it.
   */
  predicate FirstWordAt(s: string, w: string)
  {
    exists a :: 0 <= a && a + |w| <= |s| && AllSpace(s[..a]) && w == s[a..a + |w|]
                && (a + |w| < |s| ==> IsSpace(s[a + |w|]))
  }

  /** The run of `n` characters after `a` leading spaces, followed by a space or the end, is the first word. */
  lemma FirstWordAtRun(s: string, a: nat, n: nat)
    requires a + n <= |s|
    requires forall i :: 0 <= i < a ==> IsSpace(s[i])
    requires a + n < |s| ==> IsSpace(s[a + n])
    ensures FirstWordAt(s, s[a..a + n])
  {
    assert AllSpace(s[..a]);
  }

  /** `s.split()`: the maximal runs of non-whitespace characters, in order. */
  function Words(s: string): (r: seq<string>)
    ensures r == [] <==> AllSpace(s)
    ensures forall k :: 0 <= k < |r| ==> IsWord(r[k])
    ensures r != [] ==> FirstWordAt(s, r[0])
    decreases |s|
  {
    var a := LeadingSpace(s);
    if a == |s| then []
    else
      var t := s[a..];
      var n := LeadingWord(t);
      assert t[0] == s[a] && !IsSpace(s[a]);
      var w := t[..n];
      assert IsWord(w);
      FirstWordAtRun(s, a, n);
      assert w == s[a..a + n];
      [w] + Words(t[n..])
  }

  /** `s[:n]` for a non-negative `n`. */
  function Prefix(s: string, n: nat): (r: string)
    ensures |r| <= n && r <= s
    ensures |s| <= n ==> r == s
    ensures |s| > n ==> |r| == n
  {
    if |s| <= n then s else s[..n]
  }

  /** `xs[:n]` for any integer `n`, with Python's negative-index rule. */
  function Head<T>(xs: seq<T>, n: int): (r: seq<T>)
    ensures r <= xs
    ensures 0 <= n ==> |r| == if n < |xs| then n else |xs|
    ensures n < 0 ==> |r| == if |xs| + n > 0 then |xs| + n else 0
  {
    if 0 <= n then (if n < |xs| then xs[..n] else xs)
    else if |xs| + n > 0 then xs[..|xs| + n]
    else []
  }

  /** `s[a:b]` for non-negative bounds: both are clamped to the length and an empty range gives "". */
  function Slice(s: string, a: nat, b: nat): (r: string)
    ensures a <= b <= |s| ==> r == s[a..b]
    ensures |r| <= |s|
  {
    var lo := if a < |s| then a else |s|;
    var hi := if b < |s| then b else |s|;
    if lo < hi then s[lo..hi] else ""
  }

  function Spaces(n: nat): (r: string)
    ensures |r| == n && AllBlank(r)
  {
    seq(n, _ => ' ')
  }

  /** The format spec `{x:<w}`: pad on the right with spaces to width `w`, never truncate. */
  function PadRight(s: string, w: nat): (r: string)
    ensures |r| == if |s| < w then w else |s|
    ensures r[..|s|] == s
    ensures AllBlank(r[|s|..])
  {
    if |s| < w then s + Spaces(w - |s|) else s
  }

  /** Last index of `c` in `s`, if any. */
  function LastIndexOf(s: string, c: char): (r: int)
    ensures -1 <= r < |s|
    ensures r >= 0 ==> s[r] == c
    ensures forall i :: r < i < |s| ==> s[i] != c
  {
    if |s| == 0 then -1 else if s[|s| - 1] == c then |s| - 1 else LastIndexOf(s[..|s| - 1], c)
  }

  /** `os.path.basename` on a POSIX path: the part after the last `/`. */
  function Basename(p: string): (r: string)
    ensures '/' !in r
    ensures |r| <= |p| && p[|p| - |r|..] == r
    ensures |r| < |p| ==> p[|p| - |r| - 1] == '/'
  {
    if p == [] || p[|p| - 1] == '/' then ""
    else
      var init := p[..|p| - 1];
      var b := Basename(init);
      assert p[|p| - |b| - 1..] == init[|init| - |b|..] + [p[|p| - 1]];
      b + [p[|p| - 1]]
  }

  function DigitChar(d: nat): (c: char)
    requires d < 10
    ensures IsDigit(c)
  {
    ('0' as int + d) as char
  }

  /** Decimal rendering of a natural number, as `f"{n}"` produces it. */
  function NatToString(n: nat): (r: string)
    ensures |r| >= 1 && AllDigits(r)
    decreases n
  {
    if n < 10 then [DigitChar(n)] else NatToString(n / 10) + [DigitChar(n % 10)]
  }

  /** `int(s)` for a string of decimal digits. */
  function ParseNat(s: string): nat
    requires AllDigits(s)
  {
    if s == [] then 0 else ParseNat(s[..|s| - 1]) * 10 + (s[|s| - 1] as int - '0' as int)
  }

  lemma {:induction false} ParseNatToString(n: nat)
    ensures ParseNat(NatToString(n)) == n
    decreases n
  {
    var s := NatToString(n);
    if n >= 10 {
      ParseNatToString(n / 10);
      assert s[..|s| - 1] == NatToString(n / 10);
    }
  }
}
