/**
 * String operations of the turn engine: the greedy `\{.*\}` extraction of
 * `extract_json`, and the markdown-fence cleanup (`str.replace` and
 * `str.strip`) applied to a raw model reply before it is decoded.
 */
module Text {
  import opened Wrappers

  /** `p` occurs in `s` at position `i`. */
  ghost predicate OccursAt(s: string, p: string, i: int)
  {
    0 <= i && i + |p| <= |s| && s[i..i + |p|] == p
  }

  /** `p` occurs somewhere in `s`. */
  ghost predicate Contains(s: string, p: string)
  {
    exists i :: OccursAt(s, p, i)
  }

  /** `r` is a contiguous piece of `s`. */
  ghost predicate IsSubstring(r: string, s: string)
  {
    exists i, j :: 0 <= i <= j <= |s| && r == s[i..j]
  }

  lemma SubstringAvoids(r: string, s: string, p: string)
    requires IsSubstring(r, s) && !Contains(s, p)
    ensures !Contains(r, p)
  {
    var i, j :| 0 <= i <= j <= |s| && r == s[i..j];
    forall k | OccursAt(r, p, k) ensures OccursAt(s, p, i + k) {
      forall t | 0 <= t < |p| ensures s[i + k..i + k + |p|][t] == p[t] {
        assert r[k..k + |p|][t] == r[k + t] == s[i + (k + t)];
      }
    }
  }

  /** An occurrence in `b` is an occurrence in `a + b`. */
  lemma ContainsInSuffix(a: string, b: string, p: string)
    requires Contains(b, p)
    ensures Contains(a + b, p)
  {
    var i :| OccursAt(b, p, i);
    assert (a + b)[|a| + i..|a| + i + |p|] == b[i..i + |p|];
    assert OccursAt(a + b, p, |a| + i);
  }

  // ---------------------------------------------------------------------
  // Character search
  // ---------------------------------------------------------------------

  /** Position of the first `c` in `s`, if any. */
  function FirstIndexOf(s: string, c: char): (r: Option<nat>)
    ensures r.Some? ==> r.value < |s| && s[r.value] == c
    ensures r.Some? ==> forall k :: 0 <= k < r.value ==> s[k] != c
    ensures r.None? ==> forall k :: 0 <= k < |s| ==> s[k] != c
  {
    if |s| == 0 then None
    else if s[0] == c then Some(0)
    else
      match FirstIndexOf(s[1..], c)
      case None => None
      case Some(i) => Some(i + 1)
  }

  /** Position of the last `c` in `s`, if any. */
  function LastIndexOf(s: string, c: char): (r: Option<nat>)
    ensures r.Some? ==> r.value < |s| && s[r.value] == c
    ensures r.Some? ==> forall k :: r.value < k < |s| ==> s[k] != c
    ensures r.None? ==> forall k :: 0 <= k < |s| ==> s[k] != c
  {
    if |s| == 0 then None
    else if s[|s| - 1] == c then Some(|s| - 1)
    else LastIndexOf(s[..|s| - 1], c)
  }

  // ---------------------------------------------------------------------
  // extract_json
  // ---------------------------------------------------------------------

  /**
   * `extract_json`: `re.search(r'\{.*\}', text, re.DOTALL)` and its whole
   * match, or the text itself when there is no match. The match starts at
   * the first `{` and, the star being greedy and `.` matching newlines too,
   * ends at the last `}`; there is a match exactly when that `}` lies after
   * that `{`.
   */
  function ExtractJson(s: string): string
  {
    match FirstIndexOf(s, '{')
    case None => s
    case Some(f) =>
      match LastIndexOf(s, '}')
      case None => s
      case Some(l) => if f < l then s[f..l + 1] else s
  }

  /** `s[i..j]` is a match of the pattern `\{.*\}` under DOTALL. */
  ghost predicate IsMatch(s: string, i: int, j: int)
  {
    0 <= i && i + 2 <= j <= |s| && s[i] == '{' && s[j - 1] == '}'
  }

  /**
   * `s[i..j]` is what `re.search` reports: the match with the leftmost
   * start and, for that start, the longest one (greedy backtracking tries
   * the longest span first).
   */
  ghost predicate IsSearchResult(s: string, i: int, j: int)
  {
    && IsMatch(s, i, j)
    && (forall i', j' :: IsMatch(s, i', j') ==> i <= i')
    && (forall j' :: IsMatch(s, i, j') ==> j' <= j)
  }

  /** ExtractJson agrees with the regex-search reading of game.py's `extract_json`. */
  lemma ExtractJsonIsRegexSearch(s: string)
    ensures (exists i, j :: IsMatch(s, i, j)) ==>
              exists i, j :: IsSearchResult(s, i, j) && ExtractJson(s) == s[i..j]
    ensures (forall i, j :: !IsMatch(s, i, j)) ==> ExtractJson(s) == s
  {
    var fo, lo := FirstIndexOf(s, '{'), LastIndexOf(s, '}');
    if fo.Some? && lo.Some? && fo.value < lo.value {
      assert IsSearchResult(s, fo.value, lo.value + 1);
    }
  }

  /**
   * The characterisation in positions: with the first `{` at `f` and the
   * last `}` at `l`, a `}` after that `{` gives the span from `f` to `l`.
   */
  lemma ExtractJsonSpan(s: string, f: nat, l: nat)
    requires f < l < |s| && s[f] == '{' && s[l] == '}'
    requires forall k :: 0 <= k < f ==> s[k] != '{'
    requires forall k :: l < k < |s| ==> s[k] != '}'
    ensures ExtractJson(s) == s[f..l + 1]
  {
    var fo, lo := FirstIndexOf(s, '{'), LastIndexOf(s, '}');
    assert fo == Some(f) && lo == Some(l);
  }

  /** Without any `}` after a `{` the text comes back unchanged. */
  lemma ExtractJsonNoMatch(s: string)
    requires forall i, j :: 0 <= i < j < |s| && s[i] == '{' ==> s[j] != '}'
    ensures ExtractJson(s) == s
  {
    var fo, lo := FirstIndexOf(s, '{'), LastIndexOf(s, '}');
    if fo.Some? && lo.Some? {
      assert s[fo.value] == '{' && s[lo.value] == '}';
    }
  }

  /**
   * The result is always a piece of the input, and a result that differs
   * from the input runs from a `{` to a `}`.
   */
  lemma ExtractJsonShape(s: string)
    ensures IsSubstring(ExtractJson(s), s)
    ensures var r := ExtractJson(s);
      r != s ==> |r| >= 2 && r[0] == '{' && r[|r| - 1] == '}'
  {
    match FirstIndexOf(s, '{')
    case None => assert s == s[0..|s|];
    case Some(f) =>
      match LastIndexOf(s, '}')
      case None => assert s == s[0..|s|];
      case Some(l) =>
        if f < l {
          var r := s[f..l + 1];
          assert ExtractJson(s) == r;
          assert r[0] == s[f] && r[|r| - 1] == s[l];
        } else {
          assert s == s[0..|s|];
        }
  }

  /** Extracting twice gives what extracting once gives. */
  lemma ExtractJsonIdempotent(s: string)
    ensures ExtractJson(ExtractJson(s)) == ExtractJson(s)
  {
    var r := ExtractJson(s);
    ExtractJsonShape(s);
    if r != s {
      ExtractJsonSpan(r, 0, |r| - 1);
      assert r[0..|r|] == r;
    }
  }

  // ---------------------------------------------------------------------
  // str.replace(pattern, '') and str.strip()
  // ---------------------------------------------------------------------

  /**
   * `s.replace(p, '')`: scanning left to right, each occurrence of `p`
   * that starts where the scan stands is dropped, and the scan resumes
   * after it.
   */
  function RemoveAll(s: string, p: string): (r: string)
    requires |p| > 0
    ensures |r| <= |s|
    decreases |s|
  {
    if |s| == 0 then []
    else if p <= s then RemoveAll(s[|p|..], p)
    else [s[0]] + RemoveAll(s[1..], p)
  }

  /** Text in which `p` does not occur is left as it is. */
  lemma {:induction false} RemoveAllAbsent(s: string, p: string)
    requires |p| > 0 && !Contains(s, p)
    ensures RemoveAll(s, p) == s
    decreases |s|
  {
    if |s| > 0 {
      assert !OccursAt(s, p, 0);
      forall k | OccursAt(s[1..], p, k) ensures OccursAt(s, p, 1 + k) {
        assert s[1 + k..1 + k + |p|] == s[1..][k..k + |p|];
      }
      RemoveAllAbsent(s[1..], p);
    }
  }

  const Fence: string := "```"
  const JsonFence: string := "```json"

  /** Once the backtick fences are removed, the output begins with a backtick only if the input does, and with two only if the input does. */
  lemma {:induction false} UnfencedPrefix(s: string)
    ensures var r := RemoveAll(s, Fence);
      (|r| >= 1 && r[0] == '`' ==> |s| >= 1 && s[0] == '`') &&
      (|r| >= 2 && r[0] == '`' && r[1] == '`' ==> |s| >= 2 && s[0] == '`' && s[1] == '`')
    decreases |s|
  {
    if |s| > 0 {
      if Fence <= s {
        UnfencedPrefix(s[3..]);
      } else {
        UnfencedPrefix(s[1..]);
      }
    }
  }

  /** Removing every ``` leaves no ``` behind: no new marker forms across a removed one. */
  lemma {:induction false} NoFenceLeft(s: string)
    ensures !Contains(RemoveAll(s, Fence), Fence)
    decreases |s|
  {
    var r := RemoveAll(s, Fence);
    if |s| > 0 {
      if Fence <= s {
        NoFenceLeft(s[3..]);
      } else {
        var t := RemoveAll(s[1..], Fence);
        assert r == [s[0]] + t;
        NoFenceLeft(s[1..]);
        UnfencedPrefix(s[1..]);
        if k :| OccursAt(r, Fence, k) {
          if k > 0 {
            assert t[k - 1..k - 1 + 3] == r[k..k + 3];
            assert OccursAt(t, Fence, k - 1);
          }
        }
      }
    }
  }

  /** The characters Python's `str.isspace` accepts (and `str.strip()` removes). */
  predicate IsSpace(c: char)
  {
    || c == ' ' || ('\t' <= c <= '\r') || ('\U{1C}' <= c <= '\U{1F}')
    || c == '\U{85}' || c == '\U{A0}' || c == '\U{1680}' || ('\U{2000}' <= c <= '\U{200A}')
    || c == '\U{2028}' || c == '\U{2029}' || c == '\U{202F}' || c == '\U{205F}' || c == '\U{3000}'
  }

  /** Number of whitespace characters at the start of `s`. */
  function LeadingSpaces(s: string): (n: nat)
    ensures n <= |s|
    ensures forall k :: 0 <= k < n ==> IsSpace(s[k])
    ensures n < |s| ==> !IsSpace(s[n])
  {
    if |s| > 0 && IsSpace(s[0]) then 1 + LeadingSpaces(s[1..]) else 0
  }

  /** Length of `s` without its trailing whitespace characters. */
  function EndOfText(s: string): (n: nat)
    ensures n <= |s|
    ensures forall k :: n <= k < |s| ==> IsSpace(s[k])
    ensures n > 0 ==> !IsSpace(s[n - 1])
  {
    if |s| > 0 && IsSpace(s[|s| - 1]) then EndOfText(s[..|s| - 1]) else |s|
  }

  /** `str.strip()`: `s` without the whitespace at either end. */
  function Strip(s: string): string
  {
    var i := LeadingSpaces(s);
    s[i..i + EndOfText(s[i..])]
  }

  /**
   * What `Strip` removes is whitespace at both ends, and what it leaves
   * is a piece of `s` that neither starts nor ends with whitespace.
   */
  lemma StripShape(s: string)
    ensures exists i, j ::
              && 0 <= i <= j <= |s| && Strip(s) == s[i..j]
              && (forall k :: 0 <= k < i ==> IsSpace(s[k]))
              && (forall k :: j <= k < |s| ==> IsSpace(s[k]))
    ensures var r := Strip(s);
      |r| > 0 ==> !IsSpace(r[0]) && !IsSpace(r[|r| - 1])
  {
    var i := LeadingSpaces(s);
    var t := s[i..];
    var e := EndOfText(t);
    var j := i + e;
    var r := Strip(s);
    assert r == s[i..j] == t[..e];
    forall k | j <= k < |s| ensures IsSpace(s[k]) {
      assert s[k] == t[k - i];
    }
    if e > 0 {
      assert r[0] == t[0] && r[e - 1] == t[e - 1];
    }
  }

  /** Stripping is idempotent. */
  lemma StripIdempotent(s: string)
    ensures Strip(Strip(s)) == Strip(s)
  {
    var r := Strip(s);
    StripShape(s);
    assert LeadingSpaces(r) == 0;
    assert EndOfText(r) == |r|;
    assert r[0..|r|] == r;
  }

  /**
   * The cleanup applied to the first reply of a turn: remove every
   * "```json", then every "```", then strip, then extract the JSON span.
   */
  function CleanReply(content: string): string
  {
    ExtractJson(Strip(RemoveAll(RemoveAll(content, JsonFence), Fence)))
  }

  /** The cleanup applied to a reply asked for again (strip, then extract; fences are kept). */
  function CleanRetryReply(content: string): string
  {
    ExtractJson(Strip(content))
  }

  /** The text the first decode attempt of a turn sees holds no ``` marker. */
  lemma CleanReplyHasNoFence(content: string)
    ensures !Contains(CleanReply(content), Fence)
  {
    var u := RemoveAll(RemoveAll(content, JsonFence), Fence);
    NoFenceLeft(RemoveAll(content, JsonFence));
    var t := Strip(u);
    StripShape(u);
    assert IsSubstring(t, u);
    SubstringAvoids(t, u, Fence);
    ExtractJsonShape(t);
    SubstringAvoids(ExtractJson(t), t, Fence);
  }

  /** `sep.join(items)`. */
  function Join(items: seq<string>, sep: string): string
  {
    if |items| == 0 then ""
    else if |items| == 1 then items[0]
    else items[0] + sep + Join(items[1..], sep)
  }
}
