/**
 * How the tester turns user input into a list of target URLs: the lines of
 * a URL file, stripped and with blank lines dropped (`load_urls_from_file`),
 * or a free-text answer split on whitespace (the interactive prompt).
 */
module UrlLists {

  /** The characters Python's `str.isspace()` accepts, which `strip()` and `split()` use. */
  predicate IsSpace(c: char) {
    || '\t' <= c <= '\r'
    || '\U{1c}' <= c <= ' '
    || c == '\U{85}' || c == '\U{a0}' || c == '\U{1680}'
    || '\U{2000}' <= c <= '\U{200a}'
    || c == '\U{2028}' || c == '\U{2029}' || c == '\U{202f}' || c == '\U{205f}' || c == '\U{3000}'
  }

  predicate AllSpace(s: string) {
    forall k | 0 <= k < |s| :: IsSpace(s[k])
  }

  predicate NoSpace(s: string) {
    forall k | 0 <= k < |s| :: !IsSpace(s[k])
  }

  /** Neither starts nor ends with whitespace. */
  predicate IsStripped(s: string) {
    s == [] || (!IsSpace(s[0]) && !IsSpace(s[|s| - 1]))
  }

  /** How many whitespace characters `s` starts with. */
  function LeadingSpace(s: string): (n: nat)
    ensures n <= |s| && forall k | 0 <= k < n :: IsSpace(s[k])
    ensures n < |s| ==> !IsSpace(s[n])
  {
    if s != [] && IsSpace(s[0]) then 1 + LeadingSpace(s[1..]) else 0
  }

  /** How many whitespace characters `s` ends with. */
  function TrailingSpace(s: string): (n: nat)
    ensures n <= |s| && forall k | |s| - n <= k < |s| :: IsSpace(s[k])
    ensures n < |s| ==> !IsSpace(s[|s| - n - 1])
  {
    if s != [] && IsSpace(s[|s| - 1]) then 1 + TrailingSpace(s[..|s| - 1]) else 0
  }

  /** `s.strip()`: the text between the leading and the trailing whitespace. */
  function Strip(s: string): (r: string)
    ensures IsStripped(r)
    ensures r == [] <==> AllSpace(s)
  {
    var i := LeadingSpace(s);
    var t := TrailingSpace(s[i..]);
    assert i < |s| ==> t < |s| - i by {
      if i < |s| {
        assert s[i..][0] == s[i];
      }
    }
    assert i == |s| ==> s[..i] == s;
    assert i < |s| ==> s[i..|s| - t][|s| - t - i - 1] == s[i..][|s| - i - t - 1];
    s[i..|s| - t]
  }

  /** The leading whitespace of `lead + rest` is `lead` when `rest` starts with something else. */
  lemma LeadingSpaceOf(lead: string, rest: string)
    requires AllSpace(lead) && rest != [] && !IsSpace(rest[0])
    ensures LeadingSpace(lead + rest) == |lead|
  {
    var s := lead + rest;
    assert s[|lead|] == rest[0];
    assert forall k | 0 <= k < |lead| :: s[k] == lead[k];
  }

  /** The trailing whitespace of `rest + trail` is `trail` when `rest` ends with something else. */
  lemma TrailingSpaceOf(rest: string, trail: string)
    requires AllSpace(trail) && rest != [] && !IsSpace(rest[|rest| - 1])
    ensures TrailingSpace(rest + trail) == |trail|
  {
    var s := rest + trail;
    assert s[|rest| - 1] == rest[|rest| - 1];
    assert forall k | |rest| <= k < |s| :: s[k] == trail[k - |rest|];
  }

  /**
   * `strip()` removes exactly the surrounding whitespace: a stripped text
   * between two runs of whitespace is what comes out.
   */
  lemma StripRemovesSurroundingSpace(lead: string, mid: string, trail: string)
    requires AllSpace(lead) && AllSpace(trail) && IsStripped(mid)
    ensures Strip(lead + mid + trail) == mid
  {
    var s := lead + mid + trail;
    if mid == [] {
      assert AllSpace(s);
    } else {
      assert s == lead + (mid + trail);
      LeadingSpaceOf(lead, mid + trail);
      assert s[|lead|..] == mid + trail;
      TrailingSpaceOf(mid, trail);
      assert s[|lead|..|s| - |trail|] == mid;
    }
  }

  /** `[line.strip() for line in f if line.strip()]` over the lines of the file. */
  function LoadUrls(lines: seq<string>): (urls: seq<string>)
    ensures forall k | 0 <= k < |urls| :: urls[k] != [] && IsStripped(urls[k])
    ensures |urls| <= |lines|
  {
    if lines == [] then [] else LineUrls(lines[0]) + LoadUrls(lines[1..])
  }

  /** What one line contributes: its stripped text, unless that is empty. */
  function LineUrls(line: string): (urls: seq<string>)
    ensures |urls| <= 1 && forall k | 0 <= k < |urls| :: urls[k] != [] && IsStripped(urls[k])
  {
    var u := Strip(line);
    if u != [] then [u] else []
  }

  /** The number of lines holding something other than whitespace. */
  function NonBlankCount(lines: seq<string>): nat {
    if lines == [] then 0
    else (if AllSpace(lines[0]) then 0 else 1) + NonBlankCount(lines[1..])
  }

  /** One URL per non-blank line. */
  lemma {:induction false} LoadUrlsCount(lines: seq<string>)
    ensures |LoadUrls(lines)| == NonBlankCount(lines)
  {
    if lines != [] {
      LoadUrlsCount(lines[1..]);
    }
  }

  /**
   * Loading is line by line and keeps file order: the URLs of two pieces of
   * a file are those of the first piece followed by those of the second.
   */
  lemma {:induction false} LoadUrlsAppend(a: seq<string>, b: seq<string>)
    ensures LoadUrls(a + b) == LoadUrls(a) + LoadUrls(b)
    decreases |a|
  {
    if a == [] {
      assert a + b == b;
    } else {
      assert (a + b)[0] == a[0];
      assert (a + b)[1..] == a[1..] + b;
      LoadUrlsAppend(a[1..], b);
    }
  }

  /** A single line gives its stripped text, or nothing when it is blank. */
  lemma LoadUrlsOfLine(line: string)
    ensures LoadUrls([line]) == if AllSpace(line) then [] else [Strip(line)]
  {
  }

  // Interactive input: `answer.split()`

  /** The length of the run of non-whitespace characters that `s` starts with. */
  function WordLength(s: string): (n: nat)
    ensures n <= |s| && NoSpace(s[..n])
    ensures n < |s| ==> IsSpace(s[n])
  {
    if s == [] || IsSpace(s[0]) then 0 else 1 + WordLength(s[1..])
  }

  /** `s.split()`: the maximal runs of non-whitespace characters, left to right. */
  function SplitWhitespace(s: string): (words: seq<string>)
    ensures forall k | 0 <= k < |words| :: words[k] != [] && NoSpace(words[k])
    decreases |s|
  {
    if s == [] then []
    else if IsSpace(s[0]) then SplitWhitespace(s[1..])
    else
      var n := WordLength(s);
      [s[..n]] + SplitWhitespace(s[n..])
  }

  /** The characters of `s` that are not whitespace, in order. */
  function NonSpace(s: string): string {
    if s == [] then [] else (if IsSpace(s[0]) then [] else [s[0]]) + NonSpace(s[1..])
  }

  function Concat(words: seq<string>): string {
    if words == [] then [] else words[0] + Concat(words[1..])
  }

  /** The words joined by one separator character between each two, as a user would type them. */
  function JoinWith(words: seq<string>, sep: char): string {
    if words == [] then []
    else if |words| == 1 then words[0]
    else words[0] + [sep] + JoinWith(words[1..], sep)
  }

  lemma {:induction false} NonSpaceAppend(a: string, b: string)
    ensures NonSpace(a + b) == NonSpace(a) + NonSpace(b)
    decreases |a|
  {
    if a != [] {
      assert (a + b)[1..] == a[1..] + b;
      NonSpaceAppend(a[1..], b);
    } else {
      assert a + b == b;
    }
  }

  lemma {:induction false} NonSpaceOfWord(w: string)
    requires NoSpace(w)
    ensures NonSpace(w) == w
    decreases |w|
  {
    if w != [] {
      NonSpaceOfWord(w[1..]);
    }
  }

  /** Splitting loses only whitespace: the words, run together, are the input without its whitespace. */
  lemma {:induction false} SplitKeepsNonSpace(s: string)
    ensures Concat(SplitWhitespace(s)) == NonSpace(s)
    decreases |s|
  {
    if s != [] {
      if IsSpace(s[0]) {
        SplitKeepsNonSpace(s[1..]);
      } else {
        var n := WordLength(s);
        var words := SplitWhitespace(s);
        assert words[1..] == SplitWhitespace(s[n..]);
        SplitKeepsNonSpace(s[n..]);
        assert s == s[..n] + s[n..];
        NonSpaceAppend(s[..n], s[n..]);
        NonSpaceOfWord(s[..n]);
      }
    }
  }

  lemma {:induction false} WordLengthOfWord(w: string, rest: string)
    requires w != [] && NoSpace(w) && (rest == [] || IsSpace(rest[0]))
    ensures WordLength(w + rest) == |w|
    decreases |w|
  {
    if |w| > 1 {
      assert (w + rest)[1..] == w[1..] + rest;
      WordLengthOfWord(w[1..], rest);
    } else {
      assert (w + rest)[1..] == rest;
    }
  }

  /** Leading whitespace is skipped. */
  lemma SplitSpaceFirst(c: char, b: string)
    requires IsSpace(c)
    ensures SplitWhitespace([c] + b) == SplitWhitespace(b)
  {
  }

  /** A whole word followed by whitespace, or by nothing, is split off as one word. */
  lemma SplitWordFirst(w: string, rest: string)
    requires w != [] && NoSpace(w) && (rest == [] || IsSpace(rest[0]))
    ensures SplitWhitespace(w + rest) == [w] + SplitWhitespace(rest)
  {
    WordLengthOfWord(w, rest);
    assert (w + rest)[0] == w[0];
    assert (w + rest)[..|w|] == w && (w + rest)[|w|..] == rest;
  }

  /**
   * A whitespace character separates: what lies on either side of it is
   * split on its own. Runs of whitespace therefore act as one separator,
   * and leading or trailing whitespace yields no empty word.
   */
  lemma {:induction false} SplitAtSpace(a: string, c: char, b: string)
    requires IsSpace(c)
    ensures SplitWhitespace(a + [c] + b) == SplitWhitespace(a) + SplitWhitespace(b)
    decreases |a|
  {
    var s := a + [c] + b;
    if a == [] {
      assert s == [c] + b;
      SplitSpaceFirst(c, b);
    } else if IsSpace(a[0]) {
      assert s[0] == a[0] && s[1..] == a[1..] + [c] + b;
      SplitAtSpace(a[1..], c, b);
    } else {
      var n := WordLength(a);
      var w := a[..n];
      if n < |a| {
        assert a == w + a[n..] && s == w + (a[n..] + [c] + b);
        SplitWordFirst(w, a[n..]);
        SplitWordFirst(w, a[n..] + [c] + b);
        SplitAtSpace(a[n..], c, b);
      } else {
        assert a == w + [] && s == w + ([c] + b);
        SplitWordFirst(w, []);
        SplitWordFirst(w, [c] + b);
        SplitSpaceFirst(c, b);
      }
    }
  }

  /** A non-empty text without whitespace is one word. */
  lemma SplitOfWord(w: string)
    requires w != [] && NoSpace(w)
    ensures SplitWhitespace(w) == [w]
  {
    WordLengthOfWord(w, []);
    assert w + [] == w;
    assert w[|w|..] == [];
  }

  /** Words typed with one whitespace character between each two are split back into exactly those words. */
  lemma {:induction false} SplitJoinRoundTrip(words: seq<string>, sep: char)
    requires IsSpace(sep)
    requires forall k | 0 <= k < |words| :: words[k] != [] && NoSpace(words[k])
    ensures SplitWhitespace(JoinWith(words, sep)) == words
    decreases |words|
  {
    if |words| == 1 {
      SplitOfWord(words[0]);
    } else if |words| > 1 {
      SplitOfWord(words[0]);
      SplitAtSpace(words[0], sep, JoinWith(words[1..], sep));
      SplitJoinRoundTrip(words[1..], sep);
      assert words == [words[0]] + words[1..];
    }
  }
}
