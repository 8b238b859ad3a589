/**
 * The Python `str` operations the package gatherer relies on, written out
 * over `string` (a `seq<char>`): `isspace`/`strip` (to test for an empty
 * file), `split(c)[0]`, `rstrip(c)`, `split(c)[-1]` and `replace`.
 */
module PyStrings {

  /** `c.isspace()`: the characters Python's `str.strip()` removes by default. */
  predicate IsSpace(c: char) {
    || '\t' <= c <= '\r'               // \t \n \x0b \x0c \r
    || '\U{1c}' <= c <= '\U{1f}'       // file, group, record and unit separators
    || c == ' '
    || c == '\U{85}' || c == '\U{a0}' || c == '\U{1680}'
    || '\U{2000}' <= c <= '\U{200a}'
    || c == '\U{2028}' || c == '\U{2029}' || c == '\U{202f}' || c == '\U{205f}' || c == '\U{3000}'
  }

  /** Every character is whitespace (`StripEmptyIffBlank`: exactly when `not s.strip()`). */
  predicate IsBlank(s: string) {
    forall i :: 0 <= i < |s| ==> IsSpace(s[i])
  }

  /** The length of the run of whitespace that `s` starts with. */
  function LeadingSpaces(s: string): (n: nat)
    ensures n <= |s|
    ensures forall i :: 0 <= i < n ==> IsSpace(s[i])
    ensures n < |s| ==> !IsSpace(s[n])
  {
    if s != [] && IsSpace(s[0]) then 1 + LeadingSpaces(s[1..]) else 0
  }

  /** `s.lstrip()`: `s` without its leading whitespace. */
  function TrimStart(s: string): (r: string)
    ensures r == s[LeadingSpaces(s)..]
    ensures r == [] || !IsSpace(r[0])
  {
    s[LeadingSpaces(s)..]
  }

  /** `s.rstrip()`: `s` without its trailing whitespace. */
  function TrimEnd(s: string): (r: string)
    ensures r <= s
    ensures forall i :: |r| <= i < |s| ==> IsSpace(s[i])
    ensures r == [] || !IsSpace(r[|r| - 1])
  {
    if s != [] && IsSpace(s[|s| - 1]) then TrimEnd(s[..|s| - 1]) else s
  }

  /** `s.strip()`: whitespace removed from both ends. */
  function Strip(s: string): (r: string)
    ensures |r| <= |s|
    ensures r == [] || (!IsSpace(r[0]) && !IsSpace(r[|r| - 1]))
  {
    TrimEnd(TrimStart(s))
  }

  /** `not s.strip()` holds exactly for text made only of whitespace. */
  lemma StripEmptyIffBlank(s: string)
    ensures Strip(s) == [] <==> IsBlank(s)
  {
    var t := TrimStart(s);
    if t != [] {
      assert t[0] == s[LeadingSpaces(s)];
      assert TrimEnd(t)[0] == t[0];
    }
  }

  /** `s.split(sep)[0]`: the text before the first `sep`, or all of `s` when there is none. */
  function SplitFirst(s: string, sep: char): (r: string)
    ensures r <= s
    ensures sep !in r
    ensures |r| < |s| ==> s[|r|] == sep
  {
    if s == [] || s[0] == sep then [] else [s[0]] + SplitFirst(s[1..], sep)
  }

  /** `s.rstrip(ch)`: `s` without its trailing run of `ch`. */
  function RStrip(s: string, ch: char): (r: string)
    ensures r <= s
    ensures r == [] || r[|r| - 1] != ch
    ensures forall i :: |r| <= i < |s| ==> s[i] == ch
  {
    if s != [] && s[|s| - 1] == ch then RStrip(s[..|s| - 1], ch) else s
  }

  /** `s.split(sep)[-1]`: the text after the last `sep`, or all of `s` when there is none. */
  function LastSegment(s: string, sep: char): (r: string)
    ensures |r| <= |s|
    ensures forall c :: c in r ==> c in s
    ensures sep !in r
    ensures |r| < |s| ==> s[|s| - |r| - 1] == sep
  {
    if s == [] || s[|s| - 1] == sep then [] else LastSegment(s[..|s| - 1], sep) + [s[|s| - 1]]
  }

  /** Text without `sep` is its own first piece. */
  lemma {:induction false} SplitFirstWithoutSeparator(s: string, sep: char)
    requires sep !in s
    ensures SplitFirst(s, sep) == s
  {
    if s != [] {
      assert s[0] in s;
      SplitFirstWithoutSeparator(s[1..], sep);
      assert s == [s[0]] + s[1..];
    }
  }

  /** The first piece ends at the first `sep`: at `k` when `s[k]` is `sep` and none comes before. */
  lemma {:induction false} SplitFirstAt(s: string, sep: char, k: nat)
    requires k < |s| && s[k] == sep && sep !in s[..k]
    ensures SplitFirst(s, sep) == s[..k]
  {
    if k > 0 {
      assert s[0] == s[..k][0];
      assert s[1..][..k - 1] == s[..k][1..];
      SplitFirstAt(s[1..], sep, k - 1);
      assert s[..k] == [s[0]] + s[1..][..k - 1];
    }
  }

  /** Text that does not end with `ch` is left as it is by `rstrip(ch)`. */
  lemma RStripWithoutTrailing(s: string, ch: char)
    requires s != [] && s[|s| - 1] != ch
    ensures RStrip(s, ch) == s
  {
  }

  /** The last segment is a suffix of the text. */
  lemma {:induction false} LastSegmentIsSuffix(s: string, sep: char)
    ensures LastSegment(s, sep) == s[|s| - |LastSegment(s, sep)|..]
  {
    if s != [] && s[|s| - 1] != sep {
      var init := s[..|s| - 1];
      LastSegmentIsSuffix(init, sep);
      var r := LastSegment(init, sep);
      assert LastSegment(s, sep) == r + [s[|s| - 1]];
      assert init[|init| - |r|..] + [s[|s| - 1]] == s[|s| - |r| - 1..];
    }
  }

  /** What follows a `sep` (or the start) and holds no `sep` is the last segment. */
  lemma {:induction false} LastSegmentAfterSeparator(base: string, segment: string, sep: char)
    requires base == [] || base[|base| - 1] == sep
    requires sep !in segment
    ensures LastSegment(base + segment, sep) == segment
    decreases |segment|
  {
    var s := base + segment;
    if segment == [] {
      assert s == base;
    } else {
      var init := segment[..|segment| - 1];
      assert s[|s| - 1] == segment[|segment| - 1] != sep;
      assert s[..|s| - 1] == base + init;
      assert LastSegment(s, sep) == LastSegment(base + init, sep) + [s[|s| - 1]];
      LastSegmentAfterSeparator(base, init, sep);
      assert init + [segment[|segment| - 1]] == segment;
    }
  }

  /** `pat` occurs in `s` starting at index `i`. */
  predicate OccursAt(s: string, pat: string, i: int) {
    0 <= i && i + |pat| <= |s| && s[i..i + |pat|] == pat
  }

  predicate Occurs(s: string, pat: string) {
    exists i :: 0 <= i <= |s| && OccursAt(s, pat, i)
  }

  /**
   * `s.replace(pat, rep)`: scanning left to right, every occurrence of `pat`
   * that does not overlap an earlier replaced one becomes `rep`.
   */
  function Replace(s: string, pat: string, rep: string): string
    requires pat != []
    decreases |s|
  {
    if |s| < |pat| then s
    else if s[..|pat|] == pat then rep + Replace(s[|pat|..], pat, rep)
    else [s[0]] + Replace(s[1..], pat, rep)
  }

  /** `replace` is made only of characters of the text and of the replacement. */
  lemma {:induction false} ReplaceKeepsCharacters(s: string, pat: string, rep: string)
    requires pat != []
    ensures forall c :: c in Replace(s, pat, rep) ==> c in s || c in rep
    decreases |s|
  {
    if |s| >= |pat| {
      if s[..|pat|] == pat {
        ReplaceKeepsCharacters(s[|pat|..], pat, rep);
      } else {
        ReplaceKeepsCharacters(s[1..], pat, rep);
      }
    }
  }

  /** Text in which `pat` does not occur comes back from `replace` unchanged. */
  lemma {:induction false} ReplaceWithoutOccurrence(s: string, pat: string, rep: string)
    requires pat != []
    requires !Occurs(s, pat)
    ensures Replace(s, pat, rep) == s
    decreases |s|
  {
    if |pat| <= |s| {
      assert !OccursAt(s, pat, 0);
      forall i | OccursAt(s[1..], pat, i) ensures OccursAt(s, pat, i + 1) {
        assert s[1..][i..i + |pat|] == s[i + 1..i + 1 + |pat|];
      }
      ReplaceWithoutOccurrence(s[1..], pat, rep);
    }
  }

  /** Dropping the first character shifts every occurrence one place left. */
  lemma OccursAtTail(s: string, pat: string, i: nat)
    requires s != []
    ensures OccursAt(s[1..], pat, i) <==> OccursAt(s, pat, i + 1)
  {
    if i + 1 + |pat| <= |s| {
      assert s[1..][i..i + |pat|] == s[i + 1..i + 1 + |pat|];
    }
  }

  /** Where `pat` does not start the text, `replace` keeps the first character and moves on. */
  lemma ReplaceStepPastMismatch(s: string, pat: string, rep: string)
    requires pat != [] && |pat| <= |s| && !OccursAt(s, pat, 0)
    ensures Replace(s, pat, rep) == [s[0]] + Replace(s[1..], pat, rep)
  {
    assert s[0..|pat|] == s[..|pat|];
  }

  /**
   * The first occurrence of `pat` becomes `rep`: the text before it is kept
   * and the scan resumes right after it.
   */
  lemma {:induction false} ReplaceAtFirstOccurrence(before: string, pat: string, rest: string, rep: string)
    requires pat != []
    requires forall i :: 0 <= i < |before| ==> !OccursAt(before + pat + rest, pat, i)
    ensures Replace(before + pat + rest, pat, rep) == before + rep + Replace(rest, pat, rep)
    decreases |before|
  {
    var s := before + pat + rest;
    if before == [] {
      assert s == pat + rest;
      ReplaceLeadingOccurrence(pat, rest, rep);
    } else {
      var tail := before[1..] + pat + rest;
      assert s[1..] == tail;
      forall i | 0 <= i < |before| - 1
        ensures !OccursAt(tail, pat, i)
      {
        OccursAtTail(s, pat, i);
      }
      ReplaceAtFirstOccurrence(before[1..], pat, rest, rep);
      ReplaceStepPastMismatch(s, pat, rep);
      Regroup([before[0]], before[1..], rep, Replace(rest, pat, rep));
      assert [before[0]] + before[1..] == before;
    }
  }

  /** Concatenation regrouped: `a + (x + y + z) == (a + x) + y + z`. */
  lemma Regroup(a: string, x: string, y: string, z: string)
    ensures a + (x + y + z) == (a + x) + y + z
  {
  }

  /** When the only occurrence of `pat` in `t + pat` is the trailing one, `replace` turns it into `rep`. */
  lemma {:induction false} ReplaceSoleTrailingOccurrence(t: string, pat: string, rep: string)
    requires pat != []
    requires forall i :: OccursAt(t + pat, pat, i) ==> i == |t|
    ensures Replace(t + pat, pat, rep) == t + rep
    decreases |t|
  {
    if t == [] {
      assert t + pat == pat + [];
      ReplaceLeadingOccurrence(pat, [], rep);
    } else {
      var s, rest := t + pat, t[1..] + pat;
      assert !OccursAt(s, pat, 0);
      assert s[..|pat|] != pat;
      assert s[1..] == rest;
      assert Replace(s, pat, rep) == [t[0]] + Replace(rest, pat, rep);
      forall i | OccursAt(rest, pat, i) ensures i == |t| - 1 {
        assert rest[i..i + |pat|] == s[i + 1..i + 1 + |pat|];
        assert OccursAt(s, pat, i + 1);
      }
      ReplaceSoleTrailingOccurrence(t[1..], pat, rep);
      assert [t[0]] + (t[1..] + rep) == t + rep;
    }
  }

  /** An occurrence at the very start is replaced, and the scan resumes right after it. */
  lemma ReplaceLeadingOccurrence(pat: string, rest: string, rep: string)
    requires pat != []
    ensures Replace(pat + rest, pat, rep) == rep + Replace(rest, pat, rep)
  {
    assert (pat + rest)[..|pat|] == pat;
    assert (pat + rest)[|pat|..] == rest;
  }

}
