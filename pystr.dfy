/**
 * The Python `str` built-ins the voice server relies on, with Python's
 * semantics: `startswith`/`endswith`, the `in` substring test, `replace`
 * (every non-overlapping occurrence, scanning left to right), `split` on a
 * single character (empty segments kept), `strip`, and `lower`/`title`
 * restricted to ASCII letters.
 */
module PyStr {

  /** Python's `s.startswith(p)`, compared character by character. */
  predicate StartsWith(s: string, p: string)
    decreases |p|
  {
    |p| == 0 || (|s| > 0 && s[0] == p[0] && StartsWith(s[1..], p[1..]))
  }

  lemma {:induction false} StartsWithIff(s: string, p: string)
    ensures StartsWith(s, p) <==> |p| <= |s| && s[..|p|] == p
    decreases |p|
  {
    if |p| > 0 && |s| > 0 {
      StartsWithIff(s[1..], p[1..]);
      if |p| <= |s| {
        assert s[..|p|] == [s[0]] + s[1..][..|p| - 1];
        assert p == [p[0]] + p[1..];
      }
    }
  }

  predicate EndsWith(s: string, p: string) {
    |p| <= |s| && s[|s| - |p|..] == p
  }

  /** `p` occurs in `s` at index `i`. */
  ghost predicate OccursAt(s: string, p: string, i: int) {
    0 <= i && i + |p| <= |s| && s[i..i + |p|] == p
  }

  /** Python's `p in s` for strings. */
  function Contains(s: string, p: string): bool
    decreases |s|
  {
    StartsWith(s, p) || (|s| > 0 && Contains(s[1..], p))
  }

  lemma {:induction false} ContainsIff(s: string, p: string)
    ensures Contains(s, p) <==> exists i :: OccursAt(s, p, i)
    decreases |s|
  {
    StartsWithIff(s, p);
    if |p| <= |s| {
      assert s[0..|p|] == s[..|p|];
    }
    assert OccursAt(s, p, 0) == StartsWith(s, p);
    if |s| > 0 {
      ContainsIff(s[1..], p);
      forall i | 0 < i
        ensures OccursAt(s, p, i) == OccursAt(s[1..], p, i - 1)
      {
        if i + |p| <= |s| {
          assert s[1..][i - 1..i - 1 + |p|] == s[i..i + |p|];
        }
      }
      if Contains(s[1..], p) {
        var j :| OccursAt(s[1..], p, j);
        assert OccursAt(s, p, j + 1);
      }
    }
  }

  lemma {:induction false} ContainsFits(s: string, p: string)
    requires Contains(s, p)
    ensures |p| <= |s|
    decreases |s|
  {
    StartsWithIff(s, p);
    if !StartsWith(s, p) {
      ContainsFits(s[1..], p);
    }
  }

  /** Every character of a substring occurs in the string. */
  lemma {:induction false} ContainsChars(s: string, p: string, c: char)
    requires Contains(s, p) && c in p
    ensures c in s
    decreases |s|
  {
    StartsWithIff(s, p);
    if StartsWith(s, p) {
      var k :| 0 <= k < |p| && p[k] == c;
      assert s[k] == s[..|p|][k];
    } else {
      ContainsChars(s[1..], p, c);
    }
  }

  /** Python's `s.replace(pat, rep)`: every non-overlapping occurrence, left to right. */
  function Replace(s: string, pat: string, rep: string): string
    requires |pat| > 0
    decreases |s|
  {
    if |s| < |pat| then s
    else if s[..|pat|] == pat then rep + Replace(s[|pat|..], pat, rep)
    else [s[0]] + Replace(s[1..], pat, rep)
  }

  /** A string that does not contain the pattern is left as it is. */
  lemma {:induction false} ReplaceAbsent(s: string, pat: string, rep: string)
    requires |pat| > 0 && !Contains(s, pat)
    ensures Replace(s, pat, rep) == s
    decreases |s|
  {
    if |s| >= |pat| {
      StartsWithIff(s, pat);
      ReplaceAbsent(s[1..], pat, rep);
    }
  }

  /** A suffix is a substring. */
  lemma EndsWithContains(s: string, p: string)
    requires EndsWith(s, p)
    ensures Contains(s, p)
  {
    ContainsIff(s, p);
    assert OccursAt(s, p, |s| - |p|);
  }

  /** With a pattern whose first character does not recur in it, a stem free of the pattern cannot start an occurrence of it. */
  lemma NoOccurrenceAtStem(stem: string, pat: string)
    requires |pat| > 0 && |stem| > 0
    requires forall m :: 0 < m < |pat| ==> pat[m] != pat[0]
    requires !Contains(stem, pat)
    ensures !StartsWith(stem + pat, pat)
  {
    var s := stem + pat;
    StartsWithIff(s, pat);
    StartsWithIff(stem, pat);
    if |stem| >= |pat| {
      assert stem[..|pat|] == s[..|pat|];
    } else {
      assert s[|stem|] == pat[0];
    }
  }

  /**
   * When the pattern's first character does not recur inside it (so no
   * occurrence can straddle the boundary) and the stem does not contain it,
   * replacing in `stem + pat` affects only the final occurrence.
   */
  lemma {:induction false} ReplaceFinalOccurrence(stem: string, pat: string, rep: string)
    requires |pat| > 0
    requires forall m :: 0 < m < |pat| ==> pat[m] != pat[0]
    requires !Contains(stem, pat)
    ensures Replace(stem + pat, pat, rep) == stem + rep
    decreases |stem|
  {
    var s := stem + pat;
    if |stem| == 0 {
      assert s == pat;
      assert s[|pat|..] == [];
    } else {
      NoOccurrenceAtStem(stem, pat);
      StartsWithIff(s, pat);
      StartsWithIff(stem, pat);
      assert Replace(s, pat, rep) == [s[0]] + Replace(s[1..], pat, rep);
      assert s[1..] == stem[1..] + pat;
      ReplaceFinalOccurrence(stem[1..], pat, rep);
      assert [stem[0]] + stem[1..] == stem;
    }
  }

  /** A replacement at least as long as the pattern never shortens the string. */
  lemma {:induction false} ReplaceLength(s: string, pat: string, rep: string)
    requires |pat| > 0 && |rep| >= |pat|
    ensures |Replace(s, pat, rep)| >= |s|
    ensures Contains(s, pat) && |rep| > |pat| ==> |Replace(s, pat, rep)| > |s|
    decreases |s|
  {
    if |s| < |pat| {
      if Contains(s, pat) {
        ContainsFits(s, pat);
      }
    } else if s[..|pat|] == pat {
      ReplaceLength(s[|pat|..], pat, rep);
    } else {
      StartsWithIff(s, pat);
      ReplaceLength(s[1..], pat, rep);
    }
  }

  /** Replacing one character by another works position by position. */
  lemma {:induction false} ReplaceCharAt(s: string, a: char, b: char)
    ensures |Replace(s, [a], [b])| == |s|
    ensures forall i :: 0 <= i < |s| ==> Replace(s, [a], [b])[i] == (if s[i] == a then b else s[i])
    decreases |s|
  {
    if |s| > 0 {
      ReplaceCharAt(s[1..], a, b);
      var tail := Replace(s[1..], [a], [b]);
      assert s[..1] == [s[0]];
      var r := Replace(s, [a], [b]);
      assert r == [if s[0] == a then b else s[0]] + tail;
      forall i | 0 < i < |s|
        ensures r[i] == (if s[i] == a then b else s[i])
      {
        assert r[i] == tail[i - 1];
        assert s[1..][i - 1] == s[i];
      }
    }
  }

  /** Python's `s.split(sep)` for a single-character separator. */
  function Split(s: string, sep: char): (parts: seq<string>)
    ensures |parts| >= 1
    decreases |s|
  {
    if |s| == 0 then [""]
    else
      var rest := Split(s[1..], sep);
      if s[0] == sep then [""] + rest
      else [[s[0]] + rest[0]] + rest[1..]
  }

  /** Python's `sep.join(parts)`. */
  function Join(parts: seq<string>, sep: char): string
    requires |parts| >= 1
  {
    if |parts| == 1 then parts[0] else parts[0] + [sep] + Join(parts[1..], sep)
  }

  function CountChar(s: string, c: char): nat
    decreases |s|
  {
    if |s| == 0 then 0 else (if s[0] == c then 1 else 0) + CountChar(s[1..], c)
  }

  /** Joining the segments back with the separator gives the original string. */
  lemma {:induction false} JoinSplit(s: string, sep: char)
    ensures Join(Split(s, sep), sep) == s
    decreases |s|
  {
    if |s| > 0 {
      var rest := Split(s[1..], sep);
      JoinSplit(s[1..], sep);
      if s[0] == sep {
        assert ([""] + rest)[1..] == rest;
      } else {
        var parts := [[s[0]] + rest[0]] + rest[1..];
        assert Split(s, sep) == parts;
        if |rest| > 1 {
          assert parts[1..] == rest[1..];
          assert Join(rest, sep) == rest[0] + [sep] + Join(rest[1..], sep);
        }
        assert [s[0]] + s[1..] == s;
      }
    }
  }

  /** There is one more segment than there are separators, and no segment holds one. */
  lemma {:induction false} SplitSegments(s: string, sep: char)
    ensures |Split(s, sep)| == CountChar(s, sep) + 1
    ensures forall k :: 0 <= k < |Split(s, sep)| ==> sep !in Split(s, sep)[k]
    decreases |s|
  {
    if |s| > 0 {
      SplitSegments(s[1..], sep);
      var rest := Split(s[1..], sep);
      if s[0] != sep {
        var parts := Split(s, sep);
        assert parts[0] == [s[0]] + rest[0];
        forall k | 0 < k < |parts| ensures sep !in parts[k] {
          assert parts[k] == rest[k];
        }
      }
    }
  }

  lemma {:induction false} SplitNoSeparator(x: string, sep: char)
    requires sep !in x
    ensures Split(x, sep) == [x]
    decreases |x|
  {
    if |x| > 0 {
      SplitNoSeparator(x[1..], sep);
      assert [x[0]] + x[1..] == x;
    }
  }

  lemma {:induction false} SplitAfterSeparator(x: string, sep: char, y: string)
    requires sep !in x
    ensures Split(x + [sep] + y, sep) == [x] + Split(y, sep)
    decreases |x|
  {
    var s := x + [sep] + y;
    if |x| == 0 {
      assert s[1..] == y;
    } else {
      assert s[1..] == x[1..] + [sep] + y;
      SplitAfterSeparator(x[1..], sep, y);
      assert [x[0]] + x[1..] == x;
    }
  }

  /** Splitting a join of separator-free segments gives the segments back. */
  lemma {:induction false} SplitJoin(parts: seq<string>, sep: char)
    requires |parts| >= 1
    requires forall k :: 0 <= k < |parts| ==> sep !in parts[k]
    ensures Split(Join(parts, sep), sep) == parts
    decreases |parts|
  {
    if |parts| == 1 {
      SplitNoSeparator(parts[0], sep);
    } else {
      SplitJoin(parts[1..], sep);
      SplitAfterSeparator(parts[0], sep, Join(parts[1..], sep));
      assert [parts[0]] + parts[1..] == parts;
    }
  }

  predicate IsAsciiUpper(c: char) { 'A' <= c <= 'Z' }

  predicate IsAsciiLower(c: char) { 'a' <= c <= 'z' }

  predicate IsAsciiLetter(c: char) { IsAsciiUpper(c) || IsAsciiLower(c) }

  function ToLowerChar(c: char): char {
    if IsAsciiUpper(c) then (c as int + 32) as char else c
  }

  function ToUpperChar(c: char): char {
    if IsAsciiLower(c) then (c as int - 32) as char else c
  }

  /** Python's `s.lower()` on ASCII letters. */
  function Lower(s: string): string {
    seq(|s|, i requires 0 <= i < |s| => ToLowerChar(s[i]))
  }

  /**
   * Python's `s.title()` on ASCII: a letter is upper-cased when the
   * character before it is not a letter, lower-cased otherwise; every other
   * character is kept.
   */
  function Title(s: string): string {
    TitleAfter(s, false)
  }

  function TitleAfter(s: string, previousCased: bool): string
    decreases |s|
  {
    if |s| == 0 then ""
    else
      [if previousCased then ToLowerChar(s[0]) else ToUpperChar(s[0])]
      + TitleAfter(s[1..], IsAsciiLetter(s[0]))
  }

  predicate WordStart(s: string, i: int)
    requires 0 <= i < |s|
  {
    i == 0 || !IsAsciiLetter(s[i - 1])
  }

  lemma {:induction false} TitleAfterAt(s: string, previousCased: bool)
    ensures |TitleAfter(s, previousCased)| == |s|
    ensures forall i :: 0 <= i < |s| ==>
      TitleAfter(s, previousCased)[i] ==
        (if (if i == 0 then previousCased else IsAsciiLetter(s[i - 1]))
         then ToLowerChar(s[i]) else ToUpperChar(s[i]))
    decreases |s|
  {
    if |s| > 0 {
      TitleAfterAt(s[1..], IsAsciiLetter(s[0]));
      var r := TitleAfter(s, previousCased);
      var tail := TitleAfter(s[1..], IsAsciiLetter(s[0]));
      forall i | 0 < i < |s|
        ensures r[i] == (if IsAsciiLetter(s[i - 1]) then ToLowerChar(s[i]) else ToUpperChar(s[i]))
      {
        assert r[i] == tail[i - 1];
        assert s[1..][i - 1] == s[i];
        if i > 1 {
          assert s[1..][i - 2] == s[i - 1];
        }
      }
    }
  }

  /** `title()` position by position: upper case at the start of a word, lower case inside one. */
  lemma TitleAt(s: string)
    ensures |Title(s)| == |s|
    ensures forall i :: 0 <= i < |s| ==>
      Title(s)[i] == (if WordStart(s, i) then ToUpperChar(s[i]) else ToLowerChar(s[i]))
  {
    TitleAfterAt(s, false);
  }

  /** The characters Python's `str.isspace()` accepts, which `strip()` removes. */
  predicate IsSpace(c: char) {
    || c == ' '
    || '\t' <= c <= '\r'
    || '\U{1C}' <= c <= '\U{1F}'
    || c == '\U{85}' || c == '\U{A0}' || c == '\U{1680}'
    || '\U{2000}' <= c <= '\U{200A}'
    || c == '\U{2028}' || c == '\U{2029}' || c == '\U{202F}' || c == '\U{205F}' || c == '\U{3000}'
  }

  function StripLeft(s: string): (r: string)
    ensures |r| <= |s| && r == s[|s| - |r|..]
    ensures forall i :: 0 <= i < |s| - |r| ==> IsSpace(s[i])
    ensures |r| > 0 ==> !IsSpace(r[0])
    decreases |s|
  {
    if |s| > 0 && IsSpace(s[0]) then StripLeft(s[1..]) else s
  }

  function StripRight(s: string): (r: string)
    ensures |r| <= |s| && r == s[..|r|]
    ensures forall i :: |r| <= i < |s| ==> IsSpace(s[i])
    ensures |r| > 0 ==> !IsSpace(r[|r| - 1])
    decreases |s|
  {
    if |s| > 0 && IsSpace(s[|s| - 1]) then StripRight(s[..|s| - 1]) else s
  }

  /** Python's `s.strip()`. */
  function Strip(s: string): string {
    StripRight(StripLeft(s))
  }

  /** `strip()` leaves nothing exactly when the string is all whitespace. */
  lemma StripEmptyIff(s: string)
    ensures Strip(s) == "" <==> forall i :: 0 <= i < |s| ==> IsSpace(s[i])
  {
  }

  /** What `strip()` keeps starts and ends with a non-whitespace character. */
  lemma StripTrimmed(s: string)
    ensures Strip(s) == "" || (!IsSpace(Strip(s)[0]) && !IsSpace(Strip(s)[|Strip(s)| - 1]))
  {
    var l := StripLeft(s);
    var r := Strip(s);
    if |r| > 0 {
      assert r[0] == l[0];
    }
  }
}
