/**
 The string operations the extractors borrow from Go's standard library
 (`strings.TrimSpace`, `strings.ToLower`) and the pieces needed to write the
 two regular expressions of the extractors as plain string functions.
 */
module Strings {
  import opened Wrappers

  // ---------------------------------------------------------------------------
  // Whitespace and trimming
  // ---------------------------------------------------------------------------

  /** The code points Go's `unicode.IsSpace` accepts: the Latin-1 spaces and the
      rest of the Unicode White_Space property. */
  predicate IsSpace(c: char) {
    || c == '\t' || c == '\n' || c == '\U{000B}' || c == '\U{000C}' || c == '\r' || c == ' '
    || c == '\U{0085}' || c == '\U{00A0}' || c == '\U{1680}'
    || ('\U{2000}' <= c <= '\U{200A}')
    || c == '\U{2028}' || c == '\U{2029}' || c == '\U{202F}' || c == '\U{205F}' || c == '\U{3000}'
  }

  predicate AllSpace(s: string) {
    forall i | 0 <= i < |s| :: IsSpace(s[i])
  }

  /** Neither the first nor the last character is whitespace. */
  predicate IsTrimmed(s: string) {
    |s| == 0 || (!IsSpace(s[0]) && !IsSpace(s[|s| - 1]))
  }

  /** `r` sits at offset `lo` of `s`, and everything of `s` around it is whitespace. */
  predicate SpacePadded(s: string, r: string, lo: int) {
    && 0 <= lo && lo + |r| <= |s|
    && s[lo..lo + |r|] == r
    && (forall i | 0 <= i < lo :: IsSpace(s[i]))
    && (forall i | lo + |r| <= i < |s| :: IsSpace(s[i]))
  }

  /** Length of the longest all-whitespace prefix. */
  function LeadingSpaces(s: string): (k: nat)
    ensures k <= |s|
    ensures forall i | 0 <= i < k :: IsSpace(s[i])
    ensures k == |s| || !IsSpace(s[k])
  {
    if |s| > 0 && IsSpace(s[0]) then 1 + LeadingSpaces(s[1..]) else 0
  }

  /** Where the longest all-whitespace suffix starts. */
  function TrailingStart(s: string): (e: nat)
    ensures e <= |s|
    ensures forall i | e <= i < |s| :: IsSpace(s[i])
    ensures e == 0 || !IsSpace(s[e - 1])
  {
    if |s| > 0 && IsSpace(s[|s| - 1]) then TrailingStart(s[..|s| - 1]) else |s|
  }

  /** Go's `strings.TrimSpace`: drop leading and trailing whitespace. */
  function TrimSpace(s: string): (r: string)
    ensures IsTrimmed(r)
    ensures SpacePadded(s, r, LeadingSpaces(s))
    ensures r == "" <==> AllSpace(s)
  {
    var lo := LeadingSpaces(s);
    if lo == |s| then "" else s[lo..TrailingStart(s)]
  }

  /** TrimSpace is the only trimmed string that whitespace padding turns into `s`. */
  lemma TrimSpaceUnique(s: string, t: string, lo: int)
    requires SpacePadded(s, t, lo)
    requires IsTrimmed(t)
    ensures TrimSpace(s) == t
  {
    if t == "" {
      assert AllSpace(s);
    } else {
      assert s[lo] == t[0];
      assert s[lo + |t| - 1] == t[|t| - 1];
      var k := LeadingSpaces(s);
      assert k == lo;
      var e := TrailingStart(s);
      assert e == lo + |t|;
    }
  }

  /** A string without leading or trailing white space is its own trim. */
  lemma TrimSpaceOfTrimmed(s: string)
    requires IsTrimmed(s)
    ensures TrimSpace(s) == s
  {
    assert s[0..|s|] == s;
    TrimSpaceUnique(s, s, 0);
  }

  /** Trimming twice is trimming once. */
  lemma TrimSpaceIdempotent(s: string)
    ensures TrimSpace(TrimSpace(s)) == TrimSpace(s)
  {
    TrimSpaceOfTrimmed(TrimSpace(s));
  }

  /** Two non-empty trimmed strings joined by one space give a trimmed string. */
  lemma JoinedTrimmed(t1: string, t2: string)
    requires t1 != "" && t2 != "" && IsTrimmed(t1) && IsTrimmed(t2)
    ensures IsTrimmed(t1 + " " + t2)
  {
    var all := t1 + " " + t2;
    assert all[0] == t1[0] && all[|all| - 1] == t2[|t2| - 1];
  }

  /** A trimmed, non-empty string followed by one space trims back to itself. */
  lemma TrimTrailingSpace(j: string)
    requires j != "" && IsTrimmed(j)
    ensures TrimSpace(j + " ") == j
  {
    var s := j + " ";
    assert s[0..|j|] == j;
    TrimSpaceUnique(s, j, 0);
  }

  // ---------------------------------------------------------------------------
  // Lower-casing
  // ---------------------------------------------------------------------------

  /** Go's `unicode.ToLower` on the Basic Latin, Latin-1 Supplement and Latin
      Extended-A blocks, and on the Kelvin sign, which lowers to a plain `k`;
      every other code point is returned unchanged. */
  function LowerRune(c: char): char {
    if 'A' <= c <= 'Z' then
      (c as int + 32) as char
    else if '\U{00C0}' <= c <= '\U{00DE}' && c != '\U{00D7}' then
      (c as int + 32) as char
    else if c == '\U{0130}' then
      'i'
    else if c == '\U{0178}' then
      '\U{00FF}'
    else if c == '\U{212A}' then
      'k'
    else if ('\U{0100}' <= c <= '\U{012F}' || '\U{0132}' <= c <= '\U{0137}' || '\U{014A}' <= c <= '\U{0177}')
         && c as int % 2 == 0 then
      (c as int + 1) as char
    else if ('\U{0139}' <= c <= '\U{0148}' || '\U{0179}' <= c <= '\U{017E}') && c as int % 2 == 1 then
      (c as int + 1) as char
    else
      c
  }

  /** Go's `strings.ToLower`, one code point at a time. */
  function ToLower(s: string): (r: string)
    ensures |r| == |s|
    ensures forall i | 0 <= i < |s| :: r[i] == LowerRune(s[i])
  {
    if |s| == 0 then "" else [LowerRune(s[0])] + ToLower(s[1..])
  }

  lemma LowerRuneIdempotent(c: char)
    ensures LowerRune(LowerRune(c)) == LowerRune(c)
  {
  }

  /** A lower-cased string is its own lower case. */
  lemma ToLowerIdempotent(s: string)
    ensures ToLower(ToLower(s)) == ToLower(s)
  {
    forall i | 0 <= i < |s| ensures ToLower(ToLower(s))[i] == ToLower(s)[i] {
      LowerRuneIdempotent(s[i]);
    }
  }

  // ---------------------------------------------------------------------------
  // Digits, substrings and lines (the building blocks of the two regexes)
  // ---------------------------------------------------------------------------

  /** `\d` in Go's regexp syntax: an ASCII digit. */
  predicate IsDigit(c: char) {
    '0' <= c <= '9'
  }

  /** The longest prefix of `s` made of digits: what a greedy `(\d*)` captures. */
  function DigitPrefix(s: string): (r: string)
    ensures |r| <= |s| && r == s[..|r|]
    ensures forall i | 0 <= i < |r| :: IsDigit(r[i])
    ensures |r| == |s| || !IsDigit(s[|r|])
  {
    if |s| > 0 && IsDigit(s[0]) then [s[0]] + DigitPrefix(s[1..]) else ""
  }

  predicate OccursAt(s: string, pat: string, i: int) {
    0 <= i && i + |pat| <= |s| && s[i..i + |pat|] == pat
  }

  predicate Contains(s: string, pat: string) {
    exists i | 0 <= i <= |s| :: OccursAt(s, pat, i)
  }

  /** The last occurrence of `pat` in `s` that starts at or before `hi`. */
  function LastIndexUpTo(s: string, pat: string, hi: int): (r: Option<nat>)
    ensures r.Some? ==> r.value <= hi && OccursAt(s, pat, r.value)
    ensures r.Some? ==> forall j | r.value < j <= hi :: !OccursAt(s, pat, j)
    ensures r.None? ==> forall j | j <= hi :: !OccursAt(s, pat, j)
    decreases hi + 1
  {
    if hi < 0 then None
    else if OccursAt(s, pat, hi) then Some(hi)
    else LastIndexUpTo(s, pat, hi - 1)
  }

  /** The start of the last occurrence of `pat` in `s`, if any. */
  function LastIndex(s: string, pat: string): (r: Option<nat>)
    ensures r.Some? ==> OccursAt(s, pat, r.value) && forall j | r.value < j :: !OccursAt(s, pat, j)
    ensures r.None? <==> !Contains(s, pat)
  {
    LastIndexUpTo(s, pat, |s| - |pat|)
  }

  /** Splits `s` at every newline; the pieces never contain a newline. */
  function Lines(s: string): (r: seq<string>)
    ensures |r| >= 1
    ensures forall i | 0 <= i < |r| :: '\n' !in r[i]
  {
    if |s| == 0 then [""]
    else
      var rest := Lines(s[1..]);
      if s[0] == '\n' then [""] + rest else [[s[0]] + rest[0]] + rest[1..]
  }

  /** Glues lines back together with newlines. */
  function JoinLines(ls: seq<string>): string
    requires |ls| >= 1
  {
    if |ls| == 1 then ls[0] else ls[0] + "\n" + JoinLines(ls[1..])
  }

  /** Splitting then joining gives back the original string. */
  lemma {:induction false} JoinLinesOfLines(s: string)
    ensures JoinLines(Lines(s)) == s
  {
    if |s| > 0 {
      var rest := Lines(s[1..]);
      JoinLinesOfLines(s[1..]);
      if s[0] == '\n' {
        assert Lines(s)[1..] == rest;
        assert s == "\n" + s[1..];
      } else {
        var ls := Lines(s);
        if |rest| == 1 {
          assert ls == [[s[0]] + rest[0]];
        } else {
          assert ls[1..] == rest[1..];
          assert JoinLines(rest) == rest[0] + "\n" + JoinLines(rest[1..]);
        }
      }
    }
  }

  /** Joining newline-free lines then splitting gives back the lines. */
  lemma {:induction false} LinesOfJoinLines(ls: seq<string>)
    requires |ls| >= 1
    requires forall i | 0 <= i < |ls| :: '\n' !in ls[i]
    ensures Lines(JoinLines(ls)) == ls
  {
    if |ls| == 1 {
      SingleLine(ls[0]);
    } else {
      LinesOfJoinLines(ls[1..]);
      LinesOfPrefix(ls[0], JoinLines(ls[1..]));
      assert ls == [ls[0]] + ls[1..];
    }
  }

  /** A newline-free prefix followed by a newline starts the first line. */
  lemma {:induction false} LinesOfPrefix(a: string, b: string)
    requires '\n' !in a
    ensures Lines(a + "\n" + b) == [a] + Lines(b)
  {
    if |a| == 0 {
      assert a + "\n" + b == "\n" + b;
      assert ("\n" + b)[1..] == b;
    } else {
      assert (a + "\n" + b)[1..] == a[1..] + "\n" + b;
      LinesOfPrefix(a[1..], b);
      assert [a[0]] + a[1..] == a;
    }
  }

  /** A string without newlines is a single line. */
  lemma {:induction false} SingleLine(s: string)
    requires '\n' !in s
    ensures Lines(s) == [s]
  {
    if |s| > 0 {
      SingleLine(s[1..]);
      assert [s[0]] + s[1..] == s;
    }
  }

  /** The lines of `ls` that contain `pat`, in order. */
  function LinesWith(ls: seq<string>, pat: string): (r: seq<string>)
    ensures forall i | 0 <= i < |r| :: Contains(r[i], pat) && r[i] in ls
    ensures forall l | l in ls && Contains(l, pat) :: l in r
    ensures |r| <= |ls|
  {
    if |ls| == 0 then []
    else
      var rest := LinesWith(ls[1..], pat);
      assert forall l | l in ls :: l == ls[0] || l in ls[1..];
      if Contains(ls[0], pat) then [ls[0]] + rest else rest
  }

  /** The filter runs line by line: the matching lines of a concatenation are
      those of the first part followed by those of the second, so each line
      that holds the pattern counts once per occurrence, in order. */
  lemma {:induction false} LinesWithConcat(a: seq<string>, b: seq<string>, pat: string)
    ensures LinesWith(a + b, pat) == LinesWith(a, pat) + LinesWith(b, pat)
  {
    if |a| > 0 {
      assert (a + b)[1..] == a[1..] + b;
      LinesWithConcat(a[1..], b, pat);
    } else {
      assert a + b == b;
    }
  }

  // ---------------------------------------------------------------------------
  // Joining
  // ---------------------------------------------------------------------------

  /** The parts separated by single spaces. */
  function JoinSpaced(parts: seq<string>): string {
    if |parts| == 0 then ""
    else if |parts| == 1 then parts[0]
    else parts[0] + " " + JoinSpaced(parts[1..])
  }

  /** The parts that are not the empty string, in order. */
  function NonEmpty(parts: seq<string>): (r: seq<string>)
    ensures forall i | 0 <= i < |r| :: r[i] != "" && r[i] in parts
    ensures forall p | p in parts && p != "" :: p in r
    ensures |r| <= |parts|
  {
    if |parts| == 0 then []
    else if parts[0] == "" then NonEmpty(parts[1..])
    else [parts[0]] + NonEmpty(parts[1..])
  }

  /** Dropping empty parts runs part by part: repeated parts are all kept, in order. */
  lemma {:induction false} NonEmptyConcat(a: seq<string>, b: seq<string>)
    ensures NonEmpty(a + b) == NonEmpty(a) + NonEmpty(b)
  {
    if |a| > 0 {
      assert (a + b)[1..] == a[1..] + b;
      NonEmptyConcat(a[1..], b);
    } else {
      assert a + b == b;
    }
  }
}
