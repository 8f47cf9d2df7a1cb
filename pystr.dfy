/**
 * The Python string operations the bot relies on: `in`, `str.find`,
 * `str.split(sep)`, `sep.join(parts)`, `str.replace(old, new)`,
 * `str.strip()`, `str.strip(chars)`, `str.lower()`, slicing `s[:n]`
 * and formatting a non-negative `int` in decimal.
 * Strings are sequences of Unicode scalar values; the lone surrogates a Python `str` can hold have no counterpart.
 */
module PyStr {
  import opened Wrappers

  // ---------------------------------------------------------------------
  // Searching
  // ---------------------------------------------------------------------

  /** `p` occurs in `s` starting at index `i`. */
  predicate OccursAt(s: string, p: string, i: nat) {
    i + |p| <= |s| && s[i..i + |p|] == p
  }

  /** The first index at or after `i` where `p` occurs in `s`. */
  function FindFrom(s: string, p: string, i: nat): (r: Option<nat>)
    requires i <= |s|
    ensures r.Some? ==> i <= r.value && OccursAt(s, p, r.value)
    ensures r.Some? ==> forall j :: i <= j < r.value ==> !OccursAt(s, p, j)
    ensures r.None? ==> forall j :: i <= j ==> !OccursAt(s, p, j)
    decreases |s| - i
  {
    if i + |p| > |s| then None
    else if s[i..i + |p|] == p then Some(i)
    else FindFrom(s, p, i + 1)
  }

  /** Python's `s.find(p)`, with `None` standing for the result -1. */
  function Find(s: string, p: string): (r: Option<nat>)
    ensures r.Some? ==> OccursAt(s, p, r.value) && forall j :: 0 <= j < r.value ==> !OccursAt(s, p, j)
    ensures r.None? ==> forall j :: 0 <= j ==> !OccursAt(s, p, j)
  {
    FindFrom(s, p, 0)
  }

  /** One mismatching character rules out an occurrence. */
  lemma MismatchAt(s: string, p: string, j: nat, k: nat)
    requires k < |p| && j + k < |s| && s[j + k] != p[k]
    ensures !OccursAt(s, p, j)
  {
    if j + |p| <= |s| {
      assert s[j..j + |p|][k] == s[j + k];
    }
  }

  /** Python's `p in s`. */
  function Contains(s: string, p: string): bool {
    Find(s, p).Some?
  }

  /** `p in s` holds exactly when `p` occurs somewhere in `s`. */
  lemma ContainsIff(s: string, p: string)
    ensures Contains(s, p) <==> exists j :: 0 <= j && OccursAt(s, p, j)
  {
    if Contains(s, p) {
      assert OccursAt(s, p, Find(s, p).value);
    }
  }

  /** The text of `s` before the first occurrence of `p`, or all of `s`. */
  function Before(s: string, p: string): (r: string)
    ensures |r| <= |s| && r == s[..|r|]
  {
    match Find(s, p)
    case None => s
    case Some(i) => s[..i]
  }

  /** An occurrence inside a slice of `s` is an occurrence in `s`. */
  lemma OccursInSlice(s: string, p: string, a: nat, b: nat, j: nat)
    requires a <= b <= |s|
    requires OccursAt(s[a..b], p, j)
    ensures OccursAt(s, p, a + j)
  {
    var t := s[a..b];
    assert forall k :: j <= k < j + |p| ==> t[k] == s[a + k];
    assert t[j..j + |p|] == s[a + j..a + j + |p|];
  }

  /** A slice of a string that does not contain `p` does not contain it either. */
  lemma SliceWithout(s: string, p: string, a: nat, b: nat)
    requires a <= b <= |s|
    requires !Contains(s, p)
    ensures !Contains(s[a..b], p)
  {
    ContainsIff(s[a..b], p);
    if Contains(s[a..b], p) {
      var j :| 0 <= j && OccursAt(s[a..b], p, j);
      OccursInSlice(s, p, a, b, j);
    }
  }

  /** The text before the first occurrence never contains `p`. */
  lemma BeforeWithout(s: string, p: string)
    requires p != ""
    ensures !Contains(Before(s, p), p)
  {
    match Find(s, p)
    case None =>
    case Some(i) =>
      ContainsIff(s[..i], p);
      if Contains(s[..i], p) {
        var j :| 0 <= j && OccursAt(s[..i], p, j);
        OccursInSlice(s, p, 0, i, j);
      }
  }

  // ---------------------------------------------------------------------
  // Splitting and joining
  // ---------------------------------------------------------------------

  /** Python's `sep.join(parts)`. */
  function Join(sep: string, parts: seq<string>): (r: string)
    decreases |parts|
  {
    if |parts| == 0 then ""
    else if |parts| == 1 then parts[0]
    else parts[0] + sep + Join(sep, parts[1..])
  }

  /** A string is the text before, at and after a window `[i, i + n)`. */
  lemma SplitAround(s: string, i: nat, n: nat)
    requires i + n <= |s|
    ensures s == s[..i] + s[i..i + n] + s[i + n..]
  {
    assert s[..i + n] == s[..i] + s[i..i + n];
    assert s == s[..i + n] + s[i + n..];
  }

  /** Joining a piece in front of at least one more. */
  lemma JoinCons(sep: string, a: string, tail: seq<string>)
    requires |tail| >= 1
    ensures Join(sep, [a] + tail) == a + sep + Join(sep, tail)
  {
    assert ([a] + tail)[1..] == tail;
  }

  /**
   * Python's `s.split(sep)` for a non-empty separator: the pieces between
   * the non-overlapping occurrences of `sep`, found from left to right.
   * (Python raises ValueError for an empty separator.)
   */
  function Split(s: string, sep: string): (parts: seq<string>)
    requires sep != ""
    ensures |parts| >= 1
    decreases |s|
  {
    match Find(s, sep)
    case None => [s]
    case Some(i) => [s[..i]] + Split(s[i + |sep|..], sep)
  }

  /** The text after the first occurrence of `sep` (only meaningful when there is one). */
  function After(s: string, sep: string): (r: string)
    ensures Find(s, sep).Some? ==> s == Before(s, sep) + sep + r
  {
    match Find(s, sep)
    case None => ""
    case Some(i) => s[i + |sep|..]
  }

  /** The first piece is the text before the first separator; there is only one piece exactly when there is no separator. */
  lemma SplitFirst(s: string, sep: string)
    requires sep != ""
    ensures Split(s, sep)[0] == Before(s, sep)
    ensures |Split(s, sep)| == 1 <==> !Contains(s, sep)
  {
  }

  /** When `sep` occurs, the pieces after the first are those of the text after it. */
  lemma SplitAfterFirst(s: string, sep: string)
    requires sep != "" && Contains(s, sep)
    ensures Split(s, sep)[1..] == Split(After(s, sep), sep)
    ensures Split(s, sep)[1] == Before(After(s, sep), sep)
  {
    SplitFirst(After(s, sep), sep);
  }

  /** Round trip: joining the pieces with the separator gives back the string. */
  lemma {:induction false} SplitJoin(s: string, sep: string)
    requires sep != ""
    ensures Join(sep, Split(s, sep)) == s
    decreases |s|
  {
    match Find(s, sep)
    case None =>
    case Some(i) =>
      var rest := s[i + |sep|..];
      SplitJoin(rest, sep);
      var tail := Split(rest, sep);
      assert Split(s, sep) == [s[..i]] + tail;
      JoinCons(sep, s[..i], tail);
      SplitAtOccurrence(s, sep, i);
  }

  /** A string is the text before an occurrence, the occurrence, and the text after it. */
  lemma SplitAtOccurrence(s: string, p: string, i: nat)
    requires OccursAt(s, p, i)
    ensures s == s[..i] + p + s[i + |p|..]
  {
    SplitAround(s, i, |p|);
  }

  /** No piece of a split contains the separator. */
  lemma {:induction false} SplitPiecesWithout(s: string, sep: string, k: nat)
    requires sep != ""
    requires k < |Split(s, sep)|
    ensures !Contains(Split(s, sep)[k], sep)
    decreases |s|
  {
    match Find(s, sep)
    case None =>
    case Some(i) =>
      if k == 0 {
        BeforeWithout(s, sep);
      } else {
        SplitPiecesWithout(s[i + |sep|..], sep, k - 1);
      }
  }

  // ---------------------------------------------------------------------
  // Replacing
  // ---------------------------------------------------------------------

  /** Python's `s.replace(pat, repl)` for a non-empty `pat`: every non-overlapping occurrence, left to right. */
  function Replace(s: string, pat: string, repl: string): (r: string)
    requires pat != ""
    ensures !Contains(s, pat) ==> r == s
    decreases |s|
  {
    match Find(s, pat)
    case None => s
    case Some(i) => s[..i] + repl + Replace(s[i + |pat|..], pat, repl)
  }

  /** Replacing is splitting on `pat` and joining with `repl`. */
  lemma {:induction false} ReplaceIsSplitJoin(s: string, pat: string, repl: string)
    requires pat != ""
    ensures Replace(s, pat, repl) == Join(repl, Split(s, pat))
    decreases |s|
  {
    match Find(s, pat)
    case None =>
    case Some(i) =>
      var rest := s[i + |pat|..];
      ReplaceIsSplitJoin(rest, pat, repl);
      var tail := Split(rest, pat);
      assert Split(s, pat) == [s[..i]] + tail;
      JoinCons(repl, s[..i], tail);
  }

  // ---------------------------------------------------------------------
  // Stripping
  // ---------------------------------------------------------------------

  /** The characters for which Python's `str.isspace()` holds; `str.strip()` removes exactly these. */
  const Whitespace: set<char> := {
    '\t', '\n', '\U{B}', '\U{C}', '\r', '\U{1C}', '\U{1D}', '\U{1E}', '\U{1F}', ' ',
    '\U{85}', '\U{A0}', '\U{1680}',
    '\U{2000}', '\U{2001}', '\U{2002}', '\U{2003}', '\U{2004}', '\U{2005}',
    '\U{2006}', '\U{2007}', '\U{2008}', '\U{2009}', '\U{200A}',
    '\U{2028}', '\U{2029}', '\U{202F}', '\U{205F}', '\U{3000}'
  }

  /** The index of the first character at or after `i` that is not in `cs` (`|s|` if there is none). */
  function LeadEnd(s: string, cs: set<char>, i: nat): (r: nat)
    requires i <= |s|
    ensures i <= r <= |s|
    ensures forall k :: i <= k < r ==> s[k] in cs
    ensures r < |s| ==> s[r] !in cs
    decreases |s| - i
  {
    if i < |s| && s[i] in cs then LeadEnd(s, cs, i + 1) else i
  }

  /** The index just after the last character before `j` that is not in `cs` (0 if there is none). */
  function TrailStart(s: string, cs: set<char>, j: nat): (r: nat)
    requires j <= |s|
    ensures r <= j
    ensures forall k :: r <= k < j ==> s[k] in cs
    ensures r > 0 ==> s[r - 1] !in cs
  {
    if j > 0 && s[j - 1] in cs then TrailStart(s, cs, j - 1) else j
  }

  /** Python's `s.lstrip(chars)`: drop the longest prefix made of `cs`. */
  function LStrip(s: string, cs: set<char>): (r: string)
    ensures |r| <= |s| && r == s[|s| - |r|..]
    ensures forall k :: 0 <= k < |s| - |r| ==> s[k] in cs
    ensures r != "" ==> r[0] !in cs
  {
    s[LeadEnd(s, cs, 0)..]
  }

  /** Python's `s.rstrip(chars)`: drop the longest suffix made of `cs`. */
  function RStrip(s: string, cs: set<char>): (r: string)
    ensures |r| <= |s| && r == s[..|r|]
    ensures forall k :: |r| <= k < |s| ==> s[k] in cs
    ensures r != "" ==> r[|r| - 1] !in cs
  {
    s[..TrailStart(s, cs, |s|)]
  }

  /** Python's `s.strip(chars)`. */
  function StripSet(s: string, cs: set<char>): string {
    RStrip(LStrip(s, cs), cs)
  }

  /** Python's `s.strip()`. */
  function Strip(s: string): string {
    StripSet(s, Whitespace)
  }

  /**
   * Stripping keeps one contiguous slice `s[a..a + |r|]` of `s`: everything
   * before and after it is in `cs`, and the slice neither starts nor ends
   * with a character of `cs`.
   */
  lemma StripSlice(s: string, cs: set<char>)
    ensures var r := StripSet(s, cs); var a := |s| - |LStrip(s, cs)|;
      && a + |r| <= |s|
      && r == s[a..a + |r|]
      && (forall k :: 0 <= k < a ==> s[k] in cs)
      && (forall k :: a + |r| <= k < |s| ==> s[k] in cs)
      && (r != "" ==> r[0] !in cs && r[|r| - 1] !in cs)
  {
    var l := LStrip(s, cs);
    var r := RStrip(l, cs);
    var a := |s| - |l|;
    assert l == s[a..];
    assert r == l[..|r|];
    SuffixPrefix(s, a, |r|);
    forall k | a + |r| <= k < |s| ensures s[k] in cs {
      assert s[k] == l[k - a];
    }
  }

  /** A prefix of a suffix is a slice. */
  lemma SuffixPrefix(s: string, a: nat, n: nat)
    requires a + n <= |s|
    ensures s[a..][..n] == s[a..a + n]
  {
  }

  /** What stripping keeps is a slice, so it contains nothing the original lacked. */
  lemma StripWithout(s: string, cs: set<char>, p: string)
    requires !Contains(s, p)
    ensures !Contains(StripSet(s, cs), p)
  {
    StripSlice(s, cs);
    var a := |s| - |LStrip(s, cs)|;
    SliceWithout(s, p, a, a + |StripSet(s, cs)|);
  }

  /** A stripped string has no character of `cs` at either end. */
  lemma StripEnds(s: string, cs: set<char>)
    ensures var r := StripSet(s, cs); r != "" ==> r[0] !in cs && r[|r| - 1] !in cs
  {
    StripSlice(s, cs);
  }

  /** Stripping twice is stripping once. */
  lemma StripIdempotent(s: string, cs: set<char>)
    ensures StripSet(StripSet(s, cs), cs) == StripSet(s, cs)
  {
    var r := StripSet(s, cs);
    StripEnds(s, cs);
    StripOfClean(r, cs);
  }

  /** A string with no character of `cs` at its ends is left unchanged. */
  lemma StripOfClean(s: string, cs: set<char>)
    requires s != "" ==> s[0] !in cs && s[|s| - 1] !in cs
    ensures StripSet(s, cs) == s
  {
  }

  // ---------------------------------------------------------------------
  // Slicing, case and numbers
  // ---------------------------------------------------------------------

  /** Python's `s[:n]` for `n >= 0`. */
  function Take(s: string, n: nat): (r: string)
    ensures |r| == if |s| <= n then |s| else n
    ensures r == s[..|r|]
  {
    if |s| <= n then s else s[..n]
  }

  /** Lower-casing of one character: ASCII capitals only. */
  function LowerChar(c: char): char {
    if 'A' <= c <= 'Z' then (c as int - 'A' as int + 'a' as int) as char else c
  }

  /** Python's `s.lower()`, restricted to ASCII capitals (see README). */
  function Lower(s: string): (r: string)
    ensures |r| == |s|
    ensures forall k :: 0 <= k < |s| ==> r[k] == LowerChar(s[k])
    decreases |s|
  {
    if s == "" then "" else [LowerChar(s[0])] + Lower(s[1..])
  }

  predicate IsDigit(c: char) {
    '0' <= c <= '9'
  }

  function DigitValue(c: char): nat
    requires IsDigit(c)
  {
    c as int - '0' as int
  }

  function DigitChar(d: nat): (c: char)
    requires d < 10
    ensures IsDigit(c)
  {
    ('0' as int + d) as char
  }

  /** The number a string of decimal digits denotes. */
  function DecimalValue(s: string): nat
    requires forall k :: 0 <= k < |s| ==> IsDigit(s[k])
    decreases |s|
  {
    if s == "" then 0
    else 10 * DecimalValue(s[..|s| - 1]) + DigitValue(s[|s| - 1])
  }

  /** Python's `str(n)` (or `f"{n}"`) for a non-negative integer. */
  function NatToString(n: nat): (r: string)
    ensures r != ""
    ensures forall k :: 0 <= k < |r| ==> IsDigit(r[k])
    ensures n > 0 ==> r[0] != '0'
    decreases n
  {
    if n < 10 then [DigitChar(n)] else NatToString(n / 10) + [DigitChar(n % 10)]
  }

  /** Round trip: the decimal text of `n` denotes `n`. */
  lemma {:induction false} NatToStringValue(n: nat)
    ensures DecimalValue(NatToString(n)) == n
    decreases n
  {
    if n >= 10 {
      NatToStringValue(n / 10);
      var s := NatToString(n);
      assert s[..|s| - 1] == NatToString(n / 10);
    }
  }
}
