/**
 * The string primitives the core relies on: `String.prototype.trim`,
 * `toLowerCase`, `includes` and `split` with a one-character separator.
 * Strings are sequences of characters. A character here is a Unicode
 * scalar value, whereas a JavaScript string is a sequence of UTF-16 code
 * units: a character outside the Basic Multilingual Plane counts as one
 * character here and two code units there, and a lone surrogate has no
 * representation.
 */
module Text {

  /** The characters `trim` removes: ECMAScript WhiteSpace and LineTerminator. */
  predicate IsWhitespace(c: char) {
    || c == ' ' || c == '\t' || c == '\n' || c == '\r'
    || c == '\U{000B}' || c == '\U{000C}' || c == '\U{00A0}' || c == '\U{FEFF}'
    || c == '\U{1680}' || ('\U{2000}' <= c <= '\U{200A}')
    || c == '\U{2028}' || c == '\U{2029}' || c == '\U{202F}' || c == '\U{205F}' || c == '\U{3000}'
  }

  predicate AllWhitespace(s: string) {
    forall k :: 0 <= k < |s| ==> IsWhitespace(s[k])
  }

  /** The length of the leading whitespace run of `s`. */
  function LeadingWhitespace(s: string): (n: nat)
    ensures n <= |s|
    ensures forall k :: 0 <= k < n ==> IsWhitespace(s[k])
    ensures n < |s| ==> !IsWhitespace(s[n])
  {
    if s != [] && IsWhitespace(s[0]) then 1 + LeadingWhitespace(s[1..]) else 0
  }

  /** The length of `s` without its trailing whitespace run. */
  function WithoutTrailingWhitespace(s: string): (n: nat)
    ensures n <= |s|
    ensures forall k :: n <= k < |s| ==> IsWhitespace(s[k])
    ensures 0 < n ==> !IsWhitespace(s[n - 1])
  {
    if s != [] && IsWhitespace(s[|s| - 1]) then WithoutTrailingWhitespace(s[..|s| - 1]) else |s|
  }

  /** `trimStart`: drops the leading whitespace, leaving a suffix of `s`. */
  function TrimStart(s: string): (r: string)
    ensures |r| <= |s| && r == s[|s| - |r|..]
    ensures forall k :: 0 <= k < |s| - |r| ==> IsWhitespace(s[k])
    ensures r != [] ==> !IsWhitespace(r[0])
  {
    s[LeadingWhitespace(s)..]
  }

  /** `trimEnd`: drops the trailing whitespace, leaving a prefix of `s`. */
  function TrimEnd(s: string): (r: string)
    ensures |r| <= |s| && r == s[..|r|]
    ensures forall k :: |r| <= k < |s| ==> IsWhitespace(s[k])
    ensures r != [] ==> !IsWhitespace(r[|r| - 1])
  {
    s[..WithoutTrailingWhitespace(s)]
  }

  /** `String.prototype.trim`. */
  function Trim(s: string): string {
    TrimEnd(TrimStart(s))
  }

  /**
   * What `trim` returns: the infix `s[i..j]` left after removing the
   * whitespace prefix `s[..i]` and the whitespace suffix `s[j..]`; it
   * neither starts nor ends with whitespace.
   */
  lemma TrimIsInnerInfix(s: string) returns (i: nat, j: nat)
    ensures i <= j <= |s| && Trim(s) == s[i..j]
    ensures AllWhitespace(s[..i]) && AllWhitespace(s[j..])
    ensures IsTrimmed(Trim(s))
  {
    var t := TrimStart(s);
    i := |s| - |t|;
    j := i + |TrimEnd(t)|;
    assert Trim(s) == s[i..j];
    forall k | 0 <= k < |s[j..]| ensures IsWhitespace(s[j..][k]) {
      assert s[j..][k] == t[|TrimEnd(t)| + k];
    }
    if Trim(s) != [] {
      assert Trim(s)[0] == t[0];
    }
  }

  /** Neither starts nor ends with whitespace. */
  predicate IsTrimmed(s: string) {
    s == [] || (!IsWhitespace(s[0]) && !IsWhitespace(s[|s| - 1]))
  }

  /** `trim` leaves a string without outer whitespace unchanged. */
  lemma TrimFixesTrimmed(s: string)
    requires IsTrimmed(s)
    ensures Trim(s) == s
  {
    if s != [] {
      assert LeadingWhitespace(s) == 0;
      assert TrimStart(s) == s;
      assert WithoutTrailingWhitespace(s) == |s|;
    }
  }

  /** Trimming removes no character other than whitespace, so a character absent from the input is absent from the output. */
  lemma TrimKeepsAbsent(s: string, c: char)
    requires c !in s
    ensures c !in Trim(s)
    ensures IsTrimmed(Trim(s))
  {
    var t := TrimStart(s);
    assert forall x :: x in t ==> x in s;
    assert forall x :: x in TrimEnd(t) ==> x in t;
    if Trim(s) != [] {
      assert Trim(s)[0] == t[0];
    }
  }

  /** `!s.trim()`: the string is empty after trimming. */
  predicate IsBlank(s: string) {
    Trim(s) == ""
  }

  /** A string is blank exactly when every character in it is whitespace. */
  lemma BlankIffAllWhitespace(s: string)
    ensures IsBlank(s) <==> AllWhitespace(s)
  {
    var t := TrimStart(s);
    if AllWhitespace(s) {
      assert AllWhitespace(t);
    } else {
      var k :| 0 <= k < |s| && !IsWhitespace(s[k]);
      forall m | 0 <= m < |s| - |t| ensures IsWhitespace(s[m]) {
        assert s[m] == s[..|s| - |t|][m];
      }
      assert t != [] && !IsWhitespace(t[0]);
      var e := |TrimEnd(t)|;
      forall m | e <= m < |t| ensures IsWhitespace(t[m]) {
        assert t[m] == t[e..][m - e];
      }
    }
  }

  /** `toLowerCase` on one character; only the ASCII letters are mapped. */
  function LowerChar(c: char): (r: char)
    ensures 'A' <= c <= 'Z' ==> r != c
    ensures !('A' <= r <= 'Z')
  {
    if 'A' <= c <= 'Z' then (c as int + 32) as char else c
  }

  /** `toLowerCase` on a string, character by character. */
  function Lower(s: string): (r: string)
    ensures |r| == |s|
    ensures forall k :: 0 <= k < |s| ==> r[k] == LowerChar(s[k])
  {
    if s == [] then [] else [LowerChar(s[0])] + Lower(s[1..])
  }

  /** Lower-casing commutes with taking a slice. */
  lemma LowerSlice(s: string, i: int, j: int)
    requires 0 <= i <= j <= |s|
    ensures Lower(s[i..j]) == Lower(s)[i..j]
  {
    forall k | 0 <= k < j - i ensures Lower(s[i..j])[k] == Lower(s)[i..j][k] {
      assert s[i..j][k] == s[i + k];
    }
  }

  /** `s.startsWith(p)`. */
  predicate StartsWith(s: string, p: string) {
    |p| <= |s| && s[..|p|] == p
  }

  /** `haystack.includes(needle)`, by scanning start positions left to right. */
  predicate Contains(haystack: string, needle: string)
    decreases |haystack|
  {
    StartsWith(haystack, needle) || (haystack != [] && Contains(haystack[1..], needle))
  }

  /** Where `includes` holds, the needle occurs at some position. */
  lemma {:induction false} OccurrenceOf(haystack: string, needle: string) returns (i: nat)
    requires Contains(haystack, needle)
    ensures i + |needle| <= |haystack| && haystack[i..i + |needle|] == needle
    decreases |haystack|
  {
    if StartsWith(haystack, needle) {
      i := 0;
    } else {
      var j := OccurrenceOf(haystack[1..], needle);
      assert haystack[1..][j..j + |needle|] == haystack[j + 1..j + 1 + |needle|];
      i := j + 1;
    }
  }

  /** An occurrence at any position makes `includes` hold. */
  lemma {:induction false} ContainedAt(haystack: string, needle: string, i: nat)
    requires i + |needle| <= |haystack| && haystack[i..i + |needle|] == needle
    ensures Contains(haystack, needle)
    decreases i
  {
    if i == 0 {
      assert StartsWith(haystack, needle);
    } else {
      assert haystack[1..][i - 1..i - 1 + |needle|] == haystack[i..i + |needle|];
      ContainedAt(haystack[1..], needle, i - 1);
    }
  }

  /**
   * Case-insensitive matching, as the search does it, is implied by an exact
   * occurrence: a literal substring is always found.
   */
  lemma ExactImpliesCaseInsensitive(haystack: string, needle: string)
    requires Contains(haystack, needle)
    ensures Contains(Lower(haystack), Lower(needle))
  {
    var i := OccurrenceOf(haystack, needle);
    LowerSlice(haystack, i, i + |needle|);
    ContainedAt(Lower(haystack), Lower(needle), i);
  }

  /** The number of occurrences of `c` in `s`. */
  function Count(s: string, c: char): nat {
    if s == [] then 0 else (if s[0] == c then 1 else 0) + Count(s[1..], c)
  }

  /** `pieces.join(sep)`. */
  function Join(pieces: seq<string>, sep: char): string {
    if |pieces| == 0 then ""
    else if |pieces| == 1 then pieces[0]
    else pieces[0] + [sep] + Join(pieces[1..], sep)
  }

  /**
   * `s.split(sep)` for a one-character separator: the pieces between
   * separators, empty ones included; the empty string splits into `[""]`.
   */
  function Split(s: string, sep: char): (r: seq<string>)
    ensures |r| == Count(s, sep) + 1
    ensures forall k :: 0 <= k < |r| ==> sep !in r[k]
    ensures Join(r, sep) == s
  {
    if s == [] then [""]
    else
      var rest := Split(s[1..], sep);
      if s[0] == sep then [""] + rest
      else [[s[0]] + rest[0]] + rest[1..]
  }

  /** Splitting a join of separator-free pieces gives the pieces back. */
  lemma {:induction false} SplitJoin(pieces: seq<string>, sep: char)
    requires |pieces| >= 1
    requires forall k :: 0 <= k < |pieces| ==> sep !in pieces[k]
    ensures Split(Join(pieces, sep), sep) == pieces
    decreases |pieces|, |pieces[0]|
  {
    if pieces[0] == [] {
      if |pieces| > 1 {
        assert Join(pieces, sep) == [sep] + Join(pieces[1..], sep);
        assert Join(pieces, sep)[1..] == Join(pieces[1..], sep);
        SplitJoin(pieces[1..], sep);
      }
    } else {
      var head := pieces[0];
      var shorter := [head[1..]] + pieces[1..];
      assert shorter[1..] == pieces[1..];
      assert forall k :: 0 <= k < |shorter| ==> sep !in shorter[k] by {
        forall k | 0 <= k < |shorter| ensures sep !in shorter[k] {
          if k == 0 { assert forall c :: c in head[1..] ==> c in head; }
        }
      }
      SplitJoin(shorter, sep);
      assert Join(pieces, sep) == [head[0]] + Join(shorter, sep);
      assert Join(pieces, sep)[1..] == Join(shorter, sep);
      assert head[0] != sep by { assert head[0] in head; }
      assert [head[0]] + head[1..] == head;
    }
  }
}
