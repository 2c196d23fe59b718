/**
 * Character and string helpers that stand in for the JavaScript string
 * built-ins the components call: `toLowerCase`, `trim`, `includes` and the
 * regular-expression classes `[A-Z]` and `\w`.
 */
module Text {

  /** `[A-Z]` in a regular expression without the `i` or `u` flag. */
  predicate IsUpper(c: char) {
    'A' <= c <= 'Z'
  }

  /** `\w`: `[A-Za-z0-9_]`. */
  predicate IsWordChar(c: char) {
    'a' <= c <= 'z' || 'A' <= c <= 'Z' || '0' <= c <= '9' || c == '_'
  }

  /** `toLowerCase` on one character, restricted to ASCII letters. */
  function LowerChar(c: char): (r: char)
    ensures IsUpper(c) ==> r as int == c as int + 32
    ensures !IsUpper(c) ==> r == c
    ensures !IsUpper(r)
  {
    if IsUpper(c) then (c as int + 32) as char else c
  }

  /** `toLowerCase` on a string, restricted to ASCII letters. */
  function Lower(s: string): (r: string)
    ensures |r| == |s|
    ensures forall i | 0 <= i < |s| :: r[i] == LowerChar(s[i])
  {
    seq(|s|, i requires 0 <= i < |s| => LowerChar(s[i]))
  }

  lemma LowerIdempotent(s: string)
    ensures Lower(Lower(s)) == Lower(s)
  {
    assert forall i | 0 <= i < |s| :: LowerChar(LowerChar(s[i])) == LowerChar(s[i]);
  }

  /**
   * The characters `String.prototype.trim` removes: ECMAScript WhiteSpace
   * (TAB, VT, FF, ZWNBSP and the Unicode space separators) and
   * LineTerminator (LF, CR, LS, PS).
   */
  predicate IsWhitespace(c: char) {
    c == '\t' || c == '\n' || c == '\U{B}' || c == '\U{C}' || c == '\r' || c == ' '
    || c == '\U{A0}' || c == '\U{1680}' || ('\U{2000}' <= c <= '\U{200A}')
    || c == '\U{2028}' || c == '\U{2029}' || c == '\U{202F}' || c == '\U{205F}'
    || c == '\U{3000}' || c == '\U{FEFF}'
  }

  lemma LowerKeepsWhitespace(c: char)
    ensures IsWhitespace(LowerChar(c)) <==> IsWhitespace(c)
  {
  }

  /** Every character of `s` is whitespace (the empty string included). */
  predicate IsBlank(s: string) {
    forall i | 0 <= i < |s| :: IsWhitespace(s[i])
  }

  /** Lower-casing neither makes a string blank nor stops it being blank. */
  lemma LowerKeepsBlank(s: string)
    ensures IsBlank(Lower(s)) <==> IsBlank(s)
  {
    forall i | 0 <= i < |s| ensures IsWhitespace(Lower(s)[i]) <==> IsWhitespace(s[i]) {
      LowerKeepsWhitespace(s[i]);
    }
  }

  function TrimStart(s: string): (r: string)
    ensures |r| <= |s| && r == s[|s| - |r|..]
    ensures r == [] || !IsWhitespace(r[0])
    ensures IsBlank(s[..|s| - |r|])
  {
    if s != [] && IsWhitespace(s[0]) then TrimStart(s[1..]) else s
  }

  function TrimEnd(s: string): (r: string)
    ensures |r| <= |s| && r == s[..|r|]
    ensures r == [] || !IsWhitespace(r[|r| - 1])
    ensures IsBlank(s[|r|..])
  {
    if s != [] && IsWhitespace(s[|s| - 1]) then TrimEnd(s[..|s| - 1]) else s
  }

  /** `String.prototype.trim`: drop leading and trailing whitespace. */
  function Trim(s: string): (r: string)
    ensures r == [] || (!IsWhitespace(r[0]) && !IsWhitespace(r[|r| - 1]))
  {
    TrimEnd(TrimStart(s))
  }

  /** `e` is the piece of `s` starting at `a`, and everything around it is whitespace. */
  predicate BlankAround(s: string, a: int, e: string) {
    0 <= a && a + |e| <= |s| && e == s[a..a + |e|] && IsBlank(s[..a]) && IsBlank(s[a + |e|..])
  }

  /**
   * Cutting a blank prefix off `s` to get `t`, then a blank suffix off `t` to
   * get `e`, leaves `e` as the piece of `s` between two blank ends.
   */
  lemma BlankEndsCut(s: string, t: string, e: string)
    requires |t| <= |s| && t == s[|s| - |t|..] && IsBlank(s[..|s| - |t|])
    requires |e| <= |t| && e == t[..|e|] && IsBlank(t[|e|..])
    ensures BlankAround(s, |s| - |t|, e)
  {
    var a := |s| - |t|;
    assert forall i | 0 <= i < |e| :: e[i] == t[i] == s[a + i];
    assert forall i | a + |e| <= i < |s| :: s[i] == t[i - a] == t[|e|..][i - a - |e|];
  }

  /** The trimmed string is a contiguous piece of the input with only whitespace cut off. */
  lemma TrimIsInfix(s: string)
    ensures BlankAround(s, |s| - |TrimStart(s)|, Trim(s))
  {
    BlankEndsCut(s, TrimStart(s), Trim(s));
  }

  /** `!s.trim()` holds exactly when every character of `s` is whitespace. */
  lemma TrimEmptyIffBlank(s: string)
    ensures Trim(s) == [] <==> IsBlank(s)
  {
  }

  /** `String.prototype.includes`: `needle` occurs somewhere in `haystack`. */
  predicate Contains(haystack: string, needle: string) {
    exists i | 0 <= i <= |haystack| - |needle| :: OccursAt(haystack, needle, i)
  }

  /** `needle` occurs in `haystack` starting at index `i`. */
  predicate OccursAt(haystack: string, needle: string, i: nat) {
    i + |needle| <= |haystack| && haystack[i..i + |needle|] == needle
  }

  lemma ContainsEmpty(haystack: string)
    ensures Contains(haystack, "")
  {
    assert OccursAt(haystack, "", 0);
  }

  /** A single-character needle is contained exactly when that character occurs. */
  lemma ContainsChar(haystack: string, c: char)
    ensures Contains(haystack, [c]) <==> c in haystack
  {
    if c in haystack {
      var i :| 0 <= i < |haystack| && haystack[i] == c;
      assert OccursAt(haystack, [c], i);
    }
    if Contains(haystack, [c]) {
      var i :| 0 <= i <= |haystack| - 1 && OccursAt(haystack, [c], i);
      assert haystack[i] == haystack[i..i + 1][0] == c;
    }
  }
}
