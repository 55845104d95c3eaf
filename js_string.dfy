/**
 * The three JavaScript string operations the catalog filter relies on:
 * `String.prototype.trim`, `String.prototype.toLowerCase` and
 * `String.prototype.includes`. A string is a sequence of characters.
 */
module JsString {

  /** The characters `trim` removes: ECMAScript's WhiteSpace and LineTerminator
      productions (tab, line feed, vertical tab, form feed, carriage return,
      the byte-order mark, the line and paragraph separators and every
      character of Unicode category Zs). */
  predicate IsWhiteSpace(c: char) {
    c in {'\t', '\n', '\U{000B}', '\U{000C}', '\r', ' ', '\U{00A0}', '\U{1680}',
          '\U{2000}', '\U{2001}', '\U{2002}', '\U{2003}', '\U{2004}', '\U{2005}',
          '\U{2006}', '\U{2007}', '\U{2008}', '\U{2009}', '\U{200A}',
          '\U{2028}', '\U{2029}', '\U{202F}', '\U{205F}', '\U{3000}', '\U{FEFF}'}
  }

  /** Drops the leading white space: the result is the longest suffix of `s`
      that does not start with white space. */
  function TrimStart(s: string): (r: string)
    ensures |r| <= |s| && r == s[|s| - |r|..]
    ensures r == [] || !IsWhiteSpace(r[0])
    ensures forall i :: 0 <= i < |s| - |r| ==> IsWhiteSpace(s[i])
  {
    if |s| > 0 && IsWhiteSpace(s[0]) then TrimStart(s[1..]) else s
  }

  /** Drops the trailing white space: the result is the longest prefix of `s`
      that does not end with white space. */
  function TrimEnd(s: string): (r: string)
    ensures |r| <= |s| && r == s[..|r|]
    ensures r == [] || !IsWhiteSpace(r[|r| - 1])
    ensures forall i :: |r| <= i < |s| ==> IsWhiteSpace(s[i])
  {
    if |s| > 0 && IsWhiteSpace(s[|s| - 1]) then TrimEnd(s[..|s| - 1]) else s
  }

  /** `s.trim()`. */
  function Trim(s: string): string {
    TrimEnd(TrimStart(s))
  }

  /** `s.trim() === ""`. */
  predicate IsBlank(s: string) {
    Trim(s) == ""
  }

  /** A string trims to nothing exactly when every character of it is white space. */
  lemma BlankIffAllWhiteSpace(s: string)
    ensures IsBlank(s) <==> forall i :: 0 <= i < |s| ==> IsWhiteSpace(s[i])
  {
    var t := TrimStart(s);
    var k := |s| - |t|;
    assert forall i :: k <= i < |s| ==> s[i] == t[i - k];
  }

  /** `toLowerCase` restricted to ASCII: 'A'..'Z' become 'a'..'z', every other
      character is unchanged. */
  function LowerChar(c: char): char {
    if 'A' <= c <= 'Z' then (c as int + 32) as char else c
  }

  /** `s.toLowerCase()` with the ASCII case mapping, character by character. */
  function ToLower(s: string): (r: string)
    ensures |r| == |s|
    ensures forall i :: 0 <= i < |s| ==> r[i] == LowerChar(s[i])
  {
    if s == [] then [] else [LowerChar(s[0])] + ToLower(s[1..])
  }

  /** `t` is the lowering of `s` when it agrees with it character by character. */
  lemma LowerPointwise(s: string, t: string)
    requires |s| == |t| && forall i :: 0 <= i < |s| ==> LowerChar(s[i]) == t[i]
    ensures ToLower(s) == t
  {
  }

  /** Lowering never turns white space into something else or back. */
  lemma LowerCharKeepsWhiteSpace(c: char)
    ensures IsWhiteSpace(LowerChar(c)) <==> IsWhiteSpace(c)
  {
  }

  /** Two terms that lower to the same string are blank together. */
  lemma {:induction false} SameLoweringSameBlankness(s: string, t: string)
    requires ToLower(s) == ToLower(t)
    ensures IsBlank(s) <==> IsBlank(t)
  {
    BlankIffAllWhiteSpace(s);
    BlankIffAllWhiteSpace(t);
    forall i | 0 <= i < |s| ensures IsWhiteSpace(s[i]) <==> IsWhiteSpace(t[i]) {
      LowerCharKeepsWhiteSpace(s[i]);
      LowerCharKeepsWhiteSpace(t[i]);
      assert ToLower(s)[i] == ToLower(t)[i];
    }
  }

  /** Lowering a prefix gives a prefix of the lowered string. */
  lemma ToLowerPrefix(s: string, t: string)
    requires s <= t
    ensures ToLower(s) <= ToLower(t)
  {
  }

  /** `needle` occurs in `hay` starting at index `i`. */
  predicate OccursAt(hay: string, needle: string, i: int) {
    0 <= i && i + |needle| <= |hay| && hay[i..i + |needle|] == needle
  }

  /** `hay.includes(needle)`: a substring test, true of the empty needle. */
  predicate Includes(hay: string, needle: string) {
    exists i | 0 <= i <= |hay| - |needle| :: OccursAt(hay, needle, i)
  }

  /** A string that includes `b` includes every prefix of `b`. */
  lemma IncludesPrefix(hay: string, a: string, b: string)
    requires a <= b && Includes(hay, b)
    ensures Includes(hay, a)
  {
    var i :| 0 <= i <= |hay| - |b| && OccursAt(hay, b, i);
    assert hay[i..i + |a|] == hay[i..i + |b|][..|a|];
    assert OccursAt(hay, a, i);
  }
}
