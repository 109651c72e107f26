/** The character classes and string operations of Python that the scraper
    and the database code rely on: `str.isspace` (also `\s` in a regex and
    what `str.strip` removes), `\d`, case-insensitive regex matching,
    `str.title`, `str.strip` and `str.startswith`. */
module Strings {

  /** Python's `str.isspace()`; the same set is matched by `\s` in a `str`
      regex and removed by `str.strip()`. */
  predicate IsSpace(c: char) {
    ('\t' <= c <= '\r') || ('\U{1C}' <= c <= ' ') || c == '\U{85}' || c == '\U{A0}'
    || c == '\U{1680}' || ('\U{2000}' <= c <= '\U{200A}') || c == '\U{2028}'
    || c == '\U{2029}' || c == '\U{202F}' || c == '\U{205F}' || c == '\U{3000}'
  }

  /** `\d`, restricted to the ASCII digits. */
  predicate IsDigit(c: char) {
    '0' <= c <= '9'
  }

  predicate AllDigits(s: string) {
    forall k :: 0 <= k < |s| ==> IsDigit(s[k])
  }

  predicate IsAsciiUpper(c: char) {
    'A' <= c <= 'Z'
  }

  predicate IsAsciiLower(c: char) {
    'a' <= c <= 'z'
  }

  predicate IsAsciiLetter(c: char) {
    IsAsciiUpper(c) || IsAsciiLower(c)
  }

  function ToLower(c: char): (r: char)
    ensures IsAsciiLetter(c) ==> IsAsciiLower(r)
    ensures !IsAsciiLetter(c) ==> r == c
  {
    if IsAsciiUpper(c) then (c as int + 32) as char else c
  }

  function ToUpper(c: char): (r: char)
    ensures IsAsciiLetter(c) ==> IsAsciiUpper(r)
    ensures !IsAsciiLetter(c) ==> r == c
  {
    if IsAsciiLower(c) then (c as int - 32) as char else c
  }

  /** Does text character `c` match pattern character `p` under Python's
      `re.IGNORECASE`?  An ASCII letter matches both of its cases and, for
      `i`, `s` and `k`, the non-ASCII letters that `re` folds onto them
      (U+0130, U+0131, U+017F, U+212A). */
  predicate ReCharEq(c: char, p: char) {
    if IsAsciiLetter(p) then
      ToLower(c) == ToLower(p)
      || (ToLower(p) == 'i' && (c == '\U{130}' || c == '\U{131}'))
      || (ToLower(p) == 's' && c == '\U{17F}')
      || (ToLower(p) == 'k' && c == '\U{212A}')
    else
      c == p
  }

  /** The pattern `w` matches case-insensitively at position `i` of `s`. */
  predicate MatchAt(s: string, i: int, w: string) {
    0 <= i && i + |w| <= |s| && forall k :: 0 <= k < |w| ==> ReCharEq(s[i + k], w[k])
  }

  /** `re.search(w, s, re.I)` for a literal pattern `w`. */
  predicate ContainsCI(s: string, w: string) {
    exists i :: 0 <= i <= |s| - |w| && MatchAt(s, i, w)
  }

  /** The pattern `w` occurs literally (case-sensitively) at position `i`. */
  predicate LiteralAt(s: string, i: int, w: string) {
    0 <= i && i + |w| <= |s| && s[i..i + |w|] == w
  }

  predicate StartsWith(s: string, prefix: string) {
    LiteralAt(s, 0, prefix)
  }

  /** `str.title()` of a string whose preceding character was (`prev`) or
      was not a cased letter. */
  function TitleFrom(s: string, prev: bool): (r: string)
    ensures |r| == |s|
    ensures forall i :: 0 <= i < |s| ==>
      r[i] == (if (if i == 0 then prev else IsAsciiLetter(s[i - 1])) then ToLower(s[i]) else ToUpper(s[i]))
  {
    if s == [] then []
    else [if prev then ToLower(s[0]) else ToUpper(s[0])] + TitleFrom(s[1..], IsAsciiLetter(s[0]))
  }

  /** Python's `str.title()`: every letter that follows a letter is lowered,
      every other letter is raised.  Only ASCII letters count as cased. */
  function Title(s: string): (r: string)
    ensures |r| == |s|
    ensures forall i :: 0 <= i < |s| ==>
      r[i] == (if i > 0 && IsAsciiLetter(s[i - 1]) then ToLower(s[i]) else ToUpper(s[i]))
  {
    TitleFrom(s, false)
  }

  function DropLeadingSpace(s: string): (r: string)
    ensures |r| <= |s| && r == s[|s| - |r|..]
    ensures r == [] || !IsSpace(r[0])
    ensures forall k :: 0 <= k < |s| - |r| ==> IsSpace(s[k])
  {
    if s != [] && IsSpace(s[0]) then DropLeadingSpace(s[1..]) else s
  }

  function DropTrailingSpace(s: string): (r: string)
    ensures |r| <= |s| && r == s[..|r|]
    ensures r == [] || !IsSpace(r[|r| - 1])
    ensures forall k :: |r| <= k < |s| ==> IsSpace(s[k])
  {
    if s != [] && IsSpace(s[|s| - 1]) then DropTrailingSpace(s[..|s| - 1]) else s
  }

  /** `r` sits at offset `a` of `s` and everything around it is whitespace. */
  predicate StrippedAt(s: string, r: string, a: int) {
    0 <= a <= |s| - |r| && s[a..a + |r|] == r
    && (forall k :: 0 <= k < a ==> IsSpace(s[k]))
    && (forall k :: a + |r| <= k < |s| ==> IsSpace(s[k]))
  }

  /** Python's `str.strip()`. */
  function Strip(s: string): (r: string)
    ensures r == [] || (!IsSpace(r[0]) && !IsSpace(r[|r| - 1]))
    ensures exists a :: StrippedAt(s, r, a)
  {
    var t := DropLeadingSpace(s);
    var r := DropTrailingSpace(t);
    StrippedPieces(s, t, r);
    r
  }

  /** A trailing-space-free prefix of a leading-space-free suffix is the
      text between the spaces. */
  lemma StrippedPieces(s: string, t: string, r: string)
    requires |t| <= |s| && t == s[|s| - |t|..] && forall k :: 0 <= k < |s| - |t| ==> IsSpace(s[k])
    requires t == [] || !IsSpace(t[0])
    requires |r| <= |t| && r == t[..|r|] && forall k :: |r| <= k < |t| ==> IsSpace(t[k])
    requires r == [] || !IsSpace(r[|r| - 1])
    ensures r == [] || (!IsSpace(r[0]) && !IsSpace(r[|r| - 1]))
    ensures exists a :: StrippedAt(s, r, a)
  {
    var a := |s| - |t|;
    assert r == [] || r[0] == t[0];
    assert s[a..a + |r|] == r;
    forall k | a + |r| <= k < |s| ensures IsSpace(s[k]) {
      assert s[k] == t[k - a];
    }
    assert StrippedAt(s, r, a);
  }
}
