/**
 The whitespace notion shared by `String.prototype.trim` and the regular
 expression class `\s`: both are defined by the WhiteSpace and LineTerminator
 productions (sections 12.2 and 12.3 of ECMA-262). The form uses trimming only
 as a test ("is this field blank?"), never to rewrite a value.
 */
module Text {

  /** The code points of WhiteSpace, listed one by one: TAB, VT, FF, ZWNBSP
      and the Unicode category Zs (USP). */
  const WhiteSpace: set<char> := {
    '\U{0009}', '\U{000B}', '\U{000C}', '\U{FEFF}',
    '\U{0020}', '\U{00A0}', '\U{1680}',
    '\U{2000}', '\U{2001}', '\U{2002}', '\U{2003}', '\U{2004}', '\U{2005}',
    '\U{2006}', '\U{2007}', '\U{2008}', '\U{2009}', '\U{200A}',
    '\U{202F}', '\U{205F}', '\U{3000}'
  }

  /** The code points of LineTerminator: LF, CR, LS and PS. */
  const LineTerminators: set<char> := {'\U{000A}', '\U{000D}', '\U{2028}', '\U{2029}'}

  /** WhiteSpace or LineTerminator, the characters `\s` matches and `trim`
      strips. Neither literal of the email pattern is one of them. */
  predicate IsWs(c: char): (b: bool)
    ensures b ==> c != '@' && c != '.'
  {
    // WhiteSpace: TAB, VT, FF, ZWNBSP
    || c == '\U{0009}' || c == '\U{000B}' || c == '\U{000C}' || c == '\U{FEFF}'
    // WhiteSpace: USP (category Zs)
    || c == '\U{0020}' || c == '\U{00A0}' || c == '\U{1680}'
    || ('\U{2000}' <= c <= '\U{200A}')
    || c == '\U{202F}' || c == '\U{205F}' || c == '\U{3000}'
    // LineTerminator: LF, CR, LS, PS
    || c == '\U{000A}' || c == '\U{000D}' || c == '\U{2028}' || c == '\U{2029}'
  }

  /** `IsWs` is exactly membership in the two tables of code points. */
  lemma IsWsMatchesTables(c: char)
    ensures IsWs(c) <==> c in WhiteSpace || c in LineTerminators
  {
  }

  /** Every character is whitespace (the empty string included). */
  predicate IsBlank(s: string) {
    forall i :: 0 <= i < |s| ==> IsWs(s[i])
  }

  /** No character is whitespace. */
  predicate NoWs(s: string) {
    forall i :: 0 <= i < |s| ==> !IsWs(s[i])
  }

  /** The number of whitespace characters `s` starts with: the longest blank
      prefix. */
  function LeadingWs(s: string): (n: nat)
    ensures n <= |s| && IsBlank(s[..n])
    ensures n == |s| || !IsWs(s[n])
  {
    if |s| > 0 && IsWs(s[0]) then
      var m := LeadingWs(s[1..]);
      assert s[..m + 1] == [s[0]] + s[1..][..m];
      m + 1
    else 0
  }

  /** The number of whitespace characters `s` ends with: the longest blank
      suffix. */
  function TrailingWs(s: string): (n: nat)
    ensures n <= |s| && IsBlank(s[|s| - n..])
    ensures n == |s| || !IsWs(s[|s| - n - 1])
  {
    if |s| > 0 && IsWs(s[|s| - 1]) then
      var t := s[..|s| - 1];
      var m := TrailingWs(t);
      assert s[|s| - (m + 1)..] == t[|t| - m..] + [s[|s| - 1]];
      m + 1
    else 0
  }

  /** `String.prototype.trim`: the text with whitespace removed at both ends.
      It is the part of the text between two blank margins; it is empty
      exactly when the text is blank, it starts and ends with a
      non-whitespace character otherwise, and it leaves text without any
      whitespace alone. */
  function Trim(s: string): (r: string)
    ensures |r| <= |s|
    ensures var a := LeadingWs(s);
              a + |r| <= |s| && r == s[a..a + |r|] && IsBlank(s[..a]) && IsBlank(s[a + |r|..])
    ensures r == [] <==> IsBlank(s)
    ensures r == [] || (!IsWs(r[0]) && !IsWs(r[|r| - 1]))
    ensures NoWs(s) ==> r == s
  {
    var a := LeadingWs(s);
    if a == |s| then
      assert s[..a] == s;
      []
    else
      var b := |s| - TrailingWs(s);
      assert a < b;
      var r := s[a..b];
      assert s[a + |r|..] == s[b..];
      assert !IsBlank(s) by { assert !IsWs(s[a]); }
      assert r[|r| - 1] == s[b - 1];
      assert NoWs(s) ==> a == 0 && b == |s|;
      r
  }

  /** Trimming is idempotent. */
  lemma TrimIdempotent(s: string)
    ensures Trim(Trim(s)) == Trim(s)
  {
  }
}
