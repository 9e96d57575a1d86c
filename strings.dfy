/**
 * The two string tests the startup sequence relies on, kept apart because
 * they do not agree:
 *  - HasText: Spring's StringUtils.hasText, "not null, and some character is
 *    not Character.isWhitespace";
 *  - Trim: java.lang.String.trim, "strip every leading and trailing
 *    character whose code is at most U+0020".
 * Characters are Unicode scalar values; Java's UTF-16 surrogates never count
 * as whitespace and are never trimmed, and neither is any character above
 * U+FFFF here.
 */
module Strings {
  import opened Wrappers

  /** Character.isWhitespace: the space, line and paragraph separators other
      than the non-breaking ones (U+00A0, U+2007, U+202F), plus the controls
      U+0009..U+000D and U+001C..U+001F. */
  predicate IsWhitespace(c: char) {
    var n := c as int;
    || (0x09 <= n <= 0x0D)
    || (0x1C <= n <= 0x20)
    || n == 0x1680
    || (0x2000 <= n <= 0x2006)
    || (0x2008 <= n <= 0x200A)
    || n == 0x2028 || n == 0x2029
    || n == 0x205F
    || n == 0x3000
  }

  /** StringUtils.hasText on a nullable string. */
  predicate HasText(s: Option<string>) {
    s.Some? && exists i :: 0 <= i < |s.value| && !IsWhitespace(s.value[i])
  }

  /** A character String.trim removes from either end. */
  predicate IsTrimmable(c: char) {
    c <= ' '
  }

  /** The leading part of String.trim: drop trimmable characters from the front. */
  function TrimStart(s: string): (r: string)
    ensures |r| <= |s| && r == s[|s| - |r|..]
    ensures r == [] || !IsTrimmable(r[0])
    ensures forall k :: 0 <= k < |s| - |r| ==> IsTrimmable(s[k])
  {
    if s != [] && IsTrimmable(s[0]) then TrimStart(s[1..]) else s
  }

  /** The trailing part of String.trim: drop trimmable characters from the back. */
  function TrimEnd(s: string): (r: string)
    ensures |r| <= |s| && r == s[..|r|]
    ensures r == [] || !IsTrimmable(r[|r| - 1])
    ensures forall k :: |r| <= k < |s| ==> IsTrimmable(s[k])
  {
    if s != [] && IsTrimmable(s[|s| - 1]) then TrimEnd(s[..|s| - 1]) else s
  }

  /** String.trim: the longest middle slice of s that neither starts nor ends
      with a trimmable character, everything cut off on both sides being
      trimmable. */
  function Trim(s: string): (r: string)
    ensures |r| <= |s|
    ensures r == [] || (!IsTrimmable(r[0]) && !IsTrimmable(r[|r| - 1]))
    ensures exists lead :: TrimmedAt(s, r, lead)
  {
    var front := TrimStart(s);
    var r := TrimEnd(front);
    var lead := |s| - |front|;
    assert s[lead..lead + |r|] == front[..|r|] == r;
    assert TrimmedAt(s, r, lead);
    r
  }

  /** r sits in s at offset lead, and only trimmable characters lie around it. */
  ghost predicate TrimmedAt(s: string, r: string, lead: int) {
    && 0 <= lead && lead + |r| <= |s|
    && s[lead..lead + |r|] == r
    && (forall k :: 0 <= k < lead ==> IsTrimmable(s[k]))
    && (forall k :: lead + |r| <= k < |s| ==> IsTrimmable(s[k]))
  }

  /** Trimming twice is trimming once. */
  lemma TrimIdempotent(s: string)
    ensures Trim(Trim(s)) == Trim(s)
  {
    var r := Trim(s);
    if r != [] {
      assert TrimStart(r) == r;
      assert TrimEnd(r) == r;
    }
  }

  /** A character above U+0020 is never cut off by trim. */
  lemma TrimKeepsVisible(s: string, i: int)
    requires 0 <= i < |s| && !IsTrimmable(s[i])
    ensures s[i] in Trim(s)
  {
    var r := Trim(s);
    var lead :| TrimmedAt(s, r, lead);
    assert lead <= i < lead + |r|;
    assert r[i - lead] == s[lead..lead + |r|][i - lead];
  }

  /** Trimming never creates text: a trimmed string with text came from one. */
  lemma TrimmedTextHadText(s: string)
    ensures HasText(Some(Trim(s))) ==> HasText(Some(s))
  {
    var r := Trim(s);
    if HasText(Some(r)) {
      var i :| 0 <= i < |r| && !IsWhitespace(r[i]);
      var lead :| TrimmedAt(s, r, lead);
      assert s[lead + i] == s[lead..lead + |r|][i];
    }
  }

  /** A string of text whose visible characters are all above U+0020 keeps
      its text through trim. */
  lemma VisibleTextSurvivesTrim(s: string, i: int)
    requires 0 <= i < |s| && !IsWhitespace(s[i]) && !IsTrimmable(s[i])
    ensures HasText(Some(Trim(s)))
  {
    TrimKeepsVisible(s, i);
    var r := Trim(s);
    var j :| 0 <= j < |r| && r[j] == s[i];
  }

  /** A value with text and nothing to trim, padded with one space on each
      side, still has text and trims back to itself. */
  lemma TrimPadded(s: string)
    requires HasText(Some(s)) && !IsTrimmable(s[0]) && !IsTrimmable(s[|s| - 1])
    ensures HasText(Some(" " + s + " ")) && Trim(" " + s + " ") == s
  {
    var padded := " " + s + " ";
    var i :| 0 <= i < |s| && !IsWhitespace(s[i]);
    assert padded[i + 1] == s[i];
    assert padded[1..] == s + " ";
    assert TrimStart(padded) == TrimStart(s + " ") == s + " ";
    assert (s + " ")[..|s|] == s;
    assert TrimEnd(s + " ") == TrimEnd(s) == s;
  }

  /** The two tests disagree one way: U+0000 is text, yet trim removes it. */
  lemma TextCanTrimToEmpty()
    ensures HasText(Some("\0")) && Trim("\0") == ""
  {
    assert !IsWhitespace("\0"[0]);
  }

  /** ... and the other way: the ideographic space U+3000 is blank, yet trim keeps it. */
  lemma BlankCanSurviveTrim()
    ensures !HasText(Some("\U{3000}")) && Trim("\U{3000}") == "\U{3000}"
  {
  }
}
