/**
  The two string operations the join route applies to its input: `trim`, which strips
  the ECMAScript white space and line terminators from both ends, and upper-casing.
 */
module Text {

  /** ECMAScript white space (tab, vertical tab, form feed, space, no-break space, the Zs block, BOM) and line terminators. */
  predicate IsJsSpace(c: char)
  {
    || c == '\t' || c == '\n' || c == '\U{000B}' || c == '\U{000C}' || c == '\r' || c == ' '
    || c == '\U{00A0}' || c == '\U{1680}' || ('\U{2000}' <= c <= '\U{200A}')
    || c == '\U{2028}' || c == '\U{2029}' || c == '\U{202F}' || c == '\U{205F}'
    || c == '\U{3000}' || c == '\U{FEFF}'
  }

  predicate AllSpace(s: string)
  {
    forall k :: 0 <= k < |s| ==> IsJsSpace(s[k])
  }

  /** The number of white-space characters `s` starts with. */
  function LeadingSpace(s: string): (n: nat)
    ensures n <= |s|
    ensures forall k :: 0 <= k < n ==> IsJsSpace(s[k])
    ensures n < |s| ==> !IsJsSpace(s[n])
  {
    if s != [] && IsJsSpace(s[0]) then 1 + LeadingSpace(s[1..]) else 0
  }

  /** The number of white-space characters `s` ends with. */
  function TrailingSpace(s: string): (n: nat)
    ensures n <= |s|
    ensures forall k :: |s| - n <= k < |s| ==> IsJsSpace(s[k])
    ensures n < |s| ==> !IsJsSpace(s[|s| - n - 1])
  {
    if s != [] && IsJsSpace(s[|s| - 1]) then 1 + TrailingSpace(s[..|s| - 1]) else 0
  }

  /** `String.prototype.trimStart`. */
  function TrimStart(s: string): string
  {
    s[LeadingSpace(s)..]
  }

  /** `String.prototype.trimEnd`. */
  function TrimEnd(s: string): string
  {
    s[..|s| - TrailingSpace(s)]
  }

  /** `String.prototype.trim`. */
  function Trim(s: string): string
  {
    TrimEnd(TrimStart(s))
  }

  /** Trimming yields the empty string exactly for all-white-space input. */
  lemma TrimEmpty(s: string)
    ensures Trim(s) == [] <==> AllSpace(s)
  {
    var n := LeadingSpace(s);
    var a := TrimStart(s);
    if n < |s| {
      assert a[0] == s[n];
      assert TrailingSpace(a) < |a|;
      assert !AllSpace(s);
    }
  }

  /** Otherwise the result neither starts nor ends with white space. */
  lemma TrimEnds(s: string)
    ensures Trim(s) != [] ==> !IsJsSpace(Trim(s)[0]) && !IsJsSpace(Trim(s)[|Trim(s)| - 1])
  {
    var n := LeadingSpace(s);
    var a := TrimStart(s);
    var r := TrimEnd(a);
    if r != [] {
      assert r[0] == a[0] == s[n];
      assert r[|r| - 1] == a[|a| - TrailingSpace(a) - 1];
    }
  }

  /** The result is the contiguous piece of the input that starts after the leading white space. */
  lemma TrimIsSlice(s: string)
    ensures var i := |s| - |TrimStart(s)|; i + |Trim(s)| <= |s| && Trim(s) == s[i..i + |Trim(s)|]
  {
    var n := LeadingSpace(s);
    var a := TrimStart(s);
    assert |s| - |a| == n;
    assert TrimEnd(a) == s[n..|s| - TrailingSpace(a)];
  }

  lemma TrimIdempotent(s: string)
    ensures Trim(Trim(s)) == Trim(s)
  {
    var r := Trim(s);
    TrimEnds(s);
    if r != [] {
      assert LeadingSpace(r) == 0;
      assert TrimStart(r) == r;
      assert TrailingSpace(r) == 0;
      assert TrimEnd(r) == r;
    }
  }

  /** Upper-casing of one character, for the ASCII letters. */
  function UpperChar(c: char): char
  {
    if 'a' <= c <= 'z' then (c as int - 'a' as int + 'A' as int) as char else c
  }

  /** `String.prototype.toUpperCase`, restricted to ASCII letters. */
  function ToUpper(s: string): string
  {
    seq(|s|, k requires 0 <= k < |s| => UpperChar(s[k]))
  }

  /** Upper-casing keeps the length and leaves no lower-case ASCII letter behind. */
  lemma ToUpperNoLower(s: string)
    ensures |ToUpper(s)| == |s| && forall k :: 0 <= k < |ToUpper(s)| ==> !('a' <= ToUpper(s)[k] <= 'z')
  {
  }

  /** Two characters that are equal, or the same ASCII letter in different cases. */
  predicate SameIgnoringCase(c: char, d: char)
  {
    || c == d
    || ('a' <= c <= 'z' && d as int == c as int - 32)
    || ('a' <= d <= 'z' && c as int == d as int - 32)
  }

  /** Strings that differ only in the case of ASCII letters upper-case to the same string. */
  lemma ToUpperIgnoresCase(s: string, t: string)
    requires |s| == |t| && forall k :: 0 <= k < |s| ==> SameIgnoringCase(s[k], t[k])
    ensures ToUpper(s) == ToUpper(t)
  {
  }

  /** Upper-case letters are fixed and lower-case letters map to their capitals, so a code typed in either case matches. */
  lemma UpperCharSpec(c: char)
    ensures 'a' <= c <= 'z' ==> 'A' <= UpperChar(c) <= 'Z' && UpperChar(c) as int == c as int - 32
    ensures !('a' <= c <= 'z') ==> UpperChar(c) == c
    ensures UpperChar(UpperChar(c)) == UpperChar(c)
  {
  }

  lemma ToUpperIdempotent(s: string)
    ensures ToUpper(ToUpper(s)) == ToUpper(s)
  {
  }

  /** A string without lower-case ASCII letters is its own upper-case form. */
  lemma ToUpperFixed(s: string)
    requires forall k :: 0 <= k < |s| ==> !('a' <= s[k] <= 'z')
    ensures ToUpper(s) == s
  {
  }
}
