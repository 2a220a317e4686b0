/** The part of JavaScript's `String.prototype.trim` that the todo list relies on:
    deciding whether a draft is empty once surrounding white space is stripped. */
module JsString {

  /** The code points `trim` strips: ECMAScript WhiteSpace (TAB, VT, FF, SPACE, NBSP,
      ZWNBSP and the Unicode space separators) and LineTerminator (LF, CR, LS, PS). */
  predicate IsWs(c: char) {
    var n := c as int;
    n == 0x09 || n == 0x0A || n == 0x0B || n == 0x0C || n == 0x0D || n == 0x20 ||
    n == 0xA0 || n == 0x1680 || (0x2000 <= n <= 0x200A) || n == 0x2028 || n == 0x2029 ||
    n == 0x202F || n == 0x205F || n == 0x3000 || n == 0xFEFF
  }

  /** Every character of `s` is white space (vacuously true of the empty string). */
  predicate AllWhitespace(s: string) {
    forall i :: 0 <= i < |s| ==> IsWs(s[i])
  }

  /** The length of the run of white space that `s` starts with. */
  function LeadingWs(s: string): (n: nat)
    ensures n <= |s|
    ensures forall j :: 0 <= j < n ==> IsWs(s[j])
    ensures n < |s| ==> !IsWs(s[n])
  {
    if |s| > 0 && IsWs(s[0]) then
      var m := LeadingWs(s[1..]);
      assert forall j :: 1 <= j < m + 1 ==> s[j] == s[1..][j - 1];
      1 + m
    else
      0
  }

  /** The length of the run of white space that `s` ends with. */
  function TrailingWs(s: string): (n: nat)
    ensures n <= |s|
    ensures forall j :: |s| - n <= j < |s| ==> IsWs(s[j])
    ensures n < |s| ==> !IsWs(s[|s| - 1 - n])
  {
    if |s| > 0 && IsWs(s[|s| - 1]) then
      var m := TrailingWs(s[..|s| - 1]);
      assert forall j :: |s| - 1 - m <= j < |s| - 1 ==> s[j] == s[..|s| - 1][j];
      1 + m
    else
      0
  }

  /** Strips leading white space: the result is the suffix of `s` left after
      a run of white space, and it does not itself start with white space. */
  function TrimStart(s: string): (r: string)
    ensures |r| <= |s| && r == s[|s| - |r|..]
    ensures AllWhitespace(s[..|s| - |r|])
    ensures r == [] || !IsWs(r[0])
  {
    var i := LeadingWs(s);
    assert forall j :: 0 <= j < i ==> s[..i][j] == s[j];
    s[i..]
  }

  /** Strips trailing white space: the result is the prefix of `s` left before
      a run of white space, and it does not itself end with white space. */
  function TrimEnd(s: string): (r: string)
    ensures |r| <= |s| && r == s[..|r|]
    ensures AllWhitespace(s[|r|..])
    ensures r == [] || !IsWs(r[|r| - 1])
  {
    var j := |s| - TrailingWs(s);
    assert forall k :: 0 <= k < |s| - j ==> s[j..][k] == s[j + k];
    s[..j]
  }

  /** `s.trim()`: the middle of `s` left once the leading and the trailing runs of
      white space are stripped; neither end of the result is white space. */
  function Trim(s: string): (r: string)
    ensures |r| <= |s|
    ensures var i := |s| - |TrimStart(s)|;
      i + |r| <= |s| && r == s[i..i + |r|] && AllWhitespace(s[..i]) && AllWhitespace(s[i + |r|..])
    ensures r == [] || (!IsWs(r[0]) && !IsWs(r[|r| - 1]))
  {
    var t := TrimStart(s);
    var i := |s| - |t|;
    var r := TrimEnd(t);
    assert t == s[i..] && r == t[..|r|] && s[i + |r|..] == t[|r|..];
    assert r != [] ==> r[0] == t[0];
    r
  }

  /** The trimmed string is empty exactly when `s` is empty or made only of white space. */
  lemma TrimEmptyIff(s: string)
    ensures Trim(s) == [] <==> AllWhitespace(s)
  {
  }
}
