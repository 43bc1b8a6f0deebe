/**
 * The pieces of Go's strings and unicode packages the service relies on:
 * strings.TrimSpace (with unicode.IsSpace) and strings.TrimRight with the
 * cut set "/".
 */
module Strings {

  /** unicode.IsSpace: the Latin-1 spaces and the rest of Unicode's White_Space. */
  predicate IsSpace(c: char): (r: bool)
    ensures ' ' < c < '\U{0080}' ==> !r
    ensures r ==> c == ' ' || '\t' <= c <= '\r' || '\U{0085}' <= c <= '\U{3000}'
  {
    || c == '\t' || c == '\n' || c == '\U{000B}' || c == '\U{000C}' || c == '\r' || c == ' '
    || c == '\U{0085}' || c == '\U{00A0}' || c == '\U{1680}'
    || ('\U{2000}' <= c <= '\U{200A}')
    || c == '\U{2028}' || c == '\U{2029}' || c == '\U{202F}' || c == '\U{205F}' || c == '\U{3000}'
  }

  ghost predicate AllSpace(s: string) {
    forall i :: 0 <= i < |s| ==> IsSpace(s[i])
  }

  /** Drops the leading white space: the result is the longest suffix of `s`
      that does not start with a space. */
  function TrimLeftSpace(s: string): (r: string)
    ensures |r| <= |s| && r == s[|s| - |r|..]
    ensures forall i :: 0 <= i < |s| - |r| ==> IsSpace(s[i])
    ensures r == [] || !IsSpace(r[0])
  {
    if s == [] || !IsSpace(s[0]) then s
    else TrimLeftSpace(s[1..])
  }

  /** Drops the trailing white space: the result is the longest prefix of `s`
      that does not end with a space. */
  function TrimRightSpace(s: string): (r: string)
    ensures |r| <= |s| && r == s[..|r|]
    ensures forall i :: |r| <= i < |s| ==> IsSpace(s[i])
    ensures r == [] || !IsSpace(r[|r| - 1])
  {
    if s == [] || !IsSpace(s[|s| - 1]) then s
    else TrimRightSpace(s[..|s| - 1])
  }

  /** strings.TrimSpace. */
  function TrimSpace(s: string): (r: string)
    ensures r == [] || (!IsSpace(r[0]) && !IsSpace(r[|r| - 1]))
  {
    TrimRightSpace(TrimLeftSpace(s))
  }

  /** `strings.TrimSpace(s) == ""` holds exactly for strings made only of white space. */
  lemma {:induction false} TrimSpaceEmptyIff(s: string)
    ensures TrimSpace(s) == [] <==> AllSpace(s)
  {
    var l := TrimLeftSpace(s);
    if TrimSpace(s) == [] {
      assert |l| == 0;
    }
  }

  /** What strings.TrimSpace promises: the result is the infix of `s` left
      after cutting a run of white space at each end. */
  lemma TrimSpaceInfix(s: string) returns (i: int)
    ensures 0 <= i <= |s| - |TrimSpace(s)|
    ensures TrimSpace(s) == s[i..i + |TrimSpace(s)|]
    ensures AllSpace(s[..i]) && AllSpace(s[i + |TrimSpace(s)|..])
  {
    i := |s| - |TrimLeftSpace(s)|;
  }

  /** strings.TrimRight(s, "/"): the longest prefix of `s` that does not end in '/'. */
  function TrimRightSlash(s: string): (r: string)
    ensures |r| <= |s| && r == s[..|r|]
    ensures forall i :: |r| <= i < |s| ==> s[i] == '/'
    ensures r == [] || r[|r| - 1] != '/'
  {
    if s == [] || s[|s| - 1] != '/' then s
    else TrimRightSlash(s[..|s| - 1])
  }
}
