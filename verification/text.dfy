/** Character classes and string operations of the .NET runtime that the guard
    clauses rely on: `char.IsWhiteSpace`, `string.Trim` and
    `string.IsNullOrWhiteSpace`. */
module Text {
  import opened Nullable

  /** The characters `char.IsWhiteSpace` accepts: the Unicode space, line and
      paragraph separators, plus the control characters U+0009..U+000D and U+0085. */
  predicate IsWhiteSpace(c: char)
    ensures c == ' ' || c == '\t' || c == '\n' || c == '\r' ==> IsWhiteSpace(c)
    ensures IsWhiteSpace(c) ==> !('0' <= c <= '9') && !('A' <= c <= 'Z') && !('a' <= c <= 'z')
    ensures IsWhiteSpace(c) ==> !('\U{400}' <= c <= '\U{4FF}')
  {
    || ('\U{9}' <= c <= '\U{D}')
    || c == '\U{20}' || c == '\U{85}' || c == '\U{A0}' || c == '\U{1680}'
    || ('\U{2000}' <= c <= '\U{200A}')
    || c == '\U{2028}' || c == '\U{2029}' || c == '\U{202F}' || c == '\U{205F}' || c == '\U{3000}'
  }

  /** Every character of `s` is white space (vacuously true of ""). */
  predicate IsBlank(s: string) {
    forall i :: 0 <= i < |s| ==> IsWhiteSpace(s[i])
  }

  /** `string.IsNullOrWhiteSpace`. */
  predicate IsNullOrWhiteSpace(s: Nullable<string>)
    ensures s.Null? || s == NonNull("") ==> IsNullOrWhiteSpace(s)
  {
    s.Null? || IsBlank(s.value)
  }

  /** A non-null string holding at least one character that is not white space. */
  predicate HasText(s: Nullable<string>) {
    !IsNullOrWhiteSpace(s)
  }

  /** A string with a non-white-space character at `i` has text. */
  lemma HasTextAt(s: string, i: nat)
    requires i < |s| && !IsWhiteSpace(s[i])
    ensures HasText(NonNull(s))
  {
  }

  /** `string.TrimStart()`: drops the leading white space and keeps the rest. */
  function TrimStart(s: string): (r: string)
    ensures |r| <= |s| && r == s[|s| - |r|..]
    ensures IsBlank(s[..|s| - |r|])
    ensures |r| > 0 ==> !IsWhiteSpace(r[0])
  {
    if |s| > 0 && IsWhiteSpace(s[0]) then
      var r := TrimStart(s[1..]);
      var k := |s| - |r|;
      assert s[1..][k - 1..] == s[k..];
      assert forall i :: 1 <= i < k ==> s[..k][i] == s[1..][..k - 1][i - 1];
      r
    else
      assert s[..0] == [];
      s
  }

  /** `string.TrimEnd()`: drops the trailing white space and keeps the rest. */
  function TrimEnd(s: string): (r: string)
    ensures |r| <= |s| && r == s[..|r|]
    ensures IsBlank(s[|r|..])
    ensures |r| > 0 ==> !IsWhiteSpace(r[|r| - 1])
  {
    if |s| > 0 && IsWhiteSpace(s[|s| - 1]) then
      var r := TrimEnd(s[..|s| - 1]);
      assert s[..|s| - 1][..|r|] == s[..|r|];
      assert forall i :: |r| <= i < |s| - 1 ==> s[i] == s[..|s| - 1][i];
      r
    else
      assert s[|s|..] == [];
      s
  }

  /** `string.Trim()`. */
  function Trim(s: string): string {
    TrimEnd(TrimStart(s))
  }

  /** Trimming leaves nothing exactly when the string is blank, which is why
      `value.Trim().Length is 0` and `IsNullOrWhiteSpace` agree on non-null strings. */
  lemma TrimEmptyIffBlank(s: string)
    ensures |Trim(s)| == 0 <==> IsBlank(s)
  {
    var t := TrimStart(s);
    if |Trim(s)| == 0 {
      assert IsBlank(t) by { assert t[0..] == t; }
      assert s == s[..|s| - |t|] + t;
    }
  }

  /** `string.IsNullOrWhiteSpace(s)` holds exactly when `s` is null or
      `s.Trim()` is empty. */
  lemma NullOrWhiteSpaceIffTrimEmpty(s: Nullable<string>)
    ensures IsNullOrWhiteSpace(s) <==> s.Null? || |Trim(s.value)| == 0
  {
  }

  /** Equal strings that start alike agree on what follows. */
  lemma CancelPrefix(p: string, a: string, b: string)
    requires p + a == p + b
    ensures a == b
  {
    assert a == (p + a)[|p|..];
    assert b == (p + b)[|p|..];
  }

  /** Equal strings that end alike agree on what precedes. */
  lemma CancelSuffix(a: string, b: string, t: string)
    requires a + t == b + t
    ensures a == b
  {
    assert a == (a + t)[..|a|];
    assert b == (b + t)[..|b|];
  }
}
