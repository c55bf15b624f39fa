/** The two data annotations the core's request and entity classes rely on,
    as ASP.NET Core model validation evaluates them on a string property. */
module Validation {

  /** `char.IsWhiteSpace`: the Unicode space separators, line and paragraph
      separators, and the control characters U+0009..U+000D and U+0085.
      No digit, Latin letter or `+` is white space. */
  predicate IsWhiteSpace(c: char)
    ensures IsWhiteSpace(c) ==> !('0' <= c <= '9' || 'a' <= c <= 'z' || 'A' <= c <= 'Z' || c == '+')
  {
    || ('\t' <= c <= '\r') || c == ' ' || c == '\U{85}' || c == '\U{A0}'
    || c == '\U{1680}' || ('\U{2000}' <= c <= '\U{200A}')
    || c == '\U{2028}' || c == '\U{2029}' || c == '\U{202F}' || c == '\U{205F}' || c == '\U{3000}'
  }

  /** `[Required]` on a string: present and not empty or white space only
      (a missing JSON property binds as the empty default).  A required
      string is never empty, and one holding a digit is always required. */
  predicate Required(s: string)
    ensures Required(s) ==> 0 < |s|
    ensures (exists i :: 0 <= i < |s| && '0' <= s[i] <= '9') ==> Required(s)
  {
    exists i :: 0 <= i < |s| && !IsWhiteSpace(s[i])
  }

  /** `[StringLength(max)]`: at most `max` characters. */
  predicate StringLength(s: string, max: int) {
    |s| <= max
  }

  /** White space around a value does not change whether it passes
      `[Required]`: only the characters between the padding decide. */
  lemma PaddingKeepsRequired(pad: string, s: string, pad': string)
    requires forall i :: 0 <= i < |pad| ==> IsWhiteSpace(pad[i])
    requires forall i :: 0 <= i < |pad'| ==> IsWhiteSpace(pad'[i])
    ensures Required(pad + s + pad') <==> Required(s)
  {
    var w := pad + s + pad';
    if Required(w) {
      var i :| 0 <= i < |w| && !IsWhiteSpace(w[i]);
      assert forall j :: 0 <= j < |pad| ==> w[j] == pad[j];
      assert forall j :: 0 <= j < |pad'| ==> w[|pad| + |s| + j] == pad'[j];
      assert |pad| <= i < |pad| + |s|;
      assert w[i] == s[i - |pad|];
    }
    if Required(s) {
      var i :| 0 <= i < |s| && !IsWhiteSpace(s[i]);
      assert w[|pad| + i] == s[i];
    }
  }
}
