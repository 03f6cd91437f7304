/**
 The function-name rule the tool-name sanitisers enforce,
 `^[a-zA-Z_][a-zA-Z0-9_.-]{0,63}$`, and the sanitising pipeline both
 sanitisers share: replace every other character by `_`, prefix `_` unless the
 name starts with a letter or `_`, cut to a length limit, strip trailing
 `.` / `-`, and fall back to "sanitized_tool" if nothing is left.
 */
module ToolNames {
  import opened Text

  /** `[a-zA-Z0-9_.-]`. */
  predicate IsNameChar(c: char) {
    IsAsciiLetter(c) || IsDigit(c) || c == '_' || c == '.' || c == '-'
  }

  /** `[a-zA-Z_]`. */
  predicate IsNameStart(c: char) {
    IsAsciiLetter(c) || c == '_'
  }

  predicate IsTrailingMark(c: char) {
    c == '.' || c == '-'
  }

  predicate AllNameChars(s: string) {
    forall i :: 0 <= i < |s| ==> IsNameChar(s[i])
  }

  /** `^[a-zA-Z_][a-zA-Z0-9_.-]{0,63}$`. */
  predicate MatchesFunctionNamePattern(s: string) {
    1 <= |s| <= 64 && IsNameStart(s[0]) && AllNameChars(s)
  }

  /** What the sanitising pipeline guarantees for a length limit. */
  predicate IsSanitized(s: string, limit: nat) {
    && 1 <= |s| <= limit
    && IsNameStart(s[0])
    && AllNameChars(s)
    && !IsTrailingMark(s[|s| - 1])
  }

  /** `name.replace(/[^a-zA-Z0-9_.-]/g, "_")`. */
  function ReplaceInvalid(name: string): (r: string)
    ensures |r| == |name| && AllNameChars(r)
    ensures forall i :: 0 <= i < |name| && IsNameChar(name[i]) ==> r[i] == name[i]
    ensures forall i :: 0 <= i < |name| && !IsNameChar(name[i]) ==> r[i] == '_'
  {
    seq(|name|, i requires 0 <= i < |name| => if IsNameChar(name[i]) then name[i] else '_')
  }

  /** Prefix `_` unless the name already starts with a letter or `_`. */
  function EnsureStart(s: string): (r: string)
    ensures 0 < |r| && IsNameStart(r[0])
    ensures AllNameChars(s) ==> AllNameChars(r)
    ensures |s| > 0 && IsNameStart(s[0]) ==> r == s
    ensures !(|s| > 0 && IsNameStart(s[0])) ==> r == "_" + s
  {
    if |s| > 0 && IsNameStart(s[0]) then s else "_" + s
  }

  /** `s.replace(/[.-]+$/, "")`: the longest prefix not ending in `.` or `-`. */
  function TrimTrailingMarks(s: string): (r: string)
    ensures |r| <= |s| && r == s[..|r|]
    ensures |r| > 0 ==> !IsTrailingMark(r[|r| - 1])
    ensures forall i :: |r| <= i < |s| ==> IsTrailingMark(s[i])
    ensures |s| > 0 && !IsTrailingMark(s[|s| - 1]) ==> r == s
  {
    if |s| > 0 && IsTrailingMark(s[|s| - 1]) then TrimTrailingMarks(s[..|s| - 1]) else s
  }

  /** The shared pipeline with length limit `limit`, before the fallback.
      Its output obeys the rule and is never empty: the first character is
      a letter or `_`, so trimming never strips it. */
  function Pipeline(name: string, limit: nat): (r: string)
    requires limit >= 1
    ensures r != "" && IsSanitized(r, limit)
  {
    var started := EnsureStart(ReplaceInvalid(name));
    var cut := if |started| > limit then started[..limit] else started;
    assert IsNameStart(cut[0]) && !IsTrailingMark(cut[0]);
    var trimmed := TrimTrailingMarks(cut);
    assert trimmed[0] == cut[0];
    trimmed
  }

  /** The shared pipeline, with the "sanitized_tool" fallback for an empty
      result; the fallback is never taken. */
  function Sanitize(name: string, limit: nat): (r: string)
    requires limit >= 1
    ensures r == Pipeline(name, limit) && IsSanitized(r, limit)
  {
    var trimmed := Pipeline(name, limit);
    if trimmed == "" then "sanitized_tool" else trimmed
  }

  /** A name within the limit whose ends are already acceptable is only
      cleaned character by character: nothing is prefixed, cut or trimmed. */
  lemma ShortNameOnlyReplaced(name: string, limit: nat)
    requires limit >= 1 && 0 < |name| <= limit
    requires IsNameStart(name[0]) && !IsTrailingMark(name[|name| - 1])
    ensures Sanitize(name, limit) == ReplaceInvalid(name)
  {
    var replaced := ReplaceInvalid(name);
    assert replaced[0] == name[0];
    assert EnsureStart(replaced) == replaced;
    assert !IsTrailingMark(replaced[|replaced| - 1]);
  }

  /** A name that already obeys the rule comes back unchanged. */
  lemma FixedPointOfValid(name: string, limit: nat)
    requires limit >= 1
    ensures IsSanitized(name, limit) ==> Sanitize(name, limit) == name
  {
    if IsSanitized(name, limit) {
      assert ReplaceInvalid(name) == name;
      assert EnsureStart(name) == name;
    }
  }

  /** Sanitising twice is sanitising once. */
  lemma SanitizeIdempotent(name: string, limit: nat)
    requires limit >= 1
    ensures Sanitize(Sanitize(name, limit), limit) == Sanitize(name, limit)
  {
    FixedPointOfValid(Sanitize(name, limit), limit);
  }
}
