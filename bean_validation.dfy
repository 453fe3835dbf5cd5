/** The Bean Validation constraints the request records carry, as
    predicates on a nullable string. As in the constraint validators, `@Size`
    and `@Pattern` accept null and only `@NotBlank` rejects it. */
module BeanValidation {
  import opened Basics

  /** `String.trim` without its right end: drops the leading characters up
      to U+0020. What is left is a suffix that is empty or starts with a
      character above U+0020, and everything dropped is at most U+0020. */
  function TrimStart(s: string): (r: string)
    ensures |r| <= |s| && r == s[|s| - |r|..]
    ensures r == [] || r[0] > ' '
    ensures forall i :: 0 <= i < |s| - |r| ==> s[i] <= ' '
  {
    if s != [] && s[0] <= ' ' then TrimStart(s[1..]) else s
  }

  /** `String.trim` without its left end: drops the trailing characters up
      to U+0020, leaving a prefix that is empty or ends above U+0020. */
  function TrimEnd(s: string): (r: string)
    ensures |r| <= |s| && r == s[..|r|]
    ensures r == [] || r[|r| - 1] > ' '
    ensures forall i :: |r| <= i < |s| ==> s[i] <= ' '
  {
    if s != [] && s[|s| - 1] <= ' ' then TrimEnd(s[..|s| - 1]) else s
  }

  /** `String.trim`: strips every character up to U+0020 from both ends.
      The result is empty exactly when every character is at most U+0020,
      and otherwise starts and ends above U+0020. */
  function Trim(s: string): (r: string)
    ensures |r| <= |s|
    ensures r == [] <==> forall i :: 0 <= i < |s| ==> s[i] <= ' '
    ensures r == [] || (r[0] > ' ' && r[|r| - 1] > ' ')
  {
    var t := TrimStart(s);
    assert t != [] ==> t[..1] == [t[0]];
    TrimEnd(t)
  }

  /** `@NotBlank`, as its validator decides it: not null, and something is
      left after `String.trim`. */
  predicate NotBlank(s: Option<string>) {
    s.Some? && Trim(s.value) != ""
  }

  /** A string passes `@NotBlank` exactly when it holds a character above
      U+0020: spaces and control characters alone, whatever their number,
      are blank. */
  lemma NotBlankIffVisibleChar(s: Option<string>)
    ensures NotBlank(s) <==> s.Some? && exists i :: 0 <= i < |s.value| && s.value[i] > ' '
  {
  }

  /** `@Size(min, max)` on a string. */
  predicate Size(s: Option<string>, min: nat, max: nat) {
    s.None? || min <= |s.value| <= max
  }

  /** A character of the class `[a-zA-Z0-9._-]`. */
  predicate UsernameChar(c: char) {
    ('a' <= c <= 'z') || ('A' <= c <= 'Z') || ('0' <= c <= '9') || c == '.' || c == '_' || c == '-'
  }

  /** `@Pattern(regexp = "^[a-zA-Z0-9._-]{4,50}$")`. */
  predicate MatchesUsernamePattern(s: Option<string>) {
    s.None? || (4 <= |s.value| <= 50 && forall i :: 0 <= i < |s.value| ==> UsernameChar(s.value[i]))
  }

  /** A non-null string the username pattern accepts also passes
      `@NotBlank` and `@Size(min = 4, max = 50)`: on a username the other two
      constraints only add the rejection of null. */
  lemma UsernamePatternSubsumes(s: Option<string>)
    requires s.Some? && MatchesUsernamePattern(s)
    ensures NotBlank(s) && Size(s, 4, 50)
  {
    assert UsernameChar(s.value[0]);
  }
}
