/** The identifier patterns of admin/presentation/validation.go. */
module Patterns {

  predicate IsLower(c: char) {
    'a' <= c <= 'z'
  }

  predicate IsDigit(c: char) {
    '0' <= c <= '9'
  }

  predicate IsUpper(c: char) {
    'A' <= c <= 'Z'
  }

  predicate IsSeparator(c: char) {
    c == '.' || c == '-'
  }

  /** identifierPattern: words of lower-case letters and digits, the first starting with a
      letter, joined by single dots or dashes. */
  predicate MatchesIdentifier(s: string) {
    && s != "" && IsLower(s[0])
    && (forall i :: 0 <= i < |s| ==> IsLower(s[i]) || IsDigit(s[i]) || IsSeparator(s[i]))
    && forall i :: 0 <= i < |s| && IsSeparator(s[i]) ==> i + 1 < |s| && !IsSeparator(s[i + 1])
  }

  /** fieldIdentifierPattern */
  predicate MatchesField(s: string) {
    s != "" && IsLower(s[0]) && forall i :: 0 <= i < |s| ==> IsLower(s[i]) || IsUpper(s[i]) || IsDigit(s[i])
  }

  /** enumValuePattern */
  predicate MatchesEnumValue(s: string) {
    s != "" && IsLower(s[0]) && forall i :: 0 <= i < |s| ==> IsLower(s[i]) || IsDigit(s[i]) || s[i] == '_' || s[i] == '-'
  }

  /** definitionHashPattern */
  predicate MatchesHash(s: string) {
    && |s| == 71 && s[..7] == "sha256:"
    && forall i :: 7 <= i < |s| ==> IsDigit(s[i]) || 'a' <= s[i] <= 'f'
  }

  /** What matches a pattern is ASCII, so its length is the same in bytes. */
  predicate IsIdentifier(s: string) {
    2 <= |s| <= 120 && MatchesIdentifier(s)
  }

  predicate IsReference(s: string) {
    1 <= |s| <= 120 && (MatchesIdentifier(s) || MatchesField(s))
  }

  predicate IsEnumValue(s: string) {
    1 <= |s| <= 120 && MatchesEnumValue(s)
  }
}
