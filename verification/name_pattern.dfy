/** The collection-name check: one to thirty word characters or hyphens.
    Word characters are taken as ASCII letters, digits and underscore. */
module NamePattern {

  const MAX_NAME_LENGTH: nat := 30

  predicate IsWordChar(c: char) {
    ('a' <= c <= 'z') || ('A' <= c <= 'Z') || ('0' <= c <= '9') || c == '_'
  }

  predicate IsNameChar(c: char) {
    IsWordChar(c) || c == '-'
  }

  /** `s` is one to thirty name characters and nothing else. */
  predicate NameRun(s: string) {
    1 <= |s| <= MAX_NAME_LENGTH && forall i :: 0 <= i < |s| ==> IsNameChar(s[i])
  }

  /** The pattern `^[\w-]{1,30}$` as the .NET regex engine evaluates it:
      without the multiline option `$` matches at the end of the input and
      also just before a line feed that ends the input. */
  function NamePatternMatches(s: string): (b: bool)
    ensures b ==> |s| >= 1
    ensures b && s[|s| - 1] != '\n' ==> NameRun(s)
  {
    NameRun(s) || (|s| >= 2 && s[|s| - 1] == '\n' && NameRun(s[..|s| - 1]))
  }

  /** The intended check: the whole name is one to thirty name characters. */
  function IsValidName(s: string): (b: bool)
    ensures b ==> '\n' !in s && ' ' !in s
  {
    NameRun(s)
  }

  /** The pattern lets a name through that ends in a line feed. */
  lemma PatternAcceptsTrailingLineFeed()
    ensures NamePatternMatches("orders\n")
    ensures !IsValidName("orders\n")
  {
  }

  /** The intended check accepts exactly what the pattern accepts, minus
      the names that contain a line feed. */
  lemma ValidNameIsPatternWithoutLineFeed(s: string)
    ensures IsValidName(s) <==> NamePatternMatches(s) && '\n' !in s
  {
  }

  /** Sample names on both sides of the rule, including both sides of the
      30-character limit. */
  lemma NameExamples()
    ensures IsValidName("orders-2024")
    ensures IsValidName("Products")
    ensures !IsValidName("bad name!")
    ensures !IsValidName("")
    ensures IsValidName("abcdefghijabcdefghijabcdefghij")
    ensures !IsValidName("abcdefghijabcdefghijabcdefghijk")
  {
  }
}
