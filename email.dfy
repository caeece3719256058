/**
 * The signup form's email check: `re.match(r'^[\w\.-]+@[\w\.-]+\.\w+$', email)`.
 *
 * `\w` is read as the ASCII word characters. `EmailLanguage` is the set of
 * strings the pattern describes, written as a split of the string into its
 * three parts; `MatchEmail` decides it by scanning from both ends, with no
 * backtracking, and is proved to agree with the declarative reading.
 */
module Email {

  /** `\w` over ASCII: a letter, a digit or `_`. */
  predicate IsWordChar(c: char)
  {
    ('a' <= c <= 'z') || ('A' <= c <= 'Z') || ('0' <= c <= '9') || c == '_'
  }

  /** The character class `[\w\.-]` of the local part and the domain. */
  predicate IsLocalChar(c: char)
  {
    IsWordChar(c) || c == '.' || c == '-'
  }

  predicate AllWord(s: string)
  {
    forall k | 0 <= k < |s| :: IsWordChar(s[k])
  }

  predicate AllLocal(s: string)
  {
    forall k | 0 <= k < |s| :: IsLocalChar(s[k])
  }

  /**
   * `s` splits as `L "@" D "." T` with the `@` at index `i` and the final
   * dot at index `j`: `L` and `D` are non-empty runs of `[\w\.-]`, `T` a
   * non-empty run of `\w`.
   */
  ghost predicate SplitAt(s: string, i: int, j: int)
  {
    && 0 < i && i + 1 < j && j + 1 < |s|
    && s[i] == '@' && s[j] == '.'
    && AllLocal(s[..i]) && AllLocal(s[i + 1..j]) && AllWord(s[j + 1..])
  }

  /** The strings the pattern between `^` and `$` describes. */
  ghost predicate EmailLanguage(s: string)
  {
    exists i, j :: SplitAt(s, i, j)
  }

  /**
   * What `re.match` of the anchored pattern accepts: Python's `$` matches at
   * the end of the text and also just before a newline that ends it.
   */
  ghost predicate PatternMatches(s: string)
  {
    EmailLanguage(s) || (s != [] && s[|s| - 1] == '\n' && EmailLanguage(s[..|s| - 1]))
  }

  /** Length of the longest prefix of `s` drawn from `[\w\.-]`. */
  function LocalPrefix(s: string): (n: nat)
    ensures n <= |s|
    ensures forall k | 0 <= k < n :: IsLocalChar(s[k])
    ensures n < |s| ==> !IsLocalChar(s[n])
  {
    if s != [] && IsLocalChar(s[0]) then 1 + LocalPrefix(s[1..]) else 0
  }

  /** Length of the longest suffix of `s` drawn from `\w`. */
  function WordSuffix(s: string): (n: nat)
    ensures n <= |s|
    ensures forall k | |s| - n <= k < |s| :: IsWordChar(s[k])
    ensures n < |s| ==> !IsWordChar(s[|s| - n - 1])
  {
    if s != [] && IsWordChar(s[|s| - 1]) then 1 + WordSuffix(s[..|s| - 1]) else 0
  }

  /**
   * Decides `EmailLanguage` without search: `L` must be the longest
   * `[\w\.-]` prefix (the `@` is outside that class) and `T` the longest
   * `\w` suffix (the dot before it is outside `\w`).
   */
  function MatchShape(s: string): (b: bool)
    ensures b <==> EmailLanguage(s)
  {
    var i := LocalPrefix(s);
    var k := WordSuffix(s);
    var j := |s| - k - 1;
    var b := 0 < i && i + 1 < j && k > 0 && s[i] == '@' && s[j] == '.' && AllLocal(s[i + 1..j]);
    assert b ==> SplitAt(s, i, j);
    assert EmailLanguage(s) ==> b by {
      if EmailLanguage(s) {
        var i0, j0 :| SplitAt(s, i0, j0);
        SplitDetermined(s, i0, j0);
      }
    }
    b
  }

  /** A `[\w\.-]` run ended by a character outside the class is the longest such prefix. */
  lemma LocalPrefixAt(s: string, i: nat)
    requires i < |s| && AllLocal(s[..i]) && !IsLocalChar(s[i])
    ensures LocalPrefix(s) == i
  {
  }

  /** A `\w` run preceded by a character outside `\w` is the longest such suffix. */
  lemma WordSuffixAt(s: string, k: nat)
    requires k < |s| && AllWord(s[|s| - k..]) && !IsWordChar(s[|s| - k - 1])
    ensures WordSuffix(s) == k
  {
  }

  /** Any split of `s` puts the `@` after the longest `[\w\.-]` prefix and the dot before the longest `\w` suffix. */
  lemma SplitDetermined(s: string, i: int, j: int)
    requires SplitAt(s, i, j)
    ensures LocalPrefix(s) == i && WordSuffix(s) == |s| - j - 1
  {
    LocalPrefixAt(s, i);
    WordSuffixAt(s, |s| - j - 1);
  }

  /** The signup form's email check, `re.match` of the anchored pattern. */
  function MatchEmail(s: string): (b: bool)
    ensures b <==> PatternMatches(s)
  {
    MatchShape(s) || (s != [] && s[|s| - 1] == '\n' && MatchShape(s[..|s| - 1]))
  }

  /**
   * On text that does not end in a newline (such as stripped text) the
   * pattern accepts exactly `EmailLanguage`: the `$` case is moot.
   */
  lemma NoTrailingNewline(s: string)
    requires s == [] || s[|s| - 1] != '\n'
    ensures MatchEmail(s) <==> EmailLanguage(s)
  {
  }

  /**
   * An email the pattern accepts has exactly one `@`, ends in a word
   * character, and has a dot after the `@` followed only by word characters.
   */
  lemma {:induction false} AcceptedShape(s: string)
    requires EmailLanguage(s)
    ensures IsWordChar(s[|s| - 1])
    ensures exists i :: 0 <= i < |s| && s[i] == '@'
    ensures forall i, i' | 0 <= i < |s| && 0 <= i' < |s| && s[i] == '@' && s[i'] == '@' :: i == i'
    ensures exists i, j :: 0 <= i < j < |s| && s[i] == '@' && s[j] == '.' && AllWord(s[j + 1..]) && j + 1 < |s|
  {
    var i, j :| SplitAt(s, i, j);
    assert s[j + 1..][|s| - j - 2] == s[|s| - 1];
  }

  lemma AcceptsSimpleAddress()
    ensures MatchEmail("a@b.c")
  {
    assert SplitAt("a@b.c", 1, 3);
  }

  lemma RejectsEmptyDomain()
    ensures !MatchEmail("a@.c")
  {
    assert LocalPrefix("a@.c") == 1;
  }

  lemma RejectsMissingDot()
    ensures !MatchEmail("a@b")
  {
    assert WordSuffix("a@b") == 1;
  }
}
