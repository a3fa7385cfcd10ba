/**
 * The slug the admin test suite computes inline before it looks a company up
 * or asks for a clean-up: lower-case, drop five entity words, keep
 * `[a-z0-9\s-]`, hyphenate white space, collapse hyphens, and take one
 * hyphen off each end. It has no length cap and no fallback.
 */
module TestSuite {
  import opened JsText
  import opened SlugRegex

  /** The alternatives of `\b(llc|inc|corp|ltd|co)\b`. */
  const EntityWords: seq<string> := ["llc", "inc", "corp", "ltd", "co"]

  /** The company name the test suite starts with. */
  const DefaultCompanyName: string := "Test Solar Company"

  lemma EntityWordsAreWords()
    ensures AreWords(EntityWords)
  {
  }

  /** The inline slug expression; both copies of it in the test suite are this one. */
  function InlineSlug(companyName: string): string {
    EntityWordsAreWords();
    TrimOneHyphen(CollapseHyphens(HyphenateSpaces(StripDisallowed(
      RemoveWholeWords(Lower(companyName), EntityWords, false, false)))))
  }

  /**
   * Without the `i` flag the alternation still sees every entity word,
   * because the name is lower-cased first: the scan removes exactly the
   * whole words of the lower-cased name that are entity words.
   */
  lemma InlineSlugRemovesEntityWords(companyName: string)
    ensures InlineSlug(companyName)
         == TrimOneHyphen(CollapseHyphens(HyphenateSpaces(StripDisallowed(
              RemoveWords(Lower(companyName), EntityWords, false)))))
  {
    EntityWordsAreWords();
    RemoveWholeWordsRemovesWords(Lower(companyName), EntityWords, false);
    assert FoldAll(EntityWords, false) == EntityWords;
  }

  /** The result is `[a-z0-9-]` with no hyphen at either end and no two in a row. */
  lemma InlineSlugIsClean(companyName: string)
    ensures IsCleanSlug(InlineSlug(companyName))
  {
    EntityWordsAreWords();
    var a := StripDisallowed(RemoveWholeWords(Lower(companyName), EntityWords, false, false));
    var c := CollapseHyphens(HyphenateSpaces(a));
    assert IsSlugText(c);
  }

  /**
   * A name whose lower-cased, entity-free and filtered form is alphanumeric
   * words separated by single spaces or single hyphens gets those words
   * joined by single hyphens.
   */
  lemma InlineSlugOfWords(companyName: string, ws: seq<string>, sep: char)
    requires AreAlnumWords(ws) && |ws| >= 1 && (sep == ' ' || sep == '-')
    requires StripDisallowed(RemoveWords(Lower(companyName), EntityWords, false)) == Join(ws, sep)
    ensures InlineSlug(companyName) == Join(ws, '-')
  {
    InlineSlugRemovesEntityWords(companyName);
    HyphenatedWords(ws, sep, false);
    JoinIsClean(ws);
    CleanSlugIsTrimmed(Join(ws, '-'));
  }
}
