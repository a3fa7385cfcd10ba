/**
 * The two slug generators on concrete names: where they differ from each
 * other, and where the create-prototype generator is not idempotent or
 * returns an empty slug.
 */
module SlugExamples {
  import opened JsText
  import opened SlugRegex
  import opened CreatePrototype
  import opened TestSuite

  /** The business suffixes after case folding. */
  const LowerSuffixes: seq<string> := [
    "llc", "inc", "corporation", "corp", "limited", "ltd", "company", "co",
    "solutions", "services", "group", "partners", "associates", "enterprises",
    "technologies", "tech", "systems", "consulting", "holdings"
  ]

  lemma FoldedSuffixAt0(j: nat)
    requires j < 5
    ensures FoldAll(BusinessSuffixes, true)[j] == LowerSuffixes[j]
  {
    if j == 0 {
      assert Lower("LLC") == "llc";
    } else if j == 1 {
      assert Lower("Inc") == "inc";
    } else if j == 2 {
      assert Lower("Corporation") == "corporation";
    } else if j == 3 {
      assert Lower("Corp") == "corp";
    } else if j == 4 {
      assert Lower("Limited") == "limited";
    }
  }

  lemma FoldedSuffixAt1(j: nat)
    requires 5 <= j < 10
    ensures FoldAll(BusinessSuffixes, true)[j] == LowerSuffixes[j]
  {
    if j == 5 {
      assert Lower("Ltd") == "ltd";
    } else if j == 6 {
      assert Lower("Company") == "company";
    } else if j == 7 {
      assert Lower("Co") == "co";
    } else if j == 8 {
      assert Lower("Solutions") == "solutions";
    } else if j == 9 {
      assert Lower("Services") == "services";
    }
  }

  lemma FoldedSuffixAt2(j: nat)
    requires 10 <= j < 15
    ensures FoldAll(BusinessSuffixes, true)[j] == LowerSuffixes[j]
  {
    if j == 10 {
      assert Lower("Group") == "group";
    } else if j == 11 {
      assert Lower("Partners") == "partners";
    } else if j == 12 {
      assert Lower("Associates") == "associates";
    } else if j == 13 {
      assert Lower("Enterprises") == "enterprises";
    } else if j == 14 {
      assert Lower("Technologies") == "technologies";
    }
  }

  lemma FoldedSuffixAt3(j: nat)
    requires 15 <= j < 19
    ensures FoldAll(BusinessSuffixes, true)[j] == LowerSuffixes[j]
  {
    if j == 15 {
      assert Lower("Tech") == "tech";
    } else if j == 16 {
      assert Lower("Systems") == "systems";
    } else if j == 17 {
      assert Lower("Consulting") == "consulting";
    } else if j == 18 {
      assert Lower("Holdings") == "holdings";
    }
  }

  lemma FoldedSuffixes()
    ensures FoldAll(BusinessSuffixes, true) == LowerSuffixes
  {
    forall j | 0 <= j < |BusinessSuffixes|
      ensures FoldAll(BusinessSuffixes, true)[j] == LowerSuffixes[j]
    {
      if j < 5 {
        FoldedSuffixAt0(j);
      } else if j < 10 {
        FoldedSuffixAt1(j);
      } else if j < 15 {
        FoldedSuffixAt2(j);
      } else {
        FoldedSuffixAt3(j);
      }
    }
  }

  /** `\bCo\b` does not touch the "Co" at the start of "Cooper". */
  lemma CooperKeepsCo()
    ensures RemoveWholeWords("Cooper", ["Co"], true, false) == "Cooper"
  {
    var s := "Cooper";
    RemoveWholeWordRemovesWord(s, "Co", true);
    WordThenRest(s, "", [Fold("Co", true)], true);
    assert s + "" == s;
    assert |Fold(s, true)| != |Fold("Co", true)|;
  }

  /** Which of the words of the example names are business suffixes. */
  lemma SuffixMembers()
    ensures "company" in FoldAll(BusinessSuffixes, true) && "co" in FoldAll(BusinessSuffixes, true)
    ensures "test" !in FoldAll(BusinessSuffixes, true) && "solar" !in FoldAll(BusinessSuffixes, true)
    ensures "acme" !in FoldAll(BusinessSuffixes, true) && "c_o" !in FoldAll(BusinessSuffixes, true)
  {
    FoldedSuffixes();
    CompanyIsSuffix();
    CoIsSuffix();
    TestIsNoSuffix();
    SolarIsNoSuffix();
    AcmeIsNoSuffix();
    CUnderscoreOIsNoSuffix();
  }

  lemma CompanyIsSuffix() ensures "company" in LowerSuffixes {}
  lemma CoIsSuffix() ensures "co" in LowerSuffixes {}
  lemma TestIsNoSuffix() ensures "test" !in LowerSuffixes {}
  lemma SolarIsNoSuffix() ensures "solar" !in LowerSuffixes {}
  lemma AcmeIsNoSuffix() ensures "acme" !in LowerSuffixes {}
  lemma CUnderscoreOIsNoSuffix() ensures "c_o" !in LowerSuffixes {}

  lemma DefaultNameWordsKept()
    ensures KeepWords(["Test", "Solar", "Company"], FoldAll(BusinessSuffixes, true), true)
         == ["Test", "Solar", ""]
  {
    SuffixMembers();
    assert Fold("Test", true) == "test";
    assert Fold("Solar", true) == "solar";
    assert Fold("Company", true) == "company";
  }

  lemma DefaultNameWords()
    ensures AreWords(["Test", "Solar", "Company"])
    ensures Join(["Test", "Solar", "Company"], ' ') == DefaultCompanyName
    ensures Join(["Test", "Solar", ""], ' ') == "Test Solar "
  {
    JoinThree("Test", "Solar", "Company", ' ');
    assert "Test" + [' '] + "Solar" + [' '] + "Company" == DefaultCompanyName;
    JoinThree("Test", "Solar", "", ' ');
    assert "Test" + [' '] + "Solar" + [' '] + "" == "Test Solar ";
  }

  /** Only "Company" is a business suffix in the test suite's default name. */
  lemma DefaultNameCleanName()
    ensures RemoveWords(DefaultCompanyName, FoldAll(BusinessSuffixes, true), true) == "Test Solar "
  {
    DefaultNameWords();
    RemoveWordsJoined(["Test", "Solar", "Company"], ' ', FoldAll(BusinessSuffixes, true), true);
    DefaultNameWordsKept();
  }

  lemma DefaultNameLowered()
    ensures Lower("Test Solar ") == "test solar "
  {
  }

  lemma DefaultNameFiltered()
    ensures StripDisallowed("test solar ") == "test solar "
  {
    StripDisallowedKeepsAllowed("test solar ");
  }

  lemma DefaultNameSlugWords()
    ensures AreAlnumWords(["test", "solar"])
    ensures Join(["test", "solar"] + [""], ' ') == "test solar "
    ensures Join(["test", "solar"], '-') == "test-solar"
  {
    assert ["test", "solar"] + [""] == ["test", "solar", ""];
    JoinThree("test", "solar", "", ' ');
    assert "test" + [' '] + "solar" + [' '] + "" == "test solar ";
    JoinTwo("test", "solar", '-');
    assert "test" + ['-'] + "solar" == "test-solar";
  }

  /**
   * The generator turns the test suite's default name into "test-solar":
   * "Company" is a business suffix, so it is dropped.
   */
  lemma DefaultNameSlug()
    ensures CompanySlug(DefaultCompanyName) == "test-solar"
  {
    DefaultNameCleanName();
    DefaultNameLowered();
    DefaultNameFiltered();
    DefaultNameSlugWords();
    SlugOfFewWords(DefaultCompanyName, "Test Solar ", ["test", "solar"], ' ', true);
  }

  lemma InlineDefaultLowered()
    ensures Lower(DefaultCompanyName) == "test solar company"
  {
  }

  lemma InlineDefaultWords()
    ensures AreWords(["test", "solar", "company"]) && AreAlnumWords(["test", "solar", "company"])
    ensures Join(["test", "solar", "company"], ' ') == "test solar company"
    ensures Join(["test", "solar", "company"], '-') == "test-solar-company"
  {
    JoinThree("test", "solar", "company", ' ');
    assert "test" + [' '] + "solar" + [' '] + "company" == "test solar company";
    JoinThree("test", "solar", "company", '-');
    assert "test" + ['-'] + "solar" + ['-'] + "company" == "test-solar-company";
  }

  lemma InlineDefaultKept()
    ensures KeepWords(["test", "solar", "company"], EntityWords, false) == ["test", "solar", "company"]
  {
    assert "test" !in EntityWords && "solar" !in EntityWords && "company" !in EntityWords;
  }

  lemma InlineDefaultFiltered()
    ensures StripDisallowed("test solar company") == "test solar company"
  {
    StripDisallowedKeepsAllowed("test solar company");
  }

  /** The test suite's own slug for its default name keeps "company": it is not an entity word. */
  lemma DefaultNameInlineSlug()
    ensures InlineSlug(DefaultCompanyName) == "test-solar-company"
  {
    InlineDefaultLowered();
    InlineDefaultWords();
    EntityWordsAreWords();
    RemoveWordsJoined(["test", "solar", "company"], ' ', EntityWords, false);
    InlineDefaultKept();
    InlineDefaultFiltered();
    InlineSlugOfWords(DefaultCompanyName, ["test", "solar", "company"], ' ');
  }

  /**
   * The slug the test suite computes for its default company is not the one
   * the demo was created under, so its lookup and clean-up miss that demo.
   */
  lemma SlugGeneratorsDisagree()
    ensures InlineSlug(DefaultCompanyName) != CompanySlug(DefaultCompanyName)
  {
    DefaultNameSlug();
    DefaultNameInlineSlug();
  }

  /** A name of punctuation only gets the empty slug, fallback included. */
  lemma PunctuationNameSlug()
    ensures CompanySlug("!!!") == ""
  {
    assert NoLetterOrDigit("!!!");
    CompanySlugIsEmptyIff("!!!");
  }

  lemma UnderscoreNameWords()
    ensures AreWords(["Acme", "C_o"]) && Join(["Acme", "C_o"], ' ') == "Acme C_o"
    ensures KeepWords(["Acme", "C_o"], FoldAll(BusinessSuffixes, true), true) == ["Acme", "C_o"]
  {
    JoinTwo("Acme", "C_o", ' ');
    assert "Acme" + [' '] + "C_o" == "Acme C_o";
    SuffixMembers();
    assert Fold("Acme", true) == "acme";
    assert Fold("C_o", true) == "c_o";
  }

  lemma UnderscoreNameLowered()
    ensures Lower("Acme C_o") == "acme c_o"
  {
  }

  lemma UnderscoreDropped()
    ensures StripDisallowed("_o") == "o"
  {
  }

  lemma UnderscoreNameFiltered()
    ensures StripDisallowed("acme c_o") == "acme co"
  {
    var a, b := "acme c", "_o";
    StripDisallowedConcat(a, b);
    assert a + b == "acme c_o";
    StripDisallowedKeepsAllowed(a);
    UnderscoreDropped();
    assert a + "o" == "acme co";
  }

  lemma HyphenatedSlugWords()
    ensures AreWords(["acme", "co"]) && AreAlnumWords(["acme", "co"])
    ensures Join(["acme", "co"], ' ') == "acme co" && Join(["acme", "co"], '-') == "acme-co"
    ensures KeepWords(["acme", "co"], FoldAll(BusinessSuffixes, true), true) == ["acme", ""]
    ensures Join(["acme", ""], '-') == "acme-"
  {
    JoinTwo("acme", "co", ' ');
    assert "acme" + [' '] + "co" == "acme co";
    JoinTwo("acme", "co", '-');
    assert "acme" + ['-'] + "co" == "acme-co";
    JoinTwo("acme", "", '-');
    assert "acme" + ['-'] + "" == "acme-";
    SuffixMembers();
    assert Fold("acme", true) == "acme";
    assert Fold("co", true) == "co";
  }

  lemma TrailingHyphenFiltered()
    ensures Lower("acme-") == "acme-" && StripDisallowed("acme-") == "acme-"
    ensures AreAlnumWords(["acme"]) && Join(["acme"], '-') == "acme"
    ensures Join(["acme"] + [""], '-') == "acme-"
  {
    StripDisallowedKeepsAllowed("acme-");
    assert ["acme"] + [""] == ["acme", ""];
    JoinTwo("acme", "", '-');
    assert "acme" + ['-'] + "" == "acme-";
  }

  /**
   * The generator is not idempotent: "C_o" is no business suffix, but once
   * the underscore is filtered out the slug ends in the suffix "co", which a
   * second pass removes.
   */
  lemma SlugIsNotIdempotent()
    ensures CompanySlug("Acme C_o") == "acme-co"
    ensures CompanySlug("acme-co") == "acme"
    ensures CompanySlug(CompanySlug("Acme C_o")) != CompanySlug("Acme C_o")
  {
    UnderscoreNameWords();
    RemoveWordsJoined(["Acme", "C_o"], ' ', FoldAll(BusinessSuffixes, true), true);
    UnderscoreNameLowered();
    UnderscoreNameFiltered();
    HyphenatedSlugWords();
    SlugOfFewWords("Acme C_o", "Acme C_o", ["acme", "co"], ' ', false);
    RemoveWordsJoined(["acme", "co"], '-', FoldAll(BusinessSuffixes, true), true);
    TrailingHyphenFiltered();
    SlugOfFewWords("acme-co", "acme-", ["acme"], '-', true);
  }

  lemma EntityOnlyWords()
    ensures Lower("LLC") == "llc"
    ensures AreWords(["llc"]) && Join(["llc"], ' ') == "llc"
    ensures KeepWords(["llc"], EntityWords, false) == [""]
  {
    assert "llc" in EntityWords;
  }

  /** The test suite's slug has no fallback: a bare entity word leaves nothing. */
  lemma EntityOnlyInlineSlug()
    ensures InlineSlug("LLC") == ""
  {
    EntityOnlyWords();
    EntityWordsAreWords();
    RemoveWordsJoined(["llc"], ' ', EntityWords, false);
    InlineSlugRemovesEntityWords("LLC");
  }

  lemma SpacedNameParts()
    ensures "Acme   Solar" == "Acme" + "   " + "Solar"
  {
  }

  lemma SpacedNameWordTexts()
    ensures IsWordText("Acme") && IsWordText("Solar") && AllSpace("   ")
    ensures Fold("Acme", true) == "acme" && Fold("Solar", true) == "solar"
  {
  }

  /** Neither word of "Acme   Solar" is a business suffix, so nothing is removed. */
  lemma SpacedNameCleanName()
    ensures RemoveWords("Acme   Solar", FoldAll(BusinessSuffixes, true), true) == "Acme   Solar"
  {
    SuffixMembers();
    SpacedNameWordTexts();
    SpacedNameParts();
    KeepsSpacedWords("Acme", "   ", "Solar", FoldAll(BusinessSuffixes, true), true);
  }

  lemma SpacedNameLowered()
    ensures Lower("Acme   Solar") == "acme   solar"
  {
  }

  lemma SpacedNameFiltered()
    ensures StripDisallowed("acme   solar") == "acme   solar"
  {
    StripDisallowedKeepsAllowed("acme   solar");
  }

  lemma SpacedNameLowerParts()
    ensures "acme   solar" == "acme" + "   " + "solar"
  {
  }

  lemma SpacedSlugWords()
    ensures AreAlnumWords(["acme", "solar"]) && Join(["acme", "solar"], '-') == "acme-solar"
  {
    JoinTwo("acme", "solar", '-');
    assert "acme" + ['-'] + "solar" == "acme-solar";
  }

  /** The run of three spaces becomes a single hyphen. */
  lemma SpacedNameHyphenated()
    ensures CleanSlug("Acme   Solar") == "acme-solar"
  {
    SpacedNameLowered();
    SpacedNameFiltered();
    SpacedNameLowerParts();
    SpacedSlugWords();
    SpacedNameWordTexts();
    CleanSlugOfSpacedWords("Acme   Solar", "acme", "   ", "solar");
  }

  /** "Acme   Solar" gets "acme-solar", not "acme---solar". */
  lemma SpacedNameSlug()
    ensures CompanySlug("Acme   Solar") == "acme-solar"
  {
    SpacedNameCleanName();
    SpacedNameHyphenated();
    SpacedSlugWords();
    SlugOfCleanWords("Acme   Solar", "Acme   Solar", ["acme", "solar"]);
  }
}
