/**
 * The create-prototype endpoint: the company slug generator and the request
 * rules of its POST handler (required fields, calendar link, demo URL and the
 * mapping it asks the company-assistant directory to store).
 */
module CreatePrototype {
  import opened Wrappers
  import opened JsText
  import opened SlugRegex

  /** The business suffixes stripped from a company name, in the order they are tried. */
  const BusinessSuffixes: seq<string> := [
    "LLC", "Inc", "Corporation", "Corp", "Limited", "Ltd", "Company", "Co",
    "Solutions", "Services", "Group", "Partners", "Associates", "Enterprises",
    "Technologies", "Tech", "Systems", "Consulting", "Holdings"
  ]

  const MaxSlugLength := 30
  const MaxImportantWords := 3
  const FallbackLength := 10

  lemma SuffixesAreWords()
    ensures AreWords(BusinessSuffixes)
  {
    forall i | 0 <= i < |BusinessSuffixes| ensures IsWordText(BusinessSuffixes[i]) {
      if i < 10 {
        SuffixIsWordLow(i);
      } else {
        SuffixIsWordHigh(i);
      }
    }
  }

  lemma SuffixIsWordLow(i: nat)
    requires i < 10
    ensures IsWordText(BusinessSuffixes[i])
  {
  }

  lemma SuffixIsWordHigh(i: nat)
    requires 10 <= i < |BusinessSuffixes|
    ensures IsWordText(BusinessSuffixes[i])
  {
  }

  /** The chained replaces that turn the suffix-free name into a slug. */
  function CleanSlug(cleanName: string): string {
    TrimHyphens(Trim(CollapseHyphens(HyphenateSpaces(StripDisallowed(Lower(cleanName))))))
  }

  /** Before any word selection or fallback the slug is already URL-safe. */
  lemma CleanSlugIsClean(cleanName: string)
    ensures IsCleanSlug(CleanSlug(cleanName))
  {
    var a := StripDisallowed(Lower(cleanName));
    var b := HyphenateSpaces(a);
    var c := CollapseHyphens(b);
    assert IsSlugText(c);
    assert Trim(c) == c;
  }

  /** `slug.split('-').filter(word => word.length > 0)` */
  function SlugWords(slug: string): seq<string> {
    FilterLongerThan(Split(slug, '-'), 0)
  }

  lemma SlugWordsAreAlnum(slug: string)
    requires IsSlugText(slug)
    ensures AreAlnumWords(SlugWords(slug))
  {
    var parts := Split(slug, '-');
    var ws := SlugWords(slug);
    FilterMembers(parts, 0);
    forall i | 0 <= i < |ws|
      ensures |ws[i]| > 0 && forall j :: 0 <= j < |ws[i]| ==> IsLowerAlnum(ws[i][j])
    {
      assert ws[i] in ws;
      var p :| 0 <= p < |parts| && parts[p] == ws[i];
      forall j | 0 <= j < |ws[i]| ensures IsLowerAlnum(ws[i][j]) {
        assert parts[p][j] in slug;
        assert parts[p][j] != '-';
      }
    }
  }

  lemma FilteredWordsAreAlnum(ws: seq<string>, n: nat)
    requires AreAlnumWords(ws)
    ensures AreAlnumWords(FilterLongerThan(ws, n))
  {
    var r := FilterLongerThan(ws, n);
    FilterMembers(ws, n);
    forall i | 0 <= i < |r|
      ensures |r[i]| > 0 && forall j :: 0 <= j < |r[i]| ==> IsLowerAlnum(r[i][j])
    {
      assert r[i] in r;
      var p :| 0 <= p < |ws| && ws[p] == r[i];
    }
  }

  /** What the truncation loop charges for a word list: each word plus one hyphen. */
  function Cost(ws: seq<string>): nat
    decreases |ws|
  {
    if ws == [] then 0 else |ws[0]| + 1 + Cost(ws[1..])
  }

  lemma {:induction false} JoinLength(ws: seq<string>)
    requires |ws| > 0
    ensures |Join(ws, '-')| + 1 == Cost(ws)
    decreases |ws|
  {
    if |ws| > 1 {
      JoinLength(ws[1..]);
    }
  }

  /** The words that fit into `budget` when each costs its length plus one, taken from the front. */
  function TakeWithin(ws: seq<string>, budget: int): seq<string>
    decreases |ws|
  {
    if ws == [] then []
    else if |ws[0]| + 1 <= budget then [ws[0]] + TakeWithin(ws[1..], budget - |ws[0]| - 1)
    else []
  }

  lemma TakeWithinFrom(ws: seq<string>, i: nat, budget: int)
    requires i < |ws|
    ensures TakeWithin(ws[i..], budget)
         == if |ws[i]| + 1 <= budget then [ws[i]] + TakeWithin(ws[i + 1..], budget - |ws[i]| - 1)
            else []
  {
    assert ws[i..][1..] == ws[i + 1..];
  }

  /** The truncation keeps the longest prefix of the words whose cost is within budget. */
  lemma {:induction false} TakeWithinIsLongestPrefix(ws: seq<string>, budget: int)
    requires budget >= 0
    ensures var t := TakeWithin(ws, budget);
      |t| <= |ws| && t == ws[..|t|] && Cost(t) <= budget
      && (|t| < |ws| ==> Cost(ws[..|t| + 1]) > budget)
    decreases |ws|
  {
    if ws != [] {
      var t := TakeWithin(ws, budget);
      if |ws[0]| + 1 <= budget {
        var b := budget - |ws[0]| - 1;
        TakeWithinIsLongestPrefix(ws[1..], b);
        var t' := TakeWithin(ws[1..], b);
        assert t == [ws[0]] + t';
        assert t == ws[..|t|];
        if |t| < |ws| {
          assert ws[..|t| + 1] == [ws[0]] + ws[1..][..|t'| + 1];
          assert ws[..|t| + 1][1..] == ws[1..][..|t'| + 1];
        }
      } else {
        assert ws[..1] == [ws[0]];
        assert ws[..1][1..] == [];
      }
    }
  }

  /** `companyName.toLowerCase().replace(/[^a-z0-9]/g, '').substring(0, 10)` */
  function Fallback(companyName: string): (r: string)
    ensures |r| <= FallbackLength
    ensures IsCleanSlug(r)
    ensures |r| <= |KeepAlnum(Lower(companyName))| && r == KeepAlnum(Lower(companyName))[..|r|]
    ensures |r| == if |KeepAlnum(Lower(companyName))| < FallbackLength then |KeepAlnum(Lower(companyName))|
                   else FallbackLength
  {
    Prefix(KeepAlnum(Lower(companyName)), FallbackLength)
  }

  /** A name of more than three words keeps at most three of its words longer than two characters. */
  function Shorten(slug: string, words: seq<string>): string {
    if |words| <= MaxImportantWords then slug
    else
      var important := FilterLongerThan(words, 2);
      if |important| <= MaxImportantWords then Join(important, '-')
      else Join(important[..MaxImportantWords], '-')
  }

  /** A slug longer than 30 is rebuilt from the leading words that fit. */
  function Cap(slug: string, words: seq<string>): string {
    if |slug| > MaxSlugLength then Join(TakeWithin(words, MaxSlugLength), '-') else slug
  }

  /** A slug shorter than 3 is replaced by the alphanumeric fallback. */
  function WithFallback(companyName: string, slug: string): string {
    if |slug| < 3 then Fallback(companyName) else slug
  }

  /**
   * What the generator makes of the suffix-free name `cleanName`: the cleaned
   * slug, its important words when it has more than three, a cut at a word
   * boundary when it is longer than 30, and the fallback when it is shorter than 3.
   */
  function SlugFromCleanName(companyName: string, cleanName: string): string {
    var slug := CleanSlug(cleanName);
    var words := SlugWords(slug);
    WithFallback(companyName, Cap(Shorten(slug, words), words))
  }

  /** The slug the generator returns for a company name. */
  function CompanySlug(companyName: string): string {
    SlugFromCleanName(companyName, RemoveWords(companyName, FoldAll(BusinessSuffixes, true), true))
  }

  lemma ShortenIsClean(slug: string, words: seq<string>)
    requires IsCleanSlug(slug) && AreAlnumWords(words)
    ensures IsCleanSlug(Shorten(slug, words))
  {
    if |words| > MaxImportantWords {
      var important := FilterLongerThan(words, 2);
      FilteredWordsAreAlnum(words, 2);
      if |important| <= MaxImportantWords {
        JoinIsClean(important);
      } else {
        JoinIsClean(important[..MaxImportantWords]);
      }
    }
  }

  /** The words kept by the cut are alphanumeric and cost at most 30. */
  lemma TakeWithinIsClean(words: seq<string>)
    requires AreAlnumWords(words)
    ensures IsCleanSlug(Join(TakeWithin(words, MaxSlugLength), '-'))
    ensures |Join(TakeWithin(words, MaxSlugLength), '-')| <= MaxSlugLength
  {
    var t := TakeWithin(words, MaxSlugLength);
    TakeWithinIsLongestPrefix(words, MaxSlugLength);
    assert AreAlnumWords(t) by {
      forall i | 0 <= i < |t| ensures t[i] == words[i] {
      }
    }
    JoinIsClean(t);
    if |t| > 0 {
      JoinLength(t);
    }
  }

  lemma CapIsClean(slug: string, words: seq<string>)
    requires IsCleanSlug(slug) && AreAlnumWords(words)
    ensures IsCleanSlug(Cap(slug, words)) && |Cap(slug, words)| <= MaxSlugLength
  {
    if |slug| > MaxSlugLength {
      TakeWithinIsClean(words);
    }
  }

  /** Every slug is at most 30 characters of `[a-z0-9-]` with no stray hyphens. */
  lemma SlugFromCleanNameIsClean(companyName: string, cleanName: string)
    ensures |SlugFromCleanName(companyName, cleanName)| <= MaxSlugLength
    ensures IsCleanSlug(SlugFromCleanName(companyName, cleanName))
  {
    var slug := CleanSlug(cleanName);
    CleanSlugIsClean(cleanName);
    var words := SlugWords(slug);
    SlugWordsAreAlnum(slug);
    ShortenIsClean(slug, words);
    var capped := Cap(Shorten(slug, words), words);
    CapIsClean(Shorten(slug, words), words);
    assert SlugFromCleanName(companyName, cleanName) == WithFallback(companyName, capped);
    assert IsCleanSlug(WithFallback(companyName, capped)) && |WithFallback(companyName, capped)| <= MaxSlugLength;
  }

  /** Every slug is at most 30 characters of `[a-z0-9-]` with no stray hyphens. */
  lemma CompanySlugIsClean(companyName: string)
    ensures |CompanySlug(companyName)| <= MaxSlugLength
    ensures IsCleanSlug(CompanySlug(companyName))
  {
    SlugFromCleanNameIsClean(companyName, RemoveWords(companyName, FoldAll(BusinessSuffixes, true), true));
  }

  /**
   * Alphanumeric words separated by single spaces or single hyphens, perhaps
   * with one more separator at the end, are cleaned into the same words
   * joined by single hyphens, and that slug splits back into the words.
   */
  lemma CleanSlugOfWords(cleanName: string, ws: seq<string>, sep: char, trailing: bool)
    requires AreAlnumWords(ws) && |ws| >= 1 && (sep == ' ' || sep == '-')
    requires StripDisallowed(Lower(cleanName)) == Join(if trailing then ws + [""] else ws, sep)
    ensures CleanSlug(cleanName) == Join(ws, '-')
    ensures SlugWords(Join(ws, '-')) == ws
  {
    HyphenatedWords(ws, sep, trailing);
    TrimmedWords(ws, trailing);
    SlugWordsOfJoin(ws);
  }

  /** Alphanumeric words joined by hyphens split back into the same words. */
  lemma SlugWordsOfJoin(ws: seq<string>)
    requires AreAlnumWords(ws) && |ws| >= 1
    ensures SlugWords(Join(ws, '-')) == ws
  {
    assert forall i :: 0 <= i < |ws| ==> '-' !in ws[i] by {
      forall i, k | 0 <= i < |ws| && 0 <= k < |ws[i]| ensures ws[i][k] != '-' {
      }
    }
    SplitJoin(ws, '-');
    FilterKeepsAll(ws, 0);
  }

  /**
   * A name of at most three such words, 3 to 30 characters once hyphenated,
   * keeps every word: no selection, no cut and no fallback applies.
   */
  lemma SlugOfFewWords(companyName: string, cleanName: string, ws: seq<string>, sep: char, trailing: bool)
    requires AreAlnumWords(ws) && |ws| >= 1 && (sep == ' ' || sep == '-')
    requires StripDisallowed(Lower(cleanName)) == Join(if trailing then ws + [""] else ws, sep)
    requires |ws| <= MaxImportantWords && 3 <= |Join(ws, '-')| <= MaxSlugLength
    ensures SlugFromCleanName(companyName, cleanName) == Join(ws, '-')
  {
    CleanSlugOfWords(cleanName, ws, sep, trailing);
    SlugOfCleanWords(companyName, cleanName, ws);
  }

  /**
   * Whatever the separators in the name, a cleaned slug of at most three
   * words and 3 to 30 characters is the generated slug.
   */
  lemma SlugOfCleanWords(companyName: string, cleanName: string, ws: seq<string>)
    requires AreAlnumWords(ws) && 1 <= |ws| <= MaxImportantWords
    requires CleanSlug(cleanName) == Join(ws, '-') && 3 <= |Join(ws, '-')| <= MaxSlugLength
    ensures SlugFromCleanName(companyName, cleanName) == Join(ws, '-')
  {
    SlugWordsOfJoin(ws);
  }

  /**
   * Two alphanumeric words with a run of white space between them, however
   * long, clean to the two words joined by a single hyphen.
   */
  lemma CleanSlugOfSpacedWords(cleanName: string, a: string, w: string, b: string)
    requires AreAlnumWords([a, b]) && |w| > 0 && AllSpace(w)
    requires StripDisallowed(Lower(cleanName)) == a + w + b
    ensures CleanSlug(cleanName) == Join([a, b], '-')
  {
    var j := Join([a, b], '-');
    HyphenateSpacedWords(a, w, b);
    assert IsCleanSlug(j) by {
      JoinIsClean([a, b]);
    }
    assert CollapseHyphens(j) == j by {
      CollapseKeepsSingleHyphens(j);
    }
    assert Trim(j) == j by {
      assert forall i :: 0 <= i < |j| ==> !IsSpace(j[i]);
    }
    CleanSlugIsTrimmed(j);
  }

  /** The alphanumeric filter empties exactly the strings without `[a-z0-9]`. */
  lemma {:induction false} KeepAlnumIsEmpty(s: string)
    ensures KeepAlnum(s) == [] <==> NoAlnum(s)
    decreases |s|
  {
    if s != [] {
      KeepAlnumIsEmpty(s[1..]);
      assert NoAlnum(s) <==> !IsLowerAlnum(s[0]) && NoAlnum(s[1..]) by {
        if !IsLowerAlnum(s[0]) && NoAlnum(s[1..]) {
          forall i | 0 < i < |s| ensures !IsLowerAlnum(s[i]) {
            assert s[i] == s[1..][i - 1];
          }
        }
      }
    }
  }

  /** The fallback is empty exactly when the name has no ASCII letter and no digit. */
  lemma FallbackIsEmptyIff(companyName: string)
    ensures Fallback(companyName) == [] <==> NoLetterOrDigit(companyName)
  {
    assert NoAlnum(Lower(companyName)) <==> NoLetterOrDigit(companyName);
    KeepAlnumIsEmpty(Lower(companyName));
  }

  /** Without a letter or digit the cleaning chain leaves nothing. */
  lemma CleanSlugWithoutLetters(cleanName: string)
    requires NoLetterOrDigit(cleanName)
    ensures CleanSlug(cleanName) == []
  {
    var a := StripDisallowed(Lower(cleanName));
    StripDisallowedNoAlnum(Lower(cleanName));
    HyphenateNoAlnum(a);
    CollapseNoAlnum(HyphenateSpaces(a));
    var c := CollapseHyphens(HyphenateSpaces(a));
    TrimNoAlnum(c);
    TrimNoAlnum(Trim(c));
    CleanSlugIsClean(cleanName);
    NoAlnumCleanIsEmpty(CleanSlug(cleanName));
  }

  /** The slug is empty only when the fallback is, and an empty cleaned slug leaves it to the fallback. */
  lemma SlugFromCleanNameIsEmpty(companyName: string, cleanName: string)
    ensures SlugFromCleanName(companyName, cleanName) == [] ==> Fallback(companyName) == []
    ensures CleanSlug(cleanName) == [] ==> SlugFromCleanName(companyName, cleanName) == Fallback(companyName)
  {
    var slug := CleanSlug(cleanName);
    var words := SlugWords(slug);
    var capped := Cap(Shorten(slug, words), words);
    assert SlugFromCleanName(companyName, cleanName) == WithFallback(companyName, capped);
    assert WithFallback(companyName, capped) == [] ==> Fallback(companyName) == [];
    if slug == [] {
      EmptySlugStaysEmpty();
      assert WithFallback(companyName, capped) == Fallback(companyName);
    }
  }


  lemma EmptySlugStaysEmpty()
    ensures Cap(Shorten([], SlugWords([])), SlugWords([])) == []
  {
    assert Split([], '-') == [""];
  }

  /**
   * The slug is empty exactly when the company name has no ASCII letter and
   * no digit: the fallback then has nothing to keep either.
   */
  lemma CompanySlugIsEmptyIff(companyName: string)
    ensures CompanySlug(companyName) == [] <==> NoLetterOrDigit(companyName)
  {
    var clean := RemoveWords(companyName, FoldAll(BusinessSuffixes, true), true);
    FallbackIsEmptyIff(companyName);
    SlugFromCleanNameIsEmpty(companyName, clean);
    if NoLetterOrDigit(companyName) {
      RemoveWordsNoLetterOrDigit(companyName, FoldAll(BusinessSuffixes, true), true);
      CleanSlugWithoutLetters(clean);
    }
  }

  /** The `forEach` over the suffixes: each one removed as a whole word, case-insensitively. */
  method StripBusinessSuffixes(companyName: string) returns (cleanName: string)
    ensures cleanName == RemoveWords(companyName, FoldAll(BusinessSuffixes, true), true)
  {
    cleanName := companyName;
    RemoveNoWords(companyName, true);
    SuffixesAreWords();
    for i := 0 to |BusinessSuffixes|
      invariant cleanName == RemoveWords(companyName, FoldAll(BusinessSuffixes, true)[..i], true)
    {
      RemoveNextWord(companyName, cleanName, BusinessSuffixes, i, true);
      cleanName := RemoveWholeWords(cleanName, [BusinessSuffixes[i]], true, false);
    }
    assert FoldAll(BusinessSuffixes, true)[..|BusinessSuffixes|] == FoldAll(BusinessSuffixes, true);
  }

  /** The loop that keeps whole words from the front while the running length stays within 30. */
  method TruncateWords(words: seq<string>) returns (truncatedWords: seq<string>)
    ensures truncatedWords == TakeWithin(words, MaxSlugLength)
  {
    truncatedWords := [];
    var currentLength := 0;
    var i := 0;
    assert words[0..] == words;
    while i < |words|
      invariant 0 <= i <= |words|
      invariant TakeWithin(words, MaxSlugLength)
             == truncatedWords + TakeWithin(words[i..], MaxSlugLength - currentLength)
    {
      TakeWithinFrom(words, i, MaxSlugLength - currentLength);
      if currentLength + |words[i]| + 1 <= MaxSlugLength {
        ghost var before := truncatedWords;
        truncatedWords := truncatedWords + [words[i]];
        currentLength := currentLength + |words[i]| + 1;
        i := i + 1;
        assert before + ([words[i - 1]] + TakeWithin(words[i..], MaxSlugLength - currentLength))
            == truncatedWords + TakeWithin(words[i..], MaxSlugLength - currentLength);
      } else {
        assert truncatedWords + [] == truncatedWords;
        break;
      }
    }
    assert i == |words| ==> words[i..] == [];
  }

  /**
   * The second half of createCompanySlug, from the cleaned slug on: keeps the
   * important words of a long name, cuts an over-long slug at a word boundary
   * and falls back to the alphanumeric prefix of the name.
   */
  method SelectWords(companyName: string, cleaned: string) returns (slug: string)
    ensures var words := SlugWords(cleaned);
      slug == WithFallback(companyName, Cap(Shorten(cleaned, words), words))
  {
    slug := cleaned;
    var words := SlugWords(slug);
    if |words| > MaxImportantWords {
      var importantWords := FilterLongerThan(words, 2);
      if |importantWords| <= MaxImportantWords {
        slug := Join(importantWords, '-');
      } else {
        slug := Join(importantWords[..MaxImportantWords], '-');
      }
    }

    if |slug| > MaxSlugLength {
      var truncatedWords := TruncateWords(words);
      slug := Join(truncatedWords, '-');
    }

    if |slug| < 3 {
      slug := Fallback(companyName);
    }
  }

  /**
   * createCompanySlug: strips the business suffixes, cleans the name, then
   * selects the words of the slug.
   */
  method CreateCompanySlug(companyName: string) returns (slug: string)
    ensures slug == CompanySlug(companyName)
  {
    var cleanName := StripBusinessSuffixes(companyName);
    slug := SelectWords(companyName, CleanSlug(cleanName));
  }

  const CalendarBase: string := "https://calendly.com/"
  const DemoBase: string := "https://solarbookers.com"

  /** What the POST handler answers. */
  datatype CreateResponse =
    | Created(assistantId: string, demoUrl: string, companySlug: string, calendarLink: string)
    | FieldsRequired
    | CreationFailed
  {
    function Status(): int {
      match this
      case Created(_, _, _, _) => 200
      case FieldsRequired => 400
      case CreationFailed => 500
    }
  }

  /** The four fields the POST handler requires, each present and non-empty. */
  predicate HasRequiredFields(body: map<string, string>) {
    Get(body, "name") != "" && Get(body, "organization_name") != ""
    && Get(body, "client_company_name") != "" && Get(body, "client_website") != ""
  }

  /**
   * The POST handler. `body` is the parsed JSON body, None when it does not
   * parse; `assistantId` is the id the assistant service returns, None when
   * creating the assistant fails. The storage call that follows cannot change
   * the answer: its failures are only logged.
   */
  function PostOutcome(body: Option<map<string, string>>, assistantId: Option<string>): CreateResponse {
    if body.None? then CreationFailed
    else if !HasRequiredFields(body.value) then FieldsRequired
    else if assistantId.None? then CreationFailed
    else
      var slug := CompanySlug(body.value["organization_name"]);
      Created(assistantId.value, DemoBase + "/" + slug, slug, CalendarBase + slug)
  }

  /** A parsed body without every required field answers 400, whatever the assistant service would do. */
  lemma PostRequiresFields(fields: map<string, string>, assistantId: Option<string>)
    ensures PostOutcome(Some(fields), assistantId).Status() == 400 <==> !HasRequiredFields(fields)
    ensures !HasRequiredFields(fields) ==> PostOutcome(Some(fields), assistantId) == PostOutcome(Some(fields), None)
  {
  }

  /**
   * A created demo is named by the slug of `organization_name`: the slug is
   * clean and at most 30 characters, the calendar link and the demo URL are
   * the slug after their fixed prefixes.
   */
  lemma PostLinks(fields: map<string, string>, assistantId: string)
    requires HasRequiredFields(fields)
    ensures var r := PostOutcome(Some(fields), Some(assistantId));
      r.Created? && r.assistantId == assistantId
      && r.companySlug == CompanySlug(fields["organization_name"])
      && IsCleanSlug(r.companySlug) && |r.companySlug| <= MaxSlugLength
      && r.calendarLink == CalendarBase + r.companySlug
      && r.demoUrl == DemoBase + "/" + r.companySlug
  {
    CompanySlugIsClean(fields["organization_name"]);
  }

  /** The handler fails with 500 exactly when the body does not parse or, past validation, the assistant is not created. */
  lemma PostFails(body: Option<map<string, string>>, assistantId: Option<string>)
    ensures PostOutcome(body, assistantId).Status() == 500
        <==> body.None? || (HasRequiredFields(body.value) && assistantId.None?)
  {
  }
}
