/**
 * How the handlers fit together: creating a demo stores its assistant in
 * the company directory under the demo's slug, and later lookups use a slug
 * of their own making.
 */
module DemoFlow {
  import opened Wrappers
  import SlugRegex
  import CreatePrototype
  import CompanyAssistant
  import TestSuite
  import SlugExamples

  /**
   * The directory after a create-prototype request: a created demo posts
   * its slug and assistant id to the store handler. `stored` says whether
   * that request reached the directory and was accepted; when it was not,
   * the handler only logs the failure and the directory is as it was.
   */
  function DirectoryAfterCreate(assistants: map<string, string>, body: Option<map<string, string>>,
                                assistantId: Option<string>, stored: bool): map<string, string>
  {
    var r := CreatePrototype.PostOutcome(body, assistantId);
    if !stored then assistants
    else if r.Created? then CompanyAssistant.AfterStore(assistants, Some(r.companySlug), Some(r.assistantId))
    else assistants
  }

  /** A created demo with a non-empty slug and id, whose store request arrived, can be looked up by that slug. */
  lemma CreatedDemoIsFound(assistants: map<string, string>, fields: map<string, string>, assistantId: string, stored: bool)
    requires CreatePrototype.HasRequiredFields(fields) && assistantId != ""
    requires CreatePrototype.CompanySlug(fields["organization_name"]) != ""
    requires stored
    ensures var slug := CreatePrototype.CompanySlug(fields["organization_name"]);
      CompanyAssistant.LookupIn(DirectoryAfterCreate(assistants, Some(fields), Some(assistantId), stored), Some(slug))
      == CompanyAssistant.Found(assistantId, slug)
  {
    var slug := CreatePrototype.CompanySlug(fields["organization_name"]);
    CreatedStore(assistants, fields, assistantId, stored);
    CompanyAssistant.StoreThenLookup(assistants, slug, assistantId);
  }

  /**
   * A created demo leads to exactly one store request, of its slug and its
   * assistant id, and the directory changes only when that request arrives.
   */
  lemma CreatedStore(assistants: map<string, string>, fields: map<string, string>, assistantId: string, stored: bool)
    requires CreatePrototype.HasRequiredFields(fields)
    ensures var slug := CreatePrototype.CompanySlug(fields["organization_name"]);
      stored ==> DirectoryAfterCreate(assistants, Some(fields), Some(assistantId), stored)
                 == CompanyAssistant.AfterStore(assistants, Some(slug), Some(assistantId))
    ensures !stored ==> DirectoryAfterCreate(assistants, Some(fields), Some(assistantId), stored) == assistants
  {
    if stored {
      CreatePrototype.PostLinks(fields, assistantId);
    }
  }

  /**
   * When the store request fails or is refused the demo is still answered
   * with 200 and its slug, and the directory does not hold it.
   */
  lemma StoreFailureStillCreated(assistants: map<string, string>, fields: map<string, string>, assistantId: string)
    requires CreatePrototype.HasRequiredFields(fields)
    ensures var r := CreatePrototype.PostOutcome(Some(fields), Some(assistantId));
      r.Created? && r.Status() == 200
      && r.companySlug == CreatePrototype.CompanySlug(fields["organization_name"])
    ensures DirectoryAfterCreate(assistants, Some(fields), Some(assistantId), false) == assistants
  {
    CreatePrototype.PostLinks(fields, assistantId);
    UnstoredKeepsDirectory(assistants, Some(fields), Some(assistantId));
  }

  /** A store request that did not arrive leaves the directory as it was, whatever the request. */
  lemma UnstoredKeepsDirectory(assistants: map<string, string>, body: Option<map<string, string>>,
                               assistantId: Option<string>)
    ensures DirectoryAfterCreate(assistants, body, assistantId, false) == assistants
  {
  }

  /** A store request for an empty slug is refused, so it leaves the directory as it was. */
  lemma StoreOfEmptySlug(assistants: map<string, string>, body: Option<map<string, string>>,
                         assistantId: Option<string>)
    requires var r := CreatePrototype.PostOutcome(body, assistantId); r.Created? ==> r.companySlug == ""
    ensures DirectoryAfterCreate(assistants, body, assistantId, true) == assistants
  {
  }

  /**
   * An organisation named without any ASCII letter or digit, such as "!!!",
   * gets a demo, answered with 200 and an empty slug, whose assistant the
   * directory refuses to store.
   */
  lemma UnsluggableDemoIsNotStored(assistants: map<string, string>, fields: map<string, string>, assistantId: string,
                                   stored: bool)
    requires CreatePrototype.HasRequiredFields(fields)
    requires SlugRegex.NoLetterOrDigit(fields["organization_name"])
    ensures var r := CreatePrototype.PostOutcome(Some(fields), Some(assistantId));
      r.Status() == 200 && r.companySlug == ""
      && CompanyAssistant.StoreOutcome(Some(r.companySlug), Some(r.assistantId)).Status() == 400
    ensures DirectoryAfterCreate(assistants, Some(fields), Some(assistantId), stored) == assistants
  {
    CreatePrototype.CompanySlugIsEmptyIff(fields["organization_name"]);
    CreatePrototype.PostLinks(fields, assistantId);
    EmptySlugIsNotStored(CreatePrototype.PostOutcome(Some(fields), Some(assistantId)));
    if stored {
      StoreOfEmptySlug(assistants, Some(fields), Some(assistantId));
    } else {
      UnstoredKeepsDirectory(assistants, Some(fields), Some(assistantId));
    }
  }

  /** A created demo with an empty slug is answered with 200, and its store request with 400. */
  lemma EmptySlugIsNotStored(r: CreatePrototype.CreateResponse)
    requires r.Created? && r.companySlug == ""
    ensures r.Status() == 200
    ensures CompanyAssistant.StoreOutcome(Some(r.companySlug), Some(r.assistantId)).Status() == 400
  {
  }

  /**
   * A demo created for the test suite's default company, whose store
   * request arrived, is stored under "test-solar", the slug the self test
   * looks up. The self test finds it only when it runs against the
   * directory the store request wrote to.
   */
  lemma DefaultCompanyDemoIsFound(fields: map<string, string>, assistantId: string, stored: bool)
    requires CreatePrototype.HasRequiredFields(fields)
    requires fields["organization_name"] == TestSuite.DefaultCompanyName && assistantId != ""
    requires stored
    ensures CompanyAssistant.LookupIn(DirectoryAfterCreate(map[], Some(fields), Some(assistantId), stored), Some("test-solar"))
         == CompanyAssistant.Found(assistantId, "test-solar")
  {
    SlugExamples.DefaultNameSlug();
    CreatedDemoIsFound(map[], fields, assistantId, stored);
  }

  /**
   * The test suite's own slug for its default company, "test-solar-company",
   * is not the slug its demo is stored under: it finds nothing in a
   * directory holding only that demo.
   */
  lemma DefaultCompanyInlineSlugMisses(assistantId: string)
    requires assistantId != ""
    ensures var directory := CompanyAssistant.AfterStore(map[], Some("test-solar"), Some(assistantId));
      CompanyAssistant.LookupIn(directory, Some(TestSuite.InlineSlug(TestSuite.DefaultCompanyName))).Status() == 404
  {
    SlugExamples.DefaultNameInlineSlug();
  }
}
