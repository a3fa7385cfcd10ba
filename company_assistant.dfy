/**
 * The company directory: an in-memory map from company slug to assistant
 * id, written by the store handler and read by the lookup handler. A field
 * that is missing or empty counts as absent, as JavaScript's `!` sees it.
 */
module CompanyAssistant {
  import opened Wrappers

  /** What the store handler answers. */
  datatype StoreResponse =
    | Stored(companySlug: string, assistantId: string)
    | StoreFieldsRequired
  {
    function Status(): int {
      if Stored? then 200 else 400
    }
  }

  /** What the lookup handler answers. */
  datatype LookupResponse =
    | Found(assistantId: string, companySlug: string)
    | CompanyRequired
    | NoAssistant
  {
    function Status(): int {
      match this
      case Found(_, _) => 200
      case CompanyRequired => 400
      case NoAssistant => 404
    }
  }

  /** The answer to a store request. */
  function StoreOutcome(companySlug: Option<string>, assistantId: Option<string>): StoreResponse {
    if !Truthy(companySlug) || !Truthy(assistantId) then StoreFieldsRequired
    else Stored(companySlug.value, assistantId.value)
  }

  /** The directory after a store request: one entry set, last write wins. */
  function AfterStore(assistants: map<string, string>, companySlug: Option<string>, assistantId: Option<string>)
    : map<string, string>
  {
    if !Truthy(companySlug) || !Truthy(assistantId) then assistants
    else assistants[companySlug.value := assistantId.value]
  }

  /** The answer to a lookup of the `company` query parameter. */
  function LookupIn(assistants: map<string, string>, company: Option<string>): LookupResponse {
    if !Truthy(company) then CompanyRequired
    else if company.value !in assistants || assistants[company.value] == "" then NoAssistant
    else Found(assistants[company.value], company.value)
  }

  /** Only non-empty slugs and non-empty ids are ever stored. */
  predicate StoresOnlyTruthy(assistants: map<string, string>) {
    forall k :: k in assistants ==> k != "" && assistants[k] != ""
  }

  class AssistantDirectory {
    var assistants: map<string, string>

    predicate Valid()
      reads this
    {
      StoresOnlyTruthy(assistants)
    }

    /** The map is empty when the server starts. */
    constructor()
      ensures Valid() && assistants == map[]
    {
      assistants := map[];
    }

    /** The store handler. */
    method Store(companySlug: Option<string>, assistantId: Option<string>) returns (r: StoreResponse)
      requires Valid()
      modifies this
      ensures Valid()
      ensures r == StoreOutcome(companySlug, assistantId)
      ensures assistants == AfterStore(old(assistants), companySlug, assistantId)
    {
      if !Truthy(companySlug) || !Truthy(assistantId) {
        return StoreFieldsRequired;
      }
      assistants := assistants[companySlug.value := assistantId.value];
      r := Stored(companySlug.value, assistantId.value);
    }

    /** The lookup handler; it changes nothing. */
    method Lookup(company: Option<string>) returns (r: LookupResponse)
      requires Valid()
      ensures r == LookupIn(assistants, company)
      ensures r.Found? <==> Truthy(company) && company.value in assistants
      ensures r.Found? ==> r.companySlug == company.value && r.assistantId == assistants[company.value]
    {
      if !Truthy(company) {
        return CompanyRequired;
      }
      var slug := company.value;
      if slug !in assistants {
        return NoAssistant;
      }
      var assistantId := assistants[slug];
      if assistantId == "" {
        return NoAssistant;
      }
      r := Found(assistantId, slug);
    }
  }

  /** A store with a missing or empty field answers 400 and leaves the directory as it was. */
  lemma StoreRejectsMissingFields(assistants: map<string, string>, companySlug: Option<string>, assistantId: Option<string>)
    ensures StoreOutcome(companySlug, assistantId).Status() == 400
        <==> !Truthy(companySlug) || !Truthy(assistantId)
    ensures StoreOutcome(companySlug, assistantId).Status() == 400
        ==> AfterStore(assistants, companySlug, assistantId) == assistants
  {
  }

  /** A valid store keeps the directory free of empty slugs and ids. */
  lemma StoreKeepsTruthy(assistants: map<string, string>, companySlug: Option<string>, assistantId: Option<string>)
    requires StoresOnlyTruthy(assistants)
    ensures StoresOnlyTruthy(AfterStore(assistants, companySlug, assistantId))
  {
  }

  /** After storing (s, a), looking s up finds a, whatever was stored under s before. */
  lemma StoreThenLookup(assistants: map<string, string>, companySlug: string, assistantId: string)
    requires companySlug != "" && assistantId != ""
    ensures LookupIn(AfterStore(assistants, Some(companySlug), Some(assistantId)), Some(companySlug))
         == Found(assistantId, companySlug)
  {
  }

  /** A store touches no other slug. */
  lemma StoreKeepsOtherSlugs(assistants: map<string, string>, companySlug: Option<string>, assistantId: Option<string>, other: string)
    requires !Truthy(companySlug) || other != companySlug.value
    ensures var after := AfterStore(assistants, companySlug, assistantId);
      (other in after <==> other in assistants) && (other in assistants ==> after[other] == assistants[other])
    ensures LookupIn(AfterStore(assistants, companySlug, assistantId), Some(other)) == LookupIn(assistants, Some(other))
  {
  }

  /** No request removes a slug: the set of stored slugs only grows. */
  lemma StoreOnlyAddsSlugs(assistants: map<string, string>, companySlug: Option<string>, assistantId: Option<string>)
    ensures assistants.Keys <= AfterStore(assistants, companySlug, assistantId).Keys
  {
  }

  /** The lookup answers 400 exactly when the query parameter is missing or empty. */
  lemma LookupNeedsCompany(assistants: map<string, string>, company: Option<string>)
    ensures LookupIn(assistants, company).Status() == 400 <==> !Truthy(company)
  {
  }

  /** In a directory of non-empty ids, a lookup answers 404 exactly for a slug never stored. */
  lemma LookupMissesUnstored(assistants: map<string, string>, company: string)
    requires StoresOnlyTruthy(assistants) && company != ""
    ensures LookupIn(assistants, Some(company)).Status() == 404 <==> company !in assistants
  {
  }
}
