# Solar lead system — a Dafny model of its request logic

The solar lead system is a Next.js application. For a prospect's company it
creates a demo chat assistant on a hosted assistant service. It names the
demo by a URL slug made from the company name, and it keeps a directory from
company slug to assistant id. Around that sit a few helper endpoints: a demo
clean-up over a key-value store, domain detection, a test relay, a debug
relay and an end-to-end self test.

This project models the logic those endpoints own. One Dafny module stands
for each source file:

- `CreatePrototype` models `createCompanySlug` and the request rules of the
  create-prototype `POST` handler.
  - The generator is an imperative method (`CreateCompanySlug`, with
    `StripBusinessSuffixes`, `SelectWords` and `TruncateWords`).
  - It is proved equal to the specification function `CompanySlug`.
  - Lemmas about `CompanySlug` state the bounds and character-set facts.
- `TestSuite` models the admin test suite's inline slug expression.
- `SlugExamples` pins both slug generators down on concrete names.
- `CompanyAssistant` models the in-memory directory. It is a class with a
  `map<string,string>` field and store/lookup methods.
- `ClearDemo` models the check-then-delete clean-up. It is a class over the
  store's map.
- `DomainUtils` models `detectDomain`, `getCurrentDomain`, `generateFullUrl`
  and `isVercelPreview`.
- `DomainInfo` models the domain report of the domain-info endpoint.
- `TestCreateDemo` models the host choice and the forwarded request of the
  test relay.
- `DebugRelay` models the debug `POST` step log.
  - External calls are inputs: success or failure, and the value or error.
  - The handler is a method that appends steps one by one.
  - It is proved equal to a stage-by-stage specification.
- `TestChatDebug` models the self test's sequencing, as a method, and its
  summary counting.
- `DemoFlow` relates the handlers to one another: what a created demo leaves
  in the directory, and which lookups find it.

Shared modules:

- `Wrappers` holds `Option` and JavaScript truthiness of strings.
- `JsText` holds the JavaScript string built-ins the code uses: `toLowerCase`,
  `split`, `join`, `trim`, `startsWith`, `includes`, `substring`, `filter`
  and `||` chains.
- `SlugRegex` holds the regular-expression replacements of the slug code,
  written out as functions. Among them is the whole-word scan behind
  `\b(…)\b`. It is proved equal to a simpler word-by-word definition.

Conventions:

- Request headers, environment variables and the bodies of the
  create-prototype and test-relay requests are `map<string,string>`.
  - Header names are the lower-case keys that `headers.get` looks up.
  - Case-insensitive header matching is not modelled.
  - A missing entry reads as the empty string, because the code only ever
    tests these values with `!` or `||`.
- The other handlers take their parsed fields as `Option` values:
  - company-assistant and clear-demo take `Option<string>`.
  - The debug relay takes a `DebugRequest`.
  - The self test takes `LookupData`.
  - `None` stands for a field the body does not carry.

Behaviour of the code as written that a reader might not expect:

- `createCompanySlug` can return the empty string. This happens exactly for
  names without an ASCII letter or digit, for example "!!!"
  (`CompanySlugIsEmptyIff`). The comment on the fallback implies that it
  repairs an empty slug, but for such names the fallback is itself empty.
- `createCompanySlug` is not idempotent: "Acme C_o" gives "acme-co", and
  "acme-co" gives "acme" (`SlugIsNotIdempotent`).
- The two slug generators disagree. For the test suite's default company
  "Test Solar Company", `createCompanySlug` gives "test-solar" and the inline
  expression gives "test-solar-company" (`SlugGeneratorsDisagree`). The
  self test looks up "test-solar". The admin test suite looks up
  "test-solar-company", which is never stored by creating that company's
  demo (`DemoFlow.DefaultCompanyInlineSlugMisses`).
- create-prototype answers 200 with the slug even when its store request to
  the directory fails or is refused; the failure is only logged, and the
  demo then cannot be looked up (`DemoFlow.StoreFailureStillCreated`).
- The test relay sends `companyName`, `contactName` and similar fields.
  create-prototype requires `name`, `organization_name`,
  `client_company_name` and `client_website`, so it answers 400
  (`TestCreateDemo.ForwardedRequestIsRejected`).

## Model

| member | source | states |
|---|---|---|
| CreatePrototype.CreateCompanySlug | app/api/create-prototype/route.tsx:9-76 | the imperative generator returns exactly `CompanySlug(companyName)` |
| CreatePrototype.StripBusinessSuffixes | app/api/create-prototype/route.tsx:17-23 | removing the 19 suffixes one regex after another, in list order, gives the same result as removing every whole `\w` run whose lower-cased form is one of the lower-cased suffixes |
| CreatePrototype.SelectWords | app/api/create-prototype/route.tsx:34-73 | the word selection, the 30-character cut and the fallback: the result is `WithFallback(Cap(Shorten(slug, words), words))` over the unfiltered word list |
| CreatePrototype.TruncateWords | app/api/create-prototype/route.tsx:51-65 | the loop with its running length pushes exactly `TakeWithin(words, 30)` |
| CreatePrototype.TakeWithinIsLongestPrefix | app/api/create-prototype/route.tsx:52-62 | the truncated words are a prefix of `words`, each word costs its length plus one and the cost stays within 30, and adding the next word would exceed 30 |
| CreatePrototype.JoinLength | app/api/create-prototype/route.tsx:56-64 | a joined word list is one character shorter than its loop cost, so the cut slug has at most 29 characters |
| CreatePrototype.TakeWithinIsClean | app/api/create-prototype/route.tsx:51-65 | the cut slug is clean and at most 30 characters long |
| CreatePrototype.CleanSlugIsClean | app/api/create-prototype/route.tsx:26-32 | before any word selection the slug is `[a-z0-9-]` only, with no leading, trailing or doubled hyphen |
| CreatePrototype.SlugWordsAreAlnum | app/api/create-prototype/route.tsx:35 | splitting a slug at hyphens and dropping empty parts gives non-empty `[a-z0-9]` words |
| CreatePrototype.FilteredWordsAreAlnum | app/api/create-prototype/route.tsx:40 | keeping the words longer than 2 keeps them alphanumeric |
| CreatePrototype.ShortenIsClean | app/api/create-prototype/route.tsx:38-48 | keeping at most 3 important words of a clean slug yields a clean slug |
| CreatePrototype.CapIsClean | app/api/create-prototype/route.tsx:50-65 | after the length cap the slug is clean and at most 30 characters |
| CreatePrototype.Fallback | app/api/create-prototype/route.tsx:68-73 | the fallback is the first min(10, n) characters of the lower-cased name with every non-`[a-z0-9]` character removed, n being the length of that filtered name, and it is clean |
| CreatePrototype.SlugFromCleanNameIsClean | app/api/create-prototype/route.tsx:26-75 | whatever the suffix-free name, the generated slug is clean and at most 30 characters |
| CreatePrototype.CompanySlugIsClean | app/api/create-prototype/route.tsx:9-76 | the returned slug is never longer than 30 and has no leading, trailing or doubled hyphen |
| CreatePrototype.CompanySlugIsEmptyIff | app/api/create-prototype/route.tsx:68-75 | the slug is empty exactly when the name contains no ASCII letter or digit |
| CreatePrototype.FallbackIsEmptyIff | app/api/create-prototype/route.tsx:69-72 | the fallback is empty exactly when the name has no ASCII letter or digit |
| CreatePrototype.KeepAlnumIsEmpty | app/api/create-prototype/route.tsx:71 | removing `[^a-z0-9]` leaves nothing exactly when no character is in `[a-z0-9]` |
| CreatePrototype.CleanSlugWithoutLetters | app/api/create-prototype/route.tsx:26-32 | a name without letters or digits cleans to the empty slug |
| CreatePrototype.SlugFromCleanNameIsEmpty | app/api/create-prototype/route.tsx:67-75 | an empty result comes only from an empty fallback, and an empty cleaned slug always falls back |
| CreatePrototype.CleanSlugOfWords | app/api/create-prototype/route.tsx:26-35 | a filtered name made of alphanumeric words separated by single spaces or hyphens cleans to those words joined by hyphens, and splits back into them |
| CreatePrototype.SlugWordsOfJoin | app/api/create-prototype/route.tsx:35 | splitting a hyphen-joined list of alphanumeric words gives the list back |
| CreatePrototype.SlugOfCleanWords | app/api/create-prototype/route.tsx:34-75 | a cleaned slug of 1 to 3 alphanumeric words and 3 to 30 characters is the returned slug, whatever separators the name had |
| CreatePrototype.CleanSlugOfSpacedWords | app/api/create-prototype/route.tsx:26-32 | two alphanumeric words with a run of white space of any length between them clean to the two words joined by a single hyphen |
| CreatePrototype.SlugOfFewWords | app/api/create-prototype/route.tsx:34-75 | a clean slug of at most 3 words and 3 to 30 characters is returned unchanged |
| CreatePrototype.SuffixesAreWords | app/api/create-prototype/route.tsx:11-15 | every business suffix is a run of `\w` characters, so `\bsuffix\b` matches it as a whole word |
| CreatePrototype.PostRequiresFields | app/api/create-prototype/route.tsx:98-103 | a parsed body answers 400 exactly when `name`, `organization_name`, `client_company_name` or `client_website` is missing or empty, and then the assistant outcome plays no part |
| CreatePrototype.PostLinks | app/api/create-prototype/route.tsx:106-107 | a complete body with a created assistant answers 200 with that id, the slug of `organization_name` (clean, at most 30), `calendarLink` = "https://calendly.com/" + slug and `demoUrl` = "https://solarbookers.com" + "/" + slug |
| CreatePrototype.PostFails | app/api/create-prototype/route.tsx:194-200 | the answer is 500 exactly when the body does not parse, or it is complete and creating the assistant fails |
| TestSuite.InlineSlugRemovesEntityWords | app/admin/test-suite/page.tsx:64-65 | the case-sensitive `\b(llc\|inc\|corp\|ltd\|co)\b` after lower-casing removes exactly the whole words that are entity words, so "company" survives |
| TestSuite.InlineSlugIsClean | app/admin/test-suite/page.tsx:64-69 | the inline slug is `[a-z0-9-]` only, with no leading, trailing or doubled hyphen |
| TestSuite.InlineSlugOfWords | app/admin/test-suite/page.tsx:64-69 | a name whose entity-free filtered form is alphanumeric words separated by single spaces or hyphens gets those words joined by hyphens |
| TestSuite.EntityWordsAreWords | app/admin/test-suite/page.tsx:65 | the five entity words are `\w` runs |
| SlugExamples.CooperKeepsCo | app/api/create-prototype/route.tsx:21-22 | "Co" is removed only as a whole word: "Cooper" keeps its "Co" |
| SlugExamples.FoldedSuffixes | app/api/create-prototype/route.tsx:11-15 | lower-casing the 19 suffixes gives the list the case-insensitive match compares against |
| SlugExamples.SuffixMembers | app/api/create-prototype/route.tsx:11-15 | "company" and "co" are suffixes, while "test", "solar", "acme" and "c_o" are not |
| SlugExamples.DefaultNameSlug | app/api/create-prototype/route.tsx:9-76 | the test suite's default company "Test Solar Company" gets "test-solar" |
| SlugExamples.DefaultNameInlineSlug | app/admin/test-suite/page.tsx:64-69 | the inline expression makes "test-solar-company" of the same name |
| SlugExamples.SlugGeneratorsDisagree | app/admin/test-suite/page.tsx:20 | the two generators give different slugs for the default company name |
| SlugExamples.PunctuationNameSlug | app/api/create-prototype/route.tsx:68-73 | "!!!" gets the empty slug |
| SlugExamples.SlugIsNotIdempotent | app/api/create-prototype/route.tsx:26-48 | "Acme C_o" gets "acme-co", and "acme-co" gets "acme" |
| SlugExamples.SpacedNameSlug | app/api/create-prototype/route.tsx:9-76 | "Acme   Solar" gets "acme-solar": the run of three spaces becomes one hyphen |
| SlugExamples.SpacedNameHyphenated | app/api/create-prototype/route.tsx:26-32 | the cleaning chain turns "Acme   Solar" into "acme-solar" |
| SlugExamples.EntityOnlyInlineSlug | app/admin/test-suite/page.tsx:64-69 | the inline expression makes "" of "LLC" |
| SlugRegex.RemoveWholeWordsRemovesWords | app/api/create-prototype/route.tsx:21-22 | the left-to-right `\b(w1\|…)\b` scan with boundary tracking equals removing every maximal `\w` run that is one of the words |
| SlugRegex.RemoveWordsThenOne | app/api/create-prototype/route.tsx:20-23 | removing a list of words and then one more equals removing the extended list |
| SlugRegex.StripDisallowed | app/api/create-prototype/route.tsx:28 | only `[a-z0-9]`, white space and hyphens are kept |
| SlugRegex.HyphenateSpaces | app/api/create-prototype/route.tsx:29 | no white space remains, and a `[a-z0-9\s-]` string becomes `[a-z0-9-]`; what becomes of each run is stated by `HyphenateRun` |
| SlugRegex.HyphenateRun | app/api/create-prototype/route.tsx:29 | a maximal run of white space of any length becomes exactly one hyphen, and the text on either side is hyphenated on its own |
| SlugRegex.HyphenateConcat | app/api/create-prototype/route.tsx:29 | the replacement works piece by piece when the first piece does not end in white space |
| SlugRegex.HyphenateSpacedWords | app/api/create-prototype/route.tsx:29 | two alphanumeric words with a run of white space between them become the words joined by one hyphen |
| SlugRegex.CollapseHyphens | app/api/create-prototype/route.tsx:30 | no two hyphens in a row remain; first and last characters and the character set are kept; what becomes of each run is stated by `CollapseRun` |
| SlugRegex.CollapseRun | app/api/create-prototype/route.tsx:30 | a maximal run of hyphens of any length becomes exactly one hyphen, and the text on either side is collapsed on its own |
| SlugRegex.CollapseConcat | app/api/create-prototype/route.tsx:30 | the collapse works piece by piece when the first piece does not end in a hyphen |
| SlugRegex.TrimHyphens | app/api/create-prototype/route.tsx:32 | removing every leading and trailing hyphen of a collapsed slug text leaves a clean slug |
| SlugRegex.TrimHyphensKeepsMiddle | app/api/create-prototype/route.tsx:32 | the whole hyphen run at each end is removed and everything between them is kept |
| SlugRegex.TrimOneHyphen | app/admin/test-suite/page.tsx:69 | removing one hyphen at each end of a collapsed slug text leaves a clean slug |
| SlugRegex.TrimOneHyphenKeepsMiddle | app/admin/test-suite/page.tsx:69 | exactly one hyphen is removed at each end that has one, and everything else, hyphens included, is kept |
| SlugRegex.CollapseKeepsSingleHyphens | app/api/create-prototype/route.tsx:30 | collapsing a string without doubled hyphens changes nothing |
| SlugRegex.HyphenateJoined | app/api/create-prototype/route.tsx:29 | space-separated words without white space become the same words joined by hyphens |
| SlugRegex.JoinIsClean | app/api/create-prototype/route.tsx:43-46 | joining non-empty alphanumeric words with hyphens gives a clean slug |
| SlugRegex.RemoveWordsJoined | app/admin/test-suite/page.tsx:65 | removing words from a separator-joined word list removes them word by word |
| SlugRegex.KeepsSpacedWords | app/api/create-prototype/route.tsx:20-23 | two words that are not suffixes, with white space between them, survive the suffix removal unchanged |
| SlugRegex.SpaceRunThenRest | app/api/create-prototype/route.tsx:21-22 | the `\b(…)\b` removal copies a run of white space and goes on after it |
| SlugRegex.StripDisallowedConcat | app/api/create-prototype/route.tsx:28 | the character filter works piece by piece |
| SlugRegex.RemoveWordsNoLetterOrDigit | app/api/create-prototype/route.tsx:20-23 | suffix removal cannot introduce a letter or digit |
| JsText.SplitJoin | app/api/create-prototype/route.tsx:35 | `split` undoes `join` when no part contains the separator |
| JsText.FilterMembers | app/api/create-prototype/route.tsx:40 | the filter keeps exactly the words longer than n |
| JsText.FilterConcat | app/api/create-prototype/route.tsx:40 | the filter keeps the words in their order |
| JsText.Trim | app/api/create-prototype/route.tsx:31 | `trim` removes white space from both ends and leaves a string without white space unchanged |
| JsText.FirstNonEmpty | lib/domain-utils.ts:14-21 | an `\|\|` chain yields the first non-empty candidate, or the last resort when all are empty |
| JsText.FirstNonEmptyPrefix | app/api/domain-info/route.tsx:23-28 | once a leading candidate is non-empty, later candidates and the last resort do not matter |
| CompanyAssistant.AssistantDirectory.Store | app/api/company-assistant/route.tsx:8-25 | the store answer and the new map: `map[slug := id]` when both fields are truthy, otherwise 400 and the map unchanged |
| CompanyAssistant.AssistantDirectory.Lookup | app/api/company-assistant/route.tsx:36-60 | the lookup finds an entry exactly when the slug is given and stored, and then returns that id and slug |
| CompanyAssistant.StoreRejectsMissingFields | app/api/company-assistant/route.tsx:12-17 | 400 exactly when `companySlug` or `assistantId` is missing or empty, and then the map is unchanged |
| CompanyAssistant.StoreKeepsTruthy | app/api/company-assistant/route.tsx:12-20 | the map only ever holds non-empty slugs and ids |
| CompanyAssistant.StoreThenLookup | app/api/company-assistant/route.tsx:20 | after storing (s, a), looking up s answers success with a and s, whatever was stored before |
| CompanyAssistant.StoreKeepsOtherSlugs | app/api/company-assistant/route.tsx:20 | a store leaves every other slug and its lookup unchanged |
| CompanyAssistant.StoreOnlyAddsSlugs | app/api/company-assistant/route.tsx:5-68 | no request removes a key |
| CompanyAssistant.LookupNeedsCompany | app/api/company-assistant/route.tsx:40-45 | the lookup answers 400 exactly when `company` is missing or empty |
| CompanyAssistant.LookupMissesUnstored | app/api/company-assistant/route.tsx:47-54 | in a map of non-empty ids, 404 exactly for a slug never stored |
| ClearDemo.DemoStore.Clear | app/api/clear-demo/route.tsx:9-43 | the clean-up answer and the new store: the key is deleted only when it held a value |
| ClearDemo.DemoKey | app/api/clear-demo/route.tsx:20 | the key is "company:" followed by the slug |
| ClearDemo.DemoKeyIsInjective | app/api/clear-demo/route.tsx:20 | different slugs never share a key |
| ClearDemo.ClearNeedsSlug | app/api/clear-demo/route.tsx:13-18 | 400 exactly when the slug is missing or empty, and then the store is unchanged |
| ClearDemo.ClearWithoutDemo | app/api/clear-demo/route.tsx:23-31 | a missing or empty value gives `success: false` with the key, and the store is unchanged |
| ClearDemo.ClearRemovesDemo | app/api/clear-demo/route.tsx:33-43 | with a value present, that key and no other is deleted, and the answer reports the key and the old value |
| ClearDemo.ClearTwiceFindsNothing | app/api/clear-demo/route.tsx:23-34 | a second clean-up of the same slug finds nothing and changes nothing |
| DomainUtils.DetectDomain | lib/domain-utils.ts:7-24 | the domain is never empty, and it is "solarbookers.com" whenever `NODE_ENV` or `VERCEL_ENV` is "production" |
| DomainUtils.DetectDomainTakesFirstSource | lib/domain-utils.ts:14-21 | outside production the first non-empty of the four headers, `VERCEL_URL`, `VERCEL_BRANCH_URL` and the fallback argument wins |
| DomainUtils.DetectDomainDefault | lib/domain-utils.ts:21 | with every source empty the domain is "solarbookers.com" |
| DomainUtils.Protocol | lib/domain-utils.ts:31 | "http" exactly when the domain contains "localhost", otherwise "https" |
| DomainUtils.CleanPath | lib/domain-utils.ts:34 | the path starts with "/", and one is added only when it is missing |
| DomainUtils.CleanPathIsIdempotent | lib/domain-utils.ts:34 | cleaning a path twice is cleaning it once |
| DomainUtils.FullUrlExtendsCurrentDomain | lib/domain-utils.ts:29-47 | `generateFullUrl` is `getCurrentDomain` followed by the cleaned path |
| DomainUtils.ProductionUrls | lib/domain-utils.ts:9-11 | in production every URL is "https://solarbookers.com" plus the cleaned path |
| DomainUtils.NoLocalhostWithoutH | lib/domain-utils.ts:31 | a domain without an "h" cannot contain "localhost" |
| DomainUtils.PreviewDeploymentUrlIsDomain | lib/domain-utils.ts:9-55 | a request with a deployment-URL header is a preview, and outside production that header is the detected domain |
| DomainUtils.PreviewIgnoresProduction | lib/domain-utils.ts:52-55 | the preview test reads no production flag |
| DomainInfo.DetectedDomainTakesFirstSource | app/api/domain-info/route.tsx:23-28 | the first non-empty of the four headers and `VERCEL_URL` wins |
| DomainInfo.FullUrlDefault | app/api/domain-info/route.tsx:28-31 | with no header and no `VERCEL_URL`, the domain is "localhost:3000" and the full URL "http://localhost:3000" |
| DomainInfo.DetectedDomainIgnoresProduction | app/api/domain-info/route.tsx:23-28 | the production flags change nothing here, while `detectDomain` answers "solarbookers.com" under them |
| DomainInfo.DetectedDomainIgnoresBranchUrl | app/api/domain-info/route.tsx:23-28 | `VERCEL_BRANCH_URL` is never consulted |
| DomainInfo.DetectedDomainAgreesWithDetectDomain | app/api/domain-info/route.tsx:23-31 | outside production, once a header or `VERCEL_URL` is set, the report's domain and full URL equal `detectDomain` and `getCurrentDomain` |
| TestCreateDemo.HostIgnoresDeploymentUrl | app/api/test-create-demo/route.tsx:6-9 | the host chain does not read `x-vercel-deployment-url` |
| TestCreateDemo.HostAgreesWithDomainReport | app/api/test-create-demo/route.tsx:6-12 | without a deployment-url header and without `VERCEL_URL`, host and current domain equal the domain report's |
| TestCreateDemo.CurrentDomainDefault | app/api/test-create-demo/route.tsx:9-12 | with none of the three headers the current domain is "http://localhost:3000" |
| TestCreateDemo.ForwardTargetsCurrentDomain | app/api/test-create-demo/route.tsx:17-25 | the request goes to the current domain + "/api/create-prototype", its `domain` field is the host, and the protocol is "http" exactly when the host contains "localhost" |
| TestCreateDemo.ForwardedRequestIsRejected | app/api/test-create-demo/route.tsx:20-26 | the forwarded body lacks `name`, so create-prototype answers 400 whatever the assistant service does |
| DebugRelay.Post | app/api/debug/route.tsx:90-172 | the handler's answer is the stage-by-stage specification `DebugOutcome` |
| DebugRelay.Relay | app/api/debug/route.tsx:109-165 | the steps appended after the client set-up are those of running the four stages until the first failure |
| DebugRelay.StagesStopAtFirstFailure | app/api/debug/route.tsx:116-165 | every logged step before the last is a success, a failed stage is the last one logged, and the run completes exactly when no stage fails |
| DebugRelay.FirstFailureIsLast | app/api/debug/route.tsx:116-165 | the first failing stage is logged last, after the successes of all earlier stages |
| DebugRelay.NoApiKey | app/api/debug/route.tsx:101-104 | without an API key the log is exactly the failed `api_key_check`, and the answer is 500 |
| DebugRelay.ClientInitFirst | app/api/debug/route.tsx:106-107 | with a key the log opens with a successful `client_init`, has 2 to 5 entries, and the answer is 200 exactly when the last entry is a success |
| DebugRelay.ThreadCreatedIffNoId | app/api/debug/route.tsx:110-126 | `thread_creation` is logged exactly when no thread id came in, a supplied id is logged as `thread_reuse`, and neither appears anywhere else |
| DebugRelay.StopsAtFirstFailure | app/api/debug/route.tsx:116-165 | if call k fails first, the log has k + 2 entries, only the last of which failed, and the answer is 500 |
| DebugRelay.RunFailuresShareName | app/api/debug/route.tsx:145-165 | failed run creation and failed status retrieval are both logged as `run_creation`, and only the latter follows a `run_created` success |
| DebugRelay.FullSuccess | app/api/debug/route.tsx:107-156 | when every call succeeds there are 5 successful entries ending with `run_status_check`, and the answer is 200 |
| DebugRelay.EchoedThreadId | app/api/debug/route.tsx:97 | the echoed thread id is the given one, or "none" when it is missing or empty |
| DebugRelay.EchoShowsNone | app/api/debug/route.tsx:97 | a request without a thread id is echoed with "none" |
| TestChatDebug.RunTests | app/api/test-chat-debug/route.tsx:12-110 | 2 or 3 entries; `infrastructure_check` once and first; the chat test runs only after a successful lookup carrying `success` and an id, and is otherwise `skipped`; a chat call that throws or whose body cannot be read is logged as a second failed `assistant_lookup`; a failed lookup adds no chat entry |
| TestChatDebug.CountsWithinTotal | app/api/test-chat-debug/route.tsx:113-119 | successes, failures and skips add up to the total, so passed + failed is at most total |
| TestChatDebug.CountIsZero | app/api/test-chat-debug/route.tsx:114 | the failed count is zero exactly when no entry failed |
| TestChatDebug.AllSystemsGoIffNoFailure | app/api/test-chat-debug/route.tsx:120-125 | "ALL_SYSTEMS_GO", and status 200, exactly when no entry failed |
| TestChatDebug.Get | app/api/test-chat-debug/route.tsx:3-125 | total is 2 or 3, passed + failed is at most total, and the answer is 200 exactly when both probes pass and the chat test, if it runs, passes |
| DemoFlow.CreatedStore | app/api/create-prototype/route.tsx:167-183 | a created demo posts its slug and assistant id to the directory, and nothing else; the directory changes only when that request arrives and is accepted |
| DemoFlow.StoreFailureStillCreated | app/api/create-prototype/route.tsx:177-192 | when the store request fails or is refused, the demo is still answered with 200 and its slug, and the directory is unchanged |
| DemoFlow.CreatedDemoIsFound | app/api/create-prototype/route.tsx:166-175 | a created demo with a non-empty slug and id, whose store request arrived, is found by a lookup of its slug |
| DemoFlow.UnsluggableDemoIsNotStored | app/api/create-prototype/route.tsx:177-183 | an organisation name without letters or digits gets a 200 with an empty slug, and the directory refuses to store it |
| DemoFlow.DefaultCompanyDemoIsFound | app/api/test-chat-debug/route.tsx:46 | the demo of the default company, when its store request arrived, is stored under "test-solar", the slug the self test looks up |
| DemoFlow.DefaultCompanyInlineSlugMisses | app/admin/test-suite/page.tsx:63-70 | the test suite's own slug for its default company finds nothing under that demo's directory entry |

## Left out

- Calls to the hosted assistant service, the key-value store and `fetch` are
  not modelled as calls. Their outcomes are inputs: an id or a failure, a
  reply with an `ok` flag and a readable body, or a map for the store. The
  store request of create-prototype is the `stored` flag of
  `DemoFlow.DirectoryAfterCreate`: whether it reached the directory and was
  accepted. Their payloads, `data`, error texts and HTTP status texts are not
  modelled.
- Which deployment holds which directory is not modelled. create-prototype
  always sends its store request to the production host
  (`https://solarbookers.com`), so a demo created from a preview or local
  deployment is never in that deployment's own directory, while the self test
  looks up on its own request host. `DemoFlow.DefaultCompanyDemoIsFound`
  assumes the lookup reaches the directory the store wrote to.
- The assistant persona prompt of create-prototype is template text with no
  checkable behaviour.
- The optional fields of the create-prototype body are not modelled:
  `email`, `title`, `city`, `state`, the description, `industry` and
  `service_type`. Neither is the success `message` text.
- JSON values that are not strings are not modelled: a number as
  `organization_name`, a `null` thread id. Bodies are maps from field name to
  string.
- Missing `assistantId` and `message` fields of the debug relay body are not
  modelled: `DebugRelay.DebugRequest` holds them as strings, while the handler
  echoes an absent one as `undefined` and passes it on to the service calls,
  whose outcomes are inputs anyway.
- The chat route, the quick-demo HTML pages, the landing page and the React
  state of the admin test suite are not part of this model. Neither are the
  environment probe endpoint and the `GET` handler of the debug route.
- `logDomainDetection` only logs, so it is not modelled.
- Timestamps (`new Date()`) and console logging are not modelled.
- Non-ASCII text is not modelled. `toLowerCase` is modelled on ASCII letters
  only. `\w` and `\s` are the regular-expression classes without the `u`
  flag.
- Concurrency is not modelled: the non-atomic read-then-delete of the
  clean-up, and a module-level map shared across server instances. Each
  request is modelled as one atomic step.
- The 500 answers of the company-assistant and clear-demo handlers come from
  a body that does not parse or a store that throws. They are not modelled.
  Those handlers take their fields as already parsed `Option` values.
