/**
 * The domain report: the domain a request arrived under, chosen by its own
 * priority chain, with the protocol and the full URL derived from it. Unlike
 * `detectDomain` it has no production override, does not read
 * `VERCEL_BRANCH_URL`, and falls back to the local development address.
 */
module DomainInfo {
  import opened JsText
  import opened Wrappers
  import DomainUtils

  const LocalDefault: string := "localhost:3000"

  /** The header and environment values the report consults, in order. */
  function ReportCandidates(headers: map<string, string>, env: map<string, string>): (c: seq<string>)
    ensures |c| == 5
  {
    DomainUtils.HeaderValues(headers, DomainUtils.DomainHeaders) + [Get(env, "VERCEL_URL")]
  }

  /** `detectedDomain`: the first non-empty candidate, else the local default. */
  function DetectedDomain(headers: map<string, string>, env: map<string, string>): (domain: string)
    ensures domain != ""
  {
    FirstNonEmpty(ReportCandidates(headers, env), LocalDefault)
  }

  /** `fullUrl`: protocol, "://" and the detected domain. */
  function FullUrl(headers: map<string, string>, env: map<string, string>): string {
    var domain := DetectedDomain(headers, env);
    DomainUtils.Protocol(domain) + "://" + domain
  }

  /** The first non-empty of the five sources wins. */
  lemma DetectedDomainTakesFirstSource(headers: map<string, string>, env: map<string, string>, i: nat)
    requires i < 5 && ReportCandidates(headers, env)[i] != ""
    requires forall j :: 0 <= j < i ==> ReportCandidates(headers, env)[j] == ""
    ensures DetectedDomain(headers, env) == ReportCandidates(headers, env)[i]
  {
  }

  lemma LocalDefaultIsLocal()
    ensures Includes(LocalDefault, "localhost")
  {
    assert LocalDefault[..|"localhost"|] == "localhost";
    StartsWithIncludes(LocalDefault, "localhost");
  }

  /** With no header and no `VERCEL_URL`, the report names the local development server over plain http. */
  lemma FullUrlDefault(headers: map<string, string>, env: map<string, string>)
    requires forall i :: 0 <= i < 5 ==> ReportCandidates(headers, env)[i] == ""
    ensures DetectedDomain(headers, env) == "localhost:3000"
    ensures FullUrl(headers, env) == "http://localhost:3000"
  {
    assert DetectedDomain(headers, env) == LocalDefault;
    LocalDefaultIsLocal();
    LocalUrlText();
  }

  lemma LocalUrlText()
    ensures "http" + "://" + LocalDefault == "http://localhost:3000"
  {
  }

  /** The production flags change nothing here, though they override `detectDomain`. */
  lemma DetectedDomainIgnoresProduction(headers: map<string, string>, env: map<string, string>, flag: string,
                                        fallbackDomain: Option<string>)
    requires flag == "NODE_ENV" || flag == "VERCEL_ENV"
    ensures DetectedDomain(headers, env[flag := "production"]) == DetectedDomain(headers, env)
    ensures DomainUtils.DetectDomain(headers, env[flag := "production"], fallbackDomain) == DomainUtils.ProductionDomain
  {
    assert Get(env[flag := "production"], "VERCEL_URL") == Get(env, "VERCEL_URL");
    assert ReportCandidates(headers, env[flag := "production"]) == ReportCandidates(headers, env);
  }

  /** `VERCEL_BRANCH_URL` is never consulted. */
  lemma DetectedDomainIgnoresBranchUrl(headers: map<string, string>, env: map<string, string>, branchUrl: string)
    ensures DetectedDomain(headers, env["VERCEL_BRANCH_URL" := branchUrl]) == DetectedDomain(headers, env)
  {
    assert Get(env["VERCEL_BRANCH_URL" := branchUrl], "VERCEL_URL") == Get(env, "VERCEL_URL");
    assert ReportCandidates(headers, env["VERCEL_BRANCH_URL" := branchUrl]) == ReportCandidates(headers, env);
  }

  /**
   * Outside production, once a header or `VERCEL_URL` is set, the report
   * and `detectDomain` agree: the chains differ only past those sources.
   */
  lemma DetectedDomainAgreesWithDetectDomain(headers: map<string, string>, env: map<string, string>,
                                             fallbackDomain: Option<string>)
    requires !DomainUtils.IsProduction(env)
    requires exists i :: 0 <= i < 5 && ReportCandidates(headers, env)[i] != ""
    ensures DetectedDomain(headers, env) == DomainUtils.DetectDomain(headers, env, fallbackDomain)
    ensures FullUrl(headers, env) == DomainUtils.GetCurrentDomain(headers, env, fallbackDomain)
  {
    var report := ReportCandidates(headers, env);
    var rest := [Get(env, "VERCEL_BRANCH_URL"), ValueOrEmpty(fallbackDomain)];
    assert DomainUtils.DomainCandidates(headers, env, fallbackDomain) == report + rest;
    FirstNonEmptyPrefix(report, rest, DomainUtils.ProductionDomain, LocalDefault);
  }
}
