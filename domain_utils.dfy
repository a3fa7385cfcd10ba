/**
 * Which domain a request is served under and the URLs built from it. Request
 * headers and environment variables are maps; a missing entry and an empty
 * one read the same, because the source chains them with `||`.
 */
module DomainUtils {
  import opened Wrappers
  import opened JsText

  const ProductionDomain: string := "solarbookers.com"

  /** The headers `detectDomain` consults, in order. */
  const DomainHeaders: seq<string> :=
    ["x-vercel-deployment-url", "x-vercel-forwarded-host", "x-forwarded-host", "host"]

  predicate IsProduction(env: map<string, string>) {
    Get(env, "NODE_ENV") == "production" || Get(env, "VERCEL_ENV") == "production"
  }

  /** The values of `names` in `headers`, in order. */
  function HeaderValues(headers: map<string, string>, names: seq<string>): (r: seq<string>)
    ensures |r| == |names|
    ensures forall i :: 0 <= i < |names| ==> r[i] == Get(headers, names[i])
  {
    seq(|names|, i requires 0 <= i < |names| => Get(headers, names[i]))
  }

  /** Where `detectDomain` looks outside production, in order. */
  function DomainCandidates(headers: map<string, string>, env: map<string, string>, fallbackDomain: Option<string>)
    : seq<string>
  {
    HeaderValues(headers, DomainHeaders)
      + [Get(env, "VERCEL_URL"), Get(env, "VERCEL_BRANCH_URL"), ValueOrEmpty(fallbackDomain)]
  }

  /** `detectDomain` */
  function DetectDomain(headers: map<string, string>, env: map<string, string>, fallbackDomain: Option<string>)
    : (domain: string)
    ensures domain != ""
    ensures IsProduction(env) ==> domain == ProductionDomain
  {
    if IsProduction(env) then ProductionDomain
    else FirstNonEmpty(DomainCandidates(headers, env, fallbackDomain), ProductionDomain)
  }

  /** `domain.includes('localhost') ? 'http' : 'https'` */
  function Protocol(domain: string): (p: string)
    ensures p == "http" || p == "https"
    ensures p == "http" <==> Includes(domain, "localhost")
  {
    if Includes(domain, "localhost") then "http" else "https"
  }

  /** The path with a leading "/" added when it has none. */
  function CleanPath(path: string): (p: string)
    ensures StartsWith(p, "/")
    ensures p == path <==> StartsWith(path, "/")
    ensures p == path || p == "/" + path
  {
    if StartsWith(path, "/") then path else "/" + path
  }

  /** `getCurrentDomain` */
  function GetCurrentDomain(headers: map<string, string>, env: map<string, string>, fallbackDomain: Option<string>)
    : string
  {
    var domain := DetectDomain(headers, env, fallbackDomain);
    Protocol(domain) + "://" + domain
  }

  /** `generateFullUrl` */
  function GenerateFullUrl(headers: map<string, string>, env: map<string, string>, path: string,
                           fallbackDomain: Option<string>): string
  {
    var domain := DetectDomain(headers, env, fallbackDomain);
    Protocol(domain) + "://" + domain + CleanPath(path)
  }

  /** `isVercelPreview` */
  predicate IsVercelPreview(headers: map<string, string>, env: map<string, string>) {
    Get(headers, "x-vercel-deployment-url") != "" || Includes(Get(env, "VERCEL_URL"), "vercel.app")
  }

  /**
   * Outside production the domain is the first non-empty source: the four
   * headers, then `VERCEL_URL`, `VERCEL_BRANCH_URL` and the fallback argument.
   */
  lemma DetectDomainTakesFirstSource(headers: map<string, string>, env: map<string, string>,
                                     fallbackDomain: Option<string>, i: nat)
    requires !IsProduction(env)
    requires i < 7 && DomainCandidates(headers, env, fallbackDomain)[i] != ""
    requires forall j :: 0 <= j < i ==> DomainCandidates(headers, env, fallbackDomain)[j] == ""
    ensures DetectDomain(headers, env, fallbackDomain) == DomainCandidates(headers, env, fallbackDomain)[i]
  {
  }

  /** Outside production, with every source empty, the domain is the production one. */
  lemma DetectDomainDefault(headers: map<string, string>, env: map<string, string>, fallbackDomain: Option<string>)
    requires forall i :: 0 <= i < 7 ==> DomainCandidates(headers, env, fallbackDomain)[i] == ""
    ensures DetectDomain(headers, env, fallbackDomain) == ProductionDomain
  {
  }

  /** A path gets at most one leading "/" added: cleaning twice is cleaning once. */
  lemma CleanPathIsIdempotent(path: string)
    ensures CleanPath(CleanPath(path)) == CleanPath(path)
  {
  }

  /** The full URL is the current domain with the cleaned path after it. */
  lemma FullUrlExtendsCurrentDomain(headers: map<string, string>, env: map<string, string>, path: string,
                                    fallbackDomain: Option<string>)
    ensures GenerateFullUrl(headers, env, path, fallbackDomain)
         == GetCurrentDomain(headers, env, fallbackDomain) + CleanPath(path)
  {
  }

  /** A domain without an "h" cannot include "localhost". */
  lemma NoLocalhostWithoutH(domain: string)
    requires forall i :: 0 <= i < |domain| ==> domain[i] != 'h'
    ensures !Includes(domain, "localhost")
  {
    if Includes(domain, "localhost") {
      IncludedCharsOccur(domain, "localhost", 5);
    }
  }

  /** In production every URL is an https URL on the production domain, whatever the headers say. */
  lemma ProductionUrls(headers: map<string, string>, env: map<string, string>, path: string,
                       fallbackDomain: Option<string>)
    requires IsProduction(env)
    ensures GetCurrentDomain(headers, env, fallbackDomain) == "https://solarbookers.com"
    ensures GenerateFullUrl(headers, env, path, fallbackDomain) == "https://solarbookers.com" + CleanPath(path)
  {
    ProductionDomainHasNoH();
    NoLocalhostWithoutH(ProductionDomain);
    ProductionUrlText();
  }

  lemma ProductionDomainHasNoH()
    ensures forall i :: 0 <= i < |ProductionDomain| ==> ProductionDomain[i] != 'h'
  {
  }

  lemma ProductionUrlText()
    ensures "https" + "://" + ProductionDomain == "https://solarbookers.com"
  {
  }

  /** The preview check reads no production flag: setting one changes nothing. */
  lemma PreviewIgnoresProduction(headers: map<string, string>, env: map<string, string>, flag: string)
    requires flag == "NODE_ENV" || flag == "VERCEL_ENV"
    ensures IsVercelPreview(headers, env[flag := "production"]) == IsVercelPreview(headers, env)
  {
    assert Get(env[flag := "production"], "VERCEL_URL") == Get(env, "VERCEL_URL");
  }

  /**
   * A request carrying a deployment URL is a preview, and outside production
   * that URL is also the domain `detectDomain` picks, before any other source.
   */
  lemma PreviewDeploymentUrlIsDomain(headers: map<string, string>, env: map<string, string>,
                                     fallbackDomain: Option<string>)
    requires !IsProduction(env) && Get(headers, "x-vercel-deployment-url") != ""
    ensures IsVercelPreview(headers, env)
    ensures DetectDomain(headers, env, fallbackDomain) == Get(headers, "x-vercel-deployment-url")
  {
    assert DomainCandidates(headers, env, fallbackDomain)[0] == Get(headers, "x-vercel-deployment-url");
    DetectDomainTakesFirstSource(headers, env, fallbackDomain, 0);
  }
}
