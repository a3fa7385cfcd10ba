/**
 * The test-demo relay: it picks the host the request arrived under, builds
 * the current domain from it and forwards a fixed demo request to the
 * create-prototype endpoint of that domain.
 */
module TestCreateDemo {
  import opened JsText
  import opened Wrappers
  import DomainUtils
  import DomainInfo
  import CreatePrototype

  /** The headers the relay consults for its host, in order. */
  const HostHeaders: seq<string> := ["x-vercel-forwarded-host", "x-forwarded-host", "host"]

  /** `host`: the first non-empty host header, else the local default. */
  function Host(headers: map<string, string>): (host: string)
    ensures host != ""
  {
    FirstNonEmpty(DomainUtils.HeaderValues(headers, HostHeaders), DomainInfo.LocalDefault)
  }

  /** `currentDomain` */
  function CurrentDomain(headers: map<string, string>): string {
    var host := Host(headers);
    DomainUtils.Protocol(host) + "://" + host
  }

  /** The request forwarded to create-prototype. */
  datatype ForwardedRequest = ForwardedRequest(url: string, body: map<string, string>)

  function Forward(headers: map<string, string>): ForwardedRequest {
    ForwardedRequest(CurrentDomain(headers) + "/api/create-prototype", DemoBody(Host(headers)))
  }

  /** The fixed demo company, with the chosen host as `domain`. */
  function DemoBody(host: string): map<string, string> {
    map["companyName" := "Test Solar Company", "contactName" := "John Doe",
        "contactEmail" := "john@testcompany.com", "location" := "Austin, TX",
        "domain" := host]
  }

  /** The request goes to the create-prototype endpoint of the current domain and names the host it chose. */
  lemma ForwardTargetsCurrentDomain(headers: map<string, string>)
    ensures Forward(headers).url == CurrentDomain(headers) + "/api/create-prototype"
    ensures Get(Forward(headers).body, "domain") == Host(headers)
    ensures DomainUtils.Protocol(Host(headers)) == "http" <==> Includes(Host(headers), "localhost")
  {
  }

  /** `x-vercel-deployment-url`, which the other two chains read first, is not read here. */
  lemma HostIgnoresDeploymentUrl(headers: map<string, string>, deploymentUrl: string)
    ensures Host(headers["x-vercel-deployment-url" := deploymentUrl]) == Host(headers)
  {
    assert DomainUtils.HeaderValues(headers["x-vercel-deployment-url" := deploymentUrl], HostHeaders)
        == DomainUtils.HeaderValues(headers, HostHeaders);
  }

  /**
   * Without a deployment-url header and without `VERCEL_URL`, the relay and
   * the domain report pick the same host.
   */
  lemma HostAgreesWithDomainReport(headers: map<string, string>, env: map<string, string>)
    requires Get(headers, "x-vercel-deployment-url") == "" && Get(env, "VERCEL_URL") == ""
    ensures Host(headers) == DomainInfo.DetectedDomain(headers, env)
    ensures CurrentDomain(headers) == DomainInfo.FullUrl(headers, env)
  {
    var hosts := DomainUtils.HeaderValues(headers, HostHeaders);
    var report := DomainInfo.ReportCandidates(headers, env);
    assert report == [""] + hosts + [""];
    assert report[1..] == hosts + [""];
    if exists i :: 0 <= i < |hosts| && hosts[i] != "" {
      FirstNonEmptyPrefix(hosts, [""], DomainInfo.LocalDefault, DomainInfo.LocalDefault);
    }
  }

  /** With none of the three headers, the relay calls the local development server over plain http. */
  lemma CurrentDomainDefault(headers: map<string, string>)
    requires forall i :: 0 <= i < 3 ==> DomainUtils.HeaderValues(headers, HostHeaders)[i] == ""
    ensures CurrentDomain(headers) == "http://localhost:3000"
  {
    assert Host(headers) == DomainInfo.LocalDefault;
    DomainInfo.LocalDefaultIsLocal();
    DomainInfo.LocalUrlText();
  }

  /**
   * The forwarded body names the company as `companyName` and has no `name`,
   * `organization_name`, `client_company_name` or `client_website`, so the
   * create-prototype handler answers it with 400 whatever the assistant
   * service would do.
   */
  lemma ForwardedRequestIsRejected(headers: map<string, string>, assistantId: Option<string>)
    ensures CreatePrototype.PostOutcome(Some(Forward(headers).body), assistantId) == CreatePrototype.FieldsRequired
  {
    DemoBodyHasNoName(Host(headers));
  }

  lemma DemoBodyHasNoName(host: string)
    ensures Get(DemoBody(host), "name") == ""
  {
    assert "name" !in DemoBody(host).Keys;
  }
}
