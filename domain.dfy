/** Domain scoping of the crawl: the host of the seed URL, and the test that keeps the crawl
    on that host and its subdomains. URL parsing (`new URL(url)`) is a WHATWG parser outside
    the model; it is a parameter that yields the hostname, or nothing when it throws. */
module Domain {
  import opened Wrappers
  import opened Text

  /** `new URL(url).hostname`, or `None` when the constructor throws. */
  type HostParser = string -> Option<string>

  /** `extractDomain`: the hostname of `url`, or "" when the URL does not parse. */
  function ExtractDomain(hostOf: HostParser, url: string): (d: string)
    ensures hostOf(url).None? ==> d == ""
    ensures hostOf(url).Some? ==> d == hostOf(url).value
  {
    match hostOf(url)
    case Some(host) => host
    case None => ""
  }

  /** `isSameDomain`: `url` parses and its hostname is `domain` or ends with `.domain`. */
  predicate IsSameDomain(hostOf: HostParser, url: string, domain: string) {
    match hostOf(url)
    case Some(host) => host == domain || EndsWith(host, "." + domain)
    case None => false
  }

  /** A host is in scope of a domain when it is the domain itself or a (possibly empty) label
      sequence followed by a dot and the domain. */
  ghost predicate InScope(host: string, domain: string) {
    host == domain || exists sub :: host == sub + "." + domain
  }

  /** The suffix test of `isSameDomain` is exactly scoping by labels: a host that merely ends
      in the same letters (`evilexample.com` for `example.com`) is not in scope, and a URL that
      does not parse never is. */
  lemma SameDomainIsInScope(hostOf: HostParser, url: string, domain: string)
    ensures IsSameDomain(hostOf, url, domain)
      <==> hostOf(url).Some? && InScope(hostOf(url).value, domain)
  {
    match hostOf(url)
    case None =>
    case Some(host) =>
      if EndsWith(host, "." + domain) {
        var sub := host[..|host| - |domain| - 1];
        assert host == sub + "." + domain by {
          assert host == host[..|host| - |domain| - 1] + host[|host| - |domain| - 1..];
        }
      }
      if sub :| host == sub + "." + domain {
        assert host[|host| - |domain| - 1..] == "." + domain;
      }
  }

  /** The seed's own URL is in the scope of the domain extracted from it. */
  lemma SeedInScope(hostOf: HostParser, url: string)
    requires ExtractDomain(hostOf, url) != ""
    ensures IsSameDomain(hostOf, url, ExtractDomain(hostOf, url))
  {
  }

  /** A subdomain is in scope. */
  lemma SubdomainInScope(hostOf: HostParser, url: string)
    requires hostOf(url) == Some("a.example.com")
    ensures IsSameDomain(hostOf, url, "example.com")
  {
    SameDomainIsInScope(hostOf, url, "example.com");
    assert "a.example.com" == "a" + "." + "example.com";
  }

  /** A host that only shares the last letters of the domain is out of scope. */
  lemma LookalikeOutOfScope(hostOf: HostParser, url: string)
    requires hostOf(url) == Some("evilexample.com")
    ensures !IsSameDomain(hostOf, url, "example.com")
  {
    var host := "evilexample.com";
    assert host[|host| - 12] == 'l';
  }
}
