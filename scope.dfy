/** `isInternalURL` and the crawl condition of `crawlDomain`: which resolved
    links are appended to the frontier. */
module Scope {
  import opened Text
  import opened Net

  /** `isInternalURL`: false when the text does not parse; otherwise whether
      the hostname ends with the target's hostname, as raw text. */
  predicate IsInternalURL(web: Web, urlStr: string, targetDomain: string): (r: bool)
    ensures r ==> web.parse(urlStr).Some?
    ensures web.parse(urlStr).Some? && web.parse(urlStr).value.hostname == targetDomain ==> r
    ensures web.parse(urlStr).Some? && targetDomain == "" ==> r
  {
    match web.parse(urlStr)
    case None => false
    case Some(u) => HasSuffix(u.hostname, targetDomain)
  }

  /** The crawl condition: subdomain crawling admits every link; otherwise
      the suffix rule decides. */
  predicate ShouldEnqueue(web: Web, link: string, targetDomain: string, crawlSubdomains: bool): (r: bool)
    ensures crawlSubdomains ==> r
    ensures r && !crawlSubdomains ==> web.parse(link).Some?
    ensures web.parse(link).Some? && web.parse(link).value.hostname == targetDomain ==> r
  {
    crawlSubdomains || IsInternalURL(web, link, targetDomain)
  }

  /** A parsed link is internal exactly when its hostname is some text, any
      text, followed by the target domain: the rule does not look for a dot
      before the domain, so `evilexample.com` passes for `example.com`. */
  lemma InternalIffSuffix(web: Web, urlStr: string, targetDomain: string)
    ensures IsInternalURL(web, urlStr, targetDomain) <==>
      web.parse(urlStr).Some? &&
      exists front :: web.parse(urlStr).value.hostname == front + targetDomain
  {
    if web.parse(urlStr).Some? {
      var h := web.parse(urlStr).value.hostname;
      if HasSuffix(h, targetDomain) {
        assert h == h[..|h| - |targetDomain|] + targetDomain;
      }
      if exists front :: h == front + targetDomain {
        var front :| h == front + targetDomain;
        assert h[|h| - |targetDomain|..] == targetDomain;
      }
    }
  }

  /** Concrete hosts for the target `example.com`: a look-alike domain and a
      subdomain both pass the suffix rule, another domain does not. */
  lemma SuffixRuleExamples()
    ensures HasSuffix("evilexample.com", "example.com")
    ensures HasSuffix("sub.example.com", "example.com")
    ensures !HasSuffix("example.org", "example.com")
  {
    assert "evilexample.com"[4..] == "example.com";
    assert "sub.example.com"[4..] == "example.com";
    assert "example.org"[0..] != "example.com" by {
      assert "example.org"[8] != "example.com"[8];
    }
  }
}
