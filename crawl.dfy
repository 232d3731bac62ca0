/** `crawlDomain`: a breadth-first crawl over a FIFO frontier with a visited
    set, which follows in-scope links and indexes the query parameter names
    of every link it resolves. */
module Crawl {
  import opened Text
  import opened Net
  import opened ParamIndex
  import opened Scope

  /** What stays fixed during one crawl: the collaborators, the seed URL
      (`target`), its hostname (`targetDomain`) and the `-s` flag. */
  datatype Site = Site(web: Web, seed: string, domain: string, crawlSubdomains: bool)

  /** The site a crawl of `target` works with; the domain is only meaningful
      when `target` parses. */
  function SiteOf(target: string, crawlSubdomains: bool, web: Web): Site {
    match web.parse(target)
    case None => Site(web, target, "", crawlSubdomains)
    case Some(u) => Site(web, target, u.hostname, crawlSubdomains)
  }

  // ---------------------------------------------------------------------------
  // Links of a page

  /** The absolute URL of one `<a>` element, resolved against the seed URL
      (not against the page it was found on); nothing when the element has no
      `href` or the `href` does not parse. */
  function ResolveAnchor(site: Site, href: Option<string>): (r: seq<string>)
    ensures |r| <= 1
    ensures r != [] <==> href.Some? && site.web.resolve(site.seed, href.value).Some?
    ensures r != [] ==> r[0] == site.web.resolve(site.seed, href.value).value
  {
    match href
    case None => []
    case Some(h) =>
      match site.web.resolve(site.seed, h)
      case None => []
      case Some(a) => [a]
  }

  /** Some anchor's `href` resolves against the seed to `l`. */
  ghost predicate ResolvedFrom(site: Site, anchors: seq<Option<string>>, l: string) {
    exists i :: 0 <= i < |anchors| && anchors[i].Some? &&
      site.web.resolve(site.seed, anchors[i].value) == Some(l)
  }

  /** Every link of `links` comes from an anchor of `anchors`. */
  ghost predicate FromAnchors(site: Site, anchors: seq<Option<string>>, links: seq<string>) {
    forall l :: l in links ==> ResolvedFrom(site, anchors, l)
  }

  /** Every anchor whose `href` resolves against the seed gives a link of
      `links`. */
  ghost predicate AllAnchors(site: Site, anchors: seq<Option<string>>, links: seq<string>) {
    forall i ::
      (0 <= i < |anchors| && anchors[i].Some? && site.web.resolve(site.seed, anchors[i].value).Some?) ==>
      site.web.resolve(site.seed, anchors[i].value).value in links
  }

  /** The resolved links of a page, in document order: at most one per
      anchor, each the resolution of some anchor's `href` against the seed,
      and every anchor whose `href` resolves gives its link. */
  function ResolvedLinks(site: Site, anchors: seq<Option<string>>): (r: seq<string>)
    ensures |r| <= |anchors|
    ensures FromAnchors(site, anchors, r) && AllAnchors(site, anchors, r)
    decreases |anchors|
  {
    if anchors == [] then []
    else
      var init, last := anchors[..|anchors| - 1], anchors[|anchors| - 1];
      ResolvedLinks(site, init) + ResolveAnchor(site, last)
  }

  lemma ResolvedLinksSnoc(site: Site, anchors: seq<Option<string>>, i: nat)
    requires i < |anchors|
    ensures ResolvedLinks(site, anchors[..i + 1]) ==
      ResolvedLinks(site, anchors[..i]) + ResolveAnchor(site, anchors[i])
  {
    assert anchors[..i + 1][..i] == anchors[..i];
  }

  /** Handling anchor `i` after the anchors before it appends what handling
      the first `i + 1` anchors at once would. */
  lemma AnchorStepFrontier(site: Site, frontier0: seq<string>, anchors: seq<Option<string>>, i: nat)
    requires i < |anchors|
    ensures frontier0 + Enqueued(site, ResolvedLinks(site, anchors[..i]))
                      + Enqueued(site, ResolveAnchor(site, anchors[i]))
         == frontier0 + Enqueued(site, ResolvedLinks(site, anchors[..i + 1]))
  {
    var done, next := ResolvedLinks(site, anchors[..i]), ResolveAnchor(site, anchors[i]);
    ResolvedLinksSnoc(site, anchors, i);
    EnqueuedAppend(site, done, next);
    AppendAssoc(frontier0, Enqueued(site, done), Enqueued(site, next));
  }

  /** Handling anchor `i` after the anchors before it indexes what handling
      the first `i + 1` anchors at once would. */
  lemma AnchorStepIndex(site: Site, params0: Index, anchors: seq<Option<string>>, i: nat)
    requires i < |anchors|
    ensures IndexLinks(site.web, IndexLinks(site.web, params0, ResolvedLinks(site, anchors[..i])),
                       ResolveAnchor(site, anchors[i]))
         == IndexLinks(site.web, params0, ResolvedLinks(site, anchors[..i + 1]))
  {
    ResolvedLinksSnoc(site, anchors, i);
    IndexLinksAppend(site.web, params0, ResolvedLinks(site, anchors[..i]), ResolveAnchor(site, anchors[i]));
  }

  /** The anchors of the page at `u`: none when the fetch fails or the
      document cannot be built (the source's `continue`). */
  function PageAnchors(site: Site, u: string): seq<Option<string>> {
    match site.web.fetch(u)
    case None => []
    case Some(body) =>
      match site.web.anchors(body)
      case None => []
      case Some(anchors) => anchors
  }

  /** The resolved links of the page at `u`: none when the fetch fails or the
      document cannot be built; otherwise each link comes from an anchor of
      the fetched document, and every anchor whose `href` resolves gives its
      link. */
  function PageLinks(site: Site, u: string): (r: seq<string>)
    ensures r != [] ==> site.web.fetch(u).Some? && site.web.anchors(site.web.fetch(u).value).Some?
    ensures FromAnchors(site, PageAnchors(site, u), r) && AllAnchors(site, PageAnchors(site, u), r)
  {
    ResolvedLinks(site, PageAnchors(site, u))
  }

  predicate Admits(site: Site, link: string) {
    ShouldEnqueue(site.web, link, site.domain, site.crawlSubdomains)
  }

  /** The links of a list that the crawl condition admits, in their order. */
  function Enqueued(site: Site, links: seq<string>): (r: seq<string>)
    ensures forall l :: l in r <==> l in links && Admits(site, l)
    ensures |r| <= |links|
    decreases |links|
  {
    if links == [] then []
    else
      var last := links[|links| - 1];
      assert links == links[..|links| - 1] + [last];
      Enqueued(site, links[..|links| - 1]) + (if Admits(site, last) then [last] else [])
  }

  /** Filtering a concatenation filters each part. */
  lemma {:induction false} EnqueuedAppend(site: Site, a: seq<string>, b: seq<string>)
    ensures Enqueued(site, a + b) == Enqueued(site, a) + Enqueued(site, b)
    decreases |b|
  {
    if b == [] {
      assert a + b == a;
    } else {
      assert (a + b)[..|a + b| - 1] == a + b[..|b| - 1];
      EnqueuedAppend(site, a, b[..|b| - 1]);
    }
  }

  /** With subdomain crawling on, every resolved link is enqueued, in order,
      whatever its host. */
  lemma {:induction false} EnqueuedAllWithSubdomains(site: Site, links: seq<string>)
    requires site.crawlSubdomains
    ensures Enqueued(site, links) == links
    decreases |links|
  {
    if links != [] {
      EnqueuedAllWithSubdomains(site, links[..|links| - 1]);
      assert links == links[..|links| - 1] + [links[|links| - 1]];
    }
  }

  /** The links of the page at `u` that the crawl appends to the frontier. */
  function Outlinks(site: Site, u: string): seq<string> {
    Enqueued(site, PageLinks(site, u))
  }

  // ---------------------------------------------------------------------------
  // Indexing the parameters of links

  /** The index key of a link: the text before its first `?`. */
  function BaseURL(link: string): (r: string)
    ensures '?' !in r && r <= link
    ensures |r| < |link| ==> link[|r|] == '?'
    ensures '?' !in link ==> r == link
  {
    HeadOfSplit(link, '?')
  }

  /** The query parameter names of a link; none when it does not parse. */
  function QueryNames(web: Web, link: string): seq<string> {
    match web.parse(link)
    case None => []
    case Some(u) => u.queryNames
  }

  /** Registering every query name of one link under its base URL. */
  function IndexLink(web: Web, m: Index, link: string): (r: Index)
    ensures web.parse(link).None? ==> r == m
    ensures NoEmptyLists(m) ==> NoEmptyLists(r)
    ensures r.Keys == if QueryNames(web, link) == [] then m.Keys else m.Keys + {BaseURL(link)}
  {
    match web.parse(link)
    case None => m
    case Some(u) => AddParams(m, BaseURL(link), u.queryNames)
  }

  /** Registering the links of a page, one after the other. */
  function IndexLinks(web: Web, m: Index, links: seq<string>): Index
    decreases |links|
  {
    if links == [] then m
    else IndexLink(web, IndexLinks(web, m, links[..|links| - 1]), links[|links| - 1])
  }

  /** Every query name of `link` is recorded under the link's base URL. */
  ghost predicate Indexed(web: Web, m: Index, link: string) {
    forall n :: n in QueryNames(web, link) ==> n in Names(m, BaseURL(link))
  }

  /** Some link of the list has base URL `b` and query name `n`. */
  ghost predicate FromLinks(web: Web, links: seq<string>, b: string, n: string) {
    exists l :: l in links && BaseURL(l) == b && n in QueryNames(web, l)
  }

  lemma IndexedMonotone(web: Web, m: Index, m': Index, link: string)
    requires Extends(m, m') && Indexed(web, m, link)
    ensures Indexed(web, m', link)
  {
    forall n | n in QueryNames(web, link)
      ensures n in Names(m', BaseURL(link))
    {
      PrefixMember(n, m[BaseURL(link)], m'[BaseURL(link)]);
    }
  }

  /** Indexing one link: the index only grows, keeps its lists duplicate-free
      and its keys free of `?`, and afterwards records the link's names. */
  lemma IndexLinkSpec(web: Web, m: Index, link: string)
    ensures Extends(m, IndexLink(web, m, link))
    ensures DupFree(m) ==> DupFree(IndexLink(web, m, link))
    ensures KeysAreBases(m) ==> KeysAreBases(IndexLink(web, m, link))
    ensures Indexed(web, IndexLink(web, m, link), link)
  {
    forall n | n in QueryNames(web, link)
      ensures n in Names(IndexLink(web, m, link), BaseURL(link))
    {
      IndexLinkNames(web, m, link, BaseURL(link), n);
    }
  }

  /** After indexing one link, a name is recorded under `b` exactly when it
      was before, or it is a query name of the link and `b` is the link's
      base URL. */
  lemma IndexLinkNames(web: Web, m: Index, link: string, b: string, n: string)
    ensures n in Names(IndexLink(web, m, link), b) <==>
      n in Names(m, b) || (BaseURL(link) == b && n in QueryNames(web, link))
  {
    if web.parse(link).Some? {
      AddParamsNames(m, BaseURL(link), web.parse(link).value.queryNames, b, n);
    }
  }

  /** Indexing the links of a page only grows the index and keeps it
      duplicate-free, keyed by base URLs and free of empty lists. */
  lemma {:induction false} IndexLinksGrows(web: Web, m: Index, links: seq<string>)
    ensures Extends(m, IndexLinks(web, m, links))
    ensures DupFree(m) ==> DupFree(IndexLinks(web, m, links))
    ensures KeysAreBases(m) ==> KeysAreBases(IndexLinks(web, m, links))
    ensures NoEmptyLists(m) ==> NoEmptyLists(IndexLinks(web, m, links))
    decreases |links|
  {
    if links != [] {
      var init := links[..|links| - 1];
      var prev := IndexLinks(web, m, init);
      IndexLinksGrows(web, m, init);
      IndexLinkSpec(web, prev, links[|links| - 1]);
      ExtendsTransitive(m, prev, IndexLinks(web, m, links));
    }
  }

  /** After indexing the links of a page, a name is recorded under `b`
      exactly when it was before or some link with base URL `b` has it. */
  lemma {:induction false} IndexLinksNames(web: Web, m: Index, links: seq<string>, b: string, n: string)
    ensures n in Names(IndexLinks(web, m, links), b) <==> n in Names(m, b) || FromLinks(web, links, b, n)
    decreases |links|
  {
    if links != [] {
      var init := links[..|links| - 1];
      var last := links[|links| - 1];
      IndexLinksNames(web, m, init, b, n);
      IndexLinkNames(web, IndexLinks(web, m, init), last, b, n);
      FromLinksSnoc(web, links, b, n);
    }
  }

  /** A link of a list has base URL `b` and name `n` exactly when one of
      all but the last does, or the last one does. */
  lemma FromLinksSnoc(web: Web, links: seq<string>, b: string, n: string)
    requires links != []
    ensures FromLinks(web, links, b, n) <==>
      FromLinks(web, links[..|links| - 1], b, n) ||
      (BaseURL(links[|links| - 1]) == b && n in QueryNames(web, links[|links| - 1]))
  {
    var init, last := links[..|links| - 1], links[|links| - 1];
    assert links == init + [last];
    if FromLinks(web, links, b, n) {
      var l :| l in links && BaseURL(l) == b && n in QueryNames(web, l);
      if l != last {
        assert l in init;
      }
    }
    if FromLinks(web, init, b, n) {
      var l :| l in init && BaseURL(l) == b && n in QueryNames(web, l);
      assert l in links;
    }
  }

  /** Indexing the links of a page: the same facts as for one link, for the
      whole list. */
  lemma IndexLinksSpec(web: Web, m: Index, links: seq<string>)
    ensures Extends(m, IndexLinks(web, m, links))
    ensures DupFree(m) ==> DupFree(IndexLinks(web, m, links))
    ensures KeysAreBases(m) ==> KeysAreBases(IndexLinks(web, m, links))
    ensures forall l :: l in links ==> Indexed(web, IndexLinks(web, m, links), l)
    ensures forall b, n :: n in Names(IndexLinks(web, m, links), b) <==>
      n in Names(m, b) || FromLinks(web, links, b, n)
  {
    var r := IndexLinks(web, m, links);
    IndexLinksGrows(web, m, links);
    forall b, n
      ensures n in Names(r, b) <==> n in Names(m, b) || FromLinks(web, links, b, n)
    {
      IndexLinksNames(web, m, links, b, n);
    }
    forall l | l in links
      ensures Indexed(web, r, l)
    {
      forall n | n in QueryNames(web, l)
        ensures n in Names(r, BaseURL(l))
      {
        assert FromLinks(web, links, BaseURL(l), n);
      }
    }
  }

  // ---------------------------------------------------------------------------
  // The crawl invariant

  /** Every resolved link of the page at `u` has its names indexed. */
  ghost predicate PageIndexed(site: Site, m: Index, u: string) {
    forall l :: l in PageLinks(site, u) ==> Indexed(site.web, m, l)
  }

  /** Some visited page links to base URL `b` with query name `n`. */
  ghost predicate Seen(site: Site, visited: set<string>, b: string, n: string) {
    exists u :: u in visited && FromLinks(site.web, PageLinks(site, u), b, n)
  }

  /** Every link the crawl would enqueue from a page of `s` is in `s`. */
  ghost predicate Closed(site: Site, s: set<string>) {
    forall u, l :: u in s && l in Outlinks(site, u) ==> l in s
  }

  /** `u` is the seed, or a link that one of the first `k` fetched pages
      enqueues. */
  ghost predicate EnqueuedBefore(site: Site, fetched: seq<string>, k: nat, u: string) {
    u == site.seed || exists j :: 0 <= j < k && j < |fetched| && u in Outlinks(site, fetched[j])
  }

  /** Everything the crawl holds came from the seed through admitted links:
      each fetched URL was enqueued by a page fetched before it, and each
      pending URL by some fetched page. */
  ghost predicate Derived(site: Site, frontier: seq<string>, fetched: seq<string>) {
    (forall i :: 0 <= i < |fetched| ==> EnqueuedBefore(site, fetched, i, fetched[i])) &&
    (forall u :: u in frontier ==> EnqueuedBefore(site, fetched, |fetched|, u))
  }

  /** What holds of the crawl state before every iteration of the loop:
      `fetched` lists the URLs whose fetch was attempted, in order, once each,
      and they are exactly the visited ones, each reached from the seed;
      the index is duplicate-free, has no key without a name,
      is keyed by base URLs, holds the names of every link of every visited page
      and nothing else; and every link a visited page enqueues is visited or
      still in the frontier. */
  ghost predicate CrawlInv(site: Site, frontier: seq<string>, visited: set<string>,
                           params: Index, fetched: seq<string>)
  {
    NoDup(fetched) && visited == Elems(fetched) && Derived(site, frontier, fetched) &&
    DupFree(params) && KeysAreBases(params) && NoEmptyLists(params) &&
    (forall u :: u in visited ==> PageIndexed(site, params, u)) &&
    (forall b, n :: n in Names(params, b) ==> Seen(site, visited, b, n)) &&
    (forall u, l :: u in visited && l in Outlinks(site, u) ==> l in visited || l in frontier)
  }

  lemma SeenMonotone(site: Site, visited: set<string>, visited': set<string>, b: string, n: string)
    requires visited <= visited' && Seen(site, visited, b, n)
    ensures Seen(site, visited', b, n)
  {
    var u :| u in visited && FromLinks(site.web, PageLinks(site, u), b, n);
    assert u in visited';
  }

  /** A URL enqueued by the first `k` fetched pages still is once one more
      page has been fetched. */
  lemma EnqueuedBeforeGrows(site: Site, fetched: seq<string>, k: nat, next: string, u: string)
    requires k <= |fetched| && EnqueuedBefore(site, fetched, k, u)
    ensures EnqueuedBefore(site, fetched + [next], k, u)
  {
    if u != site.seed {
      var j :| 0 <= j < k && j < |fetched| && u in Outlinks(site, fetched[j]);
      assert (fetched + [next])[j] == fetched[j];
    }
  }

  /** Fetching the head of the frontier and appending its outlinks keeps
      every fetched and pending URL reached from the seed. */
  lemma VisitKeepsDerived(site: Site, head: string, rest: seq<string>, fetched: seq<string>)
    requires Derived(site, [head] + rest, fetched)
    ensures Derived(site, rest + Outlinks(site, head), fetched + [head])
  {
    var fetched' := fetched + [head];
    forall i | 0 <= i < |fetched'|
      ensures EnqueuedBefore(site, fetched', i, fetched'[i])
    {
      if i < |fetched| {
        EnqueuedBeforeGrows(site, fetched, i, head, fetched[i]);
      } else {
        assert head in [head] + rest;
        EnqueuedBeforeGrows(site, fetched, |fetched|, head, head);
      }
    }
    forall u | u in rest + Outlinks(site, head)
      ensures EnqueuedBefore(site, fetched', |fetched'|, u)
    {
      if u in rest {
        assert u in [head] + rest;
        EnqueuedBeforeGrows(site, fetched, |fetched|, head, u);
      } else {
        assert fetched'[|fetched|] == head;
      }
    }
  }

  /** Every fetched URL lies in each set that holds the seed and is closed
      under the links the crawl admits: the crawl reaches nothing else. */
  lemma {:induction false} FetchedReachable(site: Site, fetched: seq<string>, s: set<string>, i: nat)
    requires forall k :: 0 <= k < |fetched| ==> EnqueuedBefore(site, fetched, k, fetched[k])
    requires site.seed in s && Closed(site, s)
    requires i < |fetched|
    ensures fetched[i] in s
    decreases i
  {
    if fetched[i] != site.seed {
      var j :| 0 <= j < i && j < |fetched| && fetched[i] in Outlinks(site, fetched[j]);
      FetchedReachable(site, fetched, s, j);
    }
  }

  /** The visited set of a crawl state is the least one: it lies inside every
      set that holds the seed and is closed under admitted links, and every
      visited URL other than the seed passed the crawl condition. */
  lemma VisitedReachable(site: Site, frontier: seq<string>, visited: set<string>,
                         params: Index, fetched: seq<string>)
    requires CrawlInv(site, frontier, visited, params, fetched)
    ensures forall s :: site.seed in s && Closed(site, s) ==> visited <= s
    ensures forall u :: u in visited ==> u == site.seed || Admits(site, u)
  {
    forall s, u | site.seed in s && Closed(site, s) && u in visited
      ensures u in s
    {
      var i :| 0 <= i < |fetched| && fetched[i] == u;
      FetchedReachable(site, fetched, s, i);
    }
    forall u | u in visited
      ensures u == site.seed || Admits(site, u)
    {
      var i :| 0 <= i < |fetched| && fetched[i] == u;
      assert EnqueuedBefore(site, fetched, i, u);
    }
  }

  /** Dequeuing a URL that is already visited only shortens the frontier. */
  lemma SkipKeepsInv(site: Site, head: string, rest: seq<string>, visited: set<string>,
                     params: Index, fetched: seq<string>)
    requires CrawlInv(site, [head] + rest, visited, params, fetched)
    requires head in visited
    ensures CrawlInv(site, rest, visited, params, fetched)
  {
    forall u, l | u in visited && l in Outlinks(site, u)
      ensures l in visited || l in rest
    {
      assert l in visited || l in [head] + rest;
    }
    forall u | u in rest
      ensures EnqueuedBefore(site, fetched, |fetched|, u)
    {
      assert u in [head] + rest;
    }
  }

  /** Visiting a new URL: it is marked and recorded as fetched, its in-scope
      links go to the back of the frontier and all its links are indexed. */
  lemma VisitKeepsInv(site: Site, head: string, rest: seq<string>, visited: set<string>,
                      params: Index, fetched: seq<string>)
    requires CrawlInv(site, [head] + rest, visited, params, fetched)
    requires head !in visited
    ensures CrawlInv(site, rest + Outlinks(site, head), visited + {head},
                     IndexLinks(site.web, params, PageLinks(site, head)), fetched + [head])
  {
    VisitKeepsIndex(site, head, visited, params);
    VisitKeepsNoEmpty(site, head, params);
    VisitKeepsPending(site, head, rest, visited);
    VisitKeepsDerived(site, head, rest, fetched);
    assert Elems(fetched + [head]) == visited + {head};
    assert NoDup(fetched + [head]) by {
      assert head !in fetched;
    }
  }

  /** Indexing the links of a newly visited page keeps the index
      duplicate-free, keyed by base URLs, complete and sound for the grown
      visited set. */
  lemma VisitKeepsIndex(site: Site, head: string, visited: set<string>, params: Index)
    requires DupFree(params) && KeysAreBases(params)
    requires forall u :: u in visited ==> PageIndexed(site, params, u)
    requires forall b, n :: n in Names(params, b) ==> Seen(site, visited, b, n)
    ensures var params' := IndexLinks(site.web, params, PageLinks(site, head));
      DupFree(params') && KeysAreBases(params') &&
      (forall u :: u in visited + {head} ==> PageIndexed(site, params', u)) &&
      (forall b, n :: n in Names(params', b) ==> Seen(site, visited + {head}, b, n))
  {
    var links := PageLinks(site, head);
    var params' := IndexLinks(site.web, params, links);
    var visited' := visited + {head};
    IndexLinksSpec(site.web, params, links);
    forall u | u in visited'
      ensures PageIndexed(site, params', u)
    {
      if u != head {
        forall l | l in PageLinks(site, u)
          ensures Indexed(site.web, params', l)
        {
          IndexedMonotone(site.web, params, params', l);
        }
      }
    }
    forall b, n | n in Names(params', b)
      ensures Seen(site, visited', b, n)
    {
      if n in Names(params, b) {
        SeenMonotone(site, visited, visited', b, n);
      } else {
        assert FromLinks(site.web, PageLinks(site, head), b, n);
        assert head in visited';
      }
    }
  }

  /** Indexing the links of a newly visited page creates no key without a name. */
  lemma VisitKeepsNoEmpty(site: Site, head: string, params: Index)
    requires NoEmptyLists(params)
    ensures NoEmptyLists(IndexLinks(site.web, params, PageLinks(site, head)))
  {
    IndexLinksGrows(site.web, params, PageLinks(site, head));
  }

  /** Appending the outlinks of a newly visited page keeps every link of a
      visited page visited or pending. */
  lemma VisitKeepsPending(site: Site, head: string, rest: seq<string>, visited: set<string>)
    requires forall u, l :: u in visited && l in Outlinks(site, u) ==> l in visited || l in [head] + rest
    ensures forall u, l :: u in visited + {head} && l in Outlinks(site, u) ==>
      l in visited + {head} || l in rest + Outlinks(site, head)
  {
    forall u, l | u in visited + {head} && l in Outlinks(site, u)
      ensures l in visited + {head} || l in rest + Outlinks(site, head)
    {
      if u != head {
        assert l in visited || l in [head] + rest;
      }
    }
  }

  /** A closed crawl state indexes exactly what its visited pages link to. */
  lemma IndexMatchesSeen(site: Site, visited: set<string>, params: Index, b: string, n: string)
    requires forall u :: u in visited ==> PageIndexed(site, params, u)
    requires forall b, n :: n in Names(params, b) ==> Seen(site, visited, b, n)
    ensures n in Names(params, b) <==> Seen(site, visited, b, n)
  {
    if Seen(site, visited, b, n) {
      var u :| u in visited && FromLinks(site.web, PageLinks(site, u), b, n);
      var l :| l in PageLinks(site, u) && BaseURL(l) == b && n in QueryNames(site.web, l);
      assert Indexed(site.web, params, l);
    }
  }

  // ---------------------------------------------------------------------------
  // The crawler

  class Crawler {
    const site: Site
    /** `toVisit` */
    var frontier: seq<string>
    /** `crawledURLs` */
    var visited: set<string>
    /** `parameters` */
    var params: Index
    /** The URLs whose fetch was attempted, in order. */
    ghost var fetched: seq<string>

    ghost predicate Valid()
      reads this
    {
      CrawlInv(site, frontier, visited, params, fetched)
    }

    /** The state before the loop: the frontier holds only the seed. */
    constructor (target: string, crawlSubdomains: bool, web: Web, targetDomain: string)
      ensures site == Site(web, target, targetDomain, crawlSubdomains)
      ensures frontier == [target] && visited == {} && params == map[] && fetched == []
      ensures Valid()
    {
      site := Site(web, target, targetDomain, crawlSubdomains);
      frontier := [target];
      visited := {};
      params := map[];
      fetched := [];
    }

    /** One iteration of the inner `for param := range` loop. */
    method Register(base: string, name: string)
      modifies this`params
      ensures params == AddParam(old(params), base, name)
    {
      if base !in params {
        params := params[base := []];
      }
      var present := SliceContains(params[base], name);
      if !present {
        params := params[base := params[base] + [name]];
      }
    }

    /** Extracting the GET parameters of one absolute link. */
    method RegisterLink(absoluteURL: string)
      modifies this`params
      ensures params == IndexLink(site.web, old(params), absoluteURL)
    {
      var parsed := site.web.parse(absoluteURL);
      if parsed.None? {
        return;
      }
      var names := parsed.value.queryNames;
      ghost var params0 := params;
      for i := 0 to |names|
        invariant params == AddParams(params0, BaseURL(absoluteURL), names[..i])
      {
        var baseURL := HeadOfSplit(absoluteURL, '?');
        AddParamsSnoc(params0, baseURL, names, i);
        Register(baseURL, names[i]);
      }
      assert names[..|names|] == names;
    }

    /** The body of the per-anchor closure: resolve the `href` against the
        seed, append it to the frontier when in scope, and index it
        whether or not it was appended. */
    method VisitAnchor(href: Option<string>)
      modifies this`frontier, this`params
      ensures frontier == old(frontier) + Enqueued(site, ResolveAnchor(site, href))
      ensures params == IndexLinks(site.web, old(params), ResolveAnchor(site, href))
    {
      if href.None? {
        return;
      }
      var absolute := site.web.resolve(site.seed, href.value);
      if absolute.None? {
        return;
      }
      var absoluteURL := absolute.value;
      assert ResolveAnchor(site, href) == [absoluteURL];
      assert [absoluteURL][..0] == [];
      if site.crawlSubdomains || IsInternalURL(site.web, absoluteURL, site.domain) {
        frontier := frontier + [absoluteURL];
      }
      RegisterLink(absoluteURL);
    }

    /** One iteration of the crawl loop: pop the head; skip it when visited;
        otherwise mark it visited before fetching, and when the fetch and the
        document succeed, process its anchors in document order. */
    method Step()
      requires Valid() && frontier != []
      modifies this`frontier, this`visited, this`params, this`fetched
      ensures Valid()
      ensures visited == old(visited) + {old(frontier[0])}
      ensures old(frontier[0]) in old(visited) ==>
        frontier == old(frontier[1..]) && params == old(params) && fetched == old(fetched)
      ensures old(frontier[0]) !in old(visited) ==>
        frontier == old(frontier[1..]) + Outlinks(site, old(frontier[0])) &&
        params == IndexLinks(site.web, old(params), PageLinks(site, old(frontier[0]))) &&
        fetched == old(fetched) + [old(frontier[0])]
    {
      var currentURL := frontier[0];
      assert frontier == [currentURL] + frontier[1..];
      frontier := frontier[1..];
      if currentURL in visited {
        SkipKeepsInv(site, currentURL, frontier, visited, params, fetched);
        return;
      }
      ghost var frontier', params' := frontier + Outlinks(site, currentURL),
        IndexLinks(site.web, params, PageLinks(site, currentURL));
      VisitKeepsInv(site, currentURL, frontier, visited, params, fetched);
      visited := visited + {currentURL};
      fetched := fetched + [currentURL];

      // A failed fetch or document build leaves no anchors to process,
      // which is the source's `continue`.
      var anchors: seq<Option<string>> := [];
      var response := site.web.fetch(currentURL);
      if response.Some? {
        var doc := site.web.anchors(response.value);
        if doc.Some? {
          anchors := doc.value;
        }
      }
      assert anchors == PageAnchors(site, currentURL);
      VisitPage(anchors);
      assert frontier == frontier' && params == params';
    }

    /** `doc.Find("a").Each(...)`: every anchor of a page, in document order. */
    method VisitPage(anchors: seq<Option<string>>)
      modifies this`frontier, this`params
      ensures frontier == old(frontier) + Enqueued(site, ResolvedLinks(site, anchors))
      ensures params == IndexLinks(site.web, old(params), ResolvedLinks(site, anchors))
    {
      ghost var frontier0, params0 := frontier, params;
      for i := 0 to |anchors|
        invariant frontier == frontier0 + Enqueued(site, ResolvedLinks(site, anchors[..i]))
        invariant params == IndexLinks(site.web, params0, ResolvedLinks(site, anchors[..i]))
      {
        VisitAnchor(anchors[i]);
        AnchorStepFrontier(site, frontier0, anchors, i);
        AnchorStepIndex(site, params0, anchors, i);
      }
      assert anchors[..|anchors|] == anchors;
    }

    /** `for len(toVisit) > 0`: the crawl runs until the frontier is empty.
        It ends because every URL it can reach lies in a finite `universe`. */
    method Run(ghost universe: set<string>)
      requires Valid()
      requires Closed(site, universe) && visited <= universe
      requires forall u :: u in frontier ==> u in universe
      modifies this`frontier, this`visited, this`params, this`fetched
      ensures Valid() && frontier == []
      ensures old(visited) <= visited <= universe
      ensures forall u :: u in old(frontier) ==> u in visited
      ensures forall s :: site.seed in s && Closed(site, s) ==> visited <= s
      ensures forall u :: u in visited ==> u == site.seed || Admits(site, u)
    {
      ghost var start := frontier;
      while frontier != []
        invariant Valid()
        invariant old(visited) <= visited <= universe
        invariant forall u :: u in frontier ==> u in universe
        invariant forall u :: u in start ==> u in visited || u in frontier
        decreases |universe - visited|, |frontier|
      {
        ghost var frontier0, visited0 := frontier, visited;
        Step();
        StepStaysInUniverse(site, universe, start, frontier0, visited0, frontier, visited);
      }
      VisitedReachable(site, frontier, visited, params, fetched);
    }
  }

  /** The bookkeeping of one iteration of the crawl loop, for a frontier and
      visited set inside a closed finite `universe`: they stay inside it,
      the URLs of the initial frontier stay visited or pending, and a new
      visit leaves fewer unvisited URLs in the universe. */
  lemma StepStaysInUniverse(site: Site, universe: set<string>, start: seq<string>,
                            frontier0: seq<string>, visited0: set<string>,
                            frontier: seq<string>, visited: set<string>)
    requires Closed(site, universe) && visited0 <= universe && frontier0 != []
    requires forall u :: u in frontier0 ==> u in universe
    requires forall u :: u in start ==> u in visited0 || u in frontier0
    requires visited == visited0 + {frontier0[0]}
    requires frontier0[0] in visited0 ==> frontier == frontier0[1..]
    requires frontier0[0] !in visited0 ==> frontier == frontier0[1..] + Outlinks(site, frontier0[0])
    ensures visited <= universe
    ensures forall u :: u in frontier ==> u in universe
    ensures forall u :: u in start ==> u in visited || u in frontier
    ensures frontier0[0] !in visited0 ==> |universe - visited| < |universe - visited0|
    ensures frontier0[0] in visited0 ==> visited == visited0 && |frontier| < |frontier0|
  {
    var head := frontier0[0];
    assert frontier0 == [head] + frontier0[1..];
    forall u | u in start
      ensures u in visited || u in frontier
    {
      assert u in visited0 || u == head || u in frontier0[1..];
    }
    if head !in visited0 {
      assert universe - visited == (universe - visited0) - {head};
    }
  }

  /** Indexing a concatenation indexes the first part, then the second. */
  lemma {:induction false} IndexLinksAppend(web: Web, m: Index, a: seq<string>, b: seq<string>)
    ensures IndexLinks(web, m, a + b) == IndexLinks(web, IndexLinks(web, m, a), b)
    decreases |b|
  {
    if b == [] {
      assert a + b == a;
    } else {
      assert (a + b)[..|a + b| - 1] == a + b[..|b| - 1];
      IndexLinksAppend(web, m, a, b[..|b| - 1]);
    }
  }

  // ---------------------------------------------------------------------------
  // crawlDomain

  /** `CrawlResult` */
  datatype CrawlResult = CrawlResult(urls: set<string>, parameters: Index, targetFolder: string)

  /** The two failures that depend on the target alone: `url.Parse` refuses
      it, or its hostname is empty (a target without a scheme, such as
      `example.com`), so the folder name is empty and `os.MkdirAll("")` fails. */
  datatype CrawlError = TargetDoesNotParse | NoTargetFolder

  datatype Result = Ok(value: CrawlResult) | Err(error: CrawlError)

  /** `crawlDomain`: fails when the target does not parse or has no hostname;
      otherwise the visited URLs are exactly those reachable from the target
      through links the crawl condition admits (the least set that holds the
      target and is closed under them), and the index records, duplicate-free
      and keyed by base URL, exactly the query names of the links of the
      visited pages. */
  method CrawlDomain(target: string, crawlSubdomains: bool, web: Web, ghost universe: set<string>)
    returns (r: Result)
    requires web.parse(target).Some? && web.parse(target).value.hostname != "" ==>
      target in universe && Closed(SiteOf(target, crawlSubdomains, web), universe)
    ensures r == Err(TargetDoesNotParse) <==> web.parse(target).None?
    ensures r == Err(NoTargetFolder) <==> web.parse(target).Some? && web.parse(target).value.hostname == ""
    ensures r.Ok? ==>
      var site := SiteOf(target, crawlSubdomains, web);
      var res := r.value;
      res.targetFolder == ReplaceChar(site.domain, '.', '_') &&
      target in res.urls && res.urls <= universe &&
      Closed(site, res.urls) &&
      (forall s :: target in s && Closed(site, s) ==> res.urls <= s) &&
      (forall u :: u in res.urls ==> u == target || Admits(site, u)) &&
      DupFree(res.parameters) && KeysAreBases(res.parameters) &&
      (forall b :: b in res.parameters ==> res.parameters[b] != []) &&
      (forall u :: u in res.urls ==> PageIndexed(site, res.parameters, u)) &&
      (forall b, n :: n in Names(res.parameters, b) <==> Seen(site, res.urls, b, n))
  {
    var parsedTarget := web.parse(target);
    if parsedTarget.None? {
      return Err(TargetDoesNotParse);
    }
    var targetDomain := parsedTarget.value.hostname;
    var targetFolder := ReplaceChar(targetDomain, '.', '_');
    if targetFolder == "" {
      return Err(NoTargetFolder);
    }
    var crawler := new Crawler(target, crawlSubdomains, web, targetDomain);
    crawler.Run(universe);
    var res := CrawlResult(crawler.visited, crawler.params, targetFolder);
    forall b, n
      ensures n in Names(res.parameters, b) <==> Seen(crawler.site, res.urls, b, n)
    {
      IndexMatchesSeen(crawler.site, crawler.visited, crawler.params, b, n);
    }
    return Ok(res);
  }
}
