# refx: crawl bookkeeping and reflection probing, in Dafny

refx crawls a web site from a target URL. It collects the names of the GET
parameters it sees on links, then probes every (base URL, parameter) pair
with the marker value `reflect_test_parameter`. A probe whose response body
contains the marker is reported as a reflected parameter.

This project models the deterministic core of `main.go`:

- **Crawl loop** (`crawlDomain`). A breadth-first crawl over a FIFO frontier
  (`toVisit`) with a visited set (`crawledURLs`). The class `Crawl.Crawler`
  holds both, plus the parameter index (`parameters`). Its methods follow
  the source's loop, the per-anchor closure and the inner parameter loop.
  The crawl skips a URL only when it is dequeued. It marks a URL visited
  before fetching it. It resolves every link against the seed URL. It
  appends a link when the `-s` flag is set or the link passes
  `isInternalURL`. It indexes the link's query names either way.
- **Parameter index** (`sliceContains` and lines 142-150). Modelled as an
  append-if-absent update of a `map<string, seq<string>>` in module
  `ParamIndex`. The key is the text before the link's first `?`.
- **Scope rule** (`isInternalURL`). A raw string-suffix test on the hostname,
  as written; module `Scope`.
- **Probe decision and result collection** (`checkReflectedParameter`, and
  lines 216-240 of `main`). Module `Probe`. The probe URL is
  `base?param=reflect_test_parameter`, built without escaping. The result is
  that URL when the body contains the marker, and `""` otherwise. The
  concurrent fan-out is modelled by its sequential meaning: the collected
  URLs are exactly the probe URLs of the reflecting pairs.

The network, the URL library and the HTML parser are passed in as the total
functions of `Net.Web`: `fetch` (body or transport error), `parse` (hostname
and query names, or a parse error), `anchors` (the `<a>` elements of a
document, each with its `href` if present, or a document error) and
`resolve` (`ResolveReference` against the seed, or a parse error of the
`href`). Every property below holds for all such functions.

Main results:

- `Crawl.CrawlDomain` fails exactly when the target does not parse or has
  an empty hostname (no folder can be made for it). Otherwise the visited
  set is exactly what is reachable from the target through links the crawl
  condition admits: it contains the target, is closed under those links,
  and lies inside every other set that is. The index is duplicate-free, keyed
  by `?`-free base URLs, and has no key without a name. A name is recorded under a base URL exactly when
  some visited page links to that base URL with that query name.
- `Crawl.Crawler.Step` is one iteration of the loop: the head leaves the
  frontier; an already visited head changes nothing else; a new head is
  marked visited whether or not its fetch succeeds, its admitted links go to
  the tail in document order, and all its links are indexed. The crawl
  invariant `CrawlInv` also records that every URL is fetched at most once,
  and that every fetched URL was enqueued by a page fetched before it.
- `Probe.CollectReflected` collects exactly the findings of the
  index. When the index comes from the crawl, no finding occurs twice,
  because the probe URL is injective in the parameter for a fixed base URL
  (`Probe.SameBaseInjective`) and in (base URL, parameter) for base URLs
  without `?` (`Probe.ProbeURLInjective`).

Behaviour of `main.go` worth knowing, all of it modelled as written:

- The scope test is a raw suffix test on the hostname, with no check for a
  dot before the target domain. A look-alike host such as
  `evilexample.com` passes for `example.com`. Without `-s`,
  subdomains pass too. With `-s`, every link is followed, whatever its host.
- Visited URLs are filtered when they are dequeued; enqueuing does not
  check, so a URL can sit in the frontier several times.
- The collected findings go through no deduplication step. They are
  distinct anyway because the index lists are duplicate-free and the probe
  URL construction is injective.
- Links are resolved against the seed URL (`parsedTarget`), whatever page
  they were found on.

## Model

| member | source | states |
|---|---|---|
| `ParamIndex.SliceContains` | main.go:161-168 | returns true exactly when some element of the slice equals the item |
| `ParamIndex.AddParam` | main.go:144-149 | after registering a (base, name) pair, the name is in the base's list; an absent name is appended at the end and a present one changes nothing; other keys are unchanged; old lists keep their order; duplicate-freedom is preserved, and so is the absence of keys with an empty list |
| `ParamIndex.AddParams` | main.go:142-150 | registering a link's names: the base's list afterwards holds its old names plus the link's names and nothing else; the key exists afterwards exactly when there was a name; other keys and old order are unchanged; no duplicates appear and no key is left with an empty list |
| `ParamIndex.AddParamIdempotent` | main.go:144-149 | registering the same (base, name) pair twice has the effect of registering it once |
| `ParamIndex.AddParamsIdempotent` | main.go:142-150 | registering the names of a link twice has the effect of registering them once |
| `ParamIndex.AddParamsPresent` | main.go:147-149 | registering names that are all present already leaves the index unchanged |
| `Text.HeadOfSplit` | main.go:143 | the index key is a prefix of the link, holds no `?`, and is followed in the link by a `?` unless it is the whole link |
| `Text.ReplaceChar` | main.go:85 | the target folder name is the hostname with each `.` replaced by `_`, and nothing else changed |
| `Scope.IsInternalURL` | main.go:63-69 | a URL that does not parse is never internal; a URL whose hostname is the target hostname is; with an empty target hostname every URL that parses is |
| `Scope.ShouldEnqueue` | main.go:133 | with `-s` every link is admitted; without it only links that parse can be, and links to the target hostname always are |
| `Scope.InternalIffSuffix` | main.go:63-69 | a URL is internal exactly when it parses and its hostname is any text followed by the target hostname, with no check for a label boundary |
| `Scope.SuffixRuleExamples` | main.go:68 | for `example.com`, the hosts `evilexample.com` and `sub.example.com` pass the suffix rule and `example.org` does not |
| `Crawl.ResolveAnchor` | main.go:121-130 | an anchor yields at most one link: the resolution of its `href` against the seed URL, and none when it has no `href` or the `href` does not parse |
| `Crawl.ResolvedLinks` | main.go:120-130 | a page yields no more links than anchors; each link is the resolution of some anchor's `href` against the seed URL, and every anchor whose `href` resolves gives its link |
| `Crawl.ResolvedLinksSnoc` | main.go:120-130 | the links of the first i+1 anchors are those of the first i followed by the at most one link of anchor i, in document order |
| `Crawl.PageLinks` | main.go:100-118 | a page whose fetch or document building fails contributes no links; otherwise each link comes from an anchor of the fetched document resolved against the seed URL, and every anchor of it whose `href` resolves gives its link |
| `Crawl.Enqueued` | main.go:133-135 | a resolved link is appended to the frontier exactly when `-s` is set or it is internal; the appended links keep document order |
| `Crawl.EnqueuedAllWithSubdomains` | main.go:133-135 | with `-s`, every resolved link of a page is appended, in order, whatever its host |
| `Crawl.EnqueuedAppend` | main.go:120-135 | the links appended for a page are those appended for each anchor in turn |
| `Crawl.BaseURL` | main.go:143 | the index key of a link is the text before its first `?`: a `?`-free prefix followed in the link by a `?`, or the whole link when the link has no `?` |
| `Crawl.IndexLink` | main.go:137-150 | a link that does not parse leaves the index unchanged, and the link's base URL becomes a key exactly when the link has a query name, so no key is created with an empty list |
| `Crawl.IndexLinkSpec` | main.go:137-150 | indexing one link only grows the index, keeps it duplicate-free and keyed by `?`-free base URLs, and records every query name of the link under its base URL |
| `Crawl.IndexLinkNames` | main.go:137-150 | after indexing one link, a name is recorded under a base URL exactly when it was before, or it is a query name of the link and the base URL is the link's |
| `Crawl.IndexLinksSpec` | main.go:120-151 | indexing the links of a page, appended or not: every link's names are recorded, and a name is recorded under a base URL exactly when it was before or some link with that base URL has that name |
| `Crawl.IndexLinksGrows` | main.go:120-151 | indexing the links of a page only grows the index and keeps it duplicate-free, keyed by `?`-free base URLs and without keys mapped to an empty list |
| `Crawl.IndexLinksNames` | main.go:120-151 | after indexing the links of a page, a name is recorded under a base URL exactly when it was before or some link with that base URL has that name |
| `Crawl.IndexLinksAppend` | main.go:120-151 | indexing the links of a page is indexing each anchor's link in turn |
| `Crawl.VisitKeepsIndex` | main.go:137-150 | indexing the links of a newly visited page keeps the index duplicate-free, keyed by base URLs, holding every name of every visited page's links and nothing that no visited page links to |
| `Crawl.VisitKeepsPending` | main.go:132-135 | appending the admitted links of a newly visited page keeps every admitted link of a visited page visited or pending |
| `Crawl.VisitKeepsDerived` | main.go:91-134 | after a visit, every fetched URL was still enqueued by a page fetched before it (or is the target), and every pending URL by some fetched page |
| `Crawl.FetchedReachable` | main.go:90-135 | every fetched URL lies in each set that holds the target and is closed under admitted links |
| `Crawl.VisitedReachable` | main.go:90-135 | under the crawl invariant, the visited set lies inside every set that holds the target and is closed under admitted links, and every visited URL other than the target passed the crawl condition |
| `Crawl.SkipKeepsInv` | main.go:91-96 | dequeuing an already visited URL keeps the crawl invariant with nothing but the frontier changed |
| `Crawl.VisitKeepsNoEmpty` | main.go:144-149 | indexing the links of a newly visited page creates no key without a name, since a key is created only for the name appended to it right away |
| `Crawl.VisitKeepsInv` | main.go:90-152 | visiting a new URL keeps the crawl invariant: at-most-once fetching, a complete and sound index with no key lacking a name, and every admitted link of a visited page visited or pending |
| `Crawl.IndexMatchesSeen` | main.go:137-150 | under the crawl invariant, a name is recorded under a base URL exactly when a visited page links to that base URL with that name |
| `Crawl.Crawler.constructor` | main.go:74-76 | the crawl starts with only the target in the frontier, nothing visited and an empty index |
| `Crawl.Crawler.Register` | main.go:144-149 | one iteration of the parameter loop is the append-if-absent update |
| `Crawl.Crawler.RegisterLink` | main.go:137-150 | the parameter loop of a link registers its query names under its base URL, and does nothing when the link does not parse |
| `Crawl.Crawler.VisitAnchor` | main.go:120-151 | one anchor: appends its resolved link when admitted, and indexes it either way; an anchor without `href` or with an unparsable one changes nothing |
| `Crawl.Crawler.VisitPage` | main.go:120-151 | all anchors of a page, in document order: the admitted links go to the tail of the frontier and every resolved link is indexed |
| `Crawl.Crawler.Step` | main.go:90-152 | one loop iteration: the head is removed; a visited head changes nothing else; a new head is marked visited before its fetch, its admitted links are appended and its links indexed; the crawl invariant holds |
| `Crawl.Crawler.Run` | main.go:90-152 | the loop ends with an empty frontier; every URL that was in the frontier is visited, the visited set only grew, it lies inside every set that holds the target and is closed under admitted links, and every visited URL other than the target passed the crawl condition |
| `Crawl.CrawlDomain` | main.go:71-159 | fails with one error exactly when the target does not parse and with another exactly when its hostname is empty; otherwise returns the visited set (exactly the URLs reachable from the target through admitted links), the duplicate-free index of exactly the names seen on the visited pages, with no key mapped to an empty list (so its keys are exactly the base URLs with a seen name), and the target folder name |
| `Probe.ProbeURL` | main.go:172 | the probe URL starts with the base URL and a `?` and ends with `=reflect_test_parameter` |
| `Probe.Reflects` | main.go:174-185 | a pair reflects only when its probe request returns a body, and exactly when `checkReflectedParameter` reports it |
| `Probe.CheckReflectedParameter` | main.go:170-188 | the result is `""` or the probe URL, and it is the probe URL exactly when the fetch succeeds and the body contains the marker |
| `Probe.EchoIsReported` | main.go:185-187 | a response that contains the marker anywhere yields the probe URL, which itself contains the marker |
| `Probe.ProbeURLParts` | main.go:172 | for a base URL without `?`, the probe URL gives back the base URL before its first `?` and the parameter between that `?` and the final `=marker` |
| `Probe.SameBaseInjective` | main.go:172 | probe URLs of one base URL are equal only for equal parameters, whatever the base URL holds |
| `Probe.ProbeURLInjective` | main.go:172 | probe URLs of base URLs without `?` are equal only for equal (base URL, parameter) pairs |
| `Probe.ProbeParams` | main.go:221-230 | probing the parameters of one base URL collects exactly the probe URLs of those that reflect, once each when the list has no repeats, whatever the base URL |
| `Probe.CollectStep` | main.go:220-239 | adding the results of one more base URL keeps the collection equal to the findings so far, without repeats |
| `Probe.CollectReflected` | main.go:216-240 | the collected results are exactly the probe URLs of the reflecting pairs of the index, in any order of base URLs; none repeats when the index comes from the crawl |

## Left out

- `fetchURL` and the GET in `checkReflectedParameter` (network I/O): replaced by `Web.fetch`. A transport error and a read error both give no body, as in the source.
- goquery's document building, `Find("a")` and `Attr("href")`: replaced by `Web.anchors`.
- `url.Parse`, `ResolveReference`, `String`, `Hostname` and `Query`: replaced by `Web.parse` and `Web.resolve`. The query names come in the order the oracle gives. Go's map iteration gives a random order, so that order matters only for the order of names in a list.
- Directory creation and file writes: `MkdirAll`, the page files and `reflected_parameters.txt`. Only the empty folder name is modelled, as an error. The page file name comes from the target's path, not the current URL, so every page overwrites the same file.
- Goroutines, the `WaitGroup` and the channel: only the sequential meaning is modelled. The base URLs are taken in an unspecified order (`:|`), like Go's map iteration. The order of results is not promised.
- `printBanner`, colour output, flag parsing and the exits in `main`: user interface.
- `maxWorkers`: declared and never used.
- Crawl.Crawler.Run: requires every URL the crawl can reach to lie in a finite set closed under admitted links. The source's loop has no bound and does not terminate on an infinite site.
- Crawl.CrawlDomain: when the target parses and has a hostname, requires the same finite closed set around the target, because only then is the loop reached; the two error returns need nothing.
- Crawl.CrawlDomain: returns Ok for a target with a non-empty path, such as `http://example.com/`. The source fails for it: the folder is joined twice (main.go:106 and 110), so the first successful fetch writes into `targetFolder/targetFolder/`, which does not exist, and `crawlDomain` returns the write error. Other failures of `MkdirAll` and `WriteFile` depend on the file system and are not modelled either. The empty-hostname failure is modelled.
