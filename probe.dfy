/** `checkReflectedParameter` and the collection of its results in `main`:
    each (base URL, parameter) pair of the index is probed with a fixed
    marker value, and the probe URLs whose response echoes the marker are
    the findings. */
module Probe {
  import opened Text
  import opened Net
  import opened ParamIndex

  /** `reflectionMarker` */
  const ReflectionMarker: string := "reflect_test_parameter"

  /** The probe URL `base?param=marker`, built by plain concatenation with no
      escaping of either part. */
  function ProbeURL(base: string, param: string): (r: string)
    ensures base + "?" <= r
    ensures HasSuffix(r, "=" + ReflectionMarker)
  {
    base + "?" + param + "=" + ReflectionMarker
  }

  /** The response to the probe URL contains the marker. A transport or read
      error counts as no reflection. */
  predicate Reflects(web: Web, base: string, param: string): (r: bool)
    ensures r ==> web.fetch(ProbeURL(base, param)).Some?
    ensures r <==> CheckReflectedParameter(web, base, param) != ""
  {
    match web.fetch(ProbeURL(base, param))
    case None => false
    case Some(body) => Contains(body, ReflectionMarker)
  }

  /** `checkReflectedParameter`: the probe URL when the marker comes back in
      the body, and the empty string otherwise (also when the request fails). */
  function CheckReflectedParameter(web: Web, base: string, param: string): (r: string)
    ensures r == "" || r == ProbeURL(base, param)
    ensures r != "" <==>
      web.fetch(ProbeURL(base, param)).Some? &&
      Contains(web.fetch(ProbeURL(base, param)).value, ReflectionMarker)
  {
    var fullURL := ProbeURL(base, param);
    match web.fetch(fullURL)
    case None => ""
    case Some(body) => if Contains(body, ReflectionMarker) then fullURL else ""
  }

  /** An endpoint whose response contains the marker anywhere, for instance
      one that echoes the parameter's value, is reported with its probe URL,
      and that URL carries the marker itself. */
  lemma EchoIsReported(web: Web, base: string, param: string, before: string, after: string)
    requires web.fetch(ProbeURL(base, param)) == Some(before + ReflectionMarker + after)
    ensures CheckReflectedParameter(web, base, param) == ProbeURL(base, param)
    ensures Contains(CheckReflectedParameter(web, base, param), ReflectionMarker)
  {
    var body := before + ReflectionMarker + after;
    assert body[|before|..|before| + |ReflectionMarker|] == ReflectionMarker;
    assert OccursAt(body, ReflectionMarker, |before|);
    var url := ProbeURL(base, param);
    var at := |base| + 1 + |param| + 1;
    assert url[at..at + |ReflectionMarker|] == ReflectionMarker;
    assert OccursAt(url, ReflectionMarker, at);
  }

  /** The probe URL gives back its base URL as the text before the first `?`,
      and its parameter as the text between that `?` and the final
      `=marker`, as long as the base URL holds no `?` itself. */
  lemma {:induction false} ProbeURLParts(base: string, param: string)
    requires '?' !in base
    ensures HeadOfSplit(ProbeURL(base, param), '?') == base
    ensures var url := ProbeURL(base, param);
      url[|base| + 1..|url| - |ReflectionMarker| - 1] == param
  {
    var url := ProbeURL(base, param);
    assert url == base + ['?'] + (param + "=" + ReflectionMarker);
    HeadOfSplitPrefix(base, '?', param + "=" + ReflectionMarker);
  }

  /** Probe URLs of base URLs without `?` are distinct for distinct pairs. */
  lemma ProbeURLInjective(base1: string, param1: string, base2: string, param2: string)
    requires '?' !in base1 && '?' !in base2
    requires ProbeURL(base1, param1) == ProbeURL(base2, param2)
    ensures base1 == base2 && param1 == param2
  {
    ProbeURLParts(base1, param1);
    ProbeURLParts(base2, param2);
  }

  /** Probe URLs of one base URL are distinct for distinct parameters,
      whatever the base URL holds. */
  lemma SameBaseInjective(base: string, p: string, q: string)
    requires ProbeURL(base, p) == ProbeURL(base, q)
    ensures p == q
  {
    var url := ProbeURL(base, p);
    assert |p| == |q|;
    assert url[|base| + 1..|base| + 1 + |p|] == p;
    assert ProbeURL(base, q)[|base| + 1..|base| + 1 + |q|] == q;
  }

  /** The findings among the pairs whose base URL is in `keys`. */
  ghost function FindingsFor(web: Web, m: Index, keys: set<string>): set<string> {
    set b, p | b in keys && b in m && p in m[b] && Reflects(web, b, p) :: ProbeURL(b, p)
  }

  /** The findings among the parameters `params` of one base URL. */
  ghost function FindingsOf(web: Web, base: string, params: seq<string>): set<string> {
    set p | p in params && Reflects(web, base, p) :: ProbeURL(base, p)
  }

  /** The findings of the whole index. */
  ghost function Findings(web: Web, m: Index): set<string> {
    FindingsFor(web, m, m.Keys)
  }

  lemma FindingsOfStep(web: Web, base: string, params: seq<string>, i: nat)
    requires i < |params|
    ensures FindingsOf(web, base, params[..i + 1]) ==
      FindingsOf(web, base, params[..i]) +
      (if Reflects(web, base, params[i]) then {ProbeURL(base, params[i])} else {})
  {
    assert params[..i + 1] == params[..i] + [params[i]];
  }

  lemma MoveKey(todo: set<string>, done: set<string>, key: string)
    requires key in todo && todo !! done
    ensures (todo - {key}) + (done + {key}) == todo + done
    ensures (todo - {key}) !! (done + {key})
    ensures |todo - {key}| < |todo|
  {
  }

  lemma FindingsForStep(web: Web, m: Index, done: set<string>, base: string)
    requires base in m
    ensures FindingsFor(web, m, done + {base}) == FindingsFor(web, m, done) + FindingsOf(web, base, m[base])
  {
  }

  /** The probe URL of `params[i]` is not among the findings of the
      parameters before it, when the list repeats no name. */
  lemma FindingIsNew(web: Web, base: string, params: seq<string>, i: nat)
    requires NoDup(params) && i < |params|
    ensures ProbeURL(base, params[i]) !in FindingsOf(web, base, params[..i])
  {
    var url := ProbeURL(base, params[i]);
    if url in FindingsOf(web, base, params[..i]) {
      var p :| p in params[..i] && ProbeURL(base, p) == url;
      SameBaseInjective(base, p, params[i]);
      assert false;
    }
  }

  /** Findings for different base URLs are different URLs, when base URLs
      hold no `?`. */
  lemma FindingsDisjoint(web: Web, m: Index, done: set<string>, base: string)
    requires KeysAreBases(m) && base in m && base !in done
    ensures FindingsFor(web, m, done) !! FindingsOf(web, base, m[base])
  {
    forall url | url in FindingsFor(web, m, done) && url in FindingsOf(web, base, m[base])
      ensures false
    {
      var b, p :| b in done && b in m && p in m[b] && Reflects(web, b, p) && ProbeURL(b, p) == url;
      var q :| q in m[base] && ProbeURL(base, q) == url;
      ProbeURLInjective(b, p, base, q);
    }
  }

  /** Appending the findings of one more base URL to the collected ones
      gives the findings of the base URLs done so far, still without repeats. */
  lemma CollectStep(web: Web, m: Index, done: set<string>, base: string,
                    results: seq<string>, found: seq<string>)
    requires base in m && base !in done
    requires Elems(results) == FindingsFor(web, m, done)
    requires Elems(found) == FindingsOf(web, base, m[base])
    requires KeysAreBases(m) && DupFree(m) ==> NoDup(results)
    requires NoDup(m[base]) ==> NoDup(found)
    ensures Elems(results + found) == FindingsFor(web, m, done + {base})
    ensures KeysAreBases(m) && DupFree(m) ==> NoDup(results + found)
  {
    assert Elems(results + found) == Elems(results) + Elems(found);
    FindingsForStep(web, m, done, base);
    if KeysAreBases(m) && DupFree(m) {
      FindingsDisjoint(web, m, done, base);
      AppendNoDup(results, found);
    }
  }

  /** Probing every parameter of one base URL, in list order: the non-empty
      results are the findings of that list, once each when the list repeats
      no name. */
  method ProbeParams(web: Web, baseURL: string, params: seq<string>) returns (found: seq<string>)
    ensures Elems(found) == FindingsOf(web, baseURL, params)
    ensures NoDup(params) ==> NoDup(found)
  {
    found := [];
    for i := 0 to |params|
      invariant Elems(found) == FindingsOf(web, baseURL, params[..i])
      invariant NoDup(params) ==> NoDup(found)
    {
      FindingsOfStep(web, baseURL, params, i);
      var result := CheckReflectedParameter(web, baseURL, params[i]);
      if result != "" {
        if NoDup(params) {
          FindingIsNew(web, baseURL, params, i);
        }
        found := found + [result];
      }
    }
    assert params[..|params|] == params;
  }

  /** The result collection of `main`: one probe per (base URL, parameter)
      pair, in no particular order of base URLs (Go's map iteration order),
      keeping the non-empty results. The collected URLs are exactly the
      findings of the index, and none occurs twice when the index comes from
      the crawl (base URLs without `?`, lists without repeats). */
  method CollectReflected(web: Web, parameters: Index) returns (reflectedResults: seq<string>)
    ensures Elems(reflectedResults) == Findings(web, parameters)
    ensures KeysAreBases(parameters) && DupFree(parameters) ==> NoDup(reflectedResults)
  {
    reflectedResults := [];
    var todo := parameters.Keys;
    ghost var done: set<string> := {};
    ghost var fromCrawl := KeysAreBases(parameters) && DupFree(parameters);
    assert Elems(reflectedResults) == {};
    assert FindingsFor(web, parameters, done) == {};
    while todo != {}
      invariant todo + done == parameters.Keys && todo !! done
      invariant Elems(reflectedResults) == FindingsFor(web, parameters, done)
      invariant fromCrawl ==> NoDup(reflectedResults)
      decreases |todo|
    {
      var baseURL :| baseURL in todo;
      var found := ProbeParams(web, baseURL, parameters[baseURL]);
      CollectStep(web, parameters, done, baseURL, reflectedResults, found);
      MoveKey(todo, done, baseURL);
      reflectedResults := reflectedResults + found;
      todo := todo - {baseURL};
      done := done + {baseURL};
    }
    assert done == parameters.Keys;
  }
}
