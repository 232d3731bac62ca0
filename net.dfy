/** The collaborators the crawler calls but that are not modelled: the HTTP
    client (`net/http` with `io.ReadAll`), the URL library (`net/url`) and the
    HTML parser (goquery). Each becomes a total function supplied by the
    caller, so that every result below holds for whatever the network and the
    libraries answer. */
module Net {

  datatype Option<T> = None | Some(value: T)

  /** What the crawler reads from a parsed URL: `Hostname()` and the names of
      the keys of `Query()`, in the order the map iteration yields them. */
  datatype Url = Url(hostname: string, queryNames: seq<string>)

  datatype Web = Web(
    /** `fetchURL` and the GET in `checkReflectedParameter`: the response body,
        or None on a transport or read error. */
    fetch: string -> Option<string>,
    /** `url.Parse`: None when the text is not a URL. */
    parse: string -> Option<Url>,
    /** goquery over a body: None when the document cannot be built; otherwise
        one entry per `<a>` element in document order, with its `href` if it
        has one. */
    anchors: string -> Option<seq<Option<string>>>,
    /** `url.Parse(href)` followed by `ResolveReference` against the seed URL
        and `String()`: None when `href` does not parse. */
    resolve: (string, string) -> Option<string>
  )
}
