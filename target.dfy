/** The outbound target of the forwarding handler (main.go:62-66): the
    configured target host with the inbound path appended, parsed, and the
    inbound raw query put in place of the parsed one when it is non-empty.
    url.Parse is not modelled: it is a parameter that always yields a URL.
    Its error, which the source discards and which would leave a nil URL
    to be dereferenced, is not modelled. */
module Target {

  /** A parsed URL: everything but the raw query, and the raw query. */
  datatype Url = Url(base: string, rawQuery: string)

  /** The target URL for an inbound request with path `path` and raw query
      `rawQuery`. */
  function TargetUrl(targetHost: string, path: string, rawQuery: string, parse: string -> Url): (target: Url)
    ensures target.base == parse(targetHost + path).base
    ensures rawQuery != "" ==> target.rawQuery == rawQuery
    ensures rawQuery == "" ==> target.rawQuery == parse(targetHost + path).rawQuery
  {
    var target := parse(targetHost + path);
    if rawQuery != "" then target.(rawQuery := rawQuery) else target
  }

  /** With an empty inbound query the inbound query is not consulted: the
      target is what parsing `targetHost + path` gave, query included. */
  lemma EmptyQueryKeepsParsed(targetHost: string, path: string, parse: string -> Url)
    ensures TargetUrl(targetHost, path, "", parse) == parse(targetHost + path)
  {
  }

  /** The query is replaced, never merged: two parses that agree on the base
      give the same target once a non-empty inbound query is present. */
  lemma QueryReplacesParsed(targetHost: string, path: string, rawQuery: string, parse1: string -> Url, parse2: string -> Url)
    requires rawQuery != ""
    requires parse1(targetHost + path).base == parse2(targetHost + path).base
    ensures TargetUrl(targetHost, path, rawQuery, parse1) == TargetUrl(targetHost, path, rawQuery, parse2)
  {
  }
}
