/** The request side of the forwarding handler (main.go:60-85) put
    together: target URL, a new outbound request with the inbound method and
    a fresh header, then the default pass and the inbound pass. The default
    map is the one parsed from DEFAULT_HEADERS at start-up (main.go:147-154). */
module Handler {
  import opened Headers
  import opened Target
  import opened DefaultHeaders

  /** What the handler reads of an inbound request. */
  datatype InboundRequest = InboundRequest(verb: string, path: string, rawQuery: string, header: HeaderMap)

  /** The outbound request before it is sent: same method, rewritten target,
      and the header built by the two passes. */
  method PrepareOutbound(targetHost: string, defaults: map<string, string>, r: InboundRequest,
                         parse: string -> Url, canon: string -> string)
    returns (verb: string, target: Url, h: Header)
    requires CanonInjective(defaults, canon)
    ensures verb == r.verb
    ensures target == TargetUrl(targetHost, r.path, r.rawQuery, parse)
    ensures fresh(h) && h.fields == OutboundFields(defaults, r.header, canon)
  {
    target := TargetUrl(targetHost, r.path, r.rawQuery, parse);
    verb := r.verb;
    h := NewOutboundHeader(defaults, r.header, canon);
  }

  /** A configured `Authorization:Bearer X` default and an inbound
      request for `/v1/items?limit=5` carrying `Authorization: Bearer Y`: the target
      keeps the query and the inbound credential is the only one in the outbound header. */
  lemma AuthorizationScenario(parse: string -> Url, canon: string -> string)
    requires canon("Authorization") == "Authorization"
    ensures ParseDefaultHeaders("Authorization:Bearer X") == Ok(map["Authorization" := "Bearer X"])
    ensures TargetUrl("http://api.example.com", "/v1/items", "limit=5", parse).rawQuery == "limit=5"
    ensures var defaults := map["Authorization" := "Bearer X"];
            var inbound := map["Authorization" := ["Bearer Y"]];
            && CanonInjective(defaults, canon)
            && OutboundFields(defaults, inbound, canon) == map["Authorization" := ["Bearer Y"]]
  {
    assert "Authorization:Bearer X" == "Authorization" + [':'] + "Bearer X";
    SingleEntry("Authorization", "Bearer X");
    var defaults := map["Authorization" := "Bearer X"];
    var inbound := map["Authorization" := ["Bearer Y"]];
    assert "Authorization" !in HopHeaders;
    InboundReplacesDefault("Authorization", "Bearer X", ["Bearer Y"], canon);
  }

  /** With no DEFAULT_HEADERS and no inbound Authorization header, the
      outbound request has none either. */
  lemma NoAuthorizationScenario(inbound: HeaderMap, canon: string -> string)
    requires "Authorization" !in inbound
    ensures ParseDefaultHeaders("") == Ok(map[])
    ensures CanonInjective(map[], canon)
    ensures "Authorization" !in OutboundFields(map[], inbound, canon)
  {
    OutboundNames(map[], inbound, canon, "Authorization");
  }

  /** A hop-by-hop name set as a default is sent even when the inbound
      request carries that header too: only inbound headers are filtered. */
  lemma HopDefaultScenario(canon: string -> string)
    requires canon("Connection") == "Connection"
    ensures var defaults := map["Connection" := "close"];
            var inbound := map["Connection" := ["keep-alive"]];
            && CanonInjective(defaults, canon)
            && "Connection" in OutboundFields(defaults, inbound, canon)
            && OutboundFields(defaults, inbound, canon)["Connection"] == ["close"]
  {
    var defaults := map["Connection" := "close"];
    var inbound := map["Connection" := ["keep-alive"]];
    assert "Connection" in HopHeaders;
    DefaultKept(defaults, inbound, canon, "Connection");
  }
}
