# Forwarding gateway: header policy, target rewrite and DEFAULT_HEADERS

This project models the deterministic core of a small HTTP forwarding gateway
written in Go (`main.go`). For each inbound request the gateway:

- builds an outbound target from the configured target host and the inbound path and query;
- fills the outbound request's header map in two passes:
  - the configured default headers;
  - every inbound header that is not in the fixed hop-by-hop list;
- after the upstream call, copies every upstream response header into the
  caller-facing header map.

At start-up it parses the `DEFAULT_HEADERS` setting (`Name:Value` entries
separated by commas) into the default-header map.

The Dafny modules follow those pieces:

- `Headers` (`headers.dfy`):
  - the hop-by-hop list (`HopHeaders`) and the `containsHeader` scan (`ContainsHeader`, a loop with early return);
  - a `Header` class whose `fields` map the handler updates in place;
  - three loop methods: the default pass, the inbound pass and the response relay.
  - Go's map iteration order is arbitrary. Each loop takes any remaining key (`:|`), so the proofs hold for every order.
  - The methods are proved against the specification functions `DefaultFields`, `Forwardable` and `OutboundFields`. The lemmas about those functions state who wins and what never gets through.
- `Target` (`target.dfy`): the target URL. `url.Parse` is a function parameter that returns a record holding the raw query and everything else.
- `DefaultHeaders` (`default_headers.dfy`):
  - `strings.Split` for a one-character separator (`Split`), proved against its inverse `Join`;
  - the parse as a function `ParseDefaultHeaders` that returns a map or a failure;
  - the start-up loop `LoadDefaultHeaders`, proved equal to that function.
  - In Go, an entry without a colon makes `headerParts[1]` panic. The model returns `Err(IndexOutOfRange(i))` there, where `i` is the first such entry.
- `Handler` (`handler.dfy`): the request side put together (`PrepareOutbound`), plus worked scenarios.

`Header.Set` canonicalises its key with Go's `textproto.CanonicalMIMEHeaderKey`. The model takes that function as a parameter `canon`. The default pass requires that no two default names share a canonical form (`CanonInjective`). Without that, which default survives would depend on Go's random map iteration order.

Points where the code's behaviour is easy to misread:

- With an empty inbound query, the outbound query is not cleared. It is whatever parsing `targetHost + path` produced.
- Each `DEFAULT_HEADERS` entry is split on every colon, not just the first. Part 1 is the value, so any text after a second colon is dropped.
- Hop-by-hop headers are filtered only from inbound to outbound. Default headers are never filtered, and neither are response headers.
- A `DEFAULT_HEADERS` entry without a colon panics on `headerParts[1]`. The model returns a failure there.

The hop-by-hop list is RFC 2616's (section 13.5.1) as spelled in the source. That includes "Trailers", while the header field is named "Trailer". Inbound keys reach the handler in canonical form, and the canonical form of "Trailer" is "Trailer". So an inbound `Trailer` header passes the filter and is copied into the outbound header map (`Headers.NotFiltered`).

## Model

| member | source | states |
|---|---|---|
| `Headers.ContainsHeader` | main.go:51-58 | the scan returns true exactly when some list element equals the name byte for byte (case-sensitive); an empty list gives false |
| `Headers.Header.Set` | main.go:77 | `Header.Set` stores the single-element list `[value]` under the canonical key, replacing what was there |
| `Headers.Header.Put` | main.go:83 | `h[k] = v` stores the whole value list under the key as given, replacing what was there |
| `Headers.InjectDefaults` | main.go:75-78 | after the default pass the header is the old one overwritten by every default under its canonical name as `[value]`, whatever the iteration order |
| `Headers.CopyInbound` | main.go:80-85 | after the inbound pass the header is the old one overwritten by every non-hop-by-hop inbound header with its whole value list; hop-by-hop inbound headers are skipped |
| `Headers.RelayResponseHeaders` | main.go:94-97 | every upstream header key, hop-by-hop included, ends up with the upstream value list; keys only the caller-facing map had are unchanged; no other keys appear |
| `Headers.NewOutboundHeader` | main.go:75-85 | a fresh header filled by the default pass and then the inbound pass equals the outbound specification `OutboundFields` |
| `Headers.InboundWins` | main.go:81-85 | every inbound name not in the hop-by-hop list maps in the outbound request to exactly its inbound value list, replacing any default of that name |
| `Headers.HopOnlyFromDefaults` | main.go:76-85 | an outbound entry under a hop-by-hop name is never an inbound header: it is some default's canonical name carrying `[that default's value]` |
| `Headers.DefaultKept` | main.go:76-78 | a default whose canonical name is not among the copied inbound names ends up as the single-element list of its value |
| `Headers.OutboundNames` | main.go:75-85 | the outbound names are exactly the non-hop-by-hop inbound names and the canonical default names |
| `Headers.NotFiltered` | main.go:16-25 | the list holds "Trailers" exactly as spelled and not "Trailer", so an inbound "Trailer" header is not filtered |
| `Target.TargetUrl` | main.go:62-66 | the target is the parse of `targetHost + path`; a non-empty inbound raw query replaces its query verbatim, an empty one leaves the parsed query |
| `Target.EmptyQueryKeepsParsed` | main.go:63-66 | with an empty inbound query the inbound query is not consulted: the target is exactly the parse of `targetHost + path` |
| `Target.QueryReplacesParsed` | main.go:64-66 | a non-empty inbound query replaces the parsed query outright (no merging): the target depends only on the parsed base and the inbound query |
| `DefaultHeaders.Split` | main.go:150-151 | `strings.Split` gives at least one part, no part holds the separator, and joining the parts with the separator gives back the input |
| `DefaultHeaders.SplitJoin` | main.go:150-151 | splitting the join of separator-free parts gives back the parts (the other half of the round trip) |
| `DefaultHeaders.SplitHasSecondPart` | main.go:151-152 | the split has a part 1 exactly when the separator occurs, so `headerParts[1]` is in range exactly when the entry has a colon |
| `DefaultHeaders.ParseEntry` | main.go:151-152 | an entry yields a name/value pair (part 0 and part 1 of its split on ':') exactly when it has a colon; neither part holds a colon |
| `DefaultHeaders.ParseEntries` | main.go:150-153 | the entries written in order succeed exactly when every entry has a colon; a failure names an entry without one; no key or value of the map holds a colon |
| `DefaultHeaders.ParseDefaultHeaders` | main.go:147-154 | "" gives a map; otherwise the ','-split entries must all have a colon to give a map, and a failure names an entry without one; no key or value of the map holds a colon |
| `DefaultHeaders.LoadDefaultHeaders` | main.go:147-154 | the start-up loop returns exactly the parse `ParseDefaultHeaders`, including its failure at the first entry without a colon |
| `DefaultHeaders.ParseEmpty` | main.go:147-149 | an empty DEFAULT_HEADERS gives the empty map |
| `DefaultHeaders.ParseOutcome` | main.go:149-153 | the parse succeeds exactly when the string is empty or every comma-separated entry has a colon, and it fails at index `i` exactly when entry `i` is the first without one |
| `DefaultHeaders.ParseLastWins` | main.go:150-153 | a successful parse maps exactly the entries' names, each to the value of the last entry with that name |
| `DefaultHeaders.EntryFields` | main.go:151-152 | the name is the exact text before the first colon and the value the exact text after it, up to the next colon or the end: no trimming, and text after a second colon is dropped |
| `DefaultHeaders.EntryWithoutColon` | main.go:151-152 | an entry has no name/value pair exactly when it has no colon |
| `DefaultHeaders.ParseEntriesFails` | main.go:150-153 | over the entry list, the parse fails at index `i` exactly when entry `i` is the first with no colon |
| `DefaultHeaders.ParseEntriesSucceeds` | main.go:150-153 | over the entry list, the parse succeeds exactly when every entry has a colon |
| `DefaultHeaders.ParseEntriesKeys` | main.go:150-153 | a successful parse of an entry list maps exactly the entries' names |
| `DefaultHeaders.ParseEntriesLastWins` | main.go:150-153 | in a successful parse of an entry list, each name maps to the value of its last entry |
| `DefaultHeaders.TrailingCommaFails` | main.go:150-152 | a DEFAULT_HEADERS ending in a comma always fails, because its empty last entry has no colon |
| `DefaultHeaders.SingleEntry` | main.go:147-154 | one `Name:Value` entry without separators in its parts parses to the one-entry map with name and value exactly as written |
| `Handler.PrepareOutbound` | main.go:62-85 | the outbound request keeps the inbound method, targets `TargetUrl` and carries the header `OutboundFields` |
| `Handler.AuthorizationScenario` | main.go:62-85 | `Authorization:Bearer X` parses to that default; an inbound request for `/v1/items?limit=5` with `Authorization: Bearer Y` keeps query `limit=5`, and when `Authorization` is already canonical the outbound header is exactly `Authorization: [Bearer Y]` |
| `Headers.InboundReplacesDefault` | main.go:75-85 | a default and an inbound header under the same canonical, non-hop-by-hop name leave exactly the inbound value list under that name and nothing else |
| `Handler.NoAuthorizationScenario` | main.go:75-85 | with no defaults and no inbound Authorization header, the outbound request has none |
| `Handler.HopDefaultScenario` | main.go:76-85 | a default `Connection: close` is sent even when the inbound request carries `Connection`, since defaults are not filtered |

## Left out

- `getProxyClient` and `RewriteTransport` (main.go:27-49) only pass the proxy URL and the TLS flag through to `net/http`. Nothing about them can be stated without modelling the transport.
- Network I/O and logging are not modelled:
  - `http.NewRequest` and its error path;
  - `httpClient.Do`;
  - `w.WriteHeader`, the `io.Copy` body relay and `resp.Body.Close`;
  - `log.Println`.
- The outbound method is carried through (`PrepareOutbound`). The request body is not modelled.
- `url.Parse` and `URL.String()` are not interpreted. Parsing is a parameter that always yields a URL. The discarded parse error is not modelled. On that error `url.Parse` returns a nil URL, and the handler panics when it dereferences it (main.go:65 or main.go:69).
- The rest of `main` is configuration I/O and library calls, and is not modelled:
  - the environment reads and the `SERVER_URL` and `IGNORE_SSL` fallbacks;
  - the `PROXY_DSN` and `TARGET_HOST` checks;
  - `strconv.ParseBool`, `log.Fatal` and `http.ListenAndServe`.
  - Only the `DEFAULT_HEADERS` loop is modelled.
- Concurrency of the HTTP server is not modelled. The handler shares no mutable state.
- `Headers.InjectDefaults`: requires that no two default names canonicalise to the same key (`CanonInjective`). For such inputs Go's result depends on its random map iteration order, and the model does not describe it.
- `Target.TargetUrl`: URL parsing is a parameter, so its own rules are not stated. For example, how a decoded inbound path containing `?` re-parses is not covered.
- `textproto.CanonicalMIMEHeaderKey` is the parameter `canon`. Its rules (which names are canonical) are not stated.
- Go's HTTP server puts inbound header keys in canonical form before the handler runs (a wire header `connection` arrives as `Connection` and is filtered). The inbound map here takes any keys, and the model does not assume they are canonical.
- Which header-map keys net/http actually writes to the wire is not modelled. For example, Go's request reader and `Request.Write` both drop a `Trailer` key. The model stops at the outbound header map.
- The code does not remove headers named in the inbound `Connection` value list (section 6.1 of RFC 7230), and the model does not add that.
