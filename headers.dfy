/** Header policy of the forwarding handler (main.go:14-25, 51-58, 75-97):
    the fixed hop-by-hop list, the scan that looks a name up in it, and the
    three passes that fill header maps in place — default headers and
    inbound headers into the outbound request, upstream headers into the
    caller's response. */
module Headers {

  /** An HTTP header map: each name carries its list of values. */
  type HeaderMap = map<string, seq<string>>

  /** The hop-by-hop headers of section 13.5.1 of RFC 2616, spelled exactly
      as the source spells them (main.go:16-25). */
  const HopHeaders: seq<string> :=
    ["Connection", "Keep-Alive", "Proxy-Authenticate", "Proxy-Authorization",
     "Te", "Trailers", "Transfer-Encoding", "Upgrade"]

  /** containsHeader: a linear scan that returns as soon as an element equals
      `s`; the comparison is exact and case-sensitive. */
  method ContainsHeader(s: string, list: seq<string>) returns (found: bool)
    ensures found <==> exists i :: 0 <= i < |list| && list[i] == s
  {
    for i := 0 to |list|
      invariant forall j :: 0 <= j < i ==> list[j] != s
    {
      if list[i] == s {
        return true;
      }
    }
    return false;
  }

  /** A header map owned by one request or response; the handler updates it
      in place. */
  class Header {
    var fields: HeaderMap

    constructor ()
      ensures fields == map[]
    {
      fields := map[];
    }

    /** Header.Set: the key is put in canonical form and its value list
        replaced by the single value. */
    method Set(key: string, value: string, canon: string -> string)
      modifies this
      ensures fields == old(fields)[canon(key) := [value]]
    {
      fields := fields[canon(key) := [value]];
    }

    /** `h[k] = v`: the key is stored as given, with the whole value list. */
    method Put(key: string, values: seq<string>)
      modifies this
      ensures fields == old(fields)[key := values]
    {
      fields := fields[key := values];
    }
  }

  /** No two default names share a canonical form. Otherwise the outcome of
      the default pass would depend on the order of Go's map iteration. */
  ghost predicate CanonInjective(defaults: map<string, string>, canon: string -> string)
  {
    forall d1, d2 :: d1 in defaults && d2 in defaults && canon(d1) == canon(d2) ==> d1 == d2
  }

  /** What the default pass writes: each default under its canonical name,
      as a one-element value list. */
  ghost function DefaultFields(defaults: map<string, string>, canon: string -> string): HeaderMap
    requires CanonInjective(defaults, canon)
  {
    map d | d in defaults :: canon(d) := [defaults[d]]
  }

  /** What the inbound pass writes: every inbound header whose name is not
      hop-by-hop, under its own name, with its whole value list. */
  ghost function Forwardable(inbound: HeaderMap): HeaderMap
  {
    map k | k in inbound && k !in HopHeaders :: inbound[k]
  }

  /** The outbound request's headers: a fresh map, then the default pass,
      then the inbound pass, which wins on a shared name. */
  ghost function OutboundFields(defaults: map<string, string>, inbound: HeaderMap, canon: string -> string): HeaderMap
    requires CanonInjective(defaults, canon)
  {
    DefaultFields(defaults, canon) + Forwardable(inbound)
  }

  /** Writing one more default (taking it off the names still to go) adds
      its canonical entry. */
  lemma DefaultFieldsAdd(defaults: map<string, string>, todo: set<string>, d: string, canon: string -> string)
    requires CanonInjective(defaults, canon)
    requires d in defaults && d in todo
    ensures CanonInjective(defaults - todo, canon) && CanonInjective(defaults - (todo - {d}), canon)
    ensures DefaultFields(defaults - (todo - {d}), canon) ==
            DefaultFields(defaults - todo, canon)[canon(d) := [defaults[d]]]
  {
    var before := defaults - todo;
    var after := defaults - (todo - {d});
    assert after == before[d := defaults[d]];
    var l := DefaultFields(after, canon);
    var r := DefaultFields(before, canon)[canon(d) := [defaults[d]]];
    forall k | k in l ensures k in r && l[k] == r[k] {
      var e :| e in after && canon(e) == k;
    }
    forall k | k in r ensures k in l {
      if k != canon(d) {
        var e :| e in before && canon(e) == k;
        assert e in after;
      }
    }
  }

  /** Writing one entry after a union is writing it into the right operand. */
  lemma UpdateUnion(a: HeaderMap, b: HeaderMap, k: string, v: seq<string>)
    ensures (a + b)[k := v] == a + b[k := v]
  {
  }

  /** Considering one more inbound name adds it to the copied headers unless
      it is hop-by-hop. */
  lemma ForwardableAdd(inbound: HeaderMap, todo: set<string>, k: string)
    requires k in inbound && k in todo
    ensures Forwardable(inbound - (todo - {k})) ==
            if k in HopHeaders then Forwardable(inbound - todo)
            else Forwardable(inbound - todo)[k := inbound[k]]
  {
    assert inbound - (todo - {k}) == (inbound - todo)[k := inbound[k]];
  }

  /** The default pass of main.go:76-78: every configured default is Set on
      the outbound header, in whatever order the map yields them. */
  method InjectDefaults(h: Header, defaults: map<string, string>, canon: string -> string)
    requires CanonInjective(defaults, canon)
    modifies h
    ensures h.fields == old(h.fields) + DefaultFields(defaults, canon)
  {
    var todo := defaults.Keys;
    DefaultFieldsNone(defaults, canon);
    while todo != {}
      invariant todo <= defaults.Keys
      invariant CanonInjective(defaults - todo, canon)
      invariant h.fields == old(h.fields) + DefaultFields(defaults - todo, canon)
      decreases todo
    {
      var d :| d in todo;
      DefaultFieldsAdd(defaults, todo, d, canon);
      UpdateUnion(old(h.fields), DefaultFields(defaults - todo, canon), canon(d), [defaults[d]]);
      h.Set(d, defaults[d], canon);
      todo := todo - {d};
    }
    assert defaults - todo == defaults;
  }

  /** Before the pass nothing is written. */
  lemma DefaultFieldsNone(defaults: map<string, string>, canon: string -> string)
    requires CanonInjective(defaults, canon)
    ensures CanonInjective(defaults - defaults.Keys, canon)
    ensures DefaultFields(defaults - defaults.Keys, canon) == map[]
  {
    assert defaults - defaults.Keys == map[];
  }

  /** The inbound pass of main.go:81-85: every inbound header not in the
      hop-by-hop list is copied, replacing what the outbound header had. */
  method CopyInbound(h: Header, inbound: HeaderMap)
    modifies h
    ensures h.fields == old(h.fields) + Forwardable(inbound)
  {
    var todo := inbound.Keys;
    assert Forwardable(inbound - todo) == map[];
    while todo != {}
      invariant todo <= inbound.Keys
      invariant h.fields == old(h.fields) + Forwardable(inbound - todo)
      decreases todo
    {
      var k :| k in todo;
      var hop := ContainsHeader(k, HopHeaders);
      ForwardableAdd(inbound, todo, k);
      if !hop {
        UpdateUnion(old(h.fields), Forwardable(inbound - todo), k, inbound[k]);
        h.Put(k, inbound[k]);
      }
      todo := todo - {k};
    }
    assert inbound - todo == inbound;
  }

  /** The response relay of main.go:95-97: every upstream header, hop-by-hop
      ones included, overwrites the caller-facing header; names only the
      caller-facing header had keep their values. */
  method RelayResponseHeaders(w: Header, upstream: HeaderMap)
    modifies w
    ensures w.fields.Keys == old(w.fields).Keys + upstream.Keys
    ensures forall k :: k in upstream ==> w.fields[k] == upstream[k]
    ensures forall k :: k in old(w.fields) && k !in upstream ==> w.fields[k] == old(w.fields)[k]
  {
    var todo := upstream.Keys;
    while todo != {}
      invariant todo <= upstream.Keys
      invariant w.fields == old(w.fields) + (upstream - todo)
      decreases todo
    {
      var k :| k in todo;
      w.Put(k, upstream[k]);
      assert upstream - (todo - {k}) == (upstream - todo)[k := upstream[k]];
      todo := todo - {k};
    }
    assert upstream - todo == upstream;
  }

  /** The two request passes on the fresh header of a new outbound request. */
  method NewOutboundHeader(defaults: map<string, string>, inbound: HeaderMap, canon: string -> string)
    returns (h: Header)
    requires CanonInjective(defaults, canon)
    ensures fresh(h)
    ensures h.fields == OutboundFields(defaults, inbound, canon)
  {
    h := new Header();
    InjectDefaults(h, defaults, canon);
    CopyInbound(h, inbound);
  }

  // ---------------------------------------------------------------------
  // Properties of the outbound header

  /** An inbound header that is not hop-by-hop reaches the outbound request
      with exactly its inbound value list, whatever the defaults say. */
  lemma InboundWins(defaults: map<string, string>, inbound: HeaderMap, canon: string -> string, k: string)
    requires CanonInjective(defaults, canon)
    requires k in inbound && k !in HopHeaders
    ensures k in OutboundFields(defaults, inbound, canon)
    ensures OutboundFields(defaults, inbound, canon)[k] == inbound[k]
  {
  }

  /** A hop-by-hop name in the outbound request never comes from the inbound
      request: it is the canonical name of a default, carrying that default. */
  lemma HopOnlyFromDefaults(defaults: map<string, string>, inbound: HeaderMap, canon: string -> string, k: string)
    requires CanonInjective(defaults, canon)
    requires k in HopHeaders
    ensures k in OutboundFields(defaults, inbound, canon) ==>
              exists d :: d in defaults && canon(d) == k &&
                          OutboundFields(defaults, inbound, canon)[k] == [defaults[d]]
  {
    if k in OutboundFields(defaults, inbound, canon) {
      var d :| d in defaults && canon(d) == k;
    }
  }

  /** A default whose canonical name is not among the copied inbound names
      ends up as the one-element list of its value (Set replaces). */
  lemma DefaultKept(defaults: map<string, string>, inbound: HeaderMap, canon: string -> string, d: string)
    requires CanonInjective(defaults, canon)
    requires d in defaults && canon(d) !in Forwardable(inbound)
    ensures canon(d) in OutboundFields(defaults, inbound, canon)
    ensures OutboundFields(defaults, inbound, canon)[canon(d)] == [defaults[d]]
  {
  }

  /** The outbound names are exactly the canonical default names and the
      non-hop-by-hop inbound names. */
  lemma OutboundNames(defaults: map<string, string>, inbound: HeaderMap, canon: string -> string, k: string)
    requires CanonInjective(defaults, canon)
    ensures k in OutboundFields(defaults, inbound, canon) <==>
            (k in inbound && k !in HopHeaders) || exists d :: d in defaults && canon(d) == k
  {
  }

  /** A default and an inbound header under the same canonical, non-hop-by-hop
      name: only the inbound value list is sent. */
  lemma InboundReplacesDefault(k: string, v: string, values: seq<string>, canon: string -> string)
    requires canon(k) == k && k !in HopHeaders
    ensures CanonInjective(map[k := v], canon)
    ensures OutboundFields(map[k := v], map[k := values], canon) == map[k := values]
  {
    assert DefaultFields(map[k := v], canon) == map[k := [v]];
    assert Forwardable(map[k := values]) == map[k := values];
  }

  /** The list keeps RFC 2616's "Trailers"; the header field itself is named
      "Trailer" (already its canonical form), so an inbound Trailer header
      passes the filter and is copied into the outbound header map. */
  lemma NotFiltered()
    ensures "Trailer" !in HopHeaders
    ensures "Trailers" in HopHeaders
  {
  }
}
