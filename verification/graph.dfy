/**
 * The domain graph: from a crawl's link map, the adjacency of network
 * locations: one node per crawled URL's domain and one edge per distinct
 * pair of domains joined by a sub-link, with no self-loops and no empty
 * child domain.
 */
module DomainGraph {
  import opened Crawler

  /** The domains of the sub-links that become edges out of `parentDomain`. */
  function ChildDomains(subLinks: seq<Url>, parentDomain: string, netloc: Url -> string): set<string>
  {
    set l | l in subLinks && netloc(l) != "" && netloc(l) != parentDomain :: netloc(l)
  }

  /** The domains of the crawled URLs. */
  function Domains(data: map<Url, Entry>, netloc: Url -> string): set<string>
  {
    set u | u in data :: netloc(u)
  }

  /**
   * The edge `d -> c`: some crawled URL of domain `d` has a sub-link whose
   * domain `c` is non-empty and differs from `d`.
   */
  ghost predicate Edge(data: map<Url, Entry>, netloc: Url -> string, d: string, c: string)
  {
    exists u, l :: u in data && netloc(u) == d && l in data[u].subLinks && netloc(l) == c && c != "" && c != d
  }

  /**
   * The loop that fills `gr`: every crawled URL's domain becomes a node and
   * every distinct pair of domains joined by a sub-link an edge. There are
   * no self-loops and no edges to the empty domain.
   */
  method BuildGraph(data: map<Url, Entry>, netloc: Url -> string) returns (gr: map<string, set<string>>)
    ensures gr.Keys == Domains(data, netloc)
    ensures forall d, c :: d in gr ==> (c in gr[d] <==> Edge(data, netloc, d, c))
    ensures forall d :: d in gr ==> d !in gr[d] && "" !in gr[d]
  {
    gr := map[];
    var pending := data.Keys;
    while pending != {}
      invariant pending <= data.Keys
      invariant gr.Keys == Domains(data - pending, netloc)
      invariant forall d, c :: d in gr ==> (c in gr[d] <==> Edge(data - pending, netloc, d, c))
      decreases pending
    {
      var url :| url in pending;
      var parentDomain := netloc(url);
      if parentDomain !in gr {
        gr := gr[parentDomain := {}];
      }
      var children := AddChildDomains(gr[parentDomain], data[url].subLinks, parentDomain, netloc);
      gr := gr[parentDomain := children];
      ghost var done := data - (pending - {url});
      assert done == (data - pending)[url := data[url]];
      forall d, c | d in gr
        ensures c in gr[d] <==> Edge(done, netloc, d, c)
      {
        EdgeStep(data - pending, url, data[url], netloc, d, c);
      }
      assert Domains(done, netloc) == Domains(data - pending, netloc) + {parentDomain} by {
        assert done == (data - pending)[url := data[url]];
      }
      pending := pending - {url};
    }
    assert data - {} == data;
  }

  /** The `for link in details["sub_links"]` loop: add each child domain to the parent's set. */
  method AddChildDomains(start: set<string>, subLinks: seq<Url>, parentDomain: string, netloc: Url -> string)
    returns (children: set<string>)
    ensures children == start + ChildDomains(subLinks, parentDomain, netloc)
  {
    children := start;
    var j := 0;
    while j < |subLinks|
      invariant 0 <= j <= |subLinks|
      invariant children == start + ChildDomains(subLinks[..j], parentDomain, netloc)
    {
      var childDomain := netloc(subLinks[j]);
      assert subLinks[..j + 1] == subLinks[..j] + [subLinks[j]];
      if childDomain != "" && parentDomain != childDomain {
        children := children + {childDomain};
      }
      j := j + 1;
    }
    assert subLinks[..j] == subLinks;
  }

  /** Adding one crawled URL adds exactly its child domains to the edges out of its domain. */
  lemma EdgeStep(done: map<Url, Entry>, url: Url, e: Entry, netloc: Url -> string, d: string, c: string)
    requires url !in done
    ensures Edge(done[url := e], netloc, d, c) <==>
      Edge(done, netloc, d, c) || (netloc(url) == d && c in ChildDomains(e.subLinks, d, netloc))
  {
    var next := done[url := e];
    if Edge(next, netloc, d, c) {
      var u, l :| u in next && netloc(u) == d && l in next[u].subLinks && netloc(l) == c && c != "" && c != d;
      if u == url {
        assert c in ChildDomains(e.subLinks, d, netloc);
      }
    }
    if netloc(url) == d && c in ChildDomains(e.subLinks, d, netloc) {
      var l :| l in e.subLinks && netloc(l) != "" && netloc(l) != d && netloc(l) == c;
      assert url in next && next[url].subLinks == e.subLinks;
    }
  }

  /**
   * The edges depend only on which sub-links each URL has: repeating a link
   * or reordering sub-links changes nothing, and the `links` and `document`
   * fields are never consulted.
   */
  lemma EdgesDependOnSubLinkSets(a: map<Url, Entry>, b: map<Url, Entry>, netloc: Url -> string, d: string, c: string)
    requires a.Keys == b.Keys
    requires forall u, l :: u in a ==> (l in a[u].subLinks <==> l in b[u].subLinks)
    ensures Edge(a, netloc, d, c) <==> Edge(b, netloc, d, c)
  {
  }
}
