/**
 * The bounded recursive crawler `WebCrawler`.
 *
 * The crawler keeps a set of visited URLs and a link map from each
 * successfully fetched URL to its entry: the page text, the links found on
 * the page, and the sub-links, those links to another domain that the crawl
 * followed. It follows only links whose network location differs from the
 * page's own, and stops at a fixed depth.
 *
 * The network is abstract: `fetch` gives a page or `None` where the HTTP
 * request raises; `netloc` is `urlparse(url).netloc`; `extractLinks` and
 * `normalize` stand for the regular-expression link extraction and markup
 * stripping.
 */
module Crawler {
  import opened Wrappers
  import DocumentProcessor
  import opened Sequences

  type Url = string
  type Html = string

  /** What the crawler sees of the outside world. */
  datatype Web = Web(
    fetch: Url -> Option<Html>,
    netloc: Url -> string,
    extractLinks: (Html, Url) -> seq<Url>,
    normalize: Html -> string,
    lower: char -> char)

  /** A link-map value: `{"document": ..., "links": ..., "sub_links": ...}`. */
  datatype Entry = Entry(document: string, links: seq<Url>, subLinks: seq<Url>)

  /** Python's `p in s` on strings: `p` occurs in `s` as a contiguous block. */
  predicate Contains(s: string, p: string)
  {
    exists i | 0 <= i <= |s| - |p| :: OccursAt(s, p, i)
  }

  /** `p` occurs in `s` starting at index `i`. */
  predicate OccursAt(s: string, p: string, i: int)
  {
    0 <= i <= |s| - |p| && s[i..i + |p|] == p
  }

  /** The links, in order, whose network location differs from `parentDomain`. */
  function CrossDomain(links: seq<Url>, parentDomain: string, netloc: Url -> string): (r: seq<Url>)
    ensures |r| <= |links|
  {
    if links == [] then []
    else
      assert links == [links[0]] + links[1..];
      (if netloc(links[0]) != parentDomain then [links[0]] else [])
      + CrossDomain(links[1..], parentDomain, netloc)
  }

  /** Exactly the links whose network location differs from `parentDomain` are kept. */
  lemma {:induction false} CrossDomainMembers(links: seq<Url>, parentDomain: string, netloc: Url -> string)
    ensures forall l :: l in CrossDomain(links, parentDomain, netloc) <==> l in links && netloc(l) != parentDomain
  {
    if links != [] {
      assert links == [links[0]] + links[1..];
      CrossDomainMembers(links[1..], parentDomain, netloc);
    }
  }

  /** The cross-domain links keep the order they have in `links`. */
  lemma {:induction false} CrossDomainKeepsOrder(links: seq<Url>, parentDomain: string, netloc: Url -> string)
    ensures Subsequence(CrossDomain(links, parentDomain, netloc), links)
  {
    if links != [] {
      var r := CrossDomain(links, parentDomain, netloc);
      var tail := CrossDomain(links[1..], parentDomain, netloc);
      CrossDomainKeepsOrder(links[1..], parentDomain, netloc);
      if netloc(links[0]) != parentDomain {
        assert r[0] == links[0] && r[1..] == tail;
      } else if r != [] {
        CrossDomainMembers(links[1..], parentDomain, netloc);
        assert r == tail && r[0] in r;
      }
    }
  }

  /** Processing one more link appends it when it crosses domains. */
  lemma {:induction false} CrossDomainSnoc(links: seq<Url>, link: Url, parentDomain: string, netloc: Url -> string)
    ensures CrossDomain(links + [link], parentDomain, netloc)
         == CrossDomain(links, parentDomain, netloc) + (if netloc(link) != parentDomain then [link] else [])
  {
    if links != [] {
      assert (links + [link])[1..] == links[1..] + [link];
      CrossDomainSnoc(links[1..], link, parentDomain, netloc);
    }
  }

  /** Processing the link at index `i` appends it to the prefix's result when it crosses domains. */
  lemma CrossDomainPrefix(links: seq<Url>, i: nat, parentDomain: string, netloc: Url -> string)
    requires i < |links|
    ensures CrossDomain(links[..i + 1], parentDomain, netloc)
         == CrossDomain(links[..i], parentDomain, netloc) + (if netloc(links[i]) != parentDomain then [links[i]] else [])
  {
    assert links[..i + 1] == links[..i] + [links[i]];
    CrossDomainSnoc(links[..i], links[i], parentDomain, netloc);
  }

  class WebCrawler {
    const depth: int
    const web: Web
    const censorList: seq<string>

    var visited: set<Url>
    var linkMap: map<Url, Entry>
    /** Every URL handed to `fetch`, in order. */
    ghost var fetchLog: seq<Url>

    constructor (depth: int, web: Web, censorList: seq<string>)
      ensures this.depth == depth && this.web == web && this.censorList == censorList
      ensures visited == {} && linkMap == map[] && fetchLog == []
      ensures Valid()
    {
      this.depth := depth;
      this.web := web;
      this.censorList := censorList;
      visited := {};
      linkMap := map[];
      fetchLog := [];
    }

    /** Some censored word, lowercased, occurs in the lowercased URL. */
    ghost predicate Censored(url: Url)
    {
      exists w :: w in censorList && Contains(DocumentProcessor.CaseFold(url, web.lower), DocumentProcessor.CaseFold(w, web.lower))
    }

    /** The entry the crawl writes for `url` once `html` is fetched and every link is processed. */
    function EntryFor(url: Url, html: Html): Entry
    {
      var links := web.extractLinks(html, url);
      Entry(web.normalize(html), links, CrossDomain(links, web.netloc(url), web.netloc))
    }

    /** `e` is the finished entry of a URL that is not censored and was fetched. */
    ghost predicate Complete(url: Url, e: Entry)
    {
      !Censored(url) && web.fetch(url).Some? && e == EntryFor(url, web.fetch(url).value)
    }

    /**
     * `target` can be reached from `source` by following at most `k`
     * cross-domain links of fetched pages.
     */
    ghost predicate Reach(source: Url, target: Url, k: int)
      decreases if k < 0 then 0 else k
    {
      source == target
      || (k > 0 && web.fetch(source).Some?
          && exists l :: l in EntryFor(source, web.fetch(source).value).subLinks && Reach(l, target, k - 1))
    }

    /** A path through a cross-domain link of a fetched page extends by one step. */
    lemma ReachStep(source: Url, html: Html, link: Url, target: Url, k: int)
      requires web.fetch(source) == Some(html)
      requires link in web.extractLinks(html, source) && web.netloc(link) != web.netloc(source)
      requires k > 0 && Reach(link, target, k - 1)
      ensures Reach(source, target, k)
    {
      CrossDomainMembers(web.extractLinks(html, source), web.netloc(source), web.netloc);
      assert link in EntryFor(source, html).subLinks;
    }

    /** A URL fetched successfully is in `visited`, and was therefore fetched once. */
    ghost predicate LogConsistent()
      reads this
    {
      && (forall k :: 0 <= k < |fetchLog| && web.fetch(fetchLog[k]).Some? ==> fetchLog[k] in visited)
      && (forall i, j :: 0 <= i < j < |fetchLog| && fetchLog[i] == fetchLog[j] ==> web.fetch(fetchLog[i]).None?)
    }

    /** The state between two crawls. */
    ghost predicate Valid()
      reads this
    {
      && visited == linkMap.Keys
      && (forall u :: u in linkMap ==> Complete(u, linkMap[u]))
      && LogConsistent()
    }

    /** `is_censored`: some word of the censor list, lowercased, occurs in the lowercased URL. */
    method IsCensored(url: Url) returns (censored: bool)
      ensures censored <==> (exists w :: w in censorList &&
                               Contains(DocumentProcessor.CaseFold(url, web.lower), DocumentProcessor.CaseFold(w, web.lower)))
    {
      var lowered := DocumentProcessor.CaseFold(url, web.lower);
      var i := 0;
      while i < |censorList|
        invariant 0 <= i <= |censorList|
        invariant forall k :: 0 <= k < i ==> !Contains(lowered, DocumentProcessor.CaseFold(censorList[k], web.lower))
      {
        if Contains(lowered, DocumentProcessor.CaseFold(censorList[i], web.lower)) {
          return true;
        }
        i := i + 1;
      }
      return false;
    }

    /** `crawl`: a recursive crawl from `url` at depth 0; returns the link map. */
    method Crawl(url: Url) returns (result: map<Url, Entry>)
      requires Valid()
      modifies this
      ensures Valid()
      ensures result == linkMap
      ensures old(visited) <= visited
      ensures forall u :: u in old(linkMap) ==> u in linkMap && linkMap[u] == old(linkMap)[u]
      ensures forall u :: u in linkMap && u !in old(linkMap) ==> Reach(url, u, depth)
      ensures depth == 0 ==> linkMap.Keys <= old(linkMap).Keys + {url}
      // the start URL gets an entry exactly when it is allowed and fetched
      ensures url in linkMap <==> url in old(linkMap) || (0 <= depth && !Censored(url) && web.fetch(url).Some?)
      // and, below the depth limit, each of its allowed and fetchable sub-links is crawled too
      ensures url in linkMap && url !in old(linkMap) ==>
        forall l :: l in linkMap[url].subLinks && 0 < depth && !Censored(l) && web.fetch(l).Some? ==> l in linkMap
    {
      CrawlRecursive(url, 0);
      result := linkMap;
    }

    /** `_crawl_recursive`: the guards, the censor check and the fetch. */
    method CrawlRecursive(url: Url, currentDepth: int)
      requires visited == linkMap.Keys && LogConsistent()
      modifies this
      decreases if currentDepth > depth then 0 else depth - currentDepth + 1, 2
      ensures visited == linkMap.Keys && LogConsistent()
      // entries are written once and never changed afterwards
      ensures forall u :: u in old(linkMap) ==> u in linkMap && linkMap[u] == old(linkMap)[u]
      // every new entry is finished and lies within the depth budget
      ensures forall u :: u in linkMap && u !in old(linkMap) ==>
        Complete(u, linkMap[u]) && Reach(url, u, depth - currentDepth)
      // too deep, already visited or censored: nothing happens, nothing is fetched
      ensures old(currentDepth > depth || url in visited || Censored(url)) ==>
        linkMap == old(linkMap) && fetchLog == old(fetchLog)
      // failed fetch: nothing is marked or recorded
      ensures old(url !in visited) && currentDepth <= depth && !Censored(url) && web.fetch(url).None? ==>
        linkMap == old(linkMap) && fetchLog == old(fetchLog) + [url]
      // the URL gets an entry exactly when it is in range, allowed and fetched
      ensures url in linkMap <==>
        url in old(linkMap) || (currentDepth <= depth && !Censored(url) && web.fetch(url).Some?)
      // below the depth limit, every allowed and fetchable sub-link of a new entry is crawled too
      ensures url in linkMap && url !in old(linkMap) ==>
        forall l :: l in linkMap[url].subLinks && currentDepth < depth && !Censored(l) && web.fetch(l).Some? ==> l in linkMap
    {
      if currentDepth > depth || url in visited {
        return;
      }
      var parentDomain := web.netloc(url);
      var censored := IsCensored(url);
      if censored {
        return;
      }
      var response := web.fetch(url);
      fetchLog := fetchLog + [url];
      if response.None? {
        return;
      }
      var html := response.value;
      visited := visited + {url};
      var document := web.normalize(html);
      var links := web.extractLinks(html, url);
      linkMap := linkMap[url := Entry(document, links, [])];
      FollowLinks(url, html, parentDomain, currentDepth);
      CrossDomainMembers(links, parentDomain, web.netloc);
    }

    /**
     * Below the depth limit, each of the first `n` links that leaves
     * `parentDomain`, is not censored and can be fetched has an entry in `m`.
     */
    ghost predicate LinksCrawled(m: map<Url, Entry>, links: seq<Url>, n: nat, parentDomain: string, currentDepth: int)
      requires n <= |links|
    {
      forall k ::
        (0 <= k < n && web.netloc(links[k]) != parentDomain && currentDepth < depth &&
         !Censored(links[k]) && web.fetch(links[k]).Some?) ==> links[k] in m
    }

    /** Following link `n`, which keeps every entry, extends the links crawled by one. */
    lemma LinksCrawledStep(before: map<Url, Entry>, after: map<Url, Entry>, links: seq<Url>, n: nat,
                           parentDomain: string, currentDepth: int)
      requires n < |links| && LinksCrawled(before, links, n, parentDomain, currentDepth) && before.Keys <= after.Keys
      requires web.netloc(links[n]) != parentDomain ==>
        (links[n] in after <==> links[n] in before || (currentDepth < depth && !Censored(links[n]) && web.fetch(links[n]).Some?))
      ensures LinksCrawled(after, links, n + 1, parentDomain, currentDepth)
    {
    }

    /** The `for link in links` loop of `_crawl_recursive`. */
    method FollowLinks(url: Url, html: Html, parentDomain: string, currentDepth: int)
      requires visited == linkMap.Keys && LogConsistent()
      requires currentDepth <= depth && parentDomain == web.netloc(url)
      requires web.fetch(url) == Some(html)
      requires url in linkMap && linkMap[url] == Entry(web.normalize(html), web.extractLinks(html, url), [])
      modifies this
      decreases depth - currentDepth + 1, 1
      ensures visited == linkMap.Keys && LogConsistent()
      ensures url in linkMap && linkMap[url] == EntryFor(url, html)
      ensures forall u :: u in old(linkMap) && u != url ==> u in linkMap && linkMap[u] == old(linkMap)[u]
      ensures forall u :: u in linkMap && u !in old(linkMap) ==>
        Complete(u, linkMap[u]) && Reach(url, u, depth - currentDepth)
      ensures LinksCrawled(linkMap, web.extractLinks(html, url), |web.extractLinks(html, url)|, parentDomain, currentDepth)
    {
      var document := web.normalize(html);
      var links := web.extractLinks(html, url);
      var i := 0;
      while i < |links|
        invariant 0 <= i <= |links|
        invariant visited == linkMap.Keys && LogConsistent()
        invariant url in linkMap && linkMap[url] == Entry(document, links, CrossDomain(links[..i], parentDomain, web.netloc))
        invariant forall u :: u in old(linkMap) && u != url ==> u in linkMap && linkMap[u] == old(linkMap)[u]
        invariant forall u :: u in linkMap && u !in old(linkMap) ==>
          Complete(u, linkMap[u]) && Reach(url, u, depth - currentDepth)
        invariant LinksCrawled(linkMap, links, i, parentDomain, currentDepth)
      {
        CrossDomainPrefix(links, i, parentDomain, web.netloc);
        ghost var before := linkMap;
        FollowLink(url, html, parentDomain, links[i], currentDepth);
        LinksCrawledStep(before, linkMap, links, i, parentDomain, currentDepth);
        i := i + 1;
      }
      assert links[..|links|] == links;
    }

    /**
     * One turn of that loop: a link to another domain is crawled one level
     * deeper and then appended to the entry's sub-links, whatever the
     * recursive call did; a link to the same domain is skipped.
     */
    method FollowLink(url: Url, html: Html, parentDomain: string, link: Url, currentDepth: int)
      requires visited == linkMap.Keys && LogConsistent()
      requires currentDepth <= depth && parentDomain == web.netloc(url)
      requires web.fetch(url) == Some(html) && link in web.extractLinks(html, url)
      requires url in linkMap
      modifies this
      decreases depth - currentDepth + 1, 0
      ensures visited == linkMap.Keys && LogConsistent()
      ensures url in linkMap
      ensures linkMap[url] == old(linkMap)[url].(subLinks := old(linkMap)[url].subLinks
                                + if web.netloc(link) != parentDomain then [link] else [])
      ensures forall u :: u in old(linkMap) && u != url ==> u in linkMap && linkMap[u] == old(linkMap)[u]
      ensures forall u :: u in linkMap && u !in old(linkMap) ==>
        Complete(u, linkMap[u]) && Reach(url, u, depth - currentDepth)
      ensures old(linkMap).Keys <= linkMap.Keys
      // a same-domain link is skipped: nothing is crawled or fetched
      ensures web.netloc(link) == parentDomain ==> linkMap == old(linkMap) && fetchLog == old(fetchLog)
      // a cross-domain link gets an entry exactly when it is in range, allowed and fetched
      ensures web.netloc(link) != parentDomain ==>
        (link in linkMap <==> link in old(linkMap) || (currentDepth < depth && !Censored(link) && web.fetch(link).Some?))
    {
      if web.netloc(link) != parentDomain {
        CrawlRecursive(link, currentDepth + 1);
        forall u | u in linkMap && u !in old(linkMap)
          ensures Reach(url, u, depth - currentDepth)
        {
          ReachStep(url, html, link, u, depth - currentDepth);
        }
        linkMap := linkMap[url := linkMap[url].(subLinks := linkMap[url].subLinks + [link])];
      }
    }
  }
}
