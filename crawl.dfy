/** `scrapeFullDomain`: a breadth-first crawl of the seed URL's domain, and
    `scrapeSinglePage`, which derives the same views from one page. Fetching a page
    (`fetch(url)` and `response.text()`) is network I/O; it is a parameter that gives the page's
    HTML, or nothing when the response is not OK or the request throws. */
module Crawl {
  import opened Wrappers
  import opened Text
  import opened Transform
  import opened Domain
  import opened Links
  import opened Queues
  import opened Options

  /** The world outside the crawler: URL parsing, URL resolution and fetching. */
  datatype Web = Web(hostOf: HostParser, resolve: Resolver, fetch: string -> Option<string>)

  /** A queued URL and its distance in links from the seed. */
  datatype Entry = Entry(url: string, depth: int)

  /** One crawled page, as the crawl reports it. */
  datatype Page = Page(url: string, title: string, content: string, markdown: string,
                       html: string, links: seq<string>)

  /** The successful answer of a domain crawl. */
  datatype Report = Report(domain: string, pagesCount: nat, visitedUrls: seq<string>,
                           pages: seq<Page>, exportFormat: string)

  /** The record built from the HTML fetched for `url`. */
  function PageOf(web: Web, url: string, html: string): Page {
    Page(url, Title(html), PlainText(html), Markdown(html), html, LinksOf(web.resolve, html, url))
  }

  /** No URL occurs twice. */
  predicate Distinct(s: seq<string>) {
    forall i, j :: 0 <= i < j < |s| ==> s[i] != s[j]
  }

  /** Some page of the report was crawled from `url`. */
  predicate HasPage(pages: seq<Page>, url: string) {
    exists i :: 0 <= i < |pages| && pages[i].url == url
  }

  /** Depths in breadth-first order: never smaller than an earlier one. */
  predicate NonDecreasing(ds: seq<int>) {
    forall i, j :: 0 <= i < j < |ds| ==> ds[i] <= ds[j]
  }

  /** Breadth-first order of the queue: depths do not decrease from head to tail, and all lie
      between the depth `level` of the entry taken last and the level below it. */
  predicate Layered(items: seq<Entry>, level: int) {
    (forall i, j :: 0 <= i < j < |items| ==> items[i].depth <= items[j].depth)
    && (forall i :: 0 <= i < |items| ==> level <= items[i].depth <= level + 1)
  }

  // ---------------------------------------------------------------------------------------
  // Termination: every queued entry stands for the finite tree of entries it can still add.

  /** The links a URL leads to: those of its page when the fetch succeeds, none otherwise. */
  type Outlinks = string -> seq<string>

  function OutlinksOf(web: Web): Outlinks {
    (url: string) => match web.fetch(url)
      case Some(html) => LinksOf(web.resolve, html, url)
      case None => []
  }

  /** How many more link levels an entry at `depth` may add. */
  function Budget(maxDepth: int, depth: int): nat {
    if depth < maxDepth then maxDepth - depth else 0
  }

  /** One for the entry itself, plus the weights of the links its page would add. */
  function Weight(next: Outlinks, url: string, budget: nat): nat
    decreases budget, 0
  {
    1 + if budget == 0 then 0 else LinksWeight(next, next(url), budget - 1)
  }

  /** The weights of a page's links, each with the same budget. */
  function LinksWeight(next: Outlinks, links: seq<string>, budget: nat): nat
    decreases budget, |links| + 1
  {
    if links == [] then 0 else Weight(next, links[0], budget) + LinksWeight(next, links[1..], budget)
  }

  /** The weights of the queued entries, each with the budget its depth leaves. */
  function QueueWeight(next: Outlinks, maxDepth: int, items: seq<Entry>): nat {
    if items == [] then 0
    else Weight(next, items[0].url, Budget(maxDepth, items[0].depth)) + QueueWeight(next, maxDepth, items[1..])
  }

  /** The entries the inner `for` loop adds: each same-domain link not yet visited, one level
      deeper, in the order of the links (repeated links are added repeatedly). */
  function Enqueued(hostOf: HostParser, domain: string, visited: seq<string>, links: seq<string>, depth: int): seq<Entry>
  {
    if links == [] then []
    else
      Enqueued(hostOf, domain, visited, links[..|links| - 1], depth)
      + Added(hostOf, domain, visited, links[|links| - 1], depth)
  }

  /** The entry one link adds: none when it leaves the domain or was visited already. */
  function Added(hostOf: HostParser, domain: string, visited: seq<string>, link: string, depth: int): seq<Entry>
  {
    if IsSameDomain(hostOf, link, domain) && link !in visited then [Entry(link, depth + 1)] else []
  }

  /** One more link adds its own weight. */
  lemma {:induction false} LinksWeightAppend(next: Outlinks, links: seq<string>, link: string, budget: nat)
    ensures LinksWeight(next, links + [link], budget) == LinksWeight(next, links, budget) + Weight(next, link, budget)
    decreases |links|
  {
    if links == [] {
      assert [] + [link] == [link];
      assert [link][1..] == [];
    } else {
      assert (links + [link])[1..] == links[1..] + [link];
      LinksWeightAppend(next, links[1..], link, budget);
    }
  }

  /** The weight of two stretches of a queue is the sum of their weights. */
  lemma {:induction false} QueueWeightConcat(next: Outlinks, maxDepth: int, a: seq<Entry>, b: seq<Entry>)
    ensures QueueWeight(next, maxDepth, a + b) == QueueWeight(next, maxDepth, a) + QueueWeight(next, maxDepth, b)
    decreases |a|
  {
    if a == [] {
      assert a + b == b;
    } else {
      assert (a + b)[1..] == a[1..] + b;
      QueueWeightConcat(next, maxDepth, a[1..], b);
    }
  }

  /** The entries added for a page weigh no more than its links at the next level. */
  lemma {:induction false} EnqueuedWeight(next: Outlinks, hostOf: HostParser, maxDepth: int, domain: string, visited: seq<string>,
                                          links: seq<string>, depth: int)
    requires depth < maxDepth
    ensures QueueWeight(next, maxDepth, Enqueued(hostOf, domain, visited, links, depth))
      <= LinksWeight(next, links, Budget(maxDepth, depth + 1))
    decreases |links|
  {
    if links != [] {
      var init, link := links[..|links| - 1], links[|links| - 1];
      var b := Budget(maxDepth, depth + 1);
      EnqueuedWeight(next, hostOf, maxDepth, domain, visited, init, depth);
      AddedWeight(next, hostOf, maxDepth, domain, visited, link, depth);
      QueueWeightConcat(next, maxDepth, Enqueued(hostOf, domain, visited, init, depth),
        Added(hostOf, domain, visited, link, depth));
      LinksWeightAppend(next, init, link, b);
      assert init + [link] == links;
    }
  }

  /** The entry added for one link, if any, weighs what the link weighs one level down. */
  lemma AddedWeight(next: Outlinks, hostOf: HostParser, maxDepth: int, domain: string, visited: seq<string>, link: string, depth: int)
    ensures QueueWeight(next, maxDepth, Added(hostOf, domain, visited, link, depth))
      <= Weight(next, link, Budget(maxDepth, depth + 1))
  {
    var added := Added(hostOf, domain, visited, link, depth);
    if added != [] {
      assert added[1..] == [];
    }
  }

  /** The first entry of the queue weighs one at least. */
  lemma FrontWeight(next: Outlinks, maxDepth: int, e: Entry, rest: seq<Entry>)
    ensures QueueWeight(next, maxDepth, [e] + rest)
      == Weight(next, e.url, Budget(maxDepth, e.depth)) + QueueWeight(next, maxDepth, rest)
  {
    assert ([e] + rest)[0] == e && ([e] + rest)[1..] == rest;
  }

  /** Crawling a page below the depth limit replaces its entry by lighter ones. */
  lemma CrawlWeight(next: Outlinks, hostOf: HostParser, maxDepth: int, domain: string, visited: seq<string>, rest: seq<Entry>,
                    url: string, links: seq<string>, depth: int)
    requires depth < maxDepth
    requires Weight(next, url, Budget(maxDepth, depth)) == 1 + LinksWeight(next, links, Budget(maxDepth, depth + 1))
    ensures QueueWeight(next, maxDepth, rest + Enqueued(hostOf, domain, visited, links, depth))
      < Weight(next, url, Budget(maxDepth, depth)) + QueueWeight(next, maxDepth, rest)
  {
    EnqueuedWeight(next, hostOf, maxDepth, domain, visited, links, depth);
    QueueWeightConcat(next, maxDepth, rest, Enqueued(hostOf, domain, visited, links, depth));
  }

  /** An entry below the depth limit weighs one more than its outlinks one level down. */
  lemma WeightStep(next: Outlinks, url: string, maxDepth: int, depth: int)
    requires depth < maxDepth
    ensures Weight(next, url, Budget(maxDepth, depth)) == 1 + LinksWeight(next, next(url), Budget(maxDepth, depth + 1))
  {
    assert Budget(maxDepth, depth) - 1 == Budget(maxDepth, depth + 1);
  }

  /** The outlinks of a fetched page are the links extracted from it. */
  lemma OutlinksOfFetched(web: Web, url: string, html: string)
    requires web.fetch(url) == Some(html)
    ensures OutlinksOf(web)(url) == LinksOf(web.resolve, html, url)
  {
  }

  // ---------------------------------------------------------------------------------------
  // Enqueued links

  /** Every entry added for a page is one of its links, in the domain, not yet visited, one
      level deeper. */
  lemma {:induction false} EnqueuedEntries(hostOf: HostParser, domain: string, visited: seq<string>,
                                           links: seq<string>, depth: int)
    ensures forall e: Entry :: e in Enqueued(hostOf, domain, visited, links, depth) ==>
      e.depth == depth + 1 && e.url in links && IsSameDomain(hostOf, e.url, domain) && e.url !in visited
    decreases |links|
  {
    if links != [] {
      var init, link := links[..|links| - 1], links[|links| - 1];
      EnqueuedEntries(hostOf, domain, visited, init, depth);
      var before, added := Enqueued(hostOf, domain, visited, init, depth), Added(hostOf, domain, visited, link, depth);
      assert Enqueued(hostOf, domain, visited, links, depth) == before + added;
      forall e: Entry | e in before + added
        ensures e.depth == depth + 1 && e.url in links && IsSameDomain(hostOf, e.url, domain) && e.url !in visited
      {
        if e in before {
          assert e.url in init;
        } else {
          assert e == Entry(link, depth + 1);
        }
      }
    }
  }

  /** Every link of the page that is in the domain and not yet visited is enqueued. */
  lemma {:induction false} EnqueuedComplete(hostOf: HostParser, domain: string, visited: seq<string>,
                                            links: seq<string>, depth: int, k: nat)
    requires k < |links| && IsSameDomain(hostOf, links[k], domain) && links[k] !in visited
    ensures Entry(links[k], depth + 1) in Enqueued(hostOf, domain, visited, links, depth)
    decreases |links|
  {
    var init := links[..|links| - 1];
    if k < |links| - 1 {
      EnqueuedComplete(hostOf, domain, visited, init, depth, k);
    }
  }

  // ---------------------------------------------------------------------------------------
  // The crawl invariant, in three parts

  /** The queue: every entry is in the domain and within the depth limit (the seed, at depth
      0, even when the limit is negative), in breadth-first order. */
  predicate QueueOk(hostOf: HostParser, domain: string, maxDepth: int, items: seq<Entry>, level: int) {
    Layered(items, level)
    && forall i :: 0 <= i < |items| ==>
      IsSameDomain(hostOf, items[i].url, domain)
      && 0 <= items[i].depth && (items[i].depth <= maxDepth || items[i].depth == 0)
  }

  /** A page holds the HTML of a successful fetch of a visited URL in the domain. */
  predicate PageFrom(web: Web, domain: string, visited: seq<string>, page: Page) {
    web.fetch(page.url) == Some(page.html)
    && IsSameDomain(web.hostOf, page.url, domain)
    && page.url in visited
  }

  /** Every page is the record built from its own URL and HTML. */
  predicate Recorded(web: Web, pages: seq<Page>) {
    forall i {:trigger PageOf(web, pages[i].url, pages[i].html)} :: 0 <= i < |pages| ==>
      pages[i] == PageOf(web, pages[i].url, pages[i].html)
  }

  /** The pages: each comes from its own fetch, no URL twice, and a visited URL has a page
      exactly when its fetch succeeded. */
  predicate PagesOk(web: Web, domain: string, visited: seq<string>, pages: seq<Page>) {
    (forall i :: 0 <= i < |pages| ==> PageFrom(web, domain, visited, pages[i]))
    && (forall i, j :: 0 <= i < j < |pages| ==> pages[i].url != pages[j].url)
    && (forall u :: u in visited ==> (web.fetch(u).Some? <==> HasPage(pages, u)))
    && |pages| <= |visited|
  }

  /** The depths of the crawled pages: in breadth-first order, up to the current level and
      within the depth limit. */
  predicate DepthsOk(depths: seq<int>, level: int, maxDepth: int) {
    NonDecreasing(depths)
    && forall i :: 0 <= i < |depths| ==>
      0 <= depths[i] <= level && (depths[i] <= maxDepth || depths[i] == 0)
  }

  /** Taking the front entry: it is in scope, at the current level or the next, and the rest
      of the queue is layered at its depth. */
  lemma QueueFront(hostOf: HostParser, domain: string, maxDepth: int, e: Entry, rest: seq<Entry>, level: int)
    requires QueueOk(hostOf, domain, maxDepth, [e] + rest, level)
    ensures QueueOk(hostOf, domain, maxDepth, rest, e.depth)
    ensures IsSameDomain(hostOf, e.url, domain) && level <= e.depth
      && 0 <= e.depth && (e.depth <= maxDepth || e.depth == 0)
  {
    var items := [e] + rest;
    assert items[0] == e;
    assert forall i :: 0 <= i < |rest| ==> rest[i] == items[i + 1];
  }

  /** Appending the links of a page crawled at depth `depth`, below the limit, keeps the queue
      in scope and in breadth-first order. */
  lemma QueueGrows(hostOf: HostParser, domain: string, maxDepth: int, rest: seq<Entry>,
                   visited: seq<string>, links: seq<string>, depth: int)
    requires QueueOk(hostOf, domain, maxDepth, rest, depth) && 0 <= depth < maxDepth
    ensures QueueOk(hostOf, domain, maxDepth, rest + Enqueued(hostOf, domain, visited, links, depth), depth)
  {
    var added := Enqueued(hostOf, domain, visited, links, depth);
    EnqueuedEntries(hostOf, domain, visited, links, depth);
    var items := rest + added;
    assert forall i :: 0 <= i < |rest| ==> items[i] == rest[i];
    assert forall i :: |rest| <= i < |items| ==> items[i] == added[i - |rest|] && added[i - |rest|] in added;
  }

  /** A failed fetch marks its URL visited and adds no page. */
  lemma PagesFailed(web: Web, domain: string, visited: seq<string>, pages: seq<Page>, url: string)
    requires PagesOk(web, domain, visited, pages) && url !in visited && web.fetch(url).None?
    ensures PagesOk(web, domain, visited + [url], pages)
  {
    assert forall u :: u in visited + [url] ==> u in visited || u == url;
    forall i | 0 <= i < |pages|
      ensures PageFrom(web, domain, visited + [url], pages[i])
    {
      assert PageFrom(web, domain, visited, pages[i]);
    }
  }

  /** A successful fetch of an unvisited URL in the domain adds its page. */
  lemma PagesAdded(web: Web, domain: string, visited: seq<string>, pages: seq<Page>, page: Page)
    requires PagesOk(web, domain, visited, pages) && page.url !in visited
    requires web.fetch(page.url) == Some(page.html) && IsSameDomain(web.hostOf, page.url, domain)
    ensures PagesOk(web, domain, visited + [page.url], pages + [page])
  {
    var visited', pages' := visited + [page.url], pages + [page];
    forall i | 0 <= i < |pages'|
      ensures PageFrom(web, domain, visited', pages'[i])
    {
      if i < |pages| {
        assert pages'[i] == pages[i] && PageFrom(web, domain, visited, pages[i]);
      }
    }
    forall i, j | 0 <= i < j < |pages'|
      ensures pages'[i].url != pages'[j].url
    {
      if j == |pages| {
        assert PageFrom(web, domain, visited, pages[i]);
      } else {
        assert pages'[i] == pages[i] && pages'[j] == pages[j];
      }
    }
    forall u | u in visited'
      ensures web.fetch(u).Some? <==> HasPage(pages', u)
    {
      if u == page.url {
        assert pages'[|pages|].url == u;
      } else {
        assert u in visited;
        if HasPage(pages', u) {
          var i :| 0 <= i < |pages'| && pages'[i].url == u;
          assert i < |pages| && pages[i].url == u;
        }
        if HasPage(pages, u) {
          var i :| 0 <= i < |pages| && pages[i].url == u;
          assert pages'[i].url == u;
        }
      }
    }
  }

  /** A page built from its URL and HTML is a record on its own. */
  lemma RecordedOne(web: Web, page: Page)
    requires page == PageOf(web, page.url, page.html)
    ensures Recorded(web, [page])
  {
  }

  /** Appending a record keeps every page a record. */
  lemma RecordedAdded(web: Web, pages: seq<Page>, page: Page)
    requires Recorded(web, pages) && Recorded(web, [page])
    ensures Recorded(web, pages + [page])
  {
    var pages' := pages + [page];
    assert forall i :: 0 <= i < |pages| ==> pages'[i] == pages[i];
  }

  /** Taking an entry at `depth`, at least the current level, raises the level. */
  lemma DepthsRaised(depths: seq<int>, level: int, depth: int, maxDepth: int)
    requires DepthsOk(depths, level, maxDepth) && level <= depth
    ensures DepthsOk(depths, depth, maxDepth)
  {
  }

  /** A page crawled at the current level keeps the depths in order. */
  lemma DepthsAdded(depths: seq<int>, depth: int, maxDepth: int)
    requires DepthsOk(depths, depth, maxDepth) && 0 <= depth && (depth <= maxDepth || depth == 0)
    ensures DepthsOk(depths + [depth], depth, maxDepth)
  {
    var ds := depths + [depth];
    assert forall i :: 0 <= i < |depths| ==> ds[i] == depths[i];
  }

  /** Appending a URL not yet present keeps the URLs distinct. */
  lemma DistinctAdded(s: seq<string>, x: string)
    requires Distinct(s) && x !in s
    ensures Distinct(s + [x])
  {
    var t := s + [x];
    assert forall i :: 0 <= i < |s| ==> t[i] == s[i];
  }

  // ---------------------------------------------------------------------------------------
  // The crawl invariant as a whole, and the three ways one iteration can go

  /** What holds before every iteration of the crawl loop: the URLs were visited once each,
      the seed first; the queue, the pages and their depths are as described above; the page
      bound holds; and a pause was taken after every page. */
  predicate CrawlInv(web: Web, startUrl: string, domain: string, maxDepth: int, maxPages: int, delay: int,
                     visited: seq<string>, items: seq<Entry>, pages: seq<Page>, depths: seq<int>,
                     pauses: seq<int>, level: int)
  {
    Distinct(visited)
    && (visited == [] ==> items == [Entry(startUrl, 0)] && pages == [])
    && (visited != [] ==> visited[0] == startUrl)
    && (web.fetch(startUrl).Some? && visited != [] ==> pages != [] && pages[0].url == startUrl)
    && QueueOk(web.hostOf, domain, maxDepth, items, level)
    && PagesOk(web, domain, visited, pages) && Recorded(web, pages)
    && (|pages| <= maxPages || pages == [])
    && |depths| == |pages| && DepthsOk(depths, level, maxDepth)
    && |pauses| == |pages| && (forall i :: 0 <= i < |pauses| ==> pauses[i] == delay)
  }

  /** The crawl starts with the seed alone in the queue. */
  lemma CrawlStarts(web: Web, startUrl: string, domain: string, maxDepth: int, maxPages: int, delay: int)
    requires IsSameDomain(web.hostOf, startUrl, domain)
    ensures CrawlInv(web, startUrl, domain, maxDepth, maxPages, delay, [], [Entry(startUrl, 0)], [], [], [], 0)
  {
  }

  /** An entry whose URL was visited already is dropped. */
  lemma SkipStep(web: Web, startUrl: string, domain: string, maxDepth: int, maxPages: int, delay: int,
                 visited: seq<string>, e: Entry, rest: seq<Entry>, pages: seq<Page>, depths: seq<int>,
                 pauses: seq<int>, level: int)
    requires CrawlInv(web, startUrl, domain, maxDepth, maxPages, delay, visited, [e] + rest, pages, depths, pauses, level)
    requires e.url in visited
    ensures CrawlInv(web, startUrl, domain, maxDepth, maxPages, delay, visited, rest, pages, depths, pauses, e.depth)
  {
    QueueFront(web.hostOf, domain, maxDepth, e, rest, level);
    DepthsRaised(depths, level, e.depth, maxDepth);
  }

  /** An unvisited entry whose fetch fails is marked visited and adds no page. */
  lemma FailStep(web: Web, startUrl: string, domain: string, maxDepth: int, maxPages: int, delay: int,
                 visited: seq<string>, e: Entry, rest: seq<Entry>, pages: seq<Page>, depths: seq<int>,
                 pauses: seq<int>, level: int)
    requires CrawlInv(web, startUrl, domain, maxDepth, maxPages, delay, visited, [e] + rest, pages, depths, pauses, level)
    requires e.url !in visited && web.fetch(e.url).None?
    ensures CrawlInv(web, startUrl, domain, maxDepth, maxPages, delay, visited + [e.url], rest, pages, depths,
                     pauses, e.depth)
  {
    QueueFront(web.hostOf, domain, maxDepth, e, rest, level);
    DepthsRaised(depths, level, e.depth, maxDepth);
    DistinctAdded(visited, e.url);
    PagesFailed(web, domain, visited, pages, e.url);
    assert visited != [] ==> (visited + [e.url])[0] == visited[0];
    if visited == [] {
      assert e == ([e] + rest)[0] == Entry(startUrl, 0);
      assert visited + [e.url] == [startUrl];
    }
  }

  /** An unvisited entry whose fetch succeeds adds its page, its depth and a pause, and below
      the depth limit its links. */
  lemma PageStep(web: Web, startUrl: string, domain: string, maxDepth: int, maxPages: int, delay: int,
                 visited: seq<string>, e: Entry, rest: seq<Entry>, added: seq<Entry>, pages: seq<Page>,
                 page: Page, depths: seq<int>, pauses: seq<int>, level: int)
    requires CrawlInv(web, startUrl, domain, maxDepth, maxPages, delay, visited, [e] + rest, pages, depths, pauses, level)
    requires e.url !in visited && |pages| < maxPages
    requires page.url == e.url && web.fetch(e.url) == Some(page.html) && Recorded(web, [page])
    requires added == if e.depth < maxDepth then Enqueued(web.hostOf, domain, visited + [e.url], page.links, e.depth) else []
    ensures CrawlInv(web, startUrl, domain, maxDepth, maxPages, delay, visited + [e.url], rest + added,
                     pages + [page], depths + [e.depth], pauses + [delay], e.depth)
  {
    QueueFront(web.hostOf, domain, maxDepth, e, rest, level);
    DepthsRaised(depths, level, e.depth, maxDepth);
    DepthsAdded(depths, e.depth, maxDepth);
    DistinctAdded(visited, e.url);
    PagesAdded(web, domain, visited, pages, page);
    RecordedAdded(web, pages, page);
    if e.depth < maxDepth {
      QueueGrows(web.hostOf, domain, maxDepth, rest, visited + [e.url], page.links, e.depth);
    } else {
      assert rest + added == rest;
    }
    if visited == [] {
      assert e == ([e] + rest)[0] == Entry(startUrl, 0);
      assert visited + [e.url] == [startUrl];
    }
    assert pages != [] ==> (pages + [page])[0] == pages[0];
    var pauses' := pauses + [delay];
    assert forall i :: 0 <= i < |pauses| ==> pauses'[i] == pauses[i];
  }

  // ---------------------------------------------------------------------------------------
  // Reach: which URLs the crawl visits

  /** `link` is a link in the domain of the page crawled `i`-th, which lay below the depth
      limit: the crawl is bound to follow it. */
  predicate Followed(hostOf: HostParser, domain: string, maxDepth: int, pages: seq<Page>, depths: seq<int>,
                     i: int, link: string)
  {
    0 <= i < |pages| && i < |depths| && depths[i] < maxDepth
    && link in pages[i].links && IsSameDomain(hostOf, link, domain)
  }

  /** `url` is the seed, or a followed link of some crawled page. */
  ghost predicate Reached(hostOf: HostParser, startUrl: string, domain: string, maxDepth: int, pages: seq<Page>,
                    depths: seq<int>, url: string)
  {
    url == startUrl || exists i :: Followed(hostOf, domain, maxDepth, pages, depths, i, url)
  }

  /** The page crawled `j`-th is the seed, at depth 0, or a followed link of an EARLIER page,
      one level below it. */
  ghost predicate PageReached(hostOf: HostParser, startUrl: string, domain: string, maxDepth: int, pages: seq<Page>,
                              depths: seq<int>, j: int)
    requires 0 <= j < |pages| && j < |depths|
  {
    (pages[j].url == startUrl && depths[j] == 0)
    || exists i :: 0 <= i < j && Followed(hostOf, domain, maxDepth, pages, depths, i, pages[j].url)
         && depths[j] == depths[i] + 1
  }

  /** Every crawled page was reached from the seed through earlier pages. */
  ghost predicate PagesReached(hostOf: HostParser, startUrl: string, domain: string, maxDepth: int, pages: seq<Page>,
                               depths: seq<int>)
  {
    forall j :: 0 <= j < |pages| && j < |depths| ==> PageReached(hostOf, startUrl, domain, maxDepth, pages, depths, j)
  }

  /** Closure: every followed link was visited or waits in the queue one level down. */
  ghost predicate Closed(hostOf: HostParser, domain: string, maxDepth: int, visited: seq<string>, items: seq<Entry>,
                   pages: seq<Page>, depths: seq<int>)
  {
    forall i, link :: Followed(hostOf, domain, maxDepth, pages, depths, i, link) ==>
      link in visited || Entry(link, depths[i] + 1) in items
  }

  /** Every queued entry is the seed, or a followed link one level below its page. */
  ghost predicate QueueReached(hostOf: HostParser, startUrl: string, domain: string, maxDepth: int, items: seq<Entry>,
                               pages: seq<Page>, depths: seq<int>)
  {
    forall k :: 0 <= k < |items| ==>
      items[k] == Entry(startUrl, 0)
      || exists i :: Followed(hostOf, domain, maxDepth, pages, depths, i, items[k].url)
           && items[k].depth == depths[i] + 1
  }

  /** Every visited URL was reached from the seed. */
  ghost predicate VisitedReached(hostOf: HostParser, startUrl: string, domain: string, maxDepth: int,
                                 visited: seq<string>, pages: seq<Page>, depths: seq<int>)
  {
    forall v :: v in visited ==> Reached(hostOf, startUrl, domain, maxDepth, pages, depths, v)
  }

  /** The reach part of the crawl invariant: closure, and provenance of every queued entry,
      visited URL and page. */
  ghost predicate CrawlReach(hostOf: HostParser, startUrl: string, domain: string, maxDepth: int, visited: seq<string>,
                             items: seq<Entry>, pages: seq<Page>, depths: seq<int>)
  {
    Closed(hostOf, domain, maxDepth, visited, items, pages, depths)
    && QueueReached(hostOf, startUrl, domain, maxDepth, items, pages, depths)
    && VisitedReached(hostOf, startUrl, domain, maxDepth, visited, pages, depths)
    && PagesReached(hostOf, startUrl, domain, maxDepth, pages, depths)
  }

  /** Nothing is followed before the first page is crawled. */
  lemma ReachStarts(hostOf: HostParser, startUrl: string, domain: string, maxDepth: int)
    ensures CrawlReach(hostOf, startUrl, domain, maxDepth, [], [Entry(startUrl, 0)], [], [])
  {
  }

  /** Visiting one more URL keeps the closure. */
  lemma ClosedVisit(hostOf: HostParser, domain: string, maxDepth: int, visited: seq<string>, url: string,
                    items: seq<Entry>, pages: seq<Page>, depths: seq<int>)
    requires Closed(hostOf, domain, maxDepth, visited, items, pages, depths)
    ensures Closed(hostOf, domain, maxDepth, visited + [url], items, pages, depths)
  {
    forall i, link | Followed(hostOf, domain, maxDepth, pages, depths, i, link)
      ensures link in visited + [url] || Entry(link, depths[i] + 1) in items
    {
      if link in visited {
        assert link in visited + [url];
      }
    }
  }

  /** Dropping a front entry whose URL was visited keeps the closure. */
  lemma ClosedDrop(hostOf: HostParser, domain: string, maxDepth: int, visited: seq<string>, e: Entry,
                   rest: seq<Entry>, pages: seq<Page>, depths: seq<int>)
    requires Closed(hostOf, domain, maxDepth, visited, [e] + rest, pages, depths) && e.url in visited
    ensures Closed(hostOf, domain, maxDepth, visited, rest, pages, depths)
  {
    forall i, link | Followed(hostOf, domain, maxDepth, pages, depths, i, link)
      ensures link in visited || Entry(link, depths[i] + 1) in rest
    {
      var x := Entry(link, depths[i] + 1);
      if link !in visited {
        assert x in [e] + rest && x != e;
        assert x in rest;
      }
    }
  }

  /** Dropping the front entry keeps the provenance of the rest of the queue. */
  lemma QueueDrop(hostOf: HostParser, startUrl: string, domain: string, maxDepth: int, e: Entry, rest: seq<Entry>,
                  pages: seq<Page>, depths: seq<int>)
    requires QueueReached(hostOf, startUrl, domain, maxDepth, [e] + rest, pages, depths)
    ensures QueueReached(hostOf, startUrl, domain, maxDepth, rest, pages, depths)
    ensures e == Entry(startUrl, 0)
      || exists i :: Followed(hostOf, domain, maxDepth, pages, depths, i, e.url) && e.depth == depths[i] + 1
  {
    var items := [e] + rest;
    assert items[0] == e;
    forall k | 0 <= k < |rest|
      ensures rest[k] == Entry(startUrl, 0)
        || exists i :: Followed(hostOf, domain, maxDepth, pages, depths, i, rest[k].url)
             && rest[k].depth == depths[i] + 1
    {
      assert rest[k] == items[k + 1];
    }
  }

  /** Visiting a reached URL keeps every visited URL reached. */
  lemma VisitedAdd(hostOf: HostParser, startUrl: string, domain: string, maxDepth: int, visited: seq<string>,
                   url: string, pages: seq<Page>, depths: seq<int>)
    requires VisitedReached(hostOf, startUrl, domain, maxDepth, visited, pages, depths)
    requires Reached(hostOf, startUrl, domain, maxDepth, pages, depths, url)
    ensures VisitedReached(hostOf, startUrl, domain, maxDepth, visited + [url], pages, depths)
  {
    forall v | v in visited + [url] ensures Reached(hostOf, startUrl, domain, maxDepth, pages, depths, v) {
      if v != url {
        assert v in visited;
      }
    }
  }

  /** The front entry is reached, by its provenance. */
  lemma EntryReached(hostOf: HostParser, startUrl: string, domain: string, maxDepth: int, e: Entry,
                     pages: seq<Page>, depths: seq<int>)
    requires e == Entry(startUrl, 0)
      || exists i :: Followed(hostOf, domain, maxDepth, pages, depths, i, e.url) && e.depth == depths[i] + 1
    ensures Reached(hostOf, startUrl, domain, maxDepth, pages, depths, e.url)
  {
  }

  /** Dropping a visited front entry keeps the reach invariant. */
  lemma ReachSkip(hostOf: HostParser, startUrl: string, domain: string, maxDepth: int, visited: seq<string>,
                  e: Entry, rest: seq<Entry>, pages: seq<Page>, depths: seq<int>)
    requires CrawlReach(hostOf, startUrl, domain, maxDepth, visited, [e] + rest, pages, depths)
    requires e.url in visited
    ensures CrawlReach(hostOf, startUrl, domain, maxDepth, visited, rest, pages, depths)
  {
    ClosedDrop(hostOf, domain, maxDepth, visited, e, rest, pages, depths);
    QueueDrop(hostOf, startUrl, domain, maxDepth, e, rest, pages, depths);
  }

  /** Visiting the front entry, whatever its fetch gives, before any page is added: the
      entry is dropped and its URL is marked visited. */
  lemma ReachVisit(hostOf: HostParser, startUrl: string, domain: string, maxDepth: int, visited: seq<string>,
                   e: Entry, rest: seq<Entry>, pages: seq<Page>, depths: seq<int>)
    requires CrawlReach(hostOf, startUrl, domain, maxDepth, visited, [e] + rest, pages, depths)
    ensures CrawlReach(hostOf, startUrl, domain, maxDepth, visited + [e.url], rest, pages, depths)
    ensures e == Entry(startUrl, 0)
      || exists i :: Followed(hostOf, domain, maxDepth, pages, depths, i, e.url) && e.depth == depths[i] + 1
  {
    ClosedVisit(hostOf, domain, maxDepth, visited, e.url, [e] + rest, pages, depths);
    ClosedDrop(hostOf, domain, maxDepth, visited + [e.url], e, rest, pages, depths);
    QueueDrop(hostOf, startUrl, domain, maxDepth, e, rest, pages, depths);
    EntryReached(hostOf, startUrl, domain, maxDepth, e, pages, depths);
    VisitedAdd(hostOf, startUrl, domain, maxDepth, visited, e.url, pages, depths);
  }

  /** A followed link of an earlier page is still followed once a page is added. */
  lemma FollowedKept(hostOf: HostParser, domain: string, maxDepth: int, pages: seq<Page>, depths: seq<int>,
                     page: Page, depth: int, i: int, link: string)
    requires |depths| == |pages| && Followed(hostOf, domain, maxDepth, pages, depths, i, link)
    ensures Followed(hostOf, domain, maxDepth, pages + [page], depths + [depth], i, link)
    ensures (depths + [depth])[i] == depths[i]
  {
    assert (pages + [page])[i] == pages[i];
  }

  /** A followed link of the pages with one more page: a followed link of an earlier page, or
      a link in the domain of the new page when it lay below the depth limit. */
  lemma FollowedGrown(hostOf: HostParser, domain: string, maxDepth: int, pages: seq<Page>, depths: seq<int>,
                      page: Page, depth: int, i: int, link: string)
    requires |depths| == |pages| && Followed(hostOf, domain, maxDepth, pages + [page], depths + [depth], i, link)
    ensures i < |pages| ==>
      Followed(hostOf, domain, maxDepth, pages, depths, i, link) && (depths + [depth])[i] == depths[i]
    ensures i == |pages| ==>
      depth < maxDepth && link in page.links && IsSameDomain(hostOf, link, domain) && (depths + [depth])[i] == depth
  {
    if i < |pages| {
      assert (pages + [page])[i] == pages[i];
    }
  }

  /** A URL reached before a page is added is reached after. */
  lemma ReachedKept(hostOf: HostParser, startUrl: string, domain: string, maxDepth: int, pages: seq<Page>,
                    depths: seq<int>, page: Page, depth: int, url: string)
    requires |depths| == |pages| && Reached(hostOf, startUrl, domain, maxDepth, pages, depths, url)
    ensures Reached(hostOf, startUrl, domain, maxDepth, pages + [page], depths + [depth], url)
  {
    if url != startUrl {
      var i :| Followed(hostOf, domain, maxDepth, pages, depths, i, url);
      FollowedKept(hostOf, domain, maxDepth, pages, depths, page, depth, i, url);
    }
  }

  /** Adding a page keeps every visited URL reached. */
  lemma VisitedKept(hostOf: HostParser, startUrl: string, domain: string, maxDepth: int, visited: seq<string>,
                    pages: seq<Page>, depths: seq<int>, page: Page, depth: int)
    requires |depths| == |pages| && VisitedReached(hostOf, startUrl, domain, maxDepth, visited, pages, depths)
    ensures VisitedReached(hostOf, startUrl, domain, maxDepth, visited, pages + [page], depths + [depth])
  {
    forall v | v in visited ensures Reached(hostOf, startUrl, domain, maxDepth, pages + [page], depths + [depth], v) {
      ReachedKept(hostOf, startUrl, domain, maxDepth, pages, depths, page, depth, v);
    }
  }

  /** The page of a reached entry keeps every page reached. */
  lemma PagesKept(hostOf: HostParser, startUrl: string, domain: string, maxDepth: int, pages: seq<Page>,
                  depths: seq<int>, e: Entry, page: Page)
    requires |depths| == |pages| && PagesReached(hostOf, startUrl, domain, maxDepth, pages, depths)
    requires page.url == e.url
    requires e == Entry(startUrl, 0)
      || exists i :: Followed(hostOf, domain, maxDepth, pages, depths, i, e.url) && e.depth == depths[i] + 1
    ensures PagesReached(hostOf, startUrl, domain, maxDepth, pages + [page], depths + [e.depth])
  {
    forall j | 0 <= j < |pages| + 1
      ensures PageReached(hostOf, startUrl, domain, maxDepth, pages + [page], depths + [e.depth], j)
    {
      if j < |pages| {
        PageReachedKept(hostOf, startUrl, domain, maxDepth, pages, depths, page, e.depth, j);
      } else {
        NewPageReached(hostOf, startUrl, domain, maxDepth, pages, depths, e, page);
      }
    }
  }

  /** A page reached before a page is added is reached after. */
  lemma PageReachedKept(hostOf: HostParser, startUrl: string, domain: string, maxDepth: int, pages: seq<Page>,
                        depths: seq<int>, page: Page, depth: int, j: int)
    requires |depths| == |pages| && 0 <= j < |pages|
    requires PageReached(hostOf, startUrl, domain, maxDepth, pages, depths, j)
    ensures PageReached(hostOf, startUrl, domain, maxDepth, pages + [page], depths + [depth], j)
  {
    var pages', depths' := pages + [page], depths + [depth];
    assert pages'[j] == pages[j] && depths'[j] == depths[j];
    if !(pages[j].url == startUrl && depths[j] == 0) {
      var i :| 0 <= i < j && Followed(hostOf, domain, maxDepth, pages, depths, i, pages[j].url)
        && depths[j] == depths[i] + 1;
      FollowedKept(hostOf, domain, maxDepth, pages, depths, page, depth, i, pages[j].url);
    }
  }

  /** The page of a reached entry is reached. */
  lemma NewPageReached(hostOf: HostParser, startUrl: string, domain: string, maxDepth: int, pages: seq<Page>,
                       depths: seq<int>, e: Entry, page: Page)
    requires |depths| == |pages| && page.url == e.url
    requires e == Entry(startUrl, 0)
      || exists i :: Followed(hostOf, domain, maxDepth, pages, depths, i, e.url) && e.depth == depths[i] + 1
    ensures PageReached(hostOf, startUrl, domain, maxDepth, pages + [page], depths + [e.depth], |pages|)
  {
    var pages', depths' := pages + [page], depths + [e.depth];
    assert pages'[|pages|] == page && depths'[|pages|] == e.depth;
    if e != Entry(startUrl, 0) {
      var i :| Followed(hostOf, domain, maxDepth, pages, depths, i, e.url) && e.depth == depths[i] + 1;
      FollowedKept(hostOf, domain, maxDepth, pages, depths, page, e.depth, i, e.url);
    }
  }

  /** The entries added for the new page, and those still queued, keep their provenance. */
  lemma QueueKept(hostOf: HostParser, startUrl: string, domain: string, maxDepth: int, visited: seq<string>,
                  e: Entry, rest: seq<Entry>, added: seq<Entry>, pages: seq<Page>, page: Page, depths: seq<int>)
    requires |depths| == |pages| && QueueReached(hostOf, startUrl, domain, maxDepth, rest, pages, depths)
    requires added == if e.depth < maxDepth then Enqueued(hostOf, domain, visited, page.links, e.depth) else []
    ensures QueueReached(hostOf, startUrl, domain, maxDepth, rest + added, pages + [page], depths + [e.depth])
  {
    var items', pages', depths' := rest + added, pages + [page], depths + [e.depth];
    if e.depth < maxDepth {
      EnqueuedEntries(hostOf, domain, visited, page.links, e.depth);
    }
    forall k | 0 <= k < |items'|
      ensures items'[k] == Entry(startUrl, 0)
        || exists i :: Followed(hostOf, domain, maxDepth, pages', depths', i, items'[k].url)
             && items'[k].depth == depths'[i] + 1
    {
      if k < |rest| {
        assert items'[k] == rest[k];
        if rest[k] != Entry(startUrl, 0) {
          var i :| Followed(hostOf, domain, maxDepth, pages, depths, i, rest[k].url) && rest[k].depth == depths[i] + 1;
          FollowedKept(hostOf, domain, maxDepth, pages, depths, page, e.depth, i, rest[k].url);
        }
      } else {
        var a := items'[k];
        assert a == added[k - |rest|] && a in added;
        assert pages'[|pages|] == page && depths'[|pages|] == e.depth;
        assert Followed(hostOf, domain, maxDepth, pages', depths', |pages|, a.url);
      }
    }
  }

  /** Every link of a page crawled below the depth limit, in the domain and not visited, has
      its entry one level down among `added`. */
  ghost predicate Covers(hostOf: HostParser, domain: string, maxDepth: int, visited: seq<string>, page: Page,
                         depth: int, added: seq<Entry>)
  {
    depth < maxDepth ==>
      forall link :: link in page.links && IsSameDomain(hostOf, link, domain) && link !in visited ==>
        Entry(link, depth + 1) in added
  }

  /** The entries the inner loop adds cover the page's links. */
  lemma EnqueuedCovers(hostOf: HostParser, domain: string, maxDepth: int, visited: seq<string>, page: Page,
                       depth: int)
    ensures Covers(hostOf, domain, maxDepth, visited, page, depth,
                   if depth < maxDepth then Enqueued(hostOf, domain, visited, page.links, depth) else [])
  {
    if depth < maxDepth {
      forall link | link in page.links && IsSameDomain(hostOf, link, domain) && link !in visited
        ensures Entry(link, depth + 1) in Enqueued(hostOf, domain, visited, page.links, depth)
      {
        var k :| 0 <= k < |page.links| && page.links[k] == link;
        EnqueuedComplete(hostOf, domain, visited, page.links, depth, k);
      }
    }
  }

  /** The followed links of the new page are enqueued unless visited, and those of earlier
      pages stay visited or queued. */
  lemma ClosedKept(hostOf: HostParser, domain: string, maxDepth: int, visited: seq<string>, e: Entry,
                   rest: seq<Entry>, added: seq<Entry>, pages: seq<Page>, page: Page, depths: seq<int>)
    requires |depths| == |pages| && Closed(hostOf, domain, maxDepth, visited, rest, pages, depths)
    requires Covers(hostOf, domain, maxDepth, visited, page, e.depth, added)
    ensures Closed(hostOf, domain, maxDepth, visited, rest + added, pages + [page], depths + [e.depth])
  {
    var pages', depths' := pages + [page], depths + [e.depth];
    forall i, link | Followed(hostOf, domain, maxDepth, pages', depths', i, link)
      ensures link in visited || Entry(link, depths'[i] + 1) in rest + added
    {
      ClosedOne(hostOf, domain, maxDepth, visited, e, rest, added, pages, page, depths, i, link);
    }
  }

  /** One followed link once the new page is added: visited, or queued one level down. */
  lemma ClosedOne(hostOf: HostParser, domain: string, maxDepth: int, visited: seq<string>, e: Entry,
                  rest: seq<Entry>, added: seq<Entry>, pages: seq<Page>, page: Page, depths: seq<int>,
                  i: int, link: string)
    requires |depths| == |pages| && Closed(hostOf, domain, maxDepth, visited, rest, pages, depths)
    requires Covers(hostOf, domain, maxDepth, visited, page, e.depth, added)
    requires Followed(hostOf, domain, maxDepth, pages + [page], depths + [e.depth], i, link)
    ensures link in visited || Entry(link, (depths + [e.depth])[i] + 1) in rest + added
  {
    FollowedGrown(hostOf, domain, maxDepth, pages, depths, page, e.depth, i, link);
    if i < |pages| {
      StillQueued(hostOf, domain, maxDepth, visited, rest, added, pages, depths, i, link);
    }
  }

  /** A followed link of an earlier page that was queued stays queued. */
  lemma StillQueued(hostOf: HostParser, domain: string, maxDepth: int, visited: seq<string>, rest: seq<Entry>,
                    added: seq<Entry>, pages: seq<Page>, depths: seq<int>, i: int, link: string)
    requires Closed(hostOf, domain, maxDepth, visited, rest, pages, depths)
    requires Followed(hostOf, domain, maxDepth, pages, depths, i, link)
    ensures link in visited || Entry(link, depths[i] + 1) in rest + added
  {
    if link !in visited {
      assert Entry(link, depths[i] + 1) in rest;
    }
  }

  /** Crawling the front entry's page keeps the reach invariant: its followed links are
      enqueued unless already visited. */
  lemma ReachPage(hostOf: HostParser, startUrl: string, domain: string, maxDepth: int, visited: seq<string>,
                  e: Entry, rest: seq<Entry>, added: seq<Entry>, pages: seq<Page>, page: Page, depths: seq<int>)
    requires CrawlReach(hostOf, startUrl, domain, maxDepth, visited, [e] + rest, pages, depths)
    requires |depths| == |pages| && page.url == e.url
    requires added == if e.depth < maxDepth then Enqueued(hostOf, domain, visited + [e.url], page.links, e.depth) else []
    ensures CrawlReach(hostOf, startUrl, domain, maxDepth, visited + [e.url], rest + added, pages + [page],
                       depths + [e.depth])
  {
    var visited' := visited + [e.url];
    ReachVisit(hostOf, startUrl, domain, maxDepth, visited, e, rest, pages, depths);
    EnqueuedCovers(hostOf, domain, maxDepth, visited', page, e.depth);
    ClosedKept(hostOf, domain, maxDepth, visited', e, rest, added, pages, page, depths);
    QueueKept(hostOf, startUrl, domain, maxDepth, visited', e, rest, added, pages, page, depths);
    VisitedKept(hostOf, startUrl, domain, maxDepth, visited', pages, depths, page, e.depth);
    PagesKept(hostOf, startUrl, domain, maxDepth, pages, depths, e, page);
  }

  /** Every reached URL is in the domain: the seed is, and so is every followed link. */
  lemma ReachedInScope(hostOf: HostParser, startUrl: string, domain: string, maxDepth: int, visited: seq<string>,
                       pages: seq<Page>, depths: seq<int>)
    requires IsSameDomain(hostOf, startUrl, domain)
    requires VisitedReached(hostOf, startUrl, domain, maxDepth, visited, pages, depths)
    ensures forall v :: v in visited ==> IsSameDomain(hostOf, v, domain)
  {
    forall v | v in visited ensures IsSameDomain(hostOf, v, domain) {
      assert Reached(hostOf, startUrl, domain, maxDepth, pages, depths, v);
    }
  }

  // ---------------------------------------------------------------------------------------
  // The crawl

  /** The inner `for (const link of links)` loop: enqueue each same-domain link not yet
      visited at the next depth. */
  method EnqueueLinks(q: Queue<Entry>, hostOf: HostParser, domain: string, visited: seq<string>,
                      links: seq<string>, depth: int)
    modifies q
    ensures q.items == old(q.items) + Enqueued(hostOf, domain, visited, links, depth)
  {
    for i := 0 to |links|
      invariant q.items == old(q.items) + Enqueued(hostOf, domain, visited, links[..i], depth)
    {
      var link := links[i];
      assert links[..i + 1][..i] == links[..i];
      if IsSameDomain(hostOf, link, domain) && link !in visited {
        q.Enqueue(Entry(link, depth + 1));
      }
    }
    assert links[..|links|] == links;
  }

  /** The record of a fetched page: its title, plain text, markdown and links. */
  method CrawlPage(web: Web, url: string, html: string) returns (page: Page)
    ensures page == PageOf(web, url, html)
  {
    var title := Title(html);
    var content := PlainText(html);
    var markdown := Markdown(html);
    var links := ExtractLinks(web.resolve, html, url);
    page := Page(url, title, content, markdown, html, links);
  }

  /** One iteration of the crawl loop: take the front entry; skip it when its URL was
      visited; otherwise mark it visited and fetch it; on success record the page, enqueue its
      links below the depth limit and pause. The queue's weight goes down. */
  method CrawlNext(web: Web, startUrl: string, domain: string, maxDepth: int, maxPages: int, options: CrawlOptions,
                   q: Queue<Entry>, visited: seq<string>, pages: seq<Page>, ghost fetched: seq<string>,
                   ghost depths: seq<int>, ghost pauses: seq<int>, ghost level: int)
    returns (visited': seq<string>, pages': seq<Page>, ghost fetched': seq<string>,
             ghost depths': seq<int>, ghost pauses': seq<int>, ghost level': int)
    requires q.items != [] && |pages| < maxPages && fetched == visited
    requires CrawlInv(web, startUrl, domain, maxDepth, maxPages, Delay(options), visited, q.items, pages, depths,
                      pauses, level)
    requires CrawlReach(web.hostOf, startUrl, domain, maxDepth, visited, q.items, pages, depths)
    modifies q
    // the front entry is taken; its URL is marked visited unless it was already
    ensures var e := old(q.items)[0];
      && level' == e.depth
      && visited' == (if e.url in visited then visited else visited + [e.url])
    // a fresh URL whose fetch succeeds adds its page and, below the depth limit, its links
    ensures var e := old(q.items)[0];
      e.url !in visited && web.fetch(e.url).Some? ==>
        && pages' == pages + [PageOf(web, e.url, web.fetch(e.url).value)]
        && depths' == depths + [e.depth]
        && q.items == old(q.items)[1..]
             + (if e.depth < maxDepth then Enqueued(web.hostOf, domain, visited', pages'[|pages|].links, e.depth) else [])
    // otherwise nothing else changes
    ensures var e := old(q.items)[0];
      e.url in visited || web.fetch(e.url).None? ==>
        pages' == pages && depths' == depths && q.items == old(q.items)[1..]
    ensures fetched' == visited'
    ensures CrawlInv(web, startUrl, domain, maxDepth, maxPages, Delay(options), visited', q.items, pages', depths',
                     pauses', level')
    ensures CrawlReach(web.hostOf, startUrl, domain, maxDepth, visited', q.items, pages', depths')
    ensures QueueWeight(OutlinksOf(web), maxDepth, q.items) < old(QueueWeight(OutlinksOf(web), maxDepth, q.items))
  {
    var current := q.Dequeue();
    var entry := current.value;
    var url, depth := entry.url, entry.depth;
    ghost var rest := q.items;
    FrontWeight(OutlinksOf(web), maxDepth, entry, rest);
    visited', pages', fetched', depths', pauses', level' := visited, pages, fetched, depths, pauses, depth;

    if url in visited {
      SkipStep(web, startUrl, domain, maxDepth, maxPages, Delay(options), visited, entry, rest, pages, depths,
               pauses, level);
      ReachSkip(web.hostOf, startUrl, domain, maxDepth, visited, entry, rest, pages, depths);
      return;
    }
    visited' := visited + [url];
    fetched' := fetched + [url];
    match web.fetch(url)
    case None =>
      FailStep(web, startUrl, domain, maxDepth, maxPages, Delay(options), visited, entry, rest, pages, depths,
               pauses, level);
      ReachVisit(web.hostOf, startUrl, domain, maxDepth, visited, entry, rest, pages, depths);
    case Some(html) =>
      var page := CrawlPage(web, url, html);
      RecordedOne(web, page);
      pages' := pages + [page];
      depths' := depths + [depth];
      ghost var added := if depth < maxDepth then Enqueued(web.hostOf, domain, visited', page.links, depth) else [];
      if depth < maxDepth {
        EnqueueLinks(q, web.hostOf, domain, visited', page.links, depth);
        WeightStep(OutlinksOf(web), url, maxDepth, depth);
        OutlinksOfFetched(web, url, html);
        CrawlWeight(OutlinksOf(web), web.hostOf, maxDepth, domain, visited', rest, url, page.links, depth);
      } else {
        assert rest + added == rest;
      }
      pauses' := pauses + [Delay(options)];
      PageStep(web, startUrl, domain, maxDepth, maxPages, Delay(options), visited, entry, rest, added, pages, page,
               depths, pauses, level);
      ReachPage(web.hostOf, startUrl, domain, maxDepth, visited, entry, rest, added, pages, page, depths);
  }

  /** `scrapeFullDomain(startUrl, maxDepth, maxPages, options)`. The ghost results are the
      URLs passed to `fetch`, in order, the depth at which each page was crawled, and the
      pauses taken. */
  method ScrapeFullDomain(web: Web, startUrl: string, maxDepth: int, maxPages: int, options: CrawlOptions)
    returns (r: Result<Report, string>, ghost fetched: seq<string>, ghost depths: seq<int>, ghost pauses: seq<int>)
    ensures r.Failure? <==> ExtractDomain(web.hostOf, startUrl) == ""
    ensures r.Failure? ==> r.error == "Invalid URL" && fetched == []
    ensures r.Success? ==> var rep := r.value;
      // the report
      && rep.domain == ExtractDomain(web.hostOf, startUrl)
      && rep.pagesCount == |rep.pages|
      && rep.exportFormat == ExportFormat(options)
      // page bound
      && (|rep.pages| <= maxPages || rep.pages == [])
      // every URL is fetched at most once, and every visited URL is fetched
      && fetched == rep.visitedUrls && Distinct(fetched)
      // every page is the record of its own successful fetch, in the domain; no URL has two
      // pages; a visited URL has a page exactly when its fetch succeeded
      && PagesOk(web, rep.domain, rep.visitedUrls, rep.pages) && Recorded(web, rep.pages)
      // the seed is visited first, and is the first page when it can be fetched
      && (maxPages > 0 ==> rep.visitedUrls != [] && rep.visitedUrls[0] == startUrl)
      && (maxPages > 0 && web.fetch(startUrl).Some? ==> rep.pages != [] && rep.pages[0].url == startUrl)
      // depth bound and breadth-first order
      && |depths| == |rep.pages| && NonDecreasing(depths)
      && (forall i :: 0 <= i < |depths| ==> 0 <= depths[i] && (depths[i] <= maxDepth || depths[i] == 0))
      // a pause follows every crawled page, and only those
      && |pauses| == |rep.pages| && (forall i :: 0 <= i < |pauses| ==> pauses[i] == Delay(options))
    // which URLs are visited: each is in the domain, and is the seed or a followed link of a
    // crawled page; each page is the seed or a followed link of an earlier page, one level down;
    // and unless the page bound stopped the crawl, every followed link was visited
    ensures r.Success? ==> var rep := r.value;
      && (forall v :: v in rep.visitedUrls ==>
            IsSameDomain(web.hostOf, v, rep.domain) && Reached(web.hostOf, startUrl, rep.domain, maxDepth, rep.pages, depths, v))
      && PagesReached(web.hostOf, startUrl, rep.domain, maxDepth, rep.pages, depths)
      && (|rep.pages| < maxPages ==>
            forall i, link :: Followed(web.hostOf, rep.domain, maxDepth, rep.pages, depths, i, link) ==> link in rep.visitedUrls)
  {
    var domain := ExtractDomain(web.hostOf, startUrl);
    var exportFormat := ExportFormat(options);
    fetched, depths, pauses := [], [], [];
    if domain == "" {
      return Failure("Invalid URL"), fetched, depths, pauses;
    }
    SeedInScope(web.hostOf, startUrl);

    var visited: seq<string> := [];
    var q := new Queue<Entry>();
    var pages: seq<Page> := [];
    ghost var level := 0;

    q.Enqueue(Entry(startUrl, 0));
    CrawlStarts(web, startUrl, domain, maxDepth, maxPages, Delay(options));
    ReachStarts(web.hostOf, startUrl, domain, maxDepth);
    var empty := q.IsEmpty();
    while !empty && |pages| < maxPages
      invariant empty <==> q.items == []
      invariant fetched == visited
      invariant CrawlInv(web, startUrl, domain, maxDepth, maxPages, Delay(options), visited, q.items, pages,
                         depths, pauses, level)
      invariant CrawlReach(web.hostOf, startUrl, domain, maxDepth, visited, q.items, pages, depths)
      decreases QueueWeight(OutlinksOf(web), maxDepth, q.items)
    {
      visited, pages, fetched, depths, pauses, level :=
        CrawlNext(web, startUrl, domain, maxDepth, maxPages, options, q, visited, pages, fetched, depths, pauses, level);
      empty := q.IsEmpty();
    }
    ReachedInScope(web.hostOf, startUrl, domain, maxDepth, visited, pages, depths);

    r := Success(Report(domain, |pages|, visited, pages, exportFormat));
  }

  // ---------------------------------------------------------------------------------------
  // A single page

  /** What `scrapeSinglePage` reports about a page. */
  datatype Scraped = Scraped(content: string, markdown: string, cleanedHtml: string, title: string, url: string)

  /** `scrapeSinglePage(url)`: the views of one fetched page; a failed fetch throws, which the
      endpoint answers with "Failed to scrape the URL". */
  function ScrapeSinglePage(web: Web, url: string): (r: Result<Scraped, string>)
    ensures r.Failure? <==> web.fetch(url).None?
    ensures r.Failure? ==> r.error == "Failed to scrape the URL"
    ensures r.Success? ==> r.value.cleanedHtml == web.fetch(url).value && r.value.url == url
  {
    match web.fetch(url)
    case None => Failure("Failed to scrape the URL")
    case Some(html) => Success(Scraped(PlainText(html), Markdown(html), html, Title(html), url))
  }

  /** A page scraped alone has the same title, plain text and markdown as the page the crawl
      records for the same URL. */
  lemma SingleMatchesCrawled(web: Web, url: string)
    requires web.fetch(url).Some?
    ensures var page := PageOf(web, url, web.fetch(url).value);
      var single := ScrapeSinglePage(web, url).value;
      single.title == page.title && single.content == page.content && single.markdown == page.markdown
  {
  }
}
