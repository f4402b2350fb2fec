/** `WebScraper` (scrapeInternet.py): a sequential breadth-first crawl over a deque of
    `(url, depth)` pairs. A URL is marked visited when it is enqueued. An entry deeper than
    `max_depth` is popped and dropped; every other entry joins the discovery sequence
    before its page is fetched, a page that downloads as HTML is stored as a record, and
    its links not yet visited are enqueued one level deeper. */
module BasicScraper {
  import opened Wrappers
  import opened PyText
  import opened Urllib
  import opened CrawlQueue
  import opened BasicText
  import Reach

  /** What the HTTP layer and the HTML parser yield for a page that downloads with a
      success status and an HTML content type: the text of its `<title>` when it has one,
      the text of the page without scripts and styles, and the `href` of every `<a>` in
      document order. */
  datatype Page = Page(title: Option<string>, text: string, hrefs: seq<string>)

  /** The download of a URL; `None` for a request error, an error status or a content
      type without `text/html`. */
  type Fetcher = string -> Option<Page>

  /** One entry of `content_data`. */
  datatype ContentRecord = ContentRecord(url: string, depth: int, discoveryIndex: int, title: string, content: string)

  /** The title stored for a page without a `<title>`. */
  const NoTitle: string := "No Title"

  // ------------------------------------------------------------ the links of a page

  /** The links `get_links_and_content` collects from a page before its visited test: the
      non-empty `normalize_url` results that pass `is_valid_url`, in document order. `Err`
      when normalising one of the hrefs raises, which ends the call. */
  function PageLinks(hrefs: seq<string>, base: string, urljoin: Joiner): (r: Result<seq<string>>)
    ensures r.Ok? ==> forall l :: l in r.value ==> IsValidUrl(l)
  {
    if hrefs == [] then Ok([])
    else
      match PageLinks(hrefs[..|hrefs| - 1], base, urljoin)
      case Err(e) => Err(e)
      case Ok(prev) =>
        match NormalizeUrl(hrefs[|hrefs| - 1], base, urljoin)
        case Err(e) => Err(e)
        case Ok(u) => Ok(prev + Kept(u))
  }

  /** The link a normalised href contributes: itself when it is non-empty and valid. */
  function Kept(u: Option<string>): (r: seq<string>)
    ensures forall l :: l in r ==> IsValidUrl(l)
  {
    if u.Some? && u.value != [] && IsValidUrl(u.value) then [u.value] else []
  }

  lemma PageLinksStep(hrefs: seq<string>, i: nat, base: string, urljoin: Joiner)
    requires i < |hrefs| && PageLinks(hrefs[..i], base, urljoin).Ok?
    ensures NormalizeUrl(hrefs[i], base, urljoin).Err? ==> PageLinks(hrefs[..i + 1], base, urljoin).Err?
    ensures NormalizeUrl(hrefs[i], base, urljoin).Ok? ==>
      PageLinks(hrefs[..i + 1], base, urljoin) ==
      Ok(PageLinks(hrefs[..i], base, urljoin).value + Kept(NormalizeUrl(hrefs[i], base, urljoin).value))
  {
    assert hrefs[..i + 1][..i] == hrefs[..i];
  }

  /** Once an href fails to normalise, the page fails whatever follows it. */
  lemma {:induction false} PageLinksErrExtends(hrefs: seq<string>, i: nat, base: string, urljoin: Joiner)
    requires i <= |hrefs|
    requires PageLinks(hrefs[..i], base, urljoin).Err?
    ensures PageLinks(hrefs, base, urljoin).Err?
    decreases |hrefs| - i
  {
    if i < |hrefs| {
      assert hrefs[..i + 1][..i] == hrefs[..i];
      PageLinksErrExtends(hrefs, i + 1, base, urljoin);
    } else {
      assert hrefs[..i] == hrefs;
    }
  }

  // ------------------------------------------------------------ search_content

  /** The filter of `search_content`: the lower-cased topic occurs in the lower-cased
      content or title. */
  predicate Matches(r: ContentRecord, topic: string) {
    Contains(Lower(r.content), Lower(topic)) || Contains(Lower(r.title), Lower(topic))
  }

  /** The records that pass the filter, in their stored order. */
  function MatchingRecords(rs: seq<ContentRecord>, topic: string): (r: seq<ContentRecord>)
    ensures |r| <= |rs|
    ensures forall x :: x in r <==> x in rs && Matches(x, topic)
  {
    if rs == [] then []
    else
      var prev := MatchingRecords(rs[..|rs| - 1], topic);
      assert forall x :: x in rs <==> x in rs[..|rs| - 1] || x == rs[|rs| - 1];
      prev + (if Matches(rs[|rs| - 1], topic) then [rs[|rs| - 1]] else [])
  }

  /** The filter keeps order: the matches of a concatenation are the matches of the first
      part followed by those of the second. */
  lemma {:induction false} MatchingAppend(a: seq<ContentRecord>, b: seq<ContentRecord>, topic: string)
    ensures MatchingRecords(a + b, topic) == MatchingRecords(a, topic) + MatchingRecords(b, topic)
    decreases |b|
  {
    if b == [] {
      assert a + b == a;
    } else {
      var n := |b| - 1;
      assert (a + b)[..|a + b| - 1] == a + b[..n];
      MatchingAppend(a, b[..n], topic);
    }
  }

  // ------------------------------------------------------------ the scraper

  class WebScraper {
    const maxDepth: int
    const maxBreadth: int
    const fetch: Fetcher
    const urljoin: Joiner
    /** What `normalize_url` makes of the hrefs of each page, kept as a ghost table so that
        the crawl's invariants can name a page's links without unfolding the URL parser;
        `Valid` ties it to `PageLinks`. */
    ghost const pageLinks: string -> Result<seq<string>>

    var visitedUrls: set<string>
    var discoverySequence: seq<string>
    var contentData: seq<ContentRecord>

    constructor(maxDepth: int, maxBreadth: int, fetch: Fetcher, urljoin: Joiner)
      ensures this.maxDepth == maxDepth && this.maxBreadth == maxBreadth
      ensures this.fetch == fetch && this.urljoin == urljoin
      ensures visitedUrls == {} && discoverySequence == [] && contentData == []
      ensures Valid()
    {
      this.maxDepth := maxDepth;
      this.maxBreadth := maxBreadth;
      this.fetch := fetch;
      this.urljoin := urljoin;
      this.pageLinks := url =>
        if fetch(url).Some? then PageLinks(fetch(url).value.hrefs, url, urljoin) else Ok([]);
      visitedUrls := {};
      discoverySequence := [];
      contentData := [];
    }

    // ------------------------------------------------------------ one page

    /** The links of a downloaded page: each href through `normalize_url` and the filter
        of `get_links_and_content`, or the exception one of them raises. */
    ghost function PageLinksOf(url: string): Result<seq<string>> {
      if fetch(url).Some? then PageLinks(fetch(url).value.hrefs, url, urljoin) else Ok([])
    }

    ghost predicate Valid() {
      forall url {:trigger PageLinksOf(url)} :: pageLinks(url) == PageLinksOf(url)
    }

    /** The page downloads as HTML and none of its hrefs makes `normalize_url` raise. */
    ghost predicate LinksOk(url: string) {
      fetch(url).Some? && pageLinks(url).Ok?
    }

    /** The links `get_links_and_content` returns when `visited` is the visited set: the
        valid links outside it, in document order, cut to `max_breadth`. */
    ghost function Links(url: string, visited: set<string>): seq<string>
      requires LinksOk(url)
    {
      SliceTo(FilterOut(pageLinks(url).value, visited), maxBreadth)
    }

    /** Every link a page can contribute, whatever is visited. */
    ghost function CandidateLinks(url: string): set<string> {
      if LinksOk(url) then set l | l in pageLinks(url).value else {}
    }

    /** What the loop body of `crawl` enqueues for the popped entry `e` when `visited` is the
        visited set: nothing beyond `max_depth` or when the links cannot be collected, and
        otherwise the links not yet visited, each once, one level deeper. */
    ghost function Added(e: QueueEntry, visited: set<string>): (r: seq<QueueEntry>)
      ensures forall a :: a in r ==> a.depth == e.depth + 1
    {
      if e.depth <= maxDepth && LinksOk(e.url)
      then AtDepth(Fresh(Links(e.url, visited), visited), e.depth + 1) else []
    }

    lemma AddedOk(e: QueueEntry, visited: set<string>)
      requires e.depth <= maxDepth && LinksOk(e.url)
      ensures Added(e, visited) == AtDepth(Fresh(Links(e.url, visited), visited), e.depth + 1)
    {
    }

    lemma AddedNone(e: QueueEntry, visited: set<string>)
      requires !(e.depth <= maxDepth && LinksOk(e.url))
      ensures Added(e, visited) == []
    {
    }

    lemma LinksAreCandidates(url: string, visited: set<string>)
      requires LinksOk(url)
      ensures forall l :: l in Links(url, visited) ==> l in CandidateLinks(url) && l !in visited
    {
      InPrefix(FilterOut(pageLinks(url).value, visited), Links(url, visited));
    }

    /** The record stored for a downloaded page found as the `index`-th discovery. */
    function RecordFor(e: QueueEntry, index: int): ContentRecord
      requires fetch(e.url).Some?
    {
      var page := fetch(e.url).value;
      ContentRecord(e.url, e.depth, index, if page.title.Some? then page.title.value else NoTitle,
                    SliceTo(ExtractText(page.text), 1000))
    }

    /** The link loop of `get_links_and_content` over the hrefs of the page at `url`: the
        valid links not yet visited, in document order, or `None` when normalising an
        href raises. */
    method CollectLinks(url: string, hrefs: seq<string>) returns (found: Option<seq<string>>)
      ensures found.None? <==> PageLinks(hrefs, url, urljoin).Err?
      ensures found.Some? ==> found.value == FilterOut(PageLinks(hrefs, url, urljoin).value, visitedUrls)
    {
      var links: seq<string> := [];
      var i := 0;
      while i < |hrefs|
        invariant 0 <= i <= |hrefs|
        invariant PageLinks(hrefs[..i], url, urljoin).Ok?
        invariant links == FilterOut(PageLinks(hrefs[..i], url, urljoin).value, visitedUrls)
      {
        var fullUrl := NormalizeUrl(hrefs[i], url, urljoin);
        PageLinksStep(hrefs, i, url, urljoin);
        if fullUrl.Err? {
          PageLinksErrExtends(hrefs, i + 1, url, urljoin);
          return None;
        }
        FilterOutStep(PageLinks(hrefs[..i], url, urljoin).value, Kept(fullUrl.value), visitedUrls);
        if fullUrl.value.Some? && fullUrl.value.value != [] && IsValidUrl(fullUrl.value.value)
          && fullUrl.value.value !in visitedUrls
        {
          links := links + [fullUrl.value.value];
        }
        i := i + 1;
      }
      assert hrefs[..i] == hrefs;
      return Some(links);
    }

    /** `get_links_and_content(url, depth)`. A page that downloads as HTML is stored first,
        with the number of URLs discovered so far as its index; an href whose
        normalisation raises then makes the call return no links, the record staying
        stored. */
    method GetLinksAndContent(url: string, depth: int) returns (links: seq<string>)
      modifies this
      requires Valid()
      ensures visitedUrls == old(visitedUrls) && discoverySequence == old(discoverySequence)
      ensures contentData == old(contentData) +
        (if fetch(url).Some? then [RecordFor(QueueEntry(url, depth), |discoverySequence|)] else [])
      ensures links == if LinksOk(url) then Links(url, visitedUrls) else []
    {
      var page := fetch(url);
      assert pageLinks(url) == PageLinksOf(url);
      if page.None? {
        return [];
      }
      var content := ExtractText(page.value.text);
      var title := if page.value.title.Some? then page.value.title.value else NoTitle;
      contentData := contentData + [ContentRecord(url, depth, |discoverySequence|, title, SliceTo(content, 1000))];
      var found := CollectLinks(url, page.value.hrefs);
      if found.None? {
        return [];
      }
      links := SliceTo(found.value, maxBreadth);
    }

    // ------------------------------------------------------------ the crawl

    /** The enqueue loop of `crawl` for one page: each link not yet visited is appended to
        the queue at `depth` and marked visited in the same step. */
    method EnqueueFresh(links: seq<string>, depth: int, queue: seq<QueueEntry>)
        returns (queue': seq<QueueEntry>, ghost added: seq<QueueEntry>)
      modifies this
      ensures added == AtDepth(Fresh(links, old(visitedUrls)), depth)
      ensures queue' == queue + added
      ensures visitedUrls == old(visitedUrls) + UrlSet(added)
      ensures discoverySequence == old(discoverySequence) && contentData == old(contentData)
    {
      var visited;
      queue', visited, added := EnqueueLinks(links, depth, queue, visitedUrls);
      visitedUrls := visited;
    }

    /** The body of the `while queue` loop of `crawl` for the entry just popped: an entry
        deeper than `max_depth` is dropped; any other joins the discovery sequence, its page
        is fetched and stored, and its links not yet visited are enqueued one level
        deeper. */
    method Visit(e: QueueEntry, queue: seq<QueueEntry>) returns (queue': seq<QueueEntry>, ghost added: seq<QueueEntry>)
      modifies this
      requires Valid()
      ensures added == Added(e, old(visitedUrls))
      ensures queue' == queue + added
      ensures visitedUrls == old(visitedUrls) + UrlSet(added)
      ensures discoverySequence == old(discoverySequence) + (if e.depth <= maxDepth then [e.url] else [])
      ensures contentData == old(contentData) +
        (if e.depth <= maxDepth && fetch(e.url).Some? then [RecordFor(e, |old(discoverySequence)| + 1)] else [])
    {
      if e.depth > maxDepth {
        AddedNone(e, visitedUrls);
        return queue, [];
      }
      discoverySequence := discoverySequence + [e.url];
      ghost var visited0 := visitedUrls;
      var links := GetLinksAndContent(e.url, e.depth);
      assert visitedUrls == visited0;
      queue', added := EnqueueFresh(links, e.depth + 1, queue);
      if LinksOk(e.url) {
        assert links == Links(e.url, visited0);
        AddedOk(e, visited0);
      } else {
        assert links == [];
        AddedNone(e, visited0);
      }
    }

    /** One pass of the `while queue` loop seen from the crawl: the entry popped from the
        front of the queue is visited, and the crawl's bookkeeping invariant survives. */
    method VisitTracked(start: string, queue: seq<QueueEntry>,
                        ghost enqueued: seq<QueueEntry>, ghost log: seq<QueueEntry>)
        returns (queue': seq<QueueEntry>, ghost enqueued': seq<QueueEntry>, ghost log': seq<QueueEntry>,
                 ghost added: seq<QueueEntry>)
      modifies this
      requires Valid() && queue != [] && enqueued == log + queue
      requires CrawlInv(start, enqueued, log, visitedUrls, discoverySequence, contentData)
      requires Tracked(start, enqueued, log)
      ensures enqueued' == enqueued + added && log' == log + [queue[0]] && enqueued' == log' + queue'
      ensures |queue'| == |queue| - 1 + |added|
      ensures CrawlInv(start, enqueued', log', visitedUrls, discoverySequence, contentData)
      ensures Tracked(start, enqueued', log')
      ensures visitedUrls == old(visitedUrls) + UrlSet(added)
      ensures forall a :: a in added ==> a.url !in old(visitedUrls)
    {
      var e := queue[0];
      PopFront(log, queue);
      var rest := queue[1..];
      assert enqueued[..|log|] == log && enqueued[|log|] == e;
      assert e in enqueued;
      ghost var before := (visitedUrls, discoverySequence, contentData);
      queue', added := Visit(e, rest);
      VisitKeeps(start, enqueued, log, before.0, before.1, before.2, e, added,
                 visitedUrls, discoverySequence, contentData);
      TrackedStep(start, enqueued, log, e, before.0, added);
      ConcatAssoc(log + [e], rest, added);
      enqueued' := enqueued + added;
      log' := log + [e];
    }

    /** `crawl(start_url, search_topic)`. The search topic is not used. The ghost result
        is every entry ever enqueued, in order; the deque pops them in that same order, so
        by the end every one of them has been processed. */
    method Crawl(startUrl: string, topic: string) returns (ghost enqueued: seq<QueueEntry>)
      modifies this
      requires Valid()
      ensures CrawlInv(startUrl, enqueued, enqueued, visitedUrls, discoverySequence, contentData)
      ensures enqueued == Expand(startUrl, enqueued)
      ensures DepthsSorted(enqueued)
    {
      visitedUrls := {};
      discoverySequence := [];
      contentData := [];
      var queue := [QueueEntry(startUrl, 0)];
      visitedUrls := visitedUrls + {startUrl};
      enqueued := queue;
      ghost var log: seq<QueueEntry> := [];
      ghost var bound := Reach.Within(startUrl, CandidateLinks, DepthBound());
      CrawlStarts(startUrl);
      assert visitedUrls == {startUrl};
      assert enqueued == log + queue;
      while queue != []
        invariant enqueued == log + queue
        invariant CrawlInv(startUrl, enqueued, log, visitedUrls, discoverySequence, contentData)
        invariant Tracked(startUrl, enqueued, log)
        invariant visitedUrls <= bound
        decreases |bound - visitedUrls|, |queue|
      {
        ghost var visited0 := visitedUrls;
        ghost var pending := |queue|;
        ghost var added;
        queue, enqueued, log, added := VisitTracked(startUrl, queue, enqueued, log);
        InvBounded(startUrl, enqueued, log, visitedUrls, discoverySequence, contentData);
        Progress(bound, visited0, visitedUrls, added, pending, |queue|);
      }
      assert log + [] == log;
    }

    /** The entries ever enqueued once those of `log` have been popped, in order: the
        start entry, then what each popped entry's visit enqueued against the visited set
        of its turn, which is exactly the URLs enqueued before it. */
    ghost function Expand(start: string, log: seq<QueueEntry>): (r: seq<QueueEntry>)
      ensures |r| > 0 && r[0] == QueueEntry(start, 0)
    {
      if log == [] then [QueueEntry(start, 0)]
      else
        var prev := Expand(start, log[..|log| - 1]);
        prev + Added(log[|log| - 1], UrlSet(prev))
    }

    lemma ExpandSnoc(start: string, log: seq<QueueEntry>, e: QueueEntry)
      ensures Expand(start, log + [e]) == Expand(start, log) + Added(e, UrlSet(Expand(start, log)))
    {
      assert (log + [e])[..|log|] == log;
    }

    /** The breadth-first order of the queue: the entries ever enqueued have nondecreasing
        depths, none deeper than one level below the last entry popped. */
    ghost predicate Layered(enqueued: seq<QueueEntry>, log: seq<QueueEntry>) {
      && DepthsSorted(enqueued)
      && forall x :: x in enqueued ==> x.depth <= if log == [] then 0 else log[|log| - 1].depth + 1
    }

    /** The entries ever enqueued are those the popped entries' visits produced, in
        breadth-first order. */
    ghost predicate Tracked(start: string, enqueued: seq<QueueEntry>, log: seq<QueueEntry>) {
      enqueued == Expand(start, log) && Layered(enqueued, log)
    }

    lemma TrackedStep(start: string, enqueued: seq<QueueEntry>, log: seq<QueueEntry>, e: QueueEntry,
                      visited: set<string>, added: seq<QueueEntry>)
      requires visited == UrlSet(enqueued) && Tracked(start, enqueued, log)
      requires |log| < |enqueued| && enqueued[..|log|] == log && enqueued[|log|] == e && 0 <= e.depth
      requires added == Added(e, visited)
      ensures Tracked(start, enqueued + added, log + [e])
    {
      ExpandSnoc(start, log, e);
      LayeredStep(enqueued, log, e, added);
    }

    lemma LayeredStep(enqueued: seq<QueueEntry>, log: seq<QueueEntry>, e: QueueEntry, added: seq<QueueEntry>)
      requires |log| < |enqueued| && enqueued[..|log|] == log && enqueued[|log|] == e && 0 <= e.depth
      requires Layered(enqueued, log)
      requires forall a :: a in added ==> a.depth == e.depth + 1
      ensures Layered(enqueued + added, log + [e])
    {
      var all := enqueued + added;
      if log != [] {
        assert log[|log| - 1] == enqueued[|log| - 1];
      }
      forall x | x in enqueued
        ensures x.depth <= e.depth + 1
      {
      }
      forall i, j | 0 <= i < j < |all|
        ensures all[i].depth <= all[j].depth
      {
        if j >= |enqueued| {
          assert all[j] in added;
          if i < |enqueued| {
            assert all[i] in enqueued;
          } else {
            assert all[i] in added;
          }
        }
      }
      forall x | x in all
        ensures x.depth <= e.depth + 1
      {
        if x !in enqueued {
          assert x in added;
        }
      }
      assert (log + [e])[|log|] == e;
    }

    /** Popping the front of the queue moves one entry from the pending part of the
        entries ever enqueued to the processed part. */
    lemma PopFront(log: seq<QueueEntry>, queue: seq<QueueEntry>)
      requires queue != []
      ensures log + queue == (log + [queue[0]]) + queue[1..]
      ensures (log + queue)[|log|] == queue[0]
    {
      assert queue == [queue[0]] + queue[1..];
    }

    // ------------------------------------------------------------ what a crawl has done

    /** The entries of `log` that pass the depth test: the ones `crawl` adds to the
        discovery sequence, in order. */
    function Discovered(log: seq<QueueEntry>): (r: seq<QueueEntry>)
      ensures forall k :: 0 <= k < |r| ==> r[k].depth <= maxDepth
      ensures |r| <= |log|
    {
      if log == [] then []
      else Discovered(log[..|log| - 1]) + (if log[|log| - 1].depth <= maxDepth then [log[|log| - 1]] else [])
    }

    /** The records `crawl` stores for the pages it discovered, in discovery order: one
        for each page that downloads as HTML, whose index counts the discoveries up to
        and including its own. */
    function Records(found: seq<QueueEntry>): seq<ContentRecord> {
      if found == [] then []
      else
        var n := |found| - 1;
        Records(found[..n]) + (if fetch(found[n].url).Some? then [RecordFor(found[n], n + 1)] else [])
    }

    lemma LogStep(log: seq<QueueEntry>, e: QueueEntry)
      ensures Discovered(log + [e]) == Discovered(log) + (if e.depth <= maxDepth then [e] else [])
      ensures Urls(Discovered(log + [e])) == Urls(Discovered(log)) + (if e.depth <= maxDepth then [e.url] else [])
      ensures Records(Discovered(log + [e])) == Records(Discovered(log)) +
        (if e.depth <= maxDepth && fetch(e.url).Some? then [RecordFor(e, |Urls(Discovered(log))| + 1)] else [])
    {
      assert (log + [e])[..|log|] == log;
      var f := Discovered(log);
      if e.depth <= maxDepth {
        assert (f + [e])[..|f|] == f;
        UrlsSnoc(f, e);
      } else {
        assert f + [] == f;
      }
    }

    /** The largest depth an entry can have: `max_depth + 1`, since links found at
        `max_depth` are still enqueued, or 0 when `max_depth` is negative. */
    function DepthBound(): (d: nat)
      ensures maxDepth >= 0 ==> d == maxDepth + 1
    {
      if maxDepth >= 0 then maxDepth + 1 else 0
    }

    /** An entry sits at a depth the crawl allows and its URL is reachable from the start
        in that many link steps. */
    ghost predicate Placed(e: QueueEntry, start: string) {
      && 0 <= e.depth <= DepthBound()
      && e.url in Reach.Within(start, CandidateLinks, e.depth)
    }

    /** What holds between two passes of the crawl loop: the start entry heads the entries
        ever enqueued, no URL was enqueued twice, the visited set is exactly their URLs,
        and the discovery sequence and records are those of the entries in `log`, the ones
        popped so far. */
    ghost predicate CrawlInv(start: string, enqueued: seq<QueueEntry>, log: seq<QueueEntry>,
                             visited: set<string>, discovery: seq<string>, content: seq<ContentRecord>)
    {
      && |enqueued| > 0 && enqueued[0] == QueueEntry(start, 0)
      && UrlsDistinct(enqueued) && visited == UrlSet(enqueued)
      && (forall x :: x in enqueued ==> Placed(x, start))
      && discovery == Urls(Discovered(log)) && content == Records(Discovered(log))
    }

    lemma AddedPlaced(start: string, e: QueueEntry, visited: set<string>, added: seq<QueueEntry>)
      requires Placed(e, start) && LinksOk(e.url) && e.depth <= maxDepth
      requires added == AtDepth(Fresh(Links(e.url, visited), visited), e.depth + 1)
      ensures UrlsDistinct(added)
      ensures forall a :: a in added ==> Placed(a, start) && a.url !in visited
    {
      var links := Links(e.url, visited);
      var newLinks := Fresh(links, visited);
      FreshFacts(links, visited);
      LinksAreCandidates(e.url, visited);
      AtDepthFacts(newLinks, e.depth + 1);
      forall a | a in added
        ensures Placed(a, start) && a.url !in visited
      {
        Reach.WithinStep(start, CandidateLinks, e.depth, e.url, a.url);
      }
    }

    lemma VisitKeeps(start: string, enqueued: seq<QueueEntry>, log: seq<QueueEntry>,
                     visited: set<string>, discovery: seq<string>, content: seq<ContentRecord>,
                     e: QueueEntry, added: seq<QueueEntry>,
                     visited': set<string>, discovery': seq<string>, content': seq<ContentRecord>)
      requires CrawlInv(start, enqueued, log, visited, discovery, content)
      requires e in enqueued
      requires added == Added(e, visited)
      requires visited' == visited + UrlSet(added)
      requires discovery' == discovery + (if e.depth <= maxDepth then [e.url] else [])
      requires content' == content +
        (if e.depth <= maxDepth && fetch(e.url).Some? then [RecordFor(e, |discovery| + 1)] else [])
      ensures CrawlInv(start, enqueued + added, log + [e], visited', discovery', content')
      ensures forall a :: a in added ==> a.url !in visited
    {
      QueueKeeps(start, enqueued, visited, e, added);
      LogKeeps(log, e, discovery, content);
    }

    /** The queue half of `VisitKeeps`: the entries enqueued by the visit keep the start
        entry in front, the URLs distinct and placed, and the visited set their URLs. */
    lemma QueueKeeps(start: string, enqueued: seq<QueueEntry>, visited: set<string>,
                     e: QueueEntry, added: seq<QueueEntry>)
      requires |enqueued| > 0 && enqueued[0] == QueueEntry(start, 0)
      requires UrlsDistinct(enqueued) && visited == UrlSet(enqueued)
      requires forall x :: x in enqueued ==> Placed(x, start)
      requires e in enqueued
      requires added == Added(e, visited)
      ensures |enqueued + added| > 0 && (enqueued + added)[0] == QueueEntry(start, 0)
      ensures UrlsDistinct(enqueued + added)
      ensures visited + UrlSet(added) == UrlSet(enqueued + added)
      ensures forall x :: x in enqueued + added ==> Placed(x, start)
      ensures forall a :: a in added ==> a.url !in visited
    {
      if added != [] {
        AddedPlaced(start, e, visited, added);
        DistinctAppend(enqueued, added);
      } else {
        assert enqueued + added == enqueued;
      }
      UrlSetAppend(enqueued, added);
      assert (enqueued + added)[0] == enqueued[0];
    }

    /** The log half of `VisitKeeps`: the discovery sequence and the records grow as
        those of the log with the visited entry appended. */
    lemma LogKeeps(log: seq<QueueEntry>, e: QueueEntry, discovery: seq<string>, content: seq<ContentRecord>)
      requires discovery == Urls(Discovered(log)) && content == Records(Discovered(log))
      ensures discovery + (if e.depth <= maxDepth then [e.url] else []) == Urls(Discovered(log + [e]))
      ensures content + (if e.depth <= maxDepth && fetch(e.url).Some? then [RecordFor(e, |discovery| + 1)] else [])
        == Records(Discovered(log + [e]))
    {
      LogStep(log, e);
      var grown := Records(Discovered(log + [e]));
      assert grown == Records(Discovered(log + [e]));
    }

    /** The state `crawl` resets to satisfies the invariant. */
    lemma CrawlStarts(start: string)
      ensures CrawlInv(start, [QueueEntry(start, 0)], [], {start}, [], [])
      ensures Tracked(start, [QueueEntry(start, 0)], [])
      ensures {start} <= Reach.Within(start, CandidateLinks, DepthBound())
    {
      Reach.WithinGrows(start, CandidateLinks, 0, DepthBound());
      assert Placed(QueueEntry(start, 0), start);
      assert UrlSet([QueueEntry(start, 0)]) == {start} by {
        assert QueueEntry(start, 0) in [QueueEntry(start, 0)];
      }
    }

    /** Every URL a crawl state has visited lies within the reach bound. */
    /** One turn of the crawl loop either visits a URL for the first time or shortens the
        queue, which is why the loop ends. */
    lemma Progress(bound: set<string>, visited0: set<string>, visited: set<string>,
                   added: seq<QueueEntry>, pending: nat, remaining: nat)
      requires visited <= bound
      requires visited == visited0 + UrlSet(added)
      requires forall a :: a in added ==> a.url !in visited0
      requires remaining == pending - 1 + |added|
      ensures |bound - visited| < |bound - visited0| || (visited == visited0 && remaining < pending)
    {
      if added != [] {
        assert added[0] in added;
        assert added[0].url in visited - visited0;
        Reach.RemainderShrinks(bound, visited0, visited);
      }
    }

    lemma InvBounded(start: string, enqueued: seq<QueueEntry>, log: seq<QueueEntry>,
                     visited: set<string>, discovery: seq<string>, content: seq<ContentRecord>)
      requires CrawlInv(start, enqueued, log, visited, discovery, content)
      ensures visited <= Reach.Within(start, CandidateLinks, DepthBound())
    {
      forall x | x in enqueued
        ensures x.url in Reach.Within(start, CandidateLinks, DepthBound())
      {
        Reach.WithinGrows(start, CandidateLinks, x.depth, DepthBound());
      }
    }

    /** The discovered entries of a log are exactly its entries within `max_depth`, in
        order, so they keep the URLs of a log distinct. */
    lemma {:induction false} DiscoveredFacts(log: seq<QueueEntry>)
      ensures forall x :: x in Discovered(log) <==> x in log && x.depth <= maxDepth
      ensures UrlsDistinct(log) ==> UrlsDistinct(Discovered(log))
    {
      if log != [] {
        var n := |log| - 1;
        var prefix := log[..n];
        DiscoveredFacts(prefix);
        var f := Discovered(prefix);
        assert forall x :: x in log <==> x in prefix || x == log[n];
        if UrlsDistinct(log) {
          assert UrlsDistinct(prefix);
          forall x | x in f
            ensures x.url != log[n].url
          {
            var k :| 0 <= k < n && prefix[k] == x;
            assert log[k] == x;
          }
          if log[n].depth <= maxDepth {
            DistinctAppend(f, [log[n]]);
          }
        }
      }
    }

    /** `r` is the record of a downloaded page of `found`: it names the page through a
        1-based discovery index and carries the page's URL and depth, the page's title
        or the fallback, and at most 1000 characters of its text. */
    ghost predicate TiedTo(r: ContentRecord, found: seq<QueueEntry>) {
      && 1 <= r.discoveryIndex <= |found|
      && r.url == found[r.discoveryIndex - 1].url && r.depth == found[r.discoveryIndex - 1].depth
      && fetch(r.url).Some?
      && r.title == (if fetch(r.url).value.title.Some? then fetch(r.url).value.title.value else NoTitle)
      && |r.content| <= 1000
    }

    /** Appending at most one record for the last page of `found`, indexed at its
        1-based position, to records tied to the pages before it keeps every record
        tied to its page and the indexes increasing. */
    lemma TiedSnoc(rs: seq<ContentRecord>, last: seq<ContentRecord>, found: seq<QueueEntry>)
      requires found != []
      requires forall k :: 0 <= k < |rs| ==> TiedTo(rs[k], found[..|found| - 1])
      requires forall i, j :: 0 <= i < j < |rs| ==> rs[i].discoveryIndex < rs[j].discoveryIndex
      requires last == [] || (|last| == 1 && last[0].discoveryIndex == |found| && TiedTo(last[0], found))
      ensures forall k :: 0 <= k < |rs + last| ==> TiedTo((rs + last)[k], found)
      ensures forall i, j :: 0 <= i < j < |rs + last| ==>
        (rs + last)[i].discoveryIndex < (rs + last)[j].discoveryIndex
    {
      var all := rs + last;
      var n := |found| - 1;
      forall k | 0 <= k < |all|
        ensures TiedTo(all[k], found)
      {
        if k < |rs| {
          assert all[k] == rs[k];
          assert found[..n][rs[k].discoveryIndex - 1] == found[rs[k].discoveryIndex - 1];
        }
      }
      forall i, j | 0 <= i < j < |all|
        ensures all[i].discoveryIndex < all[j].discoveryIndex
      {
        assert all[i] == rs[i];
        if j < |rs| {
          assert all[j] == rs[j];
        }
      }
    }

    /** What the stored records say about the discoveries that produced them: each is
        tied to its page (`TiedTo`), and the discovery indexes increase. */
    lemma {:induction false} RecordsTiedToDiscovery(found: seq<QueueEntry>)
      ensures |Records(found)| <= |found|
      ensures forall k :: 0 <= k < |Records(found)| ==> TiedTo(Records(found)[k], found)
      ensures forall i, j :: 0 <= i < j < |Records(found)| ==>
        Records(found)[i].discoveryIndex < Records(found)[j].discoveryIndex
    {
      if found != [] {
        var n := |found| - 1;
        var prefix := found[..n];
        RecordsTiedToDiscovery(prefix);
        var last := if fetch(found[n].url).Some? then [RecordFor(found[n], n + 1)] else [];
        assert Records(found) == Records(prefix) + last;
        TiedSnoc(Records(prefix), last, found);
      }
    }

    /** What a finished crawl has done. No URL is discovered twice. Every entry ever
        enqueued has a depth between 0 and `max_depth + 1`, and the ones within `max_depth`
        are exactly the discovered ones, so only the entries one level too deep are
        dropped. Each record names its URL's 1-based position in the discovery sequence
        and holds at most 1000 characters. */
    lemma CrawlOutcome(start: string, enqueued: seq<QueueEntry>,
                       visited: set<string>, discovery: seq<string>, content: seq<ContentRecord>)
      requires CrawlInv(start, enqueued, enqueued, visited, discovery, content)
      ensures Distinct(discovery)
      ensures forall x :: x in enqueued ==> 0 <= x.depth && (maxDepth >= 0 ==> x.depth <= maxDepth + 1)
      ensures forall x :: x in Discovered(enqueued) <==> x in enqueued && x.depth <= maxDepth
      ensures discovery == Urls(Discovered(enqueued))
      ensures forall u :: u in discovery ==> u in visited
      ensures forall r :: r in content ==>
        1 <= r.discoveryIndex <= |discovery| && discovery[r.discoveryIndex - 1] == r.url && |r.content| <= 1000
    {
      DiscoveredFacts(enqueued);
      var found := Discovered(enqueued);
      DistinctUrls(found);
      RecordsTiedToDiscovery(found);
      forall u | u in discovery
        ensures u in visited
      {
        var k :| 0 <= k < |discovery| && discovery[k] == u;
        assert found[k] in enqueued;
      }
      forall r | r in content
        ensures 1 <= r.discoveryIndex <= |discovery| && discovery[r.discoveryIndex - 1] == r.url
        ensures |r.content| <= 1000
      {
        var k :| 0 <= k < |content| && content[k] == r;
      }
    }

    // ------------------------------------------------------------ what a crawl has covered

    /** Each link the visit of `e` collects is visited afterwards: it was visited already,
        or the visit enqueues it one level deeper. */
    lemma LinksCovered(e: QueueEntry, visited: set<string>)
      requires e.depth <= maxDepth && LinksOk(e.url)
      ensures forall l :: l in Links(e.url, visited) ==>
        l in visited || QueueEntry(l, e.depth + 1) in Added(e, visited)
    {
      var links := Links(e.url, visited);
      var newLinks := Fresh(links, visited);
      FreshFacts(links, visited);
      AddedOk(e, visited);
      forall l | l in links && l !in visited
        ensures QueueEntry(l, e.depth + 1) in Added(e, visited)
      {
        var i :| 0 <= i < |newLinks| && newLinks[i] == l;
        assert AtDepth(newLinks, e.depth + 1)[i] == QueueEntry(l, e.depth + 1);
      }
    }

    /** No page holds more valid links than `max_breadth`, so the cut of
        `get_links_and_content` never drops one. */
    ghost predicate BreadthSuffices() {
      forall url :: LinksOk(url) ==> |pageLinks(url).value| <= maxBreadth
    }

    /** When the cut drops nothing, the visit of `e` covers every link of its page. */
    lemma CandidatesCovered(e: QueueEntry, visited: set<string>)
      requires e.depth <= maxDepth && LinksOk(e.url) && |pageLinks(e.url).value| <= maxBreadth
      ensures forall l :: l in CandidateLinks(e.url) ==>
        l in visited || QueueEntry(l, e.depth + 1) in Added(e, visited)
    {
      var all := FilterOut(pageLinks(e.url).value, visited);
      assert Links(e.url, visited) == all;
      LinksCovered(e, visited);
    }

    lemma ExpandAt(start: string, log: seq<QueueEntry>, k: nat)
      requires k < |log|
      ensures Expand(start, log[..k + 1]) == Expand(start, log[..k]) + Added(log[k], UrlSet(Expand(start, log[..k])))
    {
      assert log[..k + 1] == log[..k] + [log[k]];
      ExpandSnoc(start, log[..k], log[k]);
    }

    /** Popping more entries only appends to the entries enqueued. */
    lemma {:induction false} ExpandPrefix(start: string, log: seq<QueueEntry>, k: nat)
      requires k <= |log|
      ensures Expand(start, log[..k]) <= Expand(start, log)
      decreases |log| - k
    {
      if k < |log| {
        ExpandPrefix(start, log, k + 1);
        ExpandAt(start, log, k);
        var short := Expand(start, log[..k]);
        PrefixConcat(short, Added(log[k], UrlSet(short)));
        PrefixTrans(short, Expand(start, log[..k + 1]), Expand(start, log));
      } else {
        assert log[..k] == log;
      }
    }

    /** Every entry enqueued while `log` is popped is the start entry or sits one level
        below a popped entry, so no deeper than `d` when every popped entry is above `d`. */
    lemma {:induction false} ExpandBelow(start: string, log: seq<QueueEntry>, d: int)
      requires 0 <= d
      requires forall j :: 0 <= j < |log| ==> log[j].depth + 1 <= d
      ensures forall x :: x in Expand(start, log) ==> x.depth <= d
      decreases |log|
    {
      if log != [] {
        var n := |log| - 1;
        ExpandBelow(start, log[..n], d);
        ExpandSnoc(start, log[..n], log[n]);
        assert log[..n] + [log[n]] == log;
      }
    }

    /** Every link the crawl collected for a popped page within `max_depth`, against the
        visited set of that page's turn, has been enqueued. */
    lemma LinksFollowed(start: string, log: seq<QueueEntry>, k: nat)
      requires k < |log| && log[k].depth <= maxDepth && LinksOk(log[k].url)
      ensures forall l :: l in Links(log[k].url, UrlSet(Expand(start, log[..k]))) ==>
        l in UrlSet(Expand(start, log))
    {
      var before := Expand(start, log[..k]);
      var after := Expand(start, log[..k + 1]);
      ExpandAt(start, log, k);
      ExpandPrefix(start, log, k + 1);
      UrlSetPrefix(before, after);
      UrlSetPrefix(after, Expand(start, log));
      LinksCovered(log[k], UrlSet(before));
      forall l | l in Links(log[k].url, UrlSet(before))
        ensures l in UrlSet(Expand(start, log))
      {
        if l !in UrlSet(before) {
          var a := QueueEntry(l, log[k].depth + 1);
          assert a in after;
        }
      }
    }

    /** `u` is enqueued at a depth of at most `d`. */
    ghost predicate Reached(enqueued: seq<QueueEntry>, u: string, d: int) {
      exists x :: x in enqueued && x.url == u && x.depth <= d
    }

    /** A URL enqueued before the turn of the `k`-th popped entry sits at most one level
        below it, by breadth-first order. */
    lemma EarlierReached(start: string, enqueued: seq<QueueEntry>, k: nat, u: string)
      requires enqueued == Expand(start, enqueued) && DepthsSorted(enqueued)
      requires k < |enqueued| && u in UrlSet(Expand(start, enqueued[..k]))
      ensures Reached(enqueued, u, enqueued[k].depth + 1)
    {
      var before := Expand(start, enqueued[..k]);
      ExpandPrefix(start, enqueued, k);
      assert enqueued[0].depth <= enqueued[k].depth;
      ExpandBelow(start, enqueued[..k], enqueued[k].depth + 1);
      PrefixReached(before, enqueued, u, enqueued[k].depth + 1);
    }

    lemma PrefixReached(before: seq<QueueEntry>, enqueued: seq<QueueEntry>, u: string, d: int)
      requires before <= enqueued && u in UrlSet(before)
      requires forall x :: x in before ==> x.depth <= d
      ensures Reached(enqueued, u, d)
    {
      UrlSetPrefix(before, enqueued);
      var y :| y in before && y.url == u;
    }

    /** A URL the turn of the `k`-th popped entry enqueues sits one level below it. */
    lemma AddedReached(start: string, enqueued: seq<QueueEntry>, k: nat, u: string)
      requires enqueued == Expand(start, enqueued)
      requires k < |enqueued|
      requires QueueEntry(u, enqueued[k].depth + 1) in Added(enqueued[k], UrlSet(Expand(start, enqueued[..k])))
      ensures Reached(enqueued, u, enqueued[k].depth + 1)
    {
      var after := Expand(start, enqueued[..k + 1]);
      ExpandAt(start, enqueued, k);
      ExpandPrefix(start, enqueued, k + 1);
      UrlSetPrefix(after, enqueued);
      assert QueueEntry(u, enqueued[k].depth + 1) in after;
    }

    /** One link step of a finished crawl: a link of the page of the `k`-th entry, popped
        within `max_depth`, is itself enqueued at most one level below that entry, as
        breadth-first order promises. */
    lemma LinkReached(start: string, enqueued: seq<QueueEntry>, k: nat, u: string)
      requires enqueued == Expand(start, enqueued) && DepthsSorted(enqueued)
      requires k < |enqueued| && enqueued[k].depth <= maxDepth
      requires u in CandidateLinks(enqueued[k].url) && |pageLinks(enqueued[k].url).value| <= maxBreadth
      ensures Reached(enqueued, u, enqueued[k].depth + 1)
    {
      var visited := UrlSet(Expand(start, enqueued[..k]));
      CandidatesCovered(enqueued[k], visited);
      if u in visited {
        EarlierReached(start, enqueued, k, u);
      } else {
        AddedReached(start, enqueued, k, u);
      }
    }

    /** Every candidate link of an enqueued page within `max_depth` is itself enqueued at
        most one level below it. */
    ghost predicate LinksClosed(enqueued: seq<QueueEntry>) {
      forall x, u :: x in enqueued && x.depth <= maxDepth && u in CandidateLinks(x.url) ==>
        Reached(enqueued, u, x.depth + 1)
    }

    /** A finished crawl over pages with no more valid links than `max_breadth` is closed
        under following links. */
    lemma FinishedClosed(start: string, enqueued: seq<QueueEntry>)
      requires enqueued == Expand(start, enqueued) && DepthsSorted(enqueued)
      requires BreadthSuffices()
      ensures LinksClosed(enqueued)
    {
      forall x, u | x in enqueued && x.depth <= maxDepth && u in CandidateLinks(x.url)
        ensures Reached(enqueued, u, x.depth + 1)
      {
        var k :| 0 <= k < |enqueued| && enqueued[k] == x;
        assert LinksOk(x.url);
        LinkReached(start, enqueued, k, u);
      }
    }

    /** An enqueued list that holds the start at depth 0 and is closed under following
        links holds every URL reachable from the start within `d` link steps, at a depth
        of at most `d`. */
    lemma {:induction false} CrawlReachesAll(start: string, enqueued: seq<QueueEntry>, d: nat)
      requires QueueEntry(start, 0) in enqueued && LinksClosed(enqueued)
      requires d <= DepthBound()
      ensures forall u :: u in Reach.Within(start, CandidateLinks, d) ==> Reached(enqueued, u, d)
      decreases d
    {
      if d > 0 {
        CrawlReachesAll(start, enqueued, d - 1);
        ReachLevel(start, enqueued, d - 1, d);
      }
    }

    /** Every URL reachable within `d` steps being enqueued by depth `d`, every URL
        reachable within `next == d + 1` steps is enqueued by depth `next`. */
    lemma ReachLevel(start: string, enqueued: seq<QueueEntry>, d: nat, next: nat)
      requires LinksClosed(enqueued) && d < DepthBound() && next == d + 1
      requires forall w :: w in Reach.Within(start, CandidateLinks, d) ==> Reached(enqueued, w, d)
      ensures forall u :: u in Reach.Within(start, CandidateLinks, next) ==> Reached(enqueued, u, next)
    {
      forall u | u in Reach.Within(start, CandidateLinks, next)
        ensures Reached(enqueued, u, next)
      {
        ReachStep(start, enqueued, d, u);
      }
    }

    /** The induction step of `CrawlReachesAll`: a URL reachable in `d + 1` steps is
        reachable in `d`, or is a link of a page that is. */
    lemma ReachStep(start: string, enqueued: seq<QueueEntry>, d: nat, u: string)
      requires LinksClosed(enqueued) && d < DepthBound()
      requires forall w :: w in Reach.Within(start, CandidateLinks, d) ==> Reached(enqueued, w, d)
      requires u in Reach.Within(start, CandidateLinks, d + 1)
      ensures Reached(enqueued, u, d + 1)
    {
      var prev := Reach.Within(start, CandidateLinks, d);
      if u in prev {
        var x :| x in enqueued && x.url == u && x.depth <= d;
      } else {
        assert u in set v, l | v in prev && l in CandidateLinks(v) :: l;
        var v :| v in prev && u in CandidateLinks(v);
        var x :| x in enqueued && x.url == v && x.depth <= d;
        assert Reached(enqueued, u, x.depth + 1);
      }
    }

    /** A finished crawl over pages with no more valid links than `max_breadth` visits
        exactly the URLs reachable from the start within `max_depth + 1` link steps. */
    lemma CrawlComplete(start: string, enqueued: seq<QueueEntry>,
                        visited: set<string>, discovery: seq<string>, content: seq<ContentRecord>)
      requires CrawlInv(start, enqueued, enqueued, visited, discovery, content)
      requires enqueued == Expand(start, enqueued) && DepthsSorted(enqueued)
      requires BreadthSuffices()
      ensures visited == Reach.Within(start, CandidateLinks, DepthBound())
    {
      InvBounded(start, enqueued, enqueued, visited, discovery, content);
      FinishedClosed(start, enqueued);
      assert enqueued[0] in enqueued;
      ClosedCovers(start, enqueued, visited);
    }

    lemma ClosedCovers(start: string, enqueued: seq<QueueEntry>, visited: set<string>)
      requires QueueEntry(start, 0) in enqueued && LinksClosed(enqueued)
      requires visited == UrlSet(enqueued)
      ensures Reach.Within(start, CandidateLinks, DepthBound()) <= visited
    {
      CrawlReachesAll(start, enqueued, DepthBound());
      forall u | u in Reach.Within(start, CandidateLinks, DepthBound())
        ensures u in visited
      {
        var x :| x in enqueued && x.url == u && x.depth <= DepthBound();
      }
    }

    /** Under the same condition each URL is enqueued at its link distance from the start:
        reachable in that many steps and in no fewer. */
    lemma CrawlDepthIsDistance(start: string, enqueued: seq<QueueEntry>,
                               visited: set<string>, discovery: seq<string>, content: seq<ContentRecord>)
      requires CrawlInv(start, enqueued, enqueued, visited, discovery, content)
      requires enqueued == Expand(start, enqueued) && DepthsSorted(enqueued)
      requires BreadthSuffices()
      ensures forall x :: x in enqueued ==> x.url in Reach.Within(start, CandidateLinks, x.depth)
      ensures forall x :: x in enqueued && x.depth > 0 ==> x.url !in Reach.Within(start, CandidateLinks, x.depth - 1)
    {
      FinishedClosed(start, enqueued);
      assert enqueued[0] in enqueued;
      ClosedNotShallower(start, enqueued);
    }

    lemma ClosedNotShallower(start: string, enqueued: seq<QueueEntry>)
      requires QueueEntry(start, 0) in enqueued && LinksClosed(enqueued) && UrlsDistinct(enqueued)
      requires forall x :: x in enqueued ==> x.depth <= DepthBound()
      ensures forall x :: x in enqueued && x.depth > 0 ==> x.url !in Reach.Within(start, CandidateLinks, x.depth - 1)
    {
      forall x | x in enqueued && x.depth > 0
        ensures x.url !in Reach.Within(start, CandidateLinks, x.depth - 1)
      {
        ReachedIfWithin(start, enqueued, x.depth - 1, x.url);
        NotShallower(enqueued, x, x.depth - 1);
      }
    }

    /** With distinct URLs, an entry is the only one for its URL, so its URL is not
        enqueued any shallower. */
    lemma NotShallower(enqueued: seq<QueueEntry>, x: QueueEntry, d: int)
      requires UrlsDistinct(enqueued) && x in enqueued && d < x.depth
      ensures !Reached(enqueued, x.url, d)
    {
      forall y | y in enqueued && y.url == x.url
        ensures y == x
      {
        SameUrlSameEntry(enqueued, x, y);
      }
    }

    lemma ReachedIfWithin(start: string, enqueued: seq<QueueEntry>, d: nat, u: string)
      requires QueueEntry(start, 0) in enqueued && LinksClosed(enqueued)
      requires d <= DepthBound()
      ensures u in Reach.Within(start, CandidateLinks, d) ==> Reached(enqueued, u, d)
    {
      CrawlReachesAll(start, enqueued, d);
    }

    /** Under the same condition the discovery sequence holds exactly the URLs reachable
        from the start within `max_depth` link steps. */
    lemma CrawlDiscoversReachable(start: string, enqueued: seq<QueueEntry>,
                                  visited: set<string>, discovery: seq<string>, content: seq<ContentRecord>)
      requires CrawlInv(start, enqueued, enqueued, visited, discovery, content)
      requires enqueued == Expand(start, enqueued) && DepthsSorted(enqueued)
      requires BreadthSuffices() && maxDepth >= 0
      ensures forall u :: u in discovery <==> u in Reach.Within(start, CandidateLinks, maxDepth)
    {
      FinishedClosed(start, enqueued);
      assert enqueued[0] in enqueued;
      ClosedDiscovers(start, enqueued, discovery);
    }

    lemma ClosedDiscovers(start: string, enqueued: seq<QueueEntry>, discovery: seq<string>)
      requires QueueEntry(start, 0) in enqueued && LinksClosed(enqueued) && maxDepth >= 0
      requires forall x :: x in enqueued ==> Placed(x, start)
      requires discovery == Urls(Discovered(enqueued))
      ensures forall u :: u in discovery <==> u in Reach.Within(start, CandidateLinks, maxDepth)
    {
      var found := Discovered(enqueued);
      DiscoveredFacts(enqueued);
      CrawlReachesAll(start, enqueued, maxDepth);
      forall u | u in discovery
        ensures u in Reach.Within(start, CandidateLinks, maxDepth)
      {
        var k :| 0 <= k < |discovery| && discovery[k] == u;
        assert found[k] in found;
        Reach.WithinGrows(start, CandidateLinks, found[k].depth, maxDepth);
      }
      forall u | u in Reach.Within(start, CandidateLinks, maxDepth)
        ensures u in discovery
      {
        var x :| x in enqueued && x.url == u && x.depth <= maxDepth;
        assert x in found;
        var k :| 0 <= k < |found| && found[k] == x;
        assert discovery[k] == u;
      }
    }

    // ------------------------------------------------------------ search_content

    /** `search_content(search_topic)`: the stored records whose content or title
        contains the topic, ignoring case, in their stored order. */
    method SearchContent(topic: string) returns (results: seq<ContentRecord>)
      ensures contentData == [] ==> results == []
      ensures results == MatchingRecords(contentData, topic)
    {
      if contentData == [] {
        return [];
      }
      results := [];
      var i := 0;
      while i < |contentData|
        invariant 0 <= i <= |contentData|
        invariant results == MatchingRecords(contentData[..i], topic)
      {
        var item := contentData[i];
        assert contentData[..i + 1][..i] == contentData[..i];
        if Contains(Lower(item.content), Lower(topic)) || Contains(Lower(item.title), Lower(topic)) {
          results := results + [item];
        }
        i := i + 1;
      }
      assert contentData[..i] == contentData;
    }
  }
}
