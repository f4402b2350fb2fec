/** `EnhancedWebScraper` (scrapeInternet_3.py): a breadth-first crawl that fetches the
    queue in batches of at most `concurrent_requests` pages. Only the fetches run on worker
    threads; every change to the queue, the visited set, the discovery sequence and the
    content records happens in one aggregation loop, which here is sequential and takes
    the results of a batch in an arbitrary order, as `as_completed` hands them over. */
module EnhancedScraper {
  import opened Wrappers
  import opened PyText
  import opened EnhancedText
  import Reach
  import opened Urllib
  import opened CrawlQueue

  /** What the HTTP layer and the HTML parser yield for a page that downloads with a
      success status and an HTML content type: the text of the page without scripts,
      styles and head, and the `href` of every `<a>` in document order. */
  datatype HtmlPage = HtmlPage(text: string, hrefs: seq<string>)

  /** The download of a URL; `None` for a request error, an error status or a content
      type without `text/html`. */
  type Fetcher = string -> Option<HtmlPage>

  /** The dictionary `fetch_url` returns. */
  datatype FetchResult = FetchResult(url: string, depth: int, title: string, content: string, links: seq<string>)

  /** One entry of `content_data`. */
  datatype ContentRecord = ContentRecord(
    url: string, depth: int, discoveryIndex: int, title: string, content: string, relevanceScore: real)

  /** The record points at its page of `found`: the discovery index is a position of
      `found` whose entry has the record's URL and depth; the title is the fallback and
      the text at most 1000 characters. */
  predicate PointsInto(r: ContentRecord, found: seq<QueueEntry>) {
    && 0 <= r.discoveryIndex < |found|
    && r.url == found[r.discoveryIndex].url && r.depth == found[r.discoveryIndex].depth
    && r.title == NoTitle && |r.content| <= 1000
  }

  /** The discovery indexes of `rs` increase strictly. */
  predicate Increasing(rs: seq<ContentRecord>) {
    forall i, j :: 0 <= i < j < |rs| ==> rs[i].discoveryIndex < rs[j].discoveryIndex
  }

  /** Appending at most one record for the last page of `found`, indexed at its
      position, to records that point into the pages before it keeps every record
      pointing at its page and the indexes increasing. */
  lemma TiedSnoc(rs: seq<ContentRecord>, last: seq<ContentRecord>, found: seq<QueueEntry>)
    requires found != []
    requires forall k :: 0 <= k < |rs| ==> PointsInto(rs[k], found[..|found| - 1])
    requires Increasing(rs)
    requires last == [] || (|last| == 1 && last[0].discoveryIndex == |found| - 1 && PointsInto(last[0], found))
    ensures forall k :: 0 <= k < |rs + last| ==> PointsInto((rs + last)[k], found)
    ensures Increasing(rs + last)
  {
    var all := rs + last;
    var n := |found| - 1;
    forall k | 0 <= k < |all|
      ensures PointsInto(all[k], found)
    {
      if k < |rs| {
        assert all[k] == rs[k];
        assert found[..n][rs[k].discoveryIndex] == found[rs[k].discoveryIndex];
      }
    }
    forall i, j | 0 <= i < j < |all|
      ensures all[i].discoveryIndex < all[j].discoveryIndex
    {
      assert all[i] == rs[i];
      if j < |rs| {
        assert all[j] == rs[j];
      }
    }
  }

  /** `extract_text_content` removes the `<title>` element before `fetch_url` reads
      `soup.title`, so every page gets the fallback title. */
  const NoTitle: string := "No Title"

  function Flatten(ss: seq<seq<QueueEntry>>): seq<QueueEntry> {
    if ss == [] then [] else Flatten(ss[..|ss| - 1]) + ss[|ss| - 1]
  }

  /** The links `fetch_url` collects from a page before its visited test: the non-empty
      `normalize_url` results that pass `is_valid_url`, in document order. `Err` when
      normalising one of the hrefs raises, which makes the whole fetch fail. */
  function PageLinks(hrefs: seq<string>, base: string, urljoin: Joiner, allowedDomains: seq<string>)
    : (r: Result<seq<string>>)
    ensures r.Ok? ==> forall l :: l in r.value ==> IsValidUrl(l, allowedDomains)
  {
    if hrefs == [] then Ok([])
    else
      match PageLinks(hrefs[..|hrefs| - 1], base, urljoin, allowedDomains)
      case Err(e) => Err(e)
      case Ok(prev) =>
        match NormalizeUrl(hrefs[|hrefs| - 1], base, urljoin)
        case Err(e) => Err(e)
        case Ok(u) => Ok(prev + Kept(u, allowedDomains))
  }

  /** The link a normalised href contributes: itself when it is non-empty and valid. */
  function Kept(u: Option<string>, allowedDomains: seq<string>): (r: seq<string>)
    ensures forall l :: l in r ==> IsValidUrl(l, allowedDomains)
  {
    if u.Some? && u.value != [] && IsValidUrl(u.value, allowedDomains) then [u.value] else []
  }

  lemma PageLinksStep(hrefs: seq<string>, i: nat, base: string, urljoin: Joiner, allowedDomains: seq<string>)
    requires i < |hrefs| && PageLinks(hrefs[..i], base, urljoin, allowedDomains).Ok?
    ensures NormalizeUrl(hrefs[i], base, urljoin).Err? ==>
      PageLinks(hrefs[..i + 1], base, urljoin, allowedDomains).Err?
    ensures NormalizeUrl(hrefs[i], base, urljoin).Ok? ==>
      PageLinks(hrefs[..i + 1], base, urljoin, allowedDomains) ==
      Ok(PageLinks(hrefs[..i], base, urljoin, allowedDomains).value + Kept(NormalizeUrl(hrefs[i], base, urljoin).value, allowedDomains))
  {
    assert hrefs[..i + 1][..i] == hrefs[..i];
  }

  /** One href of `fetch_url`'s loop: a valid link outside the view extends the links
      collected so far, and any other href leaves them as they are. */
  lemma CollectStep(hrefs: seq<string>, i: nat, base: string, urljoin: Joiner, allowedDomains: seq<string>,
                    view: set<string>, links: seq<string>)
    requires i < |hrefs| && PageLinks(hrefs[..i], base, urljoin, allowedDomains).Ok?
    requires NormalizeUrl(hrefs[i], base, urljoin).Ok?
    requires links == FilterOut(PageLinks(hrefs[..i], base, urljoin, allowedDomains).value, view)
    ensures PageLinks(hrefs[..i + 1], base, urljoin, allowedDomains).Ok?
    ensures var u := NormalizeUrl(hrefs[i], base, urljoin).value;
      FilterOut(PageLinks(hrefs[..i + 1], base, urljoin, allowedDomains).value, view) ==
      links + (if u.Some? && u.value != [] && IsValidUrl(u.value, allowedDomains) && u.value !in view
               then [u.value] else [])
  {
    var u := NormalizeUrl(hrefs[i], base, urljoin).value;
    PageLinksStep(hrefs, i, base, urljoin, allowedDomains);
    FilterOutStep(PageLinks(hrefs[..i], base, urljoin, allowedDomains).value, Kept(u, allowedDomains), view);
  }

  /** Once an href fails to normalise, the page fails whatever follows it. */
  lemma {:induction false} PageLinksErrExtends(hrefs: seq<string>, i: nat, base: string, urljoin: Joiner,
                                               allowedDomains: seq<string>)
    requires i <= |hrefs|
    requires PageLinks(hrefs[..i], base, urljoin, allowedDomains).Err?
    ensures PageLinks(hrefs, base, urljoin, allowedDomains).Err?
    decreases |hrefs| - i
  {
    if i < |hrefs| {
      assert hrefs[..i + 1][..i] == hrefs[..i];
      PageLinksErrExtends(hrefs, i + 1, base, urljoin, allowedDomains);
    } else {
      assert hrefs[..i] == hrefs;
    }
  }

  /** Each batch holds between one and `limit` entries, and the matching order is a
      rearrangement of it. */
  predicate Batches(batches: seq<seq<QueueEntry>>, orders: seq<seq<QueueEntry>>, limit: int) {
    && |orders| == |batches|
    && forall k :: 0 <= k < |batches| ==>
         0 < |batches[k]| <= limit && multiset(orders[k]) == multiset(batches[k])
  }

  lemma BatchesSnoc(batches: seq<seq<QueueEntry>>, orders: seq<seq<QueueEntry>>,
                    batch: seq<QueueEntry>, order: seq<QueueEntry>, limit: int)
    requires Batches(batches, orders, limit)
    requires 0 < |batch| <= limit && multiset(order) == multiset(batch)
    ensures Batches(batches + [batch], orders + [order], limit)
    ensures Flatten(batches + [batch]) == Flatten(batches) + batch
    ensures Flatten(orders + [order]) == Flatten(orders) + order
  {
    assert (batches + [batch])[..|batches|] == batches;
    assert (orders + [order])[..|orders|] == orders;
  }

  /** Taking a batch off the front of the queue and appending new entries at the back
      leaves the sequence of everything enqueued in the same order. */
  lemma RegroupQueue<T>(done: seq<T>, batch: seq<T>, rest: seq<T>, added: seq<T>)
    ensures done + (batch + rest) + added == (done + batch) + (rest + added)
  {
  }

  /** The aggregation orders together are a rearrangement of the batches together. */
  lemma {:induction false} FlattenPermutes(batches: seq<seq<QueueEntry>>, orders: seq<seq<QueueEntry>>, limit: int)
    requires Batches(batches, orders, limit)
    ensures multiset(Flatten(orders)) == multiset(Flatten(batches))
  {
    if batches != [] {
      var n := |batches| - 1;
      assert Batches(batches[..n], orders[..n], limit);
      FlattenPermutes(batches[..n], orders[..n], limit);
    }
  }

  lemma CountTwo(ys: seq<QueueEntry>, i: nat, j: nat)
    requires i < j < |ys| && ys[i] == ys[j]
    ensures multiset(ys)[ys[i]] >= 2
  {
    assert ys == ys[..j] + [ys[j]] + ys[j + 1..];
    assert ys[..j][i] == ys[i];
  }

  lemma TwoIndices(xs: seq<QueueEntry>, y: QueueEntry) returns (p: nat, q: nat)
    requires multiset(xs)[y] >= 2
    ensures p < q < |xs| && xs[p] == y && xs[q] == y
  {
    var a :| 0 <= a < |xs| && xs[a] == y;
    var rest := xs[..a] + xs[a + 1..];
    assert xs == xs[..a] + [xs[a]] + xs[a + 1..];
    assert multiset(rest)[y] >= 1;
    var b :| 0 <= b < |rest| && rest[b] == y;
    if b < a {
      assert rest[b] == xs[b];
      p, q := b, a;
    } else {
      assert rest[b] == xs[b + 1];
      p, q := a, b + 1;
    }
  }

  /** Two positions of a rearrangement come from two different positions of the original. */
  lemma DistinctPositions(xs: seq<QueueEntry>, ys: seq<QueueEntry>, i: nat, j: nat) returns (p: nat, q: nat)
    requires multiset(ys) == multiset(xs) && i < j < |ys|
    ensures p < |xs| && q < |xs| && p != q && xs[p] == ys[i] && xs[q] == ys[j]
  {
    if ys[i] == ys[j] {
      CountTwo(ys, i, j);
      p, q := TwoIndices(xs, ys[i]);
    } else {
      assert ys[i] in multiset(xs) && ys[j] in multiset(xs);
      p :| p < |xs| && xs[p] == ys[i];
      q :| q < |xs| && xs[q] == ys[j];
    }
  }

  /** Rearranging entries whose URLs are distinct keeps them distinct. */
  lemma PermutedDistinct(xs: seq<QueueEntry>, ys: seq<QueueEntry>)
    requires UrlsDistinct(xs) && multiset(ys) == multiset(xs)
    ensures UrlsDistinct(ys)
  {
    forall i, j | 0 <= i < j < |ys|
      ensures ys[i].url != ys[j].url
    {
      var p, q := DistinctPositions(xs, ys, i, j);
    }
  }

  // ------------------------------------------------------------ searching the records

  /** The filter of `search_content`: the lower-cased topic occurs in the content or in
      the title, or the stored score exceeds the threshold. */
  predicate Matches(r: ContentRecord, topic: string, threshold: real) {
    || Contains(Lower(r.content), Lower(topic))
    || Contains(Lower(r.title), Lower(topic))
    || r.relevanceScore > threshold
  }

  /** The records that pass the filter, in their stored order. */
  function MatchingRecords(rs: seq<ContentRecord>, topic: string, threshold: real): (r: seq<ContentRecord>)
    ensures |r| <= |rs|
    ensures forall x :: x in r <==> x in rs && Matches(x, topic, threshold)
  {
    if rs == [] then []
    else
      var last := rs[|rs| - 1];
      MatchingRecords(rs[..|rs| - 1], topic, threshold) + (if Matches(last, topic, threshold) then [last] else [])
  }

  /** Records that all pass the filter come back unchanged, order included. */
  lemma {:induction false} MatchingAll(rs: seq<ContentRecord>, topic: string, threshold: real)
    requires forall k :: 0 <= k < |rs| ==> Matches(rs[k], topic, threshold)
    ensures MatchingRecords(rs, topic, threshold) == rs
  {
    if rs != [] {
      MatchingAll(rs[..|rs| - 1], topic, threshold);
      assert rs[..|rs| - 1] + [rs[|rs| - 1]] == rs;
    }
  }

  predicate ByScore(rs: seq<ContentRecord>) {
    forall i, j :: 0 <= i < j < |rs| ==> rs[i].relevanceScore >= rs[j].relevanceScore
  }

  /** Puts `x` before the first record of `sorted` whose score is not above its own. */
  function InsertByScore(x: ContentRecord, sorted: seq<ContentRecord>): (r: seq<ContentRecord>)
    ensures |r| == |sorted| + 1
    ensures r[0] == x || (sorted != [] && r[0] == sorted[0])
  {
    if sorted == [] || x.relevanceScore >= sorted[0].relevanceScore then [x] + sorted
    else [sorted[0]] + InsertByScore(x, sorted[1..])
  }

  /** A record put in front of a list ordered by score keeps it ordered when its score is
      at least that of the list's first record. */
  lemma ByScoreCons(h: ContentRecord, rest: seq<ContentRecord>)
    requires ByScore(rest)
    requires rest == [] || h.relevanceScore >= rest[0].relevanceScore
    ensures ByScore([h] + rest)
  {
    var r := [h] + rest;
    forall i, j | 0 <= i < j < |r|
      ensures r[i].relevanceScore >= r[j].relevanceScore
    {
      assert r[j] == rest[j - 1];
      if i > 0 {
        assert r[i] == rest[i - 1];
      } else if j > 1 {
        assert rest[0].relevanceScore >= rest[j - 1].relevanceScore;
      }
    }
  }

  /** Inserting into a list ordered by score keeps it ordered. */
  lemma {:induction false} InsertKeepsOrder(x: ContentRecord, sorted: seq<ContentRecord>)
    requires ByScore(sorted)
    ensures ByScore(InsertByScore(x, sorted))
  {
    if sorted == [] || x.relevanceScore >= sorted[0].relevanceScore {
      ByScoreCons(x, sorted);
    } else {
      var tail := sorted[1..];
      assert ByScore(tail) by {
        assert forall i :: 0 <= i < |tail| ==> tail[i] == sorted[i + 1];
      }
      InsertKeepsOrder(x, tail);
      var rest := InsertByScore(x, tail);
      assert tail != [] ==> sorted[0].relevanceScore >= tail[0].relevanceScore by {
        if tail != [] {
          assert tail[0] == sorted[1];
        }
      }
      ByScoreCons(sorted[0], rest);
    }
  }

  /** Inserting adds exactly `x`. */
  lemma {:induction false} InsertAddsOne(x: ContentRecord, sorted: seq<ContentRecord>)
    ensures multiset(InsertByScore(x, sorted)) == multiset(sorted) + multiset{x}
  {
    if sorted != [] && x.relevanceScore < sorted[0].relevanceScore {
      var tail := sorted[1..];
      InsertAddsOne(x, tail);
      assert sorted == [sorted[0]] + tail;
    }
  }

  /** `sorted(results, key=relevance_score, reverse=True)`: highest score first; records
      with equal scores keep their order, as Python's sort is stable. */
  function SortByScore(rs: seq<ContentRecord>): (r: seq<ContentRecord>)
    ensures ByScore(r)
    ensures multiset(r) == multiset(rs)
  {
    if rs == [] then []
    else
      assert rs == [rs[0]] + rs[1..];
      InsertKeepsOrder(rs[0], SortByScore(rs[1..]));
      InsertAddsOne(rs[0], SortByScore(rs[1..]));
      InsertByScore(rs[0], SortByScore(rs[1..]))
  }

  /** The records of `rs` whose score is `score`, in order. */
  function WithScore(rs: seq<ContentRecord>, score: real): (r: seq<ContentRecord>)
    ensures |r| <= |rs|
  {
    if rs == [] then []
    else (if rs[0].relevanceScore == score then [rs[0]] else []) + WithScore(rs[1..], score)
  }

  /** Inserting `x` puts it before every record of the same score. */
  lemma {:induction false} InsertStable(x: ContentRecord, sorted: seq<ContentRecord>, score: real)
    ensures WithScore(InsertByScore(x, sorted), score) ==
      (if x.relevanceScore == score then [x] else []) + WithScore(sorted, score)
  {
    var r := InsertByScore(x, sorted);
    if sorted == [] || x.relevanceScore >= sorted[0].relevanceScore {
      assert r[1..] == sorted;
    } else {
      var tail := sorted[1..];
      InsertStable(x, tail, score);
      assert r[1..] == InsertByScore(x, tail);
    }
  }

  /** The sort is stable: the records of any one score come out in the order they came
      in. */
  lemma {:induction false} SortByScoreStable(rs: seq<ContentRecord>, score: real)
    ensures WithScore(SortByScore(rs), score) == WithScore(rs, score)
  {
    if rs != [] {
      SortByScoreStable(rs[1..], score);
      InsertStable(rs[0], SortByScore(rs[1..]), score);
    }
  }

  class EnhancedWebScraper {
    const maxDepth: int
    const maxBreadth: int
    const relevanceThreshold: real
    /** `allowed_domains`; `None` and `[]` behave alike and are both `[]` here. */
    const allowedDomains: seq<string>
    const concurrentRequests: int
    /** whether the spaCy model loaded */
    const nlpLoaded: bool
    const fetch: Fetcher
    const urljoin: Joiner
    const similarity: Similarity
    /** What `normalize_url` makes of the hrefs of each page, kept as a ghost table so that
        the crawl's invariants can name a page's links without unfolding the URL parser;
        `Valid` ties it to `PageLinks`. */
    ghost const pageLinks: string -> Result<seq<string>>

    var visitedUrls: set<string>
    var discoverySequence: seq<string>
    var contentData: seq<ContentRecord>

    constructor(maxDepth: int, maxBreadth: int, relevanceThreshold: real, allowedDomains: seq<string>,
                concurrentRequests: int, nlpLoaded: bool, fetch: Fetcher, urljoin: Joiner, similarity: Similarity)
      ensures this.maxDepth == maxDepth && this.maxBreadth == maxBreadth
      ensures this.relevanceThreshold == relevanceThreshold && this.allowedDomains == allowedDomains
      ensures this.concurrentRequests == concurrentRequests && this.nlpLoaded == nlpLoaded
      ensures this.fetch == fetch && this.urljoin == urljoin && this.similarity == similarity
      ensures visitedUrls == {} && discoverySequence == [] && contentData == []
      ensures Valid()
    {
      this.maxDepth := maxDepth;
      this.maxBreadth := maxBreadth;
      this.relevanceThreshold := relevanceThreshold;
      this.allowedDomains := allowedDomains;
      this.concurrentRequests := concurrentRequests;
      this.nlpLoaded := nlpLoaded;
      this.fetch := fetch;
      this.urljoin := urljoin;
      this.similarity := similarity;
      this.pageLinks := url =>
        if fetch(url).Some? then PageLinks(fetch(url).value.hrefs, url, urljoin, allowedDomains) else Ok([]);
      visitedUrls := {};
      discoverySequence := [];
      contentData := [];
    }

    // ------------------------------------------------------------ one page

    /** The links of a downloaded page: each href through `normalize_url` and the filter
        of `fetch_url`, or the exception one of them raises. */
    ghost function PageLinksOf(url: string): Result<seq<string>> {
      if fetch(url).Some? then PageLinks(fetch(url).value.hrefs, url, urljoin, allowedDomains) else Ok([])
    }

    ghost predicate Valid() {
      forall url {:trigger PageLinksOf(url)} :: pageLinks(url) == PageLinksOf(url)
    }

    /** `fetch_url` succeeds: the page downloads as HTML and none of its hrefs makes
        `normalize_url` raise. */
    ghost predicate FetchOk(url: string) {
      fetch(url).Some? && pageLinks(url).Ok?
    }

    function PageContent(url: string): string
      requires fetch(url).Some?
    {
      CollapseWhitespace(fetch(url).value.text)
    }

    /** The links `fetch_url` returns for a page when the workers see `view` as visited:
        the valid links outside `view`, in document order, cut to `max_breadth`. */
    ghost function FetchLinks(url: string, view: set<string>): seq<string>
      requires FetchOk(url)
    {
      SliceTo(FilterOut(pageLinks(url).value, view), maxBreadth)
    }

    /** Every link a successful fetch of `url` can return, whatever is visited. */
    ghost function CandidateLinks(url: string): set<string> {
      if FetchOk(url) then set l | l in pageLinks(url).value
      else {}
    }

    lemma FetchLinksAreCandidates(url: string, view: set<string>)
      requires FetchOk(url)
      ensures forall l :: l in FetchLinks(url, view) ==> l in CandidateLinks(url) && l !in view
    {
      var all := FilterOut(pageLinks(url).value, view);
      InPrefix(all, FetchLinks(url, view));
    }

    ghost predicate Relevant(url: string, topic: string)
      requires fetch(url).Some?
    {
      IsContentRelevant(nlpLoaded, similarity, relevanceThreshold, PageContent(url), topic)
    }

    /** The record `crawl` stores for a relevant page found as the `index`-th discovery. */
    ghost function RecordFor(e: QueueEntry, index: int, topic: string): ContentRecord
      requires fetch(e.url).Some?
    {
      ContentRecord(e.url, e.depth, index, NoTitle, SliceTo(PageContent(e.url), 1000),
                    Score(nlpLoaded, similarity, PageContent(e.url), topic))
    }

    /** `fetch_url(url_data)`, with `view` the visited set the worker consults. */
    method FetchUrl(url: string, depth: int, view: set<string>) returns (r: Option<FetchResult>)
      requires Valid()
      ensures r.None? <==> !FetchOk(url)
      ensures r.Some? ==> r.value == FetchResult(url, depth, NoTitle, PageContent(url), FetchLinks(url, view))
    {
      var page := fetch(url);
      assert pageLinks(url) == PageLinksOf(url);
      if page.None? {
        return None;
      }
      var content := CollapseWhitespace(page.value.text);
      var title := NoTitle;
      var hrefs := page.value.hrefs;
      var links: seq<string> := [];
      var i := 0;
      while i < |hrefs|
        invariant 0 <= i <= |hrefs|
        invariant PageLinks(hrefs[..i], url, urljoin, allowedDomains).Ok?
        invariant links == FilterOut(PageLinks(hrefs[..i], url, urljoin, allowedDomains).value, view)
      {
        var fullUrl := NormalizeUrl(hrefs[i], url, urljoin);
        PageLinksStep(hrefs, i, url, urljoin, allowedDomains);
        if fullUrl.Err? {
          PageLinksErrExtends(hrefs, i + 1, url, urljoin, allowedDomains);
          return None;
        }
        CollectStep(hrefs, i, url, urljoin, allowedDomains, view, links);
        if fullUrl.value.Some? && fullUrl.value.value != [] && IsValidUrl(fullUrl.value.value, allowedDomains)
          && fullUrl.value.value !in view
        {
          links := links + [fullUrl.value.value];
        }
        i := i + 1;
      }
      assert hrefs[..i] == hrefs;
      return Some(FetchResult(url, depth, title, content, SliceTo(links, maxBreadth)));
    }

    // ------------------------------------------------------------ the crawl

    /** The size of the next batch: `min(concurrent_requests, len(queue))`, or nothing
        when that is not positive. */
    function BatchSize(queued: nat): (n: nat)
      ensures n <= queued
      ensures concurrentRequests > 0 && queued > 0 ==> 0 < n <= concurrentRequests
    {
      if concurrentRequests <= 0 then 0
      else if concurrentRequests < queued then concurrentRequests else queued
    }

    /** The batch loop of `crawl`: pop from the front of the queue up to the batch size. */
    method TakeBatch(queue: seq<QueueEntry>) returns (batch: seq<QueueEntry>, rest: seq<QueueEntry>)
      ensures batch + rest == queue
      ensures |batch| == BatchSize(|queue|)
    {
      var n := if concurrentRequests < |queue| then concurrentRequests else |queue|;
      batch := [];
      rest := queue;
      var k := 0;
      while k < n
        invariant k == |batch| && (k <= n || k == 0) && n <= |queue|
        invariant batch + rest == queue
      {
        if rest != [] {
          batch := batch + [rest[0]];
          rest := rest[1..];
        }
        k := k + 1;
      }
    }

    /** The body of the `as_completed` loop for one entry: record the page if its fetch
        succeeded, store a record if it is relevant, and below `max_depth` enqueue its
        links that are not yet visited, marking each one visited as it goes in. */
    method Absorb(e: QueueEntry, topic: string, view: set<string>, queue: seq<QueueEntry>)
        returns (queue': seq<QueueEntry>, ghost added: seq<QueueEntry>)
      modifies this
      requires Valid()
      ensures added == if FetchOk(e.url) && e.depth < maxDepth
        then AtDepth(Fresh(FetchLinks(e.url, view), old(visitedUrls)), e.depth + 1) else []
      ensures queue' == queue + added
      ensures visitedUrls == old(visitedUrls) + UrlSet(added)
      ensures discoverySequence == old(discoverySequence) + (if FetchOk(e.url) then [e.url] else [])
      ensures contentData == old(contentData) +
        (if FetchOk(e.url) && Relevant(e.url, topic) then [RecordFor(e, |old(discoverySequence)|, topic)] else [])
    {
      var result := FetchUrl(e.url, e.depth, view);
      queue' := queue;
      added := [];
      if result.None? {
        return;
      }
      var res := result.value;
      discoverySequence := discoverySequence + [e.url];
      if IsContentRelevant(nlpLoaded, similarity, relevanceThreshold, res.content, topic) {
        var score := if nlpLoaded then similarity(SliceTo(res.content, 5000), topic) else 1.0;
        var record := ContentRecord(res.url, res.depth, |discoverySequence| - 1, res.title,
                                    SliceTo(res.content, 1000), score);
        assert record == RecordFor(e, |old(discoverySequence)|, topic);
        contentData := contentData + [record];
      }
      if e.depth < maxDepth {
        queue', added := EnqueueFresh(res.links, e.depth + 1, queue);
      }
    }

    /** The enqueue loop of `crawl` for one page: each link not yet visited is appended to
        the queue at `depth` and marked visited in the same step. */
    method EnqueueFresh(links: seq<string>, depth: int, queue: seq<QueueEntry>)
        returns (queue': seq<QueueEntry>, ghost added: seq<QueueEntry>)
      modifies this
      ensures added == AtDepth(Fresh(links, old(visitedUrls)), depth)
      ensures queue' == queue + added
      ensures visitedUrls == old(visitedUrls) + UrlSet(added)
      ensures discoverySequence == old(discoverySequence) && contentData == old(contentData)
    {
      var visited;
      queue', visited, added := EnqueueLinks(links, depth, queue, visitedUrls);
      visitedUrls := visited;
    }

    /** `Absorb` seen from the crawl: the entry comes from the queue, and the crawl's
        bookkeeping invariant survives the step. */
    method AbsorbTracked(start: string, topic: string, e: QueueEntry, view: set<string>, queue: seq<QueueEntry>,
                         ghost enqueued: seq<QueueEntry>, ghost log: seq<QueueEntry>, ghost views: seq<set<string>>)
        returns (queue': seq<QueueEntry>, ghost added: seq<QueueEntry>)
      modifies this
      requires Valid()
      requires CrawlInv(start, topic, enqueued, log, visitedUrls, discoverySequence, contentData)
      requires e in enqueued
      requires Produced(start, enqueued, log, views)
      ensures CrawlInv(start, topic, enqueued + added, log + [e], visitedUrls, discoverySequence, contentData)
      ensures Produced(start, enqueued + added, log + [e], views + [view])
      ensures queue' == queue + added
      ensures visitedUrls == old(visitedUrls) + UrlSet(added)
      ensures forall a :: a in added ==> a.url !in old(visitedUrls)
    {
      ghost var before := (visitedUrls, discoverySequence, contentData);
      queue', added := Absorb(e, topic, view, queue);
      AbsorbKeeps(start, topic, enqueued, log, before.0, before.1, before.2,
                  e, view, added, visitedUrls, discoverySequence, contentData);
      ExpandStep(start, enqueued, log, views, e, view, added);
    }

    /** The `as_completed` loop over one batch: the results are aggregated one by one in
        `order`. Each fetch reads the visited set at some moment between the start of the
        batch and its own aggregation, which is all a worker thread can be sure of. */
    method AggregateBatch(start: string, topic: string, order: seq<QueueEntry>, queue: seq<QueueEntry>,
                          ghost enqueued: seq<QueueEntry>, ghost log: seq<QueueEntry>, ghost views: seq<set<string>>)
        returns (queue': seq<QueueEntry>, ghost added: seq<QueueEntry>, ghost views': seq<set<string>>)
      modifies this
      requires Valid()
      requires CrawlInv(start, topic, enqueued, log, visitedUrls, discoverySequence, contentData)
      requires forall e :: e in order ==> e in enqueued
      requires Produced(start, enqueued, log, views)
      requires forall k :: 0 <= k < |views| ==> views[k] <= visitedUrls
      ensures CrawlInv(start, topic, enqueued + added, log + order, visitedUrls, discoverySequence, contentData)
      ensures Produced(start, enqueued + added, log + order, views')
      ensures ViewsSince(views, views', old(visitedUrls), visitedUrls)
      ensures queue' == queue + added
      ensures visitedUrls == old(visitedUrls) + UrlSet(added)
      ensures forall a :: a in added ==> a.url !in old(visitedUrls)
    {
      var visited0 := visitedUrls;
      queue' := queue;
      added := [];
      ghost var enq, lg := enqueued, log;
      views' := views;
      ViewsStart(views, visitedUrls);
      var i := 0;
      assert enqueued + added == enqueued && log + order[..0] == log;
      while i < |order|
        invariant 0 <= i <= |order|
        invariant queue' == queue + added
        invariant enq == enqueued + added && lg == log + order[..i]
        invariant visitedUrls == visited0 + UrlSet(added)
        invariant forall a :: a in added ==> a.url !in visited0
        invariant CrawlInv(start, topic, enq, lg, visitedUrls, discoverySequence, contentData)
        invariant Produced(start, enq, lg, views')
        invariant ViewsSince(views, views', visited0, visitedUrls)
      {
        var e := order[i];
        assert e in enq;
        var view :| visited0 <= view <= visitedUrls;
        ghost var more;
        ghost var visitedBefore := visitedUrls;
        queue', more := AbsorbTracked(start, topic, e, view, queue', enq, lg, views');
        ViewsSnoc(views, views', view, visited0, visitedBefore, visitedUrls);
        views' := views' + [view];
        UrlSetAppend(added, more);
        UnionAssoc(visited0, UrlSet(added), UrlSet(more));
        ConcatAssoc(enqueued, added, more);
        ConcatAssoc(queue, added, more);
        PrefixSnoc(log, order, i);
        enq := enq + more;
        lg := lg + [e];
        added := added + more;
        i := i + 1;
      }
      assert order[..i] == order;
    }

    /** One pass of the `while queue` loop of `crawl`: take a batch off the front of the
        queue, fetch it (here the fetches are folded into the aggregation) and aggregate the
        results in some order. `raised` is the `ValueError` of a thread pool asked for a
        non-positive number of workers, raised before anything is fetched. */
    method CrawlRound(start: string, topic: string, queue: seq<QueueEntry>, ghost enqueued: seq<QueueEntry>,
                      ghost batches: seq<seq<QueueEntry>>, ghost orders: seq<seq<QueueEntry>>,
                      ghost views: seq<set<string>>)
        returns (raised: bool, queue': seq<QueueEntry>, ghost enqueued': seq<QueueEntry>,
                 ghost batches': seq<seq<QueueEntry>>, ghost orders': seq<seq<QueueEntry>>,
                 ghost views': seq<set<string>>)
      modifies this
      requires Valid() && queue != []
      requires enqueued == Flatten(batches) + queue && Batches(batches, orders, concurrentRequests)
      requires CrawlInv(start, topic, enqueued, Flatten(orders), visitedUrls, discoverySequence, contentData)
      requires Viewed(start, enqueued, Flatten(orders), views, visitedUrls)
      ensures !raised ==> Viewed(start, enqueued', Flatten(orders'), views', visitedUrls)
      ensures raised <==> concurrentRequests <= 0
      ensures raised ==> unchanged(this)
      ensures !raised ==> enqueued' == Flatten(batches') + queue' && Batches(batches', orders', concurrentRequests)
      ensures !raised ==> |batches'| == |batches| + 1
      ensures !raised ==> CrawlInv(start, topic, enqueued', Flatten(orders'), visitedUrls, discoverySequence, contentData)
      ensures !raised ==> old(visitedUrls) <= visitedUrls && (visitedUrls == old(visitedUrls) ==> |queue'| < |queue|)
    {
      var batch, rest := TakeBatch(queue);
      if concurrentRequests <= 0 {
        return true, queue, enqueued, batches, orders, views;
      }
      var order :| multiset(order) == multiset(batch);
      forall e | e in order
        ensures e in enqueued
      {
        assert e in multiset(batch);
      }
      ghost var visited0 := visitedUrls;
      ghost var added;
      queue', added, views' := AggregateBatch(start, topic, order, rest, enqueued, Flatten(orders), views);
      BatchesSnoc(batches, orders, batch, order, concurrentRequests);
      RegroupQueue(Flatten(batches), batch, rest, added);
      enqueued' := enqueued + added;
      batches' := batches + [batch];
      orders' := orders + [order];
      raised := false;
      if added != [] {
        assert added[0] in added;
        assert added[0].url in visitedUrls - visited0;
      }
    }

    /** `crawl(start_url, search_topic)`. `raised` is the `ValueError` the thread pool
        raises for a non-positive `concurrent_requests`. The ghost results record the run:
        every entry ever enqueued, in order; the batches, taken from the front of the
        queue; and the order in which each batch's results were aggregated. */
    method Crawl(startUrl: string, topic: string)
        returns (raised: bool, ghost enqueued: seq<QueueEntry>,
                 ghost batches: seq<seq<QueueEntry>>, ghost orders: seq<seq<QueueEntry>>,
                 ghost views: seq<set<string>>)
      modifies this
      requires Valid()
      ensures raised <==> concurrentRequests <= 0
      ensures raised ==> visitedUrls == {startUrl} && discoverySequence == [] && contentData == []
      ensures !raised ==> enqueued == Flatten(batches) && Batches(batches, orders, concurrentRequests)
      ensures !raised ==> CrawlInv(startUrl, topic, enqueued, Flatten(orders),
                                   visitedUrls, discoverySequence, contentData)
      ensures !raised ==> Viewed(startUrl, enqueued, Flatten(orders), views, visitedUrls)
    {
      visitedUrls := {};
      discoverySequence := [];
      contentData := [];
      var queue := [QueueEntry(startUrl, 0)];
      visitedUrls := visitedUrls + {startUrl};
      enqueued := queue;
      batches := [];
      orders := [];
      views := [];
      ghost var bound := Reach.Within(startUrl, CandidateLinks, DepthBound());
      CrawlStarts(startUrl, topic);
      assert visitedUrls == {startUrl};
      while queue != []
        invariant enqueued == Flatten(batches) + queue && Batches(batches, orders, concurrentRequests)
        invariant CrawlInv(startUrl, topic, enqueued, Flatten(orders), visitedUrls, discoverySequence, contentData)
        invariant Viewed(startUrl, enqueued, Flatten(orders), views, visitedUrls)
        invariant visitedUrls <= bound
        invariant concurrentRequests <= 0 ==> batches == []
        invariant batches == [] ==>
          visitedUrls == {startUrl} && discoverySequence == [] && contentData == []
        decreases |bound - visitedUrls|, |queue|
      {
        ghost var visited0 := visitedUrls;
        raised, queue, enqueued, batches, orders, views :=
          CrawlRound(startUrl, topic, queue, enqueued, batches, orders, views);
        if raised {
          return;
        }
        InvBounded(startUrl, topic, enqueued, Flatten(orders), visitedUrls, discoverySequence, contentData);
        if visitedUrls != visited0 {
          Reach.RemainderShrinks(bound, visited0, visitedUrls);
        }
      }
      raised := false;
    }

    // ------------------------------------------------------------ what a crawl has done

    /** The entries of the aggregation log whose fetch succeeded, in order: the pages
        that enter `discovery_sequence`. */
    ghost function Found(log: seq<QueueEntry>): (r: seq<QueueEntry>)
      ensures forall k :: 0 <= k < |r| ==> FetchOk(r[k].url)
    {
      if log == [] then []
      else Found(log[..|log| - 1]) + (if FetchOk(log[|log| - 1].url) then [log[|log| - 1]] else [])
    }

    /** The records `crawl` stores for the pages it found, in discovery order: one for each
        relevant page, with its position among the found pages as discovery index. */
    ghost function Records(found: seq<QueueEntry>, topic: string): seq<ContentRecord>
      requires forall k :: 0 <= k < |found| ==> FetchOk(found[k].url)
    {
      if found == [] then []
      else
        var n := |found| - 1;
        assert FetchOk(found[n].url);
        Records(found[..n], topic) + (if Relevant(found[n].url, topic) then [RecordFor(found[n], n, topic)] else [])
    }

    lemma LogStep(log: seq<QueueEntry>, e: QueueEntry, topic: string)
      ensures Found(log + [e]) == Found(log) + (if FetchOk(e.url) then [e] else [])
      ensures Urls(Found(log + [e])) == Urls(Found(log)) + (if FetchOk(e.url) then [e.url] else [])
      ensures Records(Found(log + [e]), topic) == Records(Found(log), topic) +
        (if FetchOk(e.url) && Relevant(e.url, topic) then [RecordFor(e, |Found(log)|, topic)] else [])
    {
      assert (log + [e])[..|log|] == log;
      var f := Found(log);
      if FetchOk(e.url) {
        assert (f + [e])[..|f|] == f;
        UrlsSnoc(f, e);
      } else {
        assert f + [] == f;
      }
    }

    /** The largest depth an entry can have: `max_depth`, or 0 when that is not positive. */
    function DepthBound(): nat {
      if maxDepth > 0 then maxDepth else 0
    }

    /** An entry sits at a depth the crawl allows and its URL is reachable from the start
        in that many link steps. */
    ghost predicate Placed(e: QueueEntry, start: string) {
      && 0 <= e.depth <= DepthBound()
      && e.url in Reach.Within(start, CandidateLinks, e.depth)
    }

    /** What holds between aggregation steps: the start entry heads the entries ever
        enqueued, no URL was enqueued twice, the visited set is exactly their URLs, and
        the discovery sequence and records are those of the pages found in `log`. */
    ghost predicate CrawlInv(start: string, topic: string, enqueued: seq<QueueEntry>, log: seq<QueueEntry>,
                             visited: set<string>, discovery: seq<string>, content: seq<ContentRecord>)
    {
      && |enqueued| > 0 && enqueued[0] == QueueEntry(start, 0)
      && UrlsDistinct(enqueued) && visited == UrlSet(enqueued)
      && (forall x :: x in enqueued ==> Placed(x, start))
      && discovery == Urls(Found(log)) && content == Records(Found(log), topic)
    }

    /** What the aggregation of `e` enqueues when its worker saw `view` as visited and
        `visited` is the visited set at aggregation: nothing when the fetch failed or at
        `max_depth`, and otherwise the returned links not yet visited, each once, one
        level deeper. */
    ghost function Added(e: QueueEntry, view: set<string>, visited: set<string>): (r: seq<QueueEntry>)
      ensures forall a :: a in r ==> a.depth == e.depth + 1
    {
      if FetchOk(e.url) && e.depth < maxDepth then AtDepth(Fresh(FetchLinks(e.url, view), visited), e.depth + 1)
      else []
    }

    /** The entries ever enqueued once the entries of `log` have been aggregated, the
        `k`-th with `views[k]` as its worker's visited set: the start entry, then what each
        aggregation enqueued against the URLs enqueued before it. */
    ghost function Expand(start: string, log: seq<QueueEntry>, views: seq<set<string>>): (r: seq<QueueEntry>)
      requires |views| == |log|
      ensures |r| > 0 && r[0] == QueueEntry(start, 0)
    {
      if log == [] then [QueueEntry(start, 0)]
      else
        var n := |log| - 1;
        var prev := Expand(start, log[..n], views[..n]);
        prev + Added(log[n], views[n], UrlSet(prev))
    }

    lemma ExpandSnoc(start: string, log: seq<QueueEntry>, views: seq<set<string>>, e: QueueEntry, view: set<string>)
      requires |views| == |log|
      ensures Expand(start, log + [e], views + [view]) ==
        Expand(start, log, views) + Added(e, view, UrlSet(Expand(start, log, views)))
    {
      assert (log + [e])[..|log|] == log;
      assert (views + [view])[..|views|] == views;
    }

    /** The views of a batch's workers extend those before it; each of them saw at least
        what was visited when the batch began, and none saw more than `high`. */
    ghost predicate ViewsSince(views: seq<set<string>>, views': seq<set<string>>, low: set<string>, high: set<string>) {
      && |views| <= |views'| && views'[..|views|] == views
      && (forall k :: |views| <= k < |views'| ==> low <= views'[k])
      && (forall k :: 0 <= k < |views'| ==> views'[k] <= high)
    }

    lemma ViewsStart(views: seq<set<string>>, visited: set<string>)
      requires forall k :: 0 <= k < |views| ==> views[k] <= visited
      ensures ViewsSince(views, views, visited, visited)
    {
    }

    lemma ViewsSnoc(views: seq<set<string>>, views': seq<set<string>>, view: set<string>,
                    low: set<string>, high: set<string>, high': set<string>)
      requires ViewsSince(views, views', low, high) && low <= view <= high <= high'
      ensures ViewsSince(views, views' + [view], low, high')
    {
      assert (views' + [view])[..|views|] == views'[..|views|];
    }

    /** `enqueued` is what aggregating `log` produced, the `k`-th entry's worker seeing
        `views[k]`. */
    ghost predicate Produced(start: string, enqueued: seq<QueueEntry>, log: seq<QueueEntry>, views: seq<set<string>>) {
      |views| == |log| && enqueued == Expand(start, log, views)
    }

    lemma ExpandStep(start: string, enqueued: seq<QueueEntry>, log: seq<QueueEntry>, views: seq<set<string>>,
                     e: QueueEntry, view: set<string>, added: seq<QueueEntry>)
      requires Produced(start, enqueued, log, views)
      requires added == if FetchOk(e.url) && e.depth < maxDepth
        then AtDepth(Fresh(FetchLinks(e.url, view), UrlSet(enqueued)), e.depth + 1) else []
      ensures Produced(start, enqueued + added, log + [e], views + [view])
    {
      ExpandSnoc(start, log, views, e, view);
    }

    /** The run so far is accounted for by the views of its workers: the entries ever
        enqueued are exactly what the aggregations produced, and each worker saw no more
        than what is visited now. */
    ghost predicate Viewed(start: string, enqueued: seq<QueueEntry>, log: seq<QueueEntry>,
                           views: seq<set<string>>, visited: set<string>)
    {
      && Produced(start, enqueued, log, views)
      && forall k :: 0 <= k < |views| ==> views[k] <= visited
    }

    lemma AddedPlaced(start: string, e: QueueEntry, view: set<string>, visited: set<string>, added: seq<QueueEntry>)
      requires Placed(e, start) && FetchOk(e.url) && e.depth < maxDepth
      requires added == AtDepth(Fresh(FetchLinks(e.url, view), visited), e.depth + 1)
      ensures UrlsDistinct(added)
      ensures forall a :: a in added ==> Placed(a, start) && a.url !in visited
      ensures UrlSet(added) <= Reach.Within(start, CandidateLinks, DepthBound())
    {
      var links := FetchLinks(e.url, view);
      var newLinks := Fresh(links, visited);
      FreshFacts(links, visited);
      FetchLinksAreCandidates(e.url, view);
      AtDepthFacts(newLinks, e.depth + 1);
      Reach.WithinGrows(start, CandidateLinks, e.depth + 1, DepthBound());
      forall a | a in added
        ensures Placed(a, start) && a.url !in visited
      {
        Reach.WithinStep(start, CandidateLinks, e.depth, e.url, a.url);
      }
    }

    lemma AbsorbKeeps(start: string, topic: string, enqueued: seq<QueueEntry>, log: seq<QueueEntry>,
                      visited: set<string>, discovery: seq<string>, content: seq<ContentRecord>,
                      e: QueueEntry, view: set<string>, added: seq<QueueEntry>,
                      visited': set<string>, discovery': seq<string>, content': seq<ContentRecord>)
      requires CrawlInv(start, topic, enqueued, log, visited, discovery, content)
      requires e in enqueued
      requires added == if FetchOk(e.url) && e.depth < maxDepth
        then AtDepth(Fresh(FetchLinks(e.url, view), visited), e.depth + 1) else []
      requires visited' == visited + UrlSet(added)
      requires discovery' == discovery + (if FetchOk(e.url) then [e.url] else [])
      requires content' == content +
        (if FetchOk(e.url) && Relevant(e.url, topic) then [RecordFor(e, |discovery|, topic)] else [])
      ensures CrawlInv(start, topic, enqueued + added, log + [e], visited', discovery', content')
      ensures forall a :: a in added ==> a.url !in visited
      ensures UrlSet(added) <= Reach.Within(start, CandidateLinks, DepthBound())
    {
      LogStep(log, e, topic);
      if added != [] {
        AddedPlaced(start, e, view, visited, added);
        DistinctAppend(enqueued, added);
      }
      UrlSetAppend(enqueued, added);
      assert (enqueued + added)[0] == enqueued[0];
    }

    /** The state `crawl` resets to satisfies the invariant. */
    lemma CrawlStarts(start: string, topic: string)
      ensures CrawlInv(start, topic, [QueueEntry(start, 0)], [], {start}, [], [])
      ensures {start} <= Reach.Within(start, CandidateLinks, DepthBound())
    {
      Reach.WithinGrows(start, CandidateLinks, 0, DepthBound());
      assert Placed(QueueEntry(start, 0), start);
      assert Found([]) == [];
      assert UrlSet([QueueEntry(start, 0)]) == {start} by {
        assert QueueEntry(start, 0) in [QueueEntry(start, 0)];
      }
    }

    /** Every URL a crawl state has visited lies within the reach bound. */
    lemma InvBounded(start: string, topic: string, enqueued: seq<QueueEntry>, log: seq<QueueEntry>,
                     visited: set<string>, discovery: seq<string>, content: seq<ContentRecord>)
      requires CrawlInv(start, topic, enqueued, log, visited, discovery, content)
      ensures visited <= Reach.Within(start, CandidateLinks, DepthBound())
    {
      VisitedBounded(start, enqueued);
    }

    lemma VisitedBounded(start: string, enqueued: seq<QueueEntry>)
      requires forall x :: x in enqueued ==> Placed(x, start)
      ensures UrlSet(enqueued) <= Reach.Within(start, CandidateLinks, DepthBound())
    {
      forall x | x in enqueued
        ensures x.url in Reach.Within(start, CandidateLinks, DepthBound())
      {
        Reach.WithinGrows(start, CandidateLinks, x.depth, DepthBound());
      }
    }

    // ------------------------------------------------------------ what a crawl has covered

    lemma ExpandAt(start: string, log: seq<QueueEntry>, views: seq<set<string>>, k: nat)
      requires |views| == |log| && k < |log|
      ensures Expand(start, log[..k + 1], views[..k + 1]) ==
        Expand(start, log[..k], views[..k]) + Added(log[k], views[k], UrlSet(Expand(start, log[..k], views[..k])))
    {
      assert log[..k + 1] == log[..k] + [log[k]];
      assert views[..k + 1] == views[..k] + [views[k]];
      ExpandSnoc(start, log[..k], views[..k], log[k], views[k]);
    }

    /** Aggregating more entries only appends to the entries enqueued. */
    lemma {:induction false} ExpandPrefix(start: string, log: seq<QueueEntry>, views: seq<set<string>>, k: nat)
      requires |views| == |log| && k <= |log|
      ensures Expand(start, log[..k], views[..k]) <= Expand(start, log, views)
      decreases |log| - k
    {
      if k < |log| {
        ExpandPrefix(start, log, views, k + 1);
        ExpandAt(start, log, views, k);
        var short := Expand(start, log[..k], views[..k]);
        PrefixConcat(short, Added(log[k], views[k], UrlSet(short)));
        PrefixTrans(short, Expand(start, log[..k + 1], views[..k + 1]), Expand(start, log, views));
      } else {
        assert log[..k] == log && views[..k] == views;
      }
    }

    /** Every link `fetch_url` returned for the `k`-th aggregated page below `max_depth`
        ends up enqueued: it was visited already when the page was aggregated, or that
        aggregation enqueued it. */
    lemma LinksFollowed(start: string, log: seq<QueueEntry>, views: seq<set<string>>, k: nat)
      requires |views| == |log| && k < |log|
      requires FetchOk(log[k].url) && log[k].depth < maxDepth
      ensures forall l :: l in FetchLinks(log[k].url, views[k]) ==> l in UrlSet(Expand(start, log, views))
    {
      var before := Expand(start, log[..k], views[..k]);
      var after := Expand(start, log[..k + 1], views[..k + 1]);
      ExpandAt(start, log, views, k);
      ExpandPrefix(start, log, views, k + 1);
      UrlSetPrefix(after, Expand(start, log, views));
      forall l | l in FetchLinks(log[k].url, views[k])
        ensures l in UrlSet(after)
      {
        FollowedStep(log[k], views[k], before, after, l);
      }
    }

    /** A link returned for `e` is enqueued once `e` is aggregated. */
    lemma FollowedStep(e: QueueEntry, view: set<string>, before: seq<QueueEntry>, after: seq<QueueEntry>, l: string)
      requires FetchOk(e.url) && e.depth < maxDepth
      requires after == before + Added(e, view, UrlSet(before))
      requires l in FetchLinks(e.url, view)
      ensures l in UrlSet(after)
    {
      if l in UrlSet(before) {
        PrefixConcat(before, Added(e, view, UrlSet(before)));
        UrlSetPrefix(before, after);
      } else {
        ReturnedAdded(e, view, UrlSet(before), l);
        var a := QueueEntry(l, e.depth + 1);
        assert a in after;
      }
    }

    lemma ReturnedAdded(e: QueueEntry, view: set<string>, visited: set<string>, l: string)
      requires FetchOk(e.url) && e.depth < maxDepth
      requires l in FetchLinks(e.url, view) && l !in visited
      ensures QueueEntry(l, e.depth + 1) in Added(e, view, visited)
    {
      FreshAdded(FetchLinks(e.url, view), visited, e.depth + 1, l);
      AddedOk(e, view, visited);
    }

    lemma AddedOk(e: QueueEntry, view: set<string>, visited: set<string>)
      requires FetchOk(e.url) && e.depth < maxDepth
      ensures Added(e, view, visited) == AtDepth(Fresh(FetchLinks(e.url, view), visited), e.depth + 1)
    {
    }

    /** When a crawl ends, every link `fetch_url` returned for a found page below
        `max_depth` has been visited. */
    lemma CrawlFollowsLinks(start: string, enqueued: seq<QueueEntry>, log: seq<QueueEntry>,
                            views: seq<set<string>>, visited: set<string>)
      requires Viewed(start, enqueued, log, views, visited) && visited == UrlSet(enqueued)
      ensures forall k :: 0 <= k < |log| && FetchOk(log[k].url) && log[k].depth < maxDepth ==>
        forall l :: l in FetchLinks(log[k].url, views[k]) ==> l in visited
    {
      forall k | 0 <= k < |log| && FetchOk(log[k].url) && log[k].depth < maxDepth
        ensures forall l :: l in FetchLinks(log[k].url, views[k]) ==> l in visited
      {
        LinksFollowed(start, log, views, k);
      }
    }

    /** No page holds more valid links than `max_breadth` allows through. */
    ghost predicate BreadthSuffices() {
      forall url :: FetchOk(url) ==> |pageLinks(url).value| <= maxBreadth
    }

    /** When no page holds more valid links than `max_breadth`, a crawl that ends has
        visited every link of every page it found below `max_depth`: a link the worker
        saw as visited is visited, and every other one was returned. */
    lemma CrawlCoversLinks(start: string, topic: string, enqueued: seq<QueueEntry>,
                           batches: seq<seq<QueueEntry>>, orders: seq<seq<QueueEntry>>, views: seq<set<string>>,
                           visited: set<string>, discovery: seq<string>, content: seq<ContentRecord>)
      requires enqueued == Flatten(batches) && Batches(batches, orders, concurrentRequests)
      requires CrawlInv(start, topic, enqueued, Flatten(orders), visited, discovery, content)
      requires Viewed(start, enqueued, Flatten(orders), views, visited)
      requires BreadthSuffices()
      ensures forall x :: x in enqueued && FetchOk(x.url) && x.depth < maxDepth ==> CandidateLinks(x.url) <= visited
    {
      var log := Flatten(orders);
      FlattenPermutes(batches, orders, concurrentRequests);
      CrawlFollowsLinks(start, enqueued, log, views, visited);
      forall x | x in enqueued && FetchOk(x.url) && x.depth < maxDepth
        ensures CandidateLinks(x.url) <= visited
      {
        assert x in multiset(log);
        var k :| 0 <= k < |log| && log[k] == x;
        AllReturned(x.url, views[k], visited);
      }
    }

    /** With the page within `max_breadth`, the cut keeps every link outside the view. */
    lemma AllReturned(url: string, view: set<string>, visited: set<string>)
      requires FetchOk(url) && |pageLinks(url).value| <= maxBreadth && view <= visited
      requires forall l :: l in FetchLinks(url, view) ==> l in visited
      ensures CandidateLinks(url) <= visited
    {
      var all := FilterOut(pageLinks(url).value, view);
      assert FetchLinks(url, view) == all;
    }

    // ------------------------------------------------------------ search_content

    /** `search_content(search_topic)`. Every stored record has a score, so the branch that
        computes a missing one never runs. */
    method SearchContent(topic: string) returns (results: seq<ContentRecord>)
      ensures contentData == [] ==> results == []
      ensures !nlpLoaded ==> results == MatchingRecords(contentData, topic, relevanceThreshold)
      ensures nlpLoaded ==> results == SortByScore(MatchingRecords(contentData, topic, relevanceThreshold))
    {
      if contentData == [] {
        return [];
      }
      results := [];
      var i := 0;
      while i < |contentData|
        invariant 0 <= i <= |contentData|
        invariant results == MatchingRecords(contentData[..i], topic, relevanceThreshold)
      {
        var item := contentData[i];
        assert contentData[..i + 1][..i] == contentData[..i];
        if Contains(Lower(item.content), Lower(topic)) || Contains(Lower(item.title), Lower(topic))
          || item.relevanceScore > relevanceThreshold
        {
          results := results + [item];
        }
        i := i + 1;
      }
      assert contentData[..i] == contentData;
      if nlpLoaded {
        results := SortByScore(results);
      }
    }

    /** At most one record is stored per found page. */
    lemma {:induction false} RecordsCount(found: seq<QueueEntry>, topic: string)
      requires forall k :: 0 <= k < |found| ==> FetchOk(found[k].url)
      ensures |Records(found, topic)| <= |found|
    {
      if found != [] {
        var n := |found| - 1;
        RecordsCount(found[..n], topic);
      }
    }

    /** What the stored records say about the crawl that produced them: each points back
        to a found page through its discovery index, in increasing order, carries that
        page's URL and depth, the fallback title and at most 1000 characters of text. */
    lemma {:induction false} RecordsTiedToDiscovery(found: seq<QueueEntry>, topic: string)
      requires forall k :: 0 <= k < |found| ==> FetchOk(found[k].url)
      ensures forall k :: 0 <= k < |Records(found, topic)| ==> PointsInto(Records(found, topic)[k], found)
      ensures Increasing(Records(found, topic))
    {
      if found != [] {
        var n := |found| - 1;
        var prefix := found[..n];
        RecordsTiedToDiscovery(prefix, topic);
        var last := if Relevant(found[n].url, topic) then [RecordFor(found[n], n, topic)] else [];
        assert Records(found, topic) == Records(prefix, topic) + last;
        TiedSnoc(Records(prefix, topic), last, found);
      }
    }

    /** Without a language model every found page is stored, at its own position, with
        score 1.0. */
    lemma {:induction false} RecordsWithoutModel(found: seq<QueueEntry>, topic: string)
      requires !nlpLoaded
      requires forall k :: 0 <= k < |found| ==> FetchOk(found[k].url)
      ensures |Records(found, topic)| == |found|
      ensures forall k :: 0 <= k < |found| ==>
        Records(found, topic)[k].discoveryIndex == k && Records(found, topic)[k].relevanceScore == 1.0
    {
      if found != [] {
        RecordsWithoutModel(found[..|found| - 1], topic);
      }
    }

    /** Without a language model and with a threshold below 1.0, searching returns every
        stored record of a crawl, whatever the search topic. */
    lemma SearchFindsAllWithoutModel(found: seq<QueueEntry>, topic: string, query: string)
      requires !nlpLoaded && relevanceThreshold < 1.0
      requires forall k :: 0 <= k < |found| ==> FetchOk(found[k].url)
      ensures MatchingRecords(Records(found, topic), query, relevanceThreshold) == Records(found, topic)
    {
      RecordsWithoutModel(found, topic);
      MatchingAll(Records(found, topic), query, relevanceThreshold);
    }

    /** The found pages of a log are some of its entries, in order. */
    lemma {:induction false} FoundDistinct(log: seq<QueueEntry>)
      requires UrlsDistinct(log)
      ensures forall x :: x in Found(log) ==> x in log
      ensures UrlsDistinct(Found(log))
    {
      if log != [] {
        var n := |log| - 1;
        var prefix := log[..n];
        assert UrlsDistinct(prefix);
        FoundDistinct(prefix);
        var f := Found(prefix);
        forall x | x in f
          ensures x.url != log[n].url
        {
          var k :| 0 <= k < n && prefix[k] == x;
          assert log[k] == x;
        }
        if FetchOk(log[n].url) {
          var g := f + [log[n]];
          forall i, j | 0 <= i < j < |g|
            ensures g[i].url != g[j].url
          {
            if j == |f| {
              assert g[i] in f;
            } else {
              assert g[i] == f[i] && g[j] == f[j];
            }
          }
        }
      }
    }

    /** A crawl discovers each page at most once: the URLs of the discovery sequence are
        pairwise distinct, because every entry is enqueued once and aggregated once. */
    lemma CrawlDiscoversOnce(start: string, topic: string, enqueued: seq<QueueEntry>,
                             batches: seq<seq<QueueEntry>>, orders: seq<seq<QueueEntry>>,
                             visited: set<string>, discovery: seq<string>, content: seq<ContentRecord>)
      requires enqueued == Flatten(batches) && Batches(batches, orders, concurrentRequests)
      requires CrawlInv(start, topic, enqueued, Flatten(orders), visited, discovery, content)
      ensures Distinct(discovery)
    {
      FlattenPermutes(batches, orders, concurrentRequests);
      PermutedDistinct(enqueued, Flatten(orders));
      FoundDistinct(Flatten(orders));
      DistinctUrls(Found(Flatten(orders)));
    }
  }
}
