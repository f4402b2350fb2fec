# SnapIntel core, modelled in Dafny

SnapIntel collects information about companies. This project models four pieces of its
sequential logic and proves what they promise.

- **Two breadth-first web crawlers.**
  - `WebScraper` (`scarpeInternet_v1/scrapeInternet.py`) is a plain queue-driven crawler.
  - `EnhancedWebScraper` (`scarpeInternet_v1/scrapeInternet_3.py`) fetches the queue in
    batches on a thread pool and aggregates the results in one loop.
  - Both keep a visited set, a discovery sequence and a list of content records.
  - Both are modelled as Dafny classes whose methods update those fields
    (`basic_scraper.dfy`, `enhanced_scraper.dfy`).
  - Their pure helpers are functions (`basic_text.dfy`, `enhanced_text.dfy`): URL
    validation and normalisation, text clean-up, search and filename sanitising.
  - The queue bookkeeping shared by both is in `crawl_queue.dfy`.
  - The finite set of URLs a crawl can reach, which bounds every crawl, is in `reach.dfy`.
- **Three versions of the company-URL classifier `URLExtractor`.**
  - It walks a chat-completion response down to `choices[0].message.content` and stamps
    every entry with one timestamp.
  - It keeps the `http://`/`https://` entries and derives a registrable domain from the
    host.
  - It marks each kept entry first-party or third-party, and relevant or not.
  - Files: `url_extractor.dfy`, `url_extractor_v2.dfy` and `url_extractor_v1.dfy`.
  - The response is a small JSON datatype (`json.dfy`); `json.loads` is a partial function
    passed in.
- **The per-company URL store `URLStorage`** (`url_storage.dfy`).
  - It turns a company name into a file name.
  - It merges new entries into the stored list, appending only, with no duplicate url.
  - The two copies of the file in the repository are identical, so one model serves both.
- **The source-flattening helpers of `Extract_Project_Code.py`** (`project_code.dfy`).
  - The comment and docstring stripper: a character scanner with quote and escape flags.
  - The notebook code extractor.
  - The excluded-path test.

Supporting modules model the parts of the Python library the core relies on.

- `py_text.dfy` holds string operations: `find`, `split`, `join`, `strip`, ASCII `lower`
  and slicing.
- `urllib.dfy` holds `urllib.parse.urlsplit` and `urlparse` as in CPython 3.12. This is the
  generic syntax of section 3 of RFC 3986, plus Python's split of `;params` off the last
  path segment.
- `url_rebuild.dfy` proves that a URL rebuilt from its parsed parts parses back into them.
- `wrappers.dfy` holds `Option`, `Result` and the exceptions the code can raise.

Parts of the system become parameters:

- **Network fetch:** an oracle from a URL to `Option<Page>`.
- **HTML parser output:** the title, the text and the list of hrefs on that page.
- **`urljoin`:** an uninterpreted function that may raise.
- **spaCy model:** a flag for whether it loaded, plus an abstract similarity function.
- **`json.loads`:** a partial function.
- **Clock:** a timestamp string.
- **`os.path.isfile`:** a boolean.

**Concurrent aggregation.** `EnhancedWebScraper` aggregates a batch through `as_completed`.
The model does this sequentially, in an arbitrary order: any rearrangement of the batch.
Each worker's read of the visited set may be any set between:

- the visited set at the start of the batch;
- the visited set at the moment its own result is aggregated.

## Model

| member | source | states |
|---|---|---|
| BasicText.NormalizeUrl | scarpeInternet_v1/scrapeInternet.py:30-44 | `None` for an empty or `#`-led href; an absolute http(s) href is returned verbatim; any other goes through `urljoin`, whose exception propagates |
| BasicText.FragmentKept | scarpeInternet_v1/scrapeInternet.py:36-37 | an absolute http(s) href keeps its fragment here, while the enhanced normaliser never returns it unchanged |
| BasicText.NormalizeFixesAbsolute | scarpeInternet_v1/scrapeInternet.py:36-37 | an absolute http(s) result normalises to itself again, against any base and any `urljoin` |
| BasicText.SchemeHostValid | scarpeInternet_v1/scrapeInternet.py:22-28 | `scheme://host` parses into exactly that scheme and host and is valid for every scheme `urlparse` recognises, `ftp` included: there is no scheme restriction |
| BasicText.EnhancedValidIsValid | scarpeInternet_v1/scrapeInternet.py:24-26 | every URL the enhanced validator accepts, with or without allowed domains, is valid here |
| BasicText.SplitLinesNoBreak | scarpeInternet_v1/scrapeInternet.py:56 | no line produced by `splitlines` contains a line boundary |
| BasicText.SplitDoubleSpaceNoPair | scarpeInternet_v1/scrapeInternet.py:59 | no part of `split("  ")` holds two spaces in a row |
| BasicText.SplitDoubleSpaceNoBreak | scarpeInternet_v1/scrapeInternet.py:59 | splitting a line on two spaces creates no line boundary |
| BasicText.JoinSplitDoubleSpace | scarpeInternet_v1/scrapeInternet.py:59 | joining the parts with two spaces gives back the line (the split loses nothing) |
| BasicText.PhrasesClean | scarpeInternet_v1/scrapeInternet.py:59-62 | the stripped, non-empty phrases are clean chunks: non-empty, no whitespace at either end, no double space, no line boundary |
| BasicText.LineChunksClean | scarpeInternet_v1/scrapeInternet.py:56-62 | every chunk cut from one line is clean |
| BasicText.AllChunksClean | scarpeInternet_v1/scrapeInternet.py:56-62 | every chunk cut from every line is clean |
| BasicText.ExtractTextChunks | scarpeInternet_v1/scrapeInternet.py:56-62 | the output is empty exactly when there are no chunks, and otherwise splits on `\n` back into exactly the clean chunks |
| BasicText.SplitLinesKeepsWords | scarpeInternet_v1/scrapeInternet.py:56 | `splitlines` drops only whitespace: the lines carry every other character of the text, in order |
| BasicText.ExtractKeepsWords | scarpeInternet_v1/scrapeInternet.py:46-64 | the clean-up only moves whitespace: the output has exactly the non-whitespace characters of the page text, in order |
| BasicScraper.PageLinks | scarpeInternet_v1/scrapeInternet.py:95-105 | every link collected from a page passes `is_valid_url`; the exception of a failing href is reported instead |
| BasicScraper.PageLinksErrExtends | scarpeInternet_v1/scrapeInternet.py:95-112 | once an href fails to normalise, the whole link collection fails, whatever follows |
| BasicScraper.MatchingRecords | scarpeInternet_v1/scrapeInternet.py:165-171 | a record is in the result exactly when it is stored and the lower-cased topic occurs in its lower-cased content or title |
| BasicScraper.MatchingAppend | scarpeInternet_v1/scrapeInternet.py:165-171 | the filter keeps stored order: it distributes over concatenation |
| BasicScraper.WebScraper.constructor | scarpeInternet_v1/scrapeInternet.py:12-17 | the limits are as given; visited set, discovery sequence and records start empty |
| BasicScraper.WebScraper.LinksAreCandidates | scarpeInternet_v1/scrapeInternet.py:95-108 | every returned link is one of the page's valid links and was not visited |
| BasicScraper.WebScraper.CollectLinks | scarpeInternet_v1/scrapeInternet.py:95-105 | the loop returns the page's valid links that are not visited, in document order, or fails exactly when an href fails to normalise |
| BasicScraper.WebScraper.GetLinksAndContent | scarpeInternet_v1/scrapeInternet.py:66-112 | a page that downloads as HTML is stored with its 1-based discovery index, title or `No Title`, and at most 1000 characters. The links are at most `max_breadth` unvisited valid links in document order, or none on any failure. Visited set and discovery sequence are untouched |
| BasicScraper.WebScraper.EnqueueFresh | scarpeInternet_v1/scrapeInternet.py:141-144 | appends exactly the links not yet visited, each once, at the given depth, and adds exactly their URLs to the visited set |
| BasicScraper.WebScraper.Visit | scarpeInternet_v1/scrapeInternet.py:125-144 | an entry deeper than `max_depth` changes nothing. Any other joins the discovery sequence before its fetch, a downloaded page adds one record indexed by that sequence's new length, and its fresh links are enqueued one level deeper |
| BasicScraper.WebScraper.VisitTracked | scarpeInternet_v1/scrapeInternet.py:125-144 | one loop pass pops the front entry and keeps the crawl invariant: no URL enqueued twice, visited set equal to the URLs enqueued, discovery and records those of the entries popped so far. The entries ever enqueued grow by exactly what that visit enqueues, stay those `Expand` derives from the popped entries, and stay in nondecreasing depth order |
| BasicScraper.WebScraper.Crawl | scarpeInternet_v1/scrapeInternet.py:114-147 | the crawl terminates (the visited set grows inside the finite set reachable within the depth bound). Every entry ever enqueued has been popped; the entries ever enqueued are exactly those that popping all of them produces, in nondecreasing depth order; the final state satisfies the crawl invariant |
| BasicScraper.WebScraper.Added | scarpeInternet_v1/scrapeInternet.py:128-144 | what one popped entry enqueues lies exactly one level below it |
| BasicScraper.WebScraper.Expand | scarpeInternet_v1/scrapeInternet.py:121-144 | the entries ever enqueued start with the start URL at depth 0 |
| BasicScraper.WebScraper.TrackedStep | scarpeInternet_v1/scrapeInternet.py:125-144 | popping the next entry and appending what it enqueues keeps the entries equal to `Expand` of the popped ones and in breadth-first depth order |
| BasicScraper.WebScraper.Progress | scarpeInternet_v1/scrapeInternet.py:125-144 | each loop pass either visits a new URL inside the reach bound or shortens the queue, so the loop ends |
| BasicScraper.WebScraper.LinksCovered | scarpeInternet_v1/scrapeInternet.py:100-105 | every link the visit returns is visited already or enqueued one level deeper by it |
| BasicScraper.WebScraper.CandidatesCovered | scarpeInternet_v1/scrapeInternet.py:95-108 | on a page with at most `max_breadth` valid links, every valid link is visited already or enqueued one level deeper |
| BasicScraper.WebScraper.ExpandPrefix | scarpeInternet_v1/scrapeInternet.py:141-144 | popping more entries only appends to the entries enqueued |
| BasicScraper.WebScraper.ExpandBelow | scarpeInternet_v1/scrapeInternet.py:141-144 | no entry is enqueued deeper than one level below the deepest popped entry |
| BasicScraper.WebScraper.LinksFollowed | scarpeInternet_v1/scrapeInternet.py:138-144 | every link returned for a popped page ends up enqueued |
| BasicScraper.WebScraper.LinkReached | scarpeInternet_v1/scrapeInternet.py:125-144 | in a finished crawl a valid link of a page popped within `max_depth`, with at most `max_breadth` links, is enqueued at most one level below that page |
| BasicScraper.WebScraper.FinishedClosed | scarpeInternet_v1/scrapeInternet.py:114-147 | when no page has more than `max_breadth` valid links, a finished crawl is closed under following links within `max_depth` |
| BasicScraper.WebScraper.CrawlReachesAll | scarpeInternet_v1/scrapeInternet.py:114-147 | a closed crawl holds every URL reachable from the start in `d` link steps, at a depth of at most `d` |
| BasicScraper.WebScraper.ReachStep | scarpeInternet_v1/scrapeInternet.py:138-144 | a URL reachable in `d + 1` steps is enqueued by depth `d + 1` once all URLs reachable in `d` steps are enqueued by depth `d` |
| BasicScraper.WebScraper.CrawlComplete | scarpeInternet_v1/scrapeInternet.py:114-147 | with no page over `max_breadth` valid links, the final visited set is exactly the set of URLs reachable from the start within `max_depth + 1` link steps |
| BasicScraper.WebScraper.CrawlDepthIsDistance | scarpeInternet_v1/scrapeInternet.py:114-147 | under the same condition each URL is enqueued at its link distance from the start: reachable in that many steps and not in fewer |
| BasicScraper.WebScraper.CrawlDiscoversReachable | scarpeInternet_v1/scrapeInternet.py:125-135 | under the same condition a URL is in the discovery sequence exactly when it is reachable from the start within `max_depth` link steps |
| BasicScraper.WebScraper.NotShallower | scarpeInternet_v1/scrapeInternet.py:141-144 | an entry is the only one for its URL, so that URL is never enqueued shallower |
| BasicScraper.WebScraper.Discovered | scarpeInternet_v1/scrapeInternet.py:129-135 | the entries that enter the discovery sequence all have depth at most `max_depth` |
| BasicScraper.WebScraper.LogStep | scarpeInternet_v1/scrapeInternet.py:129-138 | popping one more entry extends discovery and records exactly as the loop body does |
| BasicScraper.WebScraper.CrawlStarts | scarpeInternet_v1/scrapeInternet.py:117-123 | the reset state with the start URL queued and marked visited verbatim satisfies the invariant |
| BasicScraper.WebScraper.InvBounded | scarpeInternet_v1/scrapeInternet.py:141-144 | every visited URL is reachable from the start within `max_depth + 1` link steps |
| BasicScraper.WebScraper.VisitKeeps | scarpeInternet_v1/scrapeInternet.py:125-144 | a visit step that starts in the invariant ends in it, and enqueues only URLs not visited before |
| BasicScraper.WebScraper.QueueKeeps | scarpeInternet_v1/scrapeInternet.py:141-144 | enqueueing keeps the start entry first, URLs distinct, and the visited set equal to the enqueued URLs |
| BasicScraper.WebScraper.DiscoveredFacts | scarpeInternet_v1/scrapeInternet.py:129-135 | the discovered entries are exactly the popped entries of depth at most `max_depth`, and stay distinct |
| BasicScraper.WebScraper.RecordsTiedToDiscovery | scarpeInternet_v1/scrapeInternet.py:84-92 | each record's discovery index points at its own URL and depth in the discovery sequence (1-based, itself included); the page downloaded; the title is the page's or `No Title`; the content is at most 1000 characters; the indexes increase |
| BasicScraper.WebScraper.CrawlOutcome | scarpeInternet_v1/scrapeInternet.py:114-147 | after a crawl: discovery URLs are distinct and all visited; every enqueued depth is between 0 and `max_depth + 1`; discovery is exactly the enqueued entries within `max_depth`, in order; every record points at its own discovery position and holds at most 1000 characters |
| BasicScraper.WebScraper.SearchContent | scarpeInternet_v1/scrapeInternet.py:159-173 | returns the stored records whose content or title contains the topic, ignoring case, in stored order; `[]` when nothing is stored |
| CrawlQueue.FilterOut | scarpeInternet_v1/scrapeInternet.py:100-105 | keeps exactly the links outside the visited set |
| CrawlQueue.FreshFacts | scarpeInternet_v1/scrapeInternet_3.py:264-267 | the enqueue loop takes exactly the links not seen before, each once even when a page repeats it |
| CrawlQueue.EnqueueLinks | scarpeInternet_v1/scrapeInternet_3.py:264-267 | the queue grows by the fresh links at the given depth, and the visited set by exactly their URLs |
| EnhancedText.AnyEndsWith | scarpeInternet_v1/scrapeInternet_3.py:81-84 | true exactly when the host ends with one of the allowed domains |
| EnhancedText.ValidMeansAccepted | scarpeInternet_v1/scrapeInternet_3.py:69-88 | valid exactly when the URL parses (no `ValueError`) with a non-empty http or https scheme and a host, and, when allowed domains are given, the host ends with one of them |
| EnhancedText.DomainSuffixIsTextual | scarpeInternet_v1/scrapeInternet_3.py:79-84 | the domain test is a plain suffix test: `notexample.com` passes for `example.com`, `example.com:8080` fails |
| EnhancedText.Rebuild | scarpeInternet_v1/scrapeInternet_3.py:106-113 | the rebuilt URL never holds a `#`; it fails only when `urlparse` raises |
| EnhancedText.NormalizeUrl | scarpeInternet_v1/scrapeInternet_3.py:90-113 | `None` for an empty or `#`-led href; any URL it returns is free of fragments |
| EnhancedText.NormalizedShape | scarpeInternet_v1/scrapeInternet_3.py:106-113 | a result is scheme, `://`, netloc, path and `?query` only when the query is non-empty, from the parse of the href (absolute) or of the `urljoin` result; params and fragment are dropped |
| EnhancedText.NormalizeIdempotent | scarpeInternet_v1/scrapeInternet_3.py:90-113 | normalising an http(s) result again gives it back, against any base; the only exception is a `ValueError` when the result does not parse |
| EnhancedText.CollapseRunsKeepsWords | scarpeInternet_v1/scrapeInternet_3.py:125 | replacing whitespace runs by a space keeps every other character, in order |
| EnhancedText.CollapseRunsSpacing | scarpeInternet_v1/scrapeInternet_3.py:125 | after the substitution every whitespace character is a single plain space |
| EnhancedText.CollapseWhitespace | scarpeInternet_v1/scrapeInternet_3.py:125 | the cleaned text neither starts nor ends with whitespace |
| EnhancedText.CollapsedKeepsWords | scarpeInternet_v1/scrapeInternet_3.py:125 | the cleaned text keeps every non-whitespace character of the input, in order |
| EnhancedText.CollapsedSpacing | scarpeInternet_v1/scrapeInternet_3.py:125 | the only whitespace left is single spaces between words |
| EnhancedText.IsContentRelevant | scarpeInternet_v1/scrapeInternet_3.py:129-145 | without a model every content is relevant. With one, content shorter than 100 characters never is, and content of 100 characters or more is relevant exactly when the similarity of its first 5000 characters is above the threshold |
| EnhancedText.SanitizeFilename | scarpeInternet_v1/scrapeInternet_3.py:334-338 | each of `\ / * ? : " < > \|` becomes `_`, every other character stays, the length is preserved |
| EnhancedText.SanitizeIdempotent | scarpeInternet_v1/scrapeInternet_3.py:334-338 | no invalid character is left, so sanitising twice equals sanitising once |
| EnhancedScraper.PageLinks | scarpeInternet_v1/scrapeInternet_3.py:169-179 | every collected link passes `is_valid_url` with the allowed domains; a failing href is reported instead |
| EnhancedScraper.PageLinksErrExtends | scarpeInternet_v1/scrapeInternet_3.py:169-191 | once an href fails to normalise, the whole fetch fails |
| EnhancedScraper.FlattenPermutes | scarpeInternet_v1/scrapeInternet_3.py:207-221 | the aggregation orders together are a rearrangement of the batches together |
| EnhancedScraper.PermutedDistinct | scarpeInternet_v1/scrapeInternet_3.py:221 | aggregating in any order keeps entries with distinct URLs distinct |
| EnhancedScraper.MatchingRecords | scarpeInternet_v1/scrapeInternet_3.py:315-323 | a record is kept exactly when the topic occurs in its content or title ignoring case, or its score is above the threshold |
| EnhancedScraper.MatchingAll | scarpeInternet_v1/scrapeInternet_3.py:315-323 | records that all pass come back unchanged, order included |
| EnhancedScraper.InsertByScore | scarpeInternet_v1/scrapeInternet_3.py:326-329 | inserting adds one record, in front or after the first record |
| EnhancedScraper.InsertKeepsOrder | scarpeInternet_v1/scrapeInternet_3.py:326-329 | inserting into a list ordered by descending score keeps it ordered |
| EnhancedScraper.InsertAddsOne | scarpeInternet_v1/scrapeInternet_3.py:326-329 | inserting adds exactly the one record |
| EnhancedScraper.SortByScore | scarpeInternet_v1/scrapeInternet_3.py:326-329 | the result is ordered by descending score and is a permutation of the input |
| EnhancedScraper.InsertStable | scarpeInternet_v1/scrapeInternet_3.py:326-329 | inserting a record puts it before every record of the same score and keeps their order |
| EnhancedScraper.SortByScoreStable | scarpeInternet_v1/scrapeInternet_3.py:326-329 | the sort is stable: the records of each score come out in the order they came in |
| EnhancedScraper.CollectStep | scarpeInternet_v1/scrapeInternet_3.py:169-179 | one href of the link loop appends its normalised link exactly when that link is non-empty, valid and outside the view |
| EnhancedScraper.EnhancedWebScraper.constructor | scarpeInternet_v1/scrapeInternet_3.py:17-67 | the settings are as given; visited set, discovery sequence and records start empty |
| EnhancedScraper.EnhancedWebScraper.FetchLinksAreCandidates | scarpeInternet_v1/scrapeInternet_3.py:169-186 | every returned link is one of the page's valid links and outside the worker's view of the visited set |
| EnhancedScraper.EnhancedWebScraper.FetchUrl | scarpeInternet_v1/scrapeInternet_3.py:147-191 | `None` exactly when the download or an href fails. Otherwise the result has the URL, depth, title `No Title`, the cleaned text and at most `max_breadth` valid links outside the view, in document order |
| EnhancedScraper.EnhancedWebScraper.BatchSize | scarpeInternet_v1/scrapeInternet_3.py:207-210 | never more than is queued, and between 1 and `concurrent_requests` when both are positive |
| EnhancedScraper.EnhancedWebScraper.TakeBatch | scarpeInternet_v1/scrapeInternet_3.py:207-210 | the batch is the first `min(concurrent_requests, len(queue))` entries, in FIFO order, and the rest stays queued |
| EnhancedScraper.EnhancedWebScraper.Absorb | scarpeInternet_v1/scrapeInternet_3.py:221-267 | a failed fetch changes nothing, though its URL stays visited. A success joins the discovery sequence, and a relevant page adds one record indexed at its 0-based position. Below `max_depth`, its fresh links are enqueued one level deeper and marked visited |
| EnhancedScraper.EnhancedWebScraper.EnqueueFresh | scarpeInternet_v1/scrapeInternet_3.py:263-267 | appends exactly the links not yet visited, each once, and marks exactly those visited |
| EnhancedScraper.EnhancedWebScraper.AbsorbTracked | scarpeInternet_v1/scrapeInternet_3.py:221-267 | one aggregation step keeps the crawl invariant, enqueues only URLs not visited before, and extends the entries ever enqueued by exactly what `Expand` derives for that entry and its worker's view |
| EnhancedScraper.EnhancedWebScraper.AggregateBatch | scarpeInternet_v1/scrapeInternet_3.py:213-272 | aggregating a batch in any order, with each worker reading any visited set between batch start and its own aggregation, keeps the invariant and enqueues no URL twice. It returns each worker's view: the entries ever enqueued are exactly what `Expand` derives from the aggregated entries and those views, and each view lies between the visited set at batch start and the one at the end |
| EnhancedScraper.EnhancedWebScraper.Added | scarpeInternet_v1/scrapeInternet_3.py:259-267 | what one aggregation enqueues lies exactly one level below the aggregated entry |
| EnhancedScraper.EnhancedWebScraper.Expand | scarpeInternet_v1/scrapeInternet_3.py:201-267 | the entries ever enqueued start with the start URL at depth 0 |
| EnhancedScraper.EnhancedWebScraper.ExpandStep | scarpeInternet_v1/scrapeInternet_3.py:259-267 | aggregating one more entry appends exactly what it enqueues to `Expand` |
| EnhancedScraper.EnhancedWebScraper.ViewsSnoc | scarpeInternet_v1/scrapeInternet_3.py:213-221 | a further worker view within the bounds keeps the views of the batch within them |
| EnhancedScraper.EnhancedWebScraper.ExpandPrefix | scarpeInternet_v1/scrapeInternet_3.py:259-267 | aggregating more entries only appends to the entries enqueued |
| EnhancedScraper.EnhancedWebScraper.LinksFollowed | scarpeInternet_v1/scrapeInternet_3.py:259-267 | every link `fetch_url` returned for an aggregated page below `max_depth` ends up enqueued |
| EnhancedScraper.EnhancedWebScraper.FollowedStep | scarpeInternet_v1/scrapeInternet_3.py:263-267 | a returned link is enqueued once its page is aggregated: it was visited already or that step enqueues it |
| EnhancedScraper.EnhancedWebScraper.ReturnedAdded | scarpeInternet_v1/scrapeInternet_3.py:263-267 | a returned link not yet visited is enqueued one level below its page |
| EnhancedScraper.EnhancedWebScraper.CrawlFollowsLinks | scarpeInternet_v1/scrapeInternet_3.py:193-278 | when a crawl ends, every link `fetch_url` returned for a found page below `max_depth` is visited |
| EnhancedScraper.EnhancedWebScraper.CrawlCoversLinks | scarpeInternet_v1/scrapeInternet_3.py:169-278 | when no page has more than `max_breadth` valid links, a crawl that ends has visited every valid link of every page it found below `max_depth` |
| EnhancedScraper.EnhancedWebScraper.AllReturned | scarpeInternet_v1/scrapeInternet_3.py:169-186 | on a page within `max_breadth`, a worker's fetch returns every valid link outside its view |
| EnhancedScraper.EnhancedWebScraper.CrawlRound | scarpeInternet_v1/scrapeInternet_3.py:205-272 | one pass raises (changing nothing) exactly when `concurrent_requests` is not positive. Otherwise it takes one batch from the front, keeps the invariant and the account of the entries enqueued by the workers' views, and either grows the visited set or shortens the queue |
| EnhancedScraper.EnhancedWebScraper.Crawl | scarpeInternet_v1/scrapeInternet_3.py:193-278 | the crawl terminates. It raises `ValueError` after the reset exactly when `concurrent_requests` is not positive. Otherwise every enqueued entry was batched, each batch has 1 to `concurrent_requests` entries aggregated in some order, the crawl invariant holds, and the entries ever enqueued are exactly what `Expand` derives from the aggregation order and the returned worker views, each view within the final visited set |
| EnhancedScraper.EnhancedWebScraper.Found | scarpeInternet_v1/scrapeInternet_3.py:227-231 | the pages entering the discovery sequence are those whose fetch succeeded |
| EnhancedScraper.EnhancedWebScraper.LogStep | scarpeInternet_v1/scrapeInternet_3.py:227-256 | aggregating one more entry extends discovery and records exactly as the loop body does |
| EnhancedScraper.EnhancedWebScraper.AddedPlaced | scarpeInternet_v1/scrapeInternet_3.py:263-267 | links enqueued from an entry below `max_depth` are distinct, new and reachable one step deeper |
| EnhancedScraper.EnhancedWebScraper.AbsorbKeeps | scarpeInternet_v1/scrapeInternet_3.py:221-267 | an aggregation step that starts in the invariant ends in it |
| EnhancedScraper.EnhancedWebScraper.CrawlStarts | scarpeInternet_v1/scrapeInternet_3.py:196-202 | the reset state with the start URL queued and marked visited verbatim satisfies the invariant |
| EnhancedScraper.EnhancedWebScraper.InvBounded | scarpeInternet_v1/scrapeInternet_3.py:263-267 | every visited URL is reachable from the start within `max_depth` link steps |
| EnhancedScraper.EnhancedWebScraper.VisitedBounded | scarpeInternet_v1/scrapeInternet_3.py:263-266 | no queued entry is deeper than `max_depth` (when it is non-negative), so the enqueued URLs stay in the reach bound |
| EnhancedScraper.EnhancedWebScraper.SearchContent | scarpeInternet_v1/scrapeInternet_3.py:300-331 | `[]` when nothing is stored. Otherwise the matching records in stored order without a model, or sorted by descending score with one |
| EnhancedScraper.EnhancedWebScraper.RecordsCount | scarpeInternet_v1/scrapeInternet_3.py:234-256 | at most one record per found page |
| EnhancedScraper.EnhancedWebScraper.RecordsTiedToDiscovery | scarpeInternet_v1/scrapeInternet_3.py:238-247 | each record's discovery index is the 0-based position of its URL and depth among the found pages; its title is `No Title`; its content is at most 1000 characters; indexes increase |
| EnhancedScraper.EnhancedWebScraper.RecordsWithoutModel | scarpeInternet_v1/scrapeInternet_3.py:131-132 | without a model every found page becomes a record, at its own position, with score 1.0 |
| EnhancedScraper.EnhancedWebScraper.SearchFindsAllWithoutModel | scarpeInternet_v1/scrapeInternet_3.py:315-323 | without a model and with a threshold below 1.0, searching returns every stored record, whatever the topic |
| EnhancedScraper.EnhancedWebScraper.FoundDistinct | scarpeInternet_v1/scrapeInternet_3.py:227-231 | found pages are entries of the log, and distinct URLs stay distinct |
| EnhancedScraper.EnhancedWebScraper.CrawlDiscoversOnce | scarpeInternet_v1/scrapeInternet_3.py:221-267 | the discovery sequence never holds a URL twice |
| Json.First | company_url_collector/src/url_extractor.py:50 | `[0]` of a non-empty list is its first item; an empty list or string raises IndexError; a value that is not a list or string raises |
| UrlExtractor.LastLabels | company_url_collector/src/url_extractor.py:184-198 | the last `k` dot-labels, joined, end the host and split back into those labels |
| UrlExtractor.HostDomainLabels | company_url_collector/src/url_extractor.py:184-200 | the domain ends the host, and its labels are its last one, two or three labels |
| UrlExtractor.DomainLabels | company_url_collector/src/url_extractor.py:184-200 | the domain is the last three labels when a middle label is co/com/org/net/gov/edu, else the last two, else the whole netloc |
| UrlExtractor.HostDomainIdempotent | company_url_collector/src/url_extractor.py:184-200 | cutting the domain out of a domain gives it back |
| UrlExtractor.DomainOfLabels | company_url_collector/src/url_extractor.py:184-200 | one to three dot-free labels (middle of three in the list) are their own domain |
| UrlExtractor.ExtractDomain | company_url_collector/src/url_extractor.py:175-176 | an empty URL has the empty domain |
| UrlExtractor.Prefixed | company_url_collector/src/url_extractor.py:179-180 | `https://` is prepended exactly when the URL does not start with `http` |
| UrlExtractor.DomainOfParse | company_url_collector/src/url_extractor.py:182-200 | the domain is cut from the netloc `urlparse` finds in the prefixed URL |
| UrlExtractor.BareHostDomain | company_url_collector/src/url_extractor.py:178-184 | a bare host not starting with `http` is read as `https://host`, so its domain is the host's |
| UrlExtractor.HttpNamedHostLost | company_url_collector/src/url_extractor.py:179-184 | a bare host that starts with `http` (such as `httpbin.org`) gets no prefix, parses as a path, and its domain is empty |
| UrlExtractor.CompanyDomain | company_url_collector/src/url_extractor.py:124-126 | there is a company domain exactly when a non-empty company URL is given |
| UrlExtractor.IsCompanyUrl | company_url_collector/src/url_extractor.py:209-238 | false when the URL or company domain is empty or missing; when true, the lower-cased domain ends with the lower-cased company domain |
| UrlExtractor.MatchEndsWith | company_url_collector/src/url_extractor.py:226-232 | a match is equality or a suffix preceded by a dot, ignoring case: `notexample.com` does not match `example.com` |
| UrlExtractor.MatchIgnoresCase | company_url_collector/src/url_extractor.py:226-227 | the domain test ignores case on both sides |
| UrlExtractor.SubdomainMatches | company_url_collector/src/url_extractor.py:230-232 | a subdomain of a matching domain matches too |
| UrlExtractor.CompanyUrlIgnoresCase | company_url_collector/src/url_extractor.py:226-227 | the first-party test ignores the case of the company domain |
| UrlExtractor.HttpNamedCompanyMatchesNothing | company_url_collector/src/url_extractor.py:124-126 | a company URL like `httpbin.org` gives an empty domain, so no URL is first-party |
| UrlExtractor.MatchesAny | company_url_collector/src/url_extractor.py:274-277 | a "no match" verdict means every pattern compiled and none matched |
| UrlExtractor.LiteralScan | company_url_collector/src/url_extractor.py:274-277 | over compiling literal patterns the scan is a case-insensitive substring test |
| UrlExtractor.MentionsAny | company_url_collector/src/url_extractor.py:288-294 | true exactly when one of the terms occurs in the text |
| UrlExtractor.AssessRelevance | company_url_collector/src/url_extractor.py:241-297 | never returns False: it returns True exactly for first-party URLs and otherwise raises the `re.error` of `*login*` |
| UrlExtractor.HttpUrl | company_url_collector/src/url_extractor.py:133-138 | an entry is kept exactly when its url is a string starting with `http://` or `https://`; a truthy url that is not a string raises |
| UrlExtractor.HttpEntries | company_url_collector/src/url_extractor.py:132-138 | the kept entries are exactly the entries passing the scheme check |
| UrlExtractor.ValidatedPasses | company_url_collector/src/url_extractor.py:132-152 | `validate_urls` returns exactly when no entry raises |
| UrlExtractor.ValidatedContents | company_url_collector/src/url_extractor.py:132-152 | when it returns, the result is the kept entries in input order, each with its own fields plus its first-party flag and relevance verdict |
| UrlExtractor.ValidatedFlags | company_url_collector/src/url_extractor.py:141-150 | every returned entry carries both flags as booleans |
| UrlExtractor.ValidatedAllFirstParty | company_url_collector/src/url_extractor.py:141-150 | every entry this version returns is first-party and relevant, because a third-party URL raises |
| UrlExtractor.ValidateWithoutCompany | company_url_collector/src/url_extractor.py:124-150 | without a company URL it returns only when no entry passes the scheme check, and then returns `[]` |
| UrlExtractor.ValidateEntries | company_url_collector/src/url_extractor.py:132-152 | the annotation loop computes `Validated` |
| UrlExtractor.ValidateUrls | company_url_collector/src/url_extractor.py:109-162 | `validate_urls` computes `Validated` with this version's first-party test and relevance |
| UrlExtractor.Stamped | company_url_collector/src/url_extractor.py:90-93 | a list of dicts comes back with every dict given the one timestamp; anything else that is iterated and not a dict raises TypeError; an empty dict or string passes untouched |
| UrlExtractor.StampItems | company_url_collector/src/url_extractor.py:92-93 | succeeds exactly when every item is a dict, each then stamped with the timestamp |
| UrlExtractor.RestampOverrides | company_url_collector/src/url_extractor.py:90-93 | stamping twice leaves only the second timestamp |
| UrlExtractor.StampEntries | company_url_collector/src/url_extractor.py:90-93 | the stamping loop computes `Stamped` |
| UrlExtractor.Extracted | company_url_collector/src/url_extractor.py:33-107 | every exception comes out wrapped in a generic Exception; every returned list entry carries the one timestamp |
| UrlExtractor.EmptyCases | company_url_collector/src/url_extractor.py:39-88 | returns `[]` when choices are missing or empty, when the choice has no message, or when the message has no content. It also returns `[]` for string content that does not parse and for content that is neither a string nor a list |
| UrlExtractor.ListContentStamped | company_url_collector/src/url_extractor.py:82-93 | list content of dicts is returned as that list, each dict stamped |
| UrlExtractor.ExtractUrlsFromResponse | company_url_collector/src/url_extractor.py:20-107 | the method computes `Extracted` |
| UrlExtractorV2.IsCompanyUrlV2 | company_url_collector/src/url_extractor_v2.py:94-103 | true only for a non-empty URL whose domain equals the company domain character for character |
| UrlExtractorV2.ExactImpliesSuffixMatch | company_url_collector/src/url_extractor_v2.py:96-101 | a URL first-party here is first-party in the first version too |
| UrlExtractorV2.CaseSensitiveMatch | company_url_collector/src/url_extractor_v2.py:100-101 | a domain differing only in case is third-party here and first-party in the first version |
| UrlExtractorV2.SubdomainIsThirdParty | company_url_collector/src/url_extractor_v2.py:100-101 | a subdomain of the company is third-party here, first-party in the first version |
| UrlExtractorV2.AssessRelevanceV2 | company_url_collector/src/url_extractor_v2.py:105-153 | first-party is relevant. Otherwise a case-insensitive literal pattern hit is irrelevant; else the URL is irrelevant exactly when lower(title) + " " + lower(description) mentions `404`, `not found` or `error`. A non-string title or description raises AttributeError |
| UrlExtractorV2.RelevantWithoutCompany | company_url_collector/src/url_extractor_v2.py:116-153 | without a company domain a URL is relevant exactly when it has no pattern hit and its text no term |
| UrlExtractorV2.ValidatedOnStrings | company_url_collector/src/url_extractor_v2.py:36-57 | over entries with string fields it never raises and returns the kept entries in order, each annotated with both verdicts |
| UrlExtractorV2.ValidateUrls | company_url_collector/src/url_extractor_v2.py:27-57 | `validate_urls` computes `Validated` with this version's exact first-party test |
| UrlExtractorV2.Caught | company_url_collector/src/url_extractor_v2.py:24-25 | JSONDecodeError, KeyError and IndexError are re-raised wrapped; anything else passes through as it is |
| UrlExtractorV2.Content | company_url_collector/src/url_extractor_v2.py:14-18 | IndexError exactly when `choices` is missing or an empty list or string |
| UrlExtractorV2.ExtractedV2 | company_url_collector/src/url_extractor_v2.py:13-25 | no caught exception escapes unwrapped; a wrapped one is one of the three caught kinds; every returned list entry carries the one timestamp |
| UrlExtractorV2.NoChoicesRaises | company_url_collector/src/url_extractor_v2.py:14-25 | missing or empty choices raise the wrapped IndexError here, where the first version returns `[]` |
| UrlExtractorV2.AgreesOnStringContent | company_url_collector/src/url_extractor_v2.py:14-25 | on parseable string content both versions return the same stamped list, or both fail at stamping (TypeError, wrapped only in the first version). On unparseable content this one raises wrapped JSONDecodeError and the first version returns `[]` |
| UrlExtractorV2.ExtractUrlsFromResponse | company_url_collector/src/url_extractor_v2.py:9-25 | the method computes `ExtractedV2` |
| UrlExtractorV1.Filtered | company_url_collector_v1/src/url_extractor.py:39-45 | returns exactly when every url is of a usable type, and then the entries with a non-empty `http://`/`https://` url, in order, unmodified |
| UrlExtractorV1.KeptSubsequence | company_url_collector_v1/src/url_extractor.py:39-45 | the result is a subsequence of the input |
| UrlExtractorV1.KeptKeepsAll | company_url_collector_v1/src/url_extractor.py:39-45 | filtering the kept entries keeps all of them |
| UrlExtractorV1.FilteredIdempotent | company_url_collector_v1/src/url_extractor.py:34-45 | validating a validated list returns it unchanged |
| UrlExtractorV1.AnnotatedAreKept | company_url_collector_v1/src/url_extractor.py:39-43 | the annotating versions keep the same entries as this one, each with only the two flags added |
| UrlExtractorV1.ValidateUrls | company_url_collector_v1/src/url_extractor.py:34-45 | the method computes `Filtered` |
| UrlStorage.Replace | company_url_collector/src/url_storage.py:17 | replaces every occurrence of one character and nothing else, keeping the length |
| UrlStorage.NormalizedName | company_url_collector/src/url_storage.py:17 | the normalised name keeps the length and has no space, no dot and no upper-case letter |
| UrlStorage.SameFileName | company_url_collector/src/url_storage.py:17-18 | two names share a file exactly when they agree character by character up to case and up to space/dot/underscore |
| UrlStorage.NameIgnoresCase | company_url_collector_v1/src/url_storage.py:17 | the file name does not depend on the case of the company name |
| UrlStorage.PathJoin | company_url_collector/src/url_storage.py:18 | the joined path ends with the second component |
| UrlStorage.StoragePath | company_url_collector/src/url_storage.py:14-18 | every storage path ends with `_urls.json` |
| UrlStorage.FileNameRelative | company_url_collector/src/url_storage.py:18 | the file name starts with `/` only when the company name does |
| UrlStorage.StoragePathInjective | company_url_collector/src/url_storage.py:14-18 | in one directory, two names not starting with `/` share a path only when they share a file name |
| UrlStorage.StoredUrls | company_url_collector/src/url_storage.py:20-32 | a missing file or one that is not valid JSON reads as `[]`; otherwise its parsed content |
| UrlStorage.Key | company_url_collector/src/url_storage.py:41 | `entry["url"]` raises exactly when it is missing (KeyError) or a list or dict (unhashable) |
| UrlStorage.KeySet | company_url_collector/src/url_storage.py:41 | the set of stored urls, built when every entry has a usable url |
| UrlStorage.MergeFrom | company_url_collector/src/url_storage.py:44-47 | the loop succeeds exactly when every pending entry has a usable url, and only appends |
| UrlStorage.AppendedStep | company_url_collector/src/url_storage.py:44-47 | one more new entry is appended exactly when its url is neither stored nor that of an earlier new entry |
| UrlStorage.MergeAppends | company_url_collector/src/url_storage.py:44-47 | the loop appends exactly the entries `Appended` names |
| UrlStorage.MergedIsAppend | company_url_collector/src/url_storage.py:37-54 | `update_urls` raises exactly when an entry lacks a usable url, else returns the stored list followed by the appended new entries |
| UrlStorage.AppendedKeys | company_url_collector/src/url_storage.py:41-47 | appended entries have distinct urls, none stored, and cover every new url not stored (first occurrence wins) |
| UrlStorage.AppendedNothing | company_url_collector/src/url_storage.py:41-47 | entries whose urls are all present already append nothing |
| UrlStorage.MergedProperties | company_url_collector_v1/src/url_storage.py:37-47 | the result starts with the stored list unchanged, holds every url of the new entries, and has no duplicate url when the stored list had none |
| UrlStorage.MergeIdempotent | company_url_collector_v1/src/url_storage.py:41-54 | merging the same new entries a second time changes nothing |
| UrlStorage.UpdateUrls | company_url_collector/src/url_storage.py:34-54 | the method computes `Merged` on the stored list |
| ProjectCode.Find | Extract_Project_Code.py:62 | the first occurrence of the delimiter, or -1 when there is none |
| ProjectCode.RemoveBlocks | Extract_Project_Code.py:62-63 | removing blocks never lengthens the text |
| ProjectCode.BlockCut | Extract_Project_Code.py:62-63 | a block is cut from its opening delimiter through the nearest closing one, both delimiters included, and the scan goes on after it |
| ProjectCode.UnclosedKept | Extract_Project_Code.py:62-63 | an opening delimiter without a partner leaves the text unchanged |
| ProjectCode.Toggle | Extract_Project_Code.py:87-90 | an unescaped quote toggles its flag unless the other kind of string is open; nothing else changes |
| ProjectCode.Step | Extract_Project_Code.py:80-97 | the escape flag is set exactly by a backslash that is not itself escaped, and cleared after every other copied character |
| ProjectCode.ScanUnfold | Extract_Project_Code.py:77-98 | one character of the scan: stop at a breaking `#`, else copy it and advance the flags |
| ProjectCode.ScanPrefix | Extract_Project_Code.py:74-98 | each processed line is a prefix of its input line, cut only at a `#` |
| ProjectCode.ScanCutsAtFirstHash | Extract_Project_Code.py:87-94 | the cut is at the first `#` met while no string is open, and the flags carried on are those at that point |
| ProjectCode.EscapedQuote | Extract_Project_Code.py:80-90 | a quote right after an unescaped backslash leaves the string state alone |
| ProjectCode.StringRunsOn | Extract_Project_Code.py:70-74 | an illustration on two concrete lines: the flags run from one line into the next, so an unterminated string keeps the next line's `#` |
| ProjectCode.HashInString | Extract_Project_Code.py:87-94 | an illustration on one concrete line: a `#` inside a string literal is kept; the next `#` outside ends the line |
| ProjectCode.KeptAreNonBlankPrefixes | Extract_Project_Code.py:100-102 | every kept line is non-blank and a prefix of an input line; no more lines than the input |
| ProjectCode.KeptStep | Extract_Project_Code.py:74-102 | one pass of the line loop appends the processed line exactly when it is not blank |
| ProjectCode.StrippedHasNoBlankLine | Extract_Project_Code.py:104-108 | the joined result has no blank line, so the final substitution never matches |
| ProjectCode.ProcessLine | Extract_Project_Code.py:75-98 | the inner loop gives the processed line and the flags of the scan |
| ProjectCode.StripCommentsFromPython | Extract_Project_Code.py:49-110 | the method computes `Stripped` on the file content |
| ProjectCode.DropCommentLines | Extract_Project_Code.py:32 | removing comment lines never lengthens the text |
| ProjectCode.HashFreeKept | Extract_Project_Code.py:32 | text without `#` is left unchanged |
| ProjectCode.NoCommentLineLeft | Extract_Project_Code.py:32 | afterwards no line of the result starts, after whitespace, with `#` |
| ProjectCode.SqueezeBlankLines | Extract_Project_Code.py:37 | squeezing never lengthens the text |
| ProjectCode.SqueezeNoBlankLine | Extract_Project_Code.py:37 | after the substitution no line is blank |
| ProjectCode.SqueezeKeepsClean | Extract_Project_Code.py:37 | text without a blank line is left unchanged, so the substitution is idempotent |
| ProjectCode.ScrubbedHasNoBlankLine | Extract_Project_Code.py:30-37 | a scrubbed cell has no blank line, and its last substitution changes nothing when applied again |
| ProjectCode.Concat | Extract_Project_Code.py:27-28 | joining the source list succeeds exactly when every item is a string, else TypeError |
| ProjectCode.CellBlockShape | Extract_Project_Code.py:39-44 | a blank source adds nothing. Any other source is kept whole and ends in a blank line, adding one or two line breaks |
| ProjectCode.NotebookStep | Extract_Project_Code.py:22-44 | the cell loop either stops at a cell's error or adds its block before the rest |
| ProjectCode.NotebookAdvance | Extract_Project_Code.py:22-44 | a readable cell adds its block to the code gathered so far |
| ProjectCode.NotebookFails | Extract_Project_Code.py:22-44 | an unreadable cell ends the loop with its error |
| ProjectCode.NotebookCodeEnds | Extract_Project_Code.py:39-44 | the extracted code is empty or ends with a blank line |
| ProjectCode.NotebookCodeEmpty | Extract_Project_Code.py:22-23 | cells that are not code cells contribute nothing |
| ProjectCode.AppendCell | Extract_Project_Code.py:39-44 | appends the cell's block to the code gathered so far |
| ProjectCode.ExtractCodeFromNotebook | Extract_Project_Code.py:7-46 | the method computes `ExtractedCode` on the parsed notebook |
| ProjectCode.GatherCode | Extract_Project_Code.py:22-44 | the cell loop computes `NotebookCode` |
| ProjectCode.Normpath | Extract_Project_Code.py:131 | a normalised path is never empty |
| ProjectCode.SplitExt | Extract_Project_Code.py:136 | the extension is empty or a dot-led suffix of the path |
| ProjectCode.LStripDots | Extract_Project_Code.py:136 | the result is a suffix not starting with a dot |
| ProjectCode.FolderHit | Extract_Project_Code.py:130-132 | true exactly when the normalised path starts with some normalised folder |
| ProjectCode.IsExcludedPath | Extract_Project_Code.py:113-140 | excluded exactly when the normalised path has a normalised folder as a plain string prefix, or the path is an existing file with an excluded extension |
| ProjectCode.NormpathRelative | Extract_Project_Code.py:131 | a relative path normalises to its components joined, or `.` |
| ProjectCode.NormpathDotSlash | Extract_Project_Code.py:131 | `./name/` normalises to `name` |
| ProjectCode.NormpathPlain | Extract_Project_Code.py:131 | `dir/file` with plain components is already normal |
| ProjectCode.PrefixNotFolder | Extract_Project_Code.py:130-132 | the folder test is a string test: `venvx/a` is excluded by `./venv/` |
| UrlRebuild.ReparseRecomposed | scarpeInternet_v1/scrapeInternet_3.py:106-113 | an http(s) URL rebuilt from its parts parses back into them (no params, no fragment), or raises `ValueError`, or rebuilds to the same text |
| UrlRebuild.ParseSchemeHost | scarpeInternet_v1/scrapeInternet.py:25-26 | `scheme://host` parses into exactly that scheme and host |

## Left out

- HTTP fetching (`requests.get`, `raise_for_status`, the content-type test) is an oracle
  from a URL to an optional page. Random headers, timeouts, `time.sleep`, tqdm and logging
  are not modelled.
- BeautifulSoup is not modelled. Its title, text and href list are what the oracle returns
  for a page.
- In `EnhancedWebScraper` the title is always `No Title`. `extract_text_content`
  decomposes the `<title>` element before `fetch_url` reads `soup.title`, so this is the
  code's behaviour, not a simplification.
- `urljoin` (section 5.2 of RFC 3986) is an uninterpreted function that may raise
  `ValueError`.
- `urlsplit` does not model two checks: the validation of a bracketed IPv6 host and the
  NFKC check of a non-ASCII netloc. A netloc with only one square bracket does raise, as
  in CPython.
- Thread pool and `as_completed` are sequential here.
  - A batch is aggregated in an arbitrary rearrangement of its entries.
  - Each worker reads any visited set between the batch start and its own aggregation.
  - Scheduling itself is not modelled.
- EnhancedScraper.EnhancedWebScraper.Crawl: no counterpart of the basic crawler's
  `CrawlComplete` or `CrawlDepthIsDistance`, because the enhanced crawl does not keep them.
  A batch can hold entries of depths `d` and `d + 1`, and `as_completed` can aggregate the
  deeper one first. Example: batch `[a@1, b@2]`, where `b` links to `c` and so does `a`.
  `b` is aggregated first and enqueues `c@3`; `a` then finds `c` visited. So `c` sits at
  depth 3 though it is 2 links from the start, and with `max_depth = 3` its links are never
  followed. What holds is closure: `CrawlFollowsLinks` and `CrawlCoversLinks`.
- spaCy is replaced by a flag (model loaded) and an abstract similarity function.
  - Scores are Dafny `real`s, not floats.
  - The sort by score of `search_content` is an insertion sort, proved stable as Python's
    `sorted` is.
  - The branch of `search_content` that scores a record without a score never runs, since
    every stored record has one.
- `save_results` (pandas CSV output) is not modelled. The same holds for all file I/O:
  - `os.makedirs`;
  - the JSON reads and writes of `URLStorage`: the stored list goes in and out as a value,
    and a file is an optional string parsed by a `json.loads` function;
  - the reads of `Extract_Project_Code.py`: the notebook and file content are parameters.
- `datetime.now().isoformat()` is a timestamp parameter.
- `os.path.isfile` is a boolean parameter. `process_file`, `process_path` and `main` of
  `Extract_Project_Code.py` are glue around the modelled helpers: they write to a file and
  print.
- `Extract_Project_Structure.py` and the PerplexityClient files are not part of this model.
  The collector scripts, the Flask backend and the test scripts are not part of it either.
- `extract_urls_from_response` of `company_url_collector_v1/src/url_extractor.py:9-32`
  is the same code as the one in `url_extractor_v2.py`. It is modelled once, as
  `UrlExtractorV2.ExtractedV2`.
- `_extract_domain`, the scheme check and the annotation loop of the second and third
  versions are textually the same as in `url_extractor.py`. They are modelled once in
  `UrlExtractor`.
- Dictionaries are values. Aliasing between the entries a caller holds and the annotated
  entries that `validate_urls` returns is not modelled: Python mutates the same dicts in
  place.
- `lower()` and `re.IGNORECASE` are ASCII case mapping only. `\s` is taken as
  `str.isspace` over the characters Dafny's `char` covers.
- `WebScraper.get_links_and_content` stores the record before collecting links. An href
  whose `urljoin` raises then makes the call return `[]` with the record kept, and the
  model does the same.
- ProjectCode.StripCommentsFromPython: the final `\n\s*\n\s*\n` substitution is omitted,
  because `StrippedHasNoBlankLine` proves it can never match.
- ProjectCode.BlockCut: it states the cut of a docstring block only when neither the text
  before the block nor the block itself contains the delimiter's first character.
  `UnclosedKept` covers an opener without a partner under the same condition.
- ProjectCode.RemoveBlocks, ProjectCode.DropCommentLines, ProjectCode.SqueezeBlankLines:
  each function's own contract is only a length bound. What each computes is stated by the
  lemmas next to it.
- EnhancedText.NormalizeUrl: its own contract only says fragments are dropped. The shape
  and idempotence are stated by `NormalizedShape` and `NormalizeIdempotent`.
- UrlExtractor.ExtractDomain: its own contract covers only the empty URL. The domain rule
  is stated by `DomainOfParse`, `DomainLabels`, `BareHostDomain` and `HttpNamedHostLost`.
