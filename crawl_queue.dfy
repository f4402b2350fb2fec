/** The `(url, depth)` queue both crawlers keep, and the facts about its URLs that their
    proofs share: which URLs an enqueue step adds, and that none is enqueued twice. */
module CrawlQueue {

  /** A `(url, depth)` pair of the crawl queue. */
  datatype QueueEntry = QueueEntry(url: string, depth: int)

  function Urls(es: seq<QueueEntry>): (r: seq<string>)
    ensures |r| == |es|
    ensures forall k :: 0 <= k < |es| ==> r[k] == es[k].url
  {
    if es == [] then [] else Urls(es[..|es| - 1]) + [es[|es| - 1].url]
  }

  function UrlSet(es: seq<QueueEntry>): set<string> {
    set e | e in es :: e.url
  }

  predicate UrlsDistinct(es: seq<QueueEntry>) {
    forall i, j :: 0 <= i < j < |es| ==> es[i].url != es[j].url
  }

  predicate Distinct(xs: seq<string>) {
    forall i, j :: 0 <= i < j < |xs| ==> xs[i] != xs[j]
  }

  /** The depths of `es` never decrease along the sequence. */
  predicate DepthsSorted(es: seq<QueueEntry>) {
    forall i, j :: 0 <= i < j < |es| ==> es[i].depth <= es[j].depth
  }

  /** The entries `(u, depth)` for the URLs `us`, in order. */
  function AtDepth(us: seq<string>, depth: int): (r: seq<QueueEntry>)
    ensures |r| == |us|
    ensures forall k :: 0 <= k < |us| ==> r[k] == QueueEntry(us[k], depth)
  {
    if us == [] then [] else [QueueEntry(us[0], depth)] + AtDepth(us[1..], depth)
  }

  /** The elements of `xs` that are not in `view`, in order. */
  function FilterOut(xs: seq<string>, view: set<string>): (r: seq<string>)
    ensures |r| <= |xs|
    ensures forall x :: x in r ==> x in xs && x !in view
    ensures forall x :: x in xs && x !in view ==> x in r
  {
    if xs == [] then []
    else FilterOut(xs[..|xs| - 1], view) + (if xs[|xs| - 1] in view then [] else [xs[|xs| - 1]])
  }

  /** What the enqueue loop of `crawl` appends for a page's links: each link not seen
      before, once, in order, where every appended link counts as seen from then on. */
  function Fresh(links: seq<string>, seen: set<string>): seq<string> {
    if links == [] then []
    else if links[0] in seen then Fresh(links[1..], seen)
    else [links[0]] + Fresh(links[1..], seen + {links[0]})
  }

  /** `Fresh` keeps exactly the links not seen before, each once. */
  lemma {:induction false} FreshFacts(links: seq<string>, seen: set<string>)
    ensures forall x :: x in Fresh(links, seen) ==> x in links && x !in seen
    ensures forall x :: x in links && x !in seen ==> x in Fresh(links, seen)
    ensures Distinct(Fresh(links, seen))
    decreases |links|
  {
    if links != [] {
      var x := links[0];
      var tail := links[1..];
      assert forall y :: y in links ==> y == x || y in tail;
      if x in seen {
        FreshFacts(tail, seen);
      } else {
        FreshFacts(tail, seen + {x});
        var r := Fresh(tail, seen + {x});
        assert Fresh(links, seen) == [x] + r;
        assert forall k :: 0 <= k < |r| ==> r[k] != x;
      }
    }
  }

  lemma AtDepthAppend(us: seq<string>, u: string, depth: int)
    ensures AtDepth(us + [u], depth) == AtDepth(us, depth) + [QueueEntry(u, depth)]
  {
  }

  lemma UrlSetSnoc(es: seq<QueueEntry>, e: QueueEntry)
    ensures UrlSet(es + [e]) == UrlSet(es) + {e.url}
  {
    assert forall x :: x in es + [e] <==> x in es || x == e;
  }

  lemma UrlsSnoc(es: seq<QueueEntry>, e: QueueEntry)
    ensures Urls(es + [e]) == Urls(es) + [e.url]
  {
    assert (es + [e])[..|es|] == es;
  }

  lemma Assoc(a: seq<string>, b: seq<string>, c: seq<string>)
    ensures a + (b + c) == (a + b) + c
  {
  }

  lemma FreshAt(links: seq<string>, j: nat, seen: set<string>)
    requires j < |links|
    ensures Fresh(links[j..], seen) ==
      if links[j] in seen then Fresh(links[j + 1..], seen)
      else [links[j]] + Fresh(links[j + 1..], seen + {links[j]})
  {
    assert links[j..][1..] == links[j + 1..];
  }

  /** One step of the enqueue loop over `links`: at index `j`, a link not yet seen joins
      the fresh links and the entries added at `depth`, and is marked seen; a link seen
      before changes nothing. */
  lemma FreshStep(links: seq<string>, j: nat, seen: set<string>, visited: set<string>,
                  newLinks: seq<string>, added: seq<QueueEntry>, depth: int)
    requires j < |links|
    requires visited == seen + UrlSet(added)
    requires Fresh(links, seen) == newLinks + Fresh(links[j..], visited)
    requires added == AtDepth(newLinks, depth)
    ensures links[j] in visited ==> Fresh(links, seen) == newLinks + Fresh(links[j + 1..], visited)
    ensures links[j] !in visited ==>
      && visited + {links[j]} == seen + UrlSet(added + [QueueEntry(links[j], depth)])
      && Fresh(links, seen) == (newLinks + [links[j]]) + Fresh(links[j + 1..], visited + {links[j]})
      && added + [QueueEntry(links[j], depth)] == AtDepth(newLinks + [links[j]], depth)
  {
    var link := links[j];
    FreshAt(links, j, visited);
    if link !in visited {
      AtDepthAppend(newLinks, link, depth);
      UrlSetSnoc(added, QueueEntry(link, depth));
      Assoc(newLinks, [link], Fresh(links[j + 1..], visited + {link}));
    }
  }

  lemma FilterOutStep(xs: seq<string>, ys: seq<string>, view: set<string>)
    requires |ys| <= 1
    ensures FilterOut(xs + ys, view) == FilterOut(xs, view) + FilterOut(ys, view)
  {
    if ys != [] {
      assert (xs + ys)[..|xs|] == xs;
    } else {
      assert xs + ys == xs;
    }
  }

  lemma UrlSetAppend(a: seq<QueueEntry>, b: seq<QueueEntry>)
    ensures UrlSet(a + b) == UrlSet(a) + UrlSet(b)
  {
    assert forall e :: e in a + b <==> e in a || e in b;
  }

  lemma DistinctAppend(a: seq<QueueEntry>, b: seq<QueueEntry>)
    requires UrlsDistinct(a) && UrlsDistinct(b)
    requires forall e :: e in b ==> e.url !in UrlSet(a)
    ensures UrlsDistinct(a + b)
  {
    forall i, j | 0 <= i < j < |a + b|
      ensures (a + b)[i].url != (a + b)[j].url
    {
      if i < |a| <= j {
        assert (a + b)[j] in b;
        assert (a + b)[i] in a;
      }
    }
  }

  /** A link not seen before is enqueued by `Fresh` and `AtDepth`. */
  lemma FreshAdded(links: seq<string>, seen: set<string>, depth: int, l: string)
    requires l in links && l !in seen
    ensures QueueEntry(l, depth) in AtDepth(Fresh(links, seen), depth)
  {
    var newLinks := Fresh(links, seen);
    FreshFacts(links, seen);
    var i :| 0 <= i < |newLinks| && newLinks[i] == l;
    assert AtDepth(newLinks, depth)[i] == QueueEntry(l, depth);
  }

  lemma AtDepthFacts(us: seq<string>, depth: int)
    requires Distinct(us)
    ensures UrlsDistinct(AtDepth(us, depth))
    ensures forall e :: e in AtDepth(us, depth) ==> e.url in us && e.depth == depth
    ensures UrlSet(AtDepth(us, depth)) == set u | u in us
  {
    var r := AtDepth(us, depth);
    forall e | e in r
      ensures e.url in us && e.depth == depth
    {
      var k :| 0 <= k < |r| && r[k] == e;
    }
    forall u | u in us
      ensures u in UrlSet(r)
    {
      var k :| 0 <= k < |us| && us[k] == u;
      assert r[k] in r;
    }
  }

  lemma ConcatAssoc<T>(a: seq<T>, b: seq<T>, c: seq<T>)
    ensures a + b + c == a + (b + c)
  {
  }

  lemma UnionAssoc<T>(a: set<T>, b: set<T>, c: set<T>)
    ensures a + b + c == a + (b + c)
  {
  }

  lemma PrefixSnoc<T>(a: seq<T>, s: seq<T>, i: nat)
    requires i < |s|
    ensures a + s[..i] + [s[i]] == a + s[..i + 1]
  {
    assert s[..i + 1] == s[..i] + [s[i]];
  }

  lemma PrefixConcat<T>(a: seq<T>, b: seq<T>)
    ensures a <= a + b
  {
    assert (a + b)[..|a|] == a;
  }

  lemma PrefixTrans<T>(a: seq<T>, b: seq<T>, c: seq<T>)
    requires a <= b && b <= c
    ensures a <= c
  {
    assert b == c[..|b|];
    assert a == b[..|a|];
    assert c[..|b|][..|a|] == c[..|a|];
  }

  /** Entries with distinct URLs are told apart by their URL. */
  lemma SameUrlSameEntry(es: seq<QueueEntry>, x: QueueEntry, y: QueueEntry)
    requires UrlsDistinct(es) && x in es && y in es && x.url == y.url
    ensures x == y
  {
    var i :| 0 <= i < |es| && es[i] == x;
    var j :| 0 <= j < |es| && es[j] == y;
    assert i == j;
  }

  /** What a prefix holds, the whole sequence holds. */
  lemma UrlSetPrefix(a: seq<QueueEntry>, b: seq<QueueEntry>)
    requires a <= b
    ensures forall x :: x in a ==> x in b
    ensures UrlSet(a) <= UrlSet(b)
  {
    assert a == b[..|a|];
    forall x | x in a
      ensures x in b
    {
      var i :| 0 <= i < |a| && a[i] == x;
      assert b[i] == x;
    }
  }

  lemma DistinctUrls(es: seq<QueueEntry>)
    requires UrlsDistinct(es)
    ensures Distinct(Urls(es))
  {
  }

  /** The enqueue loop both crawlers run for one page: each link not yet in `seen` is
      appended to the queue at `depth` and added to the visited set in the same step, so
      a link repeated on the page is enqueued once. */
  method EnqueueLinks(links: seq<string>, depth: int, queue: seq<QueueEntry>, seen: set<string>)
      returns (queue': seq<QueueEntry>, visited: set<string>, ghost added: seq<QueueEntry>)
    ensures added == AtDepth(Fresh(links, seen), depth)
    ensures queue' == queue + added
    ensures visited == seen + UrlSet(added)
  {
    queue' := queue;
    added := [];
    visited := seen;
    ghost var newLinks: seq<string> := [];
    var j := 0;
    assert links[j..] == links;
    while j < |links|
      invariant 0 <= j <= |links|
      invariant queue' == queue + added
      invariant visited == seen + UrlSet(added)
      invariant Fresh(links, seen) == newLinks + Fresh(links[j..], visited)
      invariant added == AtDepth(newLinks, depth)
    {
      var link := links[j];
      FreshStep(links, j, seen, visited, newLinks, added, depth);
      if link !in visited {
        queue' := queue' + [QueueEntry(link, depth)];
        visited := visited + {link};
        added := added + [QueueEntry(link, depth)];
        newLinks := newLinks + [link];
      }
      j := j + 1;
    }
    assert links[j..] == [];
    assert newLinks + [] == newLinks;
  }
}
