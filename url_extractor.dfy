/** `URLExtractor` of company_url_collector/src/url_extractor.py: it walks the
    chat-completion response down to `choices[0].message.content`, stamps every entry with
    one timestamp, keeps the entries whose url is `http://` or `https://`, and marks each
    kept entry first-party or third-party and relevant or not. The domain rule, the
    pattern scan, the annotation loop and the stamping loop are shared with the other two
    versions of the class, which import them from here. */
module UrlExtractor {
  import opened Wrappers
  import opened PyText
  import opened Urllib
  import opened Json
  import UrlRebuild

  // ---------------------------------------------------------------- _extract_domain

  /** The second-to-last labels after which `_extract_domain` keeps three labels
      (`example.co.uk`) instead of two. */
  const SecondLevel: seq<string> := ["co", "com", "org", "net", "gov", "edu"]

  /** The last `k` labels of a host, joined, end the host and split back into exactly
      those labels. */
  lemma LastLabels(netloc: string, k: nat)
    requires 1 <= k <= |Split(netloc, '.')|
    ensures var parts := Split(netloc, '.');
      var tail := Join(parts[|parts| - k..], '.');
      EndsWith(netloc, tail) && Split(tail, '.') == parts[|parts| - k..]
  {
    var parts := Split(netloc, '.');
    var m := |parts| - k;
    var tail := Join(parts[m..], '.');
    assert EndsWith(netloc, tail) by {
      JoinSplit(netloc, '.');
      JoinSuffix(parts, m, '.');
    }
    assert Split(tail, '.') == parts[m..] by {
      TailLabels(parts, m);
    }
  }

  /** The parts from `m` on, joined, split back into themselves. */
  lemma TailLabels(parts: seq<string>, m: nat)
    requires m < |parts|
    requires forall j :: 0 <= j < |parts| ==> '.' !in parts[j]
    ensures Split(Join(parts[m..], '.'), '.') == parts[m..]
  {
    var tail := parts[m..];
    forall j | 0 <= j < |tail|
      ensures '.' !in tail[j]
    {
      assert tail[j] == parts[m + j];
    }
    SplitJoin(tail, '.');
  }

  /** The domain `_extract_domain` cuts from a netloc (lines 184-200): the last three
      dot-separated labels when there are more than two and the second-to-last is in
      `SecondLevel`, else the last two, else the whole netloc. The f-strings of lines
      195 and 198 are the joins of those labels with `.`. */
  function HostDomain(netloc: string): string {
    var parts := Split(netloc, '.');
    var n := |parts|;
    if n > 2 && parts[n - 2] in SecondLevel then Join(parts[n - 3..], '.')
    else if n > 1 then Join(parts[n - 2..], '.')
    else netloc
  }

  /** The domain ends the netloc, and its labels are the last one, two or three labels
      of the netloc. */
  lemma HostDomainLabels(netloc: string)
    ensures EndsWith(netloc, HostDomain(netloc))
    ensures var parts := Split(netloc, '.'); var labels := Split(HostDomain(netloc), '.');
      |labels| <= 3 && |labels| <= |parts| && labels == parts[|parts| - |labels|..]
  {
    var k, labels := DomainLabels(netloc);
    LastLabels(netloc, k);
  }

  /** The labels the domain keeps: the last one, two or three of the netloc, the middle
      one of three in `SecondLevel`, joined into the domain. */
  lemma DomainLabels(netloc: string) returns (k: nat, labels: seq<string>)
    ensures 1 <= k <= 3 && k <= |Split(netloc, '.')|
    ensures labels == Split(netloc, '.')[|Split(netloc, '.')| - k..]
    ensures k == 3 ==> labels[1] in SecondLevel
    ensures HostDomain(netloc) == Join(labels, '.')
  {
    var parts := Split(netloc, '.');
    var n := |parts|;
    if n > 2 && parts[n - 2] in SecondLevel {
      k, labels := 3, parts[n - 3..];
      assert labels[1] == parts[n - 2];
    } else if n > 1 {
      k, labels := 2, parts[n - 2..];
    } else {
      k, labels := 1, parts;
      assert parts[n - 1..] == parts;
      assert Join(parts, '.') == netloc by {
        JoinSplit(netloc, '.');
      }
    }
  }

  /** Cutting the domain out of a domain gives it back. */
  lemma HostDomainIdempotent(netloc: string)
    ensures HostDomain(HostDomain(netloc)) == HostDomain(netloc)
  {
    var k, labels := DomainLabels(netloc);
    assert forall j :: 0 <= j < |labels| ==> '.' !in labels[j] by {
      var parts := Split(netloc, '.');
      forall j | 0 <= j < |labels|
        ensures '.' !in labels[j]
      {
        assert labels[j] == parts[|parts| - k + j];
      }
    }
    DomainOfLabels(labels);
  }

  /** One, two or three dot-free labels, the middle one of three in `SecondLevel`,
      joined, are their own domain. */
  lemma DomainOfLabels(labels: seq<string>)
    requires 1 <= |labels| <= 3 && (|labels| == 3 ==> labels[1] in SecondLevel)
    requires forall j :: 0 <= j < |labels| ==> '.' !in labels[j]
    ensures HostDomain(Join(labels, '.')) == Join(labels, '.')
  {
    var d := Join(labels, '.');
    assert Split(d, '.') == labels by {
      SplitJoin(labels, '.');
    }
    var k := |labels|;
    if k == 3 {
      assert labels[k - 3..] == labels;
    } else if k == 2 {
      assert labels[k - 2..] == labels;
    }
  }

  /** `_extract_domain(url)`: empty for an empty url; `https://` is put in front of a url
      that does not begin with `http`; a `ValueError` from `urlparse` gives the empty
      string. */
  function ExtractDomain(url: string): (r: string)
    ensures url == [] ==> r == []
  {
    if url == [] then []
    else
      match UrlParse(Prefixed(url))
      case Err(_) => []
      case Ok(p) => HostDomain(p.netloc)
  }

  /** The url `_extract_domain` hands to `urlparse`. */
  function Prefixed(url: string): (u: string)
    ensures StartsWith(url, "http") ==> u == url
    ensures !StartsWith(url, "http") ==> u == "https://" + url
  {
    if StartsWith(url, "http") then url else "https://" + url
  }

  /** Once `urlparse` has been run on the prefixed url, the domain is cut from its netloc. */
  lemma DomainOfParse(url: string, p: ParsedUrl)
    requires url != [] && UrlParse(Prefixed(url)) == Ok(p)
    ensures ExtractDomain(url) == HostDomain(p.netloc)
  {
  }

  /** A bare host name that does not begin with `http` is read as `https://host`, so its
      domain is the host's own. */
  lemma BareHostDomain(host: string)
    requires host != [] && !StartsWith(host, "http")
    requires forall c :: c in host ==> !IsNetlocDelim(c) && !IsUnsafe(c) && c != '[' && c != ']'
    ensures ExtractDomain(host) == HostDomain(host)
  {
    var u := Prefixed(host);
    assert u == "https" + "://" + host by {
      assert "https://" == "https" + "://";
    }
    assert UrlParse(u) == Ok(ParsedUrl("https", host, [], [], [], [])) by {
      assert IsCanonicalScheme("https");
      UrlRebuild.ParseSchemeHost("https", host);
    }
    DomainOfParse(host, ParsedUrl("https", host, [], [], [], []));
  }

  /** A host name that begins with `http` (`httpbin.org`) is taken for a URL that has a
      scheme, so nothing is put in front; without a `:` `urlparse` then finds no netloc,
      and the domain comes out empty. */
  lemma HttpNamedHostLost(host: string)
    requires StartsWith(host, "http") && ':' !in host
    ensures ExtractDomain(host) == []
  {
    assert Prefixed(host) == host;
    assert host[0] == 'h';
    NoColonNoNetloc(host);
    ParseKeepsNetloc(host);
    DomainOfParse(host, UrlParse(Prefixed(host)).value);
    assert Split([], '.') == [[]];
  }

  // ---------------------------------------------------------------- _is_company_url

  /** `company_domain = _extract_domain(company_url) if company_url else None` */
  function CompanyDomain(companyUrl: Option<string>): (r: Option<string>)
    ensures r.Some? <==> companyUrl.Some? && companyUrl.value != []
  {
    if companyUrl.Some? && companyUrl.value != [] then Some(ExtractDomain(companyUrl.value)) else None
  }

  /** The comparison of lines 224-231: after lower-casing both, the url's domain is the
      company domain or ends with `.` followed by it. */
  predicate DomainMatches(urlDomain: string, companyDomain: string) {
    var d, c := Lower(urlDomain), Lower(companyDomain);
    d == c || EndsWith(d, "." + c)
  }

  /** `_is_company_url(url, company_domain)`: false when either is empty or missing;
      otherwise the url's domain matches the company domain. */
  function IsCompanyUrl(url: string, companyDomain: Option<string>): (r: bool)
    ensures url == [] || companyDomain == None || companyDomain.value == [] ==> !r
    ensures r ==> EndsWith(Lower(ExtractDomain(url)), Lower(companyDomain.value))
  {
    if url == [] || companyDomain == None || companyDomain.value == [] then false
    else
      MatchEndsWith(ExtractDomain(url), companyDomain.value);
      DomainMatches(ExtractDomain(url), companyDomain.value)
  }

  /** A matching domain ends with the company domain, and the character before that
      ending, if any, is a dot: `notexample.com` does not match `example.com`. */
  lemma MatchEndsWith(urlDomain: string, companyDomain: string)
    ensures DomainMatches(urlDomain, companyDomain) <==>
      var d, c := Lower(urlDomain), Lower(companyDomain);
      EndsWith(d, c) && (|d| == |c| || (|d| > |c| && d[|d| - |c| - 1] == '.'))
  {
    var d, c := Lower(urlDomain), Lower(companyDomain);
    if EndsWith(d, "." + c) {
      assert d[|d| - |c|..] == ("." + c)[1..];
    }
    if EndsWith(d, c) && |d| > |c| && d[|d| - |c| - 1] == '.' {
      assert d[|d| - |c| - 1..] == "." + c;
    }
  }

  /** The test ignores case on both sides. */
  lemma MatchIgnoresCase(urlDomain: string, companyDomain: string)
    ensures DomainMatches(urlDomain, companyDomain) == DomainMatches(Lower(urlDomain), Lower(companyDomain))
  {
    LowerIdempotent(urlDomain);
    LowerIdempotent(companyDomain);
  }

  /** A subdomain of a matching domain matches too. */
  lemma SubdomainMatches(sub: string, urlDomain: string, companyDomain: string)
    requires DomainMatches(urlDomain, companyDomain)
    ensures DomainMatches(sub + "." + urlDomain, companyDomain)
  {
    var d, c := Lower(urlDomain), Lower(companyDomain);
    var s := sub + "." + urlDomain;
    var ls := Lower(s);
    assert ls == Lower(sub) + "." + d by {
      assert forall i :: 0 <= i < |s| ==> ls[i] == (Lower(sub) + "." + d)[i];
    }
    assert EndsWith(ls, "." + c) by {
      if d == c {
        assert ls[|ls| - |"." + c|..] == "." + c;
      } else {
        assert ls[|ls| - |"." + c|..] == d[|d| - |"." + c|..];
      }
    }
  }

  /** The test ignores the case of the company domain. */
  lemma CompanyUrlIgnoresCase(url: string, companyDomain: string)
    ensures IsCompanyUrl(url, Some(companyDomain)) == IsCompanyUrl(url, Some(Lower(companyDomain)))
  {
    LowerIdempotent(companyDomain);
  }

  /** When the company URL is a bare host name that begins with `http` and has no `:`,
      the company domain comes out empty and no url is first-party. */
  lemma HttpNamedCompanyMatchesNothing(companyUrl: string, url: string)
    requires StartsWith(companyUrl, "http") && ':' !in companyUrl
    ensures CompanyDomain(Some(companyUrl)) == Some([])
    ensures !IsCompanyUrl(url, CompanyDomain(Some(companyUrl)))
  {
    HttpNamedHostLost(companyUrl);
  }

  // ---------------------------------------------------------------- _assess_relevance

  /** An entry of an irrelevant-URL list as `re.search` reads it: the literal text it
      matches once its escapes are read, or a text that does not compile at all. */
  datatype Pattern = Literal(text: string) | Malformed(source: string)

  /** The list of lines 261-272. `*login*` and `*jobs*` do not compile (nothing precedes
      the leading `*`); the rest match their text literally. */
  const Patterns: seq<Pattern> := [
    Malformed("*login*"), Malformed("*jobs*"), Literal("/terms-of-service"),
    Literal("/privacy-policy"), Literal("/about-cookies"), Literal("/sitemap.xml"),
    Literal("/robots.txt")]

  /** The terms of lines 280-286 looked for in the title and description. */
  const IrrelevantTerms: seq<string> := ["404", "not found", "error"]

  /** `re.search(pattern, url, re.IGNORECASE)`: whether it finds a match, or the
      `re.error` a malformed pattern raises. */
  function Search(p: Pattern, url: string): Result<bool> {
    match p
    case Malformed(_) => Err(PatternError)
    case Literal(t) => Ok(Contains(Lower(url), Lower(t)))
  }

  /** The early-return scan over a pattern list: the first pattern that raises or matches
      decides. */
  function MatchesAny(patterns: seq<Pattern>, url: string): (r: Result<bool>)
    ensures r == Ok(false) ==> forall i :: 0 <= i < |patterns| ==> Search(patterns[i], url) == Ok(false)
  {
    if patterns == [] then Ok(false)
    else
      match Search(patterns[0], url)
      case Err(e) => Err(e)
      case Ok(found) => if found then Ok(true) else MatchesAny(patterns[1..], url)
  }

  /** Over patterns that all compile the scan finds a match exactly when one of them
      occurs in the lower-cased url. */
  lemma {:induction false} LiteralScan(patterns: seq<Pattern>, url: string)
    requires forall i :: 0 <= i < |patterns| ==> patterns[i].Literal?
    ensures MatchesAny(patterns, url) ==
      Ok(exists i :: 0 <= i < |patterns| && Contains(Lower(url), Lower(patterns[i].text)))
  {
    if patterns != [] {
      LiteralScan(patterns[1..], url);
      assert forall i :: 1 <= i < |patterns| ==> patterns[i] == patterns[1..][i - 1];
    }
  }

  /** The early-return scan over the terms: whether one occurs in the text. */
  function MentionsAny(terms: seq<string>, text: string): (r: bool)
    ensures r <==> exists i :: 0 <= i < |terms| && Contains(text, terms[i])
  {
    if terms == [] then false
    else if Contains(text, terms[0]) then true
    else
      assert forall i :: 1 <= i < |terms| ==> terms[i] == terms[1..][i - 1];
      MentionsAny(terms[1..], text)
  }

  /** `_assess_relevance` given the version's first-party verdict and pattern list:
      first-party URLs are relevant; otherwise a matching pattern makes the URL
      irrelevant, and so does an irrelevant term in `title.lower() + " " +
      description.lower()`, which raises AttributeError when either is not a string. */
  function Relevance(firstParty: bool, patterns: seq<Pattern>, url: string, title: Json, description: Json): Result<bool> {
    if firstParty then Ok(true)
    else
      match MatchesAny(patterns, url)
      case Err(e) => Err(e)
      case Ok(found) =>
        if found then Ok(false)
        else if !title.JStr? || !description.JStr? then Err(AttributeError)
        else Ok(!MentionsAny(IrrelevantTerms, Lower(title.s) + " " + Lower(description.s)))
  }

  /** `_assess_relevance(url, title, description, company_domain)`: it never returns
      False. A first-party URL is relevant; for any other the first pattern raises
      `re.error`, so the term checks are never reached. */
  function AssessRelevance(url: string, title: Json, description: Json, companyDomain: Option<string>): (r: Result<bool>)
    ensures r != Ok(false)
    ensures r.Ok? <==> IsCompanyUrl(url, companyDomain)
    ensures r.Err? ==> r.exc == PatternError
  {
    Relevance(IsCompanyUrl(url, companyDomain), Patterns, url, title, description)
  }

  // ---------------------------------------------------------------- validate_urls

  /** The scheme check of `validate_urls` on `entry.get("url", "")`: `Ok(Some(url))`
      keeps the entry, `Ok(None)` skips it, and a truthy url that is not a string raises
      AttributeError (it has no `startswith`). */
  function HttpUrl(e: Entry): (r: Result<Option<string>>)
    ensures r.Err? <==> Truthy(Get(e, "url", JStr([]))) && !Get(e, "url", JStr([])).JStr?
    ensures r.Ok? && r.value.Some? <==>
      Get(e, "url", JStr([])).JStr? &&
      (StartsWith(Get(e, "url", JStr([])).s, "http://") || StartsWith(Get(e, "url", JStr([])).s, "https://"))
    ensures r.Ok? && r.value.Some? ==> JStr(r.value.value) == Get(e, "url", JStr([]))
  {
    var url := Get(e, "url", JStr([]));
    if !Truthy(url) then Ok(None)
    else if !url.JStr? then Err(AttributeError)
    else if StartsWith(url.s, "http://") || StartsWith(url.s, "https://") then Ok(Some(url.s))
    else Ok(None)
  }

  /** `entry.get("title", "")` and `entry.get("description", "")` */
  function Title(e: Entry): Json { Get(e, "title", JStr([])) }
  function Description(e: Entry): Json { Get(e, "description", JStr([])) }

  /** The two flags `validate_urls` writes into a kept entry. */
  function Annotate(e: Entry, firstParty: bool, relevant: bool): Entry {
    e["is_first_party" := JBool(firstParty)]["is_relevant" := JBool(relevant)]
  }

  /** How one version of the class judges a url that passed the scheme check: its
      first-party test, and its relevance verdict from url, title and description. */
  datatype Judge = Judge(firstParty: string -> bool, relevance: (string, Json, Json) -> Result<bool>)

  /** What `validate_urls` returns or raises: entries are taken in order and skipped, or
      annotated and kept; the first exception ends the call. */
  function Validated(data: seq<Entry>, judge: Judge): Result<seq<Entry>>
    decreases |data|
  {
    if data == [] then Ok([])
    else
      match HttpUrl(data[0])
      case Err(e) => Err(e)
      case Ok(kept) =>
        if kept.None? then Validated(data[1..], judge)
        else
          match judge.relevance(kept.value, Title(data[0]), Description(data[0]))
          case Err(e) => Err(e)
          case Ok(relevant) =>
            Prepend([Annotate(data[0], judge.firstParty(kept.value), relevant)], Validated(data[1..], judge))
  }

  /** The entries the scheme check keeps, in order. */
  function HttpEntries(data: seq<Entry>): (r: seq<Entry>)
    ensures |r| <= |data|
    ensures forall e :: e in r <==> e in data && HttpUrl(e).Ok? && HttpUrl(e).value.Some?
  {
    if data == [] then []
    else
      var rest := HttpEntries(data[1..]);
      assert forall e :: e in data <==> e == data[0] || e in data[1..];
      if HttpUrl(data[0]).Ok? && HttpUrl(data[0]).value.Some? then [data[0]] + rest else rest
  }

  /** Whether an entry gets through `validate_urls` without an exception: its url is
      of the right type and, when kept, the judge gives a verdict on it. */
  predicate PassesOne(e: Entry, judge: Judge) {
    HttpUrl(e).Ok? &&
    (HttpUrl(e).value.Some? ==> judge.relevance(HttpUrl(e).value.value, Title(e), Description(e)).Ok?)
  }

  /** Whether every entry gets through: exactly when `validate_urls` returns. */
  predicate Passes(data: seq<Entry>, judge: Judge) {
    forall i :: 0 <= i < |data| ==> PassesOne(data[i], judge)
  }

  /** `out` is what `validate_urls` makes of the kept entry `e`: `e` with its
      first-party flag and the judge's relevance verdict. */
  predicate JudgedAs(e: Entry, judge: Judge, out: Entry) {
    && HttpUrl(e).Ok? && HttpUrl(e).value.Some?
    && var url := HttpUrl(e).value.value;
       var v := judge.relevance(url, Title(e), Description(e));
       v.Ok? && out == Annotate(e, judge.firstParty(url), v.value)
  }

  /** `validate_urls` returns exactly when every entry passes. */
  lemma {:induction false} ValidatedPasses(data: seq<Entry>, judge: Judge)
    ensures Validated(data, judge).Ok? <==> Passes(data, judge)
    decreases |data|
  {
    if data != [] {
      var tail := data[1..];
      ValidatedPasses(tail, judge);
      assert Passes(data, judge) <==> PassesOne(data[0], judge) && Passes(tail, judge) by {
        assert forall i :: 1 <= i < |data| ==> data[i] == tail[i - 1];
      }
    }
  }

  /** When every entry passes, `validate_urls` returns the kept entries in their order,
      each with its own fields, its first-party flag and its relevance verdict. */
  lemma {:induction false} ValidatedContents(data: seq<Entry>, judge: Judge)
    requires Passes(data, judge)
    ensures Validated(data, judge).Ok?
    ensures var r := Validated(data, judge).value; var kept := HttpEntries(data);
      |r| == |kept| && forall i :: 0 <= i < |r| ==> JudgedAs(kept[i], judge, r[i])
    decreases |data|
  {
    ValidatedPasses(data, judge);
    if data != [] {
      var tail := data[1..];
      assert Passes(tail, judge) by {
        assert forall i :: 1 <= i < |data| ==> data[i] == tail[i - 1];
      }
      ValidatedContents(tail, judge);
      assert PassesOne(data[0], judge);
      var h := HttpUrl(data[0]);
      if h.value.Some? {
        var kept := HttpEntries(data);
        var keptTail := HttpEntries(tail);
        assert kept == [data[0]] + keptTail;
        var v := judge.relevance(h.value.value, Title(data[0]), Description(data[0]));
        var rest := Validated(tail, judge).value;
        var r := Validated(data, judge).value;
        assert r == [Annotate(data[0], judge.firstParty(h.value.value), v.value)] + rest;
        forall i | 0 <= i < |r|
          ensures JudgedAs(kept[i], judge, r[i])
        {
          if i > 0 {
            assert r[i] == rest[i - 1] && kept[i] == keptTail[i - 1];
          }
        }
      }
    }
  }

  /** Kept entries come out annotated: each has both flags, as booleans. */
  lemma ValidatedFlags(data: seq<Entry>, judge: Judge)
    requires Validated(data, judge).Ok?
    ensures forall e: Entry :: e in Validated(data, judge).value ==>
      "is_first_party" in e && e["is_first_party"].JBool? && "is_relevant" in e && e["is_relevant"].JBool?
  {
    ValidatedPasses(data, judge);
    ValidatedContents(data, judge);
  }

  /** The judge of this version for one company domain. */
  function SrcJudge(companyDomain: Option<string>): Judge {
    Judge(url => IsCompanyUrl(url, companyDomain),
          (url, title, description) => AssessRelevance(url, title, description, companyDomain))
  }

  /** Whatever the company, every entry this version returns is first-party and
      relevant: a third-party url makes it raise. */
  lemma ValidatedAllFirstParty(data: seq<Entry>, companyUrl: Option<string>)
    requires Validated(data, SrcJudge(CompanyDomain(companyUrl))).Ok?
    ensures forall e: Entry :: e in Validated(data, SrcJudge(CompanyDomain(companyUrl))).value ==>
      "is_first_party" in e && e["is_first_party"] == JBool(true) &&
      "is_relevant" in e && e["is_relevant"] == JBool(true)
  {
    var judge := SrcJudge(CompanyDomain(companyUrl));
    ValidatedPasses(data, judge);
    ValidatedContents(data, judge);
  }

  /** Called without a company URL, as the collector calls it, this version returns
      only when the scheme check keeps nothing, and then returns an empty list. */
  lemma ValidateWithoutCompany(data: seq<Entry>)
    ensures Validated(data, SrcJudge(None)).Ok? <==> Passes(data, SrcJudge(None)) && HttpEntries(data) == []
    ensures Validated(data, SrcJudge(None)).Ok? ==> Validated(data, SrcJudge(None)).value == []
  {
    var judge := SrcJudge(None);
    ValidatedPasses(data, judge);
    if Passes(data, judge) {
      ValidatedContents(data, judge);
    }
  }

  /** The annotation loop of `validate_urls`, shared by the two versions that annotate. */
  method ValidateEntries(data: seq<Entry>, judge: Judge) returns (r: Result<seq<Entry>>)
    ensures r == Validated(data, judge)
  {
    var validated: seq<Entry> := [];
    var i := 0;
    assert data[i..] == data;
    PrependNothing(validated, Validated(data, judge));
    while i < |data|
      invariant 0 <= i <= |data|
      invariant Validated(data, judge) == Prepend(validated, Validated(data[i..], judge))
    {
      var entry := data[i];
      assert data[i..][0] == entry && data[i..][1..] == data[i + 1..];
      var url := Get(entry, "url", JStr([]));
      if Truthy(url) {
        if !url.JStr? {
          return Err(AttributeError);
        }
        if StartsWith(url.s, "http://") || StartsWith(url.s, "https://") {
          var isCompany := judge.firstParty(url.s);
          var relevant := judge.relevance(url.s, Get(entry, "title", JStr([])), Get(entry, "description", JStr([])));
          if relevant.Err? {
            return Err(relevant.exc);
          }
          entry := entry["is_first_party" := JBool(isCompany)];
          entry := entry["is_relevant" := JBool(relevant.value)];
          assert validated + [entry] + [] == validated + [entry];
          PrependTwice(validated, [entry], Validated(data[i + 1..], judge));
          validated := validated + [entry];
        }
      }
      i := i + 1;
    }
    assert data[i..] == [];
    PrependNothing(validated, Validated(data[i..], judge));
    r := Ok(validated);
  }

  /** `validate_urls(url_data, company_url)` */
  method ValidateUrls(data: seq<Entry>, companyUrl: Option<string>) returns (r: Result<seq<Entry>>)
    ensures r == Validated(data, SrcJudge(CompanyDomain(companyUrl)))
  {
    var companyDomain := CompanyDomain(companyUrl);
    r := ValidateEntries(data, SrcJudge(companyDomain));
  }

  // ---------------------------------------------------------------- extract_urls_from_response

  /** `for entry in url_data: entry["timestamp"] = timestamp`: a list of dicts is stamped
      entry by entry; a list item that is not a dict, a non-empty dict or string (whose
      iteration yields strings) and a number, boolean or `None` (not iterable) raise
      TypeError; an empty dict or string goes through untouched. */
  function Stamped(data: Json, timestamp: string): (r: Result<Json>)
    ensures r.Err? ==> r.exc == TypeError
    ensures r.Ok? && data.JArr? ==>
      && r.value.JArr? && |r.value.items| == |data.items|
      && forall i :: 0 <= i < |data.items| ==>
        data.items[i].JObj? && r.value.items[i] == JObj(data.items[i].fields["timestamp" := JStr(timestamp)])
    ensures r.Ok? && !data.JArr? ==> r == Ok(data) && !Truthy(data)
    ensures data.JArr? && (forall i :: 0 <= i < |data.items| ==> data.items[i].JObj?) ==> r.Ok?
  {
    match data
    case JArr(items) =>
      (match StampItems(items, timestamp)
       case Ok(stamped) => Ok(JArr(stamped))
       case Err(e) => Err(e))
    case JObj(fields) => if fields == map[] then Ok(data) else Err(TypeError)
    case JStr(s) => if s == [] then Ok(data) else Err(TypeError)
    case _ => Err(TypeError)
  }

  function StampItems(items: seq<Json>, timestamp: string): (r: Result<seq<Json>>)
    ensures r.Err? ==> r.exc == TypeError
    ensures r.Ok? <==> forall i :: 0 <= i < |items| ==> items[i].JObj?
    ensures r.Ok? ==>
      && |r.value| == |items|
      && forall i :: 0 <= i < |items| ==> r.value[i] == JObj(items[i].fields["timestamp" := JStr(timestamp)])
  {
    if items == [] then Ok([])
    else if !items[0].JObj? then Err(TypeError)
    else
      var rest := StampItems(items[1..], timestamp);
      assert forall i :: 1 <= i < |items| ==> items[i] == items[1..][i - 1];
      Prepend([JObj(items[0].fields["timestamp" := JStr(timestamp)])], rest)
  }

  /** Stamping a second time with a later timestamp leaves only the later one. */
  lemma RestampOverrides(data: Json, first: string, second: string)
    requires Stamped(data, first).Ok?
    ensures Stamped(Stamped(data, first).value, second) == Stamped(data, second)
  {
    var once := Stamped(data, first).value;
    if data.JArr? {
      assert forall i :: 0 <= i < |once.items| ==> once.items[i].JObj?;
      var a := Stamped(once, second).value.items;
      var b := Stamped(data, second).value.items;
      assert |a| == |b|;
      forall i | 0 <= i < |a|
        ensures a[i] == b[i]
      {
        assert data.items[i].fields["timestamp" := JStr(first)]["timestamp" := JStr(second)]
          == data.items[i].fields["timestamp" := JStr(second)];
      }
      assert a == b;
    }
  }

  /** The timestamp loop. */
  method StampEntries(data: Json, timestamp: string) returns (r: Result<Json>)
    ensures r == Stamped(data, timestamp)
  {
    match data {
      case JArr(items) =>
        var stamped: seq<Json> := [];
        var i := 0;
        assert items[i..] == items;
        PrependNothing(stamped, StampItems(items, timestamp));
        while i < |items|
          invariant 0 <= i <= |items|
          invariant StampItems(items, timestamp) == Prepend(stamped, StampItems(items[i..], timestamp))
        {
          var entry := items[i];
          assert items[i..][0] == entry && items[i..][1..] == items[i + 1..];
          if !entry.JObj? {
            return Err(TypeError);
          }
          var fields := entry.fields["timestamp" := JStr(timestamp)];
          PrependTwice(stamped, [JObj(fields)], StampItems(items[i + 1..], timestamp));
          stamped := stamped + [JObj(fields)];
          i := i + 1;
        }
        assert items[i..] == [];
        PrependNothing(stamped, StampItems(items[i..], timestamp));
        r := Ok(JArr(stamped));
      case JObj(fields) =>
        r := if fields == map[] then Ok(data) else Err(TypeError);
      case JStr(s) =>
        r := if s == [] then Ok(data) else Err(TypeError);
      case _ =>
        r := Err(TypeError);
    }
  }

  /** What lines 39-88 make of the response: `Ok(None)` for each early `return []`,
      `Ok(Some(data))` for the data to stamp, or the exception raised on the way. The
      debug f-strings of lines 51 and 58 call `.keys()`, so a choice or message that is
      not a dict raises AttributeError there. */
  function ResponseData(response: Entry, loads: Loader): Result<Option<Json>> {
    if "choices" !in response || !Truthy(response["choices"]) then Ok(None)
    else
      match First(response["choices"])
      case Err(e) => Err(e)
      case Ok(choice) =>
        if !choice.JObj? then Err(AttributeError)
        else if "message" !in choice.fields then Ok(None)
        else
          var message := choice.fields["message"];
          if !message.JObj? then Err(AttributeError)
          else if "content" !in message.fields then Ok(None)
          else
            match message.fields["content"]
            case JStr(s) => (if loads(s).None? then Ok(None) else Ok(Some(loads(s).value)))
            case JArr(items) => Ok(Some(JArr(items)))
            case _ => Ok(None)
  }

  /** What `extract_urls_from_response` returns or raises: every failure is re-raised
      wrapped in a generic Exception, and every entry returned carries the one
      timestamp. */
  function Extracted(response: Entry, loads: Loader, timestamp: string): (r: Result<Json>)
    ensures r.Err? ==> r.exc.Wrapped?
    ensures r.Ok? && r.value.JArr? ==> forall i :: 0 <= i < |r.value.items| ==>
      r.value.items[i].JObj? && "timestamp" in r.value.items[i].fields && r.value.items[i].fields["timestamp"] == JStr(timestamp)
  {
    match ResponseData(response, loads)
    case Err(e) => Err(Wrapped(e))
    case Ok(data) =>
      if data.None? then Ok(JArr([]))
      else
        match Stamped(data.value, timestamp)
        case Err(e) => Err(Wrapped(e))
        case Ok(v) => Ok(v)
  }

  /** The early returns of lines 39-88 give an empty list: no choices, a first choice
      without message, a message without content, content that does not parse, and
      content that is neither a string nor a list. */
  lemma EmptyCases(response: Entry, loads: Loader, timestamp: string, choice: Entry, message: Entry)
    ensures "choices" !in response || !Truthy(response["choices"]) ==>
      Extracted(response, loads, timestamp) == Ok(JArr([]))
    ensures ("choices" in response && response["choices"].JArr? && response["choices"].items != [] &&
             response["choices"].items[0] == JObj(choice)) ==>
      && ("message" !in choice ==> Extracted(response, loads, timestamp) == Ok(JArr([])))
      && ("message" in choice && choice["message"] == JObj(message) ==>
        && ("content" !in message ==> Extracted(response, loads, timestamp) == Ok(JArr([])))
        && ("content" in message && message["content"].JStr? && loads(message["content"].s).None? ==>
              Extracted(response, loads, timestamp) == Ok(JArr([])))
        && ("content" in message && !message["content"].JStr? && !message["content"].JArr? ==>
              Extracted(response, loads, timestamp) == Ok(JArr([]))))
  {
  }

  /** Content that is a list of dicts comes back as that list, each dict stamped. */
  lemma ListContentStamped(response: Entry, loads: Loader, timestamp: string, items: seq<Json>)
    requires "choices" in response && response["choices"].JArr? && response["choices"].items != []
    requires var choice := response["choices"].items[0];
      choice.JObj? && "message" in choice.fields && choice.fields["message"].JObj? &&
      "content" in choice.fields["message"].fields && choice.fields["message"].fields["content"] == JArr(items)
    requires forall i :: 0 <= i < |items| ==> items[i].JObj?
    ensures Extracted(response, loads, timestamp) ==
      Ok(JArr(seq(|items|, i requires 0 <= i < |items| => JObj(items[i].fields["timestamp" := JStr(timestamp)]))))
  {
    assert ResponseData(response, loads) == Ok(Some(JArr(items)));
    var s := seq(|items|, i requires 0 <= i < |items| => JObj(items[i].fields["timestamp" := JStr(timestamp)]));
    var r := StampItems(items, timestamp);
    assert r.Ok? && r.value == s;
  }

  /** `extract_urls_from_response(perplexity_response)`, with `json.loads` and the
      timestamp `datetime.now().isoformat()` given as parameters. */
  method ExtractUrlsFromResponse(response: Entry, loads: Loader, timestamp: string) returns (r: Result<Json>)
    ensures r == Extracted(response, loads, timestamp)
  {
    if "choices" !in response || !Truthy(response["choices"]) {
      return Ok(JArr([]));
    }
    var first := First(response["choices"]);
    if first.Err? {
      return Err(Wrapped(first.exc));
    }
    var choice := first.value;
    if !choice.JObj? {
      return Err(Wrapped(AttributeError));
    }
    if "message" !in choice.fields {
      return Ok(JArr([]));
    }
    var message := choice.fields["message"];
    if !message.JObj? {
      return Err(Wrapped(AttributeError));
    }
    if "content" !in message.fields {
      return Ok(JArr([]));
    }
    var content := message.fields["content"];
    var urlData: Json;
    if content.JStr? {
      var parsed := loads(content.s);
      if parsed.None? {
        return Ok(JArr([]));
      }
      urlData := parsed.value;
    } else if content.JArr? {
      urlData := content;
    } else {
      return Ok(JArr([]));
    }
    var stamped := StampEntries(urlData, timestamp);
    if stamped.Err? {
      return Err(Wrapped(stamped.exc));
    }
    r := stamped;
  }
}
