/** The pure helpers of `EnhancedWebScraper` (scrapeInternet_3.py): URL validation and
    normalisation, whitespace clean-up, the relevance test and `sanitize_filename`. */
module EnhancedText {
  import opened Wrappers
  import opened PyText
  import opened Urllib
  import UrlRebuild

  // ---------------------------------------------------------------- is_valid_url

  /** `netloc` ends, as a plain string, with one of `suffixes`. */
  predicate EndsWithSome(netloc: string, suffixes: seq<string>) {
    exists i :: 0 <= i < |suffixes| && EndsWith(netloc, suffixes[i])
  }

  /** `any(s.endswith(d) for d in suffixes)` */
  function AnyEndsWith(s: string, suffixes: seq<string>): (r: bool)
    ensures r <==> EndsWithSome(s, suffixes)
    decreases |suffixes|
  {
    if suffixes == [] then false
    else if EndsWith(s, suffixes[0]) then true
    else
      var r := AnyEndsWith(s, suffixes[1..]);
      assert EndsWithSome(s, suffixes) ==> EndsWithSome(s, suffixes[1..]) by {
        if EndsWithSome(s, suffixes) {
          var i :| 0 <= i < |suffixes| && EndsWith(s, suffixes[i]);
          assert suffixes[1..][i - 1] == suffixes[i];
        }
      }
      assert EndsWithSome(s, suffixes[1..]) ==> EndsWithSome(s, suffixes) by {
        if EndsWithSome(s, suffixes[1..]) {
          var i :| 0 <= i < |suffixes| - 1 && EndsWith(s, suffixes[1..][i]);
          assert suffixes[1..][i] == suffixes[i + 1];
        }
      }
      r
  }

  /** What `is_valid_url` accepts in a parsed URL: an http(s) scheme, a host, and, when
      domains are given, a host ending with one of them. An empty domain list and no list
      at all both leave the host unrestricted. */
  predicate AcceptedParse(p: ParsedUrl, allowedDomains: seq<string>) {
    && (p.scheme == "http" || p.scheme == "https")
    && p.netloc != []
    && (allowedDomains != [] ==> EndsWithSome(p.netloc, allowedDomains))
  }

  /** `is_valid_url`: a `ValueError` from `urlparse` makes the URL invalid. */
  function IsValidUrl(url: string, allowedDomains: seq<string>): bool {
    match UrlParse(url)
    case Err(_) => false
    case Ok(p) =>
      var isValid := p.scheme != [] && p.netloc != [] && (p.scheme == "http" || p.scheme == "https");
      if isValid && allowedDomains != [] then AnyEndsWith(p.netloc, allowedDomains) else isValid
  }

  /** A URL is valid exactly when it parses and the parse is accepted: an http(s)
      scheme, a host, and a host that ends with one of the domains when there are any. */
  lemma ValidMeansAccepted(url: string, allowedDomains: seq<string>)
    ensures IsValidUrl(url, allowedDomains)
      <==> UrlParse(url).Ok? && AcceptedParse(UrlParse(url).value, allowedDomains)
  {
    var r := UrlParse(url);
    if r.Ok? {
      var p := r.value;
      if p.scheme != [] && p.netloc != [] && (p.scheme == "http" || p.scheme == "https") && allowedDomains != [] {
        assert AnyEndsWith(p.netloc, allowedDomains) <==> EndsWithSome(p.netloc, allowedDomains);
      }
    }
  }

  /** The domain test is a plain suffix test: a longer host passes and a port fails. */
  lemma DomainSuffixIsTextual()
    ensures EndsWithSome("notexample.com", ["example.com"])
    ensures !EndsWithSome("example.com:8080", ["example.com"])
  {
    assert EndsWith("notexample.com", ["example.com"][0]) by {
      assert "notexample.com"[3..] == "example.com";
    }
    assert "example.com:8080"[5..] != "example.com" by {
      assert "example.com:8080"[5..][0] == 'l';
    }
  }

  // ---------------------------------------------------------------- normalize_url

  /** The tail of `normalize_url`: parse, then rebuild without params and fragment. */
  function Rebuild(url: string): (r: Result<Option<string>>)
    ensures r.Ok? ==> r.value.Some? && '#' !in r.value.value
    ensures r.Err? ==> UrlParse(url).Err?
  {
    match UrlParse(url)
    case Err(e) => Err(e)
    case Ok(p) =>
      RecomposeNoHash(p);
      Ok(Some(Recompose(p)))
  }

  lemma RecomposeNoHash(p: ParsedUrl)
    requires WellFormed(p)
    ensures '#' !in Recompose(p)
  {
    assert Recompose(p) == p.scheme + "://" + (p.netloc + p.path + QueryPart(p.query));
    assert '#' !in QueryPart(p.query);
  }

  /** The text `normalize_url` parses: the href itself when it is absolute http(s),
      else what `urljoin` makes of it. */
  predicate IsAbsoluteHttp(href: string) {
    StartsWith(href, "http://") || StartsWith(href, "https://")
  }

  lemma HashIsNotHttp(href: string)
    ensures StartsWith(href, "#") ==> !IsAbsoluteHttp(href)
  {
    if StartsWith(href, "#") && |href| >= 7 {
      assert href[..1][0] == href[0] == href[..7][0];
    }
  }

  /** `normalize_url(href, base_url)`: `Ok(None)` is Python's `None`, `Err` an exception
      from `urljoin` or `urlparse`. */
  function NormalizeUrl(href: string, baseUrl: string, urljoin: Joiner): (r: Result<Option<string>>)
    ensures href == [] || StartsWith(href, "#") ==> r == Ok(None)
    ensures r.Ok? && r.value.Some? ==> '#' !in r.value.value
  {
    HashIsNotHttp(href);
    if href == [] then Ok(None)
    else if IsAbsoluteHttp(href) then Rebuild(href)
    else if StartsWith(href, "#") then Ok(None)
    else
      match urljoin(baseUrl, href)
      case Err(e) => Err(e)
      case Ok(joined) => Rebuild(joined)
  }

  /** A result of `normalize_url` is a parsed URL rebuilt as scheme, `://`, host, path
      and `?query` when the query is non-empty: fragment and params are dropped. */
  lemma NormalizedShape(href: string, baseUrl: string, urljoin: Joiner, u: string) returns (p: ParsedUrl)
    requires NormalizeUrl(href, baseUrl, urljoin) == Ok(Some(u))
    ensures WellFormed(p) && u == Recompose(p)
    ensures IsAbsoluteHttp(href) ==> UrlParse(href) == Ok(p)
    ensures !IsAbsoluteHttp(href) ==>
      urljoin(baseUrl, href).Ok? && UrlParse(urljoin(baseUrl, href).value) == Ok(p)
  {
    if IsAbsoluteHttp(href) {
      p := UrlParse(href).value;
    } else {
      p := UrlParse(urljoin(baseUrl, href).value).value;
    }
  }

  lemma SchemeThenColon(p: ParsedUrl)
    requires IsCanonicalScheme(p.scheme)
    ensures |p.scheme| < |Recompose(p)| && Recompose(p)[|p.scheme|] == ':'
    ensures Recompose(p)[..|p.scheme|] == p.scheme
    ensures forall j :: 0 <= j < |p.scheme| ==> Recompose(p)[j] != ':'
  {
    var r := Recompose(p);
    assert r == p.scheme + ("://" + (p.netloc + p.path + QueryPart(p.query)));
    assert forall j :: 0 <= j < |p.scheme| ==> r[j] == p.scheme[j];
  }

  /** The scheme of a rebuilt URL can be read off its first characters. */
  lemma RebuiltScheme(p: ParsedUrl)
    requires IsCanonicalScheme(p.scheme)
    ensures StartsWith(Recompose(p), "http://") ==> p.scheme == "http"
    ensures StartsWith(Recompose(p), "https://") ==> p.scheme == "https"
  {
    var r := Recompose(p);
    var n := |p.scheme|;
    SchemeThenColon(p);
    if StartsWith(r, "http://") {
      FirstColon(r, "http://", n, 4);
    } else if StartsWith(r, "https://") {
      FirstColon(r, "https://", n, 5);
    }
  }

  /** Two strings that share a prefix have their first `:` at the same place when the
      prefix holds one. */
  lemma FirstColon(r: string, pre: string, n: nat, m: nat)
    requires StartsWith(r, pre) && m < |pre| && pre[m] == ':'
    requires forall j :: 0 <= j < m ==> pre[j] != ':'
    requires n < |r| && r[n] == ':'
    requires forall j :: 0 <= j < n ==> r[j] != ':'
    ensures n == m && r[..n] == pre[..m]
  {
    assert forall j :: 0 <= j < |pre| ==> r[j] == pre[j];
  }

  /** Normalising an http(s) result of `normalize_url` again returns it unchanged,
      whatever the base and `urljoin`. The one exception is a URL whose host was empty
      and whose path's first segment holds a single bracket: its second parse raises. */
  lemma NormalizeIdempotent(href: string, baseUrl: string, urljoin: Joiner, u: string,
                            baseUrl': string, urljoin': Joiner)
    requires NormalizeUrl(href, baseUrl, urljoin) == Ok(Some(u))
    requires IsAbsoluteHttp(u)
    ensures NormalizeUrl(u, baseUrl', urljoin') == Ok(Some(u)) ||
            NormalizeUrl(u, baseUrl', urljoin') == Err(ValueError)
    ensures UrlParse(u).Ok? ==> NormalizeUrl(u, baseUrl', urljoin') == Ok(Some(u))
  {
    var p := NormalizedShape(href, baseUrl, urljoin, u);
    RebuiltScheme(p);
    UrlRebuild.ReparseRecomposed(p);
    assert NormalizeUrl(u, baseUrl', urljoin') == Rebuild(u);
  }

  // ---------------------------------------------------------------- extract_text_content

  /** Dropping a leading run of whitespace keeps the words of the text. */
  lemma LStripKeepsWords(s: string)
    ensures NonSpace(LStrip(s)) == NonSpace(s)
  {
    var t := LStrip(s);
    var k := |s| - |t|;
    assert s == s[..k] + t;
    NonSpaceConcat(s[..k], t);
    NonSpaceOfSpacePrefix(s, k);
  }

  /** A string that starts with whitespace loses at least that character to `lstrip`. */
  lemma LStripShorter(s: string)
    requires s != [] && IsSpace(s[0])
    ensures |LStrip(s)| < |s|
  {
    var t := LStrip(s);
    assert |t| == |s| ==> t == s;
  }

  /** `re.sub(r"\s+", " ", s)`: every run of whitespace becomes one space. Python's `\s`
      on `str` patterns matches exactly the characters `str.isspace` accepts. */
  function CollapseRuns(s: string): string
    decreases |s|
  {
    if s == [] then []
    else if IsSpace(s[0]) then
      LStripShorter(s);
      " " + CollapseRuns(LStrip(s))
    else [s[0]] + CollapseRuns(s[1..])
  }

  /** A run of whitespace becomes a space and any other character stays, so the first
      character of the result is a space exactly when the input starts with whitespace. */
  lemma CollapseRunsHead(s: string)
    requires s != []
    ensures CollapseRuns(s) != [] && CollapseRuns(s)[0] == if IsSpace(s[0]) then ' ' else s[0]
  {
  }

  /** Collapsing runs of whitespace keeps the other characters, in order. */
  lemma {:induction false} CollapseRunsKeepsWords(s: string)
    ensures NonSpace(CollapseRuns(s)) == NonSpace(s)
    decreases |s|
  {
    if s != [] {
      if IsSpace(s[0]) {
        LStripShorter(s);
        LStripKeepsWords(s);
        CollapseRunsKeepsWords(LStrip(s));
        NonSpaceCons(' ', CollapseRuns(LStrip(s)));
      } else {
        CollapseRunsKeepsWords(s[1..]);
        NonSpaceCons(s[0], CollapseRuns(s[1..]));
        NonSpaceCons(s[0], s[1..]);
        assert [s[0]] + s[1..] == s;
      }
    }
  }

  /** After collapsing, every whitespace character is a single plain space. */
  lemma {:induction false} CollapseRunsSpacing(s: string)
    ensures SingleSpaced(CollapseRuns(s))
    decreases |s|
  {
    if s != [] {
      if IsSpace(s[0]) {
        var t := LStrip(s);
        LStripShorter(s);
        CollapseRunsSpacing(t);
        if t != [] {
          CollapseRunsHead(t);
        }
        SpacedCons(' ', CollapseRuns(t));
      } else {
        CollapseRunsSpacing(s[1..]);
        SpacedCons(s[0], CollapseRuns(s[1..]));
      }
    }
  }

  /** A character put in front of a single-spaced string keeps it single-spaced when it
      is not whitespace, or is a plain space before a non-whitespace character. */
  lemma SpacedCons(c: char, rest: string)
    requires SingleSpaced(rest)
    requires IsSpace(c) ==> c == ' ' && (rest == [] || !IsSpace(rest[0]))
    ensures SingleSpaced([c] + rest)
  {
    var t := [c] + rest;
    assert forall i :: 0 < i < |t| ==> t[i] == rest[i - 1];
  }

  /** `re.sub(r"\s+", " ", text).strip()`, the clean-up `extract_text_content` applies to
      the text the HTML parser returns. */
  function CollapseWhitespace(text: string): (r: string)
    ensures r != [] ==> !IsSpace(r[0]) && !IsSpace(r[|r| - 1])
  {
    Strip(CollapseRuns(text))
  }

  /** The cleaned text keeps every non-whitespace character of the input, in order. */
  lemma CollapsedKeepsWords(text: string)
    ensures NonSpace(CollapseWhitespace(text)) == NonSpace(text)
  {
    var c := CollapseRuns(text);
    CollapseRunsKeepsWords(text);
    var k := StripSlice(c);
    TrimKeepsWords(c, k, k + |Strip(c)|);
  }

  /** The only whitespace left in the cleaned text is single spaces between words. */
  lemma CollapsedSpacing(text: string)
    ensures SingleSpaced(CollapseWhitespace(text))
  {
    var c := CollapseRuns(text);
    CollapseRunsSpacing(text);
    var k := StripSlice(c);
    SingleSpacedSlice(c, k, k + |CollapseWhitespace(text)|);
  }

  /** Every whitespace character is a plain space and none follows another. */
  predicate SingleSpaced(s: string) {
    && (forall i :: 0 <= i < |s| && IsSpace(s[i]) ==> s[i] == ' ')
    && (forall i :: 0 <= i < |s| - 1 && IsSpace(s[i]) ==> !IsSpace(s[i + 1]))
  }

  lemma SingleSpacedSlice(s: string, lo: nat, hi: nat)
    requires lo <= hi <= |s| && SingleSpaced(s)
    ensures SingleSpaced(s[lo..hi])
  {
    assert forall i :: 0 <= i < hi - lo ==> s[lo..hi][i] == s[lo + i];
  }

  // ---------------------------------------------------------------- is_content_relevant

  /** The spaCy similarity of two texts, left uninterpreted. */
  type Similarity = (string, string) -> real

  /** The score a page's content gets against a topic: the similarity of its first 5000
      characters when the model is loaded, else 1.0. */
  function Score(nlpLoaded: bool, similarity: Similarity, content: string, topic: string): real {
    if nlpLoaded then similarity(SliceTo(content, 5000), topic) else 1.0
  }

  /** `is_content_relevant`: everything is relevant without a model; with one, content
      under 100 characters never is, and longer content is when its score exceeds the
      threshold. */
  function IsContentRelevant(nlpLoaded: bool, similarity: Similarity, threshold: real,
                             content: string, topic: string): (ok: bool)
    ensures !nlpLoaded ==> ok
    ensures nlpLoaded && |content| < 100 ==> !ok
    ensures ok ==> Score(nlpLoaded, similarity, content, topic) > threshold || !nlpLoaded
    ensures nlpLoaded && |content| >= 100 ==> (ok <==> similarity(SliceTo(content, 5000), topic) > threshold)
  {
    if !nlpLoaded then true
    else if content == [] || |content| < 100 then false
    else similarity(SliceTo(content, 5000), topic) > threshold
  }

  // ---------------------------------------------------------------- sanitize_filename

  /** The characters Windows refuses in file names: `\ / * ? : " < > |`. */
  predicate IsInvalidFileChar(c: char) {
    c == '\\' || c == '/' || c == '*' || c == '?' || c == ':' || c == '"' || c == '<' || c == '>' || c == '|'
  }

  /** `sanitize_filename`: each invalid character becomes `_`. */
  function SanitizeFilename(name: string): (r: string)
    ensures |r| == |name|
    ensures forall i :: 0 <= i < |name| ==> r[i] == if IsInvalidFileChar(name[i]) then '_' else name[i]
  {
    if name == [] then []
    else [if IsInvalidFileChar(name[0]) then '_' else name[0]] + SanitizeFilename(name[1..])
  }

  /** A sanitized name has no invalid character left, so sanitizing it again changes nothing. */
  lemma SanitizeIdempotent(name: string)
    ensures forall i :: 0 <= i < |SanitizeFilename(name)| ==> !IsInvalidFileChar(SanitizeFilename(name)[i])
    ensures SanitizeFilename(SanitizeFilename(name)) == SanitizeFilename(name)
  {
  }
}
