/** `URLExtractor` of company_url_collector/src/url_extractor_v2.py. The domain rule, the
    scheme check and the annotation loop are those of the first version; the
    first-party test is exact equality of domains, the irrelevant-URL patterns are
    escaped literals, and the response walk catches only `JSONDecodeError`, `KeyError`
    and `IndexError`, letting every other exception through unwrapped. */
module UrlExtractorV2 {
  import opened Wrappers
  import opened PyText
  import opened Json
  import opened UrlExtractor

  // ---------------------------------------------------------------- _is_company_url

  /** `_is_company_url(url, company_domain)`: false when either is empty or missing;
      otherwise the url's domain is the company domain, character for character. */
  function IsCompanyUrlV2(url: string, companyDomain: Option<string>): (r: bool)
    ensures r ==> url != [] && companyDomain.Some? && ExtractDomain(url) == companyDomain.value
  {
    url != [] && companyDomain.Some? && companyDomain.value != [] && ExtractDomain(url) == companyDomain.value
  }

  /** A url first-party here is first-party for the first version too. */
  lemma ExactImpliesSuffixMatch(url: string, companyDomain: Option<string>)
    requires IsCompanyUrlV2(url, companyDomain)
    ensures IsCompanyUrl(url, companyDomain)
  {
  }

  /** The first version ignores case and this one does not: a domain that differs
      from the company domain only in case is first-party there and third-party here. */
  lemma CaseSensitiveMatch(url: string, companyDomain: string)
    requires url != [] && companyDomain != []
    requires ExtractDomain(url) != companyDomain && Lower(ExtractDomain(url)) == Lower(companyDomain)
    ensures !IsCompanyUrlV2(url, Some(companyDomain))
    ensures IsCompanyUrl(url, Some(companyDomain))
  {
  }

  /** A subdomain of the company is first-party for the first version, never here. */
  lemma SubdomainIsThirdParty(url: string, sub: string, companyDomain: string)
    requires url != [] && companyDomain != []
    requires ExtractDomain(url) == sub + "." + companyDomain
    ensures !IsCompanyUrlV2(url, Some(companyDomain))
    ensures IsCompanyUrl(url, Some(companyDomain))
  {
    var d := ExtractDomain(url);
    assert |d| > |companyDomain|;
    assert d[|d| - |companyDomain|..] == companyDomain;
    assert DomainMatches(d, companyDomain) by {
      SubdomainMatches(sub, companyDomain, companyDomain);
    }
  }

  // ---------------------------------------------------------------- _assess_relevance

  /** The patterns of lines 125-131, each an escaped literal. */
  const PatternsV2: seq<Pattern> := [
    Literal("facebook.com/login"), Literal("linkedin.com/jobs"), Literal("/terms-of-service"),
    Literal("/privacy-policy"), Literal("/about-cookies"), Literal("/sitemap.xml"),
    Literal("/robots.txt")]

  /** Whether the lower-cased url contains one of the literal patterns. */
  predicate PatternHit(url: string) {
    exists i :: 0 <= i < |PatternsV2| && Contains(Lower(url), Lower(PatternsV2[i].text))
  }

  /** Whether the combined lower-cased title and description mention one of the terms. */
  predicate TermHit(title: string, description: string) {
    exists i :: 0 <= i < |IrrelevantTerms| && Contains(Lower(title) + " " + Lower(description), IrrelevantTerms[i])
  }

  /** `_assess_relevance(url, title, description, company_domain)`: a first-party url is
      relevant; any other is irrelevant when it contains a pattern, raises
      AttributeError when the title or description is not a string, and is otherwise
      irrelevant exactly when the text mentions a term. */
  function AssessRelevanceV2(url: string, title: Json, description: Json, companyDomain: Option<string>): (r: Result<bool>)
    ensures IsCompanyUrlV2(url, companyDomain) ==> r == Ok(true)
    ensures !IsCompanyUrlV2(url, companyDomain) && PatternHit(url) ==> r == Ok(false)
    ensures !IsCompanyUrlV2(url, companyDomain) && !PatternHit(url) ==>
      if title.JStr? && description.JStr? then r == Ok(!TermHit(title.s, description.s))
      else r == Err(AttributeError)
  {
    LiteralScan(PatternsV2, url);
    Relevance(IsCompanyUrlV2(url, companyDomain), PatternsV2, url, title, description)
  }

  /** Without a company domain a url is relevant exactly when it carries no pattern and
      its text no term. */
  lemma RelevantWithoutCompany(url: string, title: string, description: string)
    ensures AssessRelevanceV2(url, JStr(title), JStr(description), None) ==
      Ok(!PatternHit(url) && !TermHit(title, description))
  {
  }

  // ---------------------------------------------------------------- validate_urls

  /** The judge of this version for one company domain. */
  function V2Judge(companyDomain: Option<string>): Judge {
    Judge(url => IsCompanyUrlV2(url, companyDomain),
          (url, title, description) => AssessRelevanceV2(url, title, description, companyDomain))
  }

  /** Whether an entry's url, title and description are strings or absent, as the
      collector's entries are. */
  predicate StringFields(e: Entry) {
    && ("url" in e ==> e["url"].JStr?)
    && ("title" in e ==> e["title"].JStr?)
    && ("description" in e ==> e["description"].JStr?)
  }

  /** Over entries with string fields this version never raises: it returns the kept
      entries in order, each with its first-party flag and relevance verdict. */
  lemma ValidatedOnStrings(data: seq<Entry>, companyDomain: Option<string>)
    requires forall i :: 0 <= i < |data| ==> StringFields(data[i])
    ensures Validated(data, V2Judge(companyDomain)).Ok?
    ensures var r := Validated(data, V2Judge(companyDomain)).value; var kept := HttpEntries(data);
      |r| == |kept| && forall i :: 0 <= i < |r| ==> JudgedAs(kept[i], V2Judge(companyDomain), r[i])
  {
    var judge := V2Judge(companyDomain);
    assert Passes(data, judge) by {
      forall i | 0 <= i < |data|
        ensures PassesOne(data[i], judge)
      {
        assert Title(data[i]).JStr? && Description(data[i]).JStr?;
      }
    }
    ValidatedContents(data, judge);
  }

  /** `validate_urls(url_data, company_url)` */
  method ValidateUrls(data: seq<Entry>, companyUrl: Option<string>) returns (r: Result<seq<Entry>>)
    ensures r == Validated(data, V2Judge(CompanyDomain(companyUrl)))
  {
    var companyDomain := CompanyDomain(companyUrl);
    r := ValidateEntries(data, V2Judge(companyDomain));
  }

  // ---------------------------------------------------------------- extract_urls_from_response

  /** The handler of line 24: the three caught exceptions are re-raised wrapped in a
      generic Exception; any other goes through as it is. */
  function Caught(e: Exc): (r: Exc)
    ensures e in {JsonDecodeError, KeyError, IndexError} ==> r == Wrapped(e)
    ensures e !in {JsonDecodeError, KeyError, IndexError} ==> r == e
  {
    if e in {JsonDecodeError, KeyError, IndexError} then Wrapped(e) else e
  }

  /** `perplexity_response.get("choices", [])[0].get("message", {}).get("content", "")`:
      a missing or empty choices list raises IndexError, a dict KeyError; a choice or
      message that is not a dict has no `get` (AttributeError). */
  function Content(response: Entry): (r: Result<Json>)
    ensures var choices := Get(response, "choices", JArr([]));
      (r.Err? && r.exc == IndexError) <==> (!Truthy(choices) && (choices.JArr? || choices.JStr?))
  {
    match First(Get(response, "choices", JArr([])))
    case Err(e) => Err(e)
    case Ok(choice) =>
      if !choice.JObj? then Err(AttributeError)
      else
        var message := Get(choice.fields, "message", JObj(map[]));
        if !message.JObj? then Err(AttributeError)
        else Ok(Get(message.fields, "content", JStr([])))
  }

  /** What `extract_urls_from_response` returns or raises: the content is parsed with
      `json.loads` (a TypeError for anything but a string) and stamped; the three caught
      exceptions come out wrapped and nothing else does. */
  function ExtractedV2(response: Entry, loads: Loader, timestamp: string): (r: Result<Json>)
    ensures r.Err? ==> r.exc !in {JsonDecodeError, KeyError, IndexError}
    ensures r.Err? && r.exc.Wrapped? ==> r.exc.cause in {JsonDecodeError, KeyError, IndexError}
    ensures r.Ok? && r.value.JArr? ==> forall i :: 0 <= i < |r.value.items| ==>
      r.value.items[i].JObj? && "timestamp" in r.value.items[i].fields &&
      r.value.items[i].fields["timestamp"] == JStr(timestamp)
  {
    match Content(response)
    case Err(e) => Err(Caught(e))
    case Ok(content) =>
      if !content.JStr? then Err(TypeError)
      else
        match loads(content.s)
        case None => Err(Wrapped(JsonDecodeError))
        case Some(data) => Stamped(data, timestamp)
  }

  /** A response without choices, or with an empty list of them, raises the wrapped
      IndexError here, where the first version returns an empty list. */
  lemma NoChoicesRaises(response: Entry, loads: Loader, timestamp: string)
    requires "choices" !in response || response["choices"] == JArr([])
    ensures ExtractedV2(response, loads, timestamp) == Err(Wrapped(IndexError))
    ensures Extracted(response, loads, timestamp) == Ok(JArr([]))
  {
  }

  /** On a well-formed response whose content is a string, the two versions agree
      whenever the content parses, except that the first wraps a stamping TypeError;
      when it does not parse, this version raises where the first returns an empty
      list. */
  lemma AgreesOnStringContent(response: Entry, loads: Loader, timestamp: string, content: string)
    requires "choices" in response && response["choices"].JArr? && response["choices"].items != []
    requires var choice := response["choices"].items[0];
      choice.JObj? && "message" in choice.fields && choice.fields["message"].JObj? &&
      "content" in choice.fields["message"].fields && choice.fields["message"].fields["content"] == JStr(content)
    ensures loads(content).Some? ==>
      && (ExtractedV2(response, loads, timestamp).Ok? <==> Extracted(response, loads, timestamp).Ok?)
      && (ExtractedV2(response, loads, timestamp).Ok? ==> ExtractedV2(response, loads, timestamp) == Extracted(response, loads, timestamp))
      && (ExtractedV2(response, loads, timestamp).Err? ==>
            ExtractedV2(response, loads, timestamp) == Err(TypeError) &&
            Extracted(response, loads, timestamp) == Err(Wrapped(TypeError)))
    ensures loads(content).None? ==>
      ExtractedV2(response, loads, timestamp) == Err(Wrapped(JsonDecodeError)) &&
      Extracted(response, loads, timestamp) == Ok(JArr([]))
  {
    assert Content(response) == Ok(JStr(content));
    assert Truthy(response["choices"]);
  }

  /** `extract_urls_from_response(perplexity_response)`, with `json.loads` and the
      timestamp given as parameters. */
  method ExtractUrlsFromResponse(response: Entry, loads: Loader, timestamp: string) returns (r: Result<Json>)
    ensures r == ExtractedV2(response, loads, timestamp)
  {
    var choices := Get(response, "choices", JArr([]));
    var first := First(choices);
    if first.Err? {
      return Err(Caught(first.exc));
    }
    var choice := first.value;
    if !choice.JObj? {
      return Err(AttributeError);
    }
    var message := Get(choice.fields, "message", JObj(map[]));
    if !message.JObj? {
      return Err(AttributeError);
    }
    var content := Get(message.fields, "content", JStr([]));
    if !content.JStr? {
      return Err(TypeError);
    }
    var parsed := loads(content.s);
    if parsed.None? {
      return Err(Wrapped(JsonDecodeError));
    }
    r := StampEntries(parsed.value, timestamp);
  }
}
