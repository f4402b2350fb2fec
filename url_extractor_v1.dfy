/** `URLExtractor` of company_url_collector_v1/src/url_extractor.py. Its
    `extract_urls_from_response` is, line for line, the one of the second version and
    is modelled there (`UrlExtractorV2.ExtractedV2`); its `validate_urls` only keeps
    the entries whose url passes the scheme check, without annotating them. */
module UrlExtractorV1 {
  import opened Wrappers
  import opened PyText
  import opened Json
  import opened UrlExtractor

  /** What `validate_urls(url_data)` returns or raises: the entries whose url is
      `http://` or `https://`, in order and untouched; a truthy url that is not a string
      raises AttributeError. */
  function Filtered(data: seq<Entry>): (r: Result<seq<Entry>>)
    ensures r.Ok? <==> forall i :: 0 <= i < |data| ==> HttpUrl(data[i]).Ok?
    ensures r.Ok? ==> r.value == HttpEntries(data)
    ensures r.Err? ==> r.exc == AttributeError
    decreases |data|
  {
    if data == [] then Ok([])
    else
      var rest := Filtered(data[1..]);
      assert forall i :: 1 <= i < |data| ==> data[i] == data[1..][i - 1];
      match HttpUrl(data[0])
      case Err(e) => Err(e)
      case Ok(kept) => if kept.Some? then Prepend([data[0]], rest) else rest
  }

  /** `xs` is `ys` with some entries left out, the rest in order. */
  predicate SubsequenceOf<T(==)>(xs: seq<T>, ys: seq<T>)
    decreases |ys|
  {
    if xs == [] then true
    else if ys == [] then false
    else (xs[0] == ys[0] && SubsequenceOf(xs[1..], ys[1..])) || SubsequenceOf(xs, ys[1..])
  }

  /** The kept entries are a subsequence of the input. */
  lemma {:induction false} KeptSubsequence(data: seq<Entry>)
    ensures SubsequenceOf(HttpEntries(data), data)
    decreases |data|
  {
    if data != [] {
      KeptSubsequence(data[1..]);
      var rest := HttpEntries(data[1..]);
      if HttpUrl(data[0]).Ok? && HttpUrl(data[0]).value.Some? {
        assert HttpEntries(data) == [data[0]] + rest;
        assert ([data[0]] + rest)[1..] == rest;
      } else if rest != [] {
        assert HttpEntries(data) == rest;
      }
    }
  }

  /** Filtering a filtered list keeps all of it. */
  lemma {:induction false} KeptKeepsAll(data: seq<Entry>)
    ensures HttpEntries(HttpEntries(data)) == HttpEntries(data)
    decreases |data|
  {
    if data != [] {
      KeptKeepsAll(data[1..]);
      var rest := HttpEntries(data[1..]);
      if HttpUrl(data[0]).Ok? && HttpUrl(data[0]).value.Some? {
        assert ([data[0]] + rest)[1..] == rest;
      }
    }
  }

  /** Validating the result of a validation returns it unchanged. */
  lemma FilteredIdempotent(data: seq<Entry>)
    requires Filtered(data).Ok?
    ensures Filtered(Filtered(data).value) == Filtered(data)
  {
    var kept := HttpEntries(data);
    KeptKeepsAll(data);
    assert forall i :: 0 <= i < |kept| ==> kept[i] in kept;
  }

  /** The second and first versions keep the same entries: whenever the annotating
      version returns, its entries are the ones kept here, each with the two flags
      added. */
  lemma AnnotatedAreKept(data: seq<Entry>, judge: Judge)
    requires Validated(data, judge).Ok?
    ensures Filtered(data).Ok?
    ensures var r := Validated(data, judge).value; var kept := Filtered(data).value;
      |r| == |kept| && forall i :: 0 <= i < |r| ==> JudgedAs(kept[i], judge, r[i])
  {
    ValidatedPasses(data, judge);
    ValidatedContents(data, judge);
    assert forall i :: 0 <= i < |data| ==> PassesOne(data[i], judge);
  }

  /** `validate_urls(url_data)` */
  method ValidateUrls(data: seq<Entry>) returns (r: Result<seq<Entry>>)
    ensures r == Filtered(data)
  {
    var validated: seq<Entry> := [];
    var i := 0;
    assert data[i..] == data;
    PrependNothing(validated, Filtered(data));
    while i < |data|
      invariant 0 <= i <= |data|
      invariant Filtered(data) == Prepend(validated, Filtered(data[i..]))
    {
      var entry := data[i];
      assert data[i..][0] == entry && data[i..][1..] == data[i + 1..];
      var url := Get(entry, "url", JStr([]));
      if Truthy(url) {
        if !url.JStr? {
          return Err(AttributeError);
        }
        if StartsWith(url.s, "http://") || StartsWith(url.s, "https://") {
          PrependTwice(validated, [entry], Filtered(data[i + 1..]));
          validated := validated + [entry];
        }
      }
      i := i + 1;
    }
    assert data[i..] == [];
    PrependNothing(validated, Filtered(data[i..]));
    r := Ok(validated);
  }
}
