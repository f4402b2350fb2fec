/** The pure helpers of `WebScraper` (scrapeInternet.py): URL validation and
    normalisation, and the line and chunk clean-up `extract_text_content` applies to the
    text of a page. */
module BasicText {
  import opened Wrappers
  import opened PyText
  import opened Urllib
  import EnhancedText
  import UrlRebuild

  // ---------------------------------------------------------------- is_valid_url

  /** `is_valid_url(url)`: `urlparse` finds both a scheme and a netloc, whatever the
      scheme is; a `ValueError` from the parse makes the URL invalid. */
  predicate IsValidUrl(url: string) {
    match UrlParse(url)
    case Err(_) => false
    case Ok(p) => p.scheme != [] && p.netloc != []
  }

  /** `scheme://host` is valid for any scheme `urlparse` recognises and any non-empty
      host without a delimiter, line break or bracket: there is no scheme test, so an
      `ftp` URL is valid here while the validator of `EnhancedWebScraper` turns it down. */
  lemma SchemeHostValid(scheme: string, host: string)
    requires scheme != [] && IsCanonicalScheme(scheme)
    requires host != []
    requires forall c :: c in host ==> !IsNetlocDelim(c) && !IsUnsafe(c) && c != '[' && c != ']'
    ensures UrlParse(scheme + "://" + host) == Ok(ParsedUrl(scheme, host, [], [], [], []))
    ensures IsValidUrl(scheme + "://" + host)
  {
    UrlRebuild.ParseSchemeHost(scheme, host);
  }

  /** Every URL the validator of `EnhancedWebScraper` accepts, with or without a domain
      list, this validator accepts too. */
  lemma EnhancedValidIsValid(url: string, allowedDomains: seq<string>)
    requires EnhancedText.IsValidUrl(url, allowedDomains)
    ensures IsValidUrl(url)
  {
  }

  // ---------------------------------------------------------------- normalize_url

  /** `normalize_url(href, base_url)`: `Ok(None)` is Python's `None` and `Err` the
      exception `urljoin` can raise. Absolute http(s) hrefs are returned as they are. */
  function NormalizeUrl(href: string, baseUrl: string, urljoin: Joiner): (r: Result<Option<string>>)
    ensures href == [] || StartsWith(href, "#") ==> r == Ok(None)
    ensures EnhancedText.IsAbsoluteHttp(href) ==> r == Ok(Some(href))
    ensures href != [] && !StartsWith(href, "#") && !EnhancedText.IsAbsoluteHttp(href) ==>
      match urljoin(baseUrl, href)
      case Err(e) => r == Err(e)
      case Ok(joined) => r == Ok(Some(joined))
  {
    EnhancedText.HashIsNotHttp(href);
    if href == [] then Ok(None)
    else if EnhancedText.IsAbsoluteHttp(href) then Ok(Some(href))
    else if StartsWith(href, "#") then Ok(None)
    else
      match urljoin(baseUrl, href)
      case Err(e) => Err(e)
      case Ok(joined) => Ok(Some(joined))
  }

  /** An absolute http(s) href keeps its `#fragment`, which the normaliser of
      `EnhancedWebScraper` always drops: the two crawlers see such links differently. */
  lemma FragmentKept(href: string, baseUrl: string, urljoin: Joiner)
    requires EnhancedText.IsAbsoluteHttp(href) && '#' in href
    ensures NormalizeUrl(href, baseUrl, urljoin) == Ok(Some(href))
    ensures EnhancedText.NormalizeUrl(href, baseUrl, urljoin) != Ok(Some(href))
  {
  }

  /** Normalising an absolute http(s) URL the normaliser produced gives it back, against
      any base and any `urljoin`. */
  lemma NormalizeFixesAbsolute(href: string, baseUrl: string, urljoin: Joiner, baseUrl': string, urljoin': Joiner)
    requires NormalizeUrl(href, baseUrl, urljoin).Ok? && NormalizeUrl(href, baseUrl, urljoin).value.Some?
    requires EnhancedText.IsAbsoluteHttp(NormalizeUrl(href, baseUrl, urljoin).value.value)
    ensures var u := NormalizeUrl(href, baseUrl, urljoin).value.value;
      NormalizeUrl(u, baseUrl', urljoin') == Ok(Some(u))
  {
  }

  // ---------------------------------------------------------------- extract_text_content

  /** The line boundaries of `str.splitlines`: line feed, vertical tab, form feed,
      carriage return, the file, group and record separators, next line, and the line and
      paragraph separators. */
  predicate IsLineBreak(c: char) {
    var n := c as int;
    || 0x0a <= n <= 0x0d || 0x1c <= n <= 0x1e || n == 0x85 || n == 0x2028 || n == 0x2029
  }

  /** Every line boundary is whitespace. */
  lemma LineBreakIsSpace(c: char)
    requires IsLineBreak(c)
    ensures IsSpace(c)
  {
  }

  predicate NoLineBreak(s: string) {
    forall c :: c in s ==> !IsLineBreak(c)
  }

  /** The index of the first line boundary of `s`, or `|s|` when there is none. */
  function BreakIndex(s: string): (k: nat)
    ensures k <= |s|
    ensures k < |s| ==> IsLineBreak(s[k])
    ensures forall j :: 0 <= j < k ==> !IsLineBreak(s[j])
  {
    if s == [] || IsLineBreak(s[0]) then 0 else BreakIndex(s[1..]) + 1
  }

  /** Where the text after the line boundary at `k` starts: `\r\n` is one boundary. */
  function NextLineStart(s: string, k: nat): (n: nat)
    requires k < |s|
    ensures k < n <= |s| && n <= k + 2
  {
    if s[k] == '\r' && k + 1 < |s| && s[k + 1] == '\n' then k + 2 else k + 1
  }

  /** `s.splitlines()`: the text between line boundaries; a boundary at the very end
      does not start another line. */
  function SplitLines(s: string): seq<string>
    decreases |s|
  {
    if s == [] then []
    else
      var k := BreakIndex(s);
      if k == |s| then [s]
      else [s[..k]] + SplitLines(s[NextLineStart(s, k)..])
  }

  /** No line of `s.splitlines()` holds a line boundary. */
  lemma {:induction false} SplitLinesNoBreak(s: string)
    ensures forall k :: 0 <= k < |SplitLines(s)| ==> NoLineBreak(SplitLines(s)[k])
    decreases |s|
  {
    if s != [] {
      var k := BreakIndex(s);
      assert forall c :: c in s[..k] ==> !IsLineBreak(c);
      if k < |s| {
        var rest := s[NextLineStart(s, k)..];
        SplitLinesNoBreak(rest);
        assert SplitLines(s) == [s[..k]] + SplitLines(rest);
      }
    }
  }

  /** No two spaces in a row. */
  predicate NoDoubleSpace(s: string) {
    forall i :: 0 <= i < |s| - 1 ==> !(s[i] == ' ' && s[i + 1] == ' ')
  }

  /** A string with no two spaces in a row does not contain `"  "`. */
  lemma NoDoubleSpaceNotContains(s: string)
    requires NoDoubleSpace(s)
    ensures !Contains(s, "  ")
  {
    ContainsPair(s);
  }

  lemma ContainsPair(s: string)
    ensures Contains(s, "  ") ==> exists i :: 0 <= i < |s| - 1 && s[i] == ' ' && s[i + 1] == ' '
  {
    if Contains(s, "  ") {
      var i := ContainsWitness(s, "  ");
      assert s[i..i + 2][0] == s[i] && s[i..i + 2][1] == s[i + 1];
    }
  }

  lemma NoDoubleSpaceSlice(s: string, lo: nat, hi: nat)
    requires lo <= hi <= |s| && NoDoubleSpace(s)
    ensures NoDoubleSpace(s[lo..hi])
  {
    assert forall i :: 0 <= i < hi - lo ==> s[lo..hi][i] == s[lo + i];
  }

  /** The index of the first `"  "` in `s`, or -1 when there is none. */
  function PairIndex(s: string): (k: int)
    ensures -1 <= k && (k >= 0 ==> k + 1 < |s| && s[k] == ' ' && s[k + 1] == ' ')
    ensures k < 0 ==> NoDoubleSpace(s)
    ensures k >= 0 ==> NoDoubleSpace(s[..k + 1])
  {
    if |s| < 2 then -1
    else if s[0] == ' ' && s[1] == ' ' then 0
    else
      var k := PairIndex(s[1..]);
      if k < 0 then -1
      else
        PairShift(s, k);
        k + 1
  }

  lemma PairShift(s: string, k: nat)
    requires k + 2 <= |s| && !(s[0] == ' ' && s[1] == ' ')
    requires NoDoubleSpace(s[1..][..k + 1])
    ensures NoDoubleSpace(s[..k + 2])
  {
    var t, u := s[..k + 2], s[1..][..k + 1];
    forall i | 0 <= i < |t| - 1
      ensures !(t[i] == ' ' && t[i + 1] == ' ')
    {
      if i > 0 {
        assert t[i] == u[i - 1] && t[i + 1] == u[i];
      }
    }
  }

  /** `s.split("  ")`: the text between the occurrences of two spaces, found from the
      left without overlapping. */
  function SplitDoubleSpace(s: string): (parts: seq<string>)
    ensures |parts| >= 1
    decreases |s|
  {
    var k := PairIndex(s);
    if k < 0 then [s] else [s[..k]] + SplitDoubleSpace(s[k + 2..])
  }

  /** Each of `parts` has no two spaces in a row. */
  predicate AllNoPair(parts: seq<string>) {
    forall k :: 0 <= k < |parts| ==> NoDoubleSpace(parts[k])
  }

  /** Each of `parts` has no line boundary. */
  predicate AllNoBreak(parts: seq<string>) {
    forall k :: 0 <= k < |parts| ==> NoLineBreak(parts[k])
  }

  /** Where `s` holds two spaces in a row, it is the text before them, the two spaces
      and the text after them. */
  lemma PairCut(s: string)
    requires PairIndex(s) >= 0
    ensures var k := PairIndex(s); s == s[..k] + "  " + s[k + 2..]
    ensures var k := PairIndex(s); SplitDoubleSpace(s) == [s[..k]] + SplitDoubleSpace(s[k + 2..])
  {
    var k := PairIndex(s);
    assert s[k..k + 2] == "  ";
    assert s == s[..k] + s[k..k + 2] + s[k + 2..];
  }

  /** The text before the first two spaces in a row holds no two spaces in a row. */
  lemma BeforePair(s: string)
    requires PairIndex(s) >= 0
    ensures NoDoubleSpace(s[..PairIndex(s)])
  {
    var k := PairIndex(s);
    NoDoubleSpaceSlice(s[..k + 1], 0, k);
    assert s[..k + 1][..k] == s[..k];
  }

  /** A slice of a string without line boundaries has none. */
  lemma NoBreakSlice(s: string, lo: nat, hi: nat)
    requires lo <= hi <= |s| && NoLineBreak(s)
    ensures NoLineBreak(s[lo..hi])
  {
    forall c | c in s[lo..hi]
      ensures !IsLineBreak(c)
    {
      var i :| 0 <= i < hi - lo && s[lo..hi][i] == c;
      assert s[lo + i] == c;
    }
  }

  /** Adding a part in front keeps every part free of two spaces in a row, and free of
      line boundaries. */
  lemma AllPartsCons(head: string, tail: seq<string>)
    ensures NoDoubleSpace(head) && AllNoPair(tail) ==> AllNoPair([head] + tail)
    ensures NoLineBreak(head) && AllNoBreak(tail) ==> AllNoBreak([head] + tail)
  {
    assert forall j :: 0 < j < |[head] + tail| ==> ([head] + tail)[j] == tail[j - 1];
  }

  /** No part of `s.split("  ")` holds two spaces in a row. */
  lemma {:induction false} SplitDoubleSpaceNoPair(s: string)
    ensures AllNoPair(SplitDoubleSpace(s))
    decreases |s|
  {
    if PairIndex(s) >= 0 {
      var rest := s[PairIndex(s) + 2..];
      SplitDoubleSpaceNoPair(rest);
      PairCut(s);
      BeforePair(s);
      AllPartsCons(s[..PairIndex(s)], SplitDoubleSpace(rest));
    }
  }

  /** The parts of a string without line boundaries have none. */
  lemma {:induction false} SplitDoubleSpaceNoBreak(s: string)
    requires NoLineBreak(s)
    ensures AllNoBreak(SplitDoubleSpace(s))
    decreases |s|
  {
    var k := PairIndex(s);
    if k >= 0 {
      NoBreakSlice(s, k + 2, |s|);
      SplitDoubleSpaceNoBreak(s[k + 2..]);
      PairCut(s);
      NoBreakSlice(s, 0, k);
      AllPartsCons(s[..k], SplitDoubleSpace(s[k + 2..]));
    }
  }

  /** `"  ".join(parts)` */
  function JoinDoubleSpace(parts: seq<string>): string {
    if parts == [] then []
    else if |parts| == 1 then parts[0]
    else parts[0] + "  " + JoinDoubleSpace(parts[1..])
  }

  /** Joining the parts of the split with two spaces gives back the string. */
  lemma {:induction false} JoinSplitDoubleSpace(s: string)
    ensures JoinDoubleSpace(SplitDoubleSpace(s)) == s
    decreases |s|
  {
    var k := PairIndex(s);
    if k >= 0 {
      var rest := s[k + 2..];
      JoinSplitDoubleSpace(rest);
      PairCut(s);
      JoinDoubleSpaceCons(s[..k], SplitDoubleSpace(rest));
    }
  }

  lemma JoinDoubleSpaceCons(head: string, tail: seq<string>)
    requires tail != []
    ensures JoinDoubleSpace([head] + tail) == head + "  " + JoinDoubleSpace(tail)
  {
    assert ([head] + tail)[1..] == tail;
  }

  /** The phrases of one stripped line, each stripped, blank ones dropped. */
  function Phrases(parts: seq<string>): seq<string> {
    if parts == [] then []
    else (if Strip(parts[0]) == [] then [] else [Strip(parts[0])]) + Phrases(parts[1..])
  }

  /** The chunks a line contributes: `phrase.strip()` for each `phrase` of
      `line.strip().split("  ")`, keeping the non-empty ones. */
  function LineChunks(line: string): seq<string> {
    Phrases(SplitDoubleSpace(Strip(line)))
  }

  /** The chunks of all lines, in order. */
  function AllChunks(lines: seq<string>): seq<string> {
    if lines == [] then [] else LineChunks(lines[0]) + AllChunks(lines[1..])
  }

  /** `extract_text_content` after the parser: the non-empty chunks of the text's lines,
      one per output line. */
  function ExtractText(text: string): string {
    Join(AllChunks(SplitLines(text)), '\n')
  }

  /** What a chunk of the output looks like: not empty, no whitespace at either end, no
      two spaces in a row and no line boundary. */
  predicate CleanChunk(c: string) {
    && c != [] && !IsSpace(c[0]) && !IsSpace(c[|c| - 1])
    && !Contains(c, "  ")
    && NoLineBreak(c)
  }

  /** A phrase with no two spaces in a row and no line boundary is clean once stripped,
      unless nothing is left. */
  lemma StrippedClean(p: string)
    requires NoLineBreak(p) && NoDoubleSpace(p)
    requires Strip(p) != []
    ensures CleanChunk(Strip(p))
  {
    var s := Strip(p);
    var i := StripSlice(p);
    NoDoubleSpaceSlice(p, i, i + |s|);
    NoDoubleSpaceNotContains(s);
    NoBreakSlice(p, i, i + |s|);
  }

  /** The phrases kept from parts without two spaces in a row or line boundaries are
      clean. */
  lemma {:induction false} PhrasesClean(parts: seq<string>)
    requires AllNoPair(parts) && AllNoBreak(parts)
    ensures AllClean(Phrases(parts))
  {
    if parts != [] {
      var rest := parts[1..];
      assert forall k :: 0 <= k < |rest| ==> rest[k] == parts[k + 1];
      PhrasesClean(rest);
      var s := Strip(parts[0]);
      var head := if s == [] then [] else [s];
      assert AllClean(head) by {
        if s != [] {
          StrippedClean(parts[0]);
        }
      }
      AllCleanAppend(head, Phrases(rest));
    }
  }

  /** The chunks of a line without line boundaries are clean. */
  lemma LineChunksClean(line: string)
    requires NoLineBreak(line)
    ensures AllClean(LineChunks(line))
  {
    var s := Strip(line);
    var i := StripSlice(line);
    NoBreakSlice(line, i, i + |s|);
    SplitDoubleSpaceNoPair(s);
    SplitDoubleSpaceNoBreak(s);
    PhrasesClean(SplitDoubleSpace(s));
  }

  predicate AllClean(chunks: seq<string>) {
    forall k :: 0 <= k < |chunks| ==> CleanChunk(chunks[k])
  }

  lemma AllCleanAppend(a: seq<string>, b: seq<string>)
    requires AllClean(a) && AllClean(b)
    ensures AllClean(a + b)
  {
    forall k | 0 <= k < |a + b|
      ensures CleanChunk((a + b)[k])
    {
      if k < |a| {
        assert (a + b)[k] == a[k];
      } else {
        assert (a + b)[k] == b[k - |a|];
      }
    }
  }

  lemma {:induction false} AllChunksClean(lines: seq<string>)
    requires forall k :: 0 <= k < |lines| ==> NoLineBreak(lines[k])
    ensures AllClean(AllChunks(lines))
  {
    if lines != [] {
      LineChunksClean(lines[0]);
      AllChunksClean(lines[1..]);
      AllCleanAppend(LineChunks(lines[0]), AllChunks(lines[1..]));
    }
  }

  /** The output of `extract_text_content` is its chunks joined by line feeds: splitting
      it at line feeds gives the chunks back, and each chunk is non-empty, has no
      whitespace at either end, no two spaces in a row and no line boundary. */
  lemma ExtractTextChunks(text: string)
    ensures AllClean(AllChunks(SplitLines(text)))
    ensures ExtractText(text) == [] <==> AllChunks(SplitLines(text)) == []
    ensures AllChunks(SplitLines(text)) != [] ==>
      Split(ExtractText(text), '\n') == AllChunks(SplitLines(text))
  {
    var chunks := AllChunks(SplitLines(text));
    SplitLinesNoBreak(text);
    AllChunksClean(SplitLines(text));
    if chunks != [] {
      assert forall k :: 0 <= k < |chunks| ==> '\n' !in chunks[k] by {
        forall k | 0 <= k < |chunks|
          ensures '\n' !in chunks[k]
        {
          assert IsLineBreak('\n');
        }
      }
      SplitJoin(chunks, '\n');
      assert chunks[0] != [];
      JoinStartsWithFirst(chunks, '\n');
    }
  }

  lemma JoinStartsWithFirst(parts: seq<string>, sep: char)
    requires parts != []
    ensures |Join(parts, sep)| >= |parts[0]|
  {
  }

  // ---------------------------------------------------------------- the words survive

  /** The non-whitespace characters of the strings of `parts`, in order. */
  function Words(parts: seq<string>): string {
    if parts == [] then [] else NonSpace(parts[0]) + Words(parts[1..])
  }

  lemma {:induction false} WordsAppend(a: seq<string>, b: seq<string>)
    ensures Words(a + b) == Words(a) + Words(b)
  {
    if a != [] {
      assert (a + b)[1..] == a[1..] + b;
      WordsAppend(a[1..], b);
    } else {
      assert a + b == b;
    }
  }

  /** Joining with a whitespace separator keeps exactly the words of the parts. */
  lemma {:induction false} JoinKeepsWords(parts: seq<string>, sep: char)
    requires IsSpace(sep)
    ensures NonSpace(Join(parts, sep)) == Words(parts)
  {
    if |parts| == 1 {
      assert NonSpace(parts[0]) + [] == NonSpace(parts[0]);
    } else if |parts| > 1 {
      JoinKeepsWords(parts[1..], sep);
      NonSpaceConcat(parts[0] + [sep], Join(parts[1..], sep));
      NonSpaceConcat(parts[0], [sep]);
      NonSpaceOfSpaces([sep]);
    }
  }

  lemma {:induction false} JoinDoubleSpaceKeepsWords(parts: seq<string>)
    ensures NonSpace(JoinDoubleSpace(parts)) == Words(parts)
  {
    if |parts| == 1 {
      assert NonSpace(parts[0]) + [] == NonSpace(parts[0]);
    } else if |parts| > 1 {
      JoinDoubleSpaceKeepsWords(parts[1..]);
      NonSpaceConcat(parts[0] + "  ", JoinDoubleSpace(parts[1..]));
      NonSpaceConcat(parts[0], "  ");
      NonSpaceOfSpaces("  ");
    }
  }

  lemma {:induction false} PhrasesKeepWords(parts: seq<string>)
    ensures Words(Phrases(parts)) == Words(parts)
  {
    if parts != [] {
      PhrasesKeepWords(parts[1..]);
      var s := Strip(parts[0]);
      StripKeepsWords(parts[0]);
      var head: seq<string> := if s == [] then [] else [s];
      WordsAppend(head, Phrases(parts[1..]));
      if s != [] {
        assert [s][1..] == [];
      }
    }
  }

  lemma LineChunksKeepWords(line: string)
    ensures Words(LineChunks(line)) == NonSpace(line)
  {
    var s := Strip(line);
    PhrasesKeepWords(SplitDoubleSpace(s));
    JoinDoubleSpaceKeepsWords(SplitDoubleSpace(s));
    JoinSplitDoubleSpace(s);
    StripKeepsWords(line);
  }

  lemma {:induction false} AllChunksKeepWords(lines: seq<string>)
    ensures Words(AllChunks(lines)) == Words(lines)
  {
    if lines != [] {
      AllChunksKeepWords(lines[1..]);
      LineChunksKeepWords(lines[0]);
      WordsAppend(LineChunks(lines[0]), AllChunks(lines[1..]));
    }
  }

  /** Splitting into lines drops only line boundaries, so it keeps the words. */
  lemma {:induction false} SplitLinesKeepsWords(s: string)
    ensures Words(SplitLines(s)) == NonSpace(s)
    decreases |s|
  {
    if s != [] {
      var k := BreakIndex(s);
      if k == |s| {
        assert NonSpace(s) + [] == NonSpace(s);
      } else {
        var n := NextLineStart(s, k);
        var tail := SplitLines(s[n..]);
        assert SplitLines(s) == [s[..k]] + tail;
        assert ([s[..k]] + tail)[1..] == tail;
        SplitLinesKeepsWords(s[n..]);
        BreakKeepsWords(s, k, n);
      }
    }
  }

  /** Cutting out a line boundary keeps the words on both sides. */
  lemma BreakKeepsWords(s: string, k: nat, n: nat)
    requires k < |s| && n == NextLineStart(s, k) && IsLineBreak(s[k])
    ensures NonSpace(s) == NonSpace(s[..k]) + NonSpace(s[n..])
  {
    var a, b, c := s[..k], s[k..n], s[n..];
    ThreeWay(s, k, n);
    NonSpaceConcat(a + b, c);
    NonSpaceConcat(a, b);
    BreakIsSpaces(s, k, n);
    assert NonSpace(a) + [] == NonSpace(a);
  }

  /** A line boundary holds only whitespace. */
  lemma BreakIsSpaces(s: string, k: nat, n: nat)
    requires k < |s| && n == NextLineStart(s, k) && IsLineBreak(s[k])
    ensures NonSpace(s[k..n]) == []
  {
    var b := s[k..n];
    forall i | 0 <= i < |b|
      ensures IsSpace(b[i])
    {
      assert b[i] == s[k + i];
      LineBreakIsSpace(s[k + i]);
    }
    NonSpaceOfSpaces(b);
  }

  /** `extract_text_content` only moves whitespace about: the output has exactly the
      non-whitespace characters of the text, in the same order. */
  lemma ExtractKeepsWords(text: string)
    ensures NonSpace(ExtractText(text)) == NonSpace(text)
  {
    var lines := SplitLines(text);
    JoinKeepsWords(AllChunks(lines), '\n');
    AllChunksKeepWords(lines);
    SplitLinesKeepsWords(text);
  }
}
