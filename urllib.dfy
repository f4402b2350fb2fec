/** Python's `urllib.parse.urlsplit` and `urlparse` (CPython 3.12): the generic URI
    syntax of section 3 of RFC 3986, split into scheme, netloc, path, query and
    fragment, plus the split of `;params` off the last path segment. */
module Urllib {
  import opened Wrappers
  import opened PyText

  /** `urljoin(base, href)`, left uninterpreted; `Err` stands for the `ValueError` it can raise. */
  type Joiner = (string, string) -> Result<string>

  /** The 6-tuple `urlparse` returns. */
  datatype ParsedUrl = ParsedUrl(
    scheme: string, netloc: string, path: string, params: string, query: string, fragment: string)

  /** The 5-tuple `urlsplit` returns. */
  datatype SplitUrl = SplitUrl(scheme: string, netloc: string, path: string, query: string, fragment: string)

  /** `_WHATWG_C0_CONTROL_OR_SPACE`: code points 0 to 32 */
  predicate IsC0OrSpace(c: char) {
    c as int <= 0x20
  }

  /** `_UNSAFE_URL_BYTES_TO_REMOVE`: tab, carriage return and line feed */
  predicate IsUnsafe(c: char) {
    c == '\t' || c == '\r' || c == '\n'
  }

  predicate IsAsciiLetter(c: char) {
    'a' <= c <= 'z' || 'A' <= c <= 'Z'
  }

  /** `scheme_chars`: ASCII letters, digits, `+`, `-` and `.` */
  predicate IsSchemeChar(c: char) {
    IsAsciiLetter(c) || '0' <= c <= '9' || c == '+' || c == '-' || c == '.'
  }

  predicate IsNetlocDelim(c: char) {
    c == '/' || c == '?' || c == '#'
  }

  /** `url.lstrip(_WHATWG_C0_CONTROL_OR_SPACE)` */
  function LStripC0(s: string): (r: string)
    ensures |r| <= |s|
    ensures r != [] ==> !IsC0OrSpace(r[0])
  {
    s[C0Run(s)..]
  }

  /** The length of the run of C0 controls and spaces `s` starts with. */
  function C0Run(s: string): (k: nat)
    ensures k <= |s|
    ensures k < |s| ==> !IsC0OrSpace(s[k])
    decreases |s|
  {
    if s != [] && IsC0OrSpace(s[0]) then 1 + C0Run(s[1..]) else 0
  }

  /** Removes every tab, carriage return and line feed. */
  function RemoveUnsafe(s: string): (r: string)
    ensures forall c :: c in r ==> c in s && !IsUnsafe(c)
  {
    if s == [] then []
    else if IsUnsafe(s[0]) then RemoveUnsafe(s[1..])
    else
      assert forall c :: c in s[1..] ==> c in s;
      [s[0]] + RemoveUnsafe(s[1..])
  }

  /** A string without unsafe characters is left unchanged. */
  lemma {:induction false} RemoveUnsafeNoop(s: string)
    requires forall c :: c in s ==> !IsUnsafe(c)
    ensures RemoveUnsafe(s) == s
  {
    if s != [] {
      assert s[0] in s;
      assert forall c :: c in s[1..] ==> c in s;
      RemoveUnsafeNoop(s[1..]);
    }
  }

  /** The position where the netloc that starts `t` ends: the first `/`, `?` or `#`,
      or the end of `t` (`_splitnetloc`). */
  function NetlocEnd(t: string): (d: nat)
    ensures d <= |t|
    ensures forall j :: 0 <= j < d ==> !IsNetlocDelim(t[j])
    ensures d < |t| ==> IsNetlocDelim(t[d])
  {
    if t == [] || IsNetlocDelim(t[0]) then 0 else 1 + NetlocEnd(t[1..])
  }

  /** The two conditions of `NetlocEnd` fix its value. */
  lemma NetlocEndUnique(t: string, d: nat)
    requires d <= |t|
    requires forall j :: 0 <= j < d ==> !IsNetlocDelim(t[j])
    requires d < |t| ==> IsNetlocDelim(t[d])
    ensures NetlocEnd(t) == d
  {
  }

  /** The length of the scheme prefix `urlsplit` recognises, or -1 when there is none:
      the text before the first `:`, non-empty, starting with an ASCII letter and made
      of scheme characters only. */
  function SchemeEnd(u: string): (i: int)
    ensures -1 <= i < |u|
    ensures i >= 0 ==> 0 < i && u[i] == ':' && ':' !in u[..i] && IsAsciiLetter(u[0])
    ensures i >= 0 ==> forall j :: 0 <= j < i ==> IsSchemeChar(u[j])
  {
    var i := IndexOf(u, ':');
    if i > 0 && IsAsciiLetter(u[0]) && forall j :: 0 <= j < i ==> IsSchemeChar(u[j]) then i else -1
  }

  /** The part after the netloc: `#fragment` is split off first, then `?query`. */
  function SplitTail(scheme: string, netloc: string, rest: string): (r: SplitUrl)
    ensures r.scheme == scheme && r.netloc == netloc
    ensures '#' !in r.path && '?' !in r.path && '#' !in r.query
    ensures forall c :: c in r.path ==> c in rest
    ensures forall c :: c in r.query ==> c in rest
    ensures (rest == [] || IsNetlocDelim(rest[0])) ==> r.path == [] || r.path[0] == '/'
  {
    var beforeHash := Before(rest, '#');
    SplitUrl(scheme, netloc, Before(beforeHash, '?'), After(beforeHash, '?'), After(rest, '#'))
  }

  /** The scheme `urlsplit` reports for `u`: the recognised prefix, lower-cased. */
  function SchemeOf(u: string): (s: string)
    ensures IsCanonicalScheme(s)
  {
    var i := SchemeEnd(u);
    if i < 0 then [] else
      var s := Lower(u[..i]);
      assert forall j :: 0 <= j < i ==> IsSchemeChar(s[j]) && !('A' <= s[j] <= 'Z') by {
        forall j | 0 <= j < i
          ensures IsSchemeChar(s[j]) && !('A' <= s[j] <= 'Z')
        {
          assert s[j] == LowerChar(u[j]);
        }
      }
      assert IsAsciiLetter(s[0]) by {
        assert s[0] == LowerChar(u[0]);
      }
      s
  }

  /** The split of what follows `//`: the netloc up to the first `/`, `?` or `#`, then
      the tail. Raises ValueError when the netloc holds one square bracket without the
      other. */
  function SplitAuthority(scheme: string, t: string): (r: Result<SplitUrl>)
    requires IsCanonicalScheme(scheme)
    requires forall c :: c in t ==> !IsUnsafe(c)
    ensures r.Ok? ==> r.value.scheme == scheme && SplitWellFormed(r.value)
  {
    var d := NetlocEnd(t);
    var netloc := t[..d];
    assert forall c :: c in t[..d] ==> c in t;
    assert forall c :: c in t[d..] ==> c in t;
    assert t[d..] == [] || t[d..][0] == t[d];
    if ('[' in netloc) != (']' in netloc) then Err(ValueError)
    else Ok(SplitTail(scheme, netloc, t[d..]))
  }

  /** The split of what follows the scheme: `//netloc` when present, then the tail. */
  function SplitRest(scheme: string, rest: string): (r: Result<SplitUrl>)
    requires IsCanonicalScheme(scheme)
    requires forall c :: c in rest ==> !IsUnsafe(c)
    ensures r.Ok? ==> r.value.scheme == scheme && SplitWellFormed(r.value)
  {
    if StartsWith(rest, "//") then
      assert forall c :: c in rest[2..] ==> c in rest;
      SplitAuthority(scheme, rest[2..])
    else Ok(SplitTail(scheme, [], rest))
  }

  /** What every successful `urlsplit` result satisfies. */
  predicate SplitWellFormed(sp: SplitUrl) {
    && IsCanonicalScheme(sp.scheme)
    && (forall c :: c in sp.netloc ==> !IsNetlocDelim(c) && !IsUnsafe(c))
    && (forall c :: c in sp.path ==> c != '?' && c != '#' && !IsUnsafe(c))
    && (forall c :: c in sp.query ==> c != '#' && !IsUnsafe(c))
    && ('[' in sp.netloc <==> ']' in sp.netloc)
    && (sp.netloc != [] ==> sp.path == [] || sp.path[0] == '/')
  }

  /** `urlsplit(url)`: leading C0 controls and spaces are stripped, tabs and line
      breaks removed, then the scheme, netloc, path, query and fragment split off. */
  function UrlSplit(url: string): (r: Result<SplitUrl>)
    ensures r.Ok? ==> SplitWellFormed(r.value)
  {
    var u := RemoveUnsafe(LStripC0(url));
    var i := SchemeEnd(u);
    var rest := if i >= 0 then u[i + 1..] else u;
    assert forall c :: c in rest ==> c in u by {
      if i >= 0 {
        assert forall c :: c in u[i + 1..] ==> c in u;
      }
    }
    SplitRest(SchemeOf(u), rest)
  }

  /** `uses_params`: the schemes for which `urlparse` splits off `;params` */
  predicate UsesParams(scheme: string) {
    scheme in ["", "ftp", "hdl", "prospero", "http", "imap", "https", "shttp", "rtsp",
               "rtsps", "rtspu", "sip", "sips", "mms", "sftp", "tel"]
  }

  /** The text after the last `/` of `path` (all of it when there is no `/`). */
  function LastSegment(path: string): string {
    path[LastIndexOf(path, '/') + 1..]
  }

  /** `_splitparams`: cut at the first `;` of the last segment, or at the first `;`
      when the path has no `/`. */
  function SplitParams(url: string): (r: (string, string))
    requires ';' in url
    ensures |r.0| <= |url| && r.0 == url[..|r.0|]
    ensures forall c :: c in r.0 ==> c in url
  {
    var slash := LastIndexOf(url, '/');
    var j := IndexOf(url[slash + 1..], ';');
    if j < 0 then
      (url, [])
    else
      var i := slash + 1 + j;
      InPrefix(url, url[..i]);
      (url[..i], url[i + 1..])
  }

  /** What `_splitparams` leaves of the path has no `;` in its last segment. */
  lemma ParamsCut(url: string)
    requires ';' in url
    ensures ';' !in LastSegment(SplitParams(url).0)
  {
    var slash := LastIndexOf(url, '/');
    var j := IndexOf(url[slash + 1..], ';');
    if j < 0 {
      assert SplitParams(url).0 == url;
      assert LastSegment(url) == url[slash + 1..];
    } else {
      assert SplitParams(url).0 == url[..slash + 1 + j];
      CutHasNoParams(url, slash, j);
    }
  }

  lemma CutHasNoParams(url: string, slash: int, j: int)
    requires slash == LastIndexOf(url, '/')
    requires 0 <= j && j == IndexOf(url[slash + 1..], ';')
    ensures ';' !in LastSegment(url[..slash + 1 + j])
  {
    var p := url[..slash + 1 + j];
    assert LastSegment(p) == p[slash + 1..] by {
      CutKeepsLastSlash(url, slash, j);
    }
    NotInCut(url, slash + 1, j, ';');
  }

  /** Cutting a string after its last `/` keeps that `/` as the last one. */
  lemma CutKeepsLastSlash(url: string, slash: int, j: nat)
    requires slash == LastIndexOf(url, '/') && slash + 1 + j <= |url|
    ensures LastIndexOf(url[..slash + 1 + j], '/') == slash
  {
    var p := url[..slash + 1 + j];
    forall i | slash < i < |p|
      ensures p[i] != '/'
    {
      assert p[i] == url[i];
    }
    assert slash >= 0 ==> p[slash] == '/';
    LastIndexOfIs(p, '/', slash);
  }

  /** A character absent from the first `n` characters after position `a` is absent
      from the part after `a` of the prefix that ends there. */
  lemma NotInCut(s: string, a: nat, n: nat, c: char)
    requires a + n <= |s| && c !in s[a..][..n]
    ensures c !in s[..a + n][a..]
  {
    assert s[..a + n][a..] == s[a..][..n];
  }

  /** `urlparse(url)`: `urlsplit`, then `;params` split off the path for the
      schemes that use them. */
  function UrlParse(url: string): (r: Result<ParsedUrl>)
    ensures r.Ok? ==> WellFormed(r.value)
  {
    match UrlSplit(url)
    case Err(e) => Err(e)
    case Ok(sp) =>
      if UsesParams(sp.scheme) && ';' in sp.path then
        var pp := SplitParams(sp.path);
        ParamsWellFormed(sp);
        Ok(ParsedUrl(sp.scheme, sp.netloc, pp.0, pp.1, sp.query, sp.fragment))
      else
        Ok(ParsedUrl(sp.scheme, sp.netloc, sp.path, [], sp.query, sp.fragment))
  }

  lemma ParamsWellFormed(sp: SplitUrl)
    requires SplitWellFormed(sp) && ';' in sp.path
    ensures var pp := SplitParams(sp.path);
      WellFormed(ParsedUrl(sp.scheme, sp.netloc, pp.0, pp.1, sp.query, sp.fragment))
  {
    var pp := SplitParams(sp.path);
    assert SplitWellFormed(SplitUrl(sp.scheme, sp.netloc, pp.0, sp.query, sp.fragment)) by {
      ParamsKeepFirst(sp.path);
      ShorterPathWellFormed(sp, pp.0);
    }
    ParamsCut(sp.path);
  }

  /** What `_splitparams` leaves of a path starts as the path does. */
  lemma ParamsKeepFirst(path: string)
    requires ';' in path
    ensures SplitParams(path).0 == [] || (path != [] && SplitParams(path).0[0] == path[0])
  {
    var r := SplitParams(path);
    if r.0 != [] {
      assert r.0[0] == path[0];
    }
  }

  /** A path made of characters of a well-formed path, and starting as it does, keeps
      the split well-formed. */
  lemma ShorterPathWellFormed(sp: SplitUrl, path: string)
    requires SplitWellFormed(sp)
    requires forall c :: c in path ==> c in sp.path
    requires path == [] || (sp.path != [] && path[0] == sp.path[0])
    ensures SplitWellFormed(SplitUrl(sp.scheme, sp.netloc, path, sp.query, sp.fragment))
  {
    if path != [] {
      assert path[0] in path;
    }
  }

  /** A scheme as `urlsplit` leaves it: empty, or a lower-case run of scheme
      characters starting with a letter. */
  predicate IsCanonicalScheme(s: string) {
    && (s != [] ==> IsAsciiLetter(s[0]))
    && forall j :: 0 <= j < |s| ==> IsSchemeChar(s[j]) && !('A' <= s[j] <= 'Z')
  }

  /** What every successful `urlparse` result satisfies. */
  predicate WellFormed(p: ParsedUrl) {
    && SplitWellFormed(SplitUrl(p.scheme, p.netloc, p.path, p.query, p.fragment))
    && (UsesParams(p.scheme) ==> ';' !in LastSegment(p.path))
  }

  /** `scheme + "://" + netloc + path`, then `"?" + query` when the query is non-empty:
      the form `normalize_url` rebuilds a parsed URL into. */
  function Recompose(p: ParsedUrl): string {
    p.scheme + "://" + (p.netloc + p.path + QueryPart(p.query))
  }

  /** The `"?" + query` suffix `normalize_url` appends, empty for an empty query. */
  function QueryPart(query: string): string {
    if query != [] then "?" + query else []
  }

  lemma LowerCanonical(s: string)
    requires IsCanonicalScheme(s)
    ensures Lower(s) == s
  {
  }

  /** `SplitParams` leaves a path alone once its last segment has no `;`. */
  lemma SplitParamsNoop(url: string)
    requires ';' in url && ';' !in LastSegment(url)
    ensures SplitParams(url) == (url, [])
  {
    var slash := LastIndexOf(url, '/');
    if slash >= 0 {
      assert url[slash..] == [url[slash]] + LastSegment(url);
      assert ';' !in url[slash..];
    }
  }

  /** The last segment of a path is the last segment of any suffix that starts at a `/`. */
  lemma LastSegmentOfSuffix(path: string, k: nat)
    requires k < |path| && path[k] == '/'
    ensures LastSegment(path[k..]) == LastSegment(path)
  {
    var a := LastIndexOf(path, '/');
    var b := LastIndexOf(path[k..], '/');
    assert path[k..][0] == '/';
    assert a >= k;
    assert path[k..][a - k] == '/';
    assert b == a - k;
    assert path[k..][b + 1..] == path[a + 1..];
  }

  /** A tail made of a `?`/`#`-free path and a query part splits back into the two. */
  lemma TailOfRecomposed(scheme: string, netloc: string, x: string, query: string)
    requires '?' !in x && '#' !in x && '#' !in query
    ensures SplitTail(scheme, netloc, x + QueryPart(query)) == SplitUrl(scheme, netloc, x, query, [])
  {
    var s := x + QueryPart(query);
    assert '#' !in s by {
      assert forall c :: c in s ==> c in x || c == '?' || c in query;
    }
    if query != [] {
      var b := Before(s, '?');
      assert s[|x|] == '?';
      assert '?' in s;
      assert |b| == |x|;
      assert s[|x| + 1..] == query;
    } else {
      assert s == x;
    }
  }

  /** `urlsplit` of `scheme:rest` with an `http`/`https` scheme and no unsafe
      characters reads the scheme back and goes on to split `rest`. */
  lemma SplitHttpRest(scheme: string, rest: string)
    requires scheme == "http" || scheme == "https"
    requires forall c :: c in rest ==> !IsUnsafe(c)
    ensures UrlSplit(scheme + ":" + rest) == SplitRest(scheme, rest)
  {
    var u := scheme + ":" + rest;
    assert forall c :: c in u ==> c in scheme || c == ':' || c in rest;
    assert LStripC0(u) == u by {
      assert u[0] == 'h';
    }
    RemoveUnsafeNoop(u);
    HttpSchemeOf(scheme, rest);
  }

  /** `http` and `https` are recognised as the scheme of any URL that starts with them
      followed by a colon. */
  lemma HttpSchemeOf(scheme: string, tail: string)
    requires scheme == "http" || scheme == "https"
    ensures var u := scheme + ":" + tail;
      SchemeEnd(u) == |scheme| && SchemeOf(u) == scheme && u[|scheme| + 1..] == tail
  {
    var u := scheme + ":" + tail;
    assert u[..|scheme|] == scheme;
    assert u[|scheme|] == ':';
    assert ':' !in u[..|scheme|];
    assert IndexOf(u, ':') == |scheme|;
    assert Lower(scheme) == scheme;
  }

  /** `urlsplit` of `scheme://t` goes straight to the part after `//`. */
  lemma SplitHttp(scheme: string, t: string)
    requires scheme == "http" || scheme == "https"
    requires forall c :: c in t ==> !IsUnsafe(c)
    ensures UrlSplit(scheme + "://" + t) == SplitAuthority(scheme, t)
  {
    var rest := "//" + t;
    assert scheme + "://" + t == scheme + ":" + rest;
    assert forall c :: c in rest ==> c == '/' || c in t;
    SplitHttpRest(scheme, rest);
    assert StartsWith(rest, "//") && rest[2..] == t;
  }

  /** After `//`, a netloc followed by an empty or `/`-led path is read back as it was. */
  lemma AuthorityKeepsNetloc(scheme: string, netloc: string, path: string, query: string)
    requires IsCanonicalScheme(scheme)
    requires forall c :: c in netloc ==> !IsNetlocDelim(c)
    requires '?' !in path && '#' !in path && '#' !in query
    requires ('[' in netloc <==> ']' in netloc)
    requires path == [] || path[0] == '/'
    requires forall c :: c in netloc + path + QueryPart(query) ==> !IsUnsafe(c)
    ensures SplitAuthority(scheme, netloc + path + QueryPart(query))
      == Ok(SplitUrl(scheme, netloc, path, query, []))
  {
    var t := netloc + path + QueryPart(query);
    assert NetlocEnd(t) == |netloc| by {
      assert t[..|netloc|] == netloc;
      assert forall j :: 0 <= j < |netloc| ==> t[j] in netloc;
      NetlocEndUnique(t, |netloc|);
    }
    assert t[..|netloc|] == netloc && t[|netloc|..] == path + QueryPart(query);
    assert SplitTail(scheme, netloc, t[|netloc|..]) == SplitUrl(scheme, netloc, path, query, []) by {
      TailOfRecomposed(scheme, netloc, path, query);
    }
  }

  /** After `//`, an empty netloc followed by a relative path: the path's first segment
      is read as the netloc, and the parse raises when it holds one bracket only. */
  lemma AuthorityMovesSegment(scheme: string, path: string, query: string) returns (pathEnd: nat)
    requires IsCanonicalScheme(scheme)
    requires '?' !in path && '#' !in path && '#' !in query
    requires forall c :: c in path + QueryPart(query) ==> !IsUnsafe(c)
    ensures pathEnd <= |path| && (pathEnd < |path| ==> path[pathEnd] == '/')
    ensures var host := path[..pathEnd];
      SplitAuthority(scheme, path + QueryPart(query)) ==
        if ('[' in host) != (']' in host) then Err(ValueError)
        else Ok(SplitUrl(scheme, host, path[pathEnd..], query, []))
  {
    var t := path + QueryPart(query);
    pathEnd := NetlocEnd(path);
    assert NetlocEnd(t) == pathEnd by {
      assert t[..pathEnd] == path[..pathEnd];
      assert pathEnd < |path| ==> path[pathEnd] in path;
      NetlocEndUnique(t, pathEnd);
    }
    var rest := path[pathEnd..];
    assert t[..pathEnd] == path[..pathEnd];
    assert t[pathEnd..] == rest + QueryPart(query);
    assert forall c :: c in rest ==> c in path;
    TailOfRecomposed(scheme, path[..pathEnd], rest, query);
  }

  /** A URL that starts with a letter and has no `:` has neither scheme nor netloc:
      all of it is read as a path. */
  lemma NoColonNoNetloc(url: string)
    requires url != [] && IsAsciiLetter(url[0]) && ':' !in url
    ensures UrlSplit(url).Ok? && UrlSplit(url).value.netloc == []
  {
    var u := RemoveUnsafe(url);
    assert LStripC0(url) == url;
    assert u != [] && u[0] == url[0] by {
      assert u == [url[0]] + RemoveUnsafe(url[1..]);
    }
    assert SchemeEnd(u) == -1 by {
      assert ':' !in u;
    }
    assert !StartsWith(u, "//");
  }

  /** `urlparse` keeps the netloc `urlsplit` found. */
  lemma ParseKeepsNetloc(url: string)
    requires UrlSplit(url).Ok?
    ensures UrlParse(url).Ok? && UrlParse(url).value.netloc == UrlSplit(url).value.netloc
  {
  }

  lemma EmptyConcat(a: string, b: string)
    requires a == []
    ensures a + b == b
  {
  }

  lemma SliceConcat(s: string, k: nat)
    requires k <= |s|
    ensures s[..k] + s[k..] == s
  {
  }
}
