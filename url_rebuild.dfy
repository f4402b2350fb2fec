/** Properties of the text `normalize_url` rebuilds from a parsed URL: what `urlparse`
    makes of it a second time. */
module UrlRebuild {
  import opened Wrappers
  import opened PyText
  import opened Urllib

  /** The parts of an `http`/`https` parse, one fact per condition of `WellFormed`. */
  predicate HttpParts(scheme: string, netloc: string, path: string, query: string) {
    && (scheme == "http" || scheme == "https")
    && (forall c :: c in netloc ==> !IsNetlocDelim(c) && !IsUnsafe(c))
    && (forall c :: c in path ==> c != '?' && c != '#' && !IsUnsafe(c))
    && (forall c :: c in query ==> c != '#' && !IsUnsafe(c))
    && ('[' in netloc <==> ']' in netloc)
    && ';' !in LastSegment(path)
  }

  lemma HttpPartsOf(p: ParsedUrl)
    requires WellFormed(p) && (p.scheme == "http" || p.scheme == "https")
    ensures HttpParts(p.scheme, p.netloc, p.path, p.query)
    ensures p.netloc != [] ==> p.path == [] || p.path[0] == '/'
  {
    assert UsesParams(p.scheme);
  }

  lemma HttpCanonical(scheme: string)
    requires scheme == "http" || scheme == "https"
    ensures IsCanonicalScheme(scheme)
  {
  }

  /** What follows `://` in a rebuilt URL holds no tab or line break. */
  lemma RebuiltTailSafe(netloc: string, path: string, query: string)
    requires forall c :: c in netloc ==> !IsUnsafe(c)
    requires forall c :: c in path ==> !IsUnsafe(c)
    requires forall c :: c in query ==> !IsUnsafe(c)
    ensures forall c :: c in netloc + path + QueryPart(query) ==> !IsUnsafe(c)
  {
    assert forall c :: c in QueryPart(query) ==> c == '?' || c in query;
  }

  /** `urlparse` after a split with no `;` in the last path segment adds no params. */
  lemma ParseOfSplit(url: string, sp: SplitUrl)
    requires UrlSplit(url) == Ok(sp)
    requires UsesParams(sp.scheme) ==> ';' !in LastSegment(sp.path)
    ensures UrlParse(url) == Ok(ParsedUrl(sp.scheme, sp.netloc, sp.path, [], sp.query, sp.fragment))
  {
    if UsesParams(sp.scheme) && ';' in sp.path {
      SplitParamsNoop(sp.path);
    }
  }

  lemma SplitKeepsParts(scheme: string, netloc: string, path: string, query: string)
    requires HttpParts(scheme, netloc, path, query)
    requires path == [] || path[0] == '/'
    ensures UrlSplit(Recompose(ParsedUrl(scheme, netloc, path, [], query, [])))
      == Ok(SplitUrl(scheme, netloc, path, query, []))
  {
    RebuiltTailSafe(netloc, path, query);
    HttpCanonical(scheme);
    SplitHttp(scheme, netloc + path + QueryPart(query));
    AuthorityKeepsNetloc(scheme, netloc, path, query);
  }

  /** A rebuilt URL whose path is empty or starts at `/` parses back into its own
      parts, with no params and no fragment. */
  lemma ReparseKeepsParts(scheme: string, netloc: string, path: string, query: string)
    requires HttpParts(scheme, netloc, path, query)
    requires path == [] || path[0] == '/'
    ensures UrlParse(Recompose(ParsedUrl(scheme, netloc, path, [], query, [])))
      == Ok(ParsedUrl(scheme, netloc, path, [], query, []))
  {
    SplitKeepsParts(scheme, netloc, path, query);
    ParseOfSplit(Recompose(ParsedUrl(scheme, netloc, path, [], query, [])), SplitUrl(scheme, netloc, path, query, []));
  }

  lemma SplitMovesSegment(scheme: string, path: string, query: string) returns (pathEnd: nat)
    requires HttpParts(scheme, [], path, query)
    ensures pathEnd <= |path| && (pathEnd < |path| ==> path[pathEnd] == '/')
    ensures var host := path[..pathEnd];
      UrlSplit(Recompose(ParsedUrl(scheme, [], path, [], query, []))) ==
        if ('[' in host) != (']' in host) then Err(ValueError)
        else Ok(SplitUrl(scheme, host, path[pathEnd..], query, []))
  {
    var t := path + QueryPart(query);
    EmptyConcat([], path);
    assert Recompose(ParsedUrl(scheme, [], path, [], query, [])) == scheme + "://" + t;
    RebuiltTailSafe([], path, query);
    HttpCanonical(scheme);
    SplitHttp(scheme, t);
    pathEnd := AuthorityMovesSegment(scheme, path, query);
  }

  lemma RebuildSplitPath(scheme: string, path: string, query: string, k: nat)
    requires k <= |path|
    ensures Recompose(ParsedUrl(scheme, path[..k], path[k..], [], query, []))
      == Recompose(ParsedUrl(scheme, [], path, [], query, []))
  {
    SliceConcat(path, k);
  }

  /** A rebuilt URL with an empty netloc and a relative path reads its first path
      segment as the netloc: the parse raises, or rebuilds to the same text. */
  lemma ReparseMovesSegment(scheme: string, path: string, query: string)
    requires HttpParts(scheme, [], path, query)
    ensures var u := Recompose(ParsedUrl(scheme, [], path, [], query, []));
      UrlParse(u) == Err(ValueError) || (UrlParse(u).Ok? && Recompose(UrlParse(u).value) == u)
  {
    var pathEnd := SplitMovesSegment(scheme, path, query);
    var host := path[..pathEnd];
    var rest := path[pathEnd..];
    if ('[' in host) == (']' in host) {
      if pathEnd < |path| {
        LastSegmentOfSuffix(path, pathEnd);
      }
      ParseOfSplit(Recompose(ParsedUrl(scheme, [], path, [], query, [])), SplitUrl(scheme, host, rest, query, []));
      RebuildSplitPath(scheme, path, query, pathEnd);
    }
  }

  /** Parsing a URL that `normalize_url` rebuilt from an `http`/`https` parse rebuilds it
      to the same text. The parse can only fail when the netloc was empty and the path
      did not start with `/` (its first segment then reads as a netloc, which may hold
      one bracket only); in every other case the parse gives back the parts themselves,
      with no params and no fragment. */
  lemma ReparseRecomposed(p: ParsedUrl)
    requires WellFormed(p) && (p.scheme == "http" || p.scheme == "https")
    ensures UrlParse(Recompose(p)) == Err(ValueError) ||
      (UrlParse(Recompose(p)).Ok? && Recompose(UrlParse(Recompose(p)).value) == Recompose(p))
    ensures p.netloc != [] || p.path == [] || p.path[0] == '/' ==>
      UrlParse(Recompose(p)) == Ok(ParsedUrl(p.scheme, p.netloc, p.path, [], p.query, []))
  {
    HttpPartsOf(p);
    assert Recompose(p) == Recompose(ParsedUrl(p.scheme, p.netloc, p.path, [], p.query, []));
    if p.netloc != [] || p.path == [] || p.path[0] == '/' {
      ReparseKeepsParts(p.scheme, p.netloc, p.path, p.query);
    } else {
      ReparseMovesSegment(p.scheme, p.path, p.query);
    }
  }

  /** A recognised scheme followed by a colon is read as the scheme of the URL. */
  lemma SchemeOfCanonical(scheme: string, tail: string)
    requires scheme != [] && IsCanonicalScheme(scheme)
    ensures var u := scheme + ":" + tail;
      SchemeEnd(u) == |scheme| && SchemeOf(u) == scheme && u[|scheme| + 1..] == tail
  {
    var u := scheme + ":" + tail;
    assert u[..|scheme|] == scheme;
    assert u[|scheme|] == ':';
    assert ':' !in u[..|scheme|];
    assert IndexOf(u, ':') == |scheme|;
    LowerCanonical(scheme);
  }

  /** `a + b + t` has no tab or line break when none of its three parts has one. */
  lemma SafeJoin(a: string, b: string, t: string)
    requires forall c :: c in a ==> !IsUnsafe(c)
    requires forall c :: c in b ==> !IsUnsafe(c)
    requires forall c :: c in t ==> !IsUnsafe(c)
    ensures forall c :: c in a + b + t ==> !IsUnsafe(c)
  {
  }

  /** `urlsplit` of `scheme://t`, for a recognised scheme and no tab or line break in
      `t`, goes straight to the part after `//`. */
  lemma SplitSchemeAuthority(scheme: string, t: string)
    requires scheme != [] && IsCanonicalScheme(scheme)
    requires forall c :: c in t ==> !IsUnsafe(c)
    ensures UrlSplit(scheme + "://" + t) == SplitAuthority(scheme, t)
  {
    var rest := "//" + t;
    var u := scheme + ":" + rest;
    assert scheme + "://" + t == u;
    assert LStripC0(u) == u by {
      assert u[0] == scheme[0];
    }
    assert RemoveUnsafe(u) == u by {
      SafeJoin(scheme, ":" + "//", t);
      RemoveUnsafeNoop(u);
    }
    SchemeOfCanonical(scheme, rest);
    assert StartsWith(rest, "//") && rest[2..] == t;
  }

  /** `scheme://host` parses into exactly that scheme and host, for any scheme `urlparse`
      recognises and a host without a delimiter, line break or bracket. */
  lemma ParseSchemeHost(scheme: string, host: string)
    requires scheme != [] && IsCanonicalScheme(scheme)
    requires forall c :: c in host ==> !IsNetlocDelim(c) && !IsUnsafe(c) && c != '[' && c != ']'
    ensures UrlParse(scheme + "://" + host) == Ok(ParsedUrl(scheme, host, [], [], [], []))
  {
    SplitSchemeAuthority(scheme, host);
    assert host + [] + QueryPart([]) == host;
    AuthorityKeepsNetloc(scheme, host, [], []);
    assert LastSegment([]) == [];
    ParseOfSplit(scheme + "://" + host, SplitUrl(scheme, host, [], [], []));
  }
}
