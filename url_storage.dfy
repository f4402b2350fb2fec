/** `URLStorage` (company_url_collector/src/url_storage.py, and its identical copy in
    company_url_collector_v1/src/url_storage.py): one JSON file per company, named
    after the normalised company name, holding a list of url entries that only ever
    grows, deduplicated by their `url` value. The only field, `storage_dir`, is set
    once by the constructor, so it is a parameter here; the file itself is read and
    written by the callers of this module. */
module UrlStorage {
  import opened Wrappers
  import opened PyText
  import opened Json

  // ---------------------------------------------------------------- _get_storage_path

  /** What one character of the company name becomes in the file name. */
  function Canon(c: char): char {
    var l := LowerChar(c);
    if l == ' ' || l == '.' then '_' else l
  }

  /** `s.replace(a, b)` for single characters */
  function Replace(s: string, a: char, b: char): (r: string)
    ensures |r| == |s|
    ensures forall i :: 0 <= i < |s| ==> r[i] == (if s[i] == a then b else s[i])
  {
    seq(|s|, i requires 0 <= i < |s| => if s[i] == a then b else s[i])
  }

  /** `company_name.lower().replace(" ", "_").replace(".", "_")`: no space, no dot and
      no upper-case letter is left. */
  function NormalizedName(name: string): (r: string)
    ensures |r| == |name|
    ensures forall i :: 0 <= i < |name| ==> r[i] == Canon(name[i])
    ensures ' ' !in r && '.' !in r
    ensures forall i :: 0 <= i < |r| ==> !('A' <= r[i] <= 'Z')
  {
    Replace(Replace(Lower(name), ' ', '_'), '.', '_')
  }

  /** Two company names share a file name exactly when they have the same length and
      agree character by character up to case and up to space, dot and underscore. */
  lemma SameFileName(a: string, b: string)
    ensures NormalizedName(a) == NormalizedName(b) <==>
      |a| == |b| && forall i :: 0 <= i < |a| ==> Canon(a[i]) == Canon(b[i])
  {
    if |a| == |b| && forall i :: 0 <= i < |a| ==> Canon(a[i]) == Canon(b[i]) {
      assert forall i :: 0 <= i < |a| ==> NormalizedName(a)[i] == NormalizedName(b)[i];
    }
  }

  /** The file name ignores case. */
  lemma NameIgnoresCase(name: string)
    ensures NormalizedName(Lower(name)) == NormalizedName(name)
  {
    assert forall i :: 0 <= i < |name| ==> LowerChar(LowerChar(name[i])) == LowerChar(name[i]);
    SameFileName(Lower(name), name);
  }

  /** `os.path.join(a, b)` on POSIX for two components: an absolute `b` replaces `a`;
      otherwise a `/` is put between them unless `a` is empty or already ends with one. */
  function PathJoin(a: string, b: string): (r: string)
    ensures EndsWith(r, b)
  {
    if StartsWith(b, "/") then b
    else if a == [] || EndsWith(a, "/") then a + b
    else a + "/" + b
  }

  /** `_get_storage_path(company_name)` */
  function StoragePath(storageDir: string, companyName: string): (r: string)
    ensures EndsWith(r, "_urls.json")
  {
    var file := NormalizedName(companyName) + "_urls.json";
    assert EndsWith(file, "_urls.json") by {
      assert file[|file| - |"_urls.json"|..] == "_urls.json";
    }
    var path := PathJoin(storageDir, file);
    assert path[|path| - |"_urls.json"|..] == file[|file| - |"_urls.json"|..];
    path
  }

  /** The file name of a company never begins with `/` unless its name does. */
  lemma FileNameRelative(name: string)
    requires !StartsWith(name, "/")
    ensures !StartsWith(NormalizedName(name) + "_urls.json", "/")
  {
    var f := NormalizedName(name) + "_urls.json";
    if name != [] {
      assert name[..1] == [name[0]];
      assert f[0] == Canon(name[0]);
    } else {
      assert f[0] == '_';
    }
  }

  /** In one storage directory, two companies whose names do not begin with `/` share a
      path only when they share a file name. */
  lemma StoragePathInjective(storageDir: string, a: string, b: string)
    requires !StartsWith(a, "/") && !StartsWith(b, "/")
    requires StoragePath(storageDir, a) == StoragePath(storageDir, b)
    ensures NormalizedName(a) == NormalizedName(b)
  {
    var fa, fb := NormalizedName(a) + "_urls.json", NormalizedName(b) + "_urls.json";
    FileNameRelative(a);
    FileNameRelative(b);
    var prefix := if storageDir == [] || EndsWith(storageDir, "/") then storageDir else storageDir + "/";
    assert prefix + fa == prefix + fb;
    assert fa == (prefix + fa)[|prefix|..] && fb == (prefix + fb)[|prefix|..];
    assert NormalizedName(a) == fa[..|fa| - 10] && NormalizedName(b) == fb[..|fb| - 10];
  }

  // ---------------------------------------------------------------- get_stored_urls

  /** `get_stored_urls(company_name)` given the file: `None` when it does not exist,
      else its text, read with `json.load`. A missing or corrupt file reads as an empty
      list. */
  function StoredUrls(file: Option<string>, loads: Loader): (r: Json)
    ensures file.None? ==> r == JArr([])
    ensures file.Some? && loads(file.value).None? ==> r == JArr([])
    ensures file.Some? && loads(file.value).Some? ==> r == loads(file.value).value
  {
    match file
    case None => JArr([])
    case Some(text) =>
      match loads(text)
      case None => JArr([])
      case Some(j) => j
  }

  // ---------------------------------------------------------------- update_urls

  /** `entry["url"]` as a set element: KeyError when there is none, TypeError for a list
      or dict (unhashable); `True` and `False` are the numbers 1 and 0 to a set. */
  function Key(e: Entry): (r: Result<Json>)
    ensures r.Err? <==> "url" !in e || e["url"].JArr? || e["url"].JObj?
    ensures r.Ok? ==> !r.value.JBool? && (!e["url"].JBool? ==> r.value == e["url"])
  {
    if "url" !in e then Err(KeyError)
    else
      match e["url"]
      case JArr(_) => Err(TypeError)
      case JObj(_) => Err(TypeError)
      case JBool(b) => Ok(JNum(if b then 1.0 else 0.0))
      case v => Ok(v)
  }

  /** Every entry has a usable url key. */
  predicate Keyed(es: seq<Entry>) {
    forall i :: 0 <= i < |es| ==> Key(es[i]).Ok?
  }

  /** The url keys of entries that all have one. */
  function KeysOf(es: seq<Entry>): set<Json>
    requires Keyed(es)
  {
    set i | 0 <= i < |es| :: Key(es[i]).value
  }

  /** No two entries share a url key. */
  predicate DistinctKeys(es: seq<Entry>)
    requires Keyed(es)
  {
    forall i, j :: 0 <= i < j < |es| ==> Key(es[i]) != Key(es[j])
  }

  /** The keys of two lists put together are the keys of each. */
  lemma KeysOfConcat(a: seq<Entry>, b: seq<Entry>)
    ensures Keyed(a + b) <==> Keyed(a) && Keyed(b)
    ensures Keyed(a + b) ==> KeysOf(a + b) == KeysOf(a) + KeysOf(b)
  {
    var ab := a + b;
    assert forall i :: 0 <= i < |a| ==> ab[i] == a[i];
    assert forall i :: 0 <= i < |b| ==> ab[|a| + i] == b[i];
    if Keyed(ab) {
      forall x | x in KeysOf(ab)
        ensures x in KeysOf(a) + KeysOf(b)
      {
        var i :| 0 <= i < |ab| && Key(ab[i]).value == x;
        if i >= |a| { assert ab[i] == b[i - |a|]; }
      }
      forall x | x in KeysOf(a) + KeysOf(b)
        ensures x in KeysOf(ab)
      {
        if x in KeysOf(a) {
          var i :| 0 <= i < |a| && Key(a[i]).value == x;
          assert Key(ab[i]).value == x;
        } else {
          var i :| 0 <= i < |b| && Key(b[i]).value == x;
          assert Key(ab[|a| + i]).value == x;
        }
      }
    }
  }

  /** `{entry["url"] for entry in existing_urls}`: the first entry without a usable key
      raises. */
  function KeySet(es: seq<Entry>): (r: Result<set<Json>>)
    ensures r.Ok? <==> Keyed(es)
    ensures r.Ok? ==> r.value == KeysOf(es)
    decreases |es|
  {
    if es == [] then Ok({})
    else
      match Key(es[0])
      case Err(e) => Err(e)
      case Ok(k) =>
        var rest := KeySet(es[1..]);
        assert forall i :: 1 <= i < |es| ==> es[i] == es[1..][i - 1];
        if rest.Err? then rest
        else
          assert KeysOf(es) == {k} + KeysOf(es[1..]) by {
            forall x | x in KeysOf(es)
              ensures x in {k} + KeysOf(es[1..])
            {
              var i :| 0 <= i < |es| && Key(es[i]).value == x;
              if i > 0 { assert Key(es[1..][i - 1]).value == x; }
            }
            forall x | x in KeysOf(es[1..])
              ensures x in KeysOf(es)
            {
              var i :| 0 <= i < |es[1..]| && Key(es[1..][i]).value == x;
              assert Key(es[i + 1]).value == x;
            }
          }
          Ok({k} + rest.value)
  }

  /** The loop of lines 44-47 from the point where `existing_urls` is `acc` and
      `existing_url_set` is `seen`, with the entries `pending` still to go. */
  function MergeFrom(acc: seq<Entry>, seen: set<Json>, pending: seq<Entry>): (r: Result<seq<Entry>>)
    ensures r.Ok? <==> Keyed(pending)
    ensures r.Ok? ==> acc <= r.value
    decreases |pending|
  {
    if pending == [] then Ok(acc)
    else
      assert forall i :: 1 <= i < |pending| ==> pending[i] == pending[1..][i - 1];
      match Key(pending[0])
      case Err(e) => Err(e)
      case Ok(k) =>
        if k in seen then MergeFrom(acc, seen, pending[1..])
        else MergeFrom(acc + [pending[0]], seen + {k}, pending[1..])
  }

  /** What `update_urls(company_name, new_urls)` returns, given the stored list. */
  function Merged(stored: seq<Entry>, newUrls: seq<Entry>): Result<seq<Entry>> {
    match KeySet(stored)
    case Err(e) => Err(e)
    case Ok(ks) => MergeFrom(stored, ks, newUrls)
  }

  /** The entries of `newUrls` that get appended, defined from the back: the last one is
      appended exactly when its url is neither among `ks` (the stored urls) nor the url
      of an earlier new entry. */
  function Appended(newUrls: seq<Entry>, ks: set<Json>): seq<Entry>
    requires Keyed(newUrls)
    decreases |newUrls|
  {
    if newUrls == [] then []
    else
      var init := newUrls[..|newUrls| - 1];
      var last := newUrls[|newUrls| - 1];
      assert forall i :: 0 <= i < |init| ==> init[i] == newUrls[i];
      if Key(last).value in ks + KeysOf(init) then Appended(init, ks)
      else Appended(init, ks) + [last]
  }

  /** One more new entry is appended exactly when its url is new. */
  lemma AppendedStep(done: seq<Entry>, p: Entry, ks: set<Json>)
    requires Keyed(done + [p])
    ensures Keyed(done) && Key(p).Ok?
    ensures Appended(done + [p], ks) ==
      if Key(p).value in ks + KeysOf(done) then Appended(done, ks) else Appended(done, ks) + [p]
  {
    var d := done + [p];
    assert d[..|d| - 1] == done && d[|d| - 1] == p;
    assert forall i :: 0 <= i < |done| ==> done[i] == d[i];
  }

  /** The loop appends exactly the entries `Appended` names. */
  lemma {:induction false} MergeAppends(stored: seq<Entry>, ks: set<Json>, done: seq<Entry>, pending: seq<Entry>)
    requires Keyed(done + pending)
    ensures Keyed(done) && Keyed(pending)
    ensures MergeFrom(stored + Appended(done, ks), ks + KeysOf(done), pending) ==
      Ok(stored + Appended(done + pending, ks))
    decreases |pending|
  {
    KeysOfConcat(done, pending);
    if pending == [] {
      assert done + pending == done;
    } else {
      var p := pending[0];
      var done' := done + [p];
      assert done' + pending[1..] == done + pending;
      KeysOfConcat(done', pending[1..]);
      KeysOfConcat(done, [p]);
      assert Key([p][0]).value == Key(p).value;
      assert KeysOf([p]) == {Key(p).value};
      AppendedStep(done, p, ks);
      MergeAppends(stored, ks, done', pending[1..]);
      var acc, seen, k := stored + Appended(done, ks), ks + KeysOf(done), Key(p).value;
      var tail := MergeFrom(stored + Appended(done', ks), ks + KeysOf(done'), pending[1..]);
      assert ks + KeysOf(done') == seen + {k};
      if k in seen {
        assert MergeFrom(acc, seen, pending) == MergeFrom(acc, seen, pending[1..]);
        assert seen + {k} == seen;
        assert MergeFrom(acc, seen, pending) == tail;
      } else {
        assert MergeFrom(acc, seen, pending) == MergeFrom(acc + [p], seen + {k}, pending[1..]);
        assert acc + [p] == stored + Appended(done', ks);
        assert MergeFrom(acc, seen, pending) == tail;
      }
    }
  }

  /** `update_urls` raises exactly when an entry of either list has no usable url key,
      and otherwise returns the stored list followed by the appended new entries. */
  lemma MergedIsAppend(stored: seq<Entry>, newUrls: seq<Entry>)
    ensures Merged(stored, newUrls).Ok? <==> Keyed(stored) && Keyed(newUrls)
    ensures Merged(stored, newUrls).Ok? ==>
      Merged(stored, newUrls).value == stored + Appended(newUrls, KeysOf(stored))
  {
    if Keyed(stored) && Keyed(newUrls) {
      assert [] + newUrls == newUrls;
      assert Appended([], KeysOf(stored)) == [] && stored + [] == stored;
      assert KeysOf([]) == {};
      assert KeysOf(stored) + KeysOf([]) == KeysOf(stored);
      MergeAppends(stored, KeysOf(stored), [], newUrls);
    }
  }

  /** The appended entries have distinct urls, none of them among `ks`, and between
      them they carry every url of `newUrls` that is not among `ks`. */
  lemma {:induction false} AppendedKeys(newUrls: seq<Entry>, ks: set<Json>)
    requires Keyed(newUrls)
    ensures Keyed(Appended(newUrls, ks))
    ensures KeysOf(Appended(newUrls, ks)) == KeysOf(newUrls) - ks
    ensures DistinctKeys(Appended(newUrls, ks))
    decreases |newUrls|
  {
    if newUrls != [] {
      var init := newUrls[..|newUrls| - 1];
      var last := newUrls[|newUrls| - 1];
      assert init + [last] == newUrls;
      KeysOfConcat(init, [last]);
      assert KeysOf([last]) == {Key(last).value};
      AppendedKeys(init, ks);
      var prev := Appended(init, ks);
      if Key(last).value !in ks + KeysOf(init) {
        KeysOfConcat(prev, [last]);
        AppendedOneMore(prev, last);
      }
    }
  }

  /** An entry whose url is new to a list with distinct urls keeps them distinct. */
  lemma AppendedOneMore(prev: seq<Entry>, last: Entry)
    requires Keyed(prev) && DistinctKeys(prev) && Key(last).Ok? && Key(last).value !in KeysOf(prev)
    ensures Keyed(prev + [last]) && DistinctKeys(prev + [last])
  {
    var r := prev + [last];
    assert forall i :: 0 <= i < |prev| ==> r[i] == prev[i];
    forall i, j | 0 <= i < j < |r|
      ensures Key(r[i]) != Key(r[j])
    {
      if j == |prev| {
        assert Key(prev[i]).value in KeysOf(prev);
      }
    }
  }

  /** Appending the entries a second time appends nothing: every url they carry is
      already among `ks`. */
  lemma {:induction false} AppendedNothing(newUrls: seq<Entry>, ks: set<Json>)
    requires Keyed(newUrls) && KeysOf(newUrls) <= ks
    ensures Appended(newUrls, ks) == []
    decreases |newUrls|
  {
    if newUrls != [] {
      var init := newUrls[..|newUrls| - 1];
      assert Keyed(init) && KeysOf(init) <= KeysOf(newUrls) by {
        assert forall i :: 0 <= i < |init| ==> init[i] == newUrls[i];
      }
      AppendedNothing(init, ks);
      assert Key(newUrls[|newUrls| - 1]).value in KeysOf(newUrls);
    }
  }

  /** The result of `update_urls` starts with the stored list, holds the url of every
      new entry, and has no two entries with one url when the stored list had none. */
  lemma MergedProperties(stored: seq<Entry>, newUrls: seq<Entry>)
    requires Merged(stored, newUrls).Ok?
    ensures var r := Merged(stored, newUrls).value;
      && stored <= r
      && Keyed(r) && KeysOf(r) == KeysOf(stored) + KeysOf(newUrls)
      && (DistinctKeys(stored) ==> DistinctKeys(r))
  {
    MergedIsAppend(stored, newUrls);
    var ks := KeysOf(stored);
    var app := Appended(newUrls, ks);
    AppendedKeys(newUrls, ks);
    var r := stored + app;
    KeysOfConcat(stored, app);
    if DistinctKeys(stored) {
      forall i, j | 0 <= i < j < |r|
        ensures Key(r[i]) != Key(r[j])
      {
        if j < |stored| {
          assert r[i] == stored[i] && r[j] == stored[j];
        } else if i < |stored| {
          assert r[i] == stored[i] && Key(stored[i]).value in ks;
          assert r[j] == app[j - |stored|] && Key(app[j - |stored|]).value in KeysOf(app);
        } else {
          assert r[i] == app[i - |stored|] && r[j] == app[j - |stored|];
        }
      }
    }
  }

  /** Merging the same new entries into the result a second time changes nothing. */
  lemma MergeIdempotent(stored: seq<Entry>, newUrls: seq<Entry>)
    requires Merged(stored, newUrls).Ok?
    ensures Merged(Merged(stored, newUrls).value, newUrls) == Merged(stored, newUrls)
  {
    var r := Merged(stored, newUrls).value;
    MergedProperties(stored, newUrls);
    MergedIsAppend(stored, newUrls);
    MergedIsAppend(r, newUrls);
    AppendedNothing(newUrls, KeysOf(r));
    assert r + [] == r;
  }

  /** `update_urls(company_name, new_urls)` on the stored list; writing the result back
      is left to the caller. */
  method UpdateUrls(stored: seq<Entry>, newUrls: seq<Entry>) returns (r: Result<seq<Entry>>)
    ensures r == Merged(stored, newUrls)
  {
    var keys := KeySet(stored);
    if keys.Err? {
      return Err(keys.exc);
    }
    var existing := stored;
    var seen := keys.value;
    var i := 0;
    assert newUrls[i..] == newUrls;
    while i < |newUrls|
      invariant 0 <= i <= |newUrls|
      invariant Merged(stored, newUrls) == MergeFrom(existing, seen, newUrls[i..])
    {
      var entry := newUrls[i];
      assert newUrls[i..][0] == entry && newUrls[i..][1..] == newUrls[i + 1..];
      var key := Key(entry);
      if key.Err? {
        return Err(key.exc);
      }
      if key.value !in seen {
        existing := existing + [entry];
        seen := seen + {key.value};
      }
      i := i + 1;
    }
    assert newUrls[i..] == [];
    r := Ok(existing);
  }
}
