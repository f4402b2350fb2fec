/** The Python `str` operations the modelled code relies on, over `seq<char>`.
    Case mapping is ASCII-only; everything else follows CPython's definitions. */
module PyText {

  /** `s.startswith(p)` */
  predicate StartsWith(s: string, p: string) {
    |p| <= |s| && s[..|p|] == p
  }

  /** `s.endswith(p)` */
  predicate EndsWith(s: string, p: string) {
    |p| <= |s| && s[|s| - |p|..] == p
  }

  /** `p in s`, the substring test */
  predicate Contains(s: string, p: string)
    decreases |s|
  {
    StartsWith(s, p) || (s != [] && Contains(s[1..], p))
  }

  /** `p in s` holds exactly when `p` occurs at some position of `s`. */
  lemma {:induction false} ContainsAt(s: string, p: string, i: nat)
    requires i + |p| <= |s| && s[i..i + |p|] == p
    ensures Contains(s, p)
    decreases i
  {
    if i > 0 {
      assert s[1..][i - 1..i - 1 + |p|] == s[i..i + |p|];
      ContainsAt(s[1..], p, i - 1);
    }
  }

  /** A string containing `p` has an occurrence of `p` at some position. */
  lemma {:induction false} ContainsWitness(s: string, p: string) returns (i: nat)
    requires Contains(s, p)
    ensures i + |p| <= |s| && s[i..i + |p|] == p
    decreases |s|
  {
    if StartsWith(s, p) {
      i := 0;
    } else {
      var j := ContainsWitness(s[1..], p);
      assert s[1..][j..j + |p|] == s[j + 1..j + 1 + |p|];
      i := j + 1;
    }
  }

  /** A slice of a string that lacks `p` lacks `p` too. */
  lemma ContainsInSlice(s: string, lo: int, hi: int, p: string)
    requires 0 <= lo <= hi <= |s|
    requires Contains(s[lo..hi], p)
    ensures Contains(s, p)
  {
    var i := ContainsWitness(s[lo..hi], p);
    var t := s[lo..hi];
    forall k | 0 <= k < |p|
      ensures s[lo + i + k] == p[k]
    {
      assert t[i..i + |p|][k] == t[i + k] == s[lo + i + k];
    }
    assert s[lo + i..lo + i + |p|] == p;
    ContainsAt(s, p, lo + i);
  }

  /** A character absent from a string is absent from each of its slices. */
  lemma NotInSlice(s: string, lo: int, hi: int, c: char)
    requires 0 <= lo <= hi <= |s|
    requires c !in s
    ensures c !in s[lo..hi]
  {
    forall k | 0 <= k < hi - lo
      ensures s[lo..hi][k] != c
    {
      assert s[lo..hi][k] == s[lo + k];
    }
  }

  /** `s.find(c)` for one character: the first index of `c`, or -1. */
  function IndexOf(s: string, c: char): (k: int)
    ensures -1 <= k < |s|
    ensures k == -1 <==> c !in s
    ensures 0 <= k ==> s[k] == c
    ensures forall j :: 0 <= j < k ==> s[j] != c
  {
    if s == [] then -1
    else if s[0] == c then 0
    else
      var k := IndexOf(s[1..], c);
      assert forall j :: 0 < j < k + 1 ==> s[j] == s[1..][j - 1];
      if k < 0 then -1 else k + 1
  }

  /** The part of `s` before its first `c` holds no `c`. */
  lemma BeforeIndexOf(s: string, c: char)
    requires c in s
    ensures c !in s[..IndexOf(s, c)]
  {
    var k := IndexOf(s, c);
    forall j | 0 <= j < k
      ensures s[..k][j] != c
    {
      assert s[..k][j] == s[j];
    }
  }

  /** The first field of `s.split(c, 1)`: the text before the first `c`, or all of `s`. */
  function Before(s: string, c: char): (r: string)
    ensures |r| <= |s| && c !in r
    ensures forall i :: 0 <= i < |r| ==> r[i] == s[i]
    ensures forall x :: x in r ==> x in s
    ensures c in s ==> |r| < |s| && s[|r|] == c
    ensures c !in s ==> r == s
  {
    var k := IndexOf(s, c);
    if k < 0 then s else
      assert forall x :: x in s[..k] ==> x in s;
      s[..k]
  }

  /** The second field of `s.split(c, 1)`, or "" when `c` does not occur. */
  function After(s: string, c: char): (r: string)
    ensures c in s ==> r == s[|Before(s, c)| + 1..]
    ensures c !in s ==> r == []
    ensures forall x :: x in r ==> x in s
  {
    var k := IndexOf(s, c);
    if k < 0 then [] else
      assert forall x :: x in s[k + 1..] ==> x in s;
      s[k + 1..]
  }

  /** `s.rfind(c)` for one character: the last index of `c`, or -1. */
  function LastIndexOf(s: string, c: char): (k: int)
    ensures -1 <= k < |s|
    ensures k == -1 <==> c !in s
    ensures 0 <= k ==> s[k] == c
    ensures forall j :: k < j < |s| ==> s[j] != c
  {
    if s == [] then -1
    else if s[|s| - 1] == c then |s| - 1
    else
      var k := LastIndexOf(s[..|s| - 1], c);
      assert forall j :: k < j < |s| - 1 ==> s[j] == s[..|s| - 1][j];
      k
  }

  /** The conditions of `LastIndexOf` fix its value. */
  lemma LastIndexOfIs(s: string, c: char, k: int)
    requires -1 <= k < |s| && (k >= 0 ==> s[k] == c)
    requires forall j :: k < j < |s| ==> s[j] != c
    ensures LastIndexOf(s, c) == k
  {
  }

  /** ASCII upper case to lower case; every other character is left alone. */
  function LowerChar(c: char): char {
    if 'A' <= c <= 'Z' then (c as int - 'A' as int + 'a' as int) as char else c
  }

  /** `s.lower()`, restricted to ASCII case mapping */
  function Lower(s: string): (r: string)
    ensures |r| == |s|
    ensures forall i :: 0 <= i < |s| ==> r[i] == LowerChar(s[i])
  {
    seq(|s|, i requires 0 <= i < |s| => LowerChar(s[i]))
  }

  /** Lower-casing twice is lower-casing once. */
  lemma LowerIdempotent(s: string)
    ensures Lower(Lower(s)) == Lower(s)
  {
    assert forall i :: 0 <= i < |s| ==> LowerChar(LowerChar(s[i])) == LowerChar(s[i]);
  }

  /** `c.isspace()`: the characters CPython classifies as whitespace. */
  predicate IsSpace(c: char) {
    var n := c as int;
    || 0x09 <= n <= 0x0d || 0x1c <= n <= 0x20
    || n == 0x85 || n == 0xa0 || n == 0x1680
    || 0x2000 <= n <= 0x200a
    || n == 0x2028 || n == 0x2029 || n == 0x202f || n == 0x205f || n == 0x3000
  }

  /** The length of the run of whitespace `s` starts with. */
  function WsRun(s: string): (k: nat)
    ensures k <= |s|
    ensures forall i :: 0 <= i < k ==> IsSpace(s[i])
    ensures k < |s| ==> !IsSpace(s[k])
    decreases |s|
  {
    if s != [] && IsSpace(s[0]) then
      assert forall i :: 1 <= i < |s| ==> s[1..][i - 1] == s[i];
      1 + WsRun(s[1..])
    else 0
  }

  /** The length of the run of whitespace `s` ends with. */
  function WsTail(s: string): (k: nat)
    ensures k <= |s|
    ensures forall i :: |s| - k <= i < |s| ==> IsSpace(s[i])
    ensures k < |s| ==> !IsSpace(s[|s| - 1 - k])
    decreases |s|
  {
    if s != [] && IsSpace(s[|s| - 1]) then
      assert forall i :: 0 <= i < |s| - 1 ==> s[..|s| - 1][i] == s[i];
      1 + WsTail(s[..|s| - 1])
    else 0
  }

  /** `s.lstrip()` */
  function LStrip(s: string): (r: string)
    ensures |r| <= |s|
    ensures r != [] ==> !IsSpace(r[0])
    ensures forall i :: 0 <= i < |s| - |r| ==> IsSpace(s[i])
  {
    s[WsRun(s)..]
  }

  /** `s.rstrip()` */
  function RStrip(s: string): (r: string)
    ensures |r| <= |s|
    ensures r != [] ==> !IsSpace(r[|r| - 1])
    ensures forall i :: |r| <= i < |s| ==> IsSpace(s[i])
  {
    s[..|s| - WsTail(s)]
  }

  /** `s.strip()` */
  function Strip(s: string): (r: string)
    ensures |r| <= |s|
    ensures r != [] ==> !IsSpace(r[0]) && !IsSpace(r[|r| - 1])
  {
    RStrip(LStrip(s))
  }

  /** `s.strip()` is the slice of `s` between its leading and its trailing whitespace. */
  lemma StripSlice(s: string) returns (k: nat)
    ensures k + |Strip(s)| <= |s| && Strip(s) == s[k..k + |Strip(s)|]
    ensures forall i :: 0 <= i < k ==> IsSpace(s[i])
    ensures forall i :: k + |Strip(s)| <= i < |s| ==> IsSpace(s[i])
  {
    k := WsRun(s);
    var l := s[k..];
    var n := |l| - WsTail(l);
    assert Strip(s) == l[..n];
    assert l[..n] == s[k..k + n];
    forall i | k + n <= i < |s|
      ensures IsSpace(s[i])
    {
      assert s[i] == l[i - k];
    }
  }

  /** `s.strip()` is empty exactly when `s` is all whitespace. */
  lemma StripEmpty(s: string)
    ensures Strip(s) == [] <==> forall i :: 0 <= i < |s| ==> IsSpace(s[i])
  {
    var k := StripSlice(s);
    if Strip(s) != [] {
      assert s[k] == Strip(s)[0];
    }
  }

  /** `sep.join(parts)` for a one-character separator */
  function Join(parts: seq<string>, sep: char): string {
    if parts == [] then []
    else if |parts| == 1 then parts[0]
    else parts[0] + [sep] + Join(parts[1..], sep)
  }

  /** `s.split(sep)` for a one-character separator (no maximum split count) */
  function Split(s: string, sep: char): (parts: seq<string>)
    ensures |parts| >= 1
    ensures forall k :: 0 <= k < |parts| ==> sep !in parts[k]
    decreases |s|
  {
    var k := IndexOf(s, sep);
    if k < 0 then [s] else [s[..k]] + Split(s[k + 1..], sep)
  }

  /** Joining the parts of a split gives back the string. */
  lemma {:induction false} JoinSplit(s: string, sep: char)
    ensures Join(Split(s, sep), sep) == s
    decreases |s|
  {
    var k := IndexOf(s, sep);
    if k >= 0 {
      var rest := s[k + 1..];
      var tail := Split(rest, sep);
      assert Split(s, sep) == [s[..k]] + tail;
      assert Join(tail, sep) == rest by {
        JoinSplit(rest, sep);
      }
      assert Join([s[..k]] + tail, sep) == s[..k] + [sep] + rest by {
        JoinCons(s[..k], tail, sep);
      }
      CutAt(s, k);
    }
  }

  lemma CutAt(s: string, k: nat)
    requires k < |s|
    ensures s == s[..k] + [s[k]] + s[k + 1..]
  {
  }

  lemma JoinCons(head: string, tail: seq<string>, sep: char)
    requires tail != []
    ensures Join([head] + tail, sep) == head + [sep] + Join(tail, sep)
  {
    assert ([head] + tail)[1..] == tail;
  }

  /** Splitting a join of separator-free parts gives back the parts. */
  lemma {:induction false} SplitJoin(parts: seq<string>, sep: char)
    requires parts != []
    requires forall k :: 0 <= k < |parts| ==> sep !in parts[k]
    ensures Split(Join(parts, sep), sep) == parts
  {
    if |parts| > 1 {
      var s := Join(parts, sep);
      assert s[..|parts[0]|] == parts[0];
      assert s[|parts[0]|] == sep;
      assert IndexOf(s, sep) == |parts[0]|;
      assert s[|parts[0]| + 1..] == Join(parts[1..], sep);
      SplitJoin(parts[1..], sep);
    }
  }

  /** A character is absent from a join iff it is the separator of no part. */
  lemma {:induction false} NotInJoin(parts: seq<string>, sep: char, c: char)
    requires c != sep
    requires forall k :: 0 <= k < |parts| ==> c !in parts[k]
    ensures c !in Join(parts, sep)
  {
    if |parts| > 1 {
      NotInJoin(parts[1..], sep, c);
    }
  }

  /** The join of the last parts of a list is a suffix of the join of the whole list. */
  lemma {:induction false} JoinSuffix(parts: seq<string>, k: nat, sep: char)
    requires k < |parts|
    ensures EndsWith(Join(parts, sep), Join(parts[k..], sep))
    decreases k
  {
    if k > 0 {
      var tail := parts[1..];
      JoinSuffix(tail, k - 1, sep);
      assert tail[k - 1..] == parts[k..];
      JoinCons(parts[0], tail, sep);
      assert [parts[0]] + tail == parts;
      var a, b, c := parts[0] + [sep], Join(tail, sep), Join(parts[k..], sep);
      assert (a + b)[|a + b| - |c|..] == b[|b| - |c|..];
    }
  }

  /** `s[:n]` for a Python list or string: a negative `n` counts back from the end. */
  function SliceTo<T>(s: seq<T>, n: int): (r: seq<T>)
    ensures |r| <= |s|
    ensures forall i :: 0 <= i < |r| ==> r[i] == s[i]
    ensures 0 <= n ==> |r| == if n < |s| then n else |s|
    ensures n < 0 ==> |r| == if -n < |s| then |s| + n else 0
  {
    if 0 <= n then (if n < |s| then s[..n] else s)
    else if -n < |s| then s[..|s| + n] else []
  }

  /** Every element of a prefix is an element of the sequence. */
  lemma InPrefix<T>(s: seq<T>, r: seq<T>)
    requires |r| <= |s| && r == s[..|r|]
    ensures forall x :: x in r ==> x in s
  {
    forall x | x in r
      ensures x in s
    {
      var k :| 0 <= k < |r| && r[k] == x;
      assert s[k] == x;
    }
  }

  // ---------------------------------------------------------------- words

  /** The characters of `s` that are not whitespace, in order. */
  function NonSpace(s: string): string {
    if s == [] then []
    else (if IsSpace(s[0]) then [] else [s[0]]) + NonSpace(s[1..])
  }

  lemma {:induction false} NonSpaceConcat(a: string, b: string)
    ensures NonSpace(a + b) == NonSpace(a) + NonSpace(b)
    decreases |a|
  {
    if a != [] {
      assert (a + b)[0] == a[0];
      assert (a + b)[1..] == a[1..] + b;
      NonSpaceConcat(a[1..], b);
      var h: string := if IsSpace(a[0]) then [] else [a[0]];
      assert NonSpace(a) == h + NonSpace(a[1..]);
      assert NonSpace(a + b) == h + NonSpace(a[1..] + b);
    } else {
      assert a + b == b;
    }
  }

  lemma {:induction false} NonSpaceOfSpaces(s: string)
    requires forall i :: 0 <= i < |s| ==> IsSpace(s[i])
    ensures NonSpace(s) == []
    decreases |s|
  {
    if s != [] {
      NonSpaceOfSpaces(s[1..]);
    }
  }

  lemma NonSpaceCons(c: char, rest: string)
    ensures NonSpace([c] + rest) == (if IsSpace(c) then [] else [c]) + NonSpace(rest)
  {
    assert ([c] + rest)[1..] == rest;
  }

  /** Cutting whitespace off both ends keeps the words. */
  lemma TrimKeepsWords(c: string, k: nat, e: nat)
    requires k <= e <= |c|
    requires forall i :: 0 <= i < k ==> IsSpace(c[i])
    requires forall i :: e <= i < |c| ==> IsSpace(c[i])
    ensures NonSpace(c[k..e]) == NonSpace(c)
  {
    var words := NonSpace(c[k..e]);
    calc {
      NonSpace(c);
      { ThreeWay(c, k, e); }
      NonSpace(c[..k] + c[k..e] + c[e..]);
      { NonSpaceConcat(c[..k] + c[k..e], c[e..]); NonSpaceConcat(c[..k], c[k..e]); }
      NonSpace(c[..k]) + words + NonSpace(c[e..]);
      { NonSpaceOfSpacePrefix(c, k); NonSpaceOfSpaceSuffix(c, e); }
      [] + words + [];
      { EmptyEnds(words); }
      words;
    }
  }

  lemma NonSpaceOfSpacePrefix(s: string, hi: nat)
    requires hi <= |s|
    requires forall i :: 0 <= i < hi ==> IsSpace(s[i])
    ensures NonSpace(s[..hi]) == []
  {
    assert forall i :: 0 <= i < hi ==> s[..hi][i] == s[i];
    NonSpaceOfSpaces(s[..hi]);
  }

  lemma NonSpaceOfSpaceSuffix(s: string, lo: nat)
    requires lo <= |s|
    requires forall i :: lo <= i < |s| ==> IsSpace(s[i])
    ensures NonSpace(s[lo..]) == []
  {
    assert forall i :: 0 <= i < |s| - lo ==> s[lo..][i] == s[lo + i];
    NonSpaceOfSpaces(s[lo..]);
  }

  lemma EmptyEnds(s: string)
    ensures [] + s + [] == s
  {
  }

  lemma ThreeWay(s: string, lo: nat, hi: nat)
    requires lo <= hi <= |s|
    ensures s == s[..lo] + s[lo..hi] + s[hi..]
  {
  }

  /** `s.strip()` keeps every non-whitespace character of `s`. */
  lemma StripKeepsWords(s: string)
    ensures NonSpace(Strip(s)) == NonSpace(s)
  {
    var k := StripSlice(s);
    TrimKeepsWords(s, k, k + |Strip(s)|);
  }
}
