/** The source-flattening helpers of Extract_Project_Code.py: the comment stripper for
    Python files, the code-cell concatenation for notebooks, and the exclusion test for
    paths. The files themselves are read by the callers; here the content, the parsed
    notebook and the `isfile` answer are inputs. */
module ProjectCode {
  import opened Wrappers
  import opened PyText
  import opened Json

  // ---------------------------------------------------------------- triple-quoted blocks

  const TripleDouble: string := "\"\"\""
  const TripleSingle: string := "'''"

  /** Whether `p` occurs in `s` at position `m`. */
  predicate OccursAt(s: string, p: string, m: int) {
    0 <= m && m + |p| <= |s| && s[m..m + |p|] == p
  }

  /** `s.find(p)`: the first position at which `p` occurs, or -1. */
  function Find(s: string, p: string): (k: int)
    ensures k == -1 || OccursAt(s, p, k)
    ensures forall m :: (k == -1 || m < k) ==> !OccursAt(s, p, m)
    decreases |s|
  {
    if |s| < |p| then -1
    else if s[..|p|] == p then 0
    else
      var k := Find(s[1..], p);
      OccursShift(s, p);
      if k == -1 then -1 else k + 1
  }

  /** An occurrence past the first character is one in the tail, and back. */
  lemma OccursShift(s: string, p: string)
    requires s != []
    ensures forall m :: m != 0 ==> (OccursAt(s, p, m) <==> OccursAt(s[1..], p, m - 1))
  {
    forall m | m != 0
      ensures OccursAt(s, p, m) <==> OccursAt(s[1..], p, m - 1)
    {
      if 0 < m && m + |p| <= |s| {
        assert s[1..][m - 1..m - 1 + |p|] == s[m..m + |p|];
      }
    }
  }

  /** `re.sub(q + r"[\s\S]*?" + q, "", s)`: from the left, each opening `q` and the
      nearest `q` after it are cut out with everything between. Once an opening `q` has
      no partner no later one has either, so the rest stays as it is. */
  function RemoveBlocks(s: string, q: string): (r: string)
    requires q != []
    ensures |r| <= |s|
    decreases |s|
  {
    var i := Find(s, q);
    if i == -1 then s
    else
      var rest := s[i + |q|..];
      var j := Find(rest, q);
      if j == -1 then s
      else s[..i] + RemoveBlocks(s[i + |q| + j + |q|..], q)
  }

  /** `q` occurs in `a + q + rest` first right after `a` when `a` has no character
      `q` starts with. */
  lemma FindAfter(a: string, q: string, rest: string)
    requires q != [] && q[0] !in a
    ensures Find(a + q + rest, q) == |a|
  {
    var s := a + q + rest;
    assert s[|a|..|a| + |q|] == q;
    assert OccursAt(s, q, |a|);
    forall m | 0 <= m < |a|
      ensures !OccursAt(s, q, m)
    {
      assert s[m] == a[m];
    }
  }

  /** A block whose text has no delimiter character is cut out with both delimiters. */
  lemma BlockCut(a: string, b: string, c: string, q: string)
    requires q != [] && q[0] !in a && q[0] !in b
    ensures RemoveBlocks(a + q + b + q + c, q) == a + RemoveBlocks(c, q)
  {
    var t := b + q + c;
    var s := a + q + t;
    assert s == a + q + b + q + c;
    assert s[|a| + |q|..] == t && s[..|a|] == a && s[|a| + |q| + |b| + |q|..] == c;
    assert Find(s, q) == |a| by {
      FindAfter(a, q, t);
    }
    assert Find(t, q) == |b| by {
      FindAfter(b, q, c);
    }
  }

  /** An opening delimiter without a partner leaves the text as it is. */
  lemma UnclosedKept(a: string, b: string, q: string)
    requires q != [] && q[0] !in a && q[0] !in b
    ensures RemoveBlocks(a + q + b, q) == a + q + b
  {
    var s := a + q + b;
    FindAfter(a, q, b);
    var rest := s[|a| + |q|..];
    assert rest == b;
    forall m | 0 <= m
      ensures !OccursAt(rest, q, m)
    {
      if m < |rest| {
        assert rest[m] == b[m];
      }
    }
  }

  // ---------------------------------------------------------------- strip_comments_from_python

  /** `in_single_quote`, `in_double_quote` and `escaped` */
  datatype Flags = Flags(single: bool, double: bool, escaped: bool)

  /** The flags as lines 70-72 set them, once for the whole file. */
  const Clean: Flags := Flags(false, false, false)

  /** Lines 87-90: an unescaped quote toggles its flag unless the other kind of string
      is open. */
  function Toggle(c: char, f: Flags): (g: Flags)
    ensures g.escaped == f.escaped
    ensures c != '"' && c != '\'' ==> g == f
    ensures f.escaped ==> g == f
  {
    if c == '"' && !f.escaped && !f.single then f.(double := !f.double)
    else if c == '\'' && !f.escaped && !f.double then f.(single := !f.single)
    else f
  }

  /** Lines 93-94: the scan of a line stops at a `#` outside both kinds of string. */
  predicate Breaks(c: char, f: Flags) {
    c == '#' && !f.single && !f.double
  }

  /** The flags after one copied character: an unescaped backslash sets `escaped`
      (lines 80-84); any other character goes through the toggle and clears it
      (lines 87-97). */
  function Step(c: char, f: Flags): (g: Flags)
    ensures g.escaped <==> c == '\\' && !f.escaped
  {
    if c == '\\' && !f.escaped then f.(escaped := true) else Toggle(c, f).(escaped := false)
  }

  /** The flags after copying all of `s` from `f` on. */
  function FlagsAfter(s: string, f: Flags): Flags
    decreases |s|
  {
    if s == [] then f else FlagsAfter(s[1..], Step(s[0], f))
  }

  /** The scan of one line (lines 75-98): the processed line and the flags it leaves.
      Each character is either the `#` that ends the scan or is copied and moves the
      flags on by `Step`; an unescaped backslash is never a `#`, and the toggle never
      changes the flags on a `#`, so this is the order of the tests in the loop. */
  function ScanLine(line: string, f: Flags): (string, Flags)
    decreases |line|
  {
    if line == [] || Breaks(line[0], f) then ([], f)
    else
      var rest := ScanLine(line[1..], Step(line[0], f));
      ([line[0]] + rest.0, rest.1)
  }

  /** One step of the scan at position `i`. */
  lemma ScanUnfold(line: string, i: int, f: Flags)
    requires 0 <= i < |line|
    ensures Breaks(line[i], f) ==> ScanLine(line[i..], f) == ([], f)
    ensures !Breaks(line[i], f) ==>
      && ScanLine(line[i..], f).0 == [line[i]] + ScanLine(line[i + 1..], Step(line[i], f)).0
      && ScanLine(line[i..], f).1 == ScanLine(line[i + 1..], Step(line[i], f)).1
  {
    assert line[i..][0] == line[i] && line[i..][1..] == line[i + 1..];
  }

  /** The processed line is a prefix of the line, cut, if at all, at a `#`. */
  lemma {:induction false} ScanPrefix(line: string, f: Flags)
    ensures var k := |ScanLine(line, f).0|;
      k <= |line| && ScanLine(line, f).0 == line[..k] && (k < |line| ==> line[k] == '#')
    decreases |line|
  {
    if line != [] && !Breaks(line[0], f) {
      ScanPrefix(line[1..], Step(line[0], f));
    }
  }

  /** The scan keeps the longest prefix of the line before the first `#` met outside a
      string, and leaves the flags reached at that point. */
  lemma {:induction false} ScanCutsAtFirstHash(line: string, f: Flags)
    ensures var k := |ScanLine(line, f).0|;
      && k <= |line|
      && (forall n :: 0 <= n < k ==> !Breaks(line[n], FlagsAfter(line[..n], f)))
      && (k < |line| ==> Breaks(line[k], FlagsAfter(line[..k], f)))
      && ScanLine(line, f).1 == FlagsAfter(line[..k], f)
    decreases |line|
  {
    if line != [] {
      var c := line[0];
      var g := Step(c, f);
      ScanCutsAtFirstHash(line[1..], g);
      ScanPrefix(line, f);
      var k := |ScanLine(line, f).0|;
      assert line[..0] == [];
      if !Breaks(c, f) {
        assert ScanLine(line, f).0 == [c] + ScanLine(line[1..], g).0;
        forall n | 1 <= n <= k && n <= |line|
          ensures FlagsAfter(line[..n], f) == FlagsAfter(line[1..][..n - 1], g)
        {
          assert line[..n][0] == c && line[..n][1..] == line[1..][..n - 1];
        }
      }
    }
  }

  /** A quote right after an unescaped backslash leaves the string state alone. */
  lemma EscapedQuote(f: Flags)
    requires !f.escaped
    ensures FlagsAfter("\\\"", f) == f && FlagsAfter("\\'", f) == f
  {
    assert "\\\""[1..] == "\"" && "\\'"[1..] == "'";
  }

  /** The processed lines of the file that are not blank, the flags running on from each
      line into the next (lines 74-102). */
  function KeptLines(lines: seq<string>, f: Flags): seq<string>
    decreases |lines|
  {
    if lines == [] then []
    else
      var r := ScanLine(lines[0], f);
      (if Strip(r.0) != [] then [r.0] else []) + KeptLines(lines[1..], r.1)
  }

  /** `x` is not blank and is a prefix of one of the lines. */
  predicate NonBlankPrefix(x: string, lines: seq<string>) {
    Strip(x) != [] && exists i :: 0 <= i < |lines| && x <= lines[i]
  }

  /** Every kept line is non-blank and is a prefix of an input line. */
  lemma {:induction false} KeptAreNonBlankPrefixes(lines: seq<string>, f: Flags)
    ensures |KeptLines(lines, f)| <= |lines|
    ensures forall x :: x in KeptLines(lines, f) ==> NonBlankPrefix(x, lines)
    decreases |lines|
  {
    if lines != [] {
      var r := ScanLine(lines[0], f);
      ScanPrefix(lines[0], f);
      KeptAreNonBlankPrefixes(lines[1..], r.1);
      var head: seq<string> := if Strip(r.0) != [] then [r.0] else [];
      var tail := KeptLines(lines[1..], r.1);
      assert KeptLines(lines, f) == head + tail;
      forall x | x in head + tail
        ensures NonBlankPrefix(x, lines)
      {
        if x in head {
          assert x == r.0 && r.0 <= lines[0];
        } else {
          assert NonBlankPrefix(x, lines[1..]);
          var i :| 0 <= i < |lines[1..]| && x <= lines[1..][i];
          assert lines[1..][i] == lines[i + 1];
        }
      }
    }
  }

  /** The scan of a line that starts with `c`. */
  lemma ScanCons(c: char, rest: string, f: Flags)
    ensures Breaks(c, f) ==> ScanLine([c] + rest, f) == ([], f)
    ensures !Breaks(c, f) ==>
      ScanLine([c] + rest, f) == ([c] + ScanLine(rest, Step(c, f)).0, ScanLine(rest, Step(c, f)).1)
  {
    assert ([c] + rest)[0] == c && ([c] + rest)[1..] == rest;
  }

  /** An illustration on concrete lines, not a general property: an unterminated string
      runs on into the next line, where the `#` is kept and the closing quote ends the
      string. */
  lemma StringRunsOn()
    ensures ScanLine("'a", Clean) == ("'a", Flags(true, false, false))
    ensures ScanLine("#'", Flags(true, false, false)) == ("#'", Clean)
  {
    var open := Flags(true, false, false);
    ScanCons('a', [], open);
    assert ['a'] + [] == "a";
    ScanCons('\'', "a", Clean);
    assert ['\''] + "a" == "'a";
    ScanCons('\'', [], open);
    assert ['\''] + [] == "'";
    ScanCons('#', "'", open);
    assert ['#'] + "'" == "#'";
  }

  /** An illustration on a concrete line, not a general property: a `#` inside a string
      literal is kept, and the next one ends the line. */
  lemma HashInString()
    ensures ScanLine("'#'#", Clean).0 == "'#'"
  {
    var open := Flags(true, false, false);
    ScanCons('#', [], Clean);
    assert ['#'] + [] == "#";
    ScanCons('\'', "#", open);
    assert ['\''] + "#" == "'#";
    ScanCons('#', "'#", open);
    assert ['#'] + "'#" == "#'#";
    ScanCons('\'', "#'#", Clean);
    assert ['\''] + "#'#" == "'#'#";
    assert ['\''] + (['#'] + (['\''] + [])) == "'#'";
  }

  /** One step of `KeptLines` at line `n`. */
  lemma KeptUnfold(lines: seq<string>, n: int, f: Flags)
    requires 0 <= n < |lines|
    ensures var r := ScanLine(lines[n], f);
      KeptLines(lines[n..], f) == (if Strip(r.0) != [] then [r.0] else []) + KeptLines(lines[n + 1..], r.1)
  {
    assert lines[n..][0] == lines[n] && lines[n..][1..] == lines[n + 1..];
  }

  /** One turn of the loop of lines 74-102: the kept lines so far followed by what the
      remaining lines keep. */
  lemma KeptStep(lines: seq<string>, n: int, f: Flags, processed: seq<string>)
    requires 0 <= n < |lines|
    ensures var r := ScanLine(lines[n], f);
      processed + KeptLines(lines[n..], f)
        == (if Strip(r.0) != [] then processed + [r.0] else processed) + KeptLines(lines[n + 1..], r.1)
  {
    KeptUnfold(lines, n, f);
  }

  /** The text of the file after lines 62-105, given its content. */
  function Stripped(content: string): string {
    var text := RemoveBlocks(RemoveBlocks(content, TripleDouble), TripleSingle);
    Join(KeptLines(Split(text, '\n'), Clean), '\n')
  }

  /** `s` has a line break at `i`. */
  predicate BreakAt(s: string, i: int) {
    0 <= i < |s| && s[i] == '\n'
  }

  /** Some character strictly between positions `i` and `j` of `s` is not whitespace. */
  predicate TextBetween(s: string, i: int, j: int) {
    exists m :: i < m < j && 0 <= m < |s| && !IsSpace(s[m])
  }

  /** Between any two line breaks of `s` there is a character that is not whitespace. */
  predicate NoBlankLine(s: string) {
    forall i, j :: 0 <= i < j < |s| && BreakAt(s, i) && BreakAt(s, j) ==> TextBetween(s, i, j)
  }

  /** The first part starts the joined text. */
  lemma {:induction false} JoinStartsWithHead(parts: seq<string>, sep: char)
    requires parts != []
    ensures parts[0] <= Join(parts, sep)
  {
  }

  /** Joining lines that are neither blank nor broken gives a text without a blank
      line. */
  lemma {:induction false} NoBlankLineBetweenBreaks(parts: seq<string>)
    requires forall x :: x in parts ==> '\n' !in x && Strip(x) != []
    ensures NoBlankLine(Join(parts, '\n'))
    decreases |parts|
  {
    if |parts| > 1 {
      var s := Join(parts, '\n');
      var p := parts[0];
      var rest := Join(parts[1..], '\n');
      assert s == p + "\n" + rest;
      assert forall x :: x in parts[1..] ==> x in parts;
      NoBlankLineBetweenBreaks(parts[1..]);
      var q := parts[1];
      assert p in parts && q in parts;
      JoinStartsWithHead(parts[1..], '\n');
      assert q <= rest;
      StripEmpty(q);
      var w :| 0 <= w < |q| && !IsSpace(q[w]);
      forall i, j | i < j && BreakAt(s, i) && BreakAt(s, j)
        ensures TextBetween(s, i, j)
      {
        BreakPair(p, q, rest, w, i, j);
      }
    } else if parts != [] {
      var p := parts[0];
      assert p in parts;
      assert Join(parts, '\n') == p;
    }
  }

  /** The step of the lemma above for one pair of line breaks. */
  lemma BreakPair(p: string, q: string, rest: string, w: int, i: int, j: int)
    requires '\n' !in p && '\n' !in q && q <= rest && 0 <= w < |q| && !IsSpace(q[w])
    requires NoBlankLine(rest)
    requires var s := p + "\n" + rest; i < j && BreakAt(s, i) && BreakAt(s, j)
    ensures TextBetween(p + "\n" + rest, i, j)
  {
    var s := p + "\n" + rest;
    if i < |p| {
      assert false;
    } else if i == |p| {
      if j - |p| - 1 < |q| {
        assert false;
      }
      assert s[|p| + 1 + w] == rest[w] == q[w];
    } else {
      assert rest[i - |p| - 1] == s[i] && rest[j - |p| - 1] == s[j];
      assert BreakAt(rest, i - |p| - 1) && BreakAt(rest, j - |p| - 1);
      var m :| i - |p| - 1 < m < j - |p| - 1 && 0 <= m < |rest| && !IsSpace(rest[m]);
      assert s[m + |p| + 1] == rest[m];
    }
  }

  /** The kept lines carry no line break of their own. */
  lemma {:induction false} KeptHaveNoBreak(lines: seq<string>, f: Flags)
    requires forall k :: 0 <= k < |lines| ==> '\n' !in lines[k]
    ensures forall x :: x in KeptLines(lines, f) ==> '\n' !in x
    decreases |lines|
  {
    if lines != [] {
      var r := ScanLine(lines[0], f);
      ScanPrefix(lines[0], f);
      KeptHaveNoBreak(lines[1..], r.1);
      assert forall x :: x in r.0 ==> x in lines[0];
      assert KeptLines(lines, f) == (if Strip(r.0) != [] then [r.0] else []) + KeptLines(lines[1..], r.1);
    }
  }

  /** The result of `strip_comments_from_python` has no line that is blank: between any
      two of its line breaks there is a character that is not whitespace. So the
      clean-up of lines 106-108, which needs nothing but whitespace between two breaks,
      never matches, and the text stands as lines 74-105 leave it. */
  lemma StrippedHasNoBlankLine(content: string)
    ensures NoBlankLine(Stripped(content))
  {
    var text := RemoveBlocks(RemoveBlocks(content, TripleDouble), TripleSingle);
    var lines := Split(text, '\n');
    KeptHaveNoBreak(lines, Clean);
    KeptAreNonBlankPrefixes(lines, Clean);
    NoBlankLineBetweenBreaks(KeptLines(lines, Clean));
  }

  /** The inner loop of lines 75-98 over one line, from the flags the previous line
      left: the processed line and the new flags. */
  method ProcessLine(line: string, single: bool, double: bool, esc: bool)
    returns (out: string, inSingle: bool, inDouble: bool, escaped: bool)
    ensures (out, Flags(inSingle, inDouble, escaped)) == ScanLine(line, Flags(single, double, esc))
  {
    ghost var start := Flags(single, double, esc);
    inSingle, inDouble, escaped := single, double, esc;
    out := [];
    var i := 0;
    assert line[i..] == line;
    while i < |line|
      invariant 0 <= i <= |line|
      invariant ScanLine(line, start).0 == out + ScanLine(line[i..], Flags(inSingle, inDouble, escaped)).0
      invariant ScanLine(line, start).1 == ScanLine(line[i..], Flags(inSingle, inDouble, escaped)).1
    {
      var c := line[i];
      ghost var before := Flags(inSingle, inDouble, escaped);
      ScanUnfold(line, i, before);
      ghost var tail := ScanLine(line[i + 1..], Step(c, before)).0;
      if c == '\\' && !escaped {
        escaped := true;
        assert out + ([c] + tail) == (out + [c]) + tail;
        out := out + [c];
        i := i + 1;
        continue;
      }
      if c == '"' && !escaped && !inSingle {
        inDouble := !inDouble;
      } else if c == '\'' && !escaped && !inDouble {
        inSingle := !inSingle;
      }
      if c == '#' && !inSingle && !inDouble {
        assert out + [] == out;
        break;
      }
      escaped := false;
      assert Flags(inSingle, inDouble, escaped) == Step(c, before);
      assert out + ([c] + tail) == (out + [c]) + tail;
      out := out + [c];
      i := i + 1;
    }
    assert ScanLine(line, start) == (out, Flags(inSingle, inDouble, escaped)) by {
      if i == |line| {
        assert line[i..] == [];
        assert out + [] == out;
      }
    }
  }

  /** `strip_comments_from_python(input_py_file)` on the content of the file. */
  method StripCommentsFromPython(content: string) returns (r: string)
    ensures r == Stripped(content)
  {
    var text := RemoveBlocks(content, TripleDouble);
    text := RemoveBlocks(text, TripleSingle);
    var lines := Split(text, '\n');
    var processed: seq<string> := [];
    var inSingle, inDouble, escaped := false, false, false;
    var n := 0;
    assert lines[n..] == lines;
    while n < |lines|
      invariant 0 <= n <= |lines|
      invariant KeptLines(lines, Clean) == processed + KeptLines(lines[n..], Flags(inSingle, inDouble, escaped))
    {
      var line := lines[n];
      ghost var start := Flags(inSingle, inDouble, escaped);
      KeptStep(lines, n, start, processed);
      var out;
      out, inSingle, inDouble, escaped := ProcessLine(line, inSingle, inDouble, escaped);
      if Strip(out) != [] {
        processed := processed + [out];
      }
      n := n + 1;
    }
    assert lines[n..] == [];
    assert processed + [] == processed;
    r := Join(processed, '\n');
  }

  // ---------------------------------------------------------------- the clean-up of notebook cells

  /** Dropping part of a run of whitespace leaves the rest of it. */
  lemma {:induction false} RunSuffix(s: string, k: nat)
    requires k <= WsRun(s)
    ensures WsRun(s[k..]) == WsRun(s) - k
    decreases k
  {
    if k > 0 {
      RunSuffix(s[1..], k - 1);
      assert s[1..][k - 1..] == s[k..];
    }
  }

  /** The length of the first line of `s`, without its line break. */
  function LineLength(s: string): (k: nat)
    ensures k <= |s| && '\n' !in s[..k]
    ensures k < |s| ==> s[k] == '\n'
  {
    var k := IndexOf(s, '\n');
    if k == -1 then
      assert s[..|s|] == s;
      |s|
    else k
  }

  /** Whether the first character after the leading whitespace of `s` is a `#`. */
  predicate HashAfterRun(s: string) {
    WsRun(s) < |s| && s[WsRun(s)] == '#'
  }

  /** A leading whitespace character does not change what follows the run. */
  lemma RunStep(s: string)
    requires s != [] && IsSpace(s[0])
    ensures WsRun(s) == 1 + WsRun(s[1..])
    ensures HashAfterRun(s) <==> HashAfterRun(s[1..])
  {
  }

  /** `re.sub(r"^\s*#.*$", "", s, flags=re.MULTILINE)`, `atLineStart` telling whether
      `s` begins a line: where a line begins, whitespace (line breaks included) up to a
      `#` and the rest of that line go; the line break that ends it stays. */
  function DropCommentLines(s: string, atLineStart: bool): (r: string)
    ensures |r| <= |s|
    decreases |s|
  {
    if s == [] then []
    else if atLineStart && HashAfterRun(s) then
      var w := WsRun(s);
      assert s[w..][0] == '#';
      DropCommentLines(s[w + LineLength(s[w..])..], false)
    else [s[0]] + DropCommentLines(s[1..], s[0] == '\n')
  }

  /** Text without `#` is left alone. */
  lemma {:induction false} HashFreeKept(s: string, atLineStart: bool)
    requires '#' !in s
    ensures DropCommentLines(s, atLineStart) == s
    decreases |s|
  {
    if s != [] {
      assert s[WsRun(s)..] != [] ==> s[WsRun(s)] in s;
      assert forall c :: c in s[1..] ==> c in s;
      HashFreeKept(s[1..], s[0] == '\n');
    }
  }

  /** No line of the result is a comment line: after the whitespace at the start of a
      line (and at the very start, when that is a line start or no comment follows it
      there) comes something other than a `#`. */
  lemma {:induction false} NoCommentLineLeft(s: string, atLineStart: bool)
    ensures forall p ::
      (0 <= p < |DropCommentLines(s, atLineStart)| &&
       ((p == 0 && (atLineStart || !HashAfterRun(s))) || (0 < p && DropCommentLines(s, atLineStart)[p - 1] == '\n')))
      ==> !HashAfterRun(DropCommentLines(s, atLineStart)[p..])
    decreases |s|
  {
    var r := DropCommentLines(s, atLineStart);
    if s == [] {
    } else if atLineStart && HashAfterRun(s) {
      var w := WsRun(s);
      var u := s[w + LineLength(s[w..])..];
      NoCommentLineLeft(u, false);
      assert r == DropCommentLines(u, false);
      if r != [] {
        assert u[0] == s[w..][LineLength(s[w..])] == '\n';
        assert r[0] == '\n' && r[1..] == DropCommentLines(u[1..], true);
        assert r[0..] == r;
        if |r| > 1 {
          assert !HashAfterRun(r[1..]);
        } else {
          assert r[1..] == [];
        }
        RunStep(r);
      }
    } else {
      var t := DropCommentLines(s[1..], s[0] == '\n');
      NoCommentLineLeft(s[1..], s[0] == '\n');
      assert r == [s[0]] + t;
      forall p | 0 <= p < |r| && ((p == 0 && (atLineStart || !HashAfterRun(s))) || (0 < p && r[p - 1] == '\n'))
        ensures !HashAfterRun(r[p..])
      {
        if p > 0 {
          assert r[p..] == t[p - 1..];
          if p > 1 {
            assert t[p - 2] == r[p - 1];
            assert 0 < p - 1 && t[p - 1 - 1] == '\n';
          } else {
            assert s[0] == '\n';
          }
          assert !HashAfterRun(t[p - 1..]);
        } else {
          assert r[0..] == r;
          if IsSpace(s[0]) {
            RunStep(s);
            assert r[1..] == t && t[0..] == t;
            if t != [] {
              assert !HashAfterRun(t[0..]);
              RunStep(r);
            }
          } else {
            assert WsRun(s) == 0 && WsRun(r) == 0;
          }
        }
      }
    }
  }

  /** `re.sub(r"\n\s*\n", "\n", s)`: a line break followed by whitespace holding
      another line break becomes one line break, up to and including the last break of
      that whitespace. */
  function SqueezeBlankLines(s: string): (r: string)
    ensures |r| <= |s|
    decreases |s|
  {
    if s == [] then []
    else if s[0] == '\n' then "\n" + SqueezeBlankLines(s[BreakRunEnd(s)..])
    else [s[0]] + SqueezeBlankLines(s[1..])
  }

  /** Where the text goes on after the line break `s` starts with: just after it when
      the whitespace that follows holds no other line break, else just after the last
      line break of that whitespace. */
  function BreakRunEnd(s: string): (k: nat)
    requires s != [] && s[0] == '\n'
    ensures 1 <= k <= |s|
  {
    var run := s[1..1 + WsRun(s[1..])];
    var last := LastIndexOf(run, '\n');
    if last == -1 then 1 else last + 2
  }

  /** Every line break of `x` comes after a character that is not whitespace. */
  predicate TextBeforeBreaks(x: string) {
    forall j :: 0 <= j < |x| && BreakAt(x, j) ==> TextBetween(x, -1, j)
  }

  /** Text whose leading whitespace has no line break keeps its first line break after
      a character that is not whitespace. */
  lemma {:induction false} SqueezeText(u: string)
    requires '\n' !in u[..WsRun(u)]
    ensures TextBeforeBreaks(SqueezeBlankLines(u))
    decreases |u|
  {
    if u != [] {
      var x := SqueezeBlankLines(u);
      if IsSpace(u[0]) {
        assert u[0] == u[..WsRun(u)][0];
        RunStep(u);
        assert u[1..][..WsRun(u[1..])] == u[..WsRun(u)][1..];
        SqueezeText(u[1..]);
        var y := SqueezeBlankLines(u[1..]);
        assert x == [u[0]] + y;
        forall j | BreakAt(x, j)
          ensures TextBetween(x, -1, j)
        {
          assert y[j - 1] == x[j];
          assert BreakAt(y, j - 1);
          var m :| -1 < m < j - 1 && 0 <= m < |y| && !IsSpace(y[m]);
          assert x[m + 1] == y[m];
        }
      } else {
        assert x == [u[0]] + SqueezeBlankLines(u[1..]);
        forall j | BreakAt(x, j)
          ensures TextBetween(x, -1, j)
        {
          assert x[0] == u[0];
        }
      }
    }
  }

  /** A character other than a line break in front keeps a text free of blank lines. */
  lemma NoBlankCons(c: char, x: string)
    requires c != '\n' && NoBlankLine(x)
    ensures NoBlankLine([c] + x)
  {
    var y := [c] + x;
    forall i, j | i < j && BreakAt(y, i) && BreakAt(y, j)
      ensures TextBetween(y, i, j)
    {
      assert x[i - 1] == y[i] && x[j - 1] == y[j];
      assert BreakAt(x, i - 1) && BreakAt(x, j - 1);
      var m :| i - 1 < m < j - 1 && 0 <= m < |x| && !IsSpace(x[m]);
      assert y[m + 1] == x[m];
    }
  }

  /** A line break in front keeps a text free of blank lines when the text has
      something other than whitespace before its first line break. */
  lemma NoBlankBreak(x: string)
    requires NoBlankLine(x) && TextBeforeBreaks(x)
    ensures NoBlankLine("\n" + x)
  {
    var y := "\n" + x;
    forall i, j | i < j && BreakAt(y, i) && BreakAt(y, j)
      ensures TextBetween(y, i, j)
    {
      BreakPairFront(x, y, i, j);
    }
  }

  /** The step of the lemma above for one pair of line breaks. */
  lemma BreakPairFront(x: string, y: string, i: int, j: int)
    requires NoBlankLine(x) && TextBeforeBreaks(x) && y == "\n" + x
    requires i < j && BreakAt(y, i) && BreakAt(y, j)
    ensures TextBetween(y, i, j)
  {
    assert x[j - 1] == y[j];
    if i == 0 {
      assert BreakAt(x, j - 1);
      var m :| -1 < m < j - 1 && 0 <= m < |x| && !IsSpace(x[m]);
      assert y[m + 1] == x[m];
    } else {
      assert x[i - 1] == y[i];
      assert BreakAt(x, i - 1) && BreakAt(x, j - 1);
      var m :| i - 1 < m < j - 1 && 0 <= m < |x| && !IsSpace(x[m]);
      assert y[m + 1] == x[m];
    }
  }

  /** At a line break the clean-up keeps one line break and goes on with text whose
      leading whitespace has no line break. */
  lemma SqueezeBreakStep(s: string) returns (u: string)
    requires s != [] && s[0] == '\n'
    ensures |u| < |s| && SqueezeBlankLines(s) == "\n" + SqueezeBlankLines(u)
    ensures '\n' !in u[..WsRun(u)]
  {
    u := s[BreakRunEnd(s)..];
    var t := s[1..];
    var w := WsRun(t);
    var run := s[1..1 + w];
    assert run == t[..w];
    var last := LastIndexOf(run, '\n');
    if last != -1 {
      assert u == t[last + 1..];
      RunAfterLastBreak(t, last);
    }
  }

  /** What follows the last line break of a run of whitespace starts with a run that
      has none. */
  lemma RunAfterLastBreak(t: string, last: int)
    requires 0 <= last && last == LastIndexOf(t[..WsRun(t)], '\n')
    ensures '\n' !in t[last + 1..][..WsRun(t[last + 1..])]
  {
    var run := t[..WsRun(t)];
    RunSuffix(t, last + 1);
    var rest := t[last + 1..][..WsRun(t[last + 1..])];
    assert |rest| == |run| - (last + 1);
    forall j | 0 <= j < |rest|
      ensures rest[j] != '\n'
    {
      assert rest[j] == run[last + 1 + j];
    }
  }

  /** After the clean-up no line is blank. */
  lemma {:induction false} SqueezeNoBlankLine(s: string)
    ensures NoBlankLine(SqueezeBlankLines(s))
    decreases |s|
  {
    if s != [] {
      if s[0] == '\n' {
        var u := SqueezeBreakStep(s);
        SqueezeNoBlankLine(u);
        SqueezeText(u);
        NoBlankBreak(SqueezeBlankLines(u));
      } else {
        SqueezeNoBlankLine(s[1..]);
        NoBlankCons(s[0], SqueezeBlankLines(s[1..]));
      }
    }
  }

  /** Text without a blank line is left alone, so the clean-up is idempotent. */
  lemma {:induction false} SqueezeKeepsClean(s: string)
    requires NoBlankLine(s)
    ensures SqueezeBlankLines(s) == s
    decreases |s|
  {
    if s != [] {
      NoBlankTail(s);
      SqueezeKeepsClean(s[1..]);
      if s[0] == '\n' {
        NoSecondBreak(s);
      }
    }
  }

  /** Dropping the first character keeps a text free of blank lines. */
  lemma NoBlankTail(s: string)
    requires s != [] && NoBlankLine(s)
    ensures NoBlankLine(s[1..])
  {
    var t := s[1..];
    forall i, j | 0 <= i < j < |t| && BreakAt(t, i) && BreakAt(t, j)
      ensures TextBetween(t, i, j)
    {
      assert s[i + 1] == t[i] && s[j + 1] == t[j];
      assert BreakAt(s, i + 1) && BreakAt(s, j + 1);
      var m :| i + 1 < m < j + 1 && 0 <= m < |s| && !IsSpace(s[m]);
      assert t[m - 1] == s[m];
    }
  }

  /** In a text without blank lines, the whitespace after a line break holds no other
      line break. */
  lemma NoSecondBreak(s: string)
    requires s != [] && s[0] == '\n' && NoBlankLine(s)
    ensures BreakRunEnd(s) == 1
  {
    var run := s[1..1 + WsRun(s[1..])];
    var last := LastIndexOf(run, '\n');
    assert BreakAt(s, 0);
    assert last != -1 ==> BreakAt(s, last + 1);
    if last != -1 {
      assert false;
    }
  }

  /** The cell source after the four substitutions of lines 32-37. */
  function Scrubbed(source: string): string {
    SqueezeBlankLines(RemoveBlocks(RemoveBlocks(DropCommentLines(source, true), TripleDouble), TripleSingle))
  }

  /** A scrubbed source has no blank line, and its last substitution changes nothing
      when applied again. */
  lemma ScrubbedHasNoBlankLine(source: string)
    ensures NoBlankLine(Scrubbed(source))
    ensures SqueezeBlankLines(Scrubbed(source)) == Scrubbed(source)
  {
    var t := RemoveBlocks(RemoveBlocks(DropCommentLines(source, true), TripleDouble), TripleSingle);
    SqueezeNoBlankLine(t);
    SqueezeKeepsClean(Scrubbed(source));
  }

  // ---------------------------------------------------------------- extract_code_from_notebook

  /** `"".join(items)`: TypeError for an item that is not a string. */
  function Concat(items: seq<Json>): (r: Result<string>)
    ensures r.Ok? <==> forall i :: 0 <= i < |items| ==> items[i].JStr?
    ensures r.Err? ==> r.exc == TypeError
    decreases |items|
  {
    if items == [] then Ok([])
    else if !items[0].JStr? then Err(TypeError)
    else
      assert forall i :: 1 <= i < |items| ==> items[i] == items[1..][i - 1];
      Prepend(items[0].s, Concat(items[1..]))
  }

  /** What a code cell adds (lines 39-44): nothing when its source is blank, else the
      source, a line break when it lacks a final one, and one more line break. */
  function CellBlock(source: string): string {
    if Strip(source) == [] then []
    else source + (if EndsWith(source, "\n") then [] else "\n") + "\n"
  }

  /** A blank source adds nothing; any other is kept whole at the front and the block
      ends with a blank line, adding one or two line breaks. */
  lemma CellBlockShape(source: string)
    ensures Strip(source) == [] ==> CellBlock(source) == []
    ensures Strip(source) != [] ==> StartsWith(CellBlock(source), source)
    ensures Strip(source) != [] ==> EndsWith(CellBlock(source), "\n\n")
    ensures |CellBlock(source)| <= |source| + 2
  {
    if Strip(source) != [] {
      BlockEnds(source, CellBlock(source));
    }
  }

  /** The non-blank case of the lemma above. */
  lemma BlockEnds(source: string, r: string)
    requires r == source + (if EndsWith(source, "\n") then [] else "\n") + "\n"
    ensures StartsWith(r, source) && EndsWith(r, "\n\n") && |r| <= |source| + 2
  {
    assert r[..|source|] == source;
    if EndsWith(source, "\n") {
      assert r[|r| - 2..] == [source[|source| - 1], '\n'];
    } else {
      assert r[|r| - 2..] == "\n\n";
    }
  }

  /** The source of one cell (lines 23-37): `None` for a cell that is not a code cell;
      AttributeError for a cell that is not a dict; the list form is joined; with
      `exclude_comments` the text is `Scrubbed`. A source that ends up not a string
      raises at `re.sub` (TypeError) or at `strip` (AttributeError). */
  function CellSource(cell: Json, excludeComments: bool): Result<Option<string>> {
    if !cell.JObj? then Err(AttributeError)
    else if Get(cell.fields, "cell_type", JNull) != JStr("code") then Ok(None)
    else
      var source := Get(cell.fields, "source", JArr([]));
      var text: Result<Json> :=
        if source.JArr? then (match Concat(source.items) case Ok(s) => Ok(JStr(s)) case Err(e) => Err(e))
        else Ok(source);
      match text
      case Err(e) => Err(e)
      case Ok(JStr(s)) => Ok(Some(if excludeComments then Scrubbed(s) else s))
      case Ok(_) => Err(if excludeComments then TypeError else AttributeError)
  }

  /** What the cells add up to, in order; the first exception ends it. */
  function NotebookCode(cells: seq<Json>, excludeComments: bool): (r: Result<string>)
    decreases |cells|
  {
    if cells == [] then Ok([])
    else
      match CellSource(cells[0], excludeComments)
      case Err(e) => Err(e)
      case Ok(source) =>
        Prepend(if source.Some? then CellBlock(source.value) else [], NotebookCode(cells[1..], excludeComments))
  }

  /** The recursion of `NotebookCode` at position `i`. */
  lemma NotebookStep(cells: seq<Json>, i: int, excludeComments: bool)
    requires 0 <= i < |cells|
    ensures NotebookCode(cells[i..], excludeComments) ==
      match CellSource(cells[i], excludeComments)
      case Err(e) => Err(e)
      case Ok(source) =>
        Prepend(if source.Some? then CellBlock(source.value) else [], NotebookCode(cells[i + 1..], excludeComments))
  {
    assert cells[i..][0] == cells[i] && cells[i..][1..] == cells[i + 1..];
  }

  /** One turn of the loop of lines 22-44 over a cell whose source is read without
      error: the code so far followed by what the remaining cells give. */
  lemma NotebookAdvance(cells: seq<Json>, i: int, excludeComments: bool, extracted: string, block: string)
    requires 0 <= i < |cells| && CellSource(cells[i], excludeComments).Ok?
    requires var src := CellSource(cells[i], excludeComments).value;
      block == if src.Some? then CellBlock(src.value) else []
    ensures Prepend(extracted, NotebookCode(cells[i..], excludeComments))
      == Prepend(extracted + block, NotebookCode(cells[i + 1..], excludeComments))
  {
    NotebookStep(cells, i, excludeComments);
    PrependTwice(extracted, block, NotebookCode(cells[i + 1..], excludeComments));
  }

  /** A cell whose source cannot be read ends the loop of lines 22-44 with its error. */
  lemma NotebookFails(cells: seq<Json>, i: int, excludeComments: bool, extracted: string)
    requires 0 <= i < |cells| && CellSource(cells[i], excludeComments).Err?
    ensures Prepend(extracted, NotebookCode(cells[i..], excludeComments))
      == Err(CellSource(cells[i], excludeComments).exc)
  {
    NotebookStep(cells, i, excludeComments);
  }

  /** The extracted code is empty or ends with a blank line. */
  lemma {:induction false} NotebookCodeEnds(cells: seq<Json>, excludeComments: bool)
    ensures var r := NotebookCode(cells, excludeComments);
      r.Ok? && r.value != [] ==> EndsWith(r.value, "\n\n")
    decreases |cells|
  {
    if cells != [] {
      NotebookCodeEnds(cells[1..], excludeComments);
      var src := CellSource(cells[0], excludeComments);
      var rest := NotebookCode(cells[1..], excludeComments);
      if src.Ok? && rest.Ok? {
        var head := if src.value.Some? then CellBlock(src.value.value) else [];
        if src.value.Some? {
          CellBlockShape(src.value.value);
        }
        assert NotebookCode(cells, excludeComments) == Ok(head + rest.value);
        if rest.value != [] {
          EndsWithAppend(head, rest.value, "\n\n");
        } else {
          assert head + rest.value == head;
        }
      }
    }
  }

  /** A suffix of the second part is a suffix of the concatenation. */
  lemma EndsWithAppend(a: string, b: string, suffix: string)
    requires EndsWith(b, suffix)
    ensures EndsWith(a + b, suffix)
  {
    assert (a + b)[|a + b| - |suffix|..] == b[|b| - |suffix|..];
  }

  /** Cells none of which is a code cell give no code. */
  lemma {:induction false} NotebookCodeEmpty(cells: seq<Json>, excludeComments: bool)
    requires forall i :: 0 <= i < |cells| ==> CellSource(cells[i], excludeComments) == Ok(None)
    ensures NotebookCode(cells, excludeComments) == Ok([])
    decreases |cells|
  {
    if cells != [] {
      assert CellSource(cells[0], excludeComments) == Ok(None);
      assert forall i :: 0 <= i < |cells| - 1 ==> cells[1..][i] == cells[i + 1];
      NotebookCodeEmpty(cells[1..], excludeComments);
      var empty: string := [];
      assert NotebookCode(cells[1..], excludeComments) == Ok(empty);
      assert Prepend(empty, Ok(empty)) == Ok(empty + empty);
      assert empty + empty == empty;
      assert NotebookCode(cells, excludeComments)
        == Prepend(empty, NotebookCode(cells[1..], excludeComments));
    }
  }

  /** `notebook.get("cells", [])` iterated: a list goes cell by cell; iterating a
      non-empty dict or string yields strings, which have no `get`; an empty one yields
      nothing; anything else is not iterable. */
  function ExtractedCode(notebook: Entry, excludeComments: bool): Result<string> {
    match Get(notebook, "cells", JArr([]))
    case JArr(cells) => NotebookCode(cells, excludeComments)
    case JObj(m) => if m == map[] then Ok([]) else Err(AttributeError)
    case JStr(s) => if s == [] then Ok([]) else Err(AttributeError)
    case _ => Err(TypeError)
  }

  /** Lines 39-44: the code gathered so far with the block of one more code cell. */
  method AppendCell(extracted: string, source: string) returns (r: string)
    ensures r == extracted + CellBlock(source)
  {
    r := extracted;
    if Strip(source) != [] {
      r := r + source;
      if !EndsWith(source, "\n") {
        r := r + "\n";
      }
      r := r + "\n";
      assert r == extracted + (source + (if EndsWith(source, "\n") then [] else "\n") + "\n");
    } else {
      assert extracted + [] == extracted;
    }
  }

  /** `extract_code_from_notebook(ipynb_file, exclude_comments)` on the parsed notebook. */
  method ExtractCodeFromNotebook(notebook: Entry, excludeComments: bool)
    returns (r: Result<string>)
    ensures r == ExtractedCode(notebook, excludeComments)
  {
    var cellsValue := Get(notebook, "cells", JArr([]));
    if !cellsValue.JArr? {
      r := match cellsValue
        case JObj(m) => if m == map[] then Ok([]) else Err(AttributeError)
        case JStr(s) => if s == [] then Ok([]) else Err(AttributeError)
        case _ => Err(TypeError);
      return;
    }
    r := GatherCode(cellsValue.items, excludeComments);
  }

  /** The loop of lines 22-44 over the cells of the notebook. */
  method GatherCode(cells: seq<Json>, excludeComments: bool) returns (r: Result<string>)
    ensures r == NotebookCode(cells, excludeComments)
  {
    var extracted: string := [];
    var i := 0;
    assert cells[i..] == cells;
    PrependNothing(extracted, NotebookCode(cells, excludeComments));
    while i < |cells|
      invariant 0 <= i <= |cells|
      invariant NotebookCode(cells, excludeComments) ==
        Prepend(extracted, NotebookCode(cells[i..], excludeComments))
    {
      var source := CellSource(cells[i], excludeComments);
      if source.Err? {
        NotebookFails(cells, i, excludeComments, extracted);
        return Err(source.exc);
      }
      if source.value.Some? {
        ghost var next := extracted + CellBlock(source.value.value);
        assert NotebookCode(cells, excludeComments) == Prepend(next, NotebookCode(cells[i + 1..], excludeComments)) by {
          NotebookAdvance(cells, i, excludeComments, extracted, CellBlock(source.value.value));
        }
        extracted := AppendCell(extracted, source.value.value);
      } else {
        assert NotebookCode(cells, excludeComments) == Prepend(extracted, NotebookCode(cells[i + 1..], excludeComments)) by {
          NotebookAdvance(cells, i, excludeComments, extracted, []);
          assert extracted + [] == extracted;
        }
      }
      i := i + 1;
    }
    assert cells[i..] == [];
    PrependNothing(extracted, NotebookCode(cells[i..], excludeComments));
    r := Ok(extracted);
  }

  // ---------------------------------------------------------------- is_excluded_path

  /** The component loop of POSIX `os.path.normpath`: empty and `.` components are
      dropped, `..` removes the component before it unless that is `..` too or there is
      none (kept only for a relative path). */
  function NormComponents(comps: seq<string>, acc: seq<string>, absolute: bool): seq<string>
    decreases |comps|
  {
    if comps == [] then acc
    else
      var c := comps[0];
      if c == "" || c == "." then NormComponents(comps[1..], acc, absolute)
      else if c != ".." || (!absolute && acc == []) || (acc != [] && acc[|acc| - 1] == "..") then
        NormComponents(comps[1..], acc + [c], absolute)
      else if acc != [] then NormComponents(comps[1..], acc[..|acc| - 1], absolute)
      else NormComponents(comps[1..], acc, absolute)
  }

  /** POSIX `os.path.normpath(path)`: `.` for an empty path; one leading `/` kept, or two
      when there are exactly two. */
  function Normpath(path: string): (r: string)
    ensures r != []
  {
    if path == [] then "."
    else
      var slashes := if StartsWith(path, "//") && !StartsWith(path, "///") then "//"
        else if StartsWith(path, "/") then "/" else "";
      var p := slashes + Join(NormComponents(Split(path, '/'), [], slashes != ""), '/');
      if p == [] then "." else p
  }

  /** The extension `os.path.splitext(path)[1]` returns: from the last `.` of the last
      component on, provided that component has something other than dots before it;
      otherwise "". */
  function SplitExt(path: string): (r: string)
    ensures r == [] || (r[0] == '.' && EndsWith(path, r))
  {
    var sep := LastIndexOf(path, '/');
    var dot := LastIndexOf(path, '.');
    if dot > sep && exists m :: sep + 1 <= m < dot && path[m] != '.' then
      assert path[|path| - |path[dot..]|..] == path[dot..];
      path[dot..]
    else []
  }

  /** `s.lstrip(".")` */
  function LStripDots(s: string): (r: string)
    ensures r == [] || r[0] != '.'
    ensures EndsWith(s, r)
    decreases |s|
  {
    if s != [] && s[0] == '.' then
      var r := LStripDots(s[1..]);
      assert s[|s| - |r|..] == s[1..][|s[1..]| - |r|..];
      r
    else
      assert s[|s| - |s|..] == s;
      s
  }

  /** The early-return scan of lines 130-132 over the excluded folders. */
  function FolderHit(normalized: string, folders: seq<string>): (r: bool)
    ensures r <==> exists i :: 0 <= i < |folders| && StartsWith(normalized, Normpath(folders[i]))
    decreases |folders|
  {
    if folders == [] then false
    else if StartsWith(normalized, Normpath(folders[0])) then true
    else
      assert forall i :: 1 <= i < |folders| ==> folders[i] == folders[1..][i - 1];
      FolderHit(normalized, folders[1..])
  }

  /** `is_excluded_path(path, exclude_folder_list, exclude_filetype_list)`, with
      `os.path.isfile(path)` given as `isFile`; a missing list is an empty one. The
      folder test is a plain string prefix test on the normalised paths; the extension
      test applies to existing files only. */
  function IsExcludedPath(path: string, folders: seq<string>, fileTypes: seq<string>, isFile: bool): (r: bool)
    ensures r <==>
      (exists i :: 0 <= i < |folders| && StartsWith(Normpath(path), Normpath(folders[i])))
      || (isFile && LStripDots(SplitExt(path)) in fileTypes)
  {
    FolderHit(Normpath(path), folders) || (isFile && LStripDots(SplitExt(path)) in fileTypes)
  }

  /** Splitting at a first separator. */
  lemma SplitFirst(a: string, b: string, sep: char)
    requires sep !in a
    ensures Split(a + [sep] + b, sep) == [a] + Split(b, sep)
  {
    var s := a + [sep] + b;
    assert s[|a|] == sep && s[..|a|] == a && s[|a| + 1..] == b;
    assert forall k :: 0 <= k < |a| ==> s[k] == a[k];
    assert IndexOf(s, sep) == |a|;
  }

  /** A path component that normalisation keeps as it is. */
  predicate Plain(c: string) {
    c != [] && '/' !in c && c != "." && c != ".."
  }

  /** Normalising a relative path. */
  lemma NormpathRelative(path: string)
    requires path != [] && path[0] != '/'
    ensures var p := Join(NormComponents(Split(path, '/'), [], false), '/');
      Normpath(path) == if p == [] then "." else p
  {
    assert !StartsWith(path, "/") && !StartsWith(path, "//");
  }

  /** `./name/` normalises to `name`. */
  lemma NormpathDotSlash(name: string)
    requires Plain(name)
    ensures Normpath("./" + name + "/") == name
  {
    var path := "./" + name + "/";
    var comps := [".", name, []];
    assert Split(path, '/') == comps by {
      var c := SplitDotSlash(name);
    }
    assert NormComponents(comps, [], false) == [name] by {
      var rest: seq<string> := [[]];
      assert comps[1..] == [name] + rest && rest[1..] == [];
      assert [] + [name] == [name];
      assert NormComponents(rest, [name], false) == [name];
      assert NormComponents([name] + rest, [], false) == [name];
    }
    assert Normpath(path) == Join([name], '/') by {
      assert path[0] == '.';
      NormpathRelative(path);
    }
  }

  /** `./name/` splits at its two slashes. */
  lemma SplitDotSlash(name: string) returns (comps: seq<string>)
    requires '/' !in name
    ensures comps == Split("./" + name + "/", '/') && comps == [".", name, []]
  {
    var last := name + ['/'] + [];
    assert "./" + name + "/" == "." + ['/'] + last;
    SplitFirst(".", last, '/');
    SplitFirst(name, [], '/');
    assert Split([], '/') == [[]];
    comps := Split("./" + name + "/", '/');
  }

  /** `dir/file` with plain components is already normal. */
  lemma NormpathPlain(dir: string, file: string)
    requires Plain(dir) && Plain(file)
    ensures Normpath(dir + "/" + file) == dir + "/" + file
  {
    var path := dir + "/" + file;
    assert path[0] == dir[0];
    NormpathRelative(path);
    assert path == dir + ['/'] + file;
    SplitFirst(dir, file, '/');
    assert Split(file, '/') == [file];
    var comps := Split(path, '/');
    assert comps == [dir] + [file];
    assert comps[0] == dir && comps[1..] == [file];
    assert NormComponents([file], [dir], false) == [dir, file] by {
      assert [dir] + [file] == [dir, file];
      assert [file][1..] == [];
    }
    assert [] + [dir] == [dir];
    assert NormComponents(comps, [], false) == [dir, file];
    assert Join([dir, file], '/') == dir + ['/'] + file;
  }

  /** The folder test compares names as strings: a folder excludes every path that
      merely begins with its name, such as `venvx/a` for the folder `./venv/`. */
  lemma PrefixNotFolder(name: string, more: string, file: string)
    requires Plain(name) && Plain(name + more) && Plain(file)
    ensures IsExcludedPath(name + more + "/" + file, ["./" + name + "/"], [], false)
  {
    NormpathDotSlash(name);
    NormpathPlain(name + more, file);
    var path := name + more + "/" + file;
    assert path[..|name|] == name;
    assert StartsWith(Normpath(path), Normpath(["./" + name + "/"][0]));
  }
}
