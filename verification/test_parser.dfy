/** The test-file extractor of `botest/src/parser.ts`: a hand-written
    scanner that finds `test('name', function () { ... })` calls by brace
    counting, a dedenter for the bodies, and the shared preamble (the text
    before the first `test(`) that is prepended to every test. */
module TestParser {
  import opened Base

  /** The characters of JavaScript's `\s` class, which `String.prototype.trim`
      strips as well (white space and line terminators). */
  predicate IsSpace(ch: char)
  {
    ch == '\t' || ch == '\n' || ch == '\U{B}' || ch == '\U{C}' || ch == '\r' || ch == ' '
    || ch == '\U{A0}' || ch == '\U{1680}' || ('\U{2000}' <= ch <= '\U{200A}')
    || ch == '\U{2028}' || ch == '\U{2029}' || ch == '\U{202F}' || ch == '\U{205F}'
    || ch == '\U{3000}' || ch == '\U{FEFF}'
  }

  /* ---------------------------------------------------------------- */
  /* Scanning primitives                                                */
  /* ---------------------------------------------------------------- */

  /** Advances over white space; stops at the first other character or at
      the end of the text. */
  function SkipSpace(c: string, p: nat): (r: nat)
    ensures p <= r
    ensures p <= |c| ==> r <= |c|
    ensures forall k :: p <= k < r ==> k < |c| && IsSpace(c[k])
    ensures r < |c| ==> !IsSpace(c[r])
    decreases |c| - p
  {
    if p >= |c| || !IsSpace(c[p]) then p else SkipSpace(c, p + 1)
  }

  /** Advances until `pat` occurs at the position or the end of the text is
      reached; a start past the end is returned as it is. */
  function FindFrom(c: string, pat: string, p: nat): (r: nat)
    ensures p <= r
    ensures p <= |c| ==> r <= |c|
    ensures r < |c| ==> OccursAt(c, pat, r)
    ensures forall k :: p <= k < r ==> k < |c| && !OccursAt(c, pat, k)
    decreases |c| - p
  {
    if p >= |c| || OccursAt(c, pat, p) then p else FindFrom(c, pat, p + 1)
  }

  function Delta(ch: char): int
  {
    if ch == '{' then 1 else if ch == '}' then -1 else 0
  }

  /** Opening minus closing braces; strings and comments are not special. */
  function Balance(s: string): int
  {
    if |s| == 0 then 0 else Delta(s[0]) + Balance(s[1..])
  }

  /** The brace counter of lines 53-68: starting `depth` levels deep at `p`,
      the index of the `}` that closes the outermost level, or the end of
      the text when it is never closed. */
  function Match(c: string, p: nat, depth: nat): (r: nat)
    requires depth >= 1
    requires p <= |c|
    ensures p <= r <= |c|
    ensures r < |c| ==> c[r] == '}' && depth + Balance(c[p..r]) == 1
    ensures forall k :: p <= k <= r ==> depth + Balance(c[p..k]) >= 1
    decreases |c| - p
  {
    if p == |c| then p
    else
      var d := depth + Delta(c[p]);
      if d == 0 then p
      else
        var r := Match(c, p + 1, d);
        assert forall k :: p < k <= r ==> Balance(c[p..k]) == Delta(c[p]) + Balance(c[p + 1..k]) by {
          forall k | p < k <= r ensures Balance(c[p..k]) == Delta(c[p]) + Balance(c[p + 1..k]) {
            assert c[p..k][1..] == c[p + 1..k];
          }
        }
        r
  }

  /* ---------------------------------------------------------------- */
  /* parseTests                                                         */
  /* ---------------------------------------------------------------- */

  /** A test found in the text: its name and the half-open range of its
      body. */
  datatype Extracted = Extracted(name: string, start: nat, end: nat)

  /** The brace balance of the text after the `{` at `open`, up to `k`. */
  function Inside(c: string, open: nat, k: nat): int
    requires open < k <= |c|
  {
    Balance(c[open + 1..k])
  }

  /** `open` is the `{` of a test body whose (untrimmed) text runs to
      `close`; the body never closes more braces than it opens, and it is
      balanced exactly when the closing brace was found. */
  predicate Frames(c: string, t: Extracted, open: nat, close: nat)
  {
    open < close <= |c| && c[open] == '{'
    && t.start == (if open + 1 < |c| && c[open + 1] == '\n' then open + 2 else open + 1)
    && t.end == (if c[close - 1] == '\n' then close - 1 else close)
    && (forall k :: open < k <= close ==> Inside(c, open, k) >= 0)
    && (close < |c| ==> c[close] == '}' && Inside(c, open, close) == 0)
  }

  ghost predicate Framed(c: string, t: Extracted)
  {
    exists open: nat, close: nat :: Frames(c, t, open, close)
  }

  /** A test found together with its braces. */
  datatype Hit = Hit(t: Extracted, open: nat, close: nat)

  /** Lines 29-71, from the opening quote at `p`: the name up to the next
      identical quote, then the body of the first `{` after the next
      `function`; `None` where the source breaks out of the scan. */
  function Take(c: string, p: nat): (h: Option<Hit>)
    requires p < |c|
    ensures h.Some? ==> p < h.value.open && Frames(c, h.value.t, h.value.open, h.value.close)
  {
    var e := FindFrom(c, [c[p]], p + 1);
    var f := FindFrom(c, "function", e + 1);
    if f >= |c| then None
    else
      var b := FindFrom(c, "{", f + 8);
      if b >= |c| then None
      else
        assert c[b] == '{' by { assert c[b..b + 1][0] == c[b]; }
        var close := Match(c, b + 1, 1);
        var start := if b + 1 < |c| && c[b + 1] == '\n' then b + 2 else b + 1;
        var end := if c[close - 1] == '\n' then close - 1 else close;
        var t := Extracted(c[p + 1..e], start, end);
        FramesIntro(c, t, b, close);
        Some(Hit(t, b, close))
  }

  lemma FramesIntro(c: string, t: Extracted, open: nat, close: nat)
    requires open < close <= |c| && c[open] == '{'
    requires close == Match(c, open + 1, 1)
    requires t.start == (if open + 1 < |c| && c[open + 1] == '\n' then open + 2 else open + 1)
    requires t.end == (if c[close - 1] == '\n' then close - 1 else close)
    ensures Frames(c, t, open, close)
  {
    forall k | open < k <= close ensures Inside(c, open, k) >= 0 {
      assert 1 + Balance(c[open + 1..k]) >= 1;
    }
  }

  /** The main loop of `parseTests` from position `pos`. */
  function Scan(c: string, pos: nat): (r: seq<Extracted>)
    ensures forall i :: 0 <= i < |r| ==> pos < r[i].start && r[i].end <= |c| && Framed(c, r[i])
    ensures forall i :: 0 <= i < |r| - 1 ==> r[i].end < r[i + 1].start
    decreases |c| - pos
  {
    if pos >= |c| then []
    else if !OccursAt(c, "test(", pos) then Scan(c, pos + 1)
    else
      var p := SkipSpace(c, pos + 5);
      if p >= |c| || (c[p] != '"' && c[p] != '\'') then Scan(c, p)
      else
        match Take(c, p)
        case None => []
        case Some(h) =>
          var next := if h.close < |c| then h.close + 1 else |c|;
          var rest := Scan(c, next);
          assert Framed(c, h.t) by { assert Frames(c, h.t, h.open, h.close); }
          ScanCons(c, pos, h.t, next, rest);
          [h.t] + rest
  }

  /** A test found before the rest of the scan keeps the scan's results
      framed and in order. */
  lemma ScanCons(c: string, pos: nat, t: Extracted, next: nat, rest: seq<Extracted>)
    requires pos < t.start && t.end <= |c| && t.end <= next && Framed(c, t)
    requires forall i :: 0 <= i < |rest| ==> next < rest[i].start && rest[i].end <= |c| && Framed(c, rest[i])
    requires forall i :: 0 <= i < |rest| - 1 ==> rest[i].end < rest[i + 1].start
    ensures var r := [t] + rest;
      (forall i :: 0 <= i < |r| ==> pos < r[i].start && r[i].end <= |c| && Framed(c, r[i]))
      && (forall i :: 0 <= i < |r| - 1 ==> r[i].end < r[i + 1].start)
  {
    var r := [t] + rest;
    assert forall i :: 1 <= i < |r| ==> r[i] == rest[i - 1];
    if |rest| > 0 {
      assert rest[0].start > next;
    }
  }

  /** `parseTests`: nothing when the text has no `test(`, otherwise the
      scan from its first occurrence. */
  function ParseTests(c: string): seq<Extracted>
  {
    var first := SubIndex(c, "test(");
    if first == -1 then [] else Scan(c, first)
  }

  /* ---------------------------------------------------------------- */
  /* Trimming and the shared preamble                                   */
  /* ---------------------------------------------------------------- */

  /** Where the trailing white space of `s[lo..hi]` begins: scanning back
      from `hi`, never past `lo`. */
  function TrailEnd(s: string, hi: nat, lo: nat): (r: nat)
    requires lo <= hi <= |s|
    ensures lo <= r <= hi
    ensures forall k :: r <= k < hi ==> IsSpace(s[k])
    ensures r > lo ==> !IsSpace(s[r - 1])
    decreases hi
  {
    if hi <= lo || !IsSpace(s[hi - 1]) then hi else TrailEnd(s, hi - 1, lo)
  }

  /** `String.prototype.trim`: the text between the leading and the
      trailing white space. */
  function Trim(s: string): string
  {
    var i := LeadingSpace(s);
    s[i..TrailEnd(s, |s|, i)]
  }

  /** Trimming removes white space from both ends and nothing else: the
      result is the slice `s[i..j]`, the cut-off parts are all white space,
      the result neither starts nor ends with white space, and trimming
      again changes nothing. */
  lemma TrimSpec(s: string) returns (i: nat, j: nat)
    ensures i <= j <= |s| && Trim(s) == s[i..j]
    ensures forall k :: 0 <= k < i ==> IsSpace(s[k])
    ensures forall k :: j <= k < |s| ==> IsSpace(s[k])
    ensures |Trim(s)| > 0 ==> !IsSpace(Trim(s)[0]) && !IsSpace(Trim(s)[|Trim(s)| - 1])
    ensures Trim(Trim(s)) == Trim(s)
  {
    i := LeadingSpace(s);
    j := TrailEnd(s, |s|, i);
    var r := s[i..j];
    if j > i {
      assert r[0] == s[i] && r[|r| - 1] == s[j - 1];
    }
    TrimmedIsFixed(r);
  }

  /** A text that neither starts nor ends with white space is its own trim. */
  lemma TrimmedIsFixed(r: string)
    requires |r| > 0 ==> !IsSpace(r[0]) && !IsSpace(r[|r| - 1])
    ensures Trim(r) == r
  {
    assert LeadingSpace(r) == 0;
    assert TrailEnd(r, |r|, 0) == |r|;
    assert r[0..|r|] == r;
  }

  /** `extractNonTestContent`: the trimmed text before the first `test(`,
      or the whole trimmed text when there is none. */
  function NonTest(c: string): string
  {
    var first := SubIndex(c, "test(");
    if first == -1 then Trim(c) else Trim(c[..first])
  }

  /** A file without `test(` has no tests and its whole (trimmed) text is
      the preamble. */
  lemma NoMarkerNoTests(c: string)
    ensures !HasSub(c, "test(") ==> ParseTests(c) == [] && NonTest(c) == Trim(c)
    ensures ParseTests(c) != [] ==> HasSub(c, "test(")
    ensures forall t :: t in ParseTests(c) ==> SubIndex(c, "test(") < t.start
  {
  }

  /** The preamble is a slice of the text before the first `test(`. */
  lemma NonTestSlice(c: string) returns (i: nat, j: nat)
    ensures var first := SubIndex(c, "test(");
      i <= j <= (if first == -1 then |c| else first) && NonTest(c) == c[i..j]
  {
    var first := SubIndex(c, "test(");
    if first == -1 {
      i, j := TrimSpec(c);
    } else {
      i, j := TrimPrefix(c, first);
    }
  }

  lemma TrimPrefix(c: string, n: nat) returns (i: nat, j: nat)
    requires n <= |c|
    ensures i <= j <= n && Trim(c[..n]) == c[i..j]
  {
    var pre := c[..n];
    i, j := TrimSpec(pre);
    assert pre[i..j] == c[i..j];
  }

  /** A slice of a text holds no occurrence of `pat` that the text does
      not hold within the slice's bounds. */
  lemma NoOccurrenceInSlice(c: string, pat: string, i: nat, j: nat)
    requires i <= j <= |c|
    requires forall k :: i <= k && k + |pat| <= j ==> !OccursAt(c, pat, k)
    ensures !HasSub(c[i..j], pat)
  {
    var s := c[i..j];
    forall k | 0 <= k <= |s| && OccursAt(s, pat, k) ensures false {
      forall m | 0 <= m < |pat| ensures c[i + k..i + k + |pat|][m] == pat[m] {
        assert s[k..k + |pat|][m] == s[k + m];
      }
      assert c[i + k..i + k + |pat|] == pat;
      assert OccursAt(c, pat, i + k);
    }
    HasSubIff(s, pat);
  }

  /** The preamble never contains a `test(` of its own. */
  lemma NonTestHasNoMarker(c: string)
    ensures !HasSub(NonTest(c), "test(")
  {
    var first := SubIndex(c, "test(");
    var i, j := NonTestSlice(c);
    forall k | i <= k && k + 5 <= j ensures !OccursAt(c, "test(", k) {
    }
    NoOccurrenceInSlice(c, "test(", i, j);
  }

  /* ---------------------------------------------------------------- */
  /* getTextFromExtractedTest                                           */
  /* ---------------------------------------------------------------- */

  function Clamp(x: int, n: nat): nat
  {
    if x < 0 then 0 else if x > n then n else x
  }

  /** `String.prototype.substring`: both ends are clamped into the string
      and swapped when the start lies after the end. */
  function Substring(s: string, a: int, b: int): (r: string)
    ensures |r| <= |s|
  {
    var x := Clamp(a, |s|);
    var y := Clamp(b, |s|);
    if x <= y then s[x..y] else s[y..x]
  }

  /** `line.substring(k)` for a non-negative `k`. */
  function DropPrefix(line: string, k: nat): string
  {
    if k >= |line| then [] else line[k..]
  }

  /** Removes `k` leading characters from every line. */
  function Dedent(raw: string, k: nat): (r: string)
  {
    Join(Map((l: string) => DropPrefix(l, k), Split(raw, '\n')), '\n')
  }

  /** Dedenting keeps the number of lines and shortens each line by `k`
      characters (or empties it); dedenting by zero changes nothing. */
  lemma DedentSpec(raw: string, k: nat)
    ensures var lines := Split(Dedent(raw, k), '\n');
      |lines| == |Split(raw, '\n')|
      && forall i :: 0 <= i < |lines| ==> lines[i] == DropPrefix(Split(raw, '\n')[i], k)
    ensures k == 0 ==> Dedent(raw, k) == raw
  {
    var ls := Map((l: string) => DropPrefix(l, k), Split(raw, '\n'));
    forall i | 0 <= i < |ls| ensures '\n' !in ls[i] {
      assert '\n' !in Split(raw, '\n')[i];
    }
    SplitJoin(ls, '\n');
    if k == 0 {
      assert ls == Split(raw, '\n');
      JoinSplit(raw, '\n');
    }
  }

  /** The length of the text's leading white space (`/^\s*\/` matches
      newlines too). */
  function LeadingSpace(s: string): (n: nat)
    ensures n <= |s|
    ensures forall k :: 0 <= k < n ==> IsSpace(s[k])
    ensures n < |s| ==> !IsSpace(s[n])
  {
    if |s| == 0 || !IsSpace(s[0]) then 0 else 1 + LeadingSpace(s[1..])
  }

  /** The indentation as the source computes it: an empty match is falsy
      and is replaced by a one-character string, so a body that starts with
      a non-space character is treated as indented by one. */
  function IndentAsWritten(raw: string): nat
  {
    var n := LeadingSpace(raw);
    if n == 0 then 1 else n
  }

  /** `getTextFromExtractedTest` as written. */
  function TextAsWritten(c: string, t: Extracted): string
  {
    var raw := Substring(c, t.start, t.end);
    Dedent(raw, IndentAsWritten(raw))
  }

  /** The dedent the fallback evidently means: the first line's own
      indentation, zero when it has none. */
  function Indent(raw: string): (n: nat)
    ensures n <= |raw|
  {
    LeadingSpace(raw)
  }

  function Text(c: string, t: Extracted): string
  {
    var raw := Substring(c, t.start, t.end);
    Dedent(raw, Indent(raw))
  }

  /** A body written on the brace's own line, `function(){x();}`, loses its
      first character. */
  lemma TextAsWrittenDropsCharacter()
    ensures TextAsWritten("function(){x();}", Extracted("t", 11, 15)) == "();"
  {
    var raw := "x();";
    var f := (l: string) => DropPrefix(l, 1);
    BodySlice();
    assert LeadingSpace(raw) == 0;
    assert IndentAsWritten(raw) == 1;
    assert '\n' !in raw;
    SplitNoSeparator(raw, '\n');
    assert DropPrefix(raw, 1) == raw[1..] == "();";
    assert Map(f, [raw]) == [f(raw)] == ["();"];
    assert Join(["();"], '\n') == "();";
  }

  lemma BodySlice()
    ensures Substring("function(){x();}", 11, 15) == "x();"
  {
    var c := "function(){x();}";
    assert Clamp(11, |c|) == 11 && Clamp(15, |c|) == 15;
    assert c[11..15] == "x();";
  }

  /** With the corrected indentation, a body without leading white space is
      kept verbatim, and the first line always loses exactly its leading
      white space and never more. */
  lemma TextKeepsUnindented(c: string, t: Extracted)
    ensures var raw := Substring(c, t.start, t.end);
      LeadingSpace(raw) == 0 ==> Text(c, t) == raw
    ensures var raw := Substring(c, t.start, t.end);
      Split(Text(c, t), '\n')[0] == DropPrefix(Split(raw, '\n')[0], LeadingSpace(raw))
  {
    var raw := Substring(c, t.start, t.end);
    DedentSpec(raw, Indent(raw));
  }

  /* ---------------------------------------------------------------- */
  /* extractTestsFromFile                                               */
  /* ---------------------------------------------------------------- */

  datatype TestCase = TestCase(name: string, code: string)

  /** The pure part of `extractTestsFromFile` (the file's text is a
      parameter): one case per extracted test, in order, each being the
      shared preamble, a newline and the dedented body. */
  function ExtractTests(c: string): (r: seq<TestCase>)
    ensures |r| == |ParseTests(c)|
    ensures forall i :: 0 <= i < |r| ==>
      r[i].name == ParseTests(c)[i].name
      && r[i].code == NonTest(c) + "\n" + Text(c, ParseTests(c)[i])
  {
    var ts := ParseTests(c);
    seq(|ts|, i requires 0 <= i < |ts| => TestCase(ts[i].name, NonTest(c) + "\n" + Text(c, ts[i])))
  }

  /** Every generated test begins with the whole preamble, and a body that
      was written without indentation follows it verbatim. */
  lemma ExtractTestsSpec(c: string, i: nat)
    requires i < |ExtractTests(c)|
    ensures var code := ExtractTests(c)[i].code;
      var nt := NonTest(c);
      |code| > |nt| && code[..|nt|] == nt && code[|nt|] == '\n'
    ensures var t := ParseTests(c)[i];
      var raw := Substring(c, t.start, t.end);
      LeadingSpace(raw) == 0 ==> ExtractTests(c)[i].code == NonTest(c) + "\n" + raw
  {
    var t := ParseTests(c)[i];
    var nt := NonTest(c);
    var body := Text(c, t);
    assert ExtractTests(c)[i].code == nt + "\n" + body;
    PreambleFirst(nt, body);
    TextKeepsUnindented(c, t);
  }

  lemma PreambleFirst(nt: string, body: string)
    ensures var code := nt + "\n" + body;
      |code| > |nt| && code[..|nt|] == nt && code[|nt|] == '\n'
  {
    var code := nt + "\n" + body;
    assert code[..|nt|] == nt;
  }
}
