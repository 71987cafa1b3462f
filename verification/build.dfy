/** Post-processing of emitted files (`btc/src/core/build.ts`): which
    compiler outputs go through Babel, the `@xml-init` and `@html`
    envelopes, the decoding of `\uXXXX` escapes and the byte order mark.
    JavaScript strings are sequences of UTF-16 code units, so file contents
    are `Text`, a sequence of units; file names are plain strings. */
module Build {
  import opened Base

  /** A UTF-16 code unit. */
  type Unit = n: int | 0 <= n < 0x1_0000

  type Text = seq<Unit>

  /** The units of a string literal of the source (all below U+10000). */
  function Units(s: string): (r: Text)
    requires forall i :: 0 <= i < |s| ==> s[i] as int < 0x1_0000
    ensures |r| == |s| && forall i :: 0 <= i < |s| ==> r[i] == s[i] as int
  {
    seq(|s|, i requires 0 <= i < |s| => s[i] as int as Unit)
  }

  const Backslash: Unit := 0x5C
  const LowerU: Unit := 0x75
  const Newline: Unit := 0x0A
  const Bom: Unit := 0xFEFF

  predicate HasSuffix<T(==)>(s: seq<T>, suffix: seq<T>)
  {
    |suffix| <= |s| && s[|s| - |suffix|..] == suffix
  }

  /* ---------------------------------------------------------------- */
  /* Capturing the compiler's outputs (lines 29-35)                     */
  /* ---------------------------------------------------------------- */

  /** An output file: its name and its text. */
  datatype Emitted = Emitted(fileName: string, code: Text)

  /** The outputs kept in memory for Babel: `.js`, `.jsx` and `.mjs`. */
  predicate Captured(fileName: string)
  {
    HasSuffix(fileName, ".js") || HasSuffix(fileName, ".jsx") || HasSuffix(fileName, ".mjs")
  }

  /** The overridden `writeFile`: captured outputs are collected in order,
      every other output is written through unchanged. */
  function Route(outs: seq<Emitted>): (r: (seq<Emitted>, seq<Emitted>))
    ensures forall i :: 0 <= i < |r.0| ==> Captured(r.0[i].fileName)
    ensures forall i :: 0 <= i < |r.1| ==> !Captured(r.1[i].fileName)
    ensures multiset(r.0) + multiset(r.1) == multiset(outs)
  {
    if |outs| == 0 then ([], [])
    else
      var (c, w) := Route(outs[..|outs| - 1]);
      var o := outs[|outs| - 1];
      assert outs == outs[..|outs| - 1] + [o];
      if Captured(o.fileName) then (c + [o], w) else (c, w + [o])
  }

  /** Routing keeps the order within each group. */
  lemma {:induction false} RouteAppend(a: seq<Emitted>, b: seq<Emitted>)
    ensures Route(a + b).0 == Route(a).0 + Route(b).0
    ensures Route(a + b).1 == Route(a).1 + Route(b).1
    decreases |b|
  {
    if |b| == 0 {
      assert a + b == a;
    } else {
      var n := |b| - 1;
      assert (a + b)[..|a + b| - 1] == a + b[..n];
      assert (a + b)[|a + b| - 1] == b[n];
      RouteAppend(a, b[..n]);
    }
  }

  /* ---------------------------------------------------------------- */
  /* Renaming (lines 113 and 119)                                       */
  /* ---------------------------------------------------------------- */

  /** `s.replace(pat, rep)` with a string pattern: only the first
      occurrence is replaced. */
  function ReplaceFirst(s: string, pat: string, rep: string): (r: string)
    ensures !HasSub(s, pat) ==> r == s
    ensures HasSub(s, pat) ==>
      var k := SubIndex(s, pat);
      r == s[..k] + rep + s[k + |pat|..] && forall j :: 0 <= j < k ==> !OccursAt(s, pat, j)
  {
    var k := SubIndex(s, pat);
    if k == -1 then s else s[..k] + rep + s[k + |pat|..]
  }

  /** The renaming as written: the first `.js` anywhere in the path. */
  function RenameAsWritten(fileName: string, ext: string): string
  {
    ReplaceFirst(fileName, ".js", ext)
  }

  /** The extension the output was captured for, or nothing. */
  function CapturedExt(fileName: string): (r: string)
    ensures r == "" <==> !Captured(fileName)
    ensures r != "" ==> HasSuffix(fileName, r)
  {
    if HasSuffix(fileName, ".js") then ".js"
    else if HasSuffix(fileName, ".jsx") then ".jsx"
    else if HasSuffix(fileName, ".mjs") then ".mjs"
    else ""
  }

  /** The renaming as intended: the captured extension at the end of the
      name is replaced; the directories and the rest of the name are kept. */
  function Rename(fileName: string, ext: string): (r: string)
    ensures !Captured(fileName) ==> r == fileName
    ensures Captured(fileName) ==>
      var stem := |fileName| - |CapturedExt(fileName)|;
      r == fileName[..stem] + ext && HasSuffix(r, ext) && r[..stem] == fileName[..stem]
  {
    var e := CapturedExt(fileName);
    if e == "" then fileName else fileName[..|fileName| - |e|] + ext
  }

  /** Both renamings agree when `.js` occurs in the name only as its
      extension, as in `dist/form.js`. */
  lemma RenameAgreesOnPlainNames(fileName: string, ext: string)
    requires HasSuffix(fileName, ".js")
    requires forall j :: 0 <= j < |fileName| - 3 ==> !OccursAt(fileName, ".js", j)
    ensures RenameAsWritten(fileName, ext) == Rename(fileName, ext)
  {
    var n := |fileName| - 3;
    assert OccursAt(fileName, ".js", n);
    var r := SubIndex(fileName, ".js");
    assert r != -1;
    assert r == n;
    assert fileName[n + 3..] == [];
    assert CapturedExt(fileName) == ".js";
    assert fileName[..n] + ext + fileName[n + 3..] == fileName[..n] + ext;
  }

  lemma NotOccursAt(s: string, pat: string, i: nat)
    requires |pat| > 0 && i < |s| && s[i] != pat[0]
    ensures !OccursAt(s, pat, i)
  {
    if i + |pat| <= |s| {
      assert s[i..i + |pat|][0] == s[i];
    }
  }

  /** The first `.js` of `d.js/f.js` starts at index 1. */
  lemma DirectoryNameIndex()
    ensures SubIndex("d.js/f.js", ".js") == 1
  {
    var a := "d.js/f.js";
    NotOccursAt(a, ".js", 0);
    assert a[1..4] == ".js";
    assert SubIndexFrom(a, ".js", 1) == 1;
  }

  /** The renaming as written edits a directory named like a script. */
  lemma RenameAsWrittenEditsDirectory()
    ensures RenameAsWritten("d.js/f.js", ".xml") == "d.xml/f.js"
    ensures Rename("d.js/f.js", ".xml") == "d.js/f.xml"
  {
    DirectoryRenamedAsWritten();
    DirectoryKeptByRename();
  }

  lemma DirectoryRenamedAsWritten()
    ensures RenameAsWritten("d.js/f.js", ".xml") == "d.xml/f.js"
  {
    var a := "d.js/f.js";
    DirectoryNameIndex();
    assert HasSub(a, ".js");
    assert a[..1] == "d" && a[4..] == "/f.js";
  }

  lemma DirectoryKeptByRename()
    ensures Rename("d.js/f.js", ".xml") == "d.js/f.xml"
  {
    var a := "d.js/f.js";
    assert a[6..] == ".js";
    assert CapturedExt(a) == ".js";
    assert a[..6] == "d.js/f";
  }

  /** The first `.js` of `f.jsx` starts at index 1. */
  lemma ScriptNameIndex()
    ensures SubIndex("f.jsx", ".js") == 1
  {
    var b := "f.jsx";
    NotOccursAt(b, ".js", 0);
    assert b[1..4] == ".js";
    assert SubIndexFrom(b, ".js", 1) == 1;
  }

  /** The renaming as written turns `.jsx` into `.xmlx`. */
  lemma RenameAsWrittenKeepsX()
    ensures RenameAsWritten("f.jsx", ".xml") == "f.xmlx"
    ensures Rename("f.jsx", ".xml") == "f.xml"
  {
    ScriptRenamedAsWritten();
    ScriptRenamed();
  }

  lemma ScriptRenamedAsWritten()
    ensures RenameAsWritten("f.jsx", ".xml") == "f.xmlx"
  {
    var b := "f.jsx";
    ScriptNameIndex();
    assert HasSub(b, ".js");
    assert b[..1] == "f" && b[4..] == "x";
  }

  lemma ScriptRenamed()
    ensures Rename("f.jsx", ".xml") == "f.xml"
  {
    var b := "f.jsx";
    assert b[2..] != ".js" by { assert b[2..][0] == 'j'; }
    assert b[1..] == ".jsx";
    assert CapturedExt(b) == ".jsx";
    assert b[..1] == "f";
  }

  /* ---------------------------------------------------------------- */
  /* The envelopes (lines 110-120)                                      */
  /* ---------------------------------------------------------------- */

  const XmlInitMark := Units("/// @xml-init")
  const HtmlMark := Units("/// @html")
  const XmlDecl := Units("<?xml version=\"1.0\" encoding=\"UTF-8\"?>\n")
  const FormOpen := Units("<SPXML-INLINE-FORM>\n")
  const OnInitOpen := Units("\t<OnInit PROPERTY=\"1\" EXPR=\"\n")
  const XmlOpen := XmlDecl + FormOpen + OnInitOpen
  const XmlClose := Units("\n\t\"/>\n</SPXML-INLINE-FORM>")
  const Indent := Units("\t\t")
  const HtmlOpen := Units("<%\n")
  const HtmlClose := Units("\n%>")

  function IndentLine(l: Text): Text
  {
    Indent + l
  }

  /** The `@xml-init` envelope: every line indented by two tabs inside the
      `OnInit` attribute of an inline form. */
  function XmlInitWrap(code: Text): Text
  {
    XmlOpen + Join(Map(IndentLine, Split(code, Newline)), Newline) + XmlClose
  }

  function HtmlWrap(code: Text): Text
  {
    HtmlOpen + code + HtmlClose
  }

  /** Takes the envelope off again: the text between the markers, with two
      leading units removed from every line. */
  function XmlInitUnwrap(w: Text): Text
    requires |w| >= |XmlOpen| + |XmlClose|
  {
    var body := w[|XmlOpen|..|w| - |XmlClose|];
    Join(Map((l: Text) => if |l| >= 2 then l[2..] else l, Split(body, Newline)), Newline)
  }

  /** The envelope loses nothing: unwrapping gives back the code. */
  lemma XmlInitRoundTrip(code: Text)
    ensures |XmlInitWrap(code)| >= |XmlOpen| + |XmlClose|
    ensures XmlInitUnwrap(XmlInitWrap(code)) == code
  {
    var lines := Split(code, Newline);
    var indented := Map(IndentLine, lines);
    var body := Join(indented, Newline);
    var w := XmlInitWrap(code);
    assert w == XmlOpen + body + XmlClose;
    assert w[|XmlOpen|..|w| - |XmlClose|] == body;
    forall i | 0 <= i < |indented| ensures Newline !in indented[i] {
      assert Newline !in lines[i];
      assert indented[i] == IndentLine(lines[i]);
      assert Newline !in Indent;
    }
    SplitJoin(indented, Newline);
    var back := Map((l: Text) => if |l| >= 2 then l[2..] else l, indented);
    forall i | 0 <= i < |lines| ensures back[i] == lines[i] {
      assert indented[i] == IndentLine(lines[i]);
      assert indented[i] == Indent + lines[i];
    }
    assert back == lines;
    JoinSplit(code, Newline);
  }

  /* ---------------------------------------------------------------- */
  /* Decoding `\uXXXX` escapes (lines 122-127)                          */
  /* ---------------------------------------------------------------- */

  predicate IsHexUnit(x: Unit)
  {
    (0x30 <= x <= 0x39) || (0x41 <= x <= 0x46) || (0x61 <= x <= 0x66)
  }

  function HexValue(x: Unit): (v: nat)
    requires IsHexUnit(x)
    ensures v < 16
  {
    if x <= 0x39 then x - 0x30 else if x <= 0x46 then x - 0x41 + 10 else x - 0x61 + 10
  }

  /** A backslash, `u` and four hex digits start at `k`. */
  predicate EscapeAt(c: Text, k: nat)
  {
    k + 6 <= |c| && c[k] == Backslash && c[k + 1] == LowerU
    && IsHexUnit(c[k + 2]) && IsHexUnit(c[k + 3]) && IsHexUnit(c[k + 4]) && IsHexUnit(c[k + 5])
  }

  /** `parseInt(digits, 16)` of the four digits. */
  function EscapeValue(c: Text, k: nat): Unit
    requires EscapeAt(c, k)
  {
    var a := HexValue(c[k + 2]) * 16 + HexValue(c[k + 3]);
    assert a < 256;
    var b := a * 16 + HexValue(c[k + 4]);
    assert b < 4096;
    b * 16 + HexValue(c[k + 5])
  }

  /** The replacement as written: every match of `\\u[\dA-Fa-f]{4}`, left
      to right without overlap, becomes the unit it names. */
  function DecodeAsWritten(c: Text): Text
    decreases |c|
  {
    if |c| == 0 then []
    else if EscapeAt(c, 0) then [EscapeValue(c, 0)] + DecodeAsWritten(c[6..])
    else [c[0]] + DecodeAsWritten(c[1..])
  }

  /** The decoding as intended: an escaped backslash is left alone, and
      only escapes of non-ASCII units are decoded. */
  function Decode(c: Text): Text
    decreases |c|
  {
    if |c| == 0 then []
    else if |c| >= 2 && c[0] == Backslash && c[1] == Backslash then [Backslash, Backslash] + Decode(c[2..])
    else if EscapeAt(c, 0) && EscapeValue(c, 0) >= 0x80 then [EscapeValue(c, 0)] + Decode(c[6..])
    else [c[0]] + Decode(c[1..])
  }

  /* How a code generator writes the contents of a string literal: a
     backslash doubled, a non-ASCII unit as `\u` and four hex digits. */

  function HexDigit(d: nat): (u: Unit)
    requires d < 16
    ensures IsHexUnit(u) && HexValue(u) == d
  {
    if d < 10 then 0x30 + d else 0x61 + d - 10
  }

  /** The four hex digits of a unit, most significant first. */
  function Hex4(u: Unit): Text
  {
    var q1 := u / 16;
    var q2 := q1 / 16;
    assert q1 < 4096 && q2 < 256;
    [HexDigit(q2 / 16), HexDigit(q2 % 16), HexDigit(q1 % 16), HexDigit(u % 16)]
  }

  function EscapeUnit(u: Unit): Text
  {
    if u == Backslash then [Backslash, Backslash]
    else if u >= 0x80 then [Backslash, LowerU] + Hex4(u)
    else [u]
  }

  function Escape(s: Text): Text
  {
    if |s| == 0 then [] else EscapeUnit(s[0]) + Escape(s[1..])
  }

  /** The literal with only its backslashes escaped: the same string value
      with the non-ASCII units written out. */
  function KeepBackslashes(s: Text): Text
  {
    if |s| == 0 then []
    else (if s[0] == Backslash then [Backslash, Backslash] else [s[0]]) + KeepBackslashes(s[1..])
  }

  lemma HexRoundTrip(u: Unit)
    ensures EscapeAt([Backslash, LowerU] + Hex4(u), 0)
    ensures EscapeValue([Backslash, LowerU] + Hex4(u), 0) == u
  {
    var q1 := u / 16;
    var q2 := q1 / 16;
    assert u == q1 * 16 + u % 16;
    assert q1 == q2 * 16 + q1 % 16;
    assert q2 == q2 / 16 * 16 + q2 % 16;
  }

  /** Undoing the generator's escapes: the decoded text denotes the same
      string, with every non-ASCII unit written out and every backslash
      still escaped. */
  lemma {:induction false} DecodeUndoesEscape(s: Text)
    ensures Decode(Escape(s)) == KeepBackslashes(s)
  {
    if |s| > 0 {
      var u := s[0];
      var rest := Escape(s[1..]);
      var c := EscapeUnit(u) + rest;
      DecodeUndoesEscape(s[1..]);
      if u == Backslash {
        assert c[2..] == rest;
      } else if u >= 0x80 {
        HexRoundTrip(u);
        var e := [Backslash, LowerU] + Hex4(u);
        assert c[..6] == e;
        assert c[6..] == rest;
        assert EscapeAt(c, 0) && EscapeValue(c, 0) == EscapeValue(e, 0);
      } else {
        assert c[1..] == rest;
      }
    }
  }

  /** The replacement as written undoes the escapes of a literal without
      backslashes. */
  lemma {:induction false} DecodeAsWrittenUndoesEscape(s: Text)
    requires Backslash !in s
    ensures DecodeAsWritten(Escape(s)) == s
  {
    if |s| > 0 {
      var u := s[0];
      var rest := Escape(s[1..]);
      var c := EscapeUnit(u) + rest;
      DecodeAsWrittenUndoesEscape(s[1..]);
      if u >= 0x80 {
        HexRoundTrip(u);
        var e := [Backslash, LowerU] + Hex4(u);
        assert c[..6] == e;
        assert c[6..] == rest;
        assert EscapeAt(c, 0) && EscapeValue(c, 0) == EscapeValue(e, 0);
      } else {
        assert c[1..] == rest;
      }
      assert s == [u] + s[1..];
    }
  }

  /** A literal holding a backslash followed by `u0041` is written
      `\\u0041`; the replacement as written reads its second backslash as
      the start of an escape and leaves `\A`, which denotes `A`. The
      intended decoding leaves the text alone. */
  lemma DecodeAsWrittenBreaksEscapedBackslash()
    ensures var s: Text := [Backslash, LowerU, 0x30, 0x30, 0x34, 0x31];
      && Escape(s) == [Backslash, Backslash, LowerU, 0x30, 0x30, 0x34, 0x31]
      && DecodeAsWritten(Escape(s)) == [Backslash, 0x41]
      && Decode(Escape(s)) == Escape(s)
  {
    var s: Text := [Backslash, LowerU, 0x30, 0x30, 0x34, 0x31];
    var c := Escape(s);
    assert Escape(s[1..]) == s[1..] by {
      var t := s[1..];
      assert Escape(t) == [t[0]] + Escape(t[1..]);
      assert Escape(t[1..]) == [t[1]] + Escape(t[2..]);
      assert Escape(t[2..]) == [t[2]] + Escape(t[3..]);
      assert Escape(t[3..]) == [t[3]] + Escape(t[4..]);
      assert Escape(t[4..]) == [t[4]] + Escape(t[5..]);
      assert t[5..] == [];
    }
    assert c == [Backslash, Backslash] + s[1..];
    assert !EscapeAt(c, 0);
    assert DecodeAsWritten(c) == [Backslash] + DecodeAsWritten(c[1..]);
    assert EscapeAt(c[1..], 0) && EscapeValue(c[1..], 0) == 0x41;
    assert c[1..][6..] == [];
    assert DecodeAsWritten(c[1..]) == [EscapeValue(c[1..], 0)] + DecodeAsWritten(c[1..][6..]);
    DecodeUndoesEscape(s);
    assert KeepBackslashes(s) == [Backslash, Backslash] + KeepBackslashes(s[1..]);
    var t := s[1..];
    assert KeepBackslashes(t) == [t[0]] + KeepBackslashes(t[1..]);
    assert KeepBackslashes(t[1..]) == [t[1]] + KeepBackslashes(t[2..]);
    assert KeepBackslashes(t[2..]) == [t[2]] + KeepBackslashes(t[3..]);
    assert KeepBackslashes(t[3..]) == [t[3]] + KeepBackslashes(t[4..]);
    assert KeepBackslashes(t[4..]) == [t[4]] + KeepBackslashes(t[5..]);
    assert t[5..] == [];
  }

  /** Decoding as written changes the text exactly when it holds an
      escape: each decoded escape shortens it by five units. */
  lemma {:induction false} DecodeAsWrittenChanges(c: Text)
    ensures |DecodeAsWritten(c)| <= |c|
    ensures DecodeAsWritten(c) == c <==> forall k :: 0 <= k < |c| ==> !EscapeAt(c, k)
    decreases |c|
  {
    if |c| > 0 {
      if EscapeAt(c, 0) {
        DecodeAsWrittenChanges(c[6..]);
      } else {
        var t := c[1..];
        DecodeAsWrittenChanges(t);
        forall k | 0 <= k < |t| ensures EscapeAt(t, k) <==> EscapeAt(c, k + 1) {
          ShiftEscape(c, 1, k);
        }
        if DecodeAsWritten(c) == c {
          assert DecodeAsWritten(t) == t;
          forall k | 0 <= k < |c| ensures !EscapeAt(c, k) {
            if k > 0 { assert !EscapeAt(t, k - 1); }
          }
        }
        if forall k :: 0 <= k < |c| ==> !EscapeAt(c, k) {
          assert forall k :: 0 <= k < |t| ==> !EscapeAt(t, k);
          assert c == [c[0]] + t;
        }
      }
    }
  }

  lemma ShiftEscape(c: Text, j: nat, k: nat)
    requires j <= |c|
    ensures EscapeAt(c[j..], k) <==> EscapeAt(c, j + k)
  {
    if k + 6 <= |c| - j {
      assert c[j..][k] == c[j + k] && c[j..][k + 1] == c[j + k + 1];
      assert c[j..][k + 2] == c[j + k + 2] && c[j..][k + 3] == c[j + k + 3];
      assert c[j..][k + 4] == c[j + k + 4] && c[j..][k + 5] == c[j + k + 5];
    }
  }

  /** `\u0022` names `"`: decoding it as written puts a bare quote into a
      string literal. The intended decoding leaves ASCII escapes alone. */
  lemma DecodeAsWrittenMakesQuote()
    ensures var c: Text := [Backslash, LowerU, 0x30, 0x30, 0x32, 0x32];
      DecodeAsWritten(c) == [0x22] && Decode(c) == c
  {
    var c: Text := [Backslash, LowerU, 0x30, 0x30, 0x32, 0x32];
    assert EscapeAt(c, 0) && EscapeValue(c, 0) == 0x22;
    assert c[6..] == [];
    assert Decode(c) == [c[0]] + Decode(c[1..]);
    var t := c[1..];
    assert !EscapeAt(t, 0) && t[0] != Backslash;
    assert Decode(t) == [t[0]] + Decode(t[1..]);
    assert Decode(t[1..]) == [t[1]] + Decode(t[2..]);
    assert Decode(t[2..]) == [t[2]] + Decode(t[3..]);
    assert Decode(t[3..]) == [t[3]] + Decode(t[4..]);
    assert Decode(t[4..]) == [t[4]] + Decode(t[5..]);
    assert t[5..] == [];
  }

  /* ---------------------------------------------------------------- */
  /* The whole post-processing (lines 106-132)                          */
  /* ---------------------------------------------------------------- */

  /** What is written for one file Babel transformed into `code`:
      `retainNonAscii` is the `retainNonAsciiCharacters` option being
      exactly `true`. */
  function PostProcess(fileName: string, code: Text, retainNonAscii: bool): (r: Emitted)
    ensures |r.code| >= 1 && r.code[0] == Bom
  {
    var x := if HasSub(code, XmlInitMark) then Emitted(Rename(fileName, ".xml"), XmlInitWrap(code))
             else Emitted(fileName, code);
    var h := if HasSub(x.code, HtmlMark) then Emitted(Rename(x.fileName, ".html"), HtmlWrap(x.code)) else x;
    Emitted(h.fileName, [Bom] + (if retainNonAscii then h.code else Decode(h.code)))
  }

  /** Plain code (no marker, nothing to decode) is written with only the
      byte order mark in front; an `@xml-init` file without `@html` is the
      envelope, and its code is recovered by unwrapping. */
  lemma PostProcessSpec(fileName: string, code: Text)
    ensures !HasSub(code, XmlInitMark) && !HasSub(code, HtmlMark) ==>
      PostProcess(fileName, code, true) == Emitted(fileName, [Bom] + code)
    ensures HasSub(code, XmlInitMark) && !HasSub(XmlInitWrap(code), HtmlMark) ==>
      var r := PostProcess(fileName, code, true);
      && r.fileName == Rename(fileName, ".xml")
      && r.code[1..] == XmlInitWrap(code)
      && XmlInitUnwrap(r.code[1..]) == code
  {
    if HasSub(code, XmlInitMark) {
      XmlInitRoundTrip(code);
    }
  }

  /** The `@html` envelope holds the code between its markers. */
  lemma HtmlWrapSpec(fileName: string, code: Text)
    requires !HasSub(code, XmlInitMark) && HasSub(code, HtmlMark)
    ensures var r := PostProcess(fileName, code, true);
      && r.fileName == Rename(fileName, ".html")
      && r.code == [Bom] + HtmlOpen + code + HtmlClose
      && r.code[1 + |HtmlOpen|..|r.code| - |HtmlClose|] == code
  {
    var r := PostProcess(fileName, code, true);
    assert r.code == [Bom] + HtmlOpen + code + HtmlClose;
  }

  /** `buildTypescriptFiles` after the emit: each captured file Babel turns
      into non-empty code is post-processed; a file Babel fails on or turns
      into nothing is skipped. Babel is a parameter. */
  function ProcessCaptured(captured: seq<Emitted>, babel: Text -> Option<Text>, retainNonAscii: bool): (r: seq<Emitted>)
    ensures |r| <= |captured|
    ensures forall i :: 0 <= i < |r| ==> |r[i].code| >= 1 && r[i].code[0] == Bom
  {
    if |captured| == 0 then []
    else
      var rest := ProcessCaptured(captured[..|captured| - 1], babel, retainNonAscii);
      var f := captured[|captured| - 1];
      match babel(f.code)
      case None => rest
      case Some(code) => if |code| == 0 then rest else rest + [PostProcess(f.fileName, code, retainNonAscii)]
  }

  /** Every output the compiler produces is either written through as it
      is or, for a script that Babel handles, written once processed. */
  lemma {:induction false} ProcessCapturedAll(captured: seq<Emitted>, babel: Text -> Option<Text>, retainNonAscii: bool)
    requires forall i :: 0 <= i < |captured| ==> babel(captured[i].code).Some? && |babel(captured[i].code).value| > 0
    ensures var r := ProcessCaptured(captured, babel, retainNonAscii);
      |r| == |captured|
      && forall i :: 0 <= i < |r| ==> r[i] == PostProcess(captured[i].fileName, babel(captured[i].code).value, retainNonAscii)
  {
    if |captured| > 0 {
      var init, f := captured[..|captured| - 1], captured[|captured| - 1];
      assert forall i :: 0 <= i < |init| ==> init[i] == captured[i];
      ProcessCapturedAll(init, babel, retainNonAscii);
      var rest := ProcessCaptured(init, babel, retainNonAscii);
      assert ProcessCaptured(captured, babel, retainNonAscii)
          == rest + [PostProcess(f.fileName, babel(f.code).value, retainNonAscii)];
    }
  }
}
