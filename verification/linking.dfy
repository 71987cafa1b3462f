/** Linking (`btc/src/core/linking.ts`): reading the linking fields of a
    package description and writing the `api_ext.xml` file that lists, per
    linked package, its name and its library paths. `path.posix.normalize`
    is a parameter. */
module Linking {
  import opened Base
  import opened PackageJson
  import Dependencies

  /** What `parseWsPackageInfo` returns: the linking information of one
      package. `name` is `ws:apiext.name` as found; `libs` are the
      rewritten library URLs. */
  datatype WsPackageInfo = WsPackageInfo(projectPath: string, root: string, rootUrl: string, name: Field, libs: seq<string>)

  /** The information together with the package description as it is left
      afterwards: the function writes the rewritten `libs` back into the
      `ws:apiext` object it was given. */
  datatype Parsed = Parsed(info: WsPackageInfo, updated: Json)

  const UrlScheme := "x-local://"

  /** `typeof lib === 'string'` for every library entry. */
  predicate AllStrings(items: seq<Json>)
  {
    forall i :: 0 <= i < |items| ==> items[i].JStr?
  }

  /** The libraries of a package that passed the linking test. */
  function LibsOf(pkg: Json): seq<Json>
    requires IsWsPackage(pkg) == Returns(true)
  {
    Get(Get(pkg, "ws:apiext").v, "libs").v.items
  }

  /** `parseWsPackageInfo` (lines 69-85). `None` is the source's `null`.
      `path.posix.normalize` rejects a non-string argument with a
      `TypeError`, so a non-string library entry makes the call throw. */
  function ParseWsPackageInfo(pkg: Json, projectPath: string, normalize: string -> string): (r: Outcome<Option<Parsed>>)
    ensures r == Returns(None) <==> IsWsPackage(pkg) == Returns(false)
    ensures r == Throws <==> IsWsPackage(pkg) == Throws || (IsWsPackage(pkg) == Returns(true) && !AllStrings(LibsOf(pkg)))
    ensures r.Returns? && r.value.Some? ==>
      var info := r.value.value.info;
      var libs := LibsOf(pkg);
      && Get(pkg, "ws:root") == Present(JStr(info.root))
      && info.projectPath == projectPath
      && info.name == Get(Get(pkg, "ws:apiext").v, "name")
      && info.rootUrl == UrlScheme + normalize(info.root)
      && |info.libs| == |libs|
      && forall i :: 0 <= i < |libs| ==> info.libs[i] == info.rootUrl + "/" + normalize(libs[i].s)
  {
    match IsWsPackage(pkg)
    case Throws => Throws
    case Returns(false) => Returns(None)
    case Returns(true) =>
      var libs := LibsOf(pkg);
      if !AllStrings(libs) then Throws
      else
        var root := Get(pkg, "ws:root").v.s;
        var apiext := Get(pkg, "ws:apiext").v;
        var rootUrl := UrlScheme + normalize(root);
        var newLibs := seq(|libs|, i requires 0 <= i < |libs| => rootUrl + "/" + normalize(libs[i].s));
        var apiext' := JObj(apiext.fields["libs" := JArr(seq(|newLibs|, i requires 0 <= i < |newLibs| => JStr(newLibs[i])))]);
        var updated := JObj(pkg.fields["ws:apiext" := apiext']);
        Returns(Some(Parsed(WsPackageInfo(projectPath, root, rootUrl, Get(apiext, "name"), newLibs), updated)))
  }

  /** The description is changed in one place only: `ws:apiext.libs` now
      holds the rewritten URLs; every other field, and every other field of
      `ws:apiext`, is as before. */
  lemma ParseRewritesLibsOnly(pkg: Json, projectPath: string, normalize: string -> string)
    requires ParseWsPackageInfo(pkg, projectPath, normalize).Returns?
    requires ParseWsPackageInfo(pkg, projectPath, normalize).value.Some?
    ensures var p := ParseWsPackageInfo(pkg, projectPath, normalize).value.value;
      && p.updated.JObj? && pkg.JObj?
      && p.updated.fields.Keys == pkg.fields.Keys
      && (forall k :: k in pkg.fields && k != "ws:apiext" ==> p.updated.fields[k] == pkg.fields[k])
      && var a := pkg.fields["ws:apiext"];
         var a' := p.updated.fields["ws:apiext"];
         && a.JObj? && a'.JObj?
         && a'.fields.Keys == a.fields.Keys
         && (forall k :: k in a.fields && k != "libs" ==> a'.fields[k] == a.fields[k])
         && a'.fields["libs"] == JArr(Map((l: string) => JStr(l), p.info.libs))
  {
  }

  /** Because of that write-back, reading the same description a second
      time prefixes the URLs again: the call is not idempotent. */
  lemma ParseTwicePrefixesAgain(pkg: Json, projectPath: string, normalize: string -> string)
    requires ParseWsPackageInfo(pkg, projectPath, normalize).Returns?
    requires ParseWsPackageInfo(pkg, projectPath, normalize).value.Some?
    ensures var p := ParseWsPackageInfo(pkg, projectPath, normalize).value.value;
      var q := ParseWsPackageInfo(p.updated, projectPath, normalize);
      && q.Returns? && q.value.Some?
      && |q.value.value.info.libs| == |p.info.libs|
      && forall i :: 0 <= i < |p.info.libs| ==>
           q.value.value.info.libs[i] == p.info.rootUrl + "/" + normalize(p.info.libs[i])
  {
    var p := ParseWsPackageInfo(pkg, projectPath, normalize).value.value;
    ParseRewritesLibsOnly(pkg, projectPath, normalize);
    assert Get(p.updated, "ws:root") == Get(pkg, "ws:root");
    assert IsWsPackage(p.updated) == Returns(true);
    assert LibsOf(p.updated) == Map((l: string) => JStr(l), p.info.libs);
  }

  /** `processLinking` reads every extracted dependency with a non-null
      assertion (line 38): the extraction test and the reading test are the
      same, so the reading of an extracted package is never `null`. */
  lemma ExtractedPackagesParse(nodes: seq<Dependencies.Node>, normalize: string -> string)
    requires Dependencies.ExtractWs(nodes).Returns?
    ensures forall n :: n in Dependencies.ExtractWs(nodes).value ==>
      ParseWsPackageInfo(n.packageJson, n.projectPath, normalize) != Returns(None)
  {
  }

  /* ---------------------------------------------------------------- */
  /* buildApiExt                                                        */
  /* ---------------------------------------------------------------- */

  /** One `<api>` entry: the package name as the template literal prints
      it and the library paths. */
  datatype Api = Api(name: string, libs: seq<string>)

  /** `String(v)` for the values a JSON document can hold (numbers are
      integers here). */
  function ShowJson(v: Json): string
  {
    match v
    case JNull => "null"
    case JBool(b) => if b then "true" else "false"
    case JNum(n) => if n < 0 then "-" + NatToString(-n) else NatToString(n)
    case JStr(s) => s
    case JArr(items) => ShowItems(v, items)
    case JObj(_) => "[object Object]"
  }

  /** `Array.prototype.toString`: the elements joined with commas, with
      `null` printed as nothing. */
  function ShowItems(v: Json, items: seq<Json>): string
    requires v.JArr? && items <= v.items
    decreases v, |items|
  {
    if |items| == 0 then ""
    else
      var last := items[|items| - 1];
      assert last in v.items;
      var shown := if last.JNull? then "" else ShowJson(last);
      var init := ShowItems(v, items[..|items| - 1]);
      if |items| == 1 then shown else init + "," + shown
  }

  /** A property interpolated into a template string, `undefined` when
      missing. */
  function Show(f: Field): string
  {
    if f.Present? then ShowJson(f.v) else "undefined"
  }

  function ApiOf(info: WsPackageInfo): Api
  {
    Api(Show(info.name), info.libs)
  }

  /* The pieces `buildApiExt` appends, one per source line. */
  const XmlDecl := "<?xml version=\"1.0\" encoding=\"utf-8\"?>\n"
  const ApiExtOpen := "<api_ext>\n"
  const ApisOpen := "\t<apis>\n"
  const ApiOpen := "\t\t<api>\n"
  const NameOpen := "\t\t\t<name>"
  const NameClose := "</name>\n"
  const LibOpen := "\t\t\t<lib>\n"
  const PathOpen := "\t\t\t\t<path>"
  const PathClose := "</path>\n"
  const LibClose := "\t\t\t</lib>\n"
  const ApiClose := "\t\t</api>\n"
  const ApisClose := "\t</apis>\n"
  const ApiExtClose := "</api_ext>\n"

  const Header := XmlDecl + ApiExtOpen + ApisOpen
  const Footer := ApisClose + ApiExtClose
  const ApiHead := ApiOpen + NameOpen
  const LibHead := LibOpen + PathOpen
  const LibTail := PathClose + LibClose

  function LibBlock(lib: string): string
  {
    LibHead + lib + LibTail
  }

  /** The `<lib>` entries of one package, in order. */
  function LibsText(libs: seq<string>): string
  {
    if |libs| == 0 then "" else LibBlock(libs[0]) + LibsText(libs[1..])
  }

  function ApiBlock(a: Api): string
  {
    ApiHead + a.name + NameClose + LibsText(a.libs) + ApiClose
  }

  /** The `<api>` entries, in order. */
  function ApisText(apis: seq<Api>): string
  {
    if |apis| == 0 then "" else ApiBlock(apis[0]) + ApisText(apis[1..])
  }

  /** The document `buildApiExt` writes. */
  function ApiExtXml(apis: seq<Api>): string
  {
    Header + ApisText(apis) + Footer
  }

  lemma {:induction false} LibsTextSnoc(libs: seq<string>, l: string)
    ensures LibsText(libs + [l]) == LibsText(libs) + LibBlock(l)
  {
    if |libs| > 0 {
      calc {
        LibsText(libs + [l]);
      == { DropSnoc(libs, l); }
        LibBlock(libs[0]) + LibsText(libs[1..] + [l]);
      == { LibsTextSnoc(libs[1..], l); }
        LibBlock(libs[0]) + (LibsText(libs[1..]) + LibBlock(l));
      == { Assoc3(LibBlock(libs[0]), LibsText(libs[1..]), LibBlock(l)); }
        LibsText(libs) + LibBlock(l);
      }
    } else {
      assert LibsText([l]) == LibBlock(l) + LibsText([]);
      AppendEmpty(LibBlock(l));
    }
  }

  lemma {:induction false} ApisTextSnoc(apis: seq<Api>, a: Api)
    ensures ApisText(apis + [a]) == ApisText(apis) + ApiBlock(a)
  {
    if |apis| > 0 {
      calc {
        ApisText(apis + [a]);
      == { DropSnoc(apis, a); }
        ApiBlock(apis[0]) + ApisText(apis[1..] + [a]);
      == { ApisTextSnoc(apis[1..], a); }
        ApiBlock(apis[0]) + (ApisText(apis[1..]) + ApiBlock(a));
      == { Assoc3(ApiBlock(apis[0]), ApisText(apis[1..]), ApiBlock(a)); }
        ApisText(apis) + ApiBlock(a);
      }
    } else {
      assert ApisText([a]) == ApiBlock(a) + ApisText([]);
      AppendEmpty(ApiBlock(a));
    }
  }

  /** The `<lib>` entries of one package, appended the way the inner
      `forEach` appends them. */
  method AppendLibs(xml: string, libs: seq<string>) returns (out: string)
    ensures out == xml + LibsText(libs)
  {
    out := xml;
    var j := 0;
    while j < |libs|
      invariant 0 <= j <= |libs|
      invariant out == xml + LibsText(libs[..j])
    {
      out := out + LibOpen;
      out := out + PathOpen + libs[j] + PathClose;
      out := out + LibClose;
      LibsTextSnoc(libs[..j], libs[j]);
      LibAppends(xml + LibsText(libs[..j]), libs[j]);
      Assoc3(xml, LibsText(libs[..j]), LibBlock(libs[j]));
      TakeSnoc(libs, j);
      j := j + 1;
    }
    TakeAll(libs);
  }

  /** The three appends of one `<lib>` entry. */
  lemma LibAppends(out: string, l: string)
    ensures out + LibOpen + (PathOpen + l + PathClose) + LibClose == out + LibBlock(l)
  {
    Regroup(out, LibOpen, PathOpen, l, PathClose, LibClose);
  }

  lemma Regroup<T>(o: seq<T>, a: seq<T>, b: seq<T>, l: seq<T>, c: seq<T>, d: seq<T>)
    ensures o + a + (b + l + c) + d == o + (a + b + l + (c + d))
  {
  }

  /** One package's `<api>` block, appended the way the outer `forEach`
      appends it. */
  method AppendApi(xml: string, a: Api) returns (out: string)
    ensures out == xml + ApiBlock(a)
  {
    out := xml + ApiOpen;
    out := out + NameOpen + a.name + NameClose;
    out := AppendLibs(out, a.libs);
    out := out + ApiClose;
  }

  /** `buildApiExt` (lines 87-111): string appends in a loop over the
      packages. The document is the header, one `<api>` block per package
      in the given order and the footer. */
  method BuildApiExt(apis: seq<Api>) returns (xml: string)
    ensures xml == ApiExtXml(apis)
  {
    xml := XmlDecl;
    xml := xml + ApiExtOpen;
    xml := xml + ApisOpen;
    var i := 0;
    while i < |apis|
      invariant 0 <= i <= |apis|
      invariant xml == Header + ApisText(apis[..i])
    {
      xml := AppendApi(xml, apis[i]);
      ApisTextSnoc(apis[..i], apis[i]);
      Assoc3(Header, ApisText(apis[..i]), ApiBlock(apis[i]));
      TakeSnoc(apis, i);
      i := i + 1;
    }
    TakeAll(apis);
    Assoc3(Header + ApisText(apis), ApisClose, ApiExtClose);
    xml := xml + ApisClose;
    xml := xml + ApiExtClose;
  }

  /* A reader for the document, to state what it holds. */

  predicate StartsWith(s: string, p: string)
  {
    |p| <= |s| && s[..|p|] == p
  }

  /** The text up to the first `<`, and what follows it. */
  function ReadUntilTag(s: string): (r: (string, string))
    ensures r.0 + r.1 == s && '<' !in r.0
    ensures |r.1| > 0 ==> r.1[0] == '<'
  {
    if |s| == 0 || s[0] == '<' then ("", s)
    else
      var rest := ReadUntilTag(s[1..]);
      ([s[0]] + rest.0, rest.1)
  }

  /** Reads `<lib>` entries; returns the paths and the remaining text. */
  function ReadLibs(s: string): (r: Option<(seq<string>, string)>)
    ensures r.Some? ==> |r.value.1| <= |s|
    decreases |s|
  {
    if !StartsWith(s, LibHead) then Some(([], s))
    else
      var (path, rest) := ReadUntilTag(s[|LibHead|..]);
      if !StartsWith(rest, LibTail) then None
      else
        match ReadLibs(rest[|LibTail|..])
        case None => None
        case Some((more, tail)) => Some(([path] + more, tail))
  }

  /** Reads `<api>` entries up to the footer. */
  function ReadApis(s: string): Option<seq<Api>>
    decreases |s|
  {
    if s == Footer then Some([])
    else if !StartsWith(s, ApiHead) then None
    else
      var (name, rest) := ReadUntilTag(s[|ApiHead|..]);
      if !StartsWith(rest, NameClose) then None
      else
        match ReadLibs(rest[|NameClose|..])
        case None => None
        case Some((libs, tail)) =>
          if !StartsWith(tail, ApiClose) then None
          else
            match ReadApis(tail[|ApiClose|..])
            case None => None
            case Some(more) => Some([Api(name, libs)] + more)
  }

  function ReadApiExt(xml: string): Option<seq<Api>>
  {
    if StartsWith(xml, Header) then ReadApis(xml[|Header|..]) else None
  }

  /** A text without `<` is read back up to the tag that follows it. */
  lemma {:induction false} ReadUntilTagSplits(x: string, y: string)
    requires '<' !in x && |y| > 0 && y[0] == '<'
    ensures ReadUntilTag(x + y) == (x, y)
  {
    if |x| > 0 {
      assert (x + y)[0] == x[0] && x[0] != '<';
      assert (x + y)[1..] == x[1..] + y;
      ReadUntilTagSplits(x[1..], y);
      assert [x[0]] + x[1..] == x;
    } else {
      assert x + y == y;
    }
  }

  lemma AfterPrefix(p: string, t: string)
    ensures StartsWith(p + t, p) && (p + t)[|p|..] == t
  {
  }

  predicate Untagged(s: string)
  {
    '<' !in s
  }

  /** One `<lib>` entry is read back in front of whatever follows it. */
  lemma ReadLibsCons(l: string, more: string)
    requires Untagged(l)
    ensures ReadLibs(LibBlock(l) + more)
            == match ReadLibs(more) case None => None case Some((ls, tail)) => Some(([l] + ls, tail))
  {
    var s := LibBlock(l) + more;
    assert s == LibHead + (l + (LibTail + more));
    AfterPrefix(LibHead, l + (LibTail + more));
    assert LibTail[0] == '<';
    ReadUntilTagSplits(l, LibTail + more);
    AfterPrefix(LibTail, more);
  }

  /** The `<lib>` entries are read back, and reading stops at the first
      text that is not one. */
  lemma {:induction false} ReadLibsText(libs: seq<string>, rest: string)
    requires forall i :: 0 <= i < |libs| ==> Untagged(libs[i])
    requires !StartsWith(rest, LibHead)
    ensures ReadLibs(LibsText(libs) + rest) == Some((libs, rest))
  {
    if |libs| == 0 {
      assert LibsText(libs) + rest == rest;
    } else {
      var l := libs[0];
      assert LibsText(libs) + rest == LibBlock(l) + (LibsText(libs[1..]) + rest);
      ReadLibsText(libs[1..], rest);
      ReadLibsCons(l, LibsText(libs[1..]) + rest);
      assert [l] + libs[1..] == libs;
    }
  }

  lemma ApiHeadIsNotFooter(s: string)
    requires StartsWith(s, ApiHead)
    ensures s != Footer
  {
    assert s[1] == ApiHead[1] == '\t';
  }

  lemma ApiCloseIsNotLib(t: string)
    ensures !StartsWith(ApiClose + t, LibHead)
  {
    assert (ApiClose + t)[2] == '<';
  }

  /** One `<api>` block is read back in front of whatever follows. */
  lemma ReadApiBlock(a: Api, rest: string)
    requires Untagged(a.name) && forall i :: 0 <= i < |a.libs| ==> Untagged(a.libs[i])
    requires ReadApis(rest).Some?
    ensures ReadApis(ApiBlock(a) + rest) == Some([a] + ReadApis(rest).value)
  {
    var tail := ApiClose + rest;
    var afterName := LibsText(a.libs) + tail;
    var r1 := NameClose + afterName;
    var s := ApiBlock(a) + rest;
    ApiBlockAssoc(a, rest);
    AfterPrefix(ApiHead, a.name + r1);
    ApiHeadIsNotFooter(s);
    assert r1[0] == '<';
    ReadUntilTagSplits(a.name, r1);
    AfterPrefix(NameClose, afterName);
    ApiCloseIsNotLib(rest);
    ReadLibsText(a.libs, tail);
    AfterPrefix(ApiClose, rest);
    ReadApisUnfold(s, a.name, r1, a.libs, tail);
  }

  lemma ApiBlockAssoc(a: Api, rest: string)
    ensures ApiBlock(a) + rest == ApiHead + (a.name + (NameClose + (LibsText(a.libs) + (ApiClose + rest))))
  {
    Reassoc5(ApiHead, a.name, NameClose, LibsText(a.libs), ApiClose, rest);
  }

  lemma Reassoc5<T>(a: seq<T>, b: seq<T>, c: seq<T>, d: seq<T>, e: seq<T>, f: seq<T>)
    ensures a + b + c + d + e + f == a + (b + (c + (d + (e + f))))
  {
  }

  /** What `ReadApis` does with a text that starts with an `<api>` block. */
  lemma ReadApisUnfold(s: string, name: string, r1: string, libs: seq<string>, tail: string)
    requires s != Footer && StartsWith(s, ApiHead) && ReadUntilTag(s[|ApiHead|..]) == (name, r1)
    requires StartsWith(r1, NameClose) && ReadLibs(r1[|NameClose|..]) == Some((libs, tail))
    requires StartsWith(tail, ApiClose)
    ensures ReadApis(s) == match ReadApis(tail[|ApiClose|..])
                           case None => None
                           case Some(more) => Some([Api(name, libs)] + more)
  {
  }

  /** The `<api>` blocks are read back, in order. */
  lemma {:induction false} ReadApisText(apis: seq<Api>)
    requires forall i :: 0 <= i < |apis| ==> Untagged(apis[i].name)
    requires forall i, j :: 0 <= i < |apis| && 0 <= j < |apis[i].libs| ==> Untagged(apis[i].libs[j])
    ensures ReadApis(ApisText(apis) + Footer) == Some(apis)
  {
    if |apis| == 0 {
      assert ApisText(apis) + Footer == Footer;
    } else {
      var a := apis[0];
      var rest := ApisText(apis[1..]) + Footer;
      assert ApisText(apis) + Footer == ApiBlock(a) + rest;
      ReadApisText(apis[1..]);
      ReadApiBlock(a, rest);
      assert [a] + apis[1..] == apis;
    }
  }

  /** The document lists exactly the given packages with their libraries,
      in order, provided no name or path contains `<`. */
  lemma ApiExtRoundTrip(apis: seq<Api>)
    requires forall i :: 0 <= i < |apis| ==> Untagged(apis[i].name)
    requires forall i, j :: 0 <= i < |apis| && 0 <= j < |apis[i].libs| ==> Untagged(apis[i].libs[j])
    ensures ReadApiExt(ApiExtXml(apis)) == Some(apis)
  {
    AfterPrefix(Header, ApisText(apis) + Footer);
    assert ApiExtXml(apis) == Header + (ApisText(apis) + Footer);
    ReadApisText(apis);
  }

  /** Names are written without escaping: a name holding markup changes the
      document's structure, and it no longer reads back as one package. */
  lemma UnescapedNameBreaksDocument()
    ensures ReadApiExt(ApiExtXml([Api("a</name>", [])])) != Some([Api("a</name>", [])])
  {
    var a := Api("a</name>", []);
    var s := ApisText([a]) + Footer;
    AfterPrefix(Header, s);
    assert ApiExtXml([a]) == Header + s;
    assert ApisText([a]) == ApiBlock(a) + ApisText([]);
    var more := "</name>" + NameClose + ApiClose + Footer;
    assert s == ApiHead + "a" + more;
    AfterPrefix(ApiHead, "a" + more);
    ReadUntilTagSplits("a", more);
  }
}
