/** The string pass (`string.ts`): on a receiver the type checker calls
    string-like, `length` becomes `StrCharCount`, `toUpperCase`,
    `toLowerCase` and `trim` become `StrUpperCase`, `StrLowerCase` and
    `Trim`, and `startsWith`, `includes` and `endsWith` with a search string
    become `StrBegins`, `StrContains` and `StrEnds`, a second argument
    being applied through `StrCharRangePos`. A replaced node is not
    visited again. */
module StringTransform {
  import opened Base
  import opened Ast
  import SP = StringPolyfill

  /** What the type checker says about a receiver. */
  datatype TypeInfo = TypeInfo(text: string, isStringLiteral: bool, stringLikeFlag: bool)

  predicate IsStringLike(t: TypeInfo)
  {
    t.text == "string" || t.isStringLiteral || t.stringLikeFlag
  }

  /** Methods replaced whatever their arguments. */
  const CaseMethods: set<string> := {"toUpperCase", "toLowerCase", "trim"}
  /** Methods replaced when they have a search string. */
  const SearchMethods: set<string> := {"startsWith", "includes", "endsWith"}

  /** `recv.m(args)` on a string-like receiver. */
  predicate StringMethodCall(e: Expr, typeOf: Expr -> TypeInfo)
  {
    e.Call? && e.callee.Member? && IsStringLike(typeOf(e.callee.obj))
  }

  predicate Selected(e: Expr, typeOf: Expr -> TypeInfo)
  {
    (e.Member? && e.prop == "length" && IsStringLike(typeOf(e.obj)))
    || (StringMethodCall(e, typeOf)
        && (e.callee.prop in CaseMethods || (e.callee.prop in SearchMethods && |e.args| > 0)))
  }

  function Count(x: Expr): Expr { CallNamed("StrCharCount", [x]) }

  function Replace(e: Expr, typeOf: Expr -> TypeInfo): (r: Option<Expr>)
    ensures r.Some? <==> Selected(e, typeOf)
    ensures e.Member? && e.prop == "length" && IsStringLike(typeOf(e.obj)) ==> r == Some(Count(e.obj))
    ensures StringMethodCall(e, typeOf) && e.callee.prop == "trim" ==> r == Some(CallNamed("Trim", [e.callee.obj]))
    ensures StringMethodCall(e, typeOf) && e.callee.prop == "startsWith" && |e.args| == 1 ==>
              r == Some(CallNamed("StrBegins", [e.callee.obj, e.args[0]]))
    ensures StringMethodCall(e, typeOf) && e.callee.prop == "startsWith" && |e.args| >= 2 ==>
              r == Some(CallNamed("StrBegins", [CallNamed("StrCharRangePos", [e.callee.obj, e.args[1], Count(e.callee.obj)]), e.args[0]]))
    ensures StringMethodCall(e, typeOf) && e.callee.prop == "includes" && |e.args| >= 2 ==>
              r == Some(CallNamed("StrContains", [CallNamed("StrCharRangePos", [e.callee.obj, e.args[1], Count(e.callee.obj)]), e.args[0]]))
    ensures StringMethodCall(e, typeOf) && e.callee.prop == "endsWith" && |e.args| == 1 ==>
              r == Some(CallNamed("StrEnds", [e.callee.obj, e.args[0]]))
    ensures StringMethodCall(e, typeOf) && e.callee.prop == "endsWith" && |e.args| >= 2 ==>
              r == Some(CallNamed("StrEnds", [CallNamed("StrCharRangePos", [e.callee.obj, NumLit(0), e.args[1]]), e.args[0]]))
  {
    if e.Member? && e.prop == "length" && IsStringLike(typeOf(e.obj)) then Some(Count(e.obj))
    else if StringMethodCall(e, typeOf) then
      var m := e.callee.prop;
      var target := e.callee.obj;
      if m == "toUpperCase" || m == "toLowerCase" then
        Some(CallNamed(if m == "toUpperCase" then "StrUpperCase" else "StrLowerCase", [target]))
      else if m == "trim" then Some(CallNamed("Trim", [target]))
      else if m in SearchMethods && |e.args| > 0 then
        var fn := if m == "startsWith" then "StrBegins" else if m == "includes" then "StrContains" else "StrEnds";
        if |e.args| > 1 then
          var range :=
            if m == "endsWith" then CallNamed("StrCharRangePos", [target, NumLit(0), e.args[1]])
            else CallNamed("StrCharRangePos", [target, e.args[1], Count(target)]);
          Some(CallNamed(fn, [range, e.args[0]]))
        else Some(CallNamed(fn, [target, e.args[0]]))
      else None
    else None
  }

  function Transform(ss: seq<Stmt>, typeOf: Expr -> TypeInfo): seq<Stmt>
  {
    RwStmts(ss, e => Replace(e, typeOf), KeepExpr, KeepStmt)
  }

  /** A file without string method calls or string lengths is unchanged. */
  lemma TransformUntouched(ss: seq<Stmt>, typeOf: Expr -> TypeInfo)
    ensures HitsStmts(ss, e => Selected(e, typeOf), false) == [] ==> Transform(ss, typeOf) == ss
  {
    var pre := e => Replace(e, typeOf);
    var p := e => Selected(e, typeOf);
    assert FiresOn(pre, p);
    UntouchedStmts(ss, pre, p);
  }

  /* What the rewritten calls compute. The dialect built-ins are taken to
     mean: `StrBegins(s, q)` q is a prefix of s, `StrContains(s, q)` q
     occurs in s, `StrEnds(s, q)` q is a suffix of s, `StrCharCount(s)` the
     length and `StrCharRangePos(s, a, b)` the characters from a to b, both
     stopped at the ends of s. The JavaScript methods are those of section
     22.1.3 of ECMA-262 with integer positions. */

  function ClampPos(x: int, len: nat): (r: nat)
    ensures r <= len
    ensures 0 <= x <= len ==> r == x
  {
    if x < 0 then 0 else if x > len then len else x
  }

  function CharRangePos(s: string, a: int, b: int): (r: string)
    ensures |r| <= |s|
  {
    var i := ClampPos(a, |s|);
    var j := ClampPos(b, |s|);
    if i <= j then s[i..j] else []
  }

  predicate IsPrefix(q: string, s: string) { |q| <= |s| && s[..|q|] == q }

  /** `s.startsWith(q, pos)` (22.1.3.23): q at the clamped position. */
  predicate JsStartsWith(s: string, q: string, pos: Option<int>)
  {
    var start := match pos case None => 0 case Some(p) => ClampPos(p, |s|);
    start + |q| <= |s| && s[start..start + |q|] == q
  }

  /** `s.includes(q, pos)` (22.1.3.8): q occurs at or after the clamped position. */
  predicate JsIncludes(s: string, q: string, pos: Option<int>)
  {
    var start := match pos case None => 0 case Some(p) => ClampPos(p, |s|);
    exists k :: start <= k <= |s| && OccursAt(s, q, k)
  }

  /** `s.endsWith(q, len)` (22.1.3.7): q ends the first `len` characters. */
  predicate JsEndsWith(s: string, q: string, len: Option<int>)
  {
    var end := match len case None => |s| case Some(n) => ClampPos(n, |s|);
    end >= |q| && s[end - |q|..end] == q
  }

  lemma StartsWithRewrite(s: string, q: string, pos: int)
    ensures IsPrefix(q, s) <==> JsStartsWith(s, q, None)
    ensures IsPrefix(q, CharRangePos(s, pos, |s|)) <==> JsStartsWith(s, q, Some(pos))
  {
    var start := ClampPos(pos, |s|);
    assert CharRangePos(s, pos, |s|) == s[start..];
    if IsPrefix(q, s[start..]) {
      assert s[start..start + |q|] == s[start..][..|q|];
    }
    if JsStartsWith(s, q, Some(pos)) {
      assert s[start..][..|q|] == s[start..start + |q|];
    }
  }

  lemma IncludesRewrite(s: string, q: string, pos: int)
    ensures HasSub(s, q) <==> JsIncludes(s, q, None)
    ensures HasSub(CharRangePos(s, pos, |s|), q) <==> JsIncludes(s, q, Some(pos))
  {
    var start := ClampPos(pos, |s|);
    assert CharRangePos(s, pos, |s|) == s[start..];
    HasSubIff(s, q);
    IncludesFrom(s, q, start);
  }

  /** An occurrence in the suffix from `start` is an occurrence in the
      whole text at or after `start`, and the other way round. */
  lemma IncludesFrom(s: string, q: string, start: nat)
    requires start <= |s|
    ensures HasSub(s[start..], q) <==> exists k :: start <= k <= |s| && OccursAt(s, q, k)
  {
    var t := s[start..];
    HasSubIff(t, q);
    if HasSub(t, q) {
      var k :| 0 <= k <= |t| && OccursAt(t, q, k);
      OccursInSuffix(s, q, start, start + k);
    }
    if exists k :: start <= k <= |s| && OccursAt(s, q, k) {
      var k :| start <= k <= |s| && OccursAt(s, q, k);
      OccursInSuffix(s, q, start, k);
    }
  }

  lemma OccursInSuffix(s: string, q: string, start: nat, k: nat)
    requires start <= k <= |s|
    ensures OccursAt(s, q, k) <==> OccursAt(s[start..], q, k - start)
  {
    if k + |q| <= |s| {
      assert s[start..][k - start..k - start + |q|] == s[k..k + |q|];
    }
  }

  lemma EndsWithRewrite(s: string, q: string, len: int)
    ensures SP.IsSuffix(q, s) <==> JsEndsWith(s, q, None)
    ensures SP.IsSuffix(q, CharRangePos(s, 0, len)) <==> JsEndsWith(s, q, Some(len))
  {
    var end := ClampPos(len, |s|);
    EndsWithPrefix(s, q, end);
    assert CharRangePos(s, 0, len) == s[..end];
    EndsWithPrefix(s, q, |s|);
    assert s[..|s|] == s;
  }

  /** `q` ends the first `end` characters exactly when it is a suffix of
      them. */
  lemma EndsWithPrefix(s: string, q: string, end: nat)
    requires end <= |s|
    ensures SP.IsSuffix(q, s[..end]) <==> end >= |q| && s[end - |q|..end] == q
  {
    var t := s[..end];
    if |q| <= end {
      assert t[|t| - |q|..] == s[end - |q|..end];
    }
  }
}
