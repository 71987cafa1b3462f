/** The `Math` pass (`math.ts`): bottom-up, `Math.abs`, `Math.ceil`,
    `Math.floor` and `Math.trunc` calls become calls of `___btt_Math_<m>`
    helpers and `Math.max`/`Math.min` become the dialect's `Max`/`Min`.
    When a helper was used, the declarations of the used helpers, in
    sorted order, are put in front of the file: the declaration of the
    resource file `Math.js` when it has one, otherwise a stub that throws. */
module MathTransform {
  import opened Base
  import opened Ast

  /** The methods with a helper, in sorted order. */
  const ReplaceMethods: seq<string> := ["abs", "ceil", "floor", "trunc"]

  function Helper(m: string): string { "___btt_Math_" + m }

  /** `Math.<m>(...)` with the global `Math` as receiver. */
  predicate MathCall(e: Expr, m: string)
  {
    e.Call? && e.callee.Member? && e.callee.obj == Ident("Math") && e.callee.prop == m
  }

  /** A `Math` call the pass rewrites. */
  predicate Handled(e: Expr)
  {
    e.Call? && e.callee.Member? && e.callee.obj == Ident("Math")
    && (e.callee.prop in ReplaceMethods || e.callee.prop == "max" || e.callee.prop == "min")
  }

  /** A call that records a used helper. */
  predicate HelperCall(e: Expr)
  {
    e.Call? && e.callee.Member? && e.callee.obj == Ident("Math") && e.callee.prop in ReplaceMethods
  }

  /** The rewrite of one node, applied after its children were rewritten.
      The arguments are kept as they are and no handled call is left. */
  function Rewrite(e: Expr): (r: Expr)
    ensures !Handled(r)
    ensures Handled(e) ==> r.Call? && r.args == e.args && r.callee.Ident?
    ensures HelperCall(e) ==> r.callee == Ident(Helper(e.callee.prop))
    ensures MathCall(e, "max") ==> r.callee == Ident("Max")
    ensures MathCall(e, "min") ==> r.callee == Ident("Min")
    ensures !Handled(e) ==> r == e
  {
    if e.Call? && e.callee.Member? && e.callee.obj == Ident("Math") then
      var m := e.callee.prop;
      if m in ReplaceMethods then Call(Ident(Helper(m)), e.args)
      else if m == "max" then Call(Ident("Max"), e.args)
      else if m == "min" then Call(Ident("Min"), e.args)
      else e
    else e
  }

  /** The helpers the pass used. Rewriting a node's children never makes
      or unmakes a `Math.<m>(...)` call above them (the callee
      `Math.<m>` is not a call and is left alone), so these are the
      `Math.abs`/`ceil`/`floor`/`trunc` calls anywhere in the input. */
  function UsedMethods(ss: seq<Stmt>): (r: set<string>)
    ensures forall m :: m in r ==> m in ReplaceMethods
  {
    set h | h in HitsStmts(ss, HelperCall, true) && HelperCall(h) :: h.callee.prop
  }

  /** The used methods in sorted order. */
  function SortedUsed(used: set<string>, order: seq<string>): (r: seq<string>)
    ensures forall i :: 0 <= i < |r| ==> r[i] in used && r[i] in order
    ensures forall m :: m in order && m in used ==> m in r
    ensures used == {} ==> r == []
  {
    if |order| == 0 then []
    else (if order[0] in used then [order[0]] else []) + SortedUsed(used, order[1..])
  }

  /** Lexicographic order on strings, as `Array.prototype.sort` compares them. */
  predicate StrLess(a: string, b: string)
  {
    (|a| > 0 && |b| > 0 && (a[0] < b[0] || (a[0] == b[0] && StrLess(a[1..], b[1..]))))
    || (|a| == 0 && |b| > 0)
  }

  predicate StrictlySorted(s: seq<string>)
  {
    forall i, j :: 0 <= i < j < |s| ==> StrLess(s[i], s[j])
  }

  lemma ReplaceMethodsSorted()
    ensures StrictlySorted(ReplaceMethods)
  {
    assert StrLess("abs", "ceil") && StrLess("abs", "floor") && StrLess("abs", "trunc");
    assert StrLess("ceil", "floor") && StrLess("ceil", "trunc") && StrLess("floor", "trunc");
  }

  /** Keeping some entries of a sorted list keeps it sorted. */
  lemma {:induction false} SortedUsedSorted(used: set<string>, order: seq<string>)
    requires StrictlySorted(order)
    ensures StrictlySorted(SortedUsed(used, order))
  {
    if |order| > 0 {
      var tail := order[1..];
      assert StrictlySorted(tail) by {
        forall i, j | 0 <= i < j < |tail| ensures StrLess(tail[i], tail[j]) {
          assert tail[i] == order[i + 1] && tail[j] == order[j + 1];
        }
      }
      SortedUsedSorted(used, tail);
      var rest := SortedUsed(used, tail);
      forall i | 0 <= i < |rest| ensures StrLess(order[0], rest[i]) {
        assert rest[i] in tail;
        var k :| 0 <= k < |tail| && tail[k] == rest[i];
        assert order[k + 1] == rest[i];
      }
      if order[0] in used {
        SortedCons(order[0], rest);
      } else {
        assert SortedUsed(used, order) == rest;
      }
    }
  }

  lemma SortedCons(x: string, rest: seq<string>)
    requires StrictlySorted(rest)
    requires forall i :: 0 <= i < |rest| ==> StrLess(x, rest[i])
    ensures StrictlySorted([x] + rest)
  {
    var r := [x] + rest;
    forall i, j | 0 <= i < j < |r| ensures StrLess(r[i], r[j]) {
      assert r[j] == rest[j - 1];
      if i > 0 {
        assert r[i] == rest[i - 1];
      }
    }
  }

  /** The resource file's declaration for `m`, by either spelling of its name. */
  function FindDecl(resource: seq<Stmt>, m: string): (r: Option<Stmt>)
    ensures r.Some? ==> r.value in resource && r.value.FuncDecl?
                        && (r.value.fname == Helper(m) || r.value.fname == "__btt_Math_" + m)
    ensures r.None? ==> forall s :: s in resource && s.FuncDecl? ==> s.fname != Helper(m) && s.fname != "__btt_Math_" + m
  {
    if |resource| == 0 then None
    else if resource[0].FuncDecl? && (resource[0].fname == Helper(m) || resource[0].fname == "__btt_Math_" + m) then
      Some(resource[0])
    else FindDecl(resource[1..], m)
  }

  /** The stub emitted for an unsupported `Math` method: a helper that
      throws an error saying it is not supported yet. */
  function Stub(m: string): Stmt
  {
    FuncDecl(Helper(m), [PIdent("args")], [Throw(Op("new", [Ident("Error"), StrLit("unsupported yet")]))])
  }

  function HelperDecls(used: seq<string>, resource: seq<Stmt>): (r: seq<Stmt>)
    ensures |r| == |used|
    ensures forall i :: 0 <= i < |r| ==>
              r[i] == (match FindDecl(resource, used[i]) case Some(d) => d case None => Stub(used[i]))
  {
    seq(|used|, i requires 0 <= i < |used| =>
      match FindDecl(resource, used[i]) case Some(d) => d case None => Stub(used[i]))
  }

  function Transform(ss: seq<Stmt>, resource: seq<Stmt>): seq<Stmt>
  {
    var body := RwStmts(ss, NoPre, Rewrite, KeepStmt);
    var used := UsedMethods(ss);
    if |used| > 0 then HelperDecls(SortedUsed(used, ReplaceMethods), resource) + body else body
  }

  /** One declaration per used helper, sorted and without repeats, in front
      of the rewritten statements; when every helper the resource declares
      is spelled `___btt_Math_<m>`, each used helper is declared under the
      name the rewritten calls use. */
  lemma TransformShape(ss: seq<Stmt>, resource: seq<Stmt>)
    ensures var used := UsedMethods(ss); var names := SortedUsed(used, ReplaceMethods);
            var out := Transform(ss, resource);
            StrictlySorted(names)
            && (forall m :: m in names <==> m in used)
            && |out| == |names| + |ss|
            && out[|names|..] == RwStmts(ss, NoPre, Rewrite, KeepStmt)
            && ((forall s :: s in resource && s.FuncDecl? ==> |s.fname| < 11 || s.fname[..11] != "__btt_Math_") ==>
                  forall i :: 0 <= i < |names| ==> out[i].FuncDecl? && out[i].fname == Helper(names[i]))
  {
    var used := UsedMethods(ss);
    var names := SortedUsed(used, ReplaceMethods);
    var out := Transform(ss, resource);
    ReplaceMethodsSorted();
    SortedUsedSorted(used, ReplaceMethods);
    assert out[..|names|] == HelperDecls(names, resource);
    if (forall s :: s in resource && s.FuncDecl? ==> |s.fname| < 11 || s.fname[..11] != "__btt_Math_") {
      forall i | 0 <= i < |names|
        ensures (match FindDecl(resource, names[i]) case Some(d) => d case None => Stub(names[i])).fname == Helper(names[i])
      {
        var f := FindDecl(resource, names[i]);
        if f.Some? {
          assert ("__btt_Math_" + names[i])[..11] == "__btt_Math_";
        }
      }
    }
  }

  /* The helpers of `Math.js` on exact numbers: `Math.round(x)` is
     `floor(x + 0.5)`. */

  function Round(x: real): int { (x + 0.5).Floor }

  function Ceiling(x: real): int { -((-x).Floor) }

  function HelperAbs(num: real): (r: real)
    ensures r >= 0.0 && (r == num || r == -num)
  {
    if num < 0.0 then -num else num
  }

  function HelperCeil(num: real): real
  {
    if num < 0.0 then
      var temp := Round(-num) as real;
      -(if temp > -num then temp - 1.0 else temp)
    else
      var temp := Round(num) as real;
      if temp < num then temp + 1.0 else temp
  }

  function HelperFloor(num: real): real
  {
    if num < 0.0 then
      -(if (Round(-num) as real) < -num then Round(-num) as real + 1.0 else Round(-num) as real)
    else if Round(num) as real > num then Round(num) as real - 1.0 else Round(num) as real
  }

  function HelperTrunc(num: real): real
  {
    if num < 0.0 then
      -(if Round(-num) as real > -num then Round(-num) as real - 1.0 else Round(-num) as real)
    else if Round(num) as real > num then Round(num) as real - 1.0 else Round(num) as real
  }

  lemma RoundBounds(x: real)
    ensures x - 0.5 < Round(x) as real <= x + 0.5
  {
  }

  lemma FloorUnique(x: real, k: int)
    requires k as real <= x < k as real + 1.0
    ensures x.Floor == k
  {
  }

  lemma CeilingUnique(x: real, c: int)
    requires c as real - 1.0 < x <= c as real
    ensures Ceiling(x) == c
  {
    FloorUnique(-x, -c);
  }

  /** The `ceil` helper rounds up. */
  lemma HelperCeilIsCeiling(num: real)
    ensures HelperCeil(num) == Ceiling(num) as real
  {
    if num < 0.0 {
      RoundBounds(-num);
      var t := Round(-num);
      if t as real > -num {
        FloorUnique(-num, t - 1);
      } else {
        FloorUnique(-num, t);
      }
    } else {
      RoundBounds(num);
      var t := Round(num);
      if (t as real) < num {
        CeilingUnique(num, t + 1);
      } else {
        CeilingUnique(num, t);
      }
    }
  }

  /** The `floor` helper rounds down. */
  lemma HelperFloorIsFloor(num: real)
    ensures HelperFloor(num) == num.Floor as real
  {
    if num < 0.0 {
      RoundBounds(-num);
      var t := Round(-num);
      if (t as real) < -num {
        FloorUnique(num, -(t + 1));
      } else {
        FloorUnique(num, -t);
      }
    } else {
      RoundBounds(num);
      var t := Round(num);
      if t as real > num {
        FloorUnique(num, t - 1);
      } else {
        FloorUnique(num, t);
      }
    }
  }

  /** The `trunc` helper rounds toward zero. */
  lemma HelperTruncTowardZero(num: real)
    ensures num >= 0.0 ==> HelperTrunc(num) == num.Floor as real
    ensures num < 0.0 ==> HelperTrunc(num) == Ceiling(num) as real
  {
    if num < 0.0 {
      RoundBounds(-num);
      var t := Round(-num);
      if t as real > -num {
        CeilingUnique(num, -(t - 1));
      } else {
        CeilingUnique(num, -t);
      }
    } else {
      HelperFloorIsFloor(num);
    }
  }
}
