/** The general array pass (`arrayGeneral.ts`): on a receiver the type
    checker calls array-like, `at`, `copyWithin` and `fill` become calls of
    injected helpers, `concat` becomes `ArrayUnion` and `length` becomes
    `ArrayCount`; `Array.isArray` and `Array.from` become `IsArray` and
    `ArraySelectAll`. A replaced node is not visited again, so its
    receiver and arguments are kept verbatim. The helpers are declared at
    the top of the file only when the pass used them; what they compute is
    `ArrayResources.ArrayAt`, `ArrayCopyWithin` and `ArrayFill`. */
module ArrayGeneral {
  import opened Base
  import opened Ast
  import opened Values
  import AP = ArrayPolyfill
  import AR = ArrayResources

  /** What the type checker says about a receiver: its printed type, whether
      it is an object type and whether it has a number index signature. */
  datatype TypeInfo = TypeInfo(text: string, isObject: bool, hasNumberIndex: bool)

  /** Array-like: the printed type contains `[]`, or the type is an object
      type with a number index (a tuple, `ArrayLike<T>`, ...). */
  predicate IsArrayLike(t: TypeInfo)
  {
    HasSub(t.text, "[]") || (t.isObject && t.hasNumberIndex)
  }

  const AtHelper := "__bt_tt_arrayAt"
  const CopyWithinHelper := "__bt_tt_arrayCopyWithin"
  const FillHelper := "__bt_tt_arrayFill"

  /** `recv.m(...)` on an array-like receiver. */
  predicate ArrayMethodCall(e: Expr, m: string, typeOf: Expr -> TypeInfo)
  {
    e.Call? && e.callee.Member? && e.callee.prop == m && IsArrayLike(typeOf(e.callee.obj))
  }

  /** `Array.<m>(...)` with the global `Array` as receiver. */
  predicate StaticArrayCall(e: Expr, m: string)
  {
    e.Call? && e.callee.Member? && e.callee.prop == m && e.callee.obj == Ident("Array")
  }

  /** One of the four instance methods the pass handles first. */
  predicate HelperOrConcatCall(e: Expr, typeOf: Expr -> TypeInfo)
  {
    ArrayMethodCall(e, "at", typeOf) || ArrayMethodCall(e, "concat", typeOf)
    || ArrayMethodCall(e, "copyWithin", typeOf) || ArrayMethodCall(e, "fill", typeOf)
  }

  /** The nodes the pass replaces. */
  predicate Selected(e: Expr, typeOf: Expr -> TypeInfo)
  {
    HelperOrConcatCall(e, typeOf)
    || (e.Member? && e.prop == "length" && IsArrayLike(typeOf(e.obj)))
    || StaticArrayCall(e, "isArray") || StaticArrayCall(e, "from")
  }

  /** Argument `k` of a call; a missing argument is `undefined`. */
  function ArgExpr(args: seq<Expr>, k: nat): Expr
  {
    if k < |args| then args[k] else Undef()
  }

  /** `fill`'s helper always gets the value, start and end: missing ones
      are `undefined`, extra ones are dropped. The helper reads the same
      three arguments the method call reads, and no others. */
  function FillArgs(args: seq<Expr>): (r: seq<Expr>)
    ensures |r| == 3
    ensures forall k :: 0 <= k < 3 ==> ArgExpr(r, k) == ArgExpr(args, k)
  {
    seq(3, k requires 0 <= k < 3 => if k < |args| then args[k] else Undef())
  }

  /** The replacement for one node, or None to keep visiting its children. */
  function Replace(e: Expr, typeOf: Expr -> TypeInfo): (r: Option<Expr>)
    ensures r.Some? <==> Selected(e, typeOf)
    ensures ArrayMethodCall(e, "at", typeOf) ==> r == Some(CallNamed(AtHelper, [e.callee.obj] + e.args))
    ensures ArrayMethodCall(e, "copyWithin", typeOf) ==> r == Some(CallNamed(CopyWithinHelper, [e.callee.obj] + e.args))
    ensures ArrayMethodCall(e, "fill", typeOf) ==> r == Some(CallNamed(FillHelper, [e.callee.obj] + FillArgs(e.args)))
    ensures ArrayMethodCall(e, "concat", typeOf) ==> r == Some(CallNamed("ArrayUnion", [e.callee.obj] + e.args))
    ensures e.Member? && e.prop == "length" && IsArrayLike(typeOf(e.obj)) ==> r == Some(CallNamed("ArrayCount", [e.obj]))
    ensures !HelperOrConcatCall(e, typeOf) && StaticArrayCall(e, "isArray") ==> r == Some(CallNamed("IsArray", e.args))
    ensures !HelperOrConcatCall(e, typeOf) && StaticArrayCall(e, "from") ==> r == Some(CallNamed("ArraySelectAll", e.args))
  {
    if e.Call? && e.callee.Member? && IsArrayLike(typeOf(e.callee.obj)) && e.callee.prop in {"at", "concat", "copyWithin", "fill"} then
      var recv := e.callee.obj;
      var m := e.callee.prop;
      if m == "at" then Some(CallNamed(AtHelper, [recv] + e.args))
      else if m == "concat" then Some(CallNamed("ArrayUnion", [recv] + e.args))
      else if m == "copyWithin" then Some(CallNamed(CopyWithinHelper, [recv] + e.args))
      else Some(CallNamed(FillHelper, [recv] + FillArgs(e.args)))
    else if e.Member? && e.prop == "length" && IsArrayLike(typeOf(e.obj)) then
      Some(CallNamed("ArrayCount", [e.obj]))
    else if StaticArrayCall(e, "isArray") then Some(CallNamed("IsArray", e.args))
    else if StaticArrayCall(e, "from") then Some(CallNamed("ArraySelectAll", e.args))
    else None
  }

  /* ---------------------------------------------------------------- */
  /* What the rewritten nodes mean                                      */
  /* ---------------------------------------------------------------- */

  /** The value of an argument expression, given the meaning `ev` of the
      expressions the pass leaves alone; `undefined` means itself. */
  function Val(x: Expr, ev: Expr -> Value): Value
  {
    if x == Undef() then Undefined else ev(x)
  }

  function ArgVal(args: seq<Expr>, k: nat, ev: Expr -> Value): Value
  {
    Val(ArgExpr(args, k), ev)
  }

  /** `Int` on a number; other inputs are outside this model. */
  function IntOf(v: Value): Option<int>
  {
    if v.Num? then Some(v.n) else None
  }

  /** An optional integer argument read by an `=== undefined` test: the
      outer `None` is an input outside this model. */
  function OptionalInt(v: Value): Option<Option<int>>
  {
    if v == Undefined then Some(None) else if v.Num? then Some(Some(v.n)) else None
  }

  /** `OptInt(end)`: the end when it is a number, nothing otherwise. */
  function OptInt(v: Value): Option<int>
  {
    if v.Num? then Some(v.n) else None
  }

  predicate AllArrays(vs: seq<Value>)
  {
    forall i :: 0 <= i < |vs| ==> vs[i].Arr?
  }

  /** The elements of a list of arrays, one array after the other. */
  function Joined(vs: seq<Value>): seq<Value>
    requires AllArrays(vs)
  {
    Flatten(seq(|vs|, i requires 0 <= i < |vs| => vs[i].elems))
  }

  function ArgVals(args: seq<Expr>, ev: Expr -> Value): (r: seq<Value>)
    ensures |r| == |args|
  {
    seq(|args|, i requires 0 <= i < |args| => Val(args[i], ev))
  }

  /** `at` as ECMA-262 defines it on an array. */
  function AtValue(a: seq<Value>, i: int): Value
  {
    match AP.At(a, i) case Some(x) => x case None => Undefined
  }

  /** The meaning of the nodes the pass replaces, as ECMA-262 defines the
      methods on an array receiver, given the meaning `ev` of their
      receivers and arguments. `None` outside the modelled domain: a
      receiver that is not an array, a non-numeric index, a non-array
      argument of `concat`. */
  function SourceMeaning(e: Expr, ev: Expr -> Value): Option<Value>
  {
    if e.Call? && e.callee.Member? && e.callee.obj == Ident("Array") && e.callee.prop in {"isArray", "from"} then
      var x := ArgVal(e.args, 0, ev);
      if e.callee.prop == "isArray" then Some(Bool(IsArray(x)))
      else if x.Arr? then Some(Arr(x.elems)) else None
    else if e.Call? && e.callee.Member? && Val(e.callee.obj, ev).Arr? then
      var a := Val(e.callee.obj, ev).elems;
      var args := e.args;
      match e.callee.prop
      case "at" =>
        (match IntOf(ArgVal(args, 0, ev)) case Some(i) => Some(AtValue(a, i)) case None => None)
      case "concat" =>
        var vs := ArgVals(args, ev);
        if AllArrays(vs) then Some(Arr(a + Joined(vs))) else None
      case "copyWithin" =>
        (match (IntOf(ArgVal(args, 0, ev)), IntOf(ArgVal(args, 1, ev)), OptionalInt(ArgVal(args, 2, ev)))
         case (Some(t), Some(st), Some(en)) => Some(Arr(AP.CopyWithinIntended(a, t, st, en)))
         case _ => None)
      case "fill" =>
        (match (OptionalInt(ArgVal(args, 1, ev)), OptionalInt(ArgVal(args, 2, ev)))
         case (Some(st), Some(en)) => Some(Arr(AP.FillSpec(a, ArgVal(args, 0, ev), st, en)))
         case _ => None)
      case _ => None
    else if e.Member? && e.prop == "length" && Val(e.obj, ev).Arr? then
      Some(Num(|Val(e.obj, ev).elems|))
    else None
  }

  /** The meaning of the calls the pass writes instead: the injected
      helpers as `ArrayResources` defines them and the dialect's
      built-ins with their documented meaning. */
  function TargetMeaning(e: Expr, ev: Expr -> Value): Option<Value>
  {
    if e.Call? && e.callee.Ident? then
      var args := e.args;
      var arr := ArgVal(args, 0, ev);
      match e.callee.name
      case "__bt_tt_arrayAt" =>
        (match IntOf(ArgVal(args, 1, ev)) case Some(i) => Some(AR.ArrayAt(arr, i)) case None => None)
      case "__bt_tt_arrayCopyWithin" =>
        (match (IntOf(ArgVal(args, 1, ev)), IntOf(ArgVal(args, 2, ev)))
         case (Some(t), Some(st)) => Some(AR.CopyWithinResult(arr, t, st, OptInt(ArgVal(args, 3, ev))))
         case _ => None)
      case "__bt_tt_arrayFill" =>
        (match (OptionalInt(ArgVal(args, 2, ev)), OptionalInt(ArgVal(args, 3, ev)))
         case (Some(st), Some(en)) => Some(AR.FillResult(arr, ArgVal(args, 1, ev), st, en))
         case _ => None)
      case "ArrayUnion" =>
        var vs := ArgVals(args, ev);
        if AllArrays(vs) then Some(Arr(Joined(vs))) else None
      case "ArrayCount" => if arr.Arr? then Some(Num(|arr.elems|)) else None
      case "IsArray" => Some(Bool(IsArray(arr)))
      case "ArraySelectAll" => if arr.Arr? then Some(Arr(arr.elems)) else None
      case _ => None
    else None
  }

  /** A `copyWithin` call whose explicit end is 0, the one input on which
      the library's `copyWithin` departs from ECMA-262. */
  predicate EndZero(e: Expr, ev: Expr -> Value)
  {
    e.Call? && e.callee.Member? && e.callee.prop == "copyWithin" && ArgVal(e.args, 2, ev) == Num(0)
  }

  /** The pass keeps the meaning of every node it replaces: on an array
      receiver, the helper or built-in call denotes what the method call
      denotes. The one exception is `copyWithin` with an end of 0, where
      the helper copies up to the length (see
      `ArrayPolyfill.CopyWithinEndZeroAsWritten`). */
  lemma ReplaceKeepsMeaning(e: Expr, typeOf: Expr -> TypeInfo, ev: Expr -> Value)
    requires Selected(e, typeOf)
    ensures SourceMeaning(e, ev).Some? && !EndZero(e, ev) ==>
            TargetMeaning(Replace(e, typeOf).value, ev) == SourceMeaning(e, ev)
  {
    if SourceMeaning(e, ev).Some? && !EndZero(e, ev) {
      var r := Replace(e, typeOf).value;
      if HelperOrConcatCall(e, typeOf) {
        ReplaceMethodKeepsMeaning(e, typeOf, ev);
      } else if e.Member? {
        assert r == CallNamed("ArrayCount", [e.obj]);
        assert ArgVal(r.args, 0, ev) == Val(e.obj, ev);
      } else {
        assert ArgVal(r.args, 0, ev) == ArgVal(e.args, 0, ev);
      }
    }
  }

  /** The instance-method case of `ReplaceKeepsMeaning`. */
  lemma ReplaceMethodKeepsMeaning(e: Expr, typeOf: Expr -> TypeInfo, ev: Expr -> Value)
    requires HelperOrConcatCall(e, typeOf)
    requires SourceMeaning(e, ev).Some? && !EndZero(e, ev)
    ensures TargetMeaning(Replace(e, typeOf).value, ev) == SourceMeaning(e, ev)
  {
    assert e.callee.obj != Ident("Array") || e.callee.prop !in {"isArray", "from"};
    assert Val(e.callee.obj, ev).Arr?;
    var m := e.callee.prop;
    if m == "fill" {
      ReplaceFill(e, typeOf, ev);
    } else if m == "concat" {
      ReplaceConcat(e, typeOf, ev);
    } else if m == "copyWithin" {
      ReplaceCopyWithin(e, typeOf, ev);
    } else {
      ShiftedArgs(e.callee.obj, e.args, ev);
    }
  }

  /** Putting the receiver in front moves argument `k` to `k + 1`. */
  lemma ShiftedArgs(recv: Expr, args: seq<Expr>, ev: Expr -> Value)
    ensures ArgVal([recv] + args, 0, ev) == Val(recv, ev)
    ensures forall k: nat :: ArgVal([recv] + args, k + 1, ev) == ArgVal(args, k, ev)
  {
    forall k: nat ensures ArgVal([recv] + args, k + 1, ev) == ArgVal(args, k, ev) {
      assert ArgExpr([recv] + args, k + 1) == ArgExpr(args, k);
    }
  }

  lemma ReplaceFill(e: Expr, typeOf: Expr -> TypeInfo, ev: Expr -> Value)
    requires ArrayMethodCall(e, "fill", typeOf) && Val(e.callee.obj, ev).Arr?
    requires SourceMeaning(e, ev).Some?
    ensures TargetMeaning(Replace(e, typeOf).value, ev) == SourceMeaning(e, ev)
  {
    var xs := FillArgs(e.args);
    assert Replace(e, typeOf).value == CallNamed(FillHelper, [e.callee.obj] + xs);
    ShiftedArgs(e.callee.obj, xs, ev);
    assert ArgVal(xs, 0, ev) == ArgVal(e.args, 0, ev) && ArgVal(xs, 1, ev) == ArgVal(e.args, 1, ev)
        && ArgVal(xs, 2, ev) == ArgVal(e.args, 2, ev);
  }

  lemma ReplaceConcat(e: Expr, typeOf: Expr -> TypeInfo, ev: Expr -> Value)
    requires ArrayMethodCall(e, "concat", typeOf) && Val(e.callee.obj, ev).Arr?
    requires SourceMeaning(e, ev).Some?
    ensures TargetMeaning(Replace(e, typeOf).value, ev) == SourceMeaning(e, ev)
  {
    var recv := e.callee.obj;
    var xs := [recv] + e.args;
    assert Replace(e, typeOf).value == CallNamed("ArrayUnion", xs);
    var vs := ArgVals(e.args, ev);
    ConcatJoined(Val(recv, ev), vs);
    assert ArgVals(xs, ev) == [Val(recv, ev)] + vs;
  }

  lemma ReplaceCopyWithin(e: Expr, typeOf: Expr -> TypeInfo, ev: Expr -> Value)
    requires ArrayMethodCall(e, "copyWithin", typeOf) && Val(e.callee.obj, ev).Arr?
    requires SourceMeaning(e, ev).Some? && !EndZero(e, ev)
    ensures TargetMeaning(Replace(e, typeOf).value, ev) == SourceMeaning(e, ev)
  {
    var recv := e.callee.obj;
    var args := e.args;
    assert Replace(e, typeOf).value == CallNamed(CopyWithinHelper, [recv] + args);
    ShiftedArgs(recv, args, ev);
    var t := IntOf(ArgVal(args, 0, ev)).value;
    var st := IntOf(ArgVal(args, 1, ev)).value;
    var en := OptionalInt(ArgVal(args, 2, ev)).value;
    assert OptInt(ArgVal(args, 2, ev)) == en;
    AP.CopyWithinIntendedSpec(Val(recv, ev).elems, t, st, en);
  }

  /** `ArrayUnion(recv, args...)` holds the receiver's elements and then
      the arguments'. */
  lemma ConcatJoined(recv: Value, vs: seq<Value>)
    requires recv.Arr? && AllArrays(vs)
    ensures AllArrays([recv] + vs) && Joined([recv] + vs) == recv.elems + Joined(vs)
  {
    var ws := [recv] + vs;
    var ps := seq(|ws|, i requires 0 <= i < |ws| => ws[i].elems);
    var qs := seq(|vs|, i requires 0 <= i < |vs| => vs[i].elems);
    assert ps == [recv.elems] + qs;
    FlattenAppend([recv.elems], qs);
    assert Flatten([recv.elems]) == Flatten<Value>([]) + recv.elems;
  }

  /** The declaration of one helper, by name and parameters. What a call
      of it returns is `TargetMeaning`, after `ArrayResources`. */
  function HelperDecl(m: string): Stmt
  {
    if m == "at" then FuncDecl(AtHelper, [PIdent("array"), PIdent("index")], [])
    else if m == "copyWithin" then
      FuncDecl(CopyWithinHelper, [PIdent("array"), PIdent("target"), PIdent("start"), PIdent("end")], [])
    else FuncDecl(FillHelper, [PIdent("array"), PIdent("value"), PIdent("start"), PIdent("end")], [])
  }

  /** The pass used method `m`'s helper: it replaced some `recv.m(...)`. */
  predicate Used(ss: seq<Stmt>, m: string, typeOf: Expr -> TypeInfo)
  {
    exists h :: h in HitsStmts(ss, e => Selected(e, typeOf), false) && ArrayMethodCall(h, m, typeOf)
  }

  /** The helper declarations, in the order `at`, `copyWithin`, `fill`. */
  function Helpers(ss: seq<Stmt>, typeOf: Expr -> TypeInfo): seq<Stmt>
  {
    (if Used(ss, "at", typeOf) then [HelperDecl("at")] else [])
    + (if Used(ss, "copyWithin", typeOf) then [HelperDecl("copyWithin")] else [])
    + (if Used(ss, "fill", typeOf) then [HelperDecl("fill")] else [])
  }

  /** The whole pass over a file's statements. */
  function Transform(ss: seq<Stmt>, typeOf: Expr -> TypeInfo): seq<Stmt>
  {
    Helpers(ss, typeOf) + RwStmts(ss, e => Replace(e, typeOf), KeepExpr, KeepStmt)
  }

  /** The file is prefixed by at most three helpers, each used and each
      at most once, in a fixed order; a file in which nothing is replaced
      comes back as it was. */
  lemma TransformShape(ss: seq<Stmt>, typeOf: Expr -> TypeInfo)
    ensures var out := Transform(ss, typeOf); var n := |Helpers(ss, typeOf)|;
            n <= 3 && |out| == n + |ss|
            && (n > 0 <==> Used(ss, "at", typeOf) || Used(ss, "copyWithin", typeOf) || Used(ss, "fill", typeOf))
            && (Used(ss, "at", typeOf) <==> n > 0 && out[0] == HelperDecl("at"))
    ensures HitsStmts(ss, e => Selected(e, typeOf), false) == [] ==> Transform(ss, typeOf) == ss
  {
    var p := e => Selected(e, typeOf);
    var pre := e => Replace(e, typeOf);
    assert HelperDecl("copyWithin") != HelperDecl("at") && HelperDecl("fill") != HelperDecl("at");
    assert FiresOn(pre, p);
    UntouchedStmts(ss, pre, p);
    if HitsStmts(ss, p, false) == [] {
      assert !Used(ss, "at", typeOf) && !Used(ss, "copyWithin", typeOf) && !Used(ss, "fill", typeOf);
    }
  }

  lemma FillArgsExamples(a: Expr, b: Expr, c: Expr, d: Expr)
    ensures FillArgs([a]) == [a, Undef(), Undef()]
    ensures FillArgs([a, b, c, d]) == [a, b, c]
    ensures FillArgs([]) == [Undef(), Undef(), Undef()]
  {
  }
}
