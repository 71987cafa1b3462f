/** The functional-chain lowering (`arrayFunctional.ts`): a call chain such
    as `xs.filter(f).map(g).length` whose root is an array is turned into
    statements (a temporary and an indexed `for` loop per supported call, a
    `const` temporary per other call) followed by an expression that reads
    the last temporary. Fresh names are the plain text the source asks
    `createUniqueName` for. The type checker is the oracle `arrayTyped`,
    which answers whether an expression has an array or tuple type. */
module ArrayFunctional {
  import opened Base
  import opened Ast

  const ArrayReturning: set<string> := {"map", "filter", "flatMap"}
  const BooleanReturning: set<string> := {"every", "some"}
  const FindMethods: set<string> := {"find", "findIndex", "findLast", "findLastIndex"}
  const ReduceMethods: set<string> := {"reduce", "reduceRight"}
  const Supported: set<string> :=
    ArrayReturning + BooleanReturning + FindMethods + {"forEach"} + ReduceMethods

  /** Generated statements and the expression that replaces the chain. */
  datatype Lowered = Lowered(expr: Expr, stmts: seq<Stmt>)

  /** A call `recv.m(...)` naming a supported method. */
  predicate NamesSupported(e: Expr)
  {
    e.Call? && e.callee.Member? && e.callee.prop in Supported
  }

  /** A call `recv.m(...)` naming `map`, `filter` or `flatMap`. */
  predicate ArrayCall(e: Expr)
  {
    e.Call? && e.callee.Member? && e.callee.prop in ArrayReturning
  }

  /** The nodes reached from `e` by following callees and receivers. */
  function Spine(e: Expr): (r: seq<Expr>)
    ensures |r| >= 1 && r[0] == e
  {
    match e
    case Call(callee, _) => [e] + Spine(callee)
    case Member(obj, _) => [e] + Spine(obj)
    case _ => [e]
  }

  function ContainsSupportedMethod(e: Expr): bool
  {
    match e
    case Call(callee, _) =>
      if callee.Member? then callee.prop in Supported || ContainsSupportedMethod(callee.obj)
      else if callee.Call? then ContainsSupportedMethod(callee)
      else false
    case Member(obj, _) => ContainsSupportedMethod(obj)
    case _ => false
  }

  /** Some node of `w` is a supported call. */
  predicate AnySupported(w: seq<Expr>)
  {
    |w| > 0 && (NamesSupported(w[0]) || AnySupported(w[1..]))
  }

  lemma {:induction false} AnySupportedIff(w: seq<Expr>)
    ensures AnySupported(w) <==> exists i :: 0 <= i < |w| && NamesSupported(w[i])
  {
    if |w| > 0 {
      AnySupportedIff(w[1..]);
      if exists i :: 0 <= i < |w| && NamesSupported(w[i]) {
        var i :| 0 <= i < |w| && NamesSupported(w[i]);
        if i > 0 {
          assert w[1..][i - 1] == w[i];
        }
      }
      if AnySupported(w[1..]) {
        var i :| 0 <= i < |w[1..]| && NamesSupported(w[1..][i]);
        assert w[i + 1] == w[1..][i];
      }
    }
  }

  lemma {:induction false} ContainsSupportedIsAny(e: Expr)
    ensures ContainsSupportedMethod(e) == AnySupported(Spine(e))
  {
    match e
    case Call(callee, _) =>
      assert Spine(e)[1..] == Spine(callee);
      if callee.Member? {
        assert Spine(callee)[1..] == Spine(callee.obj);
        ContainsSupportedIsAny(callee.obj);
      } else if callee.Call? {
        ContainsSupportedIsAny(callee);
      } else {
        assert Spine(callee) == [callee];
        assert !AnySupported(Spine(callee)[1..]);
        assert !AnySupported(Spine(callee));
      }
    case Member(obj, _) =>
      assert Spine(e)[1..] == Spine(obj);
      ContainsSupportedIsAny(obj);
    case _ =>
      assert Spine(e)[1..] == [];
  }

  /** The classification looks exactly for a supported call on the spine. */
  lemma ContainsSupportedMethodIff(e: Expr)
    ensures ContainsSupportedMethod(e) <==> exists i :: 0 <= i < |Spine(e)| && NamesSupported(Spine(e)[i])
  {
    ContainsSupportedIsAny(e);
    AnySupportedIff(Spine(e));
  }

  function GetRootExpression(e: Expr): Expr
  {
    match e
    case Call(callee, _) =>
      if callee.Member? && callee.prop in ArrayReturning then callee.obj
      else GetRootExpression(callee)
    case Member(obj, _) => GetRootExpression(obj)
    case _ => e
  }

  /** The position of the first `map`/`filter`/`flatMap` call in `w`, or `|w|`. */
  function FirstArrayCall(w: seq<Expr>): (k: nat)
    ensures k <= |w|
    ensures k < |w| ==> ArrayCall(w[k])
    ensures forall j :: 0 <= j < k ==> !ArrayCall(w[j])
  {
    if |w| == 0 then 0
    else if ArrayCall(w[0]) then 0
    else 1 + FirstArrayCall(w[1..])
  }

  /** The root is the receiver of the outermost array-returning call on the
      spine; without one it is the end of the spine, which is neither a
      call nor a property access. */
  lemma {:induction false} RootCharacterisation(e: Expr)
    ensures var w := Spine(e); var k := FirstArrayCall(w);
            (k < |w| ==> GetRootExpression(e) == w[k].callee.obj) &&
            (k == |w| ==> GetRootExpression(e) == w[|w| - 1] && !w[|w| - 1].Call? && !w[|w| - 1].Member?)
  {
    var w := Spine(e);
    match e
    case Call(callee, _) =>
      if ArrayCall(e) {
        assert FirstArrayCall(w) == 0 && w[0] == e;
      } else {
        RootCharacterisation(callee);
        RootSkip(e, callee);
      }
    case Member(obj, _) =>
      RootCharacterisation(obj);
      RootSkip(e, obj);
    case _ =>
      assert w == [e];
  }

  /** A node that is not an array call has the root of the next node of
      its spine. */
  lemma RootSkip(e: Expr, inner: Expr)
    requires (e.Call? && e.callee == inner && !ArrayCall(e)) || (e.Member? && e.obj == inner)
    requires var w := Spine(inner); var k := FirstArrayCall(w);
             (k < |w| ==> GetRootExpression(inner) == w[k].callee.obj) &&
             (k == |w| ==> GetRootExpression(inner) == w[|w| - 1] && !w[|w| - 1].Call? && !w[|w| - 1].Member?)
    ensures var w := Spine(e); var k := FirstArrayCall(w);
            (k < |w| ==> GetRootExpression(e) == w[k].callee.obj) &&
            (k == |w| ==> GetRootExpression(e) == w[|w| - 1] && !w[|w| - 1].Call? && !w[|w| - 1].Member?)
  {
    var w := Spine(e);
    var v := Spine(inner);
    assert w == [e] + v;
    assert w[1..] == v;
    assert !ArrayCall(w[0]);
    assert FirstArrayCall(w) == 1 + FirstArrayCall(v);
    assert GetRootExpression(e) == GetRootExpression(inner);
    assert w[|w| - 1] == v[|v| - 1];
  }

  /** The base, an underscore and the depth in decimal: the name asked of
      `createUniqueName`. */
  function Name(base: string, index: nat): string
  {
    base + "_" + NatToString(index)
  }

  /** Links at different depths of one chain get different names. */
  lemma NamesDistinct(base: string, i: nat, j: nat)
    requires i != j
    ensures Name(base, i) != Name(base, j)
  {
    if Name(base, i) == Name(base, j) {
      assert Name(base, i)[|base| + 1..] == NatToString(i);
      assert Name(base, j)[|base| + 1..] == NatToString(j);
      NatToStringInjective(i, j);
    }
  }

  /** `const <param_k> = <value_k>` for as many parameters as the callback
      declares, at most one per value. */
  function Bindings(params: seq<Pattern>, values: seq<Expr>): (r: seq<Stmt>)
    ensures |r| == Min(|params|, |values|)
    ensures forall k :: 0 <= k < |r| ==> r[k] == VarDecl(Const, [Declarator(params[k], Some(values[k]))])
  {
    var n := Min(|params|, |values|);
    seq(n, k requires 0 <= k < n => VarDecl(Const, [Declarator(params[k], Some(values[k]))]))
  }

  /** The first argument when it is a function literal. */
  function CallbackOf(args: seq<Expr>): Option<Expr>
  {
    if |args| > 0 && args[0].Func? then Some(args[0]) else None
  }

  function CallbackParams(cb: Option<Expr>): seq<Pattern>
  {
    match cb
    case Some(Func(ps, _)) => ps
    case _ => []
  }

  /** The top-level statements of a block that are not `return`s. */
  function NonReturns(ss: seq<Stmt>): (r: seq<Stmt>)
    ensures forall i :: 0 <= i < |r| ==> !r[i].Return? && r[i] in ss
    ensures forall i :: 0 <= i < |ss| && !ss[i].Return? ==> ss[i] in r
  {
    if |ss| == 0 then []
    else NonReturns(ss[..|ss| - 1]) + (if ss[|ss| - 1].Return? then [] else [ss[|ss| - 1]])
  }

  /** The value of the first top-level `return`, `undefined` for a bare
      `return` or none at all. */
  function FirstReturnValue(ss: seq<Stmt>): (r: Expr)
    ensures (forall i :: 0 <= i < |ss| ==> !ss[i].Return?) ==> r == Undef()
    ensures forall i :: 0 <= i < |ss| && ss[i].Return? && (forall j :: 0 <= j < i ==> !ss[j].Return?) ==>
              r == (match ss[i].ret case Some(x) => x case None => Undef())
  {
    if |ss| == 0 then Undef()
    else if ss[0].Return? then (match ss[0].ret case Some(x) => x case None => Undef())
    else FirstReturnValue(ss[1..])
  }

  /** The statements computing the step result `resultVar` for one element. */
  function StepStmts(cb: Option<Expr>, elem: Expr, resultVar: string): seq<Stmt>
  {
    match cb
    case Some(Func(_, BodyBlock(ss))) => NonReturns(ss) + [Decl1(Const, resultVar, FirstReturnValue(ss))]
    case Some(Func(_, BodyExpr(x))) => [Decl1(Const, resultVar, x)]
    case _ => [Decl1(Const, resultVar, elem)]
  }

  /** A counting loop over the receiver's positions from the first up,
      running `body` for each. */
  function AscLoop(i: string, base: Expr, body: seq<Stmt>): Stmt
  {
    For([Decl1(Let, i, NumLit(0))], Some(Op("<", [Ident(i), Member(base, "length")])),
        Some(Op("x++", [Ident(i)])), Block(body))
  }

  /** A counting loop over the receiver's positions from the last down,
      running `body` for each. */
  function DescLoop(i: string, base: Expr, body: seq<Stmt>): Stmt
  {
    For([Decl1(Let, i, Op("-", [Member(base, "length"), NumLit(1)]))], Some(Op(">=", [Ident(i), NumLit(0)])),
        Some(Op("--x", [Ident(i)])), Block(body))
  }

  /** Appending `value` to the temporary array. */
  function Push(temp: string, value: Expr): Stmt
  {
    ExprStmt(Call(Member(Ident(temp), "push"), [value]))
  }

  /** The statements that compute the step result for the element at the
      loop index: the callback's parameters bound to the element, the
      index and the receiver (a reducer's first parameter to the
      accumulator), then the callback's own statements. */
  function Step(m: string, args: seq<Expr>, base: Expr, prefix: string, index: nat): seq<Stmt>
  {
    var cb := CallbackOf(args);
    var i := Name("i", index);
    var elem := Idx(base, Ident(i));
    var values := if m in ReduceMethods then [Ident(Name(prefix, index)), elem, Ident(i), base] else [elem, Ident(i), base];
    Bindings(CallbackParams(cb), values) + StepStmts(cb, elem, Name("result", index))
  }

  /** The loop (and temporary) for one supported call `base.m(args)` at
      chain depth `index`, appended to the receiver's statements. */
  function LowerSupported(m: string, args: seq<Expr>, base: Lowered, prefix: string, index: nat): (r: Lowered)
    requires m in Supported
    ensures |r.stmts| == |base.stmts| + (if m == "forEach" then 1 else 2)
    ensures r.stmts[..|base.stmts|] == base.stmts
    ensures r.stmts[|r.stmts| - 1].For?
    ensures m != "forEach" ==> r.stmts[|base.stmts|].VarDecl? && r.expr == Ident(Name(prefix, index))
    ensures m == "forEach" ==> r.expr == Undef()
  {
    var i := Name("i", index);
    var result := Name("result", index);
    var temp := Name(prefix, index);
    var elem := Idx(base.expr, Ident(i));
    var step := Step(m, args, base.expr, prefix, index);
    if m in ReduceMethods then
      var initial := if |args| > 1 then args[1] else Undef();
      var body := step + [ExprStmt(AssignTo(Ident(temp), Ident(result)))];
      var loop := if m == "reduceRight" then DescLoop(i, base.expr, body) else AscLoop(i, base.expr, body);
      Lowered(Ident(temp), base.stmts + [Decl1(Let, temp, initial), loop])
    else
      if m == "forEach" then
        Lowered(Undef(), base.stmts + [AscLoop(i, base.expr, step)])
      else if m in BooleanReturning then
        var isEvery := m == "every";
        var test := if isEvery then Op("!", [Ident(result)]) else Ident(result);
        var exit := If(test, Block([ExprStmt(AssignTo(Ident(temp), BoolLit(!isEvery))), Break]), None);
        Lowered(Ident(temp), base.stmts + [Decl1(Let, temp, BoolLit(isEvery)), AscLoop(i, base.expr, step + [exit])])
      else if m in FindMethods then
        var isIndex := m == "findIndex" || m == "findLastIndex";
        var isLast := m == "findLast" || m == "findLastIndex";
        var seed := if isIndex then Op("-", [NumLit(1)]) else Undef();
        var found := if isIndex then Ident(i) else elem;
        var exit := If(Ident(result), Block([ExprStmt(AssignTo(Ident(temp), found)), Break]), None);
        var loop := if isLast then DescLoop(i, base.expr, step + [exit]) else AscLoop(i, base.expr, step + [exit]);
        Lowered(Ident(temp), base.stmts + [Decl1(Let, temp, seed), loop])
      else
        var push :=
          if m == "map" then Push(temp, Ident(result))
          else if m == "filter" then If(Ident(result), Push(temp, elem), None)
          else
            var j := Name("j", index);
            For([Decl1(Let, j, NumLit(0))], Some(Op("<", [Ident(j), Member(Ident(result), "length")])),
                Some(Op("x++", [Ident(j)])), Block([Push(temp, Idx(Ident(result), Ident(j)))]));
        Lowered(Ident(temp), base.stmts + [Decl1(Const, temp, ArrayLit([])), AscLoop(i, base.expr, step + [push])])
  }

  /** `transformChain(expression, statements, prefix, index)`: the receiver
      is lowered first (at depth `index + 1`), so its statements come
      first. An unsupported call is hoisted into a
      constant named after the prefix, the depth and the method, holding
      the call on the lowered receiver; a property access is
      re-applied to the lowered receiver; anything else ends the chain. */
  function TransformChain(e: Expr, st: seq<Stmt>, prefix: string, index: nat): (r: Lowered)
    ensures |r.stmts| >= |st| && r.stmts[..|st|] == st
  {
    match e
    case Call(Member(obj, m), args) =>
      var base := TransformChain(obj, st, prefix, index + 1);
      if m in Supported then
        LowerSupported(m, args, base, prefix, index)
      else
        var hoisted := Name(prefix, index) + "_" + m;
        Lowered(Ident(hoisted), base.stmts + [Decl1(Const, hoisted, Call(Member(base.expr, m), args))])
    case Member(obj, name) =>
      var base := TransformChain(obj, st, prefix, index + 1);
      Lowered(Member(base.expr, name), base.stmts)
    case _ => Lowered(e, st)
  }

  /** Number of `for` statements in a list. */
  function CountLoops(ss: seq<Stmt>): nat
  {
    if |ss| == 0 then 0 else CountLoops(ss[..|ss| - 1]) + (if ss[|ss| - 1].For? then 1 else 0)
  }

  lemma {:induction false} CountLoopsAppend(a: seq<Stmt>, b: seq<Stmt>)
    ensures CountLoops(a + b) == CountLoops(a) + CountLoops(b)
  {
    if |b| == 0 {
      assert a + b == a;
    } else {
      assert (a + b)[..|a + b| - 1] == a + b[..|b| - 1];
      CountLoopsAppend(a, b[..|b| - 1]);
    }
  }

  /** Supported calls reached through receivers: the calls that get a loop. */
  function ChainLoopCount(e: Expr): nat
  {
    match e
    case Call(Member(obj, m), _) => (if m in Supported then 1 else 0) + ChainLoopCount(obj)
    case Member(obj, _) => ChainLoopCount(obj)
    case _ => 0
  }

  /** Each supported call contributes exactly one loop. */
  lemma LowerSupportedLoops(m: string, args: seq<Expr>, base: Lowered, prefix: string, index: nat)
    requires m in Supported
    ensures CountLoops(LowerSupported(m, args, base, prefix, index).stmts) == CountLoops(base.stmts) + 1
  {
    var r := LowerSupported(m, args, base, prefix, index);
    var added := r.stmts[|base.stmts|..];
    assert r.stmts == base.stmts + added;
    CountLoopsAppend(base.stmts, added);
    if m != "forEach" {
      assert |added| == 2 && added[1].For? && !added[0].For?;
      assert added[..1][..0] == [];
      assert added[..1] == added[..|added| - 1];
      assert CountLoops(added[..1]) == 0;
    } else {
      assert added[..0] == [];
    }
  }

  /** Every supported call of the chain gets exactly one loop, whatever the
      prefix and depth, and the incoming statements stay in front. */
  lemma {:induction false} ChainLoops(e: Expr, st: seq<Stmt>, prefix: string, index: nat)
    ensures CountLoops(TransformChain(e, st, prefix, index).stmts) == CountLoops(st) + ChainLoopCount(e)
  {
    match e
    case Call(Member(obj, m), args) =>
      ChainLoops(obj, st, prefix, index + 1);
      var base := TransformChain(obj, st, prefix, index + 1);
      if m in Supported {
        LowerSupportedLoops(m, args, base, prefix, index);
      } else {
        var r := TransformChain(e, st, prefix, index);
        assert r.stmts[..|r.stmts| - 1] == base.stmts;
      }
    case Member(obj, _) => ChainLoops(obj, st, prefix, index + 1);
    case _ =>
  }

  /** How many statements the lowering of a chain emits does not depend on
      the names chosen. */
  lemma {:induction false} ChainLengthNameIndependent(e: Expr, st: seq<Stmt>, p1: string, p2: string, n1: nat, n2: nat)
    ensures |TransformChain(e, st, p1, n1).stmts| == |TransformChain(e, st, p2, n2).stmts|
  {
    match e
    case Call(Member(obj, m), args) => ChainLengthNameIndependent(obj, st, p1, p2, n1 + 1, n2 + 1);
    case Member(obj, _) => ChainLengthNameIndependent(obj, st, p1, p2, n1 + 1, n2 + 1);
    case _ =>
  }

  /** A chain that emits nothing is returned as it is. */
  lemma {:induction false} ChainUnchangedWhenNothingEmitted(e: Expr, st: seq<Stmt>, prefix: string, index: nat)
    ensures TransformChain(e, st, prefix, index).stmts == st ==> TransformChain(e, st, prefix, index).expr == e
  {
    match e
    case Call(Member(obj, m), args) =>
    case Member(obj, _) => ChainUnchangedWhenNothingEmitted(obj, st, prefix, index + 1);
    case _ =>
  }

  /** `transformExpression(node, prefix)`: a call or property access that
      contains a supported method and whose root is an array is lowered as
      a chain; otherwise a call's callee and arguments, an array literal's
      elements and an object literal's property values are searched, each
      with its own extended prefix, and their statements are collected in
      order. Any other node is returned with no statements. */
  function TransformExpression(node: Expr, prefix: string, arrayTyped: Expr -> bool): Lowered
  {
    if (node.Call? || node.Member?) && ContainsSupportedMethod(node) && arrayTyped(GetRootExpression(node)) then
      TransformChain(node, [], prefix, 1)
    else
      match node
      case Call(callee, args) =>
        var c := TransformExpression(callee, prefix + "_callee", arrayTyped);
        var rs := seq(|args|, i requires 0 <= i < |args| =>
                        TransformExpression(args[i], prefix + "_arg" + NatToString(i), arrayTyped));
        Lowered(Call(c.expr, seq(|rs|, i requires 0 <= i < |rs| => rs[i].expr)),
                c.stmts + Flatten(seq(|rs|, i requires 0 <= i < |rs| => rs[i].stmts)))
      case ArrayLit(elems) =>
        var rs := seq(|elems|, i requires 0 <= i < |elems| =>
                        TransformElem(elems[i], prefix + "_elem" + NatToString(i), arrayTyped));
        Lowered(ArrayLit(seq(|rs|, i requires 0 <= i < |rs| => rs[i].0)),
                Flatten(seq(|rs|, i requires 0 <= i < |rs| => rs[i].1)))
      case ObjectLit(props) =>
        var rs := seq(|props|, i requires 0 <= i < |props| =>
                        TransformProp(props[i], prefix + "_prop" + NatToString(i), arrayTyped));
        Lowered(ObjectLit(seq(|rs|, i requires 0 <= i < |rs| => rs[i].0)),
                Flatten(seq(|rs|, i requires 0 <= i < |rs| => rs[i].1)))
      case _ => Lowered(node, [])
  }

  /** A hole is kept; a value or spread source is transformed. */
  function TransformElem(a: ArrayElem, prefix: string, arrayTyped: Expr -> bool): (ArrayElem, seq<Stmt>)
  {
    match a
    case Hole => (Hole, [])
    case Item(x) => var r := TransformExpression(x, prefix, arrayTyped); (Item(r.expr), r.stmts)
    case Spread(x) => var r := TransformExpression(x, prefix, arrayTyped); (Spread(r.expr), r.stmts)
  }

  /** A `key: value` property has its value transformed; a shorthand
      property names an identifier, which transforms to itself; any other
      member is kept. */
  function TransformProp(p: ObjProp, prefix: string, arrayTyped: Expr -> bool): (ObjProp, seq<Stmt>)
  {
    match p
    case KeyValue(k, v) => var r := TransformExpression(v, prefix, arrayTyped); (KeyValue(k, r.expr), r.stmts)
    case _ => (p, [])
  }

  /** When no statement is emitted, the expression comes back unchanged:
      the pass only rewrites what it hoists. */
  lemma {:induction false} TransformUnchangedWhenNothingEmitted(node: Expr, prefix: string, arrayTyped: Expr -> bool)
    ensures TransformExpression(node, prefix, arrayTyped).stmts == [] ==>
            TransformExpression(node, prefix, arrayTyped).expr == node
    decreases node, 1
  {
    if TransformExpression(node, prefix, arrayTyped).stmts == [] {
      if (node.Call? || node.Member?) && ContainsSupportedMethod(node) && arrayTyped(GetRootExpression(node)) {
        ChainUnchangedWhenNothingEmitted(node, [], prefix, 1);
      } else if node.Call? {
        CallUnchanged(node, prefix, arrayTyped);
      } else if node.ArrayLit? {
        ArrayLitUnchanged(node, prefix, arrayTyped);
      } else if node.ObjectLit? {
        ObjectLitUnchanged(node, prefix, arrayTyped);
      }
    }
  }

  /** The searched call case of `TransformUnchangedWhenNothingEmitted`. */
  lemma {:induction false} CallUnchanged(node: Expr, prefix: string, arrayTyped: Expr -> bool)
    requires node.Call? && !(ContainsSupportedMethod(node) && arrayTyped(GetRootExpression(node)))
    requires TransformExpression(node, prefix, arrayTyped).stmts == []
    ensures TransformExpression(node, prefix, arrayTyped).expr == node
    decreases node, 0
  {
    var args := node.args;
    var c := TransformExpression(node.callee, prefix + "_callee", arrayTyped);
    var rs := seq(|args|, i requires 0 <= i < |args| =>
                    TransformExpression(args[i], prefix + "_arg" + NatToString(i), arrayTyped));
    var pieces := seq(|rs|, i requires 0 <= i < |rs| => rs[i].stmts);
    assert TransformExpression(node, prefix, arrayTyped)
        == Lowered(Call(c.expr, seq(|rs|, i requires 0 <= i < |rs| => rs[i].expr)), c.stmts + Flatten(pieces));
    FlattenEmpty(pieces);
    TransformUnchangedWhenNothingEmitted(node.callee, prefix + "_callee", arrayTyped);
    forall i | 0 <= i < |args| ensures rs[i].expr == args[i] {
      assert pieces[i] == rs[i].stmts;
      TransformUnchangedWhenNothingEmitted(args[i], prefix + "_arg" + NatToString(i), arrayTyped);
    }
    assert seq(|rs|, i requires 0 <= i < |rs| => rs[i].expr) == args;
  }

  /** The array literal case of `TransformUnchangedWhenNothingEmitted`. */
  lemma {:induction false} ArrayLitUnchanged(node: Expr, prefix: string, arrayTyped: Expr -> bool)
    requires node.ArrayLit?
    requires TransformExpression(node, prefix, arrayTyped).stmts == []
    ensures TransformExpression(node, prefix, arrayTyped).expr == node
    decreases node, 0
  {
    var elems := node.elems;
    var rs := seq(|elems|, i requires 0 <= i < |elems| =>
                    TransformElem(elems[i], prefix + "_elem" + NatToString(i), arrayTyped));
    var pieces := seq(|rs|, i requires 0 <= i < |rs| => rs[i].1);
    assert TransformExpression(node, prefix, arrayTyped)
        == Lowered(ArrayLit(seq(|rs|, i requires 0 <= i < |rs| => rs[i].0)), Flatten(pieces));
    FlattenEmpty(pieces);
    forall i | 0 <= i < |elems| ensures rs[i].0 == elems[i] {
      assert pieces[i] == rs[i].1;
      match elems[i]
      case Hole =>
      case Item(x) => TransformUnchangedWhenNothingEmitted(x, prefix + "_elem" + NatToString(i), arrayTyped);
      case Spread(x) => TransformUnchangedWhenNothingEmitted(x, prefix + "_elem" + NatToString(i), arrayTyped);
    }
    assert seq(|rs|, i requires 0 <= i < |rs| => rs[i].0) == elems;
  }

  /** The object literal case of `TransformUnchangedWhenNothingEmitted`. */
  lemma {:induction false} ObjectLitUnchanged(node: Expr, prefix: string, arrayTyped: Expr -> bool)
    requires node.ObjectLit?
    requires TransformExpression(node, prefix, arrayTyped).stmts == []
    ensures TransformExpression(node, prefix, arrayTyped).expr == node
    decreases node, 0
  {
    var props := node.props;
    var rs := seq(|props|, i requires 0 <= i < |props| =>
                    TransformProp(props[i], prefix + "_prop" + NatToString(i), arrayTyped));
    var pieces := seq(|rs|, i requires 0 <= i < |rs| => rs[i].1);
    assert TransformExpression(node, prefix, arrayTyped)
        == Lowered(ObjectLit(seq(|rs|, i requires 0 <= i < |rs| => rs[i].0)), Flatten(pieces));
    FlattenEmpty(pieces);
    forall i | 0 <= i < |props| ensures rs[i].0 == props[i] {
      assert pieces[i] == rs[i].1;
      match props[i]
      case KeyValue(k, v) => TransformUnchangedWhenNothingEmitted(v, prefix + "_prop" + NatToString(i), arrayTyped);
      case _ =>
    }
    assert seq(|rs|, i requires 0 <= i < |rs| => rs[i].0) == props;
  }

  /** Whether anything is hoisted does not depend on the prefix: the
      `temp_call` branch of the statement visitor, which repeats the
      `temp_standalone` attempt with another prefix, can never succeed. */
  lemma {:induction false} EmittedCountPrefixIndependent(node: Expr, p1: string, p2: string, arrayTyped: Expr -> bool)
    ensures |TransformExpression(node, p1, arrayTyped).stmts| == |TransformExpression(node, p2, arrayTyped).stmts|
    decreases node, 1
  {
    if (node.Call? || node.Member?) && ContainsSupportedMethod(node) && arrayTyped(GetRootExpression(node)) {
      ChainLengthNameIndependent(node, [], p1, p2, 1, 1);
    } else if node.Call? {
      CallCountPrefixIndependent(node, p1, p2, arrayTyped);
    } else if node.ArrayLit? {
      ArrayLitCountPrefixIndependent(node, p1, p2, arrayTyped);
    } else if node.ObjectLit? {
      ObjectLitCountPrefixIndependent(node, p1, p2, arrayTyped);
    }
  }

  /** The searched call case of `EmittedCountPrefixIndependent`. */
  lemma {:induction false} CallCountPrefixIndependent(node: Expr, p1: string, p2: string, arrayTyped: Expr -> bool)
    requires node.Call? && !(ContainsSupportedMethod(node) && arrayTyped(GetRootExpression(node)))
    ensures |TransformExpression(node, p1, arrayTyped).stmts| == |TransformExpression(node, p2, arrayTyped).stmts|
    decreases node, 0
  {
    var args := node.args;
    var c1 := TransformExpression(node.callee, p1 + "_callee", arrayTyped);
    var c2 := TransformExpression(node.callee, p2 + "_callee", arrayTyped);
    EmittedCountPrefixIndependent(node.callee, p1 + "_callee", p2 + "_callee", arrayTyped);
    var r1 := seq(|args|, i requires 0 <= i < |args| =>
                    TransformExpression(args[i], p1 + "_arg" + NatToString(i), arrayTyped));
    var r2 := seq(|args|, i requires 0 <= i < |args| =>
                    TransformExpression(args[i], p2 + "_arg" + NatToString(i), arrayTyped));
    var s1 := seq(|r1|, i requires 0 <= i < |r1| => r1[i].stmts);
    var s2 := seq(|r2|, i requires 0 <= i < |r2| => r2[i].stmts);
    assert TransformExpression(node, p1, arrayTyped).stmts == c1.stmts + Flatten(s1);
    assert TransformExpression(node, p2, arrayTyped).stmts == c2.stmts + Flatten(s2);
    forall i | 0 <= i < |args| ensures |s1[i]| == |s2[i]| {
      EmittedCountPrefixIndependent(args[i], p1 + "_arg" + NatToString(i), p2 + "_arg" + NatToString(i), arrayTyped);
    }
    FlattenLengths(s1, s2);
  }

  /** The array literal case of `EmittedCountPrefixIndependent`. */
  lemma {:induction false} ArrayLitCountPrefixIndependent(node: Expr, p1: string, p2: string, arrayTyped: Expr -> bool)
    requires node.ArrayLit?
    ensures |TransformExpression(node, p1, arrayTyped).stmts| == |TransformExpression(node, p2, arrayTyped).stmts|
    decreases node, 0
  {
    var elems := node.elems;
    var r1 := seq(|elems|, i requires 0 <= i < |elems| =>
                    TransformElem(elems[i], p1 + "_elem" + NatToString(i), arrayTyped));
    var r2 := seq(|elems|, i requires 0 <= i < |elems| =>
                    TransformElem(elems[i], p2 + "_elem" + NatToString(i), arrayTyped));
    var s1 := seq(|r1|, i requires 0 <= i < |r1| => r1[i].1);
    var s2 := seq(|r2|, i requires 0 <= i < |r2| => r2[i].1);
    assert TransformExpression(node, p1, arrayTyped).stmts == Flatten(s1);
    assert TransformExpression(node, p2, arrayTyped).stmts == Flatten(s2);
    forall i | 0 <= i < |elems| ensures |s1[i]| == |s2[i]| {
      match elems[i]
      case Hole =>
      case Item(x) => EmittedCountPrefixIndependent(x, p1 + "_elem" + NatToString(i), p2 + "_elem" + NatToString(i), arrayTyped);
      case Spread(x) => EmittedCountPrefixIndependent(x, p1 + "_elem" + NatToString(i), p2 + "_elem" + NatToString(i), arrayTyped);
    }
    FlattenLengths(s1, s2);
  }

  /** The object literal case of `EmittedCountPrefixIndependent`. */
  lemma {:induction false} ObjectLitCountPrefixIndependent(node: Expr, p1: string, p2: string, arrayTyped: Expr -> bool)
    requires node.ObjectLit?
    ensures |TransformExpression(node, p1, arrayTyped).stmts| == |TransformExpression(node, p2, arrayTyped).stmts|
    decreases node, 0
  {
    var props := node.props;
    var r1 := seq(|props|, i requires 0 <= i < |props| =>
                    TransformProp(props[i], p1 + "_prop" + NatToString(i), arrayTyped));
    var r2 := seq(|props|, i requires 0 <= i < |props| =>
                    TransformProp(props[i], p2 + "_prop" + NatToString(i), arrayTyped));
    var s1 := seq(|r1|, i requires 0 <= i < |r1| => r1[i].1);
    var s2 := seq(|r2|, i requires 0 <= i < |r2| => r2[i].1);
    assert TransformExpression(node, p1, arrayTyped).stmts == Flatten(s1);
    assert TransformExpression(node, p2, arrayTyped).stmts == Flatten(s2);
    forall i | 0 <= i < |props| ensures |s1[i]| == |s2[i]| {
      match props[i]
      case KeyValue(k, v) => EmittedCountPrefixIndependent(v, p1 + "_prop" + NatToString(i), p2 + "_prop" + NatToString(i), arrayTyped);
      case _ =>
    }
    FlattenLengths(s1, s2);
  }

  /** The declared name's text, used in the `temp_<name>` prefix. For a
      pattern the source uses the pattern's source text, which is not an
      identifier; the word `pattern` stands in for it. */
  function PatternText(p: Pattern): string
  {
    match p
    case PIdent(n) => n
    case _ => "pattern"
  }

  /** The rewrites the visitor tries on a statement, in the source's
      order: a single-declarator declaration with an initialiser, an
      assignment statement, a standalone call/property access/array/object
      expression, a `return` with an expression, and a declaration under
      `export`, which keeps its modifier. When the expression hoists
      statements, the answer is those statements followed by the rebuilt
      statement; a standalone expression whose result is not a call is
      dropped. `None` when nothing is hoisted. */
  function Hoist(s: Stmt, arrayTyped: Expr -> bool): (r: Option<seq<Stmt>>)
    ensures r.Some? ==> |r.value| >= 1 || (s.ExprStmt? && !s.expr.Op?)
    ensures r.Some? && s.VarDecl? ==> |r.value| >= 2 && r.value[|r.value| - 1].VarDecl? && r.value[|r.value| - 1].kind == s.kind
    ensures r.Some? && s.Return? ==> |r.value| >= 2 && r.value[|r.value| - 1].Return?
    ensures r.Some? && s.ExportNamed? ==> |r.value| >= 2 && r.value[|r.value| - 1].ExportNamed?
  {
    match s
    case VarDecl(k, ds) =>
      if |ds| == 1 && ds[0].init.Some? then
        var t := TransformExpression(ds[0].init.value, "temp_" + PatternText(ds[0].id), arrayTyped);
        if |t.stmts| > 0 then Some(t.stmts + [VarDecl(k, [Declarator(ds[0].id, Some(t.expr))])]) else None
      else None
    case ExprStmt(x) =>
      if x.Op? && x.op == "=" && |x.operands| == 2 then
        var left := x.operands[0];
        var t := TransformExpression(x.operands[1], "temp_" + (if left.Ident? then left.name else "temp"), arrayTyped);
        if |t.stmts| > 0 then Some(t.stmts + [ExprStmt(AssignTo(left, t.expr))]) else None
      else if x.Call? || x.Member? || x.ArrayLit? || x.ObjectLit? then
        var t := TransformExpression(x, "temp_standalone", arrayTyped);
        if |t.stmts| > 0 && !t.expr.Call? then Some(t.stmts)
        else if |t.stmts| > 0 then Some(t.stmts + [ExprStmt(t.expr)])
        else if x.Call? then
          var c := TransformExpression(x, "temp_call", arrayTyped);
          if |c.stmts| > 0 then Some(c.stmts + [ExprStmt(c.expr)]) else None
        else None
      else None
    case Return(Some(x)) =>
      var t := TransformExpression(x, "temp_return", arrayTyped);
      if |t.stmts| > 0 then Some(t.stmts + [Return(Some(t.expr))]) else None
    case ExportNamed(Some(d)) =>
      if d.VarDecl? then
        match Hoist(d, arrayTyped)
        case Some(h) => Some(h[..|h| - 1] + [ExportNamed(Some(h[|h| - 1]))])
        case None => None
      else None
    case _ => None
  }

  /** The statement visitor: a statement that hoists is replaced by what
      `Hoist` answers and is not visited further; any other statement is
      rebuilt with every child visited, statements and expressions alike,
      so that function bodies nested anywhere in it are reached. */
  function VisitStmt(s: Stmt, arrayTyped: Expr -> bool): (r: seq<Stmt>)
    ensures |r| >= 1 || (s.ExprStmt? && !s.expr.Op?)
    ensures s.VarDecl? ==> r[|r| - 1].VarDecl? && r[|r| - 1].kind == s.kind
    ensures s.Return? ==> r[|r| - 1].Return?
    decreases s, 1
  {
    match Hoist(s, arrayTyped)
    case Some(h) => h
    case None => [VisitChildren(s, arrayTyped)]
  }

  function VisitStmts(ss: seq<Stmt>, arrayTyped: Expr -> bool): seq<Stmt>
    decreases ss, 0
  {
    Flatten(seq(|ss|, i requires 0 <= i < |ss| => VisitStmt(ss[i], arrayTyped)))
  }

  /** A statement with its children visited and its own kind kept. A
      statement list where one statement stands is lifted into a block; the
      initialisers of a `for` header are not statements of their own and
      are only searched. Binding patterns are kept as they are. */
  function VisitChildren(s: Stmt, arrayTyped: Expr -> bool): (r: Stmt)
    ensures s.VarDecl? ==> r.VarDecl? && r.kind == s.kind
    ensures s.Return? ==> r.Return?
    decreases s, 0
  {
    match s
    case VarDecl(k, ds) => VarDecl(k, VisitDecls(ds, arrayTyped))
    case ExprStmt(x) => ExprStmt(VisitExpr(x, arrayTyped))
    case Return(o) => Return(VisitOpt(o, arrayTyped))
    case Throw(x) => Throw(VisitExpr(x, arrayTyped))
    case If(c, y, n) =>
      If(VisitExpr(c, arrayTyped), Lift(VisitStmt(y, arrayTyped)),
         match n case None => None case Some(z) => Some(Lift(VisitStmt(z, arrayTyped))))
    case Block(ss) => Block(VisitStmts(ss, arrayTyped))
    case For(init, t, u, b) =>
      For(seq(|init|, i requires 0 <= i < |init| => VisitChildren(init[i], arrayTyped)),
          VisitOpt(t, arrayTyped), VisitOpt(u, arrayTyped), Lift(VisitStmt(b, arrayTyped)))
    case ForIn(h, x, b) => ForIn(VisitHead(h, arrayTyped), VisitExpr(x, arrayTyped), Lift(VisitStmt(b, arrayTyped)))
    case ForOf(h, x, b) => ForOf(VisitHead(h, arrayTyped), VisitExpr(x, arrayTyped), Lift(VisitStmt(b, arrayTyped)))
    case While(t, b) => While(VisitExpr(t, arrayTyped), Lift(VisitStmt(b, arrayTyped)))
    case DoWhile(b, t) => DoWhile(Lift(VisitStmt(b, arrayTyped)), VisitExpr(t, arrayTyped))
    case FuncDecl(n, ps, body) => FuncDecl(n, ps, VisitStmts(body, arrayTyped))
    case ExportNamed(Some(d)) => ExportNamed(Some(VisitChildren(d, arrayTyped)))
    case ExportDefault(DefaultStmt(d)) => ExportDefault(DefaultStmt(VisitChildren(d, arrayTyped)))
    case ExportDefault(DefaultValue(x)) => ExportDefault(DefaultValue(VisitExpr(x, arrayTyped)))
    case _ => s
  }

  /** An expression with its children visited: nothing in an expression
      hoists by itself, but a function or arrow body inside it is a
      statement list the visitor enters. */
  function VisitExpr(e: Expr, arrayTyped: Expr -> bool): (r: Expr)
    ensures r.Func? <==> e.Func?
    decreases e, 0
  {
    match e
    case ArrayLit(elems) =>
      ArrayLit(seq(|elems|, i requires 0 <= i < |elems| => VisitElem(elems[i], arrayTyped)))
    case ObjectLit(props) =>
      ObjectLit(seq(|props|, i requires 0 <= i < |props| => VisitProp(props[i], arrayTyped)))
    case Member(obj, prop) => Member(VisitExpr(obj, arrayTyped), prop)
    case Call(callee, args) =>
      Call(VisitExpr(callee, arrayTyped), seq(|args|, i requires 0 <= i < |args| => VisitExpr(args[i], arrayTyped)))
    case Func(ps, BodyExpr(x)) => Func(ps, BodyExpr(VisitExpr(x, arrayTyped)))
    case Func(ps, BodyBlock(ss)) => Func(ps, BodyBlock(VisitStmts(ss, arrayTyped)))
    case Op(op, xs) => Op(op, seq(|xs|, i requires 0 <= i < |xs| => VisitExpr(xs[i], arrayTyped)))
    case _ => e
  }

  function VisitElem(a: ArrayElem, arrayTyped: Expr -> bool): ArrayElem
    decreases a, 0
  {
    match a
    case Hole => Hole
    case Item(x) => Item(VisitExpr(x, arrayTyped))
    case Spread(x) => Spread(VisitExpr(x, arrayTyped))
  }

  function VisitProp(p: ObjProp, arrayTyped: Expr -> bool): ObjProp
    decreases p, 0
  {
    match p
    case KeyValue(k, v) => KeyValue(k, VisitExpr(v, arrayTyped))
    case Shorthand(n) => Shorthand(n)
    case SpreadProp(x) => SpreadProp(VisitExpr(x, arrayTyped))
  }

  function VisitOpt(o: Option<Expr>, arrayTyped: Expr -> bool): Option<Expr>
    decreases o, 0
  {
    match o
    case None => None
    case Some(x) => Some(VisitExpr(x, arrayTyped))
  }

  function VisitDecls(ds: seq<Declarator>, arrayTyped: Expr -> bool): seq<Declarator>
    decreases ds, 0
  {
    seq(|ds|, i requires 0 <= i < |ds| => VisitDecl(ds[i], arrayTyped))
  }

  function VisitDecl(d: Declarator, arrayTyped: Expr -> bool): Declarator
    decreases d, 0
  {
    Declarator(d.id, VisitOpt(d.init, arrayTyped))
  }

  function VisitHead(h: ForHead, arrayTyped: Expr -> bool): ForHead
    decreases h, 0
  {
    match h
    case HeadDecl(k, ds) => HeadDecl(k, VisitDecls(ds, arrayTyped))
    case HeadTarget(p) => HeadTarget(p)
  }

  /* ---- A file without a supported call comes back as it was ---- */

  /** No supported call anywhere in `e` means no chain to lower. */
  lemma {:induction false} QuietNoChain(e: Expr)
    requires HitsExpr(e, NamesSupported, false) == []
    ensures !ContainsSupportedMethod(e)
  {
    match e
    case Call(callee, args) =>
      assert !NamesSupported(e);
      assert HitsExpr(callee, NamesSupported, false) == [];
      if callee.Member? {
        assert HitsExpr(callee.obj, NamesSupported, false) == [];
        QuietNoChain(callee.obj);
      } else if callee.Call? {
        QuietNoChain(callee);
      }
    case Member(obj, _) =>
      assert HitsExpr(obj, NamesSupported, false) == [];
      QuietNoChain(obj);
    case _ =>
  }

  /** No supported call anywhere in `e` means nothing is hoisted from it. */
  lemma {:induction false} QuietEmits(e: Expr, prefix: string, arrayTyped: Expr -> bool)
    requires HitsExpr(e, NamesSupported, false) == []
    ensures TransformExpression(e, prefix, arrayTyped).stmts == []
    decreases e, 1
  {
    QuietNoChain(e);
    if e.Call? {
      QuietEmitsCall(e, prefix, arrayTyped);
    } else if e.ArrayLit? || e.ObjectLit? {
      QuietEmitsLit(e, prefix, arrayTyped);
    }
  }

  lemma {:induction false} QuietEmitsCall(e: Expr, prefix: string, arrayTyped: Expr -> bool)
    requires e.Call? && !ContainsSupportedMethod(e) && HitsExpr(e, NamesSupported, false) == []
    ensures TransformExpression(e, prefix, arrayTyped).stmts == []
    decreases e, 0
  {
    var args := e.args;
    var hs := seq(|args|, i requires 0 <= i < |args| => HitsExpr(args[i], NamesSupported, false));
    assert !NamesSupported(e);
    assert HitsExpr(e.callee, NamesSupported, false) + Flatten(hs) == [];
    FlattenEmpty(hs);
    QuietEmits(e.callee, prefix + "_callee", arrayTyped);
    var rs := seq(|args|, i requires 0 <= i < |args| =>
                    TransformExpression(args[i], prefix + "_arg" + NatToString(i), arrayTyped));
    var pieces := seq(|rs|, i requires 0 <= i < |rs| => rs[i].stmts);
    forall i | 0 <= i < |args| ensures pieces[i] == [] {
      assert hs[i] == [];
      QuietEmits(args[i], prefix + "_arg" + NatToString(i), arrayTyped);
    }
    FlattenEmpty(pieces);
    assert TransformExpression(e, prefix, arrayTyped).stmts
        == TransformExpression(e.callee, prefix + "_callee", arrayTyped).stmts + Flatten(pieces);
  }

  lemma {:induction false} QuietEmitsLit(e: Expr, prefix: string, arrayTyped: Expr -> bool)
    requires (e.ArrayLit? || e.ObjectLit?) && HitsExpr(e, NamesSupported, false) == []
    ensures TransformExpression(e, prefix, arrayTyped).stmts == []
    decreases e, 0
  {
    assert !NamesSupported(e);
    match e
    case ArrayLit(elems) =>
      var hs := seq(|elems|, i requires 0 <= i < |elems| => HitsElem(elems[i], NamesSupported, false));
      FlattenEmpty(hs);
      var rs := seq(|elems|, i requires 0 <= i < |elems| =>
                      TransformElem(elems[i], prefix + "_elem" + NatToString(i), arrayTyped));
      var pieces := seq(|rs|, i requires 0 <= i < |rs| => rs[i].1);
      forall i | 0 <= i < |elems| ensures pieces[i] == [] {
        assert hs[i] == [];
        match elems[i]
        case Hole =>
        case Item(x) => QuietEmits(x, prefix + "_elem" + NatToString(i), arrayTyped);
        case Spread(x) => QuietEmits(x, prefix + "_elem" + NatToString(i), arrayTyped);
      }
      FlattenEmpty(pieces);
      assert TransformExpression(e, prefix, arrayTyped).stmts == Flatten(pieces);
    case ObjectLit(props) =>
      var hs := seq(|props|, i requires 0 <= i < |props| => HitsProp(props[i], NamesSupported, false));
      FlattenEmpty(hs);
      var rs := seq(|props|, i requires 0 <= i < |props| =>
                      TransformProp(props[i], prefix + "_prop" + NatToString(i), arrayTyped));
      var pieces := seq(|rs|, i requires 0 <= i < |rs| => rs[i].1);
      forall i | 0 <= i < |props| ensures pieces[i] == [] {
        assert hs[i] == [];
        match props[i]
        case KeyValue(_, v) => QuietEmits(v, prefix + "_prop" + NatToString(i), arrayTyped);
        case _ =>
      }
      FlattenEmpty(pieces);
      assert TransformExpression(e, prefix, arrayTyped).stmts == Flatten(pieces);
  }

  /** No supported call in `s` means none of the visitor's rewrites applies. */
  lemma {:induction false} QuietHoist(s: Stmt, arrayTyped: Expr -> bool)
    requires HitsStmt(s, NamesSupported, false) == []
    ensures Hoist(s, arrayTyped).None?
  {
    match s
    case VarDecl(k, ds) => QuietHoistDecl(s, arrayTyped);
    case ExprStmt(x) => QuietHoistExpr(s, arrayTyped);
    case Return(Some(x)) => QuietEmits(x, "temp_return", arrayTyped);
    case ExportNamed(Some(d)) => QuietHoist(d, arrayTyped);
    case _ =>
  }

  lemma QuietHoistDecl(s: Stmt, arrayTyped: Expr -> bool)
    requires s.VarDecl? && HitsStmt(s, NamesSupported, false) == []
    ensures Hoist(s, arrayTyped).None?
  {
    var ds := s.decls;
    if |ds| == 1 && ds[0].init.Some? {
      var hs := seq(|ds|, i requires 0 <= i < |ds| => HitsDecl(ds[i], NamesSupported, false));
      assert HitsDecls(ds, NamesSupported, false) == Flatten(hs);
      FlattenEmpty(hs);
      assert hs[0] == [];
      assert HitsDecl(ds[0], NamesSupported, false) == HitsOpt(ds[0].init, NamesSupported, false);
      QuietEmits(ds[0].init.value, "temp_" + PatternText(ds[0].id), arrayTyped);
    }
  }

  lemma QuietHoistExpr(s: Stmt, arrayTyped: Expr -> bool)
    requires s.ExprStmt? && HitsStmt(s, NamesSupported, false) == []
    ensures Hoist(s, arrayTyped).None?
  {
    var x := s.expr;
    if x.Op? && x.op == "=" && |x.operands| == 2 {
      var hs := seq(2, i requires 0 <= i < 2 => HitsExpr(x.operands[i], NamesSupported, false));
      assert !NamesSupported(x);
      FlattenEmpty(hs);
      assert hs[1] == [];
      var left := x.operands[0];
      QuietEmits(x.operands[1], "temp_" + (if left.Ident? then left.name else "temp"), arrayTyped);
    } else if x.Call? || x.Member? || x.ArrayLit? || x.ObjectLit? {
      QuietEmits(x, "temp_standalone", arrayTyped);
      QuietEmits(x, "temp_call", arrayTyped);
    }
  }

  lemma {:induction false} QuietStmts(ss: seq<Stmt>, arrayTyped: Expr -> bool)
    requires HitsStmts(ss, NamesSupported, false) == []
    ensures VisitStmts(ss, arrayTyped) == ss
    decreases ss, 3
  {
    var hs := seq(|ss|, i requires 0 <= i < |ss| => HitsStmt(ss[i], NamesSupported, false));
    FlattenEmpty(hs);
    var pieces := seq(|ss|, i requires 0 <= i < |ss| => VisitStmt(ss[i], arrayTyped));
    forall i | 0 <= i < |ss| ensures pieces[i] == [ss[i]] {
      assert hs[i] == [];
      QuietStmt(ss[i], arrayTyped);
    }
    FlattenSingletons(pieces, ss);
  }

  lemma {:induction false} QuietStmt(s: Stmt, arrayTyped: Expr -> bool)
    requires HitsStmt(s, NamesSupported, false) == []
    ensures VisitStmt(s, arrayTyped) == [s]
    decreases s, 2
  {
    QuietHoist(s, arrayTyped);
    QuietChildren(s, arrayTyped);
  }

  lemma {:induction false} QuietChildren(s: Stmt, arrayTyped: Expr -> bool)
    requires HitsStmt(s, NamesSupported, false) == []
    ensures VisitChildren(s, arrayTyped) == s
    decreases s, 1
  {
    if s.For? || s.ForIn? || s.ForOf? || s.While? || s.DoWhile? {
      QuietLoop(s, arrayTyped);
    } else {
      QuietPlain(s, arrayTyped);
    }
  }

  lemma {:induction false} QuietLoop(s: Stmt, arrayTyped: Expr -> bool)
    requires HitsStmt(s, NamesSupported, false) == []
    requires s.For? || s.ForIn? || s.ForOf? || s.While? || s.DoWhile?
    ensures VisitChildren(s, arrayTyped) == s
    decreases s, 0
  {
    match s
    case For(init, t, u, b) =>
      var hs := seq(|init|, i requires 0 <= i < |init| => HitsStmt(init[i], NamesSupported, false));
      FlattenEmpty(hs);
      forall i | 0 <= i < |init| ensures VisitChildren(init[i], arrayTyped) == init[i] {
        assert hs[i] == [];
        QuietChildren(init[i], arrayTyped);
      }
      assert seq(|init|, i requires 0 <= i < |init| => VisitChildren(init[i], arrayTyped)) == init;
      QuietOpt(t, arrayTyped);
      QuietOpt(u, arrayTyped);
      QuietStmt(b, arrayTyped);
    case ForIn(h, x, b) =>
      QuietHead(h, arrayTyped);
      QuietExpr(x, arrayTyped);
      QuietStmt(b, arrayTyped);
    case ForOf(h, x, b) =>
      QuietHead(h, arrayTyped);
      QuietExpr(x, arrayTyped);
      QuietStmt(b, arrayTyped);
    case While(t, b) =>
      QuietExpr(t, arrayTyped);
      QuietStmt(b, arrayTyped);
    case DoWhile(b, t) =>
      QuietStmt(b, arrayTyped);
      QuietExpr(t, arrayTyped);
  }

  lemma {:induction false} QuietPlain(s: Stmt, arrayTyped: Expr -> bool)
    requires HitsStmt(s, NamesSupported, false) == []
    requires !(s.For? || s.ForIn? || s.ForOf? || s.While? || s.DoWhile?)
    ensures VisitChildren(s, arrayTyped) == s
    decreases s, 0
  {
    match s
    case VarDecl(_, ds) => QuietDecls(ds, arrayTyped);
    case ExprStmt(x) => QuietExpr(x, arrayTyped);
    case Return(o) => QuietOpt(o, arrayTyped);
    case Throw(x) => QuietExpr(x, arrayTyped);
    case If(c, y, n) =>
      QuietExpr(c, arrayTyped);
      QuietStmt(y, arrayTyped);
      if n.Some? { QuietStmt(n.value, arrayTyped); }
    case Block(ss) => QuietStmts(ss, arrayTyped);
    case FuncDecl(_, _, body) => QuietStmts(body, arrayTyped);
    case ExportNamed(d) => if d.Some? { QuietChildren(d.value, arrayTyped); }
    case ExportDefault(DefaultStmt(t)) => QuietChildren(t, arrayTyped);
    case ExportDefault(DefaultValue(x)) => QuietExpr(x, arrayTyped);
    case _ =>
  }

  lemma {:induction false} QuietExpr(e: Expr, arrayTyped: Expr -> bool)
    requires HitsExpr(e, NamesSupported, false) == []
    ensures VisitExpr(e, arrayTyped) == e
    decreases e, 1
  {
    assert !NamesSupported(e);
    match e
    case ArrayLit(elems) =>
      var hs := seq(|elems|, i requires 0 <= i < |elems| => HitsElem(elems[i], NamesSupported, false));
      FlattenEmpty(hs);
      forall i | 0 <= i < |elems| ensures VisitElem(elems[i], arrayTyped) == elems[i] {
        assert hs[i] == [];
        QuietElem(elems[i], arrayTyped);
      }
      assert seq(|elems|, i requires 0 <= i < |elems| => VisitElem(elems[i], arrayTyped)) == elems;
    case ObjectLit(props) =>
      var hs := seq(|props|, i requires 0 <= i < |props| => HitsProp(props[i], NamesSupported, false));
      FlattenEmpty(hs);
      forall i | 0 <= i < |props| ensures VisitProp(props[i], arrayTyped) == props[i] {
        assert hs[i] == [];
        QuietProp(props[i], arrayTyped);
      }
      assert seq(|props|, i requires 0 <= i < |props| => VisitProp(props[i], arrayTyped)) == props;
    case Call(_, _) => QuietArgs(e, arrayTyped);
    case Op(_, _) => QuietArgs(e, arrayTyped);
    case Member(obj, _) => QuietExpr(obj, arrayTyped);
    case Func(_, BodyExpr(x)) => QuietExpr(x, arrayTyped);
    case Func(_, BodyBlock(ss)) => QuietStmts(ss, arrayTyped);
    case _ =>
  }

  lemma {:induction false} QuietArgs(e: Expr, arrayTyped: Expr -> bool)
    requires (e.Call? || e.Op?) && HitsExpr(e, NamesSupported, false) == []
    ensures VisitExpr(e, arrayTyped) == e
    decreases e, 0
  {
    assert !NamesSupported(e);
    var xs := if e.Call? then e.args else e.operands;
    var hs := seq(|xs|, i requires 0 <= i < |xs| => HitsExpr(xs[i], NamesSupported, false));
    if e.Call? {
      assert HitsExpr(e.callee, NamesSupported, false) + Flatten(hs) == [];
      QuietExpr(e.callee, arrayTyped);
    } else {
      assert Flatten(hs) == [];
    }
    FlattenEmpty(hs);
    forall i | 0 <= i < |xs| ensures VisitExpr(xs[i], arrayTyped) == xs[i] {
      assert hs[i] == [];
      QuietExpr(xs[i], arrayTyped);
    }
    assert seq(|xs|, i requires 0 <= i < |xs| => VisitExpr(xs[i], arrayTyped)) == xs;
  }

  lemma {:induction false} QuietElem(a: ArrayElem, arrayTyped: Expr -> bool)
    requires HitsElem(a, NamesSupported, false) == []
    ensures VisitElem(a, arrayTyped) == a
    decreases a, 0
  {
    match a
    case Hole =>
    case Item(x) => QuietExpr(x, arrayTyped);
    case Spread(x) => QuietExpr(x, arrayTyped);
  }

  lemma {:induction false} QuietProp(p: ObjProp, arrayTyped: Expr -> bool)
    requires HitsProp(p, NamesSupported, false) == []
    ensures VisitProp(p, arrayTyped) == p
    decreases p, 0
  {
    match p
    case KeyValue(_, v) => QuietExpr(v, arrayTyped);
    case Shorthand(_) =>
    case SpreadProp(x) => QuietExpr(x, arrayTyped);
  }

  lemma {:induction false} QuietOpt(o: Option<Expr>, arrayTyped: Expr -> bool)
    requires HitsOpt(o, NamesSupported, false) == []
    ensures VisitOpt(o, arrayTyped) == o
    decreases o, 0
  {
    if o.Some? { QuietExpr(o.value, arrayTyped); }
  }

  lemma {:induction false} QuietDecls(ds: seq<Declarator>, arrayTyped: Expr -> bool)
    requires HitsDecls(ds, NamesSupported, false) == []
    ensures VisitDecls(ds, arrayTyped) == ds
    decreases ds, 1
  {
    var hs := seq(|ds|, i requires 0 <= i < |ds| => HitsDecl(ds[i], NamesSupported, false));
    FlattenEmpty(hs);
    forall i | 0 <= i < |ds| ensures VisitDecl(ds[i], arrayTyped) == ds[i] {
      assert hs[i] == [];
      QuietDecl(ds[i], arrayTyped);
    }
    assert seq(|ds|, i requires 0 <= i < |ds| => VisitDecl(ds[i], arrayTyped)) == ds;
  }

  lemma {:induction false} QuietDecl(d: Declarator, arrayTyped: Expr -> bool)
    requires HitsDecl(d, NamesSupported, false) == []
    ensures VisitDecl(d, arrayTyped) == d
    decreases d, 0
  {
    QuietOpt(d.init, arrayTyped);
  }

  lemma {:induction false} QuietHead(h: ForHead, arrayTyped: Expr -> bool)
    requires HitsHead(h, NamesSupported, false) == []
    ensures VisitHead(h, arrayTyped) == h
    decreases h, 1
  {
    if h.HeadDecl? { QuietDecls(h.hdecls, arrayTyped); }
  }

  /** A file in which no supported method is called, at any depth, comes
      back exactly as it was. */
  lemma VisitUntouched(ss: seq<Stmt>, arrayTyped: Expr -> bool)
    ensures HitsStmts(ss, NamesSupported, false) == [] ==> VisitStmts(ss, arrayTyped) == ss
  {
    if HitsStmts(ss, NamesSupported, false) == [] {
      QuietStmts(ss, arrayTyped);
    }
  }

  /** A function declared by a `const`/`let`/`var` is entered: its body
      comes back visited, whatever the declaration itself hoists. */
  lemma NestedBodyVisited(k: Kind, n: string, ps: seq<Pattern>, ss: seq<Stmt>, arrayTyped: Expr -> bool)
    ensures VisitStmt(Decl1(k, n, Func(ps, BodyBlock(ss))), arrayTyped)
         == [Decl1(k, n, Func(ps, BodyBlock(VisitStmts(ss, arrayTyped))))]
  {
    var f := Func(ps, BodyBlock(ss));
    var d := Declarator(PIdent(n), Some(f));
    assert TransformExpression(f, "temp_" + n, arrayTyped).stmts == [];
    assert Hoist(Decl1(k, n, f), arrayTyped).None?;
    assert VisitExpr(f, arrayTyped) == Func(ps, BodyBlock(VisitStmts(ss, arrayTyped)));
    assert VisitDecl(d, arrayTyped) == Declarator(PIdent(n), Some(VisitExpr(f, arrayTyped)));
    assert VisitDecls([d], arrayTyped) == [VisitDecl(d, arrayTyped)];
  }

  /** `xs.map(g)` over an array `xs`, searched under the prefix
      `temp_ys`: an empty temporary and its loop, and the temporary as the
      value. */
  lemma MapCallLowered(arrayTyped: Expr -> bool)
    requires arrayTyped(Ident("xs"))
    ensures var t := TransformExpression(Call(Member(Ident("xs"), "map"), [Ident("g")]), "temp_ys", arrayTyped);
            t.expr == Ident("temp_ys_1") && |t.stmts| == 2
            && t.stmts[0] == Decl1(Const, "temp_ys_1", ArrayLit([])) && t.stmts[1].For?
  {
    var call := Call(Member(Ident("xs"), "map"), [Ident("g")]);
    assert ContainsSupportedMethod(call) && GetRootExpression(call) == Ident("xs");
    assert TransformChain(Ident("xs"), [], "temp_ys", 2) == Lowered(Ident("xs"), []);
    assert Name("temp_ys", 1) == "temp_ys_1";
  }

  /** A one-statement list is visited as its statement. */
  lemma VisitSingle(s: Stmt, arrayTyped: Expr -> bool)
    ensures VisitStmts([s], arrayTyped) == VisitStmt(s, arrayTyped)
  {
    var pieces := seq(1, i requires 0 <= i < 1 => VisitStmt([s][i], arrayTyped));
    assert VisitStmts([s], arrayTyped) == Flatten(pieces);
    assert pieces == [VisitStmt(s, arrayTyped)];
    FlattenSingle(VisitStmt(s, arrayTyped));
  }

  /** `const ys = xs.map(g);` over an array `xs`: the temporary, its
      loop, and `ys` reading the temporary. */
  lemma MapDeclLowered(arrayTyped: Expr -> bool)
    requires arrayTyped(Ident("xs"))
    ensures var body := VisitStmts([Decl1(Const, "ys", Call(Member(Ident("xs"), "map"), [Ident("g")]))], arrayTyped);
            |body| == 3 && body[0] == Decl1(Const, "temp_ys_1", ArrayLit([])) && body[1].For?
            && body[2] == Decl1(Const, "ys", Ident("temp_ys_1"))
  {
    var inner := Decl1(Const, "ys", Call(Member(Ident("xs"), "map"), [Ident("g")]));
    MapCallLowered(arrayTyped);
    assert "temp_" + PatternText(PIdent("ys")) == "temp_ys";
    VisitSingle(inner, arrayTyped);
  }

  /** `const f = () => { const ys = xs.map(g); };` over an array `xs`:
      the chain inside the arrow body is lowered to a temporary and its
      loop, and `ys` reads the temporary. */
  lemma NestedChainLowered(arrayTyped: Expr -> bool)
    requires arrayTyped(Ident("xs"))
    ensures var inner := Decl1(Const, "ys", Call(Member(Ident("xs"), "map"), [Ident("g")]));
            var body := VisitStmts([inner], arrayTyped);
            VisitStmt(Decl1(Const, "f", Func([], BodyBlock([inner]))), arrayTyped)
              == [Decl1(Const, "f", Func([], BodyBlock(body)))]
            && |body| == 3 && body[0] == Decl1(Const, "temp_ys_1", ArrayLit([])) && body[1].For?
            && body[2] == Decl1(Const, "ys", Ident("temp_ys_1"))
  {
    var inner := Decl1(Const, "ys", Call(Member(Ident("xs"), "map"), [Ident("g")]));
    NestedBodyVisited(Const, "f", [], [inner], arrayTyped);
    MapDeclLowered(arrayTyped);
  }

  /** The `temp_call` attempt of the visitor never hoists anything the
      `temp_standalone` attempt did not. */
  lemma TempCallBranchNeverHoists(x: Expr, arrayTyped: Expr -> bool)
    requires |TransformExpression(x, "temp_standalone", arrayTyped).stmts| == 0
    ensures |TransformExpression(x, "temp_call", arrayTyped).stmts| == 0
  {
    EmittedCountPrefixIndependent(x, "temp_standalone", "temp_call", arrayTyped);
  }
}
