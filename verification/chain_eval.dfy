/** An evaluator for the statements the functional-chain lowering emits,
    and what running them computes. The evaluator covers the fragment the
    generated loops use: names, literals, `a.length`, `a[k]`, `<`, `>=`,
    `-`, `!`, assignment to a name, `x++`, `--x`, `name.push(v)`,
    declarations of one name, `if`, blocks, `break` and `for`. Everything
    else (the callback's own code, calls, other operators) is answered by
    a `World` given as a parameter. Loops are run with fuel: a run that
    needs more iterations than the fuel allows is `Stuck`.

    Each supported method is shown to compute its meaning from the
    `ChainLoops` definitions, given only what the callback's statements
    compute for one element (`StepMaps`, `StepFolds`). */
module ChainEval {
  import opened Base
  import opened Ast
  import opened Values
  import AF = ArrayFunctional
  import CL = ChainLoops

  /** The bindings in scope. Arrays are values here: a generated
      temporary is never aliased, so `push` may rebind it. */
  type Env = map<string, Value>

  /** How the rest of the language evaluates an expression or runs a
      statement: `None` when it throws. */
  datatype World = World(expr: (Expr, Env) -> Option<Value>, stmt: (Stmt, Env) -> Option<Env>)

  datatype Outcome = Normal(env: Env) | Broke(env: Env) | Stuck

  /** JavaScript truthiness of the values the model has. */
  predicate Truthy(v: Value)
  {
    match v
    case Undefined => false
    case Null => false
    case Bool(b) => b
    case Num(k) => k != 0
    case Str(t) => t != ""
    case _ => true
  }

  /** A name's value, `undefined` when it is not bound. */
  function Lookup(env: Env, x: string): Value
  {
    if x in env then env[x] else Undefined
  }

  function Eval(e: Expr, env: Env, w: World): Option<Value>
  {
    match e
    case Ident(x) =>
      if x == "undefined" then Some(Undefined) else if x in env then Some(env[x]) else w.expr(e, env)
    case NumLit(k) => Some(Num(k))
    case StrLit(t) => Some(Str(t))
    case BoolLit(b) => Some(Bool(b))
    case NullLit => Some(Null)
    case ArrayLit(elems) => if |elems| == 0 then Some(Arr([])) else w.expr(e, env)
    case Member(obj, prop) =>
      var o := Eval(obj, env, w);
      if prop == "length" && o.Some? && o.value.Arr? then Some(Num(|o.value.elems|)) else w.expr(e, env)
    case Op(op, xs) =>
      if |xs| == 2 then
        var l := Eval(xs[0], env, w);
        var r := Eval(xs[1], env, w);
        if op == "[]" && l.Some? && l.value.Arr? && r.Some? && r.value.Num? then
          var s := l.value.elems;
          var k := r.value.n;
          Some(if 0 <= k < |s| then s[k] else Undefined)
        else if op in {"<", ">=", "-"} && l.Some? && l.value.Num? && r.Some? && r.value.Num? then
          var x, y := l.value.n, r.value.n;
          Some(if op == "<" then Bool(x < y) else if op == ">=" then Bool(x >= y) else Num(x - y))
        else w.expr(e, env)
      else if |xs| == 1 then
        var v := Eval(xs[0], env, w);
        if op == "!" && v.Some? then Some(Bool(!Truthy(v.value)))
        else if op == "-" && v.Some? && v.value.Num? then Some(Num(-v.value.n))
        else w.expr(e, env)
      else w.expr(e, env)
    case _ => w.expr(e, env)
  }

  /** An expression run for its effect: assignment to a name, `x++` and
      `--x` on a number, `name.push(v)` on an array; any other expression
      is run by the world. */
  function Effect(e: Expr, env: Env, w: World): Option<Env>
  {
    match e
    case Op(op, xs) =>
      if op == "=" && |xs| == 2 && xs[0].Ident? then
        match Eval(xs[1], env, w)
        case Some(v) => Some(env[xs[0].name := v])
        case None => None
      else if (op == "x++" || op == "--x") && |xs| == 1 && xs[0].Ident? && xs[0].name in env && env[xs[0].name].Num? then
        var k := env[xs[0].name].n;
        Some(env[xs[0].name := Num(if op == "x++" then k + 1 else k - 1)])
      else w.stmt(ExprStmt(e), env)
    case Call(callee, args) =>
      if callee.Member? && callee.prop == "push" && callee.obj.Ident? && |args| == 1
         && callee.obj.name in env && env[callee.obj.name].Arr? then
        match Eval(args[0], env, w)
        case Some(v) => Some(env[callee.obj.name := Arr(env[callee.obj.name].elems + [v])])
        case None => None
      else w.stmt(ExprStmt(e), env)
    case _ => w.stmt(ExprStmt(e), env)
  }

  function Exec(s: Stmt, env: Env, fuel: nat, w: World): Outcome
    decreases fuel, s, 1
  {
    match s
    case VarDecl(_, ds) =>
      if |ds| == 1 && ds[0].id.PIdent? then
        var v := match ds[0].init case Some(x) => Eval(x, env, w) case None => Some(Undefined);
        if v.Some? then Normal(env[ds[0].id.pname := v.value]) else Stuck
      else Lift(w.stmt(s, env))
    case ExprStmt(e) => Lift(Effect(e, env, w))
    case If(c, yes, no) =>
      var v := Eval(c, env, w);
      if v.None? then Stuck
      else if Truthy(v.value) then Exec(yes, env, fuel, w)
      else if no.Some? then Exec(no.value, env, fuel, w)
      else Normal(env)
    case Block(ss) => ExecSeq(ss, env, fuel, w)
    case Break => Broke(env)
    case For(init, test, update, body) =>
      var o := ExecSeq(init, env, fuel, w);
      if o.Normal? then Loop(test, update, body, o.env, fuel, w) else Stuck
    case _ => Lift(w.stmt(s, env))
  }

  function Lift(r: Option<Env>): Outcome
  {
    if r.Some? then Normal(r.value) else Stuck
  }

  function ExecSeq(ss: seq<Stmt>, env: Env, fuel: nat, w: World): Outcome
    decreases fuel, ss, 1
  {
    if |ss| == 0 then Normal(env)
    else
      match Exec(ss[0], env, fuel, w)
      case Normal(env') => ExecSeq(ss[1..], env', fuel, w)
      case other => other
  }

  /** The iterations of a `for` statement; each one spends a unit of fuel. */
  function Loop(test: Option<Expr>, update: Option<Expr>, body: Stmt, env: Env, fuel: nat, w: World): Outcome
    decreases fuel, body, 0
  {
    if fuel == 0 then Stuck
    else
      var go := if test.None? then Some(Bool(true)) else Eval(test.value, env, w);
      if go.None? then Stuck
      else if !Truthy(go.value) then Normal(env)
      else
        match Exec(body, env, fuel - 1, w)
        case Stuck => Stuck
        case Broke(env') => Normal(env')
        case Normal(env') =>
          var next := if update.None? then Some(env') else Effect(update.value, env', w);
          if next.None? then Stuck else Loop(test, update, body, next.value, fuel - 1, w)
  }

  lemma {:induction false} ExecSeqAppend(s1: seq<Stmt>, s2: seq<Stmt>, env: Env, fuel: nat, w: World)
    ensures ExecSeq(s1 + s2, env, fuel, w) ==
            (match ExecSeq(s1, env, fuel, w)
             case Normal(env') => ExecSeq(s2, env', fuel, w)
             case other => other)
    decreases |s1|
  {
    if |s1| == 0 {
      assert s1 + s2 == s2;
    } else {
      assert (s1 + s2)[0] == s1[0];
      assert (s1 + s2)[1..] == s1[1..] + s2;
      match Exec(s1[0], env, fuel, w)
      case Normal(env') => ExecSeqAppend(s1[1..], s2, env', fuel, w);
      case _ =>
    }
  }

  lemma ExecSeqOne(s: Stmt, env: Env, fuel: nat, w: World)
    ensures ExecSeq([s], env, fuel, w) == Exec(s, env, fuel, w)
  {
    assert [s][1..] == [];
  }

  /** The names a lowered loop uses: the index, the receiver, the
      temporary, the step result and the inner index of `flatMap`. */
  datatype LoopNames = LoopNames(i: string, b: string, temp: string, result: string, j: string)

  /** The names `LowerSupported` generates at depth `index` around the
      receiver named `b`. */
  function NamesOf(b: string, prefix: string, index: nat): LoopNames
  {
    LoopNames(AF.Name("i", index), b, AF.Name(prefix, index), AF.Name("result", index), AF.Name("j", index))
  }

  /** The names are pairwise distinct and none is `undefined`: what asking
      `createUniqueName` for them guarantees. */
  predicate Apart(n: LoopNames)
  {
    && n.i != n.b && n.i != n.temp && n.i != n.result && n.i != n.j
    && n.b != n.temp && n.b != n.result && n.b != n.j
    && n.temp != n.result && n.temp != n.j && n.result != n.j
    && "undefined" !in {n.i, n.b, n.temp, n.result, n.j}
  }

  /** The loop index is at `k` and the receiver holds `a`. */
  predicate Frame(env: Env, n: LoopNames, a: seq<Value>, k: int)
  {
    n.i in env && env[n.i] == Num(k) && n.b in env && env[n.b] == Arr(a)
  }

  /** What the step statements leave behind for the element at `k`: they
      finish normally, bind the step result to `v`, keep the frame and the
      temporary, and do not unbind the temporary. */
  predicate StepDone(o: Outcome, env: Env, n: LoopNames, a: seq<Value>, k: int, v: Value)
  {
    o.Normal? && Frame(o.env, n, a, k) && Lookup(o.env, n.temp) == Lookup(env, n.temp)
    && (n.temp in env ==> n.temp in o.env) && n.result in o.env && o.env[n.result] == v
  }

  /** The step statements run at index `k`; the index only names the
      instance. */
  function StepAt(step: seq<Stmt>, env: Env, k: int, fuel: nat, w: World): Outcome
  {
    ExecSeq(step, env, fuel, w)
  }

  /** The loop body run at index `k`. */
  function IterAt(body: Stmt, env: Env, k: int, fuel: nat, w: World): Outcome
  {
    Exec(body, env, fuel, w)
  }

  /** The callback's statements compute `g(element, index)`, given at
      least `sf` fuel. */
  ghost predicate StepMaps(step: seq<Stmt>, n: LoopNames, a: seq<Value>, g: (Value, nat) -> Value, sf: nat, w: World)
  {
    forall env: Env, k: nat, fuel: nat {:trigger StepAt(step, env, k, fuel, w)} ::
      k < |a| && fuel >= sf && Frame(env, n, a, k) ==> StepDone(StepAt(step, env, k, fuel, w), env, n, a, k, g(a[k], k))
  }

  /** A reducer's statements compute `g(accumulator, element, index)`. */
  ghost predicate StepFolds(step: seq<Stmt>, n: LoopNames, a: seq<Value>, g: (Value, Value, nat) -> Value, sf: nat, w: World)
  {
    forall env: Env, k: nat, fuel: nat {:trigger StepAt(step, env, k, fuel, w)} ::
      k < |a| && fuel >= sf && Frame(env, n, a, k) ==>
        StepDone(StepAt(step, env, k, fuel, w), env, n, a, k, g(Lookup(env, n.temp), a[k], k))
  }

  /** One iteration moves the temporary from `acc` to `nx.0` and breaks
      exactly when `nx.1`. */
  predicate IterDone(o: Outcome, env: Env, n: LoopNames, a: seq<Value>, k: int, nx: (Value, bool), ok: Value -> bool)
  {
    !o.Stuck? && o.Broke? == nx.1 && Frame(o.env, n, a, k) && Lookup(o.env, n.temp) == nx.0
    && ok(nx.0) && (n.temp in env ==> n.temp in o.env)
  }

  /** The loop body, on a temporary satisfying `ok`, does what `next` says. */
  ghost predicate BodyDoes(body: Stmt, n: LoopNames, a: seq<Value>, next: (Value, Value, nat) -> (Value, bool),
                           ok: Value -> bool, bf: nat, w: World)
  {
    forall env: Env, k: nat, fuel: nat {:trigger IterAt(body, env, k, fuel, w)} ::
      k < |a| && fuel >= bf && Frame(env, n, a, k) && ok(Lookup(env, n.temp)) ==>
        IterDone(IterAt(body, env, k, fuel, w), env, n, a, k, next(Lookup(env, n.temp), a[k], k), ok)
  }

  /** The temporary, and whether the loop has broken, after the
      iterations for the indices `0 .. m - 1`. */
  function RunUp(a: seq<Value>, m: nat, acc0: Value, next: (Value, Value, nat) -> (Value, bool)): (Value, bool)
    requires m <= |a|
  {
    if m == 0 then (acc0, false)
    else
      var p := RunUp(a, m - 1, acc0, next);
      if p.1 then p else next(p.0, a[m - 1], m - 1)
  }

  /** The same for the iterations of the indices `|a| - 1` down to `|a| - m`. */
  function RunDown(a: seq<Value>, m: nat, acc0: Value, next: (Value, Value, nat) -> (Value, bool)): (Value, bool)
    requires m <= |a|
  {
    if m == 0 then (acc0, false)
    else
      var p := RunDown(a, m - 1, acc0, next);
      if p.1 then p else next(p.0, a[|a| - m], |a| - m)
  }

  lemma {:induction false} RunUpStays(a: seq<Value>, k: nat, m: nat, acc0: Value, next: (Value, Value, nat) -> (Value, bool))
    requires k <= m <= |a| && RunUp(a, k, acc0, next).1
    ensures RunUp(a, m, acc0, next) == RunUp(a, k, acc0, next)
    decreases m
  {
    if m > k {
      RunUpStays(a, k, m - 1, acc0, next);
    }
  }

  lemma {:induction false} RunDownStays(a: seq<Value>, k: nat, m: nat, acc0: Value, next: (Value, Value, nat) -> (Value, bool))
    requires k <= m <= |a| && RunDown(a, k, acc0, next).1
    ensures RunDown(a, m, acc0, next) == RunDown(a, k, acc0, next)
    decreases m
  {
    if m > k {
      RunDownStays(a, k, m - 1, acc0, next);
    }
  }

  // The expressions of the loop headers.

  function AscTest(n: LoopNames): Expr { Op("<", [Ident(n.i), Member(Ident(n.b), "length")]) }

  function DescTest(n: LoopNames): Expr { Op(">=", [Ident(n.i), NumLit(0)]) }

  lemma EvalName(x: string, env: Env, w: World)
    requires x != "undefined" && x in env
    ensures Eval(Ident(x), env, w) == Some(env[x])
  {
  }

  lemma EvalLength(n: LoopNames, env: Env, a: seq<Value>, w: World)
    requires n.b != "undefined" && n.b in env && env[n.b] == Arr(a)
    ensures Eval(Member(Ident(n.b), "length"), env, w) == Some(Num(|a|))
  {
    EvalName(n.b, env, w);
  }

  lemma EvalAscTest(n: LoopNames, env: Env, a: seq<Value>, k: int, w: World)
    requires Apart(n) && Frame(env, n, a, k)
    ensures Eval(AscTest(n), env, w) == Some(Bool(k < |a|))
  {
    EvalName(n.i, env, w);
    EvalLength(n, env, a, w);
  }

  lemma EvalDescTest(n: LoopNames, env: Env, a: seq<Value>, k: int, w: World)
    requires Apart(n) && Frame(env, n, a, k)
    ensures Eval(DescTest(n), env, w) == Some(Bool(k >= 0))
  {
    EvalName(n.i, env, w);
  }

  /** The loop update moves the index by one and keeps the rest of the frame. */
  lemma Advance(n: LoopNames, env: Env, a: seq<Value>, k: int, up: bool, w: World)
    requires Apart(n) && Frame(env, n, a, k)
    ensures var k' := if up then k + 1 else k - 1;
            var env' := env[n.i := Num(k')];
            Effect(Op(if up then "x++" else "--x", [Ident(n.i)]), env, w) == Some(env')
            && Frame(env', n, a, k') && Lookup(env', n.temp) == Lookup(env, n.temp) && (n.temp in env ==> n.temp in env')
  {
  }

  /** The loop finished normally with `v` in the temporary and kept the
      temporary bound. */
  predicate Ends(o: Outcome, env: Env, n: LoopNames, v: Value)
  {
    o.Normal? && Lookup(o.env, n.temp) == v && (n.temp in env ==> n.temp in o.env)
  }

  /** An iteration whose body breaks ends the loop. */
  lemma LoopBreaks(test: Expr, update: Expr, body: Stmt, env: Env, fuel: nat, w: World, env': Env)
    requires fuel > 0 && Eval(test, env, w) == Some(Bool(true)) && Exec(body, env, fuel - 1, w) == Broke(env')
    ensures Loop(Some(test), Some(update), body, env, fuel, w) == Normal(env')
  {
  }

  /** ... and leaves the temporary as the body left it. */
  lemma LoopEnds(test: Expr, update: Expr, body: Stmt, env: Env, fuel: nat, w: World, env': Env, n: LoopNames, v: Value)
    requires fuel > 0 && Eval(test, env, w) == Some(Bool(true)) && Exec(body, env, fuel - 1, w) == Broke(env')
    requires Lookup(env', n.temp) == v && (n.temp in env ==> n.temp in env')
    ensures Ends(Loop(Some(test), Some(update), body, env, fuel, w), env, n, v)
  {
    LoopBreaks(test, update, body, env, fuel, w, env');
  }

  /** An iteration whose body finishes goes on with the updated bindings. */
  lemma LoopContinues(test: Expr, update: Expr, body: Stmt, env: Env, fuel: nat, w: World, env': Env, env'': Env)
    requires fuel > 0 && Eval(test, env, w) == Some(Bool(true)) && Exec(body, env, fuel - 1, w) == Normal(env')
    requires Effect(update, env', w) == Some(env'')
    ensures Loop(Some(test), Some(update), body, env, fuel, w) == Loop(Some(test), Some(update), body, env'', fuel - 1, w)
  {
  }

  /** ... so the loop ends as the rest of it does. */
  lemma LoopEndsLater(test: Expr, update: Expr, body: Stmt, env: Env, fuel: nat, w: World, env': Env, env'': Env,
                      n: LoopNames, v: Value)
    requires fuel > 0 && Eval(test, env, w) == Some(Bool(true)) && Exec(body, env, fuel - 1, w) == Normal(env')
    requires Effect(update, env', w) == Some(env'')
    requires Ends(Loop(Some(test), Some(update), body, env'', fuel - 1, w), env'', n, v) && (n.temp in env ==> n.temp in env'')
    ensures Ends(Loop(Some(test), Some(update), body, env, fuel, w), env, n, v)
  {
    LoopContinues(test, update, body, env, fuel, w, env', env'');
    EndsWiden(Loop(Some(test), Some(update), body, env'', fuel - 1, w), env, env'', n, v);
  }

  lemma EndsWiden(o: Outcome, env: Env, env2: Env, n: LoopNames, v: Value)
    requires Ends(o, env2, n, v) && (n.temp in env ==> n.temp in env2)
    ensures Ends(o, env, n, v)
  {
  }

  /** `BodyDoes` at one index. */
  lemma BodyStep(body: Stmt, n: LoopNames, a: seq<Value>, next: (Value, Value, nat) -> (Value, bool),
                 ok: Value -> bool, bf: nat, w: World, env: Env, k: nat, fuel: nat)
    requires BodyDoes(body, n, a, next, ok, bf, w)
    requires k < |a| && fuel >= bf && Frame(env, n, a, k) && ok(Lookup(env, n.temp))
    ensures IterDone(Exec(body, env, fuel, w), env, n, a, k, next(Lookup(env, n.temp), a[k], k), ok)
  {
    assert IterDone(IterAt(body, env, k, fuel, w), env, n, a, k, next(Lookup(env, n.temp), a[k], k), ok);
  }

  /** The ascending loop, entered at index `k` with the temporary as the
      first `k` iterations left it, ends with the temporary as all of them
      leave it. */
  lemma {:induction false} AscLoopRuns(body: Stmt, n: LoopNames, a: seq<Value>, next: (Value, Value, nat) -> (Value, bool),
                                       ok: Value -> bool, bf: nat, w: World, acc0: Value, k: nat, env: Env, fuel: nat)
    requires Apart(n) && BodyDoes(body, n, a, next, ok, bf, w)
    requires k <= |a| && !RunUp(a, k, acc0, next).1
    requires Frame(env, n, a, k) && Lookup(env, n.temp) == RunUp(a, k, acc0, next).0 && ok(Lookup(env, n.temp))
    requires fuel >= |a| - k + bf + 1
    ensures Ends(Loop(Some(AscTest(n)), Some(Op("x++", [Ident(n.i)])), body, env, fuel, w), env, n, RunUp(a, |a|, acc0, next).0)
    decreases |a| - k, 2
  {
    EvalAscTest(n, env, a, k, w);
    if k < |a| {
      AscIteration(body, n, a, next, ok, bf, w, acc0, k, env, fuel);
    }
  }

  lemma {:induction false} AscIteration(body: Stmt, n: LoopNames, a: seq<Value>, next: (Value, Value, nat) -> (Value, bool),
                                        ok: Value -> bool, bf: nat, w: World, acc0: Value, k: nat, env: Env, fuel: nat)
    requires Apart(n) && BodyDoes(body, n, a, next, ok, bf, w)
    requires k < |a| && !RunUp(a, k, acc0, next).1
    requires Frame(env, n, a, k) && Lookup(env, n.temp) == RunUp(a, k, acc0, next).0 && ok(Lookup(env, n.temp))
    requires fuel >= |a| - k + bf + 1
    ensures Ends(Loop(Some(AscTest(n)), Some(Op("x++", [Ident(n.i)])), body, env, fuel, w), env, n, RunUp(a, |a|, acc0, next).0)
    decreases |a| - k, 1
  {
    EvalAscTest(n, env, a, k, w);
    var o := Exec(body, env, fuel - 1, w);
    BodyStep(body, n, a, next, ok, bf, w, env, k, fuel - 1);
    assert next(Lookup(env, n.temp), a[k], k) == RunUp(a, k + 1, acc0, next);
    if o.Broke? {
      AscStops(body, n, a, next, acc0, k, env, fuel, w, o.env);
    } else {
      AscGoesOn(body, n, a, next, ok, bf, w, acc0, k, env, fuel, o.env);
    }
  }

  /** An iteration that breaks ends the ascending loop for good. */
  lemma AscStops(body: Stmt, n: LoopNames, a: seq<Value>, next: (Value, Value, nat) -> (Value, bool), acc0: Value,
                 k: nat, env: Env, fuel: nat, w: World, env': Env)
    requires k < |a| && fuel > 0 && RunUp(a, k + 1, acc0, next).1
    requires Eval(AscTest(n), env, w) == Some(Bool(true)) && Exec(body, env, fuel - 1, w) == Broke(env')
    requires Lookup(env', n.temp) == RunUp(a, k + 1, acc0, next).0 && (n.temp in env ==> n.temp in env')
    ensures Ends(Loop(Some(AscTest(n)), Some(Op("x++", [Ident(n.i)])), body, env, fuel, w), env, n, RunUp(a, |a|, acc0, next).0)
  {
    RunUpStays(a, k + 1, |a|, acc0, next);
    LoopEnds(AscTest(n), Op("x++", [Ident(n.i)]), body, env, fuel, w, env', n, RunUp(a, |a|, acc0, next).0);
  }

  lemma {:induction false} AscGoesOn(body: Stmt, n: LoopNames, a: seq<Value>, next: (Value, Value, nat) -> (Value, bool),
                                     ok: Value -> bool, bf: nat, w: World, acc0: Value, k: nat, env: Env, fuel: nat, env': Env)
    requires Apart(n) && BodyDoes(body, n, a, next, ok, bf, w)
    requires k < |a| && !RunUp(a, k + 1, acc0, next).1
    requires fuel >= |a| - k + bf + 1
    requires Eval(AscTest(n), env, w) == Some(Bool(true)) && Exec(body, env, fuel - 1, w) == Normal(env')
    requires Frame(env', n, a, k) && Lookup(env', n.temp) == RunUp(a, k + 1, acc0, next).0 && ok(Lookup(env', n.temp))
    requires n.temp in env ==> n.temp in env'
    ensures Ends(Loop(Some(AscTest(n)), Some(Op("x++", [Ident(n.i)])), body, env, fuel, w), env, n, RunUp(a, |a|, acc0, next).0)
    decreases |a| - k, 0
  {
    var env2 := env'[n.i := Num(k + 1)];
    Advance(n, env', a, k, true, w);
    AscLoopRuns(body, n, a, next, ok, bf, w, acc0, k + 1, env2, fuel - 1);
    LoopEndsLater(AscTest(n), Op("x++", [Ident(n.i)]), body, env, fuel, w, env', env2, n, Lookup(Loop(Some(AscTest(n)), Some(Op("x++", [Ident(n.i)])), body, env2, fuel - 1, w).env, n.temp));
  }

  /** The descending loop, after `m` iterations (the index at
      `|a| - 1 - m`), ends with the temporary as all of them leave it. */
  lemma {:induction false} DescLoopRuns(body: Stmt, n: LoopNames, a: seq<Value>, next: (Value, Value, nat) -> (Value, bool),
                                        ok: Value -> bool, bf: nat, w: World, acc0: Value, m: nat, env: Env, fuel: nat)
    requires Apart(n) && BodyDoes(body, n, a, next, ok, bf, w)
    requires m <= |a| && !RunDown(a, m, acc0, next).1
    requires Frame(env, n, a, |a| - 1 - m) && Lookup(env, n.temp) == RunDown(a, m, acc0, next).0 && ok(Lookup(env, n.temp))
    requires fuel >= |a| - m + bf + 1
    ensures Ends(Loop(Some(DescTest(n)), Some(Op("--x", [Ident(n.i)])), body, env, fuel, w), env, n, RunDown(a, |a|, acc0, next).0)
    decreases |a| - m, 2
  {
    EvalDescTest(n, env, a, |a| - 1 - m, w);
    if m < |a| {
      DescIteration(body, n, a, next, ok, bf, w, acc0, m, env, fuel);
    }
  }

  lemma {:induction false} DescIteration(body: Stmt, n: LoopNames, a: seq<Value>, next: (Value, Value, nat) -> (Value, bool),
                                         ok: Value -> bool, bf: nat, w: World, acc0: Value, m: nat, env: Env, fuel: nat)
    requires Apart(n) && BodyDoes(body, n, a, next, ok, bf, w)
    requires m < |a| && !RunDown(a, m, acc0, next).1
    requires Frame(env, n, a, |a| - 1 - m) && Lookup(env, n.temp) == RunDown(a, m, acc0, next).0 && ok(Lookup(env, n.temp))
    requires fuel >= |a| - m + bf + 1
    ensures Ends(Loop(Some(DescTest(n)), Some(Op("--x", [Ident(n.i)])), body, env, fuel, w), env, n, RunDown(a, |a|, acc0, next).0)
    decreases |a| - m, 1
  {
    var k := |a| - 1 - m;
    EvalDescTest(n, env, a, k, w);
    var o := Exec(body, env, fuel - 1, w);
    BodyStep(body, n, a, next, ok, bf, w, env, k, fuel - 1);
    assert next(Lookup(env, n.temp), a[k], k) == RunDown(a, m + 1, acc0, next);
    if o.Broke? {
      DescStops(body, n, a, next, acc0, m, env, fuel, w, o.env);
    } else {
      DescGoesOn(body, n, a, next, ok, bf, w, acc0, m, env, fuel, o.env);
    }
  }

  /** An iteration that breaks ends the descending loop for good. */
  lemma DescStops(body: Stmt, n: LoopNames, a: seq<Value>, next: (Value, Value, nat) -> (Value, bool), acc0: Value,
                  m: nat, env: Env, fuel: nat, w: World, env': Env)
    requires m < |a| && fuel > 0 && RunDown(a, m + 1, acc0, next).1
    requires Eval(DescTest(n), env, w) == Some(Bool(true)) && Exec(body, env, fuel - 1, w) == Broke(env')
    requires Lookup(env', n.temp) == RunDown(a, m + 1, acc0, next).0 && (n.temp in env ==> n.temp in env')
    ensures Ends(Loop(Some(DescTest(n)), Some(Op("--x", [Ident(n.i)])), body, env, fuel, w), env, n, RunDown(a, |a|, acc0, next).0)
  {
    RunDownStays(a, m + 1, |a|, acc0, next);
    LoopEnds(DescTest(n), Op("--x", [Ident(n.i)]), body, env, fuel, w, env', n, RunDown(a, |a|, acc0, next).0);
  }

  lemma {:induction false} DescGoesOn(body: Stmt, n: LoopNames, a: seq<Value>, next: (Value, Value, nat) -> (Value, bool),
                                     ok: Value -> bool, bf: nat, w: World, acc0: Value, m: nat, env: Env, fuel: nat, env': Env)
    requires Apart(n) && BodyDoes(body, n, a, next, ok, bf, w)
    requires m < |a| && !RunDown(a, m + 1, acc0, next).1
    requires fuel >= |a| - m + bf + 1
    requires Eval(DescTest(n), env, w) == Some(Bool(true)) && Exec(body, env, fuel - 1, w) == Normal(env')
    requires Frame(env', n, a, |a| - 1 - m) && Lookup(env', n.temp) == RunDown(a, m + 1, acc0, next).0 && ok(Lookup(env', n.temp))
    requires n.temp in env ==> n.temp in env'
    ensures Ends(Loop(Some(DescTest(n)), Some(Op("--x", [Ident(n.i)])), body, env, fuel, w), env, n, RunDown(a, |a|, acc0, next).0)
    decreases |a| - m, 0
  {
    var k := |a| - 1 - m;
    var env2 := env'[n.i := Num(k - 1)];
    Advance(n, env', a, k, false, w);
    DescLoopRuns(body, n, a, next, ok, bf, w, acc0, m + 1, env2, fuel - 1);
    LoopEndsLater(DescTest(n), Op("--x", [Ident(n.i)]), body, env, fuel, w, env', env2, n, Lookup(Loop(Some(DescTest(n)), Some(Op("--x", [Ident(n.i)])), body, env2, fuel - 1, w).env, n.temp));
  }

  lemma DeclRuns(kind: Kind, x: string, e: Expr, env: Env, v: Value, fuel: nat, w: World)
    requires Eval(e, env, w) == Some(v)
    ensures Exec(Decl1(kind, x, e), env, fuel, w) == Normal(env[x := v])
    ensures ExecSeq([Decl1(kind, x, e)], env, fuel, w) == Normal(env[x := v])
  {
    ExecSeqOne(Decl1(kind, x, e), env, fuel, w);
  }

  lemma ForEnters(init: seq<Stmt>, test: Option<Expr>, update: Option<Expr>, body: Stmt, env: Env, env1: Env, fuel: nat, w: World)
    requires ExecSeq(init, env, fuel, w) == Normal(env1)
    ensures Exec(For(init, test, update, body), env, fuel, w) == Loop(test, update, body, env1, fuel, w)
  {
  }

  lemma ExecSeqPair(s1: Stmt, s2: Stmt, env: Env, env1: Env, fuel: nat, w: World)
    requires Exec(s1, env, fuel, w) == Normal(env1)
    ensures ExecSeq([s1, s2], env, fuel, w) == Exec(s2, env1, fuel, w)
  {
    assert [s1, s2][1..] == [s2];
    ExecSeqOne(s2, env1, fuel, w);
  }

  /** The whole ascending `for` statement. */
  lemma AscForRuns(body: seq<Stmt>, n: LoopNames, a: seq<Value>, next: (Value, Value, nat) -> (Value, bool),
                   ok: Value -> bool, bf: nat, w: World, acc0: Value, env: Env, fuel: nat)
    requires Apart(n) && BodyDoes(Block(body), n, a, next, ok, bf, w)
    requires n.b in env && env[n.b] == Arr(a) && Lookup(env, n.temp) == acc0 && ok(acc0)
    requires fuel >= |a| + bf + 1
    ensures Ends(Exec(AF.AscLoop(n.i, Ident(n.b), body), env, fuel, w), env, n, RunUp(a, |a|, acc0, next).0)
  {
    var env1 := env[n.i := Num(0)];
    DeclRuns(Let, n.i, NumLit(0), env, Num(0), fuel, w);
    ForEnters([Decl1(Let, n.i, NumLit(0))], Some(AscTest(n)), Some(Op("x++", [Ident(n.i)])), Block(body), env, env1, fuel, w);
    AscLoopRuns(Block(body), n, a, next, ok, bf, w, acc0, 0, env1, fuel);
  }

  /** The whole descending `for` statement. */
  lemma DescForRuns(body: seq<Stmt>, n: LoopNames, a: seq<Value>, next: (Value, Value, nat) -> (Value, bool),
                    ok: Value -> bool, bf: nat, w: World, acc0: Value, env: Env, fuel: nat)
    requires Apart(n) && BodyDoes(Block(body), n, a, next, ok, bf, w)
    requires n.b in env && env[n.b] == Arr(a) && Lookup(env, n.temp) == acc0 && ok(acc0)
    requires fuel >= |a| + bf + 1
    ensures Ends(Exec(AF.DescLoop(n.i, Ident(n.b), body), env, fuel, w), env, n, RunDown(a, |a|, acc0, next).0)
  {
    var init := Op("-", [Member(Ident(n.b), "length"), NumLit(1)]);
    var env1 := env[n.i := Num(|a| - 1)];
    EvalLastIndex(n, env, a, w);
    DeclRuns(Let, n.i, init, env, Num(|a| - 1), fuel, w);
    ForEnters([Decl1(Let, n.i, init)], Some(DescTest(n)), Some(Op("--x", [Ident(n.i)])), Block(body), env, env1, fuel, w);
    DescLoopRuns(Block(body), n, a, next, ok, bf, w, acc0, 0, env1, fuel);
  }

  lemma EvalLastIndex(n: LoopNames, env: Env, a: seq<Value>, w: World)
    requires n.b != "undefined" && n.b in env && env[n.b] == Arr(a)
    ensures Eval(Op("-", [Member(Ident(n.b), "length"), NumLit(1)]), env, w) == Some(Num(|a| - 1))
  {
    EvalLength(n, env, a, w);
  }

  /** What the statements a lowering adds leave in its result expression:
      `None` when they do not finish normally. */
  function ResultOf(r: AF.Lowered, base: AF.Lowered, env: Env, fuel: nat, w: World): Option<Value>
    requires |base.stmts| <= |r.stmts|
  {
    var o := ExecSeq(r.stmts[|base.stmts|..], env, fuel, w);
    if o.Normal? then Eval(r.expr, o.env, w) else None
  }

  /** The temporary's value once the loop has ended. */
  lemma EndsRead(o: Outcome, env: Env, n: LoopNames, v: Value, w: World)
    requires Ends(o, env, n, v) && n.temp in env && n.temp != "undefined"
    ensures Eval(Ident(n.temp), o.env, w) == Some(v)
  {
    EvalName(n.temp, o.env, w);
  }

  /** A temporary declared with `seed`, then an ascending loop. */
  lemma AscLowered(n: LoopNames, a: seq<Value>, kind: Kind, seed: Expr, v0: Value, body: seq<Stmt>,
                   next: (Value, Value, nat) -> (Value, bool), ok: Value -> bool, bf: nat, env: Env, fuel: nat, w: World)
    requires Apart(n) && BodyDoes(Block(body), n, a, next, ok, bf, w)
    requires n.b in env && env[n.b] == Arr(a) && Eval(seed, env, w) == Some(v0) && ok(v0)
    requires fuel >= |a| + bf + 1
    ensures var o := ExecSeq([Decl1(kind, n.temp, seed), AF.AscLoop(n.i, Ident(n.b), body)], env, fuel, w);
            o.Normal? && Eval(Ident(n.temp), o.env, w) == Some(RunUp(a, |a|, v0, next).0)
  {
    var env1 := env[n.temp := v0];
    DeclRuns(kind, n.temp, seed, env, v0, fuel, w);
    ExecSeqPair(Decl1(kind, n.temp, seed), AF.AscLoop(n.i, Ident(n.b), body), env, env1, fuel, w);
    AscForRuns(body, n, a, next, ok, bf, w, v0, env1, fuel);
    EndsRead(Exec(AF.AscLoop(n.i, Ident(n.b), body), env1, fuel, w), env1, n, RunUp(a, |a|, v0, next).0, w);
  }

  /** A temporary declared with `seed`, then a descending loop. */
  lemma DescLowered(n: LoopNames, a: seq<Value>, kind: Kind, seed: Expr, v0: Value, body: seq<Stmt>,
                    next: (Value, Value, nat) -> (Value, bool), ok: Value -> bool, bf: nat, env: Env, fuel: nat, w: World)
    requires Apart(n) && BodyDoes(Block(body), n, a, next, ok, bf, w)
    requires n.b in env && env[n.b] == Arr(a) && Eval(seed, env, w) == Some(v0) && ok(v0)
    requires fuel >= |a| + bf + 1
    ensures var o := ExecSeq([Decl1(kind, n.temp, seed), AF.DescLoop(n.i, Ident(n.b), body)], env, fuel, w);
            o.Normal? && Eval(Ident(n.temp), o.env, w) == Some(RunDown(a, |a|, v0, next).0)
  {
    var env1 := env[n.temp := v0];
    DeclRuns(kind, n.temp, seed, env, v0, fuel, w);
    ExecSeqPair(Decl1(kind, n.temp, seed), AF.DescLoop(n.i, Ident(n.b), body), env, env1, fuel, w);
    DescForRuns(body, n, a, next, ok, bf, w, v0, env1, fuel);
    EndsRead(Exec(AF.DescLoop(n.i, Ident(n.b), body), env1, fuel, w), env1, n, RunDown(a, |a|, v0, next).0, w);
  }

  // One iteration: the step, then the tail the lowering appends.

  lemma StepThenTail(step: seq<Stmt>, tail: Stmt, env: Env, fuel: nat, w: World)
    ensures var o := ExecSeq(step, env, fuel, w);
            Exec(Block(step + [tail]), env, fuel, w) == if o.Normal? then Exec(tail, o.env, fuel, w) else o
  {
    ExecSeqAppend(step, [tail], env, fuel, w);
    if ExecSeq(step, env, fuel, w).Normal? {
      ExecSeqOne(tail, ExecSeq(step, env, fuel, w).env, fuel, w);
    }
  }

  lemma EvalElem(n: LoopNames, env: Env, a: seq<Value>, k: nat, w: World)
    requires Apart(n) && Frame(env, n, a, k) && k < |a|
    ensures Eval(Idx(Ident(n.b), Ident(n.i)), env, w) == Some(a[k])
  {
    EvalName(n.b, env, w);
    EvalName(n.i, env, w);
  }

  lemma PushRuns(t: string, x: Expr, env: Env, v: Value, fuel: nat, w: World)
    requires t in env && env[t].Arr? && Eval(x, env, w) == Some(v)
    ensures Exec(AF.Push(t, x), env, fuel, w) == Normal(env[t := Arr(env[t].elems + [v])])
  {
  }

  lemma AssignRuns(t: string, x: Expr, env: Env, v: Value, fuel: nat, w: World)
    requires Eval(x, env, w) == Some(v)
    ensures Exec(ExprStmt(AssignTo(Ident(t), x)), env, fuel, w) == Normal(env[t := v])
  {
  }

  /** `temp.push(v)` on an array temporary. */
  function Pushed(acc: Value, v: Value): Value
  {
    if acc.Arr? then Arr(acc.elems + [v]) else acc
  }

  function MapNext(g: (Value, nat) -> Value): (Value, Value, nat) -> (Value, bool)
  {
    (acc: Value, x: Value, k: nat) => (Pushed(acc, g(x, k)), false)
  }

  function FilterNext(g: (Value, nat) -> Value): (Value, Value, nat) -> (Value, bool)
  {
    (acc: Value, x: Value, k: nat) => (if Truthy(g(x, k)) then Pushed(acc, x) else acc, false)
  }

  /** The step result, as `map` sees it: `g` itself. */
  lemma MapIter(step: seq<Stmt>, n: LoopNames, a: seq<Value>, g: (Value, nat) -> Value, sf: nat, w: World,
                env: Env, k: nat, fuel: nat)
    requires Apart(n) && StepMaps(step, n, a, g, sf, w)
    requires k < |a| && fuel >= sf && Frame(env, n, a, k) && IsArray(Lookup(env, n.temp))
    ensures IterDone(IterAt(Block(step + [AF.Push(n.temp, Ident(n.result))]), env, k, fuel, w), env, n, a, k,
                     MapNext(g)(Lookup(env, n.temp), a[k], k), IsArray)
  {
    assert StepDone(StepAt(step, env, k, fuel, w), env, n, a, k, g(a[k], k));
    var e1 := ExecSeq(step, env, fuel, w).env;
    StepThenTail(step, AF.Push(n.temp, Ident(n.result)), env, fuel, w);
    EvalName(n.result, e1, w);
    PushRuns(n.temp, Ident(n.result), e1, g(a[k], k), fuel, w);
  }

  lemma MapBody(step: seq<Stmt>, n: LoopNames, a: seq<Value>, g: (Value, nat) -> Value, sf: nat, w: World)
    requires Apart(n) && StepMaps(step, n, a, g, sf, w)
    ensures BodyDoes(Block(step + [AF.Push(n.temp, Ident(n.result))]), n, a, MapNext(g), IsArray, sf, w)
  {
    forall env: Env, k: nat, fuel: nat | k < |a| && fuel >= sf && Frame(env, n, a, k) && IsArray(Lookup(env, n.temp))
      ensures IterDone(IterAt(Block(step + [AF.Push(n.temp, Ident(n.result))]), env, k, fuel, w), env, n, a, k,
                       MapNext(g)(Lookup(env, n.temp), a[k], k), IsArray)
    {
      MapIter(step, n, a, g, sf, w, env, k, fuel);
    }
  }

  lemma FilterIter(step: seq<Stmt>, n: LoopNames, a: seq<Value>, g: (Value, nat) -> Value, sf: nat, w: World,
                   env: Env, k: nat, fuel: nat)
    requires Apart(n) && StepMaps(step, n, a, g, sf, w)
    requires k < |a| && fuel >= sf && Frame(env, n, a, k) && IsArray(Lookup(env, n.temp))
    ensures IterDone(IterAt(Block(step + [If(Ident(n.result), AF.Push(n.temp, Idx(Ident(n.b), Ident(n.i))), None)]), env, k, fuel, w),
                     env, n, a, k, FilterNext(g)(Lookup(env, n.temp), a[k], k), IsArray)
  {
    assert StepDone(StepAt(step, env, k, fuel, w), env, n, a, k, g(a[k], k));
    var e1 := ExecSeq(step, env, fuel, w).env;
    var push := AF.Push(n.temp, Idx(Ident(n.b), Ident(n.i)));
    StepThenTail(step, If(Ident(n.result), push, None), env, fuel, w);
    EvalName(n.result, e1, w);
    if Truthy(g(a[k], k)) {
      EvalElem(n, e1, a, k, w);
      PushRuns(n.temp, Idx(Ident(n.b), Ident(n.i)), e1, a[k], fuel, w);
    }
  }

  lemma FilterBody(step: seq<Stmt>, n: LoopNames, a: seq<Value>, g: (Value, nat) -> Value, sf: nat, w: World)
    requires Apart(n) && StepMaps(step, n, a, g, sf, w)
    ensures BodyDoes(Block(step + [If(Ident(n.result), AF.Push(n.temp, Idx(Ident(n.b), Ident(n.i))), None)]),
                     n, a, FilterNext(g), IsArray, sf, w)
  {
    var body := Block(step + [If(Ident(n.result), AF.Push(n.temp, Idx(Ident(n.b), Ident(n.i))), None)]);
    forall env: Env, k: nat, fuel: nat | k < |a| && fuel >= sf && Frame(env, n, a, k) && IsArray(Lookup(env, n.temp))
      ensures IterDone(IterAt(body, env, k, fuel, w), env, n, a, k, FilterNext(g)(Lookup(env, n.temp), a[k], k), IsArray)
    {
      FilterIter(step, n, a, g, sf, w, env, k, fuel);
    }
  }

  // What the loops compute, by independent definitions.

  /** `map`'s meaning: the step result of every element, in order. */
  function Mapped(a: seq<Value>, g: (Value, nat) -> Value): seq<Value>
  {
    seq(|a|, k requires 0 <= k < |a| => g(a[k], k))
  }

  /** Truthiness of the step result. */
  function Test(g: (Value, nat) -> Value): (Value, nat) -> bool
  {
    (x: Value, k: nat) => Truthy(g(x, k))
  }

  lemma {:induction false} MapRun(a: seq<Value>, g: (Value, nat) -> Value, m: nat)
    requires m <= |a|
    ensures RunUp(a, m, Arr([]), MapNext(g)) == (Arr(Mapped(a[..m], g)), false)
  {
    if m == 0 {
      assert Mapped(a[..0], g) == [];
    } else {
      MapRun(a, g, m - 1);
      var before := Mapped(a[..m - 1], g);
      assert MapNext(g)(Arr(before), a[m - 1], m - 1) == (Arr(before + [g(a[m - 1], m - 1)]), false);
      assert before + [g(a[m - 1], m - 1)] == Mapped(a[..m], g);
    }
  }

  lemma {:induction false} FilterRun(a: seq<Value>, g: (Value, nat) -> Value, m: nat)
    requires m <= |a|
    ensures RunUp(a, m, Arr([]), FilterNext(g)) == (Arr(CL.Filtered(a[..m], Test(g))), false)
  {
    if m > 0 {
      FilterRun(a, g, m - 1);
      var before := CL.Filtered(a[..m - 1], Test(g));
      assert a[..m][..m - 1] == a[..m - 1];
      assert a[..m][m - 1] == a[m - 1];
      assert Test(g)(a[m - 1], m - 1) == Truthy(g(a[m - 1], m - 1));
      var last := if Test(g)(a[m - 1], m - 1) then [a[m - 1]] else [];
      assert CL.Filtered(a[..m], Test(g)) == before + last;
      assert RunUp(a, m, Arr([]), FilterNext(g)) == FilterNext(g)(Arr(before), a[m - 1], m - 1);
      if !Test(g)(a[m - 1], m - 1) {
        assert before + [] == before;
      }
    }
  }

  /** The statements `LowerSupported` appends, read off its result. */
  lemma ResultOfAdded(r: AF.Lowered, base: AF.Lowered, added: seq<Stmt>, env: Env, fuel: nat, w: World)
    requires r.stmts == base.stmts + added
    ensures var o := ExecSeq(added, env, fuel, w);
            ResultOf(r, base, env, fuel, w) == if o.Normal? then Eval(r.expr, o.env, w) else None
  {
    assert r.stmts[|base.stmts|..] == added;
  }

  /** The method families are disjoint. */
  lemma ArrayKinds(m: string)
    requires m in AF.ArrayReturning
    ensures m !in AF.ReduceMethods && m != "forEach" && m !in AF.BooleanReturning && m !in AF.FindMethods
  {
  }

  lemma ExitKinds(m: string)
    requires m in AF.BooleanReturning || m in AF.FindMethods
    ensures m !in AF.ReduceMethods && m != "forEach" && m !in AF.ArrayReturning
  {
  }

  /** The statements the lowering appends for `map`, `filter` and `flatMap`. */
  lemma ArrayShape(m: string, args: seq<Expr>, base: AF.Lowered, prefix: string, index: nat, tail: Stmt)
    requires m in AF.ArrayReturning
    requires var n := NamesOf("", prefix, index);
             tail == if m == "map" then AF.Push(n.temp, Ident(n.result))
                     else if m == "filter" then If(Ident(n.result), AF.Push(n.temp, Idx(base.expr, Ident(n.i))), None)
                     else For([Decl1(Let, n.j, NumLit(0))], Some(Op("<", [Ident(n.j), Member(Ident(n.result), "length")])),
                              Some(Op("x++", [Ident(n.j)])), Block([AF.Push(n.temp, Idx(Ident(n.result), Ident(n.j)))]))
    ensures var n := NamesOf("", prefix, index);
            AF.LowerSupported(m, args, base, prefix, index)
            == AF.Lowered(Ident(n.temp), base.stmts + [Decl1(Const, n.temp, ArrayLit([])),
                                                      AF.AscLoop(n.i, base.expr, AF.Step(m, args, base.expr, prefix, index) + [tail])])
  {
    ArrayKinds(m);
  }

  /** `base.map(cb)` with `base` a name bound to an array: the added
      statements leave in the temporary the step result of every element. */
  lemma MapLowering(args: seq<Expr>, base: AF.Lowered, prefix: string, index: nat, a: seq<Value>,
                    g: (Value, nat) -> Value, sf: nat, env: Env, fuel: nat, w: World)
    requires base.expr.Ident? && Apart(NamesOf(base.expr.name, prefix, index))
    requires base.expr.name in env && env[base.expr.name] == Arr(a)
    requires StepMaps(AF.Step("map", args, base.expr, prefix, index), NamesOf(base.expr.name, prefix, index), a, g, sf, w)
    requires fuel >= |a| + sf + 1
    ensures ResultOf(AF.LowerSupported("map", args, base, prefix, index), base, env, fuel, w) == Some(Arr(Mapped(a, g)))
  {
    var n := NamesOf(base.expr.name, prefix, index);
    var r := AF.LowerSupported("map", args, base, prefix, index);
    var step := AF.Step("map", args, base.expr, prefix, index);
    var body := step + [AF.Push(n.temp, Ident(n.result))];
    ArrayShape("map", args, base, prefix, index, AF.Push(n.temp, Ident(n.result)));
    ResultOfAdded(r, base, [Decl1(Const, n.temp, ArrayLit([])), AF.AscLoop(n.i, Ident(n.b), body)], env, fuel, w);
    MapBody(step, n, a, g, sf, w);
    AscLowered(n, a, Const, ArrayLit([]), Arr([]), body, MapNext(g), IsArray, sf, env, fuel, w);
    MapRun(a, g, |a|);
    assert a[..|a|] == a;
  }

  /** `base.filter(cb)`: the elements whose step result is truthy, in order. */
  lemma FilterLowering(args: seq<Expr>, base: AF.Lowered, prefix: string, index: nat, a: seq<Value>,
                       g: (Value, nat) -> Value, sf: nat, env: Env, fuel: nat, w: World)
    requires base.expr.Ident? && Apart(NamesOf(base.expr.name, prefix, index))
    requires base.expr.name in env && env[base.expr.name] == Arr(a)
    requires StepMaps(AF.Step("filter", args, base.expr, prefix, index), NamesOf(base.expr.name, prefix, index), a, g, sf, w)
    requires fuel >= |a| + sf + 1
    ensures ResultOf(AF.LowerSupported("filter", args, base, prefix, index), base, env, fuel, w) == Some(Arr(CL.Filtered(a, Test(g))))
  {
    var n := NamesOf(base.expr.name, prefix, index);
    var r := AF.LowerSupported("filter", args, base, prefix, index);
    var step := AF.Step("filter", args, base.expr, prefix, index);
    var body := step + [If(Ident(n.result), AF.Push(n.temp, Idx(Ident(n.b), Ident(n.i))), None)];
    ArrayShape("filter", args, base, prefix, index, If(Ident(n.result), AF.Push(n.temp, Idx(Ident(n.b), Ident(n.i))), None));
    ResultOfAdded(r, base, [Decl1(Const, n.temp, ArrayLit([])), AF.AscLoop(n.i, Ident(n.b), body)], env, fuel, w);
    FilterBody(step, n, a, g, sf, w);
    AscLowered(n, a, Const, ArrayLit([]), Arr([]), body, FilterNext(g), IsArray, sf, env, fuel, w);
    FilterRun(a, g, |a|);
    assert a[..|a|] == a;
  }

  // flatMap: an inner loop pushes every element of the step result.

  function InnerTest(n: LoopNames): Expr { Op("<", [Ident(n.j), Member(Ident(n.result), "length")]) }

  function InnerPush(n: LoopNames): Stmt { AF.Push(n.temp, Idx(Ident(n.result), Ident(n.j))) }

  /** The inner loop of `flatMap`: appends each element of the step's
      result to the temporary, in order. */
  function InnerLoop(n: LoopNames): Stmt
  {
    For([Decl1(Let, n.j, NumLit(0))], Some(InnerTest(n)), Some(Op("x++", [Ident(n.j)])), Block([InnerPush(n)]))
  }

  /** The inner loop's state: `j` at `q`, the step result `ps`, the
      temporary `pre` followed by the first `q` elements of `ps`. */
  predicate Inner(env: Env, n: LoopNames, a: seq<Value>, k: int, ps: seq<Value>, pre: seq<Value>, q: int)
  {
    0 <= q <= |ps| && Frame(env, n, a, k) && n.j in env && env[n.j] == Num(q) && n.result in env && env[n.result] == Arr(ps)
    && n.temp in env && env[n.temp] == Arr(pre + ps[..q])
  }

  lemma InnerStep(n: LoopNames, a: seq<Value>, k: int, ps: seq<Value>, pre: seq<Value>, q: nat, env: Env, fuel: nat, w: World)
    requires Apart(n) && Inner(env, n, a, k, ps, pre, q) && q < |ps| && fuel > 0
    ensures var e2 := env[n.temp := Arr(pre + ps[..q + 1])][n.j := Num(q + 1)];
            Inner(e2, n, a, k, ps, pre, q + 1)
            && Loop(Some(InnerTest(n)), Some(Op("x++", [Ident(n.j)])), Block([InnerPush(n)]), env, fuel, w)
               == Loop(Some(InnerTest(n)), Some(Op("x++", [Ident(n.j)])), Block([InnerPush(n)]), e2, fuel - 1, w)
  {
    var e1 := env[n.temp := Arr(pre + ps[..q + 1])];
    var e2 := e1[n.j := Num(q + 1)];
    EvalName(n.j, env, w);
    EvalName(n.result, env, w);
    assert Eval(InnerTest(n), env, w) == Some(Bool(true));
    assert Eval(Idx(Ident(n.result), Ident(n.j)), env, w) == Some(ps[q]);
    assert pre + ps[..q] + [ps[q]] == pre + ps[..q + 1];
    PushRuns(n.temp, Idx(Ident(n.result), Ident(n.j)), env, ps[q], fuel - 1, w);
    ExecSeqOne(InnerPush(n), env, fuel - 1, w);
    assert Effect(Op("x++", [Ident(n.j)]), e1, w) == Some(e2);
    LoopContinues(InnerTest(n), Op("x++", [Ident(n.j)]), Block([InnerPush(n)]), env, fuel, w, e1, e2);
  }

  lemma {:induction false} InnerRuns(n: LoopNames, a: seq<Value>, k: int, ps: seq<Value>, pre: seq<Value>, q: nat,
                                     env: Env, fuel: nat, w: World)
    requires Apart(n) && Inner(env, n, a, k, ps, pre, q) && fuel >= |ps| - q + 1
    ensures var o := Loop(Some(InnerTest(n)), Some(Op("x++", [Ident(n.j)])), Block([InnerPush(n)]), env, fuel, w);
            o.Normal? && Inner(o.env, n, a, k, ps, pre, |ps|)
    decreases |ps| - q
  {
    if q < |ps| {
      InnerStep(n, a, k, ps, pre, q, env, fuel, w);
      InnerRuns(n, a, k, ps, pre, q + 1, env[n.temp := Arr(pre + ps[..q + 1])][n.j := Num(q + 1)], fuel - 1, w);
    } else {
      EvalName(n.j, env, w);
      EvalName(n.result, env, w);
      assert Eval(InnerTest(n), env, w) == Some(Bool(false));
    }
  }

  /** The inner loop appends the step result to the temporary. */
  lemma InnerLoopRuns(n: LoopNames, a: seq<Value>, k: int, ps: seq<Value>, pre: seq<Value>, env: Env, fuel: nat, w: World)
    requires Apart(n) && Frame(env, n, a, k) && n.result in env && env[n.result] == Arr(ps)
    requires n.temp in env && env[n.temp] == Arr(pre) && fuel >= |ps| + 1
    ensures var o := Exec(InnerLoop(n), env, fuel, w);
            o.Normal? && Frame(o.env, n, a, k) && n.temp in o.env && o.env[n.temp] == Arr(pre + ps)
  {
    var env1 := env[n.j := Num(0)];
    DeclRuns(Let, n.j, NumLit(0), env, Num(0), fuel, w);
    ForEnters([Decl1(Let, n.j, NumLit(0))], Some(InnerTest(n)), Some(Op("x++", [Ident(n.j)])), Block([InnerPush(n)]), env, env1, fuel, w);
    assert pre + ps[..0] == pre;
    InnerRuns(n, a, k, ps, pre, 0, env1, fuel, w);
    assert ps[..|ps|] == ps;
  }

  /** The elements of each step result, which must be an array. */
  function Pieces(a: seq<Value>, g: (Value, nat) -> Value): seq<seq<Value>>
  {
    seq(|a|, k requires 0 <= k < |a| => if g(a[k], k).Arr? then g(a[k], k).elems else [])
  }

  function FlatNext(g: (Value, nat) -> Value): (Value, Value, nat) -> (Value, bool)
  {
    (acc: Value, x: Value, k: nat) =>
      (if acc.Arr? && g(x, k).Arr? then Arr(acc.elems + g(x, k).elems) else acc, false)
  }

  /** Every step result is an array of at most `width` elements. */
  predicate ArrayResults(a: seq<Value>, g: (Value, nat) -> Value, width: nat)
  {
    forall k :: 0 <= k < |a| ==> g(a[k], k).Arr? && |g(a[k], k).elems| <= width
  }

  lemma FlatMapIter(step: seq<Stmt>, n: LoopNames, a: seq<Value>, g: (Value, nat) -> Value, sf: nat, width: nat, w: World,
                    env: Env, k: nat, fuel: nat)
    requires Apart(n) && StepMaps(step, n, a, g, sf, w) && ArrayResults(a, g, width)
    requires k < |a| && fuel >= sf + width + 1 && Frame(env, n, a, k) && IsArray(Lookup(env, n.temp))
    ensures IterDone(IterAt(Block(step + [InnerLoop(n)]), env, k, fuel, w), env, n, a, k,
                     FlatNext(g)(Lookup(env, n.temp), a[k], k), IsArray)
  {
    assert StepDone(StepAt(step, env, k, fuel, w), env, n, a, k, g(a[k], k));
    var e1 := ExecSeq(step, env, fuel, w).env;
    StepThenTail(step, InnerLoop(n), env, fuel, w);
    InnerLoopRuns(n, a, k, g(a[k], k).elems, Lookup(env, n.temp).elems, e1, fuel, w);
  }

  lemma FlatMapBody(step: seq<Stmt>, n: LoopNames, a: seq<Value>, g: (Value, nat) -> Value, sf: nat, width: nat, w: World)
    requires Apart(n) && StepMaps(step, n, a, g, sf, w) && ArrayResults(a, g, width)
    ensures BodyDoes(Block(step + [InnerLoop(n)]), n, a, FlatNext(g), IsArray, sf + width + 1, w)
  {
    forall env: Env, k: nat, fuel: nat | k < |a| && fuel >= sf + width + 1 && Frame(env, n, a, k) && IsArray(Lookup(env, n.temp))
      ensures IterDone(IterAt(Block(step + [InnerLoop(n)]), env, k, fuel, w), env, n, a, k,
                       FlatNext(g)(Lookup(env, n.temp), a[k], k), IsArray)
    {
      FlatMapIter(step, n, a, g, sf, width, w, env, k, fuel);
    }
  }

  lemma {:induction false} FlatMapRun(a: seq<Value>, g: (Value, nat) -> Value, width: nat, m: nat)
    requires m <= |a| && ArrayResults(a, g, width)
    ensures RunUp(a, m, Arr([]), FlatNext(g)) == (Arr(Flatten(Pieces(a[..m], g))), false)
  {
    if m == 0 {
      assert Pieces(a[..0], g) == [];
    } else {
      FlatMapRun(a, g, width, m - 1);
      var ps := Pieces(a[..m], g);
      assert ps[..m - 1] == Pieces(a[..m - 1], g);
      assert ps[m - 1] == g(a[m - 1], m - 1).elems;
      assert Flatten(ps) == Flatten(ps[..m - 1]) + ps[m - 1];
    }
  }

  /** `base.flatMap(cb)` for a callback that returns arrays: the elements
      of every step result, in order. */
  lemma FlatMapLowering(args: seq<Expr>, base: AF.Lowered, prefix: string, index: nat, a: seq<Value>,
                        g: (Value, nat) -> Value, sf: nat, width: nat, env: Env, fuel: nat, w: World)
    requires base.expr.Ident? && Apart(NamesOf(base.expr.name, prefix, index))
    requires base.expr.name in env && env[base.expr.name] == Arr(a)
    requires StepMaps(AF.Step("flatMap", args, base.expr, prefix, index), NamesOf(base.expr.name, prefix, index), a, g, sf, w)
    requires ArrayResults(a, g, width)
    requires fuel >= |a| + sf + width + 2
    ensures ResultOf(AF.LowerSupported("flatMap", args, base, prefix, index), base, env, fuel, w) == Some(Arr(Flatten(Pieces(a, g))))
  {
    var n := NamesOf(base.expr.name, prefix, index);
    var r := AF.LowerSupported("flatMap", args, base, prefix, index);
    var step := AF.Step("flatMap", args, base.expr, prefix, index);
    var body := step + [InnerLoop(n)];
    ArrayShape("flatMap", args, base, prefix, index, InnerLoop(n));
    ResultOfAdded(r, base, [Decl1(Const, n.temp, ArrayLit([])), AF.AscLoop(n.i, Ident(n.b), body)], env, fuel, w);
    FlatMapBody(step, n, a, g, sf, width, w);
    AscLowered(n, a, Const, ArrayLit([]), Arr([]), body, FlatNext(g), IsArray, sf + width + 1, env, fuel, w);
    FlatMapRun(a, g, width, |a|);
    assert a[..|a|] == a;
  }

  // every, some and the find family: a tail that stores a value and breaks.

  /** What the early-exit tail stores: a fixed flag, the element or its index. */
  datatype Found = Flag(flag: bool) | Element | Position

  function FoundExpr(n: LoopNames, f: Found): Expr
  {
    match f
    case Flag(b) => BoolLit(b)
    case Element => Idx(Ident(n.b), Ident(n.i))
    case Position => Ident(n.i)
  }

  function FoundValue(f: Found, x: Value, k: nat): Value
  {
    match f
    case Flag(b) => Bool(b)
    case Element => x
    case Position => Num(k)
  }

  /** Leaves the loop once the step result is truthy (falsy when `neg`),
      storing what was found in the temporary. */
  function ExitTail(n: LoopNames, neg: bool, f: Found): Stmt
  {
    var test := if neg then Op("!", [Ident(n.result)]) else Ident(n.result);
    If(test, Block([ExprStmt(AssignTo(Ident(n.temp), FoundExpr(n, f))), Break]), None)
  }

  /** The loop stops at index `k`: the step result's truthiness differs from `neg`. */
  predicate Hit(g: (Value, nat) -> Value, neg: bool, x: Value, k: nat)
  {
    Truthy(g(x, k)) != neg
  }

  function ExitNext(g: (Value, nat) -> Value, neg: bool, f: Found): (Value, Value, nat) -> (Value, bool)
  {
    (acc: Value, x: Value, k: nat) => if Hit(g, neg, x, k) then (FoundValue(f, x, k), true) else (acc, false)
  }

  /** No condition on the temporary. */
  predicate AnyValue(v: Value)
  {
    v == v
  }

  lemma FoundEval(n: LoopNames, f: Found, a: seq<Value>, k: nat, env: Env, w: World)
    requires Apart(n) && k < |a| && Frame(env, n, a, k)
    ensures Eval(FoundExpr(n, f), env, w) == Some(FoundValue(f, a[k], k))
  {
    match f {
      case Flag(b) =>
      case Element => EvalElem(n, env, a, k, w);
      case Position => EvalName(n.i, env, w);
    }
  }

  /** `temp = found; break;` */
  lemma StoreAndBreak(n: LoopNames, f: Found, a: seq<Value>, k: nat, env: Env, fuel: nat, w: World)
    requires Apart(n) && k < |a| && Frame(env, n, a, k)
    ensures Exec(Block([ExprStmt(AssignTo(Ident(n.temp), FoundExpr(n, f))), Break]), env, fuel, w)
            == Broke(env[n.temp := FoundValue(f, a[k], k)])
  {
    var fv := FoundValue(f, a[k], k);
    FoundEval(n, f, a, k, env, w);
    AssignRuns(n.temp, FoundExpr(n, f), env, fv, fuel, w);
    ExecSeqPair(ExprStmt(AssignTo(Ident(n.temp), FoundExpr(n, f))), Break, env, env[n.temp := fv], fuel, w);
  }

  lemma ExitTailRuns(n: LoopNames, neg: bool, f: Found, a: seq<Value>, k: nat, v: Value, env: Env, fuel: nat, w: World)
    requires Apart(n) && k < |a| && Frame(env, n, a, k) && n.result in env && env[n.result] == v
    ensures Exec(ExitTail(n, neg, f), env, fuel, w)
            == if Truthy(v) != neg then Broke(env[n.temp := FoundValue(f, a[k], k)]) else Normal(env)
  {
    EvalName(n.result, env, w);
    var test := if neg then Op("!", [Ident(n.result)]) else Ident(n.result);
    assert Eval(test, env, w) == Some(if neg then Bool(!Truthy(v)) else v);
    if Truthy(v) != neg {
      StoreAndBreak(n, f, a, k, env, fuel, w);
    }
  }

  lemma ExitIter(step: seq<Stmt>, n: LoopNames, a: seq<Value>, g: (Value, nat) -> Value, sf: nat, w: World,
                 neg: bool, f: Found, env: Env, k: nat, fuel: nat)
    requires Apart(n) && StepMaps(step, n, a, g, sf, w)
    requires k < |a| && fuel >= sf && Frame(env, n, a, k)
    ensures IterDone(IterAt(Block(step + [ExitTail(n, neg, f)]), env, k, fuel, w), env, n, a, k,
                     ExitNext(g, neg, f)(Lookup(env, n.temp), a[k], k), AnyValue)
  {
    assert StepDone(StepAt(step, env, k, fuel, w), env, n, a, k, g(a[k], k));
    var e1 := ExecSeq(step, env, fuel, w).env;
    StepThenTail(step, ExitTail(n, neg, f), env, fuel, w);
    ExitTailRuns(n, neg, f, a, k, g(a[k], k), e1, fuel, w);
  }

  lemma ExitBody(step: seq<Stmt>, n: LoopNames, a: seq<Value>, g: (Value, nat) -> Value, sf: nat, w: World, neg: bool, f: Found)
    requires Apart(n) && StepMaps(step, n, a, g, sf, w)
    ensures BodyDoes(Block(step + [ExitTail(n, neg, f)]), n, a, ExitNext(g, neg, f), AnyValue, sf, w)
  {
    forall env: Env, k: nat, fuel: nat | k < |a| && fuel >= sf && Frame(env, n, a, k) && AnyValue(Lookup(env, n.temp))
      ensures IterDone(IterAt(Block(step + [ExitTail(n, neg, f)]), env, k, fuel, w), env, n, a, k,
                       ExitNext(g, neg, f)(Lookup(env, n.temp), a[k], k), AnyValue)
    {
      ExitIter(step, n, a, g, sf, w, neg, f, env, k, fuel);
    }
  }

  /** Ascending: the loop breaks at the first hit, and stores what it found there. */
  lemma {:induction false} ExitRunUp(a: seq<Value>, g: (Value, nat) -> Value, neg: bool, f: Found, acc0: Value, m: nat)
    requires m <= |a|
    ensures var p := RunUp(a, m, acc0, ExitNext(g, neg, f));
            (!p.1 <==> forall k :: 0 <= k < m ==> !Hit(g, neg, a[k], k))
            && (!p.1 ==> p.0 == acc0)
            && (p.1 ==> exists r :: 0 <= r < m && Hit(g, neg, a[r], r) && p.0 == FoundValue(f, a[r], r)
                                    && forall k :: 0 <= k < r ==> !Hit(g, neg, a[k], k))
  {
    if m > 0 {
      ExitRunUp(a, g, neg, f, acc0, m - 1);
      var p := RunUp(a, m - 1, acc0, ExitNext(g, neg, f));
      if !p.1 {
        assert RunUp(a, m, acc0, ExitNext(g, neg, f)) == ExitNext(g, neg, f)(p.0, a[m - 1], m - 1);
      }
    }
  }

  /** Descending: the loop breaks at the last hit. */
  lemma {:induction false} ExitRunDown(a: seq<Value>, g: (Value, nat) -> Value, neg: bool, f: Found, acc0: Value, m: nat)
    requires m <= |a|
    ensures var p := RunDown(a, m, acc0, ExitNext(g, neg, f));
            (!p.1 <==> forall k :: |a| - m <= k < |a| ==> !Hit(g, neg, a[k], k))
            && (!p.1 ==> p.0 == acc0)
            && (p.1 ==> exists r :: |a| - m <= r < |a| && Hit(g, neg, a[r], r) && p.0 == FoundValue(f, a[r], r)
                                    && forall k :: r < k < |a| ==> !Hit(g, neg, a[k], k))
  {
    if m > 0 {
      ExitRunDown(a, g, neg, f, acc0, m - 1);
      var p := RunDown(a, m - 1, acc0, ExitNext(g, neg, f));
      if !p.1 {
        assert RunDown(a, m, acc0, ExitNext(g, neg, f)) == ExitNext(g, neg, f)(p.0, a[|a| - m], |a| - m);
      }
    }
  }

  function ExitNeg(m: string): bool { m == "every" }

  function ExitFound(m: string): Found
  {
    if m in AF.BooleanReturning then Flag(m == "some")
    else if m in {"findIndex", "findLastIndex"} then Position else Element
  }

  function ExitSeedExpr(m: string): Expr
  {
    if m in AF.BooleanReturning then BoolLit(m == "every")
    else if m in {"findIndex", "findLastIndex"} then Op("-", [NumLit(1)]) else Undef()
  }

  /** The value the temporary starts with. */
  function ExitSeed(m: string): Value
  {
    if m in AF.BooleanReturning then Bool(m == "every")
    else if m in {"findIndex", "findLastIndex"} then Num(-1) else Undefined
  }

  function SearchesBack(m: string): bool { m in {"findLast", "findLastIndex"} }

  /** The declaration of the temporary, then the loop with the exit tail. */
  function ExitAdded(m: string, n: LoopNames, step: seq<Stmt>): seq<Stmt>
  {
    var body := step + [ExitTail(n, ExitNeg(m), ExitFound(m))];
    [Decl1(Let, n.temp, ExitSeedExpr(m)),
     if SearchesBack(m) then AF.DescLoop(n.i, Ident(n.b), body) else AF.AscLoop(n.i, Ident(n.b), body)]
  }

  /** The statements the lowering appends for `every`, `some` and the find family. */
  lemma ExitShape(m: string, args: seq<Expr>, base: AF.Lowered, prefix: string, index: nat)
    requires m in AF.BooleanReturning || m in AF.FindMethods
    requires base.expr.Ident?
    ensures var n := NamesOf(base.expr.name, prefix, index);
            AF.LowerSupported(m, args, base, prefix, index)
            == AF.Lowered(Ident(n.temp), base.stmts + ExitAdded(m, n, AF.Step(m, args, base.expr, prefix, index)))
  {
    ExitKinds(m);
  }

  /** Running the appended statements. */
  lemma ExitRuns(m: string, n: LoopNames, step: seq<Stmt>, a: seq<Value>, g: (Value, nat) -> Value, sf: nat,
                 env: Env, fuel: nat, w: World)
    requires Apart(n) && n.b in env && env[n.b] == Arr(a) && StepMaps(step, n, a, g, sf, w)
    requires fuel >= |a| + sf + 1
    ensures var next := ExitNext(g, ExitNeg(m), ExitFound(m));
            var o := ExecSeq(ExitAdded(m, n, step), env, fuel, w);
            o.Normal? && Eval(Ident(n.temp), o.env, w)
                         == Some(if SearchesBack(m) then RunDown(a, |a|, ExitSeed(m), next).0
                                 else RunUp(a, |a|, ExitSeed(m), next).0)
  {
    var neg, f := ExitNeg(m), ExitFound(m);
    var body := step + [ExitTail(n, neg, f)];
    assert Eval(ExitSeedExpr(m), env, w) == Some(ExitSeed(m));
    ExitBody(step, n, a, g, sf, w, neg, f);
    if SearchesBack(m) {
      DescLowered(n, a, Let, ExitSeedExpr(m), ExitSeed(m), body, ExitNext(g, neg, f), AnyValue, sf, env, fuel, w);
    } else {
      AscLowered(n, a, Let, ExitSeedExpr(m), ExitSeed(m), body, ExitNext(g, neg, f), AnyValue, sf, env, fuel, w);
    }
  }

  /** The early-exit lowerings leave in the temporary what the ascending
      (or, for `findLast*`, descending) run of `ExitNext` computes. */
  lemma ExitLowering(m: string, args: seq<Expr>, base: AF.Lowered, prefix: string, index: nat, a: seq<Value>,
                     g: (Value, nat) -> Value, sf: nat, env: Env, fuel: nat, w: World)
    requires m in AF.BooleanReturning || m in AF.FindMethods
    requires base.expr.Ident? && Apart(NamesOf(base.expr.name, prefix, index))
    requires base.expr.name in env && env[base.expr.name] == Arr(a)
    requires StepMaps(AF.Step(m, args, base.expr, prefix, index), NamesOf(base.expr.name, prefix, index), a, g, sf, w)
    requires fuel >= |a| + sf + 1
    ensures var next := ExitNext(g, ExitNeg(m), ExitFound(m));
            ResultOf(AF.LowerSupported(m, args, base, prefix, index), base, env, fuel, w)
            == Some(if SearchesBack(m) then RunDown(a, |a|, ExitSeed(m), next).0
                    else RunUp(a, |a|, ExitSeed(m), next).0)
  {
    var n := NamesOf(base.expr.name, prefix, index);
    var step := AF.Step(m, args, base.expr, prefix, index);
    ExitShape(m, args, base, prefix, index);
    ResultOfAdded(AF.LowerSupported(m, args, base, prefix, index), base, ExitAdded(m, n, step), env, fuel, w);
    ExitRuns(m, n, step, a, g, sf, env, fuel, w);
  }

  /** What each early-exit method stops on, stores and starts from. */
  lemma ExitParams()
    ensures ExitNeg("every") && ExitFound("every") == Flag(false) && ExitSeed("every") == Bool(true) && !SearchesBack("every")
    ensures !ExitNeg("some") && ExitFound("some") == Flag(true) && ExitSeed("some") == Bool(false) && !SearchesBack("some")
    ensures !ExitNeg("find") && ExitFound("find") == Element && ExitSeed("find") == Undefined && !SearchesBack("find")
    ensures !ExitNeg("findIndex") && ExitFound("findIndex") == Position && ExitSeed("findIndex") == Num(-1)
            && !SearchesBack("findIndex")
    ensures !ExitNeg("findLast") && ExitFound("findLast") == Element && ExitSeed("findLast") == Undefined
            && SearchesBack("findLast")
    ensures !ExitNeg("findLastIndex") && ExitFound("findLastIndex") == Position && ExitSeed("findLastIndex") == Num(-1)
            && SearchesBack("findLastIndex")
  {
  }

  /** `v` is what `find` reports: the first element whose step result is
      truthy, `undefined` when there is none. */
  ghost predicate FirstFound(a: seq<Value>, g: (Value, nat) -> Value, v: Value)
  {
    ((forall k :: 0 <= k < |a| ==> !Truthy(g(a[k], k))) ==> v == Undefined)
    && (forall k :: 0 <= k < |a| && Truthy(g(a[k], k)) ==>
          exists r :: 0 <= r <= k && Truthy(g(a[r], r)) && v == a[r] && forall q :: 0 <= q < r ==> !Truthy(g(a[q], q)))
  }

  /** `v` is what `findIndex` reports: the first index whose step result
      is truthy, -1 when there is none. */
  ghost predicate FirstIndex(a: seq<Value>, g: (Value, nat) -> Value, v: Value)
  {
    v.Num? && -1 <= v.n < |a|
    && (v.n == -1 <==> forall k :: 0 <= k < |a| ==> !Truthy(g(a[k], k)))
    && (v.n >= 0 ==> Truthy(g(a[v.n], v.n)) && forall k :: 0 <= k < v.n ==> !Truthy(g(a[k], k)))
  }

  /** `findLast`: the last element whose step result is truthy. */
  ghost predicate LastFound(a: seq<Value>, g: (Value, nat) -> Value, v: Value)
  {
    ((forall k :: 0 <= k < |a| ==> !Truthy(g(a[k], k))) ==> v == Undefined)
    && (forall k :: 0 <= k < |a| && Truthy(g(a[k], k)) ==>
          exists r :: k <= r < |a| && Truthy(g(a[r], r)) && v == a[r] && forall q :: r < q < |a| ==> !Truthy(g(a[q], q)))
  }

  /** `findLastIndex`: the last index whose step result is truthy, or -1. */
  ghost predicate LastIndex(a: seq<Value>, g: (Value, nat) -> Value, v: Value)
  {
    v.Num? && -1 <= v.n < |a|
    && (v.n == -1 <==> forall k :: 0 <= k < |a| ==> !Truthy(g(a[k], k)))
    && (v.n >= 0 ==> Truthy(g(a[v.n], v.n)) && forall k :: v.n < k < |a| ==> !Truthy(g(a[k], k)))
  }

  lemma FindMeaning(a: seq<Value>, g: (Value, nat) -> Value)
    ensures FirstFound(a, g, RunUp(a, |a|, Undefined, ExitNext(g, false, Element)).0)
  {
    ExitRunUp(a, g, false, Element, Undefined, |a|);
  }

  lemma FindIndexMeaning(a: seq<Value>, g: (Value, nat) -> Value)
    ensures FirstIndex(a, g, RunUp(a, |a|, Num(-1), ExitNext(g, false, Position)).0)
  {
    ExitRunUp(a, g, false, Position, Num(-1), |a|);
  }

  lemma FindLastMeaning(a: seq<Value>, g: (Value, nat) -> Value)
    ensures LastFound(a, g, RunDown(a, |a|, Undefined, ExitNext(g, false, Element)).0)
  {
    ExitRunDown(a, g, false, Element, Undefined, |a|);
  }

  lemma FindLastIndexMeaning(a: seq<Value>, g: (Value, nat) -> Value)
    ensures LastIndex(a, g, RunDown(a, |a|, Num(-1), ExitNext(g, false, Position)).0)
  {
    ExitRunDown(a, g, false, Position, Num(-1), |a|);
  }

  /** `base.every(cb)`: whether every step result is truthy. */
  lemma EveryLowering(args: seq<Expr>, base: AF.Lowered, prefix: string, index: nat, a: seq<Value>,
                      g: (Value, nat) -> Value, sf: nat, env: Env, fuel: nat, w: World)
    requires base.expr.Ident? && Apart(NamesOf(base.expr.name, prefix, index))
    requires base.expr.name in env && env[base.expr.name] == Arr(a)
    requires StepMaps(AF.Step("every", args, base.expr, prefix, index), NamesOf(base.expr.name, prefix, index), a, g, sf, w)
    requires fuel >= |a| + sf + 1
    ensures ResultOf(AF.LowerSupported("every", args, base, prefix, index), base, env, fuel, w)
            == Some(Bool(forall k :: 0 <= k < |a| ==> Truthy(g(a[k], k))))
  {
    ExitParams();
    ExitLowering("every", args, base, prefix, index, a, g, sf, env, fuel, w);
    ExitRunUp(a, g, true, Flag(false), Bool(true), |a|);
  }

  /** `base.some(cb)`: whether some step result is truthy. */
  lemma SomeLowering(args: seq<Expr>, base: AF.Lowered, prefix: string, index: nat, a: seq<Value>,
                     g: (Value, nat) -> Value, sf: nat, env: Env, fuel: nat, w: World)
    requires base.expr.Ident? && Apart(NamesOf(base.expr.name, prefix, index))
    requires base.expr.name in env && env[base.expr.name] == Arr(a)
    requires StepMaps(AF.Step("some", args, base.expr, prefix, index), NamesOf(base.expr.name, prefix, index), a, g, sf, w)
    requires fuel >= |a| + sf + 1
    ensures ResultOf(AF.LowerSupported("some", args, base, prefix, index), base, env, fuel, w)
            == Some(Bool(exists k :: 0 <= k < |a| && Truthy(g(a[k], k))))
  {
    ExitParams();
    ExitLowering("some", args, base, prefix, index, a, g, sf, env, fuel, w);
    ExitRunUp(a, g, false, Flag(true), Bool(false), |a|);
  }

  /** `base.find(cb)`: the first element whose step result is truthy,
      `undefined` when there is none. */
  lemma FindLowering(args: seq<Expr>, base: AF.Lowered, prefix: string, index: nat, a: seq<Value>,
                     g: (Value, nat) -> Value, sf: nat, env: Env, fuel: nat, w: World)
    requires base.expr.Ident? && Apart(NamesOf(base.expr.name, prefix, index))
    requires base.expr.name in env && env[base.expr.name] == Arr(a)
    requires StepMaps(AF.Step("find", args, base.expr, prefix, index), NamesOf(base.expr.name, prefix, index), a, g, sf, w)
    requires fuel >= |a| + sf + 1
    ensures var v := ResultOf(AF.LowerSupported("find", args, base, prefix, index), base, env, fuel, w);
            v.Some? && FirstFound(a, g, v.value)
  {
    ExitParams();
    ExitLowering("find", args, base, prefix, index, a, g, sf, env, fuel, w);
    FindMeaning(a, g);
  }

  /** `base.findIndex(cb)`: the index of the first truthy step result, or -1. */
  lemma FindIndexLowering(args: seq<Expr>, base: AF.Lowered, prefix: string, index: nat, a: seq<Value>,
                          g: (Value, nat) -> Value, sf: nat, env: Env, fuel: nat, w: World)
    requires base.expr.Ident? && Apart(NamesOf(base.expr.name, prefix, index))
    requires base.expr.name in env && env[base.expr.name] == Arr(a)
    requires StepMaps(AF.Step("findIndex", args, base.expr, prefix, index), NamesOf(base.expr.name, prefix, index), a, g, sf, w)
    requires fuel >= |a| + sf + 1
    ensures var v := ResultOf(AF.LowerSupported("findIndex", args, base, prefix, index), base, env, fuel, w);
            v.Some? && FirstIndex(a, g, v.value)
  {
    ExitParams();
    ExitLowering("findIndex", args, base, prefix, index, a, g, sf, env, fuel, w);
    FindIndexMeaning(a, g);
  }

  /** `base.findLast(cb)`: the last element whose step result is truthy,
      `undefined` when there is none. */
  lemma FindLastLowering(args: seq<Expr>, base: AF.Lowered, prefix: string, index: nat, a: seq<Value>,
                         g: (Value, nat) -> Value, sf: nat, env: Env, fuel: nat, w: World)
    requires base.expr.Ident? && Apart(NamesOf(base.expr.name, prefix, index))
    requires base.expr.name in env && env[base.expr.name] == Arr(a)
    requires StepMaps(AF.Step("findLast", args, base.expr, prefix, index), NamesOf(base.expr.name, prefix, index), a, g, sf, w)
    requires fuel >= |a| + sf + 1
    ensures var v := ResultOf(AF.LowerSupported("findLast", args, base, prefix, index), base, env, fuel, w);
            v.Some? && LastFound(a, g, v.value)
  {
    ExitParams();
    ExitLowering("findLast", args, base, prefix, index, a, g, sf, env, fuel, w);
    FindLastMeaning(a, g);
  }

  /** `base.findLastIndex(cb)`: the index of the last truthy step result, or -1. */
  lemma FindLastIndexLowering(args: seq<Expr>, base: AF.Lowered, prefix: string, index: nat, a: seq<Value>,
                              g: (Value, nat) -> Value, sf: nat, env: Env, fuel: nat, w: World)
    requires base.expr.Ident? && Apart(NamesOf(base.expr.name, prefix, index))
    requires base.expr.name in env && env[base.expr.name] == Arr(a)
    requires StepMaps(AF.Step("findLastIndex", args, base.expr, prefix, index), NamesOf(base.expr.name, prefix, index), a, g, sf, w)
    requires fuel >= |a| + sf + 1
    ensures var v := ResultOf(AF.LowerSupported("findLastIndex", args, base, prefix, index), base, env, fuel, w);
            v.Some? && LastIndex(a, g, v.value)
  {
    ExitParams();
    ExitLowering("findLastIndex", args, base, prefix, index, a, g, sf, env, fuel, w);
    FindLastIndexMeaning(a, g);
  }

  // reduce and reduceRight: the tail stores the step result in the accumulator.

  function FoldNext(g: (Value, Value, nat) -> Value): (Value, Value, nat) -> (Value, bool)
  {
    (acc: Value, x: Value, k: nat) => (g(acc, x, k), false)
  }

  function StoreTail(n: LoopNames): Stmt { ExprStmt(AssignTo(Ident(n.temp), Ident(n.result))) }

  lemma FoldIter(step: seq<Stmt>, n: LoopNames, a: seq<Value>, g: (Value, Value, nat) -> Value, sf: nat, w: World,
                 env: Env, k: nat, fuel: nat)
    requires Apart(n) && StepFolds(step, n, a, g, sf, w)
    requires k < |a| && fuel >= sf && Frame(env, n, a, k)
    ensures IterDone(IterAt(Block(step + [StoreTail(n)]), env, k, fuel, w), env, n, a, k,
                     FoldNext(g)(Lookup(env, n.temp), a[k], k), AnyValue)
  {
    var v := g(Lookup(env, n.temp), a[k], k);
    assert StepDone(StepAt(step, env, k, fuel, w), env, n, a, k, v);
    var e1 := ExecSeq(step, env, fuel, w).env;
    StepThenTail(step, StoreTail(n), env, fuel, w);
    EvalName(n.result, e1, w);
    AssignRuns(n.temp, Ident(n.result), e1, v, fuel, w);
  }

  lemma FoldBody(step: seq<Stmt>, n: LoopNames, a: seq<Value>, g: (Value, Value, nat) -> Value, sf: nat, w: World)
    requires Apart(n) && StepFolds(step, n, a, g, sf, w)
    ensures BodyDoes(Block(step + [StoreTail(n)]), n, a, FoldNext(g), AnyValue, sf, w)
  {
    forall env: Env, k: nat, fuel: nat | k < |a| && fuel >= sf && Frame(env, n, a, k) && AnyValue(Lookup(env, n.temp))
      ensures IterDone(IterAt(Block(step + [StoreTail(n)]), env, k, fuel, w), env, n, a, k,
                       FoldNext(g)(Lookup(env, n.temp), a[k], k), AnyValue)
    {
      FoldIter(step, n, a, g, sf, w, env, k, fuel);
    }
  }

  lemma {:induction false} FoldRunUp(a: seq<Value>, g: (Value, Value, nat) -> Value, v0: Value, m: nat)
    requires m <= |a|
    ensures RunUp(a, m, v0, FoldNext(g)) == (CL.FoldLeft(a[..m], g, v0), false)
  {
    if m > 0 {
      FoldRunUp(a, g, v0, m - 1);
      assert a[..m][..m - 1] == a[..m - 1];
      assert RunUp(a, m, v0, FoldNext(g)) == FoldNext(g)(CL.FoldLeft(a[..m - 1], g, v0), a[m - 1], m - 1);
    }
  }

  /** After `m` descending iterations, folding the untouched prefix from
      the accumulator gives the whole right fold. */
  lemma {:induction false} FoldRunDown(a: seq<Value>, g: (Value, Value, nat) -> Value, v0: Value, m: nat)
    requires m <= |a|
    ensures var p := RunDown(a, m, v0, FoldNext(g));
            !p.1 && CL.FoldRight(a[..|a| - m], g, p.0) == CL.FoldRight(a, g, v0)
  {
    if m == 0 {
      assert a[..|a|] == a;
    } else {
      FoldRunDown(a, g, v0, m - 1);
      var p := RunDown(a, m - 1, v0, FoldNext(g));
      var c := a[..|a| - m + 1];
      assert c[..|c| - 1] == a[..|a| - m];
      assert RunDown(a, m, v0, FoldNext(g)) == FoldNext(g)(p.0, a[|a| - m], |a| - m);
      assert CL.FoldRight(c, g, p.0) == CL.FoldRight(c[..|c| - 1], g, g(p.0, c[|c| - 1], |c| - 1));
    }
  }

  /** `initialValue` when given, `undefined` otherwise. */
  function ReduceSeedExpr(args: seq<Expr>): Expr
  {
    if |args| > 1 then args[1] else Undef()
  }

  function ReduceAdded(m: string, n: LoopNames, step: seq<Stmt>, args: seq<Expr>): seq<Stmt>
  {
    var body := step + [StoreTail(n)];
    [Decl1(Let, n.temp, ReduceSeedExpr(args)),
     if m == "reduceRight" then AF.DescLoop(n.i, Ident(n.b), body) else AF.AscLoop(n.i, Ident(n.b), body)]
  }

  /** The statements the lowering appends for `reduce` and `reduceRight`. */
  lemma ReduceShape(m: string, args: seq<Expr>, base: AF.Lowered, prefix: string, index: nat)
    requires m in AF.ReduceMethods && base.expr.Ident?
    ensures var n := NamesOf(base.expr.name, prefix, index);
            AF.LowerSupported(m, args, base, prefix, index)
            == AF.Lowered(Ident(n.temp), base.stmts + ReduceAdded(m, n, AF.Step(m, args, base.expr, prefix, index), args))
  {
  }

  lemma ReduceRuns(m: string, n: LoopNames, step: seq<Stmt>, args: seq<Expr>, a: seq<Value>, g: (Value, Value, nat) -> Value,
                   sf: nat, v0: Value, env: Env, fuel: nat, w: World)
    requires Apart(n) && n.b in env && env[n.b] == Arr(a) && StepFolds(step, n, a, g, sf, w)
    requires Eval(ReduceSeedExpr(args), env, w) == Some(v0) && fuel >= |a| + sf + 1
    ensures var o := ExecSeq(ReduceAdded(m, n, step, args), env, fuel, w);
            o.Normal? && Eval(Ident(n.temp), o.env, w)
                         == Some(if m == "reduceRight" then RunDown(a, |a|, v0, FoldNext(g)).0 else RunUp(a, |a|, v0, FoldNext(g)).0)
  {
    var body := step + [StoreTail(n)];
    FoldBody(step, n, a, g, sf, w);
    if m == "reduceRight" {
      DescLowered(n, a, Let, ReduceSeedExpr(args), v0, body, FoldNext(g), AnyValue, sf, env, fuel, w);
    } else {
      AscLowered(n, a, Let, ReduceSeedExpr(args), v0, body, FoldNext(g), AnyValue, sf, env, fuel, w);
    }
  }

  /** `base.reduce(cb, init)`: the left fold of the step function from the
      initial value (`undefined` when none is given). */
  lemma ReduceLowering(args: seq<Expr>, base: AF.Lowered, prefix: string, index: nat, a: seq<Value>,
                       g: (Value, Value, nat) -> Value, sf: nat, v0: Value, env: Env, fuel: nat, w: World)
    requires base.expr.Ident? && Apart(NamesOf(base.expr.name, prefix, index))
    requires base.expr.name in env && env[base.expr.name] == Arr(a)
    requires StepFolds(AF.Step("reduce", args, base.expr, prefix, index), NamesOf(base.expr.name, prefix, index), a, g, sf, w)
    requires Eval(ReduceSeedExpr(args), env, w) == Some(v0)
    requires fuel >= |a| + sf + 1
    ensures ResultOf(AF.LowerSupported("reduce", args, base, prefix, index), base, env, fuel, w) == Some(CL.FoldLeft(a, g, v0))
  {
    var n := NamesOf(base.expr.name, prefix, index);
    var step := AF.Step("reduce", args, base.expr, prefix, index);
    ReduceShape("reduce", args, base, prefix, index);
    ResultOfAdded(AF.LowerSupported("reduce", args, base, prefix, index), base, ReduceAdded("reduce", n, step, args), env, fuel, w);
    ReduceRuns("reduce", n, step, args, a, g, sf, v0, env, fuel, w);
    FoldRunUp(a, g, v0, |a|);
    assert a[..|a|] == a;
  }

  /** `base.reduceRight(cb, init)`: the right fold. */
  lemma ReduceRightLowering(args: seq<Expr>, base: AF.Lowered, prefix: string, index: nat, a: seq<Value>,
                            g: (Value, Value, nat) -> Value, sf: nat, v0: Value, env: Env, fuel: nat, w: World)
    requires base.expr.Ident? && Apart(NamesOf(base.expr.name, prefix, index))
    requires base.expr.name in env && env[base.expr.name] == Arr(a)
    requires StepFolds(AF.Step("reduceRight", args, base.expr, prefix, index), NamesOf(base.expr.name, prefix, index), a, g, sf, w)
    requires Eval(ReduceSeedExpr(args), env, w) == Some(v0)
    requires fuel >= |a| + sf + 1
    ensures ResultOf(AF.LowerSupported("reduceRight", args, base, prefix, index), base, env, fuel, w) == Some(CL.FoldRight(a, g, v0))
  {
    var n := NamesOf(base.expr.name, prefix, index);
    var step := AF.Step("reduceRight", args, base.expr, prefix, index);
    ReduceShape("reduceRight", args, base, prefix, index);
    ResultOfAdded(AF.LowerSupported("reduceRight", args, base, prefix, index), base, ReduceAdded("reduceRight", n, step, args), env, fuel, w);
    ReduceRuns("reduceRight", n, step, args, a, g, sf, v0, env, fuel, w);
    FoldRunDown(a, g, v0, |a|);
  }

  // forEach: the step alone, and the chain's value is `undefined`.

  function EachNext(): (Value, Value, nat) -> (Value, bool)
  {
    (acc: Value, x: Value, k: nat) => (acc, false)
  }

  lemma EachBody(step: seq<Stmt>, n: LoopNames, a: seq<Value>, g: (Value, nat) -> Value, sf: nat, w: World)
    requires Apart(n) && StepMaps(step, n, a, g, sf, w)
    ensures BodyDoes(Block(step), n, a, EachNext(), AnyValue, sf, w)
  {
    forall env: Env, k: nat, fuel: nat | k < |a| && fuel >= sf && Frame(env, n, a, k) && AnyValue(Lookup(env, n.temp))
      ensures IterDone(IterAt(Block(step), env, k, fuel, w), env, n, a, k, EachNext()(Lookup(env, n.temp), a[k], k), AnyValue)
    {
      assert StepDone(StepAt(step, env, k, fuel, w), env, n, a, k, g(a[k], k));
    }
  }

  /** `base.forEach(cb)` runs the step for every element, in order, and
      the chain's value is `undefined`. */
  lemma ForEachLowering(args: seq<Expr>, base: AF.Lowered, prefix: string, index: nat, a: seq<Value>,
                        g: (Value, nat) -> Value, sf: nat, env: Env, fuel: nat, w: World)
    requires base.expr.Ident? && Apart(NamesOf(base.expr.name, prefix, index))
    requires base.expr.name in env && env[base.expr.name] == Arr(a)
    requires StepMaps(AF.Step("forEach", args, base.expr, prefix, index), NamesOf(base.expr.name, prefix, index), a, g, sf, w)
    requires fuel >= |a| + sf + 1
    ensures ResultOf(AF.LowerSupported("forEach", args, base, prefix, index), base, env, fuel, w) == Some(Undefined)
  {
    var n := NamesOf(base.expr.name, prefix, index);
    var step := AF.Step("forEach", args, base.expr, prefix, index);
    var loop := AF.AscLoop(n.i, Ident(n.b), step);
    assert AF.LowerSupported("forEach", args, base, prefix, index) == AF.Lowered(Undef(), base.stmts + [loop]);
    ResultOfAdded(AF.LowerSupported("forEach", args, base, prefix, index), base, [loop], env, fuel, w);
    ExecSeqOne(loop, env, fuel, w);
    EachBody(step, n, a, g, sf, w);
    AscForRuns(step, n, a, EachNext(), AnyValue, sf, w, Lookup(env, n.temp), env, fuel);
  }

  // The callback's parameters: what `Bindings` declares, run.

  /** The arguments the lowering passes to the callback at `base[i]`:
      the accumulator first for the reducers, then the element, the index
      and the array, as `Array.prototype` methods call their callbacks. */
  function ArgExprs(n: LoopNames, reduce: bool): seq<Expr>
  {
    (if reduce then [Ident(n.temp)] else []) + [Idx(Ident(n.b), Ident(n.i)), Ident(n.i), Ident(n.b)]
  }

  function ArgValues(acc: Value, a: seq<Value>, k: nat, reduce: bool): seq<Value>
    requires k < |a|
  {
    (if reduce then [acc] else []) + [a[k], Num(k), Arr(a)]
  }

  /** Plain, pairwise distinct parameter names that none of the generated
      names shadow. */
  predicate SimpleParams(params: seq<Pattern>, n: LoopNames)
  {
    (forall q :: 0 <= q < |params| ==> params[q].PIdent? && params[q].pname !in {n.i, n.b, n.temp, n.result, "undefined"})
    && (forall p, q :: 0 <= p < q < |params| ==> params[p].pname != params[q].pname)
  }

  /** The callback's statements open with the parameter bindings. */
  lemma StepShape(m: string, args: seq<Expr>, b: string, prefix: string, index: nat)
    ensures var n := NamesOf(b, prefix, index);
            var cb := AF.CallbackOf(args);
            AF.Step(m, args, Ident(b), prefix, index)
            == AF.Bindings(AF.CallbackParams(cb), ArgExprs(n, m in AF.ReduceMethods))
               + AF.StepStmts(cb, Idx(Ident(b), Ident(n.i)), n.result)
  {
    var n := NamesOf(b, prefix, index);
    var elem := Idx(Ident(b), Ident(n.i));
    if m in AF.ReduceMethods {
      assert ArgExprs(n, true) == [Ident(n.temp), elem, Ident(n.i), Ident(b)];
    } else {
      assert ArgExprs(n, false) == [elem, Ident(n.i), Ident(b)];
    }
  }

  lemma ArgEval(n: LoopNames, reduce: bool, a: seq<Value>, k: nat, q: nat, env: Env, w: World)
    requires Apart(n) && k < |a| && Frame(env, n, a, k) && (reduce ==> n.temp in env)
    requires q < |ArgExprs(n, reduce)|
    ensures Eval(ArgExprs(n, reduce)[q], env, w) == Some(ArgValues(Lookup(env, n.temp), a, k, reduce)[q])
  {
    var d := if reduce then 1 else 0;
    if reduce && q == 0 {
      EvalName(n.temp, env, w);
    } else if q == d {
      EvalElem(n, env, a, k, w);
    } else if q == d + 1 {
      EvalName(n.i, env, w);
    } else {
      EvalName(n.b, env, w);
    }
  }

  /** Running the first `m` bindings binds parameter `q` to argument `q`,
      for every `q < m`, and leaves the loop's own names alone. */
  lemma {:induction false} BindingsRun(params: seq<Pattern>, n: LoopNames, a: seq<Value>, k: nat, reduce: bool,
                                       env: Env, m: nat, fuel: nat, w: World)
    requires Apart(n) && k < |a| && Frame(env, n, a, k) && (reduce ==> n.temp in env) && SimpleParams(params, n)
    requires m <= Min(|params|, |ArgExprs(n, reduce)|)
    ensures var o := ExecSeq(AF.Bindings(params[..m], ArgExprs(n, reduce)), env, fuel, w);
            var vs := ArgValues(Lookup(env, n.temp), a, k, reduce);
            Bound(o, env, params, n, a, k, vs, m)
  {
    var xs := ArgExprs(n, reduce);
    if m == 0 {
      assert AF.Bindings(params[..0], xs) == [];
    } else {
      BindingsRun(params, n, a, k, reduce, env, m - 1, fuel, w);
      BindingsStep(params, n, a, k, reduce, env, m, fuel, w);
    }
  }

  /** `o` ends normally with parameters `0 .. m - 1` bound to `vs` and the
      loop's names as in `env`. */
  predicate Bound(o: Outcome, env: Env, params: seq<Pattern>, n: LoopNames, a: seq<Value>, k: int, vs: seq<Value>, m: nat)
    requires m <= |params| && m <= |vs| && forall q :: 0 <= q < m ==> params[q].PIdent?
  {
    o.Normal? && Frame(o.env, n, a, k) && Lookup(o.env, n.temp) == Lookup(env, n.temp)
    && (n.temp in env ==> n.temp in o.env)
    && forall q :: 0 <= q < m ==> params[q].pname in o.env && o.env[params[q].pname] == vs[q]
  }

  lemma BindingsStep(params: seq<Pattern>, n: LoopNames, a: seq<Value>, k: nat, reduce: bool,
                     env: Env, m: nat, fuel: nat, w: World)
    requires Apart(n) && k < |a| && Frame(env, n, a, k) && (reduce ==> n.temp in env) && SimpleParams(params, n)
    requires 0 < m <= Min(|params|, |ArgExprs(n, reduce)|)
    requires Bound(ExecSeq(AF.Bindings(params[..m - 1], ArgExprs(n, reduce)), env, fuel, w), env, params, n, a, k,
                   ArgValues(Lookup(env, n.temp), a, k, reduce), m - 1)
    ensures Bound(ExecSeq(AF.Bindings(params[..m], ArgExprs(n, reduce)), env, fuel, w), env, params, n, a, k,
                  ArgValues(Lookup(env, n.temp), a, k, reduce), m)
  {
    var xs := ArgExprs(n, reduce);
    var vs := ArgValues(Lookup(env, n.temp), a, k, reduce);
    var before := AF.Bindings(params[..m - 1], xs);
    var decl := Decl1(Const, params[m - 1].pname, xs[m - 1]);
    BindingsSnoc(params, xs, m);
    ExecSeqAppend(before, [decl], env, fuel, w);
    var e1 := ExecSeq(before, env, fuel, w).env;
    ArgEval(n, reduce, a, k, m - 1, e1, w);
    DeclRuns(Const, params[m - 1].pname, xs[m - 1], e1, vs[m - 1], fuel, w);
    BoundGrows(e1, env, params, n, a, k, vs, m);
  }

  lemma BindingsSnoc(params: seq<Pattern>, xs: seq<Expr>, m: nat)
    requires 0 < m <= Min(|params|, |xs|) && params[m - 1].PIdent?
    ensures AF.Bindings(params[..m], xs) == AF.Bindings(params[..m - 1], xs) + [Decl1(Const, params[m - 1].pname, xs[m - 1])]
  {
  }

  /** Binding parameter `m - 1` keeps the earlier ones and the loop's names. */
  lemma BoundGrows(e1: Env, env: Env, params: seq<Pattern>, n: LoopNames, a: seq<Value>, k: int, vs: seq<Value>, m: nat)
    requires 0 < m <= |params| && m <= |vs| && SimpleParams(params, n)
    requires Bound(Normal(e1), env, params, n, a, k, vs, m - 1)
    ensures Bound(Normal(e1[params[m - 1].pname := vs[m - 1]]), env, params, n, a, k, vs, m)
  {
  }

  /** The statements of `x => x` at depth `index`. */
  function IdentityStep(x: string, n: LoopNames): seq<Stmt>
  {
    AF.Bindings([PIdent(x)][..1], ArgExprs(n, false)) + [Decl1(Const, n.result, Ident(x))]
  }

  lemma IdentityStepRuns(x: string, n: LoopNames, a: seq<Value>, e: Env, k: nat, f: nat, w: World)
    requires Apart(n) && SimpleParams([PIdent(x)], n) && k < |a| && Frame(e, n, a, k)
    ensures StepDone(StepAt(IdentityStep(x, n), e, k, f, w), e, n, a, k, a[k])
  {
    var bs := AF.Bindings([PIdent(x)][..1], ArgExprs(n, false));
    BindingsRun([PIdent(x)], n, a, k, false, e, 1, f, w);
    ExecSeqAppend(bs, [Decl1(Const, n.result, Ident(x))], e, f, w);
    var e1 := ExecSeq(bs, e, f, w).env;
    EvalName(x, e1, w);
    DeclRuns(Const, n.result, Ident(x), e1, a[k], f, w);
  }

  /** The identity callback meets `StepMaps` with no fuel of its own. */
  lemma IdentityStepMaps(x: string, n: LoopNames, a: seq<Value>, w: World)
    requires Apart(n) && SimpleParams([PIdent(x)], n)
    ensures StepMaps(IdentityStep(x, n), n, a, (v: Value, k: nat) => v, 0, w)
  {
    forall e: Env, k: nat, f: nat {:trigger StepAt(IdentityStep(x, n), e, k, f, w)} | k < |a| && Frame(e, n, a, k)
      ensures StepDone(StepAt(IdentityStep(x, n), e, k, f, w), e, n, a, k, a[k])
    {
      IdentityStepRuns(x, n, a, e, k, f, w);
    }
  }

  /** An example that meets `StepMaps`: `base.map(x => x)` copies the array. */
  lemma IdentityMapCopies(x: string, base: AF.Lowered, prefix: string, index: nat, a: seq<Value>, env: Env, fuel: nat, w: World)
    requires base.expr.Ident? && Apart(NamesOf(base.expr.name, prefix, index))
    requires SimpleParams([PIdent(x)], NamesOf(base.expr.name, prefix, index))
    requires base.expr.name in env && env[base.expr.name] == Arr(a)
    requires fuel >= |a| + 1
    ensures ResultOf(AF.LowerSupported("map", [Func([PIdent(x)], BodyExpr(Ident(x)))], base, prefix, index), base, env, fuel, w)
            == Some(Arr(a))
  {
    var n := NamesOf(base.expr.name, prefix, index);
    var args := [Func([PIdent(x)], BodyExpr(Ident(x)))];
    var g := (v: Value, k: nat) => v;
    StepShape("map", args, base.expr.name, prefix, index);
    assert AF.Bindings([PIdent(x)], ArgExprs(n, false)) == AF.Bindings([PIdent(x)][..1], ArgExprs(n, false));
    assert AF.Step("map", args, base.expr, prefix, index) == IdentityStep(x, n);
    IdentityStepMaps(x, n, a, w);
    MapLowering(args, base, prefix, index, a, g, 0, env, fuel, w);
    assert Mapped(a, g) == a;
  }
}
