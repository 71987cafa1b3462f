/** `replaceDollar.ts`: the target dialect does not accept `$` in names, so
    every identifier containing `$` has each `$` replaced by `_24_` (the
    character's code in hexadecimal between underscores). Babel's
    `Identifier` visitor sees every identifier node: references, binding
    names in patterns, parameters, function names, the property name of
    `obj.prop` and identifier keys of object literals and patterns. */
module ReplaceDollar {
  import opened Base
  import opened Ast

  /* ---- One name ---- */

  function Expand(c: char): string
  {
    if c == '$' then "_24_" else [c]
  }

  /** Every `$` of `n` replaced, the other characters kept in order. */
  function ReplaceAll(n: string): string
  {
    if |n| == 0 then [] else Expand(n[0]) + ReplaceAll(n[1..])
  }

  /** The visitor on one name: a name without `$` is left alone. */
  function Sanitize(n: string): string
  {
    if '$' in n then ReplaceAll(n) else n
  }

  function Dollars(n: string): nat
  {
    if |n| == 0 then 0 else (if n[0] == '$' then 1 else 0) + Dollars(n[1..])
  }

  lemma ReplaceAllSpec(n: string)
    ensures '$' !in ReplaceAll(n)
    ensures |ReplaceAll(n)| == |n| + 3 * Dollars(n)
    ensures '$' !in n ==> ReplaceAll(n) == n
    ensures ReplaceAll(n) == Flatten(Map(Expand, n))
  {
    ReplaceAllClean(n);
    ReplaceAllLength(n);
    if '$' !in n {
      ReplaceAllKeeps(n);
    }
    ReplaceAllPieces(n);
  }

  lemma {:induction false} ReplaceAllClean(n: string)
    ensures '$' !in ReplaceAll(n)
  {
    if |n| > 0 {
      ReplaceAllClean(n[1..]);
      assert '$' !in Expand(n[0]);
    }
  }

  lemma {:induction false} ReplaceAllLength(n: string)
    ensures |ReplaceAll(n)| == |n| + 3 * Dollars(n)
  {
    if |n| > 0 {
      ReplaceAllLength(n[1..]);
    }
  }

  lemma {:induction false} ReplaceAllKeeps(n: string)
    requires '$' !in n
    ensures ReplaceAll(n) == n
  {
    if |n| > 0 {
      assert n[0] != '$' && '$' !in n[1..];
      ReplaceAllKeeps(n[1..]);
      assert n == [n[0]] + n[1..];
    }
  }

  lemma {:induction false} ReplaceAllPieces(n: string)
    ensures ReplaceAll(n) == Flatten(Map(Expand, n))
  {
    if |n| > 0 {
      ReplaceAllPieces(n[1..]);
      assert n == [n[0]] + n[1..];
      MapAppend(Expand, [n[0]], n[1..]);
      FlattenCons(Expand(n[0]), Map(Expand, n[1..]));
      assert Map(Expand, [n[0]]) == [Expand(n[0])];
    }
  }

  lemma {:induction false} FlattenCons<T>(x: seq<T>, rest: seq<seq<T>>)
    ensures Flatten([x] + rest) == x + Flatten(rest)
  {
    FlattenAppend([x], rest);
    assert [x][..0] == [];
  }

  lemma NoDollarCount(n: string)
    requires '$' !in n
    ensures Dollars(n) == 0
  {
    ReplaceAllSpec(n);
  }

  /** The result holds no `$`; it grows by exactly three characters per
      `$`; a name is left unchanged exactly when it has no `$`; and each
      character stands for itself except `$`, which stands for `_24_`. */
  lemma SanitizeSpec(n: string)
    ensures '$' !in Sanitize(n)
    ensures |Sanitize(n)| == |n| + 3 * Dollars(n)
    ensures Sanitize(n) == n <==> '$' !in n
    ensures Sanitize(n) == Flatten(Map(Expand, n))
  {
    ReplaceAllSpec(n);
    if '$' !in n {
      NoDollarCount(n);
    } else {
      DollarCounted(n);
    }
  }

  lemma {:induction false} DollarCounted(n: string)
    requires '$' in n
    ensures Dollars(n) > 0
  {
    if n[0] != '$' {
      assert '$' in n[1..];
      DollarCounted(n[1..]);
    }
  }

  /** Applying the pass twice is applying it once. */
  lemma SanitizeIdempotent(n: string)
    ensures Sanitize(Sanitize(n)) == Sanitize(n)
  {
    SanitizeSpec(n);
  }

  /** Two different names can meet: `a$` and `a_24_` both become `a_24_`. */
  lemma SanitizeCollides()
    ensures "a$" != "a_24_" && Sanitize("a$") == Sanitize("a_24_") == "a_24_"
  {
    assert "a$"[1..] == "$" && "$"[1..] == "";
    assert ReplaceAll("$") == "_24_";
    assert ReplaceAll("a$") == "a" + "_24_";
    assert '$' !in "a_24_";
  }

  /* ---- A whole tree ---- */

  function SExpr(e: Expr): Expr
  {
    match e
    case Ident(n) => Ident(Sanitize(n))
    case ArrayLit(elems) => ArrayLit(seq(|elems|, i requires 0 <= i < |elems| => SElem(elems[i])))
    case ObjectLit(props) => ObjectLit(seq(|props|, i requires 0 <= i < |props| => SProp(props[i])))
    case Member(obj, p) => Member(SExpr(obj), Sanitize(p))
    case Call(callee, args) => Call(SExpr(callee), seq(|args|, i requires 0 <= i < |args| => SExpr(args[i])))
    case Func(ps, body) => Func(seq(|ps|, i requires 0 <= i < |ps| => SPat(ps[i])), SBody(body))
    case Op(op, xs) => Op(op, seq(|xs|, i requires 0 <= i < |xs| => SExpr(xs[i])))
    case _ => e
  }

  function SElem(a: ArrayElem): ArrayElem
  {
    match a
    case Hole => Hole
    case Item(x) => Item(SExpr(x))
    case Spread(x) => Spread(SExpr(x))
  }

  function SKey(k: PropKey): PropKey
  {
    match k
    case KeyIdent(n) => KeyIdent(Sanitize(n))
    case KeyLiteral(_) => k
  }

  function SProp(q: ObjProp): ObjProp
  {
    match q
    case KeyValue(k, v) => KeyValue(SKey(k), SExpr(v))
    case Shorthand(n) => Shorthand(Sanitize(n))
    case SpreadProp(x) => SpreadProp(SExpr(x))
  }

  function SBody(b: FuncBody): FuncBody
  {
    match b
    case BodyExpr(x) => BodyExpr(SExpr(x))
    case BodyBlock(ss) => BodyBlock(SStmts(ss))
  }

  function SPat(p: Pattern): Pattern
  {
    match p
    case PIdent(n) => PIdent(Sanitize(n))
    case PObject(props) => PObject(seq(|props|, i requires 0 <= i < |props| => SPatProp(props[i])))
    case PArray(elems) => PArray(seq(|elems|, i requires 0 <= i < |elems| => SPatElem(elems[i])))
    case PDefault(t, f) => PDefault(SPat(t), SExpr(f))
  }

  function SPatProp(q: PatProp): PatProp
  {
    match q
    case PProp(k, v) => PProp(SKey(k), SPat(v))
    case PComputed(k, v) => PComputed(SExpr(k), SPat(v))
    case PRest(r) => PRest(SPat(r))
  }

  function SPatElem(el: PatElem): PatElem
  {
    match el
    case PHole => PHole
    case PElem(p) => PElem(SPat(p))
    case PRestElem(p) => PRestElem(SPat(p))
  }

  function SOpt(o: Option<Expr>): Option<Expr>
  {
    match o
    case None => None
    case Some(x) => Some(SExpr(x))
  }

  function SDecl(d: Declarator): Declarator
  {
    Declarator(SPat(d.id), SOpt(d.init))
  }

  function SDecls(ds: seq<Declarator>): seq<Declarator>
  {
    seq(|ds|, i requires 0 <= i < |ds| => SDecl(ds[i]))
  }

  function SHead(h: ForHead): ForHead
  {
    match h
    case HeadDecl(k, ds) => HeadDecl(k, SDecls(ds))
    case HeadTarget(p) => HeadTarget(SPat(p))
  }

  function SStmts(ss: seq<Stmt>): seq<Stmt>
  {
    seq(|ss|, i requires 0 <= i < |ss| => SStmt(ss[i]))
  }

  function SStmt(s: Stmt): Stmt
  {
    match s
    case VarDecl(k, ds) => VarDecl(k, SDecls(ds))
    case ExprStmt(x) => ExprStmt(SExpr(x))
    case Return(o) => Return(SOpt(o))
    case Throw(x) => Throw(SExpr(x))
    case If(c, y, n) => If(SExpr(c), SStmt(y), match n case None => None case Some(t) => Some(SStmt(t)))
    case Block(ss) => Block(SStmts(ss))
    case For(init, t, u, b) => For(SStmts(init), SOpt(t), SOpt(u), SStmt(b))
    case ForIn(h, r, b) => ForIn(SHead(h), SExpr(r), SStmt(b))
    case ForOf(h, r, b) => ForOf(SHead(h), SExpr(r), SStmt(b))
    case While(t, b) => While(SExpr(t), SStmt(b))
    case DoWhile(b, t) => DoWhile(SStmt(b), SExpr(t))
    case FuncDecl(n, ps, body) => FuncDecl(Sanitize(n), seq(|ps|, i requires 0 <= i < |ps| => SPat(ps[i])), SStmts(body))
    case ExportNamed(d) => ExportNamed(match d case None => None case Some(t) => Some(SStmt(t)))
    case ExportDefault(DefaultStmt(t)) => ExportDefault(DefaultStmt(SStmt(t)))
    case ExportDefault(DefaultValue(x)) => ExportDefault(DefaultValue(SExpr(x)))
    case _ => s
  }

  function Transform(ss: seq<Stmt>): seq<Stmt>
  {
    SStmts(ss)
  }

  /* ---- Every identifier of a tree is free of `$` ---- */

  predicate Ok(n: string) { '$' !in n }

  predicate CExpr(e: Expr)
  {
    match e
    case Ident(n) => Ok(n)
    case ArrayLit(elems) => forall i :: 0 <= i < |elems| ==> CElem(elems[i])
    case ObjectLit(props) => forall i :: 0 <= i < |props| ==> CProp(props[i])
    case Member(obj, p) => CExpr(obj) && Ok(p)
    case Call(callee, args) => CExpr(callee) && forall i :: 0 <= i < |args| ==> CExpr(args[i])
    case Func(ps, body) => (forall i :: 0 <= i < |ps| ==> CPat(ps[i])) && CBody(body)
    case Op(_, xs) => forall i :: 0 <= i < |xs| ==> CExpr(xs[i])
    case _ => true
  }

  predicate CElem(a: ArrayElem)
  {
    match a
    case Hole => true
    case Item(x) => CExpr(x)
    case Spread(x) => CExpr(x)
  }

  predicate CKey(k: PropKey)
  {
    match k
    case KeyIdent(n) => Ok(n)
    case KeyLiteral(_) => true
  }

  predicate CProp(q: ObjProp)
  {
    match q
    case KeyValue(k, v) => CKey(k) && CExpr(v)
    case Shorthand(n) => Ok(n)
    case SpreadProp(x) => CExpr(x)
  }

  predicate CBody(b: FuncBody)
  {
    match b
    case BodyExpr(x) => CExpr(x)
    case BodyBlock(ss) => forall i :: 0 <= i < |ss| ==> CStmt(ss[i])
  }

  predicate CPat(p: Pattern)
  {
    match p
    case PIdent(n) => Ok(n)
    case PObject(props) => forall i :: 0 <= i < |props| ==> CPatProp(props[i])
    case PArray(elems) => forall i :: 0 <= i < |elems| ==> CPatElem(elems[i])
    case PDefault(t, f) => CPat(t) && CExpr(f)
  }

  predicate CPatProp(q: PatProp)
  {
    match q
    case PProp(k, v) => CKey(k) && CPat(v)
    case PComputed(k, v) => CExpr(k) && CPat(v)
    case PRest(r) => CPat(r)
  }

  predicate CPatElem(el: PatElem)
  {
    match el
    case PHole => true
    case PElem(p) => CPat(p)
    case PRestElem(p) => CPat(p)
  }

  predicate COpt(o: Option<Expr>)
  {
    match o
    case None => true
    case Some(x) => CExpr(x)
  }

  predicate CDecl(d: Declarator)
  {
    CPat(d.id) && COpt(d.init)
  }

  predicate CHead(h: ForHead)
  {
    match h
    case HeadDecl(_, ds) => forall i :: 0 <= i < |ds| ==> CDecl(ds[i])
    case HeadTarget(p) => CPat(p)
  }

  predicate CStmt(s: Stmt)
  {
    match s
    case VarDecl(_, ds) => forall i :: 0 <= i < |ds| ==> CDecl(ds[i])
    case ExprStmt(x) => CExpr(x)
    case Return(o) => COpt(o)
    case Throw(x) => CExpr(x)
    case If(c, y, n) => CExpr(c) && CStmt(y) && (match n case None => true case Some(t) => CStmt(t))
    case Block(ss) => forall i :: 0 <= i < |ss| ==> CStmt(ss[i])
    case For(init, t, u, b) => (forall i :: 0 <= i < |init| ==> CStmt(init[i])) && COpt(t) && COpt(u) && CStmt(b)
    case ForIn(h, r, b) => CHead(h) && CExpr(r) && CStmt(b)
    case ForOf(h, r, b) => CHead(h) && CExpr(r) && CStmt(b)
    case While(t, b) => CExpr(t) && CStmt(b)
    case DoWhile(b, t) => CStmt(b) && CExpr(t)
    case FuncDecl(n, ps, body) => Ok(n) && (forall i :: 0 <= i < |ps| ==> CPat(ps[i])) && (forall i :: 0 <= i < |body| ==> CStmt(body[i]))
    case ExportNamed(d) => (match d case None => true case Some(t) => CStmt(t))
    case ExportDefault(DefaultStmt(t)) => CStmt(t)
    case ExportDefault(DefaultValue(x)) => CExpr(x)
    case _ => true
  }

  /* ---- The output is clean ---- */

  lemma OkSanitize(n: string)
    ensures Ok(Sanitize(n))
  {
    SanitizeSpec(n);
  }

  lemma {:induction false} CleanExpr(e: Expr)
    ensures CExpr(SExpr(e))
    decreases e, 0
  {
    match e
    case Ident(n) => OkSanitize(n);
    case ArrayLit(elems) =>
      forall i | 0 <= i < |elems| ensures CElem(SElem(elems[i])) { CleanElem(elems[i]); }
    case ObjectLit(props) =>
      forall i | 0 <= i < |props| ensures CProp(SProp(props[i])) { CleanProp(props[i]); }
    case Member(obj, p) => CleanExpr(obj); OkSanitize(p);
    case Call(callee, args) =>
      CleanExpr(callee);
      forall i | 0 <= i < |args| ensures CExpr(SExpr(args[i])) { CleanExpr(args[i]); }
    case Func(ps, body) =>
      forall i | 0 <= i < |ps| ensures CPat(SPat(ps[i])) { CleanPat(ps[i]); }
      CleanBody(body);
    case Op(_, xs) =>
      forall i | 0 <= i < |xs| ensures CExpr(SExpr(xs[i])) { CleanExpr(xs[i]); }
    case _ =>
  }

  lemma {:induction false} CleanElem(a: ArrayElem)
    ensures CElem(SElem(a))
    decreases a, 0
  {
    match a
    case Hole =>
    case Item(x) => CleanExpr(x);
    case Spread(x) => CleanExpr(x);
  }

  lemma CleanKey(k: PropKey)
    ensures CKey(SKey(k))
  {
    if k.KeyIdent? { OkSanitize(k.id); }
  }

  lemma {:induction false} CleanProp(q: ObjProp)
    ensures CProp(SProp(q))
    decreases q, 0
  {
    match q
    case KeyValue(k, v) => CleanKey(k); CleanExpr(v);
    case Shorthand(n) => OkSanitize(n);
    case SpreadProp(x) => CleanExpr(x);
  }

  lemma {:induction false} CleanBody(b: FuncBody)
    ensures CBody(SBody(b))
    decreases b, 0
  {
    match b
    case BodyExpr(x) => CleanExpr(x);
    case BodyBlock(ss) => CleanStmts(ss);
  }

  lemma {:induction false} CleanPat(p: Pattern)
    ensures CPat(SPat(p))
    decreases p, 0
  {
    match p
    case PIdent(n) => OkSanitize(n);
    case PObject(props) =>
      forall i | 0 <= i < |props| ensures CPatProp(SPatProp(props[i])) { CleanPatProp(props[i]); }
    case PArray(elems) =>
      forall i | 0 <= i < |elems| ensures CPatElem(SPatElem(elems[i])) { CleanPatElem(elems[i]); }
    case PDefault(t, f) => CleanPat(t); CleanExpr(f);
  }

  lemma {:induction false} CleanPatProp(q: PatProp)
    ensures CPatProp(SPatProp(q))
    decreases q, 0
  {
    match q
    case PProp(k, v) => CleanKey(k); CleanPat(v);
    case PComputed(k, v) => CleanExpr(k); CleanPat(v);
    case PRest(r) => CleanPat(r);
  }

  lemma {:induction false} CleanPatElem(el: PatElem)
    ensures CPatElem(SPatElem(el))
    decreases el, 0
  {
    match el
    case PHole =>
    case PElem(p) => CleanPat(p);
    case PRestElem(p) => CleanPat(p);
  }

  lemma {:induction false} CleanOpt(o: Option<Expr>)
    ensures COpt(SOpt(o))
    decreases o, 0
  {
    if o.Some? { CleanExpr(o.value); }
  }

  lemma {:induction false} CleanDecl(d: Declarator)
    ensures CDecl(SDecl(d))
    decreases d, 0
  {
    CleanPat(d.id);
    CleanOpt(d.init);
  }

  lemma {:induction false} CleanDecls(ds: seq<Declarator>)
    ensures forall i :: 0 <= i < |ds| ==> CDecl(SDecls(ds)[i])
    decreases ds, 1
  {
    forall i | 0 <= i < |ds| ensures CDecl(SDecl(ds[i])) { CleanDecl(ds[i]); }
  }

  lemma {:induction false} CleanStmts(ss: seq<Stmt>)
    ensures forall i :: 0 <= i < |ss| ==> CStmt(SStmts(ss)[i])
    decreases ss, 1
  {
    forall i | 0 <= i < |ss| ensures CStmt(SStmt(ss[i])) { CleanStmt(ss[i]); }
  }

  lemma {:induction false} CleanStmt(s: Stmt)
    ensures CStmt(SStmt(s))
    decreases s, 1
  {
    if IsLoop(s) {
      CleanLoop(s);
    } else if s.VarDecl? || s.ExprStmt? || s.Return? || s.Throw? {
      CleanLeaf(s);
    } else {
      CleanNested(s);
    }
  }

  lemma {:induction false} CleanLoop(s: Stmt)
    requires IsLoop(s)
    ensures CStmt(SStmt(s))
    decreases s, 0
  {
    if s.For? {
      CleanStmts(s.init);
      CleanOpt(s.test);
      CleanOpt(s.update);
      CleanStmt(s.body);
      assert SStmt(s) == For(SStmts(s.init), SOpt(s.test), SOpt(s.update), SStmt(s.body));
    } else if s.ForIn? || s.ForOf? {
      CleanHead(s.left);
      CleanExpr(s.right);
      CleanStmt(s.body);
    } else {
      CleanExpr(s.loopTest);
      CleanStmt(s.body);
    }
  }

  lemma CleanHead(h: ForHead)
    ensures CHead(SHead(h))
  {
    if h.HeadDecl? { CleanDecls(h.hdecls); } else { CleanPat(h.lval); }
  }

  lemma {:induction false} CleanLeaf(s: Stmt)
    requires s.VarDecl? || s.ExprStmt? || s.Return? || s.Throw?
    ensures CStmt(SStmt(s))
    decreases s, 0
  {
    match s
    case VarDecl(_, ds) => CleanDecls(ds);
    case ExprStmt(x) => CleanExpr(x);
    case Return(o) => CleanOpt(o);
    case Throw(x) => CleanExpr(x);
  }

  lemma {:induction false} CleanNested(s: Stmt)
    requires !IsLoop(s) && !(s.VarDecl? || s.ExprStmt? || s.Return? || s.Throw?)
    ensures CStmt(SStmt(s))
    decreases s, 0
  {
    match s
    case If(c, y, n) =>
      CleanExpr(c);
      CleanStmt(y);
      if n.Some? { CleanStmt(n.value); }
    case Block(ss) => CleanStmts(ss);
    case FuncDecl(n, ps, body) =>
      OkSanitize(n);
      forall i | 0 <= i < |ps| ensures CPat(SPat(ps[i])) { CleanPat(ps[i]); }
      CleanStmts(body);
    case ExportNamed(d) => if d.Some? { CleanStmt(d.value); }
    case ExportDefault(DefaultStmt(t)) => CleanStmt(t);
    case ExportDefault(DefaultValue(x)) => CleanExpr(x);
    case _ =>
  }

  /* ---- A clean tree is left as it is ---- */

  lemma KeepOk(n: string)
    requires Ok(n)
    ensures Sanitize(n) == n
  {
  }

  lemma {:induction false} KeepExprC(e: Expr)
    requires CExpr(e)
    ensures SExpr(e) == e
    decreases e, 0
  {
    match e
    case ArrayLit(elems) =>
      forall i | 0 <= i < |elems| ensures SElem(elems[i]) == elems[i] { KeepElem(elems[i]); }
    case ObjectLit(props) =>
      forall i | 0 <= i < |props| ensures SProp(props[i]) == props[i] { KeepProp(props[i]); }
    case Member(obj, _) => KeepExprC(obj);
    case Call(callee, args) =>
      KeepExprC(callee);
      forall i | 0 <= i < |args| ensures SExpr(args[i]) == args[i] { KeepExprC(args[i]); }
    case Func(ps, body) =>
      forall i | 0 <= i < |ps| ensures SPat(ps[i]) == ps[i] { KeepPat(ps[i]); }
      KeepBody(body);
    case Op(_, xs) =>
      forall i | 0 <= i < |xs| ensures SExpr(xs[i]) == xs[i] { KeepExprC(xs[i]); }
    case _ =>
  }

  lemma {:induction false} KeepElem(a: ArrayElem)
    requires CElem(a)
    ensures SElem(a) == a
    decreases a, 0
  {
    match a
    case Hole =>
    case Item(x) => KeepExprC(x);
    case Spread(x) => KeepExprC(x);
  }

  lemma {:induction false} KeepProp(q: ObjProp)
    requires CProp(q)
    ensures SProp(q) == q
    decreases q, 0
  {
    match q
    case KeyValue(_, v) => KeepExprC(v);
    case Shorthand(_) =>
    case SpreadProp(x) => KeepExprC(x);
  }

  lemma {:induction false} KeepBody(b: FuncBody)
    requires CBody(b)
    ensures SBody(b) == b
    decreases b, 0
  {
    match b
    case BodyExpr(x) => KeepExprC(x);
    case BodyBlock(ss) => KeepStmts(ss);
  }

  lemma {:induction false} KeepPat(p: Pattern)
    requires CPat(p)
    ensures SPat(p) == p
    decreases p, 0
  {
    match p
    case PIdent(_) =>
    case PObject(props) =>
      forall i | 0 <= i < |props| ensures SPatProp(props[i]) == props[i] { KeepPatProp(props[i]); }
    case PArray(elems) =>
      forall i | 0 <= i < |elems| ensures SPatElem(elems[i]) == elems[i] { KeepPatElem(elems[i]); }
    case PDefault(t, f) => KeepPat(t); KeepExprC(f);
  }

  lemma {:induction false} KeepPatProp(q: PatProp)
    requires CPatProp(q)
    ensures SPatProp(q) == q
    decreases q, 0
  {
    match q
    case PProp(_, v) => KeepPat(v);
    case PComputed(k, v) => KeepExprC(k); KeepPat(v);
    case PRest(r) => KeepPat(r);
  }

  lemma {:induction false} KeepPatElem(el: PatElem)
    requires CPatElem(el)
    ensures SPatElem(el) == el
    decreases el, 0
  {
    match el
    case PHole =>
    case PElem(p) => KeepPat(p);
    case PRestElem(p) => KeepPat(p);
  }

  lemma {:induction false} KeepOpt(o: Option<Expr>)
    requires COpt(o)
    ensures SOpt(o) == o
    decreases o, 0
  {
    if o.Some? { KeepExprC(o.value); }
  }

  lemma {:induction false} KeepDecl(d: Declarator)
    requires CDecl(d)
    ensures SDecl(d) == d
    decreases d, 0
  {
    KeepPat(d.id);
    KeepOpt(d.init);
  }

  lemma {:induction false} KeepDecls(ds: seq<Declarator>)
    requires forall i :: 0 <= i < |ds| ==> CDecl(ds[i])
    ensures SDecls(ds) == ds
    decreases ds, 1
  {
    forall i | 0 <= i < |ds| ensures SDecl(ds[i]) == ds[i] { KeepDecl(ds[i]); }
  }

  lemma {:induction false} KeepStmts(ss: seq<Stmt>)
    requires forall i :: 0 <= i < |ss| ==> CStmt(ss[i])
    ensures SStmts(ss) == ss
    decreases ss, 1
  {
    forall i | 0 <= i < |ss| ensures SStmt(ss[i]) == ss[i] { KeepStmt1(ss[i]); }
  }

  lemma {:induction false} KeepStmt1(s: Stmt)
    requires CStmt(s)
    ensures SStmt(s) == s
    decreases s, 1
  {
    if IsLoop(s) {
      KeepLoop(s);
    } else if s.VarDecl? || s.ExprStmt? || s.Return? || s.Throw? {
      KeepLeaf(s);
    } else {
      KeepNested(s);
    }
  }

  lemma {:induction false} KeepLoop(s: Stmt)
    requires CStmt(s) && IsLoop(s)
    ensures SStmt(s) == s
    decreases s, 0
  {
    match s
    case For(init, t, u, b) => KeepStmts(init); KeepOpt(t); KeepOpt(u); KeepStmt1(b);
    case ForIn(h, r, b) =>
      if h.HeadDecl? { KeepDecls(h.hdecls); } else { KeepPat(h.lval); }
      KeepExprC(r);
      KeepStmt1(b);
    case ForOf(h, r, b) =>
      if h.HeadDecl? { KeepDecls(h.hdecls); } else { KeepPat(h.lval); }
      KeepExprC(r);
      KeepStmt1(b);
    case While(t, b) => KeepExprC(t); KeepStmt1(b);
    case DoWhile(b, t) => KeepStmt1(b); KeepExprC(t);
  }

  lemma {:induction false} KeepLeaf(s: Stmt)
    requires CStmt(s) && (s.VarDecl? || s.ExprStmt? || s.Return? || s.Throw?)
    ensures SStmt(s) == s
    decreases s, 0
  {
    match s
    case VarDecl(_, ds) => KeepDecls(ds);
    case ExprStmt(x) => KeepExprC(x);
    case Return(o) => KeepOpt(o);
    case Throw(x) => KeepExprC(x);
  }

  lemma {:induction false} KeepNested(s: Stmt)
    requires CStmt(s) && !IsLoop(s) && !(s.VarDecl? || s.ExprStmt? || s.Return? || s.Throw?)
    ensures SStmt(s) == s
    decreases s, 0
  {
    match s
    case If(c, y, n) =>
      KeepExprC(c);
      KeepStmt1(y);
      if n.Some? { KeepStmt1(n.value); }
    case Block(ss) => KeepStmts(ss);
    case FuncDecl(_, ps, body) =>
      forall i | 0 <= i < |ps| ensures SPat(ps[i]) == ps[i] { KeepPat(ps[i]); }
      KeepStmts(body);
    case ExportNamed(d) => if d.Some? { KeepStmt1(d.value); }
    case ExportDefault(DefaultStmt(t)) => KeepStmt1(t);
    case ExportDefault(DefaultValue(x)) => KeepExprC(x);
    case _ =>
  }

  /** After the pass no identifier holds `$`; a file whose identifiers
      hold none is left unchanged; so the pass is idempotent. */
  lemma TransformSpec(ss: seq<Stmt>)
    ensures |Transform(ss)| == |ss|
    ensures forall i :: 0 <= i < |ss| ==> CStmt(Transform(ss)[i])
    ensures (forall i :: 0 <= i < |ss| ==> CStmt(ss[i])) ==> Transform(ss) == ss
    ensures Transform(Transform(ss)) == Transform(ss)
  {
    CleanStmts(ss);
    if forall i :: 0 <= i < |ss| ==> CStmt(ss[i]) {
      KeepStmts(ss);
    }
    KeepStmts(Transform(ss));
  }
}
