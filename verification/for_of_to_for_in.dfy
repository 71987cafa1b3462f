/** `forOfToForIn.ts`: every `for (left of right) body` becomes
    `for (left in right) body` with the same three parts. In the target
    dialect `for-in` over an array visits its elements, which is why the
    header is kept as it is. */
module ForOfToForIn {
  import opened Base
  import opened Ast

  function ToForIn(s: Stmt): Stmt
  {
    match s
    case ForOf(l, r, b) => ForIn(l, r, b)
    case _ => s
  }

  /** The pass on a file. Babel visits the new `for-in` and its body after
      the replacement, so nested loops are rewritten too; rebuilding the
      children first gives the same tree. */
  function Transform(ss: seq<Stmt>): seq<Stmt>
  {
    RwStmts(ss, NoPre, KeepExpr, ToForIn)
  }

  /* ---- No `for-of` anywhere in a tree, function bodies included ---- */

  predicate FreeExpr(e: Expr)
  {
    match e
    case ArrayLit(elems) => forall i :: 0 <= i < |elems| ==> FreeElem(elems[i])
    case ObjectLit(props) => forall i :: 0 <= i < |props| ==> FreeProp(props[i])
    case Member(obj, _) => FreeExpr(obj)
    case Call(callee, args) => FreeExpr(callee) && forall i :: 0 <= i < |args| ==> FreeExpr(args[i])
    case Func(_, body) => FreeBody(body)
    case Op(_, xs) => forall i :: 0 <= i < |xs| ==> FreeExpr(xs[i])
    case _ => true
  }

  predicate FreeElem(a: ArrayElem)
  {
    match a
    case Hole => true
    case Item(x) => FreeExpr(x)
    case Spread(x) => FreeExpr(x)
  }

  predicate FreeProp(q: ObjProp)
  {
    match q
    case KeyValue(_, v) => FreeExpr(v)
    case Shorthand(_) => true
    case SpreadProp(x) => FreeExpr(x)
  }

  predicate FreeBody(b: FuncBody)
  {
    match b
    case BodyExpr(x) => FreeExpr(x)
    case BodyBlock(ss) => forall i :: 0 <= i < |ss| ==> FreeStmt(ss[i])
  }

  predicate FreeOpt(o: Option<Expr>)
  {
    match o
    case None => true
    case Some(x) => FreeExpr(x)
  }

  predicate FreeDecl(d: Declarator)
  {
    match d
    case Declarator(_, init) => FreeOpt(init)
  }

  predicate FreeHead(h: ForHead)
  {
    match h
    case HeadDecl(_, ds) => forall i :: 0 <= i < |ds| ==> FreeDecl(ds[i])
    case HeadTarget(_) => true
  }

  predicate FreeStmt(s: Stmt)
  {
    match s
    case VarDecl(_, ds) => forall i :: 0 <= i < |ds| ==> FreeDecl(ds[i])
    case ExprStmt(x) => FreeExpr(x)
    case Return(o) => FreeOpt(o)
    case Throw(x) => FreeExpr(x)
    case If(c, y, n) => FreeExpr(c) && FreeStmt(y) && (match n case None => true case Some(t) => FreeStmt(t))
    case Block(ss) => forall i :: 0 <= i < |ss| ==> FreeStmt(ss[i])
    case For(init, t, u, b) =>
      (forall i :: 0 <= i < |init| ==> FreeStmt(init[i])) && FreeOpt(t) && FreeOpt(u) && FreeStmt(b)
    case ForIn(h, r, b) => FreeHead(h) && FreeExpr(r) && FreeStmt(b)
    case ForOf(_, _, _) => false
    case While(t, b) => FreeExpr(t) && FreeStmt(b)
    case DoWhile(b, t) => FreeStmt(b) && FreeExpr(t)
    case FuncDecl(_, _, body) => forall i :: 0 <= i < |body| ==> FreeStmt(body[i])
    case ExportNamed(d) => (match d case None => true case Some(t) => FreeStmt(t))
    case ExportDefault(DefaultStmt(t)) => FreeStmt(t)
    case ExportDefault(DefaultValue(x)) => FreeExpr(x)
    case _ => true
  }

  /* ---- After the pass no `for-of` is left ---- */

  lemma {:induction false} GoneExpr(e: Expr)
    ensures FreeExpr(RwExpr(e, NoPre, KeepExpr, ToForIn))
    decreases e, 0
  {
    match e
    case ArrayLit(elems) =>
      forall i | 0 <= i < |elems| ensures FreeElem(RwElem(elems[i], NoPre, KeepExpr, ToForIn)) {
        GoneElem(elems[i]);
      }
    case ObjectLit(props) =>
      forall i | 0 <= i < |props| ensures FreeProp(RwProp(props[i], NoPre, KeepExpr, ToForIn)) {
        GoneProp(props[i]);
      }
    case Member(obj, _) => GoneExpr(obj);
    case Call(callee, args) =>
      GoneExpr(callee);
      forall i | 0 <= i < |args| ensures FreeExpr(RwExpr(args[i], NoPre, KeepExpr, ToForIn)) {
        GoneExpr(args[i]);
      }
    case Func(_, body) => GoneBody(body);
    case Op(_, xs) =>
      forall i | 0 <= i < |xs| ensures FreeExpr(RwExpr(xs[i], NoPre, KeepExpr, ToForIn)) {
        GoneExpr(xs[i]);
      }
    case _ =>
  }

  lemma {:induction false} GoneElem(a: ArrayElem)
    ensures FreeElem(RwElem(a, NoPre, KeepExpr, ToForIn))
    decreases a, 0
  {
    match a
    case Hole =>
    case Item(x) => GoneExpr(x);
    case Spread(x) => GoneExpr(x);
  }

  lemma {:induction false} GoneProp(q: ObjProp)
    ensures FreeProp(RwProp(q, NoPre, KeepExpr, ToForIn))
    decreases q, 0
  {
    match q
    case KeyValue(_, v) => GoneExpr(v);
    case Shorthand(_) =>
    case SpreadProp(x) => GoneExpr(x);
  }

  lemma {:induction false} GoneBody(b: FuncBody)
    ensures FreeBody(RwBody(b, NoPre, KeepExpr, ToForIn))
    decreases b, 0
  {
    match b
    case BodyExpr(x) => GoneExpr(x);
    case BodyBlock(ss) => GoneStmts(ss);
  }

  lemma {:induction false} GoneOpt(o: Option<Expr>)
    ensures FreeOpt(RwOpt(o, NoPre, KeepExpr, ToForIn))
    decreases o, 0
  {
    if o.Some? { GoneExpr(o.value); }
  }

  lemma {:induction false} GoneDecls(ds: seq<Declarator>)
    ensures forall i :: 0 <= i < |ds| ==> FreeDecl(RwDecls(ds, NoPre, KeepExpr, ToForIn)[i])
    decreases ds, 1
  {
    forall i | 0 <= i < |ds| ensures FreeDecl(RwDecl(ds[i], NoPre, KeepExpr, ToForIn)) {
      GoneDecl(ds[i]);
    }
  }

  lemma {:induction false} GoneDecl(d: Declarator)
    ensures FreeDecl(RwDecl(d, NoPre, KeepExpr, ToForIn))
    decreases d, 0
  {
    GoneOpt(d.init);
  }

  lemma {:induction false} GoneStmts(ss: seq<Stmt>)
    ensures forall i :: 0 <= i < |ss| ==> FreeStmt(RwStmts(ss, NoPre, KeepExpr, ToForIn)[i])
    decreases ss, 1
  {
    forall i | 0 <= i < |ss| ensures FreeStmt(RwStmt(ss[i], NoPre, KeepExpr, ToForIn)) {
      GoneStmt(ss[i]);
    }
  }

  lemma {:induction false} GoneStmt(s: Stmt)
    ensures FreeStmt(RwStmt(s, NoPre, KeepExpr, ToForIn))
    decreases s, 1
  {
    if s.For? {
      GoneFor(s);
    } else if s.ForIn? || s.ForOf? {
      GoneForInOf(s);
    } else if s.If? || s.While? || s.DoWhile? {
      GoneBranch(s);
    } else if s.VarDecl? || s.ExprStmt? || s.Return? || s.Throw? {
      GoneLeaf(s);
    } else {
      GoneNested(s);
    }
  }

  lemma {:induction false} GoneFor(s: Stmt)
    requires s.For?
    ensures FreeStmt(RwStmt(s, NoPre, KeepExpr, ToForIn))
    decreases s, 0
  {
    GoneStmts(s.init);
    GoneOpt(s.test);
    GoneOpt(s.update);
    GoneStmt(s.body);
  }

  lemma {:induction false} GoneForInOf(s: Stmt)
    requires s.ForIn? || s.ForOf?
    ensures FreeStmt(RwStmt(s, NoPre, KeepExpr, ToForIn))
    decreases s, 0
  {
    if s.left.HeadDecl? { GoneDecls(s.left.hdecls); }
    assert FreeHead(RwHead(s.left, NoPre, KeepExpr, ToForIn));
    GoneExpr(s.right);
    GoneStmt(s.body);
  }

  lemma {:induction false} GoneBranch(s: Stmt)
    requires s.If? || s.While? || s.DoWhile?
    ensures FreeStmt(RwStmt(s, NoPre, KeepExpr, ToForIn))
    decreases s, 0
  {
    match s
    case If(c, y, n) =>
      GoneExpr(c);
      GoneStmt(y);
      if n.Some? { GoneStmt(n.value); }
    case While(t, b) => GoneExpr(t); GoneStmt(b);
    case DoWhile(b, t) => GoneStmt(b); GoneExpr(t);
  }

  /** The statements that hold expressions but no statements. */
  lemma {:induction false} GoneLeaf(s: Stmt)
    requires s.VarDecl? || s.ExprStmt? || s.Return? || s.Throw?
    ensures FreeStmt(RwStmt(s, NoPre, KeepExpr, ToForIn))
    decreases s, 0
  {
    match s
    case VarDecl(_, ds) => GoneDecls(ds);
    case ExprStmt(x) => GoneExpr(x);
    case Return(o) => GoneOpt(o);
    case Throw(x) => GoneExpr(x);
  }

  lemma {:induction false} GoneNested(s: Stmt)
    requires !(s.For? || s.ForIn? || s.ForOf? || s.If? || s.While? || s.DoWhile?)
    requires !(s.VarDecl? || s.ExprStmt? || s.Return? || s.Throw?)
    ensures FreeStmt(RwStmt(s, NoPre, KeepExpr, ToForIn))
    decreases s, 0
  {
    match s
    case Block(ss) => GoneStmts(ss);
    case FuncDecl(_, _, body) => GoneStmts(body);
    case ExportNamed(d) => if d.Some? { GoneStmt(d.value); }
    case ExportDefault(DefaultStmt(t)) => GoneStmt(t);
    case ExportDefault(DefaultValue(x)) => GoneExpr(x);
    case _ =>
  }

  /** No statement of the output holds a `for-of`, however deeply nested. */
  lemma TransformRemovesForOf(ss: seq<Stmt>)
    ensures |Transform(ss)| == |ss|
    ensures forall i :: 0 <= i < |ss| ==> FreeStmt(Transform(ss)[i])
  {
    GoneStmts(ss);
  }

  /* ---- Nothing else changes ---- */

  lemma {:induction false} SameExpr(e: Expr)
    requires FreeExpr(e)
    ensures RwExpr(e, NoPre, KeepExpr, ToForIn) == e
    decreases e, 0
  {
    match e
    case ArrayLit(elems) =>
      forall i | 0 <= i < |elems| ensures RwElem(elems[i], NoPre, KeepExpr, ToForIn) == elems[i] {
        SameElem(elems[i]);
      }
    case ObjectLit(props) =>
      forall i | 0 <= i < |props| ensures RwProp(props[i], NoPre, KeepExpr, ToForIn) == props[i] {
        SameProp(props[i]);
      }
    case Member(obj, _) => SameExpr(obj);
    case Call(callee, args) =>
      SameExpr(callee);
      forall i | 0 <= i < |args| ensures RwExpr(args[i], NoPre, KeepExpr, ToForIn) == args[i] {
        SameExpr(args[i]);
      }
    case Func(_, body) => SameBody(body);
    case Op(_, xs) =>
      forall i | 0 <= i < |xs| ensures RwExpr(xs[i], NoPre, KeepExpr, ToForIn) == xs[i] {
        SameExpr(xs[i]);
      }
    case _ =>
  }

  lemma {:induction false} SameElem(a: ArrayElem)
    requires FreeElem(a)
    ensures RwElem(a, NoPre, KeepExpr, ToForIn) == a
    decreases a, 0
  {
    match a
    case Hole =>
    case Item(x) => SameExpr(x);
    case Spread(x) => SameExpr(x);
  }

  lemma {:induction false} SameProp(q: ObjProp)
    requires FreeProp(q)
    ensures RwProp(q, NoPre, KeepExpr, ToForIn) == q
    decreases q, 0
  {
    match q
    case KeyValue(_, v) => SameExpr(v);
    case Shorthand(_) =>
    case SpreadProp(x) => SameExpr(x);
  }

  lemma {:induction false} SameBody(b: FuncBody)
    requires FreeBody(b)
    ensures RwBody(b, NoPre, KeepExpr, ToForIn) == b
    decreases b, 0
  {
    match b
    case BodyExpr(x) => SameExpr(x);
    case BodyBlock(ss) => SameStmts(ss);
  }

  lemma {:induction false} SameOpt(o: Option<Expr>)
    requires FreeOpt(o)
    ensures RwOpt(o, NoPre, KeepExpr, ToForIn) == o
    decreases o, 0
  {
    if o.Some? { SameExpr(o.value); }
  }

  lemma {:induction false} SameDecls(ds: seq<Declarator>)
    requires forall i :: 0 <= i < |ds| ==> FreeDecl(ds[i])
    ensures RwDecls(ds, NoPre, KeepExpr, ToForIn) == ds
    decreases ds, 1
  {
    forall i | 0 <= i < |ds| ensures RwDecl(ds[i], NoPre, KeepExpr, ToForIn) == ds[i] {
      SameDecl(ds[i]);
    }
  }

  lemma {:induction false} SameDecl(d: Declarator)
    requires FreeDecl(d)
    ensures RwDecl(d, NoPre, KeepExpr, ToForIn) == d
    decreases d, 0
  {
    SameOpt(d.init);
  }

  lemma {:induction false} SameStmts(ss: seq<Stmt>)
    requires forall i :: 0 <= i < |ss| ==> FreeStmt(ss[i])
    ensures RwStmts(ss, NoPre, KeepExpr, ToForIn) == ss
    decreases ss, 1
  {
    forall i | 0 <= i < |ss| ensures RwStmt(ss[i], NoPre, KeepExpr, ToForIn) == ss[i] {
      SameStmt(ss[i]);
    }
  }

  lemma {:induction false} SameStmt(s: Stmt)
    requires FreeStmt(s)
    ensures RwStmt(s, NoPre, KeepExpr, ToForIn) == s
    decreases s, 0
  {
    match s
    case VarDecl(_, ds) => SameDecls(ds);
    case ExprStmt(x) => SameExpr(x);
    case Return(o) => SameOpt(o);
    case Throw(x) => SameExpr(x);
    case If(c, y, n) =>
      SameExpr(c);
      SameStmt(y);
      if n.Some? { SameStmt(n.value); }
    case Block(ss) => SameStmts(ss);
    case For(init, t, u, b) =>
      SameStmts(init);
      SameOpt(t);
      SameOpt(u);
      SameStmt(b);
    case ForIn(h, r, b) =>
      if h.HeadDecl? { SameDecls(h.hdecls); }
      SameExpr(r);
      SameStmt(b);
    case While(t, b) => SameExpr(t); SameStmt(b);
    case DoWhile(b, t) => SameStmt(b); SameExpr(t);
    case FuncDecl(_, _, body) => SameStmts(body);
    case ExportNamed(d) => if d.Some? { SameStmt(d.value); }
    case ExportDefault(DefaultStmt(t)) => SameStmt(t);
    case ExportDefault(DefaultValue(x)) => SameExpr(x);
    case _ =>
  }

  /** A file without `for-of` comes out unchanged, so the pass is
      idempotent. */
  lemma TransformIdempotent(ss: seq<Stmt>)
    ensures (forall i :: 0 <= i < |ss| ==> FreeStmt(ss[i])) ==> Transform(ss) == ss
    ensures Transform(Transform(ss)) == Transform(ss)
  {
    if forall i :: 0 <= i < |ss| ==> FreeStmt(ss[i]) {
      SameStmts(ss);
    }
    TransformRemovesForOf(ss);
    SameStmts(Transform(ss));
  }

  /** A `for-of` keeps its header, iterated expression and (rewritten)
      body. */
  lemma ForOfBecomesForIn(h: ForHead, r: Expr, b: Stmt)
    ensures Transform([ForOf(h, r, b)])
            == [ForIn(RwHead(h, NoPre, KeepExpr, ToForIn), RwExpr(r, NoPre, KeepExpr, ToForIn), RwStmt(b, NoPre, KeepExpr, ToForIn))]
    ensures FreeHead(h) && FreeExpr(r) && FreeStmt(b) ==> Transform([ForOf(h, r, b)]) == [ForIn(h, r, b)]
  {
    assert RwStmts([ForOf(h, r, b)], NoPre, KeepExpr, ToForIn)[0] == RwStmt(ForOf(h, r, b), NoPre, KeepExpr, ToForIn);
    if FreeHead(h) && FreeExpr(r) && FreeStmt(b) {
      if h.HeadDecl? { SameDecls(h.hdecls); }
      SameExpr(r);
      SameStmt(b);
    }
  }
}
