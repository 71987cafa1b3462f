/** The syntax tree the lowering passes rewrite: the fragment of
    TypeScript/JavaScript they inspect or produce. Operators the passes only
    carry along (binary, prefix and postfix operators, `new`, `?:`, element
    access, assignment) share the one node `Op`, whose operand list the
    traversals walk like any other child list. */
module Ast {
  import opened Base

  datatype Kind = Var | Let | Const

  datatype Expr =
    | Ident(name: string)
    | NumLit(num: int)
    | StrLit(text: string)
    | BoolLit(truth: bool)
    | NullLit
    | ArrayLit(elems: seq<ArrayElem>)
    | ObjectLit(props: seq<ObjProp>)
      /** `obj.prop` */
    | Member(obj: Expr, prop: string)
    | Call(callee: Expr, args: seq<Expr>)
      /** An arrow function or function expression. */
    | Func(params: seq<Pattern>, body: FuncBody)
      /** `operands[0] op operands[1]`, `op operands[0]`, `obj[index]` (op `[]`),
          `new C(args)` (op `new`), `a = b` (op `=`), ... */
    | Op(op: string, operands: seq<Expr>)

  /** An element of an array literal: a hole, a value or `...spread`. */
  datatype ArrayElem = Hole | Item(item: Expr) | Spread(source: Expr)

  datatype PropKey = KeyIdent(id: string) | KeyLiteral(literal: string)

  /** A member of an object literal. */
  datatype ObjProp =
    | KeyValue(key: PropKey, value: Expr)
    | Shorthand(short: string)
    | SpreadProp(spread: Expr)

  datatype FuncBody = BodyExpr(result: Expr) | BodyBlock(stmts: seq<Stmt>)

  /** Binding patterns of declarations and parameters. */
  datatype Pattern =
    | PIdent(pname: string)
    | PObject(pprops: seq<PatProp>)
    | PArray(pelems: seq<PatElem>)
      /** `target = fallback` */
    | PDefault(target: Pattern, fallback: Expr)

  /** A property of an object pattern: `key: value`, `[keyExpr]: value`
      or `...rest`. */
  datatype PatProp =
    | PProp(pkey: PropKey, pvalue: Pattern)
    | PComputed(keyExpr: Expr, cvalue: Pattern)
    | PRest(restObj: Pattern)

  datatype PatElem = PHole | PElem(elem: Pattern) | PRestElem(restArr: Pattern)

  datatype Declarator = Declarator(id: Pattern, init: Option<Expr>)

  /** The left side of a `for-in`/`for-of` header. */
  datatype ForHead = HeadDecl(hkind: Kind, hdecls: seq<Declarator>) | HeadTarget(lval: Pattern)

  /** The declaration an `export default` carries. */
  datatype DefaultExport = DefaultStmt(stmt: Stmt) | DefaultValue(value: Expr)

  datatype Stmt =
    | VarDecl(kind: Kind, decls: seq<Declarator>)
    | ExprStmt(expr: Expr)
    | Return(ret: Option<Expr>)
    | Throw(thrown: Expr)
    | If(cond: Expr, yes: Stmt, no: Option<Stmt>)
    | Block(stmts: seq<Stmt>)
      /** `for (init; test; update) body`; `init` holds the initialising
          declaration or expression statements, if any. */
    | For(init: seq<Stmt>, test: Option<Expr>, update: Option<Expr>, body: Stmt)
    | ForIn(left: ForHead, right: Expr, body: Stmt)
    | ForOf(left: ForHead, right: Expr, body: Stmt)
    | While(loopTest: Expr, body: Stmt)
    | DoWhile(body: Stmt, loopTest: Expr)
    | Break
    | FuncDecl(fname: string, fparams: seq<Pattern>, fbody: seq<Stmt>)
    | Import(from: string)
    | ExportNamed(decl: Option<Stmt>)
    | ExportDefault(default: DefaultExport)
    | ExportAll(allFrom: string)

  // Shorthands for the nodes the passes build.

  function Undef(): Expr { Ident("undefined") }

  function CallNamed(name: string, args: seq<Expr>): Expr { Call(Ident(name), args) }

  /** `obj[index]` */
  function Idx(obj: Expr, index: Expr): Expr { Op("[]", [obj, index]) }

  /** `target = value` */
  function AssignTo(target: Expr, value: Expr): Expr { Op("=", [target, value]) }

  function Decl1(kind: Kind, name: string, init: Expr): Stmt
  {
    VarDecl(kind, [Declarator(PIdent(name), Some(init))])
  }

  function IsLoop(s: Stmt): bool
  {
    s.For? || s.ForIn? || s.ForOf? || s.While? || s.DoWhile?
  }

  /** A statement list where a single statement is expected: the statement
      itself when there is exactly one, a block otherwise. */
  function Lift(ss: seq<Stmt>): (r: Stmt)
    ensures |ss| == 1 ==> r == ss[0]
    ensures |ss| != 1 ==> r == Block(ss)
  {
    if |ss| == 1 then ss[0] else Block(ss)
  }

  /** Generic rewrite of every expression of a tree. At each expression
      node, `pre` is asked first: when it answers, its answer replaces the
      node and the node's children are not visited (a visitor that returns
      a new node instead of recursing). Otherwise the children are rewritten
      first and `post` is applied to the rebuilt node. Statements are
      rebuilt the same way and passed to `spost`. Binding patterns are kept
      as they are. */
  function RwExpr(e: Expr, pre: Expr -> Option<Expr>, post: Expr -> Expr, spost: Stmt -> Stmt): Expr
  {
    match pre(e)
    case Some(r) => r
    case None =>
      post(
        match e
        case ArrayLit(elems) =>
          ArrayLit(seq(|elems|, i requires 0 <= i < |elems| => RwElem(elems[i], pre, post, spost)))
        case ObjectLit(props) =>
          ObjectLit(seq(|props|, i requires 0 <= i < |props| => RwProp(props[i], pre, post, spost)))
        case Member(obj, prop) => Member(RwExpr(obj, pre, post, spost), prop)
        case Call(callee, args) =>
          Call(RwExpr(callee, pre, post, spost), seq(|args|, i requires 0 <= i < |args| => RwExpr(args[i], pre, post, spost)))
        case Func(params, body) => Func(params, RwBody(body, pre, post, spost))
        case Op(op, operands) =>
          Op(op, seq(|operands|, i requires 0 <= i < |operands| => RwExpr(operands[i], pre, post, spost)))
        case _ => e)
  }

  function RwElem(a: ArrayElem, pre: Expr -> Option<Expr>, post: Expr -> Expr, spost: Stmt -> Stmt): ArrayElem
  {
    match a
    case Hole => Hole
    case Item(x) => Item(RwExpr(x, pre, post, spost))
    case Spread(x) => Spread(RwExpr(x, pre, post, spost))
  }

  function RwProp(p: ObjProp, pre: Expr -> Option<Expr>, post: Expr -> Expr, spost: Stmt -> Stmt): ObjProp
  {
    match p
    case KeyValue(k, v) => KeyValue(k, RwExpr(v, pre, post, spost))
    case Shorthand(n) => Shorthand(n)
    case SpreadProp(x) => SpreadProp(RwExpr(x, pre, post, spost))
  }

  function RwBody(b: FuncBody, pre: Expr -> Option<Expr>, post: Expr -> Expr, spost: Stmt -> Stmt): FuncBody
  {
    match b
    case BodyExpr(x) => BodyExpr(RwExpr(x, pre, post, spost))
    case BodyBlock(ss) => BodyBlock(RwStmts(ss, pre, post, spost))
  }

  function RwOpt(o: Option<Expr>, pre: Expr -> Option<Expr>, post: Expr -> Expr, spost: Stmt -> Stmt): Option<Expr>
  {
    match o
    case None => None
    case Some(x) => Some(RwExpr(x, pre, post, spost))
  }

  function RwDecls(ds: seq<Declarator>, pre: Expr -> Option<Expr>, post: Expr -> Expr, spost: Stmt -> Stmt): seq<Declarator>
  {
    seq(|ds|, i requires 0 <= i < |ds| => RwDecl(ds[i], pre, post, spost))
  }

  function RwDecl(d: Declarator, pre: Expr -> Option<Expr>, post: Expr -> Expr, spost: Stmt -> Stmt): Declarator
  {
    match d
    case Declarator(id, init) => Declarator(id, RwOpt(init, pre, post, spost))
  }

  function RwHead(h: ForHead, pre: Expr -> Option<Expr>, post: Expr -> Expr, spost: Stmt -> Stmt): ForHead
  {
    match h
    case HeadDecl(k, ds) => HeadDecl(k, RwDecls(ds, pre, post, spost))
    case HeadTarget(p) => HeadTarget(p)
  }

  function RwStmts(ss: seq<Stmt>, pre: Expr -> Option<Expr>, post: Expr -> Expr, spost: Stmt -> Stmt): seq<Stmt>
  {
    seq(|ss|, i requires 0 <= i < |ss| => RwStmt(ss[i], pre, post, spost))
  }

  function RwStmt(s: Stmt, pre: Expr -> Option<Expr>, post: Expr -> Expr, spost: Stmt -> Stmt): Stmt
  {
    spost(
      match s
      case VarDecl(k, ds) => VarDecl(k, RwDecls(ds, pre, post, spost))
      case ExprStmt(x) => ExprStmt(RwExpr(x, pre, post, spost))
      case Return(o) => Return(RwOpt(o, pre, post, spost))
      case Throw(x) => Throw(RwExpr(x, pre, post, spost))
      case If(c, y, n) =>
        If(RwExpr(c, pre, post, spost), RwStmt(y, pre, post, spost),
           match n case None => None case Some(t) => Some(RwStmt(t, pre, post, spost)))
      case Block(ss) => Block(RwStmts(ss, pre, post, spost))
      case For(init, t, u, b) =>
        For(RwStmts(init, pre, post, spost), RwOpt(t, pre, post, spost), RwOpt(u, pre, post, spost), RwStmt(b, pre, post, spost))
      case ForIn(h, r, b) => ForIn(RwHead(h, pre, post, spost), RwExpr(r, pre, post, spost), RwStmt(b, pre, post, spost))
      case ForOf(h, r, b) => ForOf(RwHead(h, pre, post, spost), RwExpr(r, pre, post, spost), RwStmt(b, pre, post, spost))
      case While(t, b) => While(RwExpr(t, pre, post, spost), RwStmt(b, pre, post, spost))
      case DoWhile(b, t) => DoWhile(RwStmt(b, pre, post, spost), RwExpr(t, pre, post, spost))
      case FuncDecl(n, ps, body) => FuncDecl(n, ps, RwStmts(body, pre, post, spost))
      case ExportNamed(d) =>
        ExportNamed(match d case None => None case Some(t) => Some(RwStmt(t, pre, post, spost)))
      case ExportDefault(DefaultStmt(t)) => ExportDefault(DefaultStmt(RwStmt(t, pre, post, spost)))
      case ExportDefault(DefaultValue(x)) => ExportDefault(DefaultValue(RwExpr(x, pre, post, spost)))
      case _ => s)
  }

  /** A `pre` that never answers, a `post`/`spost` that keep the node. */
  function NoPre(e: Expr): Option<Expr> { None }
  function KeepExpr(e: Expr): Expr { e }
  function KeepStmt(s: Stmt): Stmt { s }

  /** The nodes a top-down pass selects with `p`, in source order. With
      `deep` false a selected node's children are not searched, which is
      how a visitor that returns a replacement without visiting it
      behaves; with `deep` true every node is searched. */
  function HitsExpr(e: Expr, p: Expr -> bool, deep: bool): seq<Expr>
  {
    if p(e) && !deep then [e]
    else
      var own := if p(e) then [e] else [];
      var inner :=
        match e
        case ArrayLit(elems) => Flatten(seq(|elems|, i requires 0 <= i < |elems| => HitsElem(elems[i], p, deep)))
        case ObjectLit(props) => Flatten(seq(|props|, i requires 0 <= i < |props| => HitsProp(props[i], p, deep)))
        case Member(obj, _) => HitsExpr(obj, p, deep)
        case Call(callee, args) =>
          HitsExpr(callee, p, deep) + Flatten(seq(|args|, i requires 0 <= i < |args| => HitsExpr(args[i], p, deep)))
        case Func(_, body) => HitsBody(body, p, deep)
        case Op(_, operands) => Flatten(seq(|operands|, i requires 0 <= i < |operands| => HitsExpr(operands[i], p, deep)))
        case _ => [];
      own + inner
  }

  function HitsElem(a: ArrayElem, p: Expr -> bool, deep: bool): seq<Expr>
  {
    match a
    case Hole => []
    case Item(x) => HitsExpr(x, p, deep)
    case Spread(x) => HitsExpr(x, p, deep)
  }

  function HitsProp(q: ObjProp, p: Expr -> bool, deep: bool): seq<Expr>
  {
    match q
    case KeyValue(_, v) => HitsExpr(v, p, deep)
    case Shorthand(_) => []
    case SpreadProp(x) => HitsExpr(x, p, deep)
  }

  function HitsBody(b: FuncBody, p: Expr -> bool, deep: bool): seq<Expr>
  {
    match b
    case BodyExpr(x) => HitsExpr(x, p, deep)
    case BodyBlock(ss) => HitsStmts(ss, p, deep)
  }

  function HitsOpt(o: Option<Expr>, p: Expr -> bool, deep: bool): seq<Expr>
  {
    match o
    case None => []
    case Some(x) => HitsExpr(x, p, deep)
  }

  function HitsDecls(ds: seq<Declarator>, p: Expr -> bool, deep: bool): seq<Expr>
  {
    Flatten(seq(|ds|, i requires 0 <= i < |ds| => HitsDecl(ds[i], p, deep)))
  }

  function HitsDecl(d: Declarator, p: Expr -> bool, deep: bool): seq<Expr>
  {
    match d
    case Declarator(_, init) => HitsOpt(init, p, deep)
  }

  function HitsHead(h: ForHead, p: Expr -> bool, deep: bool): seq<Expr>
  {
    match h
    case HeadDecl(_, ds) => HitsDecls(ds, p, deep)
    case HeadTarget(_) => []
  }

  function HitsStmts(ss: seq<Stmt>, p: Expr -> bool, deep: bool): seq<Expr>
  {
    Flatten(seq(|ss|, i requires 0 <= i < |ss| => HitsStmt(ss[i], p, deep)))
  }

  function HitsStmt(s: Stmt, p: Expr -> bool, deep: bool): seq<Expr>
  {
    match s
    case VarDecl(_, ds) => HitsDecls(ds, p, deep)
    case ExprStmt(x) => HitsExpr(x, p, deep)
    case Return(o) => HitsOpt(o, p, deep)
    case Throw(x) => HitsExpr(x, p, deep)
    case If(c, y, n) =>
      HitsExpr(c, p, deep) + HitsStmt(y, p, deep) + (match n case None => [] case Some(t) => HitsStmt(t, p, deep))
    case Block(ss) => HitsStmts(ss, p, deep)
    case For(init, t, u, b) => HitsStmts(init, p, deep) + HitsOpt(t, p, deep) + HitsOpt(u, p, deep) + HitsStmt(b, p, deep)
    case ForIn(h, r, b) => HitsHead(h, p, deep) + HitsExpr(r, p, deep) + HitsStmt(b, p, deep)
    case ForOf(h, r, b) => HitsHead(h, p, deep) + HitsExpr(r, p, deep) + HitsStmt(b, p, deep)
    case While(t, b) => HitsExpr(t, p, deep) + HitsStmt(b, p, deep)
    case DoWhile(b, t) => HitsStmt(b, p, deep) + HitsExpr(t, p, deep)
    case FuncDecl(_, _, body) => HitsStmts(body, p, deep)
    case ExportNamed(d) => (match d case None => [] case Some(t) => HitsStmt(t, p, deep))
    case ExportDefault(DefaultStmt(t)) => HitsStmt(t, p, deep)
    case ExportDefault(DefaultValue(x)) => HitsExpr(x, p, deep)
    case _ => []
  }

  /** `pre` answers exactly on the nodes `p` selects. */
  ghost predicate FiresOn(pre: Expr -> Option<Expr>, p: Expr -> bool)
  {
    forall x :: pre(x).Some? <==> p(x)
  }

  /** A pass made of a top-down replacement and nothing else leaves a
      tree in which it selects nothing exactly as it was. */
  lemma {:induction false} Untouched(e: Expr, pre: Expr -> Option<Expr>, p: Expr -> bool)
    requires FiresOn(pre, p)
    ensures HitsExpr(e, p, false) == [] ==> RwExpr(e, pre, KeepExpr, KeepStmt) == e
    decreases e, 1
  {
    if HitsExpr(e, p, false) == [] {
      if e.ArrayLit? || e.ObjectLit? {
        UntouchedLit(e, pre, p);
      } else if e.Call? || e.Op? {
        UntouchedArgs(e, pre, p);
      } else {
        UntouchedOther(e, pre, p);
      }
    }
  }

  lemma {:induction false} UntouchedLit(e: Expr, pre: Expr -> Option<Expr>, p: Expr -> bool)
    requires FiresOn(pre, p) && (e.ArrayLit? || e.ObjectLit?) && HitsExpr(e, p, false) == []
    ensures RwExpr(e, pre, KeepExpr, KeepStmt) == e
    decreases e, 0
  {
    assert !p(e);
    match e
    case ArrayLit(elems) =>
      var hs := seq(|elems|, i requires 0 <= i < |elems| => HitsElem(elems[i], p, false));
      FlattenEmpty(hs);
      forall i | 0 <= i < |elems| ensures RwElem(elems[i], pre, KeepExpr, KeepStmt) == elems[i] {
        assert hs[i] == [];
        match elems[i]
        case Hole =>
        case Item(x) => Untouched(x, pre, p);
        case Spread(x) => Untouched(x, pre, p);
      }
    case ObjectLit(props) =>
      var hs := seq(|props|, i requires 0 <= i < |props| => HitsProp(props[i], p, false));
      FlattenEmpty(hs);
      forall i | 0 <= i < |props| ensures RwProp(props[i], pre, KeepExpr, KeepStmt) == props[i] {
        assert hs[i] == [];
        match props[i]
        case KeyValue(_, v) => Untouched(v, pre, p);
        case Shorthand(_) =>
        case SpreadProp(x) => Untouched(x, pre, p);
      }
  }

  lemma {:induction false} UntouchedArgs(e: Expr, pre: Expr -> Option<Expr>, p: Expr -> bool)
    requires FiresOn(pre, p) && (e.Call? || e.Op?) && HitsExpr(e, p, false) == []
    ensures RwExpr(e, pre, KeepExpr, KeepStmt) == e
    decreases e, 0
  {
    assert !p(e);
    var xs := if e.Call? then e.args else e.operands;
    var hs := seq(|xs|, i requires 0 <= i < |xs| => HitsExpr(xs[i], p, false));
    if e.Call? {
      Untouched(e.callee, pre, p);
      assert Flatten(hs) == [];
    } else {
      assert Flatten(hs) == [];
    }
    FlattenEmpty(hs);
    forall i | 0 <= i < |xs| ensures RwExpr(xs[i], pre, KeepExpr, KeepStmt) == xs[i] {
      assert hs[i] == [];
      Untouched(xs[i], pre, p);
    }
    var ys := seq(|xs|, i requires 0 <= i < |xs| => RwExpr(xs[i], pre, KeepExpr, KeepStmt));
    assert ys == xs;
  }

  lemma {:induction false} UntouchedOther(e: Expr, pre: Expr -> Option<Expr>, p: Expr -> bool)
    requires FiresOn(pre, p) && !(e.ArrayLit? || e.ObjectLit? || e.Call? || e.Op?)
    requires HitsExpr(e, p, false) == []
    ensures RwExpr(e, pre, KeepExpr, KeepStmt) == e
    decreases e, 0
  {
    assert !p(e);
    match e
    case Member(obj, _) => Untouched(obj, pre, p);
    case Func(_, body) =>
      assert HitsBody(body, p, false) == [];
      match body {
        case BodyExpr(x) =>
          Untouched(x, pre, p);
          assert RwBody(body, pre, KeepExpr, KeepStmt) == body;
        case BodyBlock(ss) => UntouchedStmts(ss, pre, p);
      }
    case _ =>
  }

  lemma {:induction false} UntouchedOpt(o: Option<Expr>, pre: Expr -> Option<Expr>, p: Expr -> bool)
    requires FiresOn(pre, p)
    ensures HitsOpt(o, p, false) == [] ==> RwOpt(o, pre, KeepExpr, KeepStmt) == o
  {
    if o.Some? { Untouched(o.value, pre, p); }
  }

  lemma {:induction false} UntouchedDecls(ds: seq<Declarator>, pre: Expr -> Option<Expr>, p: Expr -> bool)
    requires FiresOn(pre, p)
    ensures HitsDecls(ds, p, false) == [] ==> RwDecls(ds, pre, KeepExpr, KeepStmt) == ds
  {
    if HitsDecls(ds, p, false) == [] {
      var hs := seq(|ds|, i requires 0 <= i < |ds| => HitsDecl(ds[i], p, false));
      FlattenEmpty(hs);
      forall i | 0 <= i < |ds| ensures RwDecl(ds[i], pre, KeepExpr, KeepStmt) == ds[i] {
        assert hs[i] == [];
        UntouchedDecl(ds[i], pre, p);
      }
    }
  }

  lemma {:induction false} UntouchedDecl(d: Declarator, pre: Expr -> Option<Expr>, p: Expr -> bool)
    requires FiresOn(pre, p)
    ensures HitsDecl(d, p, false) == [] ==> RwDecl(d, pre, KeepExpr, KeepStmt) == d
  {
    match d
    case Declarator(_, init) => UntouchedOpt(init, pre, p);
  }

  lemma {:induction false} UntouchedHead(h: ForHead, pre: Expr -> Option<Expr>, p: Expr -> bool)
    requires FiresOn(pre, p)
    ensures HitsHead(h, p, false) == [] ==> RwHead(h, pre, KeepExpr, KeepStmt) == h
  {
    match h
    case HeadDecl(_, ds) => UntouchedDecls(ds, pre, p);
    case HeadTarget(_) =>
  }

  lemma {:induction false} UntouchedStmts(ss: seq<Stmt>, pre: Expr -> Option<Expr>, p: Expr -> bool)
    requires FiresOn(pre, p)
    ensures HitsStmts(ss, p, false) == [] ==> RwStmts(ss, pre, KeepExpr, KeepStmt) == ss
    decreases ss, 1
  {
    if HitsStmts(ss, p, false) == [] {
      var hs := seq(|ss|, i requires 0 <= i < |ss| => HitsStmt(ss[i], p, false));
      FlattenEmpty(hs);
      forall i | 0 <= i < |ss| ensures RwStmt(ss[i], pre, KeepExpr, KeepStmt) == ss[i] {
        assert hs[i] == [];
        UntouchedStmt(ss[i], pre, p);
      }
    }
  }

  lemma {:induction false} UntouchedStmt(s: Stmt, pre: Expr -> Option<Expr>, p: Expr -> bool)
    requires FiresOn(pre, p)
    ensures HitsStmt(s, p, false) == [] ==> RwStmt(s, pre, KeepExpr, KeepStmt) == s
    decreases s, 1
  {
    if HitsStmt(s, p, false) == [] {
      if s.For? || s.ForIn? || s.ForOf? || s.While? || s.DoWhile? {
        UntouchedLoop(s, pre, p);
      } else {
        UntouchedPlain(s, pre, p);
      }
    }
  }

  lemma {:induction false} UntouchedLoop(s: Stmt, pre: Expr -> Option<Expr>, p: Expr -> bool)
    requires FiresOn(pre, p) && HitsStmt(s, p, false) == []
    requires s.For? || s.ForIn? || s.ForOf? || s.While? || s.DoWhile?
    ensures RwStmt(s, pre, KeepExpr, KeepStmt) == s
    decreases s, 0
  {
    match s
    case For(init, t, u, b) =>
      UntouchedStmts(init, pre, p);
      UntouchedOpt(t, pre, p);
      UntouchedOpt(u, pre, p);
      UntouchedStmt(b, pre, p);
    case ForIn(h, r, b) =>
      UntouchedHead(h, pre, p);
      Untouched(r, pre, p);
      UntouchedStmt(b, pre, p);
    case ForOf(h, r, b) =>
      UntouchedHead(h, pre, p);
      Untouched(r, pre, p);
      UntouchedStmt(b, pre, p);
    case While(t, b) =>
      Untouched(t, pre, p);
      UntouchedStmt(b, pre, p);
    case DoWhile(b, t) =>
      UntouchedStmt(b, pre, p);
      Untouched(t, pre, p);
  }

  lemma {:induction false} UntouchedPlain(s: Stmt, pre: Expr -> Option<Expr>, p: Expr -> bool)
    requires FiresOn(pre, p) && HitsStmt(s, p, false) == []
    requires !(s.For? || s.ForIn? || s.ForOf? || s.While? || s.DoWhile?)
    ensures RwStmt(s, pre, KeepExpr, KeepStmt) == s
    decreases s, 0
  {
    match s
    case VarDecl(_, ds) => UntouchedDecls(ds, pre, p);
    case ExprStmt(x) => Untouched(x, pre, p);
    case Return(o) => UntouchedOpt(o, pre, p);
    case Throw(x) => Untouched(x, pre, p);
    case If(c, y, n) =>
      Untouched(c, pre, p);
      UntouchedStmt(y, pre, p);
      if n.Some? { UntouchedStmt(n.value, pre, p); }
    case Block(ss) => UntouchedStmts(ss, pre, p);
    case FuncDecl(_, _, body) => UntouchedStmts(body, pre, p);
    case ExportNamed(d) => if d.Some? { UntouchedStmt(d.value, pre, p); }
    case ExportDefault(DefaultStmt(t)) => UntouchedStmt(t, pre, p);
    case ExportDefault(DefaultValue(x)) => Untouched(x, pre, p);
    case _ =>
  }
}
