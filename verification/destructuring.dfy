/** The destructuring plugin (`destructuring.ts`): a variable declaration
    whose declarators bind object or array patterns is replaced by one
    single-declarator declaration per bound identifier, of the same kind.
    `{k: v} = init` gives `v = init.k`; `[a, , b] = init` gives
    `_arr = ArrayDirect(init)`, `a = _arr[0]`, `b = _arr[2]`; a rest
    element is bound to a call of `throwNotSupported`, which the plugin
    declares at the top of every program. Other pattern members (nested
    patterns, defaults, non-identifier keys) produce nothing. */
module Destructuring {
  import opened Base
  import opened Ast

  const ObjectRestMessage := "Rest object destructuring not supported yet"
  const ArrayRestMessage := "Rest array destructuring not supported yet"

  function ThrowCall(message: string): Expr
  {
    CallNamed("throwNotSupported", [StrLit(message)])
  }

  /** The helper `throwNotSupported`, which throws an error carrying its
      one argument. */
  function ThrowDecl(): Stmt
  {
    FuncDecl("throwNotSupported", [PIdent("message")], [Throw(Op("new", [Ident("Error"), Ident("message")]))])
  }

  /** The value being destructured. A declaration statement needs an
      initializer for a pattern; a `for-in` or `for-of` head has none, and
      `undefined` stands in for it here (see `HeadFits`). */
  function InitOf(d: Declarator): Expr
  {
    match d.init
    case Some(x) => x
    case None => Undef()
  }

  predicate IsPattern(p: Pattern)
  {
    p.PObject? || p.PArray?
  }

  /* ---- Object patterns ---- */

  /** One property, as the plugin handles it: an identifier key (computed
      or not) with an identifier value, or a rest element with an
      identifier. A computed key `[k]` is read as if it were written `k`. */
  function PropStmtsAsWritten(kind: Kind, p: PatProp, init: Expr): seq<Stmt>
  {
    match p
    case PProp(KeyIdent(k), PIdent(v)) => [Decl1(kind, v, Member(init, k))]
    case PComputed(Ident(k), PIdent(v)) => [Decl1(kind, v, Member(init, k))]
    case PRest(PIdent(r)) => [Decl1(kind, r, ThrowCall(ObjectRestMessage))]
    case _ => []
  }

  /** The same with a computed key read as the value of its expression:
      `{[k]: v} = init` gives `v = init[k]`. */
  function PropStmts(kind: Kind, p: PatProp, init: Expr): seq<Stmt>
  {
    match p
    case PProp(KeyIdent(k), PIdent(v)) => [Decl1(kind, v, Member(init, k))]
    case PComputed(Ident(k), PIdent(v)) => [Decl1(kind, v, Idx(init, Ident(k)))]
    case PRest(PIdent(r)) => [Decl1(kind, r, ThrowCall(ObjectRestMessage))]
    case _ => []
  }

  function ObjectStmts(kind: Kind, props: seq<PatProp>, init: Expr): seq<Stmt>
  {
    Flatten(seq(|props|, i requires 0 <= i < |props| => PropStmts(kind, props[i], init)))
  }

  /* ---- Array patterns ---- */

  /** The element at position `i`: `n = aux[i]`, or a rest. */
  function ElemStmts(kind: Kind, el: PatElem, i: nat, aux: string): seq<Stmt>
  {
    match el
    case PElem(PIdent(n)) => [Decl1(kind, n, Idx(Ident(aux), NumLit(i)))]
    case PRestElem(PIdent(r)) => [Decl1(kind, r, ThrowCall(ArrayRestMessage))]
    case _ => []
  }

  function ArrayStmts(kind: Kind, elems: seq<PatElem>, aux: string): seq<Stmt>
  {
    Flatten(seq(|elems|, i requires 0 <= i < |elems| => ElemStmts(kind, elems[i], i, aux)))
  }

  /** The declarations for one declarator; `aux` is the fresh name an
      array pattern's copy gets. */
  function PatternStmts(kind: Kind, d: Declarator, aux: string): seq<Stmt>
  {
    match d.id
    case PObject(props) => ObjectStmts(kind, props, InitOf(d))
    case PArray(elems) => [Decl1(kind, aux, CallNamed("ArrayDirect", [InitOf(d)]))] + ArrayStmts(kind, elems, aux)
    case _ => []
  }

  /** The declarations the plugin collects for a whole statement. A
      declarator that is not a pattern contributes nothing, so when the
      statement is replaced it is lost. */
  function LowerAsWritten(kind: Kind, ds: seq<Declarator>, uid: Declarator -> string): seq<Stmt>
  {
    Flatten(seq(|ds|, i requires 0 <= i < |ds| => PatternStmts(kind, ds[i], uid(ds[i]))))
  }

  /** The same, keeping every other declarator in its place. */
  function Lower(kind: Kind, ds: seq<Declarator>, uid: Declarator -> string): seq<Stmt>
  {
    Flatten(seq(|ds|, i requires 0 <= i < |ds| =>
      if IsPattern(ds[i].id) then PatternStmts(kind, ds[i], uid(ds[i])) else [VarDecl(kind, [ds[i]])]))
  }

  /** A statement in a statement list: a declaration is replaced when the
      plugin collected something for it. */
  function Expand(s: Stmt, uid: Declarator -> string): seq<Stmt>
  {
    if s.VarDecl? && |LowerAsWritten(s.kind, s.decls, uid)| > 0 then Lower(s.kind, s.decls, uid) else [s]
  }

  function ExpandList(ss: seq<Stmt>, uid: Declarator -> string): seq<Stmt>
  {
    Flatten(seq(|ss|, i requires 0 <= i < |ss| => Expand(ss[i], uid)))
  }

  /** A replaced statement in the place of a single statement (a branch or
      a loop body) becomes a block. */
  function ExpandOne(s: Stmt, uid: Declarator -> string): Stmt
  {
    var r := Expand(s, uid);
    if r == [s] then s else Block(r)
  }

  /** Expansion of the statement lists directly inside `s`. */
  function ExpandInside(s: Stmt, uid: Declarator -> string): Stmt
  {
    match s
    case Block(ss) => Block(ExpandList(ss, uid))
    case FuncDecl(n, ps, body) => FuncDecl(n, ps, ExpandList(body, uid))
    case If(c, y, n) => If(c, ExpandOne(y, uid), match n case None => None case Some(t) => Some(ExpandOne(t, uid)))
    case For(init, t, u, b) => For(init, t, u, ExpandOne(b, uid))
    case ForIn(h, r, b) => ForIn(h, r, ExpandOne(b, uid))
    case ForOf(h, r, b) => ForOf(h, r, ExpandOne(b, uid))
    case While(t, b) => While(t, ExpandOne(b, uid))
    case DoWhile(b, t) => DoWhile(ExpandOne(b, uid), t)
    case _ => s
  }

  /** Expansion of a function expression's body. */
  function ExpandFunc(e: Expr, uid: Declarator -> string): Expr
  {
    match e
    case Func(ps, BodyBlock(ss)) => Func(ps, BodyBlock(ExpandList(ss, uid)))
    case _ => e
  }

  /* ---- Declarations in loop heads ---- */

  /** The declaration in a `for-in` or `for-of` head is visited like any
      other, but nothing can take its place there: when the plugin collects
      declarations for it (any array pattern, an object pattern with a
      handled member), building them from the missing initializer or
      putting several statements into the head's one slot throws, and
      Babel's transformation of the whole file fails. */
  predicate HeadFits(h: ForHead, uid: Declarator -> string)
  {
    match h
    case HeadDecl(k, ds) => |LowerAsWritten(k, ds, uid)| == 0
    case HeadTarget(_) => true
  }

  /** Every loop head in a tree fits, function bodies included. */
  predicate FitsExpr(e: Expr, uid: Declarator -> string)
  {
    match e
    case ArrayLit(elems) => forall i :: 0 <= i < |elems| ==> FitsElem(elems[i], uid)
    case ObjectLit(props) => forall i :: 0 <= i < |props| ==> FitsProp(props[i], uid)
    case Member(obj, _) => FitsExpr(obj, uid)
    case Call(callee, args) => FitsExpr(callee, uid) && forall i :: 0 <= i < |args| ==> FitsExpr(args[i], uid)
    case Func(_, body) => FitsBody(body, uid)
    case Op(_, xs) => forall i :: 0 <= i < |xs| ==> FitsExpr(xs[i], uid)
    case _ => true
  }

  predicate FitsElem(a: ArrayElem, uid: Declarator -> string)
  {
    match a
    case Hole => true
    case Item(x) => FitsExpr(x, uid)
    case Spread(x) => FitsExpr(x, uid)
  }

  predicate FitsProp(q: ObjProp, uid: Declarator -> string)
  {
    match q
    case KeyValue(_, v) => FitsExpr(v, uid)
    case Shorthand(_) => true
    case SpreadProp(x) => FitsExpr(x, uid)
  }

  predicate FitsBody(b: FuncBody, uid: Declarator -> string)
  {
    match b
    case BodyExpr(x) => FitsExpr(x, uid)
    case BodyBlock(ss) => FitsStmts(ss, uid)
  }

  predicate FitsOpt(o: Option<Expr>, uid: Declarator -> string)
  {
    match o
    case None => true
    case Some(x) => FitsExpr(x, uid)
  }

  predicate FitsDecls(ds: seq<Declarator>, uid: Declarator -> string)
  {
    forall i :: 0 <= i < |ds| ==> FitsDecl(ds[i], uid)
  }

  predicate FitsDecl(d: Declarator, uid: Declarator -> string)
  {
    match d
    case Declarator(_, init) => FitsOpt(init, uid)
  }

  predicate FitsHead(h: ForHead, uid: Declarator -> string)
  {
    HeadFits(h, uid) && (h.HeadDecl? ==> FitsDecls(h.hdecls, uid))
  }

  predicate FitsStmts(ss: seq<Stmt>, uid: Declarator -> string)
  {
    forall i :: 0 <= i < |ss| ==> FitsStmt(ss[i], uid)
  }

  predicate FitsStmt(s: Stmt, uid: Declarator -> string)
  {
    match s
    case VarDecl(_, ds) => FitsDecls(ds, uid)
    case ExprStmt(x) => FitsExpr(x, uid)
    case Return(o) => FitsOpt(o, uid)
    case Throw(x) => FitsExpr(x, uid)
    case If(c, y, n) => FitsExpr(c, uid) && FitsStmt(y, uid) && (match n case None => true case Some(t) => FitsStmt(t, uid))
    case Block(ss) => FitsStmts(ss, uid)
    case For(init, t, u, b) => FitsStmts(init, uid) && FitsOpt(t, uid) && FitsOpt(u, uid) && FitsStmt(b, uid)
    case ForIn(h, r, b) => FitsHead(h, uid) && FitsExpr(r, uid) && FitsStmt(b, uid)
    case ForOf(h, r, b) => FitsHead(h, uid) && FitsExpr(r, uid) && FitsStmt(b, uid)
    case While(t, b) => FitsExpr(t, uid) && FitsStmt(b, uid)
    case DoWhile(b, t) => FitsStmt(b, uid) && FitsExpr(t, uid)
    case FuncDecl(_, _, body) => FitsStmts(body, uid)
    case ExportNamed(d) => (match d case None => true case Some(t) => FitsStmt(t, uid))
    case ExportDefault(DefaultStmt(t)) => FitsStmt(t, uid)
    case ExportDefault(DefaultValue(x)) => FitsExpr(x, uid)
    case _ => true
  }

  /** Expansion of every statement list of a program, inner ones first,
      after `throwNotSupported`. */
  function Expanded(ss: seq<Stmt>, uid: Declarator -> string): seq<Stmt>
  {
    [ThrowDecl()] + ExpandList(RwStmts(ss, NoPre, e => ExpandFunc(e, uid), s => ExpandInside(s, uid)), uid)
  }

  /** The plugin on a program: the expanded program, or a failure when a
      loop head declares a pattern the plugin would replace. */
  function Transform(ss: seq<Stmt>, uid: Declarator -> string): (r: Option<seq<Stmt>>)
    ensures r.Some? <==> FitsStmts(ss, uid)
    ensures r.Some? ==> |r.value| >= 1 && r.value[0] == ThrowDecl()
  {
    if FitsStmts(ss, uid) then Some(Expanded(ss, uid)) else None
  }

  /** A head declaring one pattern fits exactly when the pattern collects
      nothing. */
  lemma {:induction false} HeadOfOne(k: Kind, d: Declarator, uid: Declarator -> string)
    ensures HeadFits(HeadDecl(k, [d]), uid) <==> |PatternStmts(k, d, uid(d))| == 0
  {
    assert seq(1, i requires 0 <= i < 1 => PatternStmts(k, [d][i], uid([d][i]))) == [PatternStmts(k, d, uid(d))];
    FlattenSingle(PatternStmts(k, d, uid(d)));
  }

  /** `for (const [key, value] of pairs) {}` makes the plugin fail, and so
      does `for (const {a} in o) {}`. */
  lemma LoopHeadPatternFails(uid: Declarator -> string)
    ensures var d := Declarator(PArray([PElem(PIdent("key")), PElem(PIdent("value"))]), None);
            Transform([ForOf(HeadDecl(Const, [d]), Ident("pairs"), Block([]))], uid) == None
    ensures var d := Declarator(PObject([PProp(KeyIdent("a"), PIdent("a"))]), None);
            Transform([ForIn(HeadDecl(Const, [d]), Ident("o"), Block([]))], uid) == None
  {
    var d := Declarator(PArray([PElem(PIdent("key")), PElem(PIdent("value"))]), None);
    HeadOfOne(Const, d, uid);
    assert !FitsStmt(ForOf(HeadDecl(Const, [d]), Ident("pairs"), Block([])), uid);
    var e := Declarator(PObject([PProp(KeyIdent("a"), PIdent("a"))]), None);
    var props := [PProp(KeyIdent("a"), PIdent("a"))];
    assert seq(|props|, i requires 0 <= i < |props| => PropStmts(Const, props[i], Undef()))
      == [[Decl1(Const, "a", Member(Undef(), "a"))]];
    FlattenSingle([Decl1(Const, "a", Member(Undef(), "a"))]);
    HeadOfOne(Const, e, uid);
    assert !FitsStmt(ForIn(HeadDecl(Const, [e]), Ident("o"), Block([])), uid);
  }

  /** The same pattern declared in the loop's body is lowered:
      `for (const pair of pairs) { const [key, value] = pair; }`. */
  lemma LoopBodyPatternLowered(uid: Declarator -> string)
    ensures var d := Declarator(PArray([PElem(PIdent("key")), PElem(PIdent("value"))]), Some(Ident("pair")));
            var loop := ForOf(HeadDecl(Const, [Declarator(PIdent("pair"), None)]), Ident("pairs"), Block([VarDecl(Const, [d])]));
            Transform([loop], uid).Some?
  {
    var h := Declarator(PIdent("pair"), None);
    HeadOfOne(Const, h, uid);
  }

  /* ---- What the declarations bind ---- */

  /** Where a bound name's value comes from. */
  datatype Source =
    | FromKey(key: string)
    | FromComputed(keyExpr: Expr)
    | FromIndex(index: nat)
    | RestOfObject(after: nat)
    | RestOfArray(start: nat)
    | NotSupported(message: string)

  datatype Binding = Binding(name: string, source: Source)

  /** Pattern members the plugin handles. */
  predicate FlatProp(p: PatProp)
  {
    || (p.PProp? && p.pkey.KeyIdent? && p.pvalue.PIdent?)
    || (p.PComputed? && p.keyExpr.Ident? && p.cvalue.PIdent?)
    || (p.PRest? && p.restObj.PIdent?)
  }

  predicate FlatElem(el: PatElem)
  {
    el.PHole? || (el.PElem? && el.elem.PIdent?) || (el.PRestElem? && el.restArr.PIdent?)
  }

  /** What ECMAScript's destructuring binds for property `i` of an object
      pattern (section 14.3.3 of ECMA-262): the value under a key, the value
      under a computed key, or the object of the properties not named
      before the rest. */
  function ObjectBinding(props: seq<PatProp>, i: nat): seq<Binding>
    requires i < |props|
  {
    match props[i]
    case PProp(KeyIdent(k), PIdent(v)) => [Binding(v, FromKey(k))]
    case PComputed(e, PIdent(v)) => [Binding(v, FromComputed(e))]
    case PRest(PIdent(r)) => [Binding(r, RestOfObject(i))]
    case _ => []
  }

  function ObjectBindings(props: seq<PatProp>): seq<Binding>
  {
    Flatten(seq(|props|, i requires 0 <= i < |props| => ObjectBinding(props, i)))
  }

  /** The same for position `i` of an array pattern: the element at `i`,
      or the elements from `i` on. */
  function ArrayBinding(el: PatElem, i: nat): seq<Binding>
  {
    match el
    case PElem(PIdent(n)) => [Binding(n, FromIndex(i))]
    case PRestElem(PIdent(r)) => [Binding(r, RestOfArray(i))]
    case _ => []
  }

  function ArrayBindings(elems: seq<PatElem>): seq<Binding>
  {
    Flatten(seq(|elems|, i requires 0 <= i < |elems| => ArrayBinding(elems[i], i)))
  }

  /** The binding one generated declaration makes, read off its
      initializer: a property or an element of the value being destructured
      or of its temporary, or a call of the helper that throws. */
  function ReadObject(s: Stmt, init: Expr): Option<Binding>
  {
    match s
    case VarDecl(_, ds) =>
      if |ds| == 1 && ds[0].id.PIdent? && ds[0].init.Some? then
        var v := ds[0].id.pname;
        var x := ds[0].init.value;
        if x.Member? && x.obj == init then Some(Binding(v, FromKey(x.prop)))
        else if x.Op? && x.op == "[]" && |x.operands| == 2 && x.operands[0] == init then Some(Binding(v, FromComputed(x.operands[1])))
        else if x.Call? && x.callee == Ident("throwNotSupported") && |x.args| == 1 && x.args[0].StrLit? then
          Some(Binding(v, NotSupported(x.args[0].text)))
        else None
      else None
    case _ => None
  }

  function ReadArray(s: Stmt, aux: string): Option<Binding>
  {
    match s
    case VarDecl(_, ds) =>
      if |ds| == 1 && ds[0].id.PIdent? && ds[0].init.Some? then
        var v := ds[0].id.pname;
        var x := ds[0].init.value;
        if x.Op? && x.op == "[]" && |x.operands| == 2 && x.operands[0] == Ident(aux) && x.operands[1].NumLit? && x.operands[1].num >= 0 then
          Some(Binding(v, FromIndex(x.operands[1].num)))
        else if x.Call? && x.callee == Ident("throwNotSupported") && |x.args| == 1 && x.args[0].StrLit? then
          Some(Binding(v, NotSupported(x.args[0].text)))
        else None
      else None
    case _ => None
  }

  /** What the plugin makes of a binding: rests are not supported. */
  function Supported(b: Binding): Binding
  {
    match b.source
    case RestOfObject(_) => Binding(b.name, NotSupported(ObjectRestMessage))
    case RestOfArray(_) => Binding(b.name, NotSupported(ArrayRestMessage))
    case _ => b
  }

  function Expected(bs: seq<Binding>): seq<Option<Binding>>
  {
    Map((b: Binding) => Some(Supported(b)), bs)
  }

  /** For patterns of handled members, the declarations bind each name to
      what destructuring binds it to, in the pattern's order, except that
      a rest fails. */
  lemma ObjectPatternMeaning(kind: Kind, props: seq<PatProp>, init: Expr)
    requires forall i :: 0 <= i < |props| ==> FlatProp(props[i])
    ensures Map((s: Stmt) => ReadObject(s, init), ObjectStmts(kind, props, init)) == Expected(ObjectBindings(props))
  {
    var a := seq(|props|, i requires 0 <= i < |props| => PropStmts(kind, props[i], init));
    var b := seq(|props|, i requires 0 <= i < |props| => Expected(ObjectBinding(props, i)));
    forall i | 0 <= i < |props|
      ensures Map((s: Stmt) => ReadObject(s, init), a[i]) == b[i]
    {
      PropMeaning(kind, props, i, init);
    }
    FlattenMap((s: Stmt) => ReadObject(s, init), a, b);
    FlattenMap((x: Binding) => Some(Supported(x)), seq(|props|, i requires 0 <= i < |props| => ObjectBinding(props, i)), b);
  }

  lemma PropMeaning(kind: Kind, props: seq<PatProp>, i: nat, init: Expr)
    requires i < |props| && FlatProp(props[i])
    ensures Map((s: Stmt) => ReadObject(s, init), PropStmts(kind, props[i], init)) == Expected(ObjectBinding(props, i))
  {
    var p := props[i];
    if p.PProp? {
      var d := Decl1(kind, p.pvalue.pname, Member(init, p.pkey.id));
      assert ReadObject(d, init) == Some(Binding(p.pvalue.pname, FromKey(p.pkey.id)));
    } else if p.PComputed? {
      var d := Decl1(kind, p.cvalue.pname, Idx(init, p.keyExpr));
      assert ReadObject(d, init) == Some(Binding(p.cvalue.pname, FromComputed(p.keyExpr)));
    } else {
      var d := Decl1(kind, p.restObj.pname, ThrowCall(ObjectRestMessage));
      assert ReadObject(d, init) == Some(Binding(p.restObj.pname, NotSupported(ObjectRestMessage)));
    }
  }

  lemma ArrayPatternMeaning(kind: Kind, elems: seq<PatElem>, aux: string)
    requires forall i :: 0 <= i < |elems| ==> FlatElem(elems[i])
    ensures Map((s: Stmt) => ReadArray(s, aux), ArrayStmts(kind, elems, aux)) == Expected(ArrayBindings(elems))
  {
    var a := seq(|elems|, i requires 0 <= i < |elems| => ElemStmts(kind, elems[i], i, aux));
    var b := seq(|elems|, i requires 0 <= i < |elems| => Expected(ArrayBinding(elems[i], i)));
    forall i | 0 <= i < |elems|
      ensures Map((s: Stmt) => ReadArray(s, aux), a[i]) == b[i]
    {
      assert FlatElem(elems[i]);
    }
    FlattenMap((s: Stmt) => ReadArray(s, aux), a, b);
    FlattenMap((x: Binding) => Some(Supported(x)), seq(|elems|, i requires 0 <= i < |elems| => ArrayBinding(elems[i], i)), b);
  }

  /* ---- Shape of the replacement ---- */

  /** Every generated declaration has one declarator and the statement's
      kind. */
  lemma LowerKind(kind: Kind, ds: seq<Declarator>, uid: Declarator -> string)
    ensures forall s :: s in Lower(kind, ds, uid) ==> s.VarDecl? && s.kind == kind && |s.decls| == 1
  {
    var pieces := seq(|ds|, i requires 0 <= i < |ds| =>
      if IsPattern(ds[i].id) then PatternStmts(kind, ds[i], uid(ds[i])) else [VarDecl(kind, [ds[i]])]);
    forall s | s in Lower(kind, ds, uid)
      ensures s.VarDecl? && s.kind == kind && |s.decls| == 1
    {
      FlattenMember(pieces, s);
      var i :| 0 <= i < |pieces| && s in pieces[i];
      if IsPattern(ds[i].id) {
        PatternKind(kind, ds[i], uid(ds[i]), s);
      }
    }
  }

  lemma PatternKind(kind: Kind, d: Declarator, aux: string, s: Stmt)
    requires s in PatternStmts(kind, d, aux)
    ensures s.VarDecl? && s.kind == kind && |s.decls| == 1
  {
    match d.id
    case PObject(props) =>
      var pieces := seq(|props|, i requires 0 <= i < |props| => PropStmts(kind, props[i], InitOf(d)));
      FlattenMember(pieces, s);
    case PArray(elems) =>
      if s !in [Decl1(kind, aux, CallNamed("ArrayDirect", [InitOf(d)]))] {
        var pieces := seq(|elems|, i requires 0 <= i < |elems| => ElemStmts(kind, elems[i], i, aux));
        FlattenMember(pieces, s);
      }
  }

  /** A declaration with no pattern declarator is left as it is. */
  lemma NoPatternKept(kind: Kind, ds: seq<Declarator>, uid: Declarator -> string)
    requires forall i :: 0 <= i < |ds| ==> !IsPattern(ds[i].id)
    ensures Expand(VarDecl(kind, ds), uid) == [VarDecl(kind, ds)]
  {
    var pieces := seq(|ds|, i requires 0 <= i < |ds| => PatternStmts(kind, ds[i], uid(ds[i])));
    FlattenEmpty(pieces);
  }

  /** An array pattern first copies its initializer into the fresh name. */
  lemma ArrayCopyFirst(kind: Kind, elems: seq<PatElem>, init: Expr, aux: string)
    ensures var r := PatternStmts(kind, Declarator(PArray(elems), Some(init)), aux);
            |r| >= 1 && r[0] == Decl1(kind, aux, CallNamed("ArrayDirect", [init]))
  {
  }

  /** The replacement keeps every declarator that is not a pattern. */
  lemma LowerKeepsPlain(kind: Kind, ds: seq<Declarator>, uid: Declarator -> string, i: nat)
    requires i < |ds| && !IsPattern(ds[i].id)
    ensures VarDecl(kind, [ds[i]]) in Lower(kind, ds, uid)
  {
    var pieces := seq(|ds|, j requires 0 <= j < |ds| =>
      if IsPattern(ds[j].id) then PatternStmts(kind, ds[j], uid(ds[j])) else [VarDecl(kind, [ds[j]])]);
    assert VarDecl(kind, [ds[i]]) in pieces[i];
    FlattenMember(pieces, VarDecl(kind, [ds[i]]));
  }

  /** As written, `const a = 1, {b} = o;` loses `a`. */
  lemma LowerAsWrittenDropsPlain(uid: Declarator -> string)
    ensures var ds := [Declarator(PIdent("a"), Some(NumLit(1))),
                       Declarator(PObject([PProp(KeyIdent("b"), PIdent("b"))]), Some(Ident("o")))];
            LowerAsWritten(Const, ds, uid) == [Decl1(Const, "b", Member(Ident("o"), "b"))]
            && Lower(Const, ds, uid) == [Decl1(Const, "a", NumLit(1)), Decl1(Const, "b", Member(Ident("o"), "b"))]
  {
    var ds := [Declarator(PIdent("a"), Some(NumLit(1))),
               Declarator(PObject([PProp(KeyIdent("b"), PIdent("b"))]), Some(Ident("o")))];
    var props := [PProp(KeyIdent("b"), PIdent("b"))];
    var b := Decl1(Const, "b", Member(Ident("o"), "b"));
    var a := Decl1(Const, "a", NumLit(1));
    assert PropStmts(Const, props[0], Ident("o")) == [b];
    var pieces := seq(|props|, i requires 0 <= i < |props| => PropStmts(Const, props[i], Ident("o")));
    assert pieces == [[b]];
    assert pieces[..0] == [];
    assert Flatten(pieces) == Flatten(pieces[..0]) + [b];
    assert ObjectStmts(Const, props, Ident("o")) == [b];
    assert PatternStmts(Const, ds[1], uid(ds[1])) == [b];
    assert PatternStmts(Const, ds[0], uid(ds[0])) == [];
    var asWritten := seq(|ds|, i requires 0 <= i < |ds| => PatternStmts(Const, ds[i], uid(ds[i])));
    assert asWritten == [[], [b]];
    assert asWritten[..1] == [[]] && asWritten[..1][..0] == [];
    assert Flatten(asWritten[..1]) == Flatten(asWritten[..1][..0]) + [];
    assert Flatten(asWritten) == Flatten(asWritten[..1]) + [b];
    var kept := seq(|ds|, i requires 0 <= i < |ds| =>
      if IsPattern(ds[i].id) then PatternStmts(Const, ds[i], uid(ds[i])) else [VarDecl(Const, [ds[i]])]);
    assert kept == [[a], [b]];
    assert kept[..1] == [[a]] && kept[..1][..0] == [];
    assert Flatten(kept[..1]) == Flatten(kept[..1][..0]) + [a];
    assert Flatten(kept) == Flatten(kept[..1]) + [b];
  }

  /** As written, `{[k]: v} = o` binds `v` to `o.k`, the property named
      "k", where destructuring binds it to `o[k]`, the property named by
      the value of `k`. */
  lemma ComputedKeyAsWritten()
    ensures var props := [PComputed(Ident("k"), PIdent("v"))];
            var init := Ident("o");
            Map((s: Stmt) => ReadObject(s, init), PropStmtsAsWritten(Const, props[0], init))
              == [Some(Binding("v", FromKey("k")))]
            && ObjectBinding(props, 0) == [Binding("v", FromComputed(Ident("k")))]
  {
    var d := Decl1(Const, "v", Member(Ident("o"), "k"));
    assert ReadObject(d, Ident("o")) == Some(Binding("v", FromKey("k")));
  }
}
