/** Loop-variable hoisting (`loopHoistVariables.ts`). The dialect has
    function-scoped variables only, so every variable declared inside a
    loop is renamed `<name>_loop<N>`, where N numbers the file's top-level
    loops, its declaration becomes assignments, and one declaration per
    name is put before the top-level loop. The plugin is a state machine
    driven by entering and leaving loops while the tree is walked in
    source order. */
module LoopHoist {
  import opened Base
  import opened Ast

  /** A hoisted variable: its original name, the kind of its latest
      declaration and its new name. */
  datatype Entry = Entry(name: string, kind: Kind, newName: string)

  /** The plugin's state: the variables of the current top-level loop in
      the order first declared, whether a loop is being walked, and how
      many top-level loops the file has had so far. */
  datatype State = State(vars: seq<Entry>, inLoop: bool, counter: nat)

  function Start(): State
  {
    State([], false, 0)
  }

  function LoopName(name: string, counter: nat): string
  {
    name + "_loop" + NatToString(counter)
  }

  /* ---- The variable table: an insertion-ordered map ---- */

  /** The entry for `n`, if any. */
  function Lookup(es: seq<Entry>, n: string): Option<Entry>
  {
    if |es| == 0 then None else if es[0].name == n then Some(es[0]) else Lookup(es[1..], n)
  }

  predicate Distinct(es: seq<Entry>)
  {
    forall i, j :: 0 <= i < j < |es| ==> es[i].name != es[j].name
  }

  /** Recording a loop variable by name: an existing name keeps its place
      and takes the new entry, a new name goes last. */
  function Put(es: seq<Entry>, e: Entry): seq<Entry>
  {
    if |es| == 0 then [e]
    else if es[0].name == e.name then [e] + es[1..]
    else [es[0]] + Put(es[1..], e)
  }

  lemma PutSpec(es: seq<Entry>, e: Entry)
    ensures Lookup(Put(es, e), e.name) == Some(e)
    ensures forall n :: n != e.name ==> Lookup(Put(es, e), n) == Lookup(es, n)
    ensures Lookup(es, e.name).Some? ==> |Put(es, e)| == |es|
    ensures Lookup(es, e.name).None? ==> Put(es, e) == es + [e]
    ensures Distinct(es) ==> Distinct(Put(es, e))
  {
    PutLookup(es, e);
    PutLength(es, e);
    if Distinct(es) {
      PutDistinct(es, e);
    }
  }

  lemma {:induction false} PutLookup(es: seq<Entry>, e: Entry)
    ensures Lookup(Put(es, e), e.name) == Some(e)
    ensures forall n :: n != e.name ==> Lookup(Put(es, e), n) == Lookup(es, n)
  {
    if |es| > 0 {
      var r := Put(es, e);
      if es[0].name != e.name {
        PutLookup(es[1..], e);
        assert r[0] == es[0] && r[1..] == Put(es[1..], e);
      } else {
        assert r[0] == e && r[1..] == es[1..];
      }
    }
  }

  lemma {:induction false} PutLength(es: seq<Entry>, e: Entry)
    ensures Lookup(es, e.name).Some? ==> |Put(es, e)| == |es|
    ensures Lookup(es, e.name).None? ==> Put(es, e) == es + [e]
  {
    if |es| > 0 && es[0].name != e.name {
      PutLength(es[1..], e);
      assert Lookup(es, e.name) == Lookup(es[1..], e.name);
      if Lookup(es, e.name).None? {
        assert Put(es, e) == [es[0]] + (es[1..] + [e]);
        assert es == [es[0]] + es[1..];
      }
    }
  }

  lemma {:induction false} PutDistinct(es: seq<Entry>, e: Entry)
    requires Distinct(es)
    ensures Distinct(Put(es, e))
  {
    if |es| > 0 && es[0].name != e.name {
      var r := Put(es, e);
      assert r == [es[0]] + Put(es[1..], e);
      assert Distinct(es[1..]) by {
        forall i, j | 0 <= i < j < |es[1..]| ensures es[1..][i].name != es[1..][j].name {
          assert es[1..][i] == es[i + 1] && es[1..][j] == es[j + 1];
        }
      }
      PutDistinct(es[1..], e);
      LookupMember(es[1..], es[0].name);
      forall i, j | 0 <= i < j < |r| ensures r[i].name != r[j].name {
        if i == 0 {
          assert r[j] == Put(es[1..], e)[j - 1];
          PutMember(es[1..], e, j - 1);
          if r[j] != e {
            var k :| 0 <= k < |es[1..]| && r[j] == es[1..][k];
            assert es[1..][k] == es[k + 1];
          }
        } else {
          assert r[i] == Put(es[1..], e)[i - 1] && r[j] == Put(es[1..], e)[j - 1];
        }
      }
    } else if |es| > 0 {
      var r := Put(es, e);
      forall i, j | 0 <= i < j < |r| ensures r[i].name != r[j].name {
        assert r[j] == es[j];
        if i > 0 {
          assert r[i] == es[i];
        }
      }
    }
  }

  /** Every entry of `Put(es, e)` is `e` or was in `es`. */
  lemma {:induction false} PutMember(es: seq<Entry>, e: Entry, j: nat)
    requires j < |Put(es, e)|
    ensures Put(es, e)[j] == e || exists k :: 0 <= k < |es| && Put(es, e)[j] == es[k]
  {
    if |es| > 0 && es[0].name != e.name && j > 0 {
      PutMember(es[1..], e, j - 1);
      if Put(es, e)[j] != e {
        var k :| 0 <= k < |es[1..]| && Put(es[1..], e)[j - 1] == es[1..][k];
        assert es[1..][k] == es[k + 1];
      }
    } else if |es| > 0 && es[0].name == e.name && j > 0 {
      assert Put(es, e)[j] == es[j];
    }
  }

  /** In a table without repeated names, `Lookup` misses exactly the
      names that are not listed. */
  lemma {:induction false} LookupMember(es: seq<Entry>, n: string)
    ensures Lookup(es, n).None? <==> forall k :: 0 <= k < |es| ==> es[k].name != n
    ensures Lookup(es, n).Some? ==> Lookup(es, n).value.name == n
    ensures Lookup(es, n).Some? ==> Lookup(es, n).value in es
  {
    if |es| > 0 && es[0].name != n {
      LookupMember(es[1..], n);
      assert forall k :: 1 <= k < |es| ==> es[k] == es[1..][k - 1];
    }
  }

  /** Records `names`, all declared with `kind`, under the current
      counter. */
  function Record(st: State, names: seq<string>, kind: Kind): (r: State)
    ensures r.inLoop == st.inLoop && r.counter == st.counter
    decreases |names|
  {
    if |names| == 0 then st
    else Record(st.(vars := Put(st.vars, Entry(names[0], kind, LoopName(names[0], st.counter)))), names[1..], kind)
  }

  /** Each recorded name is found with its kind and new name; the other
      names keep their entries; no name is listed twice. */
  lemma {:induction false} RecordSpec(st: State, names: seq<string>, kind: Kind)
    ensures forall n :: n in names ==> Lookup(Record(st, names, kind).vars, n) == Some(Entry(n, kind, LoopName(n, st.counter)))
    ensures forall n :: n !in names ==> Lookup(Record(st, names, kind).vars, n) == Lookup(st.vars, n)
    ensures Distinct(st.vars) ==> Distinct(Record(st, names, kind).vars)
    decreases |names|
  {
    if |names| > 0 {
      var e := Entry(names[0], kind, LoopName(names[0], st.counter));
      var st1 := st.(vars := Put(st.vars, e));
      PutSpec(st.vars, e);
      RecordSpec(st1, names[1..], kind);
      forall n | n in names
        ensures Lookup(Record(st, names, kind).vars, n) == Some(Entry(n, kind, LoopName(n, st.counter)))
      {
        if n !in names[1..] {
          assert n == names[0];
        }
      }
    }
  }

  /* ---- What one declaration binds ---- */

  /** The identifiers a pattern binds, left to right. */
  function BoundNames(p: Pattern): seq<string>
  {
    match p
    case PIdent(n) => [n]
    case PObject(props) => Flatten(seq(|props|, i requires 0 <= i < |props| => PropNames(props[i])))
    case PArray(elems) => Flatten(seq(|elems|, i requires 0 <= i < |elems| => ElemNames(elems[i])))
    case PDefault(t, _) => BoundNames(t)
  }

  function PropNames(q: PatProp): seq<string>
  {
    match q
    case PProp(_, v) => BoundNames(v)
    case PComputed(_, v) => BoundNames(v)
    case PRest(r) => BoundNames(r)
  }

  function ElemNames(el: PatElem): seq<string>
  {
    match el
    case PHole => []
    case PElem(p) => BoundNames(p)
    case PRestElem(p) => BoundNames(p)
  }

  /** The names a declarator introduces: its identifier, or each name
      its object or array pattern binds, once. */
  function DeclNames(d: Declarator): seq<string>
  {
    match d.id
    case PIdent(n) => [n]
    case PObject(_) => Dedup(BoundNames(d.id))
    case PArray(_) => Dedup(BoundNames(d.id))
    case PDefault(_, _) => []
  }

  function AllNames(ds: seq<Declarator>): seq<string>
  {
    Flatten(seq(|ds|, i requires 0 <= i < |ds| => DeclNames(ds[i])))
  }

  function InitOf(d: Declarator): Expr
  {
    match d.init
    case Some(x) => x
    case None => Undef()
  }

  /** `<newName> = <init>` for each name of the declarator: a pattern's
      names all get the whole initializer. */
  function AssignOne(d: Declarator, counter: nat): seq<Stmt>
  {
    Map((n: string) => ExprStmt(AssignTo(Ident(LoopName(n, counter)), InitOf(d))), DeclNames(d))
  }

  /** What replaces a declaration inside a loop; nothing at all when it
      binds no name. */
  function Assigns(ds: seq<Declarator>, counter: nat): seq<Stmt>
  {
    Flatten(seq(|ds|, i requires 0 <= i < |ds| => AssignOne(ds[i], counter)))
  }

  /** Every identifier bound in `p`, renamed. */
  function RenamePattern(p: Pattern, counter: nat): Pattern
  {
    match p
    case PIdent(n) => PIdent(LoopName(n, counter))
    case PObject(props) => PObject(seq(|props|, i requires 0 <= i < |props| => RenameProp(props[i], counter)))
    case PArray(elems) => PArray(seq(|elems|, i requires 0 <= i < |elems| => RenameElem(elems[i], counter)))
    case PDefault(t, f) => PDefault(RenamePattern(t, counter), f)
  }

  function RenameProp(q: PatProp, counter: nat): PatProp
  {
    match q
    case PProp(k, v) => PProp(k, RenamePattern(v, counter))
    case PComputed(k, v) => PComputed(k, RenamePattern(v, counter))
    case PRest(r) => PRest(RenamePattern(r, counter))
  }

  function RenameElem(el: PatElem, counter: nat): PatElem
  {
    match el
    case PHole => PHole
    case PElem(p) => PElem(RenamePattern(p, counter))
    case PRestElem(p) => PRestElem(RenamePattern(p, counter))
  }

  /** A `for-in`/`for-of` header that declares: its names are recorded and
      it becomes the (renamed) binding of its first declarator. */
  function Header(h: ForHead, st: State): (ForHead, State)
  {
    match h
    case HeadDecl(k, ds) =>
      if |ds| == 0 then (h, st)
      else (HeadTarget(RenamePattern(ds[0].id, st.counter)), Record(st, AllNames(ds), k))
    case HeadTarget(_) => (h, st)
  }

  /** The declaration put before a top-level loop: `null` for a constant,
      `undefined` otherwise. */
  function PreDecl(e: Entry): Stmt
  {
    VarDecl(e.kind, [Declarator(PIdent(e.newName), Some(if e.kind == Const then NullLit else Undef()))])
  }

  function PreDecls(es: seq<Entry>): seq<Stmt>
  {
    Map(PreDecl, es)
  }

  /** References to a hoisted variable, renamed (a shorthand property
      `{x}` becomes `{x: x_loopN}`). */
  function RenameExpr(e: Expr, es: seq<Entry>): Expr
  {
    match e
    case Ident(n) => (match Lookup(es, n) case Some(x) => Ident(x.newName) case None => e)
    case ObjectLit(props) => ObjectLit(seq(|props|, i requires 0 <= i < |props| => RenameShorthand(props[i], es)))
    case _ => e
  }

  function RenameShorthand(q: ObjProp, es: seq<Entry>): ObjProp
  {
    match q
    case Shorthand(n) => (match Lookup(es, n) case Some(x) => KeyValue(KeyIdent(n), Ident(x.newName)) case None => q)
    case _ => q
  }

  function RenameStmt(s: Stmt, es: seq<Entry>): Stmt
  {
    RwStmt(s, NoPre, e => RenameExpr(e, es), KeepStmt)
  }

  /* ---- The walk ---- */

  function Enter(st: State): State
  {
    if st.inLoop then st else State([], true, st.counter + 1)
  }

  /** Leaving a loop. `outer` is the state before the loop was entered: it
      was not in a loop exactly when the loop has no loop ancestor. Such a
      loop gets the declarations in front and its references renamed, and
      the table is emptied. */
  function Exit(loop: Stmt, outer: State, st: State): (seq<Stmt>, State)
  {
    if outer.inLoop then ([loop], st)
    else (PreDecls(st.vars) + [RenameStmt(loop, st.vars)], State([], false, st.counter))
  }

  /** The statements that stand where one statement stood (a branch or a
      loop body): a replaced declaration, or a loop with declarations in
      front, becomes a block. */
  function Wrap(orig: Stmt, r: seq<Stmt>): Stmt
  {
    if |r| == 1 && (r[0] == orig || !orig.VarDecl?) then r[0] else Block(r)
  }

  function VisitStmt(s: Stmt, st: State): (seq<Stmt>, State)
    decreases s, 0
  {
    match s
    case VarDecl(k, ds) =>
      if st.inLoop then
        var st1 := Record(st, AllNames(ds), k);
        var v := VisitInits(ds, st1);
        (Assigns(v.0, st.counter), v.1)
      else
        var v := VisitInits(ds, st);
        ([VarDecl(k, v.0)], v.1)
    case ExprStmt(x) => var v := VisitExpr(x, st); ([ExprStmt(v.0)], v.1)
    case Return(o) => var v := VisitOpt(o, st); ([Return(v.0)], v.1)
    case Throw(x) => var v := VisitExpr(x, st); ([Throw(v.0)], v.1)
    case If(c, y, n) =>
      var vc := VisitExpr(c, st);
      var vy := VisitStmt(y, vc.1);
      (match n
       case None => ([If(vc.0, Wrap(y, vy.0), None)], vy.1)
       case Some(t) =>
         var vn := VisitStmt(t, vy.1);
         ([If(vc.0, Wrap(y, vy.0), Some(Wrap(t, vn.0)))], vn.1))
    case Block(ss) => var v := VisitStmts(ss, st); ([Block(v.0)], v.1)
    case For(init, t, u, b) =>
      var v0 := VisitStmts(init, Enter(st));
      var v1 := VisitOpt(t, v0.1);
      var v2 := VisitOpt(u, v1.1);
      var v3 := VisitStmt(b, v2.1);
      Exit(For(v0.0, v1.0, v2.0, Wrap(b, v3.0)), st, v3.1)
    case ForIn(h, r, b) =>
      var vh := Header(h, Enter(st));
      var vr := VisitExpr(r, vh.1);
      var vb := VisitStmt(b, vr.1);
      Exit(ForIn(vh.0, vr.0, Wrap(b, vb.0)), st, vb.1)
    case ForOf(h, r, b) =>
      var vh := Header(h, Enter(st));
      var vr := VisitExpr(r, vh.1);
      var vb := VisitStmt(b, vr.1);
      Exit(ForOf(vh.0, vr.0, Wrap(b, vb.0)), st, vb.1)
    case While(t, b) =>
      var vt := VisitExpr(t, Enter(st));
      var vb := VisitStmt(b, vt.1);
      Exit(While(vt.0, Wrap(b, vb.0)), st, vb.1)
    case DoWhile(b, t) =>
      var vb := VisitStmt(b, Enter(st));
      var vt := VisitExpr(t, vb.1);
      Exit(DoWhile(Wrap(b, vb.0), vt.0), st, vt.1)
    case FuncDecl(n, ps, body) => var v := VisitStmts(body, st); ([FuncDecl(n, ps, v.0)], v.1)
    case ExportNamed(Some(d)) => var v := VisitStmt(d, st); ([ExportNamed(Some(Wrap(d, v.0)))], v.1)
    case ExportDefault(DefaultStmt(d)) => var v := VisitStmt(d, st); ([ExportDefault(DefaultStmt(Wrap(d, v.0)))], v.1)
    case ExportDefault(DefaultValue(x)) => var v := VisitExpr(x, st); ([ExportDefault(DefaultValue(v.0))], v.1)
    case _ => ([s], st)
  }

  function VisitStmts(ss: seq<Stmt>, st: State): (seq<Stmt>, State)
    decreases ss, 1
  {
    if |ss| == 0 then ([], st)
    else
      var a := VisitStmt(ss[0], st);
      var b := VisitStmts(ss[1..], a.1);
      (a.0 + b.0, b.1)
  }

  /** The declarators with their initializers walked. */
  function VisitInits(ds: seq<Declarator>, st: State): (seq<Declarator>, State)
    decreases ds, 1
  {
    if |ds| == 0 then ([], st)
    else
      var a := VisitInit(ds[0], st);
      var b := VisitInits(ds[1..], a.1);
      ([a.0] + b.0, b.1)
  }

  function VisitInit(d: Declarator, st: State): (Declarator, State)
    decreases d, 0
  {
    var v := VisitOpt(d.init, st);
    (Declarator(d.id, v.0), v.1)
  }

  function VisitOpt(o: Option<Expr>, st: State): (Option<Expr>, State)
    decreases o, 0
  {
    match o
    case None => (None, st)
    case Some(x) => var v := VisitExpr(x, st); (Some(v.0), v.1)
  }

  /** Expressions are walked for the functions inside them, whose bodies
      are walked like any other statements. */
  function VisitExpr(e: Expr, st: State): (Expr, State)
    decreases e, 0
  {
    match e
    case ArrayLit(elems) => var v := VisitElems(elems, st); (ArrayLit(v.0), v.1)
    case ObjectLit(props) => var v := VisitProps(props, st); (ObjectLit(v.0), v.1)
    case Member(obj, p) => var v := VisitExpr(obj, st); (Member(v.0, p), v.1)
    case Call(callee, args) =>
      var vc := VisitExpr(callee, st);
      var va := VisitExprs(args, vc.1);
      (Call(vc.0, va.0), va.1)
    case Func(ps, BodyExpr(x)) => var v := VisitExpr(x, st); (Func(ps, BodyExpr(v.0)), v.1)
    case Func(ps, BodyBlock(ss)) => var v := VisitStmts(ss, st); (Func(ps, BodyBlock(v.0)), v.1)
    case Op(op, xs) => var v := VisitExprs(xs, st); (Op(op, v.0), v.1)
    case _ => (e, st)
  }

  function VisitExprs(es: seq<Expr>, st: State): (seq<Expr>, State)
    decreases es, 1
  {
    if |es| == 0 then ([], st)
    else
      var a := VisitExpr(es[0], st);
      var b := VisitExprs(es[1..], a.1);
      ([a.0] + b.0, b.1)
  }

  function VisitElems(elems: seq<ArrayElem>, st: State): (seq<ArrayElem>, State)
    decreases elems, 1
  {
    if |elems| == 0 then ([], st)
    else
      var a := VisitElem(elems[0], st);
      var b := VisitElems(elems[1..], a.1);
      ([a.0] + b.0, b.1)
  }

  function VisitProps(props: seq<ObjProp>, st: State): (seq<ObjProp>, State)
    decreases props, 1
  {
    if |props| == 0 then ([], st)
    else
      var a := VisitProp(props[0], st);
      var b := VisitProps(props[1..], a.1);
      ([a.0] + b.0, b.1)
  }

  function VisitElem(el: ArrayElem, st: State): (ArrayElem, State)
    decreases el, 0
  {
    match el
    case Hole => (Hole, st)
    case Item(x) => var v := VisitExpr(x, st); (Item(v.0), v.1)
    case Spread(x) => var v := VisitExpr(x, st); (Spread(v.0), v.1)
  }

  function VisitProp(q: ObjProp, st: State): (ObjProp, State)
    decreases q, 0
  {
    match q
    case KeyValue(k, x) => var v := VisitExpr(x, st); (KeyValue(k, v.0), v.1)
    case Shorthand(n) => (q, st)
    case SpreadProp(x) => var v := VisitExpr(x, st); (SpreadProp(v.0), v.1)
  }

  /** The plugin on a file. */
  function Transform(ss: seq<Stmt>): seq<Stmt>
  {
    VisitStmts(ss, Start()).0
  }

  /* ---- New names ---- */

  /** Sibling top-level loops never share a suffix. */
  lemma LoopNameCounter(n: string, c1: nat, c2: nat)
    requires LoopName(n, c1) == LoopName(n, c2)
    ensures c1 == c2
  {
    var p := n + "_loop";
    assert LoopName(n, c1)[|p|..] == NatToString(c1);
    assert LoopName(n, c2)[|p|..] == NatToString(c2);
    NatToStringInjective(c1, c2);
  }

  /** Within one loop, distinct variables get distinct new names. */
  lemma LoopNameName(a: string, b: string, c: nat)
    requires LoopName(a, c) == LoopName(b, c)
    ensures a == b
  {
    var t := "_loop" + NatToString(c);
    assert LoopName(a, c) == a + t && LoopName(b, c) == b + t;
    assert |a| == |b|;
    assert a == LoopName(a, c)[..|a|];
  }

  /* ---- The state through a walk ---- */

  /** The table holds no name twice and every entry carries the new name
      the current loop number gives it. */
  predicate Good(st: State)
  {
    Distinct(st.vars)
    && forall i :: 0 <= i < |st.vars| ==> st.vars[i].newName == LoopName(st.vars[i].name, st.counter)
  }

  lemma {:induction false} RecordGood(st: State, names: seq<string>, kind: Kind)
    requires Good(st)
    ensures Good(Record(st, names, kind))
    decreases |names|
  {
    if |names| > 0 {
      var e := Entry(names[0], kind, LoopName(names[0], st.counter));
      var st1 := st.(vars := Put(st.vars, e));
      PutSpec(st.vars, e);
      forall i | 0 <= i < |st1.vars|
        ensures st1.vars[i].newName == LoopName(st1.vars[i].name, st1.counter)
      {
        PutMember(st.vars, e, i);
      }
      RecordGood(st1, names[1..], kind);
    }
  }

  /** The loops of a tree that have no loop around them, function bodies
      included. */
  function LoopsStmt(s: Stmt): nat
    decreases s, 0
  {
    if IsLoop(s) then 1
    else
      match s
      case VarDecl(_, ds) => LoopsInits(ds)
      case ExprStmt(x) => LoopsExpr(x)
      case Return(o) => LoopsOpt(o)
      case Throw(x) => LoopsExpr(x)
      case If(c, y, n) => LoopsExpr(c) + LoopsStmt(y) + (match n case None => 0 case Some(t) => LoopsStmt(t))
      case Block(ss) => LoopsStmts(ss)
      case FuncDecl(_, _, body) => LoopsStmts(body)
      case ExportNamed(Some(d)) => LoopsStmt(d)
      case ExportDefault(DefaultStmt(d)) => LoopsStmt(d)
      case ExportDefault(DefaultValue(x)) => LoopsExpr(x)
      case _ => 0
  }

  function LoopsStmts(ss: seq<Stmt>): nat
    decreases ss, 1
  {
    if |ss| == 0 then 0 else LoopsStmt(ss[0]) + LoopsStmts(ss[1..])
  }

  function LoopsInits(ds: seq<Declarator>): nat
    decreases ds, 1
  {
    if |ds| == 0 then 0 else LoopsInit(ds[0]) + LoopsInits(ds[1..])
  }

  function LoopsInit(d: Declarator): nat
    decreases d, 0
  {
    LoopsOpt(d.init)
  }

  function LoopsOpt(o: Option<Expr>): nat
    decreases o, 0
  {
    match o
    case None => 0
    case Some(x) => LoopsExpr(x)
  }

  function LoopsExpr(e: Expr): nat
    decreases e, 0
  {
    match e
    case ArrayLit(elems) => LoopsElems(elems)
    case ObjectLit(props) => LoopsProps(props)
    case Member(obj, _) => LoopsExpr(obj)
    case Call(callee, args) => LoopsExpr(callee) + LoopsExprs(args)
    case Func(_, BodyExpr(x)) => LoopsExpr(x)
    case Func(_, BodyBlock(ss)) => LoopsStmts(ss)
    case Op(_, xs) => LoopsExprs(xs)
    case _ => 0
  }

  function LoopsExprs(es: seq<Expr>): nat
    decreases es, 1
  {
    if |es| == 0 then 0 else LoopsExpr(es[0]) + LoopsExprs(es[1..])
  }

  function LoopsElems(elems: seq<ArrayElem>): nat
    decreases elems, 1
  {
    if |elems| == 0 then 0 else LoopsElem(elems[0]) + LoopsElems(elems[1..])
  }

  function LoopsElem(el: ArrayElem): nat
    decreases el, 0
  {
    match el
    case Hole => 0
    case Item(x) => LoopsExpr(x)
    case Spread(x) => LoopsExpr(x)
  }

  function LoopsProps(props: seq<ObjProp>): nat
    decreases props, 1
  {
    if |props| == 0 then 0 else LoopsProp(props[0]) + LoopsProps(props[1..])
  }

  function LoopsProp(q: ObjProp): nat
    decreases q, 0
  {
    match q
    case KeyValue(_, x) => LoopsExpr(x)
    case Shorthand(_) => 0
    case SpreadProp(x) => LoopsExpr(x)
  }

  /** What walking a part holding `loops` top-level loops does to the
      state: the table stays well formed; inside a loop the loop number
      stays; outside loops each top-level loop takes the next number and
      leaves the table empty again. */
  predicate Steps(st: State, out: State, loops: nat)
  {
    (Good(st) ==> Good(out))
    && (st.inLoop ==> out.inLoop && out.counter == st.counter)
    && (!st.inLoop && st.vars == [] ==> out == State([], false, st.counter + loops))
  }

  lemma ExitSteps(loop: Stmt, st: State, last: State)
    requires last.inLoop && last.counter == Enter(st).counter
    requires Good(Enter(st)) ==> Good(last)
    ensures Steps(st, Exit(loop, st, last).1, 1)
  {
  }

  lemma HeaderSteps(h: ForHead, st: State)
    requires st.inLoop
    ensures Steps(st, Header(h, st).1, 0)
  {
    if h.HeadDecl? && |h.hdecls| > 0 && Good(st) {
      RecordGood(st, AllNames(h.hdecls), h.hkind);
    }
  }

  lemma {:induction false} StepsStmt(s: Stmt, st: State)
    ensures Steps(st, VisitStmt(s, st).1, LoopsStmt(s))
    decreases s, 1
  {
    if s.VarDecl? {
      StepsVarDecl(s, st);
    } else if s.If? {
      StepsIf(s, st);
    } else if s.For? {
      StepsFor(s, st);
    } else if s.ForIn? {
      StepsForIn(s, st);
    } else if s.ForOf? {
      StepsForOf(s, st);
    } else if s.While? {
      StepsWhile(s, st);
    } else if s.DoWhile? {
      StepsDoWhile(s, st);
    } else {
      StepsOther(s, st);
    }
  }

  /** The statements that are not loops, conditionals or declarations. */
  lemma {:induction false} StepsOther(s: Stmt, st: State)
    requires !(s.VarDecl? || s.If? || s.For? || s.ForIn? || s.ForOf? || s.While? || s.DoWhile?)
    ensures Steps(st, VisitStmt(s, st).1, LoopsStmt(s))
    decreases s, 0
  {
    match s
    case ExprStmt(x) => StepsExpr(x, st);
    case Return(o) => StepsOpt(o, st);
    case Throw(x) => StepsExpr(x, st);
    case Block(ss) => StepsStmts(ss, st);
    case FuncDecl(_, _, body) => StepsStmts(body, st);
    case ExportNamed(Some(d)) => StepsStmt(d, st);
    case ExportDefault(DefaultStmt(d)) => StepsStmt(d, st);
    case ExportDefault(DefaultValue(x)) => StepsExpr(x, st);
    case _ =>
  }

  lemma {:induction false} StepsVarDecl(s: Stmt, st: State)
    requires s.VarDecl?
    ensures Steps(st, VisitStmt(s, st).1, LoopsStmt(s))
    decreases s, 0
  {
    var ds := s.decls;
    if st.inLoop {
      if Good(st) { RecordGood(st, AllNames(ds), s.kind); }
      StepsInits(ds, Record(st, AllNames(ds), s.kind));
    } else {
      StepsInits(ds, st);
    }
  }

  lemma {:induction false} StepsIf(s: Stmt, st: State)
    requires s.If?
    ensures Steps(st, VisitStmt(s, st).1, LoopsStmt(s))
    decreases s, 0
  {
    StepsExpr(s.cond, st);
    var vc := VisitExpr(s.cond, st);
    StepsStmt(s.yes, vc.1);
    if s.no.Some? { StepsStmt(s.no.value, VisitStmt(s.yes, vc.1).1); }
  }

  lemma {:induction false} StepsFor(s: Stmt, st: State)
    requires s.For?
    ensures Steps(st, VisitStmt(s, st).1, LoopsStmt(s))
    decreases s, 0
  {
    var v0 := VisitStmts(s.init, Enter(st));
    var v1 := VisitOpt(s.test, v0.1);
    var v2 := VisitOpt(s.update, v1.1);
    StepsStmts(s.init, Enter(st));
    StepsOpt(s.test, v0.1);
    StepsOpt(s.update, v1.1);
    StepsStmt(s.body, v2.1);
    ExitSteps(For(v0.0, v1.0, v2.0, Wrap(s.body, VisitStmt(s.body, v2.1).0)), st, VisitStmt(s.body, v2.1).1);
  }

  lemma {:induction false} StepsForIn(s: Stmt, st: State)
    requires s.ForIn?
    ensures Steps(st, VisitStmt(s, st).1, LoopsStmt(s))
    decreases s, 0
  {
    var vh := Header(s.left, Enter(st));
    var vr := VisitExpr(s.right, vh.1);
    HeaderSteps(s.left, Enter(st));
    StepsExpr(s.right, vh.1);
    StepsStmt(s.body, vr.1);
    ExitSteps(ForIn(vh.0, vr.0, Wrap(s.body, VisitStmt(s.body, vr.1).0)), st, VisitStmt(s.body, vr.1).1);
  }

  lemma {:induction false} StepsForOf(s: Stmt, st: State)
    requires s.ForOf?
    ensures Steps(st, VisitStmt(s, st).1, LoopsStmt(s))
    decreases s, 0
  {
    var vh := Header(s.left, Enter(st));
    var vr := VisitExpr(s.right, vh.1);
    HeaderSteps(s.left, Enter(st));
    StepsExpr(s.right, vh.1);
    StepsStmt(s.body, vr.1);
    ExitSteps(ForOf(vh.0, vr.0, Wrap(s.body, VisitStmt(s.body, vr.1).0)), st, VisitStmt(s.body, vr.1).1);
  }

  lemma {:induction false} StepsWhile(s: Stmt, st: State)
    requires s.While?
    ensures Steps(st, VisitStmt(s, st).1, LoopsStmt(s))
    decreases s, 0
  {
    var vt := VisitExpr(s.loopTest, Enter(st));
    StepsExpr(s.loopTest, Enter(st));
    StepsStmt(s.body, vt.1);
    ExitSteps(While(vt.0, Wrap(s.body, VisitStmt(s.body, vt.1).0)), st, VisitStmt(s.body, vt.1).1);
  }

  lemma {:induction false} StepsDoWhile(s: Stmt, st: State)
    requires s.DoWhile?
    ensures Steps(st, VisitStmt(s, st).1, LoopsStmt(s))
    decreases s, 0
  {
    var vb := VisitStmt(s.body, Enter(st));
    StepsStmt(s.body, Enter(st));
    StepsExpr(s.loopTest, vb.1);
    ExitSteps(DoWhile(Wrap(s.body, vb.0), VisitExpr(s.loopTest, vb.1).0), st, VisitExpr(s.loopTest, vb.1).1);
  }

  lemma {:induction false} StepsStmts(ss: seq<Stmt>, st: State)
    ensures Steps(st, VisitStmts(ss, st).1, LoopsStmts(ss))
    decreases ss, 1
  {
    if |ss| > 0 {
      StepsStmt(ss[0], st);
      StepsStmts(ss[1..], VisitStmt(ss[0], st).1);
    }
  }

  lemma {:induction false} StepsInits(ds: seq<Declarator>, st: State)
    ensures Steps(st, VisitInits(ds, st).1, LoopsInits(ds))
    decreases ds, 1
  {
    if |ds| > 0 {
      StepsInit(ds[0], st);
      StepsInits(ds[1..], VisitInit(ds[0], st).1);
    }
  }

  lemma {:induction false} StepsInit(d: Declarator, st: State)
    ensures Steps(st, VisitInit(d, st).1, LoopsInit(d))
    decreases d, 0
  {
    StepsOpt(d.init, st);
  }

  lemma {:induction false} StepsOpt(o: Option<Expr>, st: State)
    ensures Steps(st, VisitOpt(o, st).1, LoopsOpt(o))
    decreases o, 0
  {
    if o.Some? { StepsExpr(o.value, st); }
  }

  lemma {:induction false} StepsExpr(e: Expr, st: State)
    ensures Steps(st, VisitExpr(e, st).1, LoopsExpr(e))
    decreases e, 0
  {
    match e
    case ArrayLit(elems) => StepsElems(elems, st);
    case ObjectLit(props) => StepsProps(props, st);
    case Member(obj, _) => StepsExpr(obj, st);
    case Call(callee, args) =>
      StepsExpr(callee, st);
      StepsExprs(args, VisitExpr(callee, st).1);
    case Func(_, BodyExpr(x)) => StepsExpr(x, st);
    case Func(_, BodyBlock(ss)) => StepsStmts(ss, st);
    case Op(_, xs) => StepsExprs(xs, st);
    case _ =>
  }

  lemma {:induction false} StepsExprs(es: seq<Expr>, st: State)
    ensures Steps(st, VisitExprs(es, st).1, LoopsExprs(es))
    decreases es, 1
  {
    if |es| > 0 {
      StepsExpr(es[0], st);
      StepsExprs(es[1..], VisitExpr(es[0], st).1);
    }
  }

  lemma {:induction false} StepsElems(elems: seq<ArrayElem>, st: State)
    ensures Steps(st, VisitElems(elems, st).1, LoopsElems(elems))
    decreases elems, 1
  {
    if |elems| > 0 {
      StepsElem(elems[0], st);
      StepsElems(elems[1..], VisitElem(elems[0], st).1);
    }
  }

  lemma {:induction false} StepsProps(props: seq<ObjProp>, st: State)
    ensures Steps(st, VisitProps(props, st).1, LoopsProps(props))
    decreases props, 1
  {
    if |props| > 0 {
      StepsProp(props[0], st);
      StepsProps(props[1..], VisitProp(props[0], st).1);
    }
  }

  lemma {:induction false} StepsElem(el: ArrayElem, st: State)
    ensures Steps(st, VisitElem(el, st).1, LoopsElem(el))
    decreases el, 0
  {
    match el
    case Hole =>
    case Item(x) => StepsExpr(x, st);
    case Spread(x) => StepsExpr(x, st);
  }

  lemma {:induction false} StepsProp(q: ObjProp, st: State)
    ensures Steps(st, VisitProp(q, st).1, LoopsProp(q))
    decreases q, 0
  {
    match q
    case KeyValue(_, x) => StepsExpr(x, st);
    case Shorthand(_) =>
    case SpreadProp(x) => StepsExpr(x, st);
  }

  /** Over a whole file the loops are numbered 1, 2, ... and the walk ends
      outside any loop with an empty table. */
  lemma TransformNumbersLoops(ss: seq<Stmt>)
    ensures VisitStmts(ss, Start()).1 == State([], false, LoopsStmts(ss))
  {
    StepsStmts(ss, Start());
  }

  /* ---- What a loop becomes ---- */

  /** No declaration is left among the statements of `s` (function
      bodies inside expressions are not searched). */
  predicate DeclFree(s: Stmt)
  {
    match s
    case VarDecl(_, _) => false
    case If(_, y, n) => DeclFree(y) && (match n case None => true case Some(t) => DeclFree(t))
    case Block(ss) => forall i :: 0 <= i < |ss| ==> DeclFree(ss[i])
    case For(init, _, _, b) => (forall i :: 0 <= i < |init| ==> DeclFree(init[i])) && DeclFree(b)
    case ForIn(h, _, b) => HeadFree(h) && DeclFree(b)
    case ForOf(h, _, b) => HeadFree(h) && DeclFree(b)
    case While(_, b) => DeclFree(b)
    case DoWhile(b, _) => DeclFree(b)
    case FuncDecl(_, _, body) => forall i :: 0 <= i < |body| ==> DeclFree(body[i])
    case ExportNamed(Some(d)) => DeclFree(d)
    case ExportDefault(DefaultStmt(d)) => DeclFree(d)
    case _ => true
  }

  /** A loop header that declares nothing. */
  predicate HeadFree(h: ForHead)
  {
    h.HeadTarget? || |h.hdecls| == 0
  }

  lemma WrapFree(orig: Stmt, r: seq<Stmt>)
    requires forall x :: x in r ==> DeclFree(x)
    ensures DeclFree(Wrap(orig, r))
  {
    if !(|r| == 1 && (r[0] == orig || !orig.VarDecl?)) {
      assert forall i :: 0 <= i < |r| ==> r[i] in r;
    }
  }

  /** The target of `name = value`, if `x` is such a statement. */
  function Target(x: Stmt): Option<string>
  {
    if x.ExprStmt? && x.expr.Op? && x.expr.op == "=" && |x.expr.operands| == 2 && x.expr.operands[0].Ident?
    then Some(x.expr.operands[0].name) else None
  }

  /** A declaration in a loop becomes one assignment per name it binds,
      in order, each to the name's loop name. */
  lemma AssignsTargets(ds: seq<Declarator>, counter: nat)
    ensures Map(Target, Assigns(ds, counter)) == Map((n: string) => Some(LoopName(n, counter)), AllNames(ds))
  {
    var f := (n: string) => Some(LoopName(n, counter));
    var a := seq(|ds|, i requires 0 <= i < |ds| => AssignOne(ds[i], counter));
    var b := seq(|ds|, i requires 0 <= i < |ds| => DeclNames(ds[i]));
    forall i | 0 <= i < |ds| ensures Map(Target, a[i]) == Map(f, b[i]) {
      forall k | 0 <= k < |b[i]| ensures Map(Target, a[i])[k] == Map(f, b[i])[k] {
        assert a[i][k] == ExprStmt(AssignTo(Ident(LoopName(b[i][k], counter)), InitOf(ds[i])));
        assert Target(a[i][k]) == Some(LoopName(b[i][k], counter));
        assert Map(Target, a[i])[k] == Target(a[i][k]);
        assert Map(f, b[i])[k] == f(b[i][k]);
      }
    }
    FlattenMapVia(Target, f, a, b);
  }

  /** `Map(f, Flatten(a)) == Flatten(Map(g, ...))` by pieces, for two
      different piece types. */
  lemma {:induction false} FlattenMapVia<A, B, C>(f: A -> C, g: B -> C, a: seq<seq<A>>, b: seq<seq<B>>)
    requires |a| == |b|
    requires forall i :: 0 <= i < |a| ==> Map(f, a[i]) == Map(g, b[i])
    ensures Map(f, Flatten(a)) == Map(g, Flatten(b))
  {
    var fa := seq(|a|, i requires 0 <= i < |a| => Map(f, a[i]));
    var gb := seq(|b|, i requires 0 <= i < |b| => Map(g, b[i]));
    FlattenMap(f, a, fa);
    FlattenMap(g, b, gb);
    assert fa == gb;
  }

  lemma AssignsAreAssignments(ds: seq<Declarator>, counter: nat)
    ensures forall x :: x in Assigns(ds, counter) ==> Target(x).Some?
  {
    AssignsTargets(ds, counter);
    var r := Assigns(ds, counter);
    forall x | x in r ensures Target(x).Some? {
      var i :| 0 <= i < |r| && r[i] == x;
      assert Map(Target, r)[i] == Target(x);
    }
  }

  lemma {:induction false} FreeStmt(s: Stmt, st: State)
    requires st.inLoop
    ensures forall x :: x in VisitStmt(s, st).0 ==> DeclFree(x)
    decreases s, 1
  {
    if s.VarDecl? {
      AssignsAreAssignments(VisitInits(s.decls, Record(st, AllNames(s.decls), s.kind)).0, st.counter);
    } else if s.If? {
      FreeIf(s, st);
    } else if s.For? {
      FreeFor(s, st);
    } else if s.ForIn? || s.ForOf? {
      FreeForInOf(s, st);
    } else if s.While? {
      FreeWhile(s, st);
    } else if s.DoWhile? {
      FreeDoWhile(s, st);
    } else {
      FreeOther(s, st);
    }
  }

  lemma {:induction false} FreeIf(s: Stmt, st: State)
    requires st.inLoop && s.If?
    ensures forall x :: x in VisitStmt(s, st).0 ==> DeclFree(x)
    decreases s, 0
  {
    StepsExpr(s.cond, st);
    var vc := VisitExpr(s.cond, st);
    var vy := VisitStmt(s.yes, vc.1);
    FreeStmt(s.yes, vc.1);
    WrapFree(s.yes, vy.0);
    if s.no.Some? {
      StepsStmt(s.yes, vc.1);
      FreeStmt(s.no.value, vy.1);
      WrapFree(s.no.value, VisitStmt(s.no.value, vy.1).0);
    }
  }

  lemma {:induction false} FreeFor(s: Stmt, st: State)
    requires st.inLoop && s.For?
    ensures forall x :: x in VisitStmt(s, st).0 ==> DeclFree(x)
    decreases s, 0
  {
    var v0 := VisitStmts(s.init, st);
    var v1 := VisitOpt(s.test, v0.1);
    var v2 := VisitOpt(s.update, v1.1);
    FreeStmts(s.init, st);
    assert forall i :: 0 <= i < |v0.0| ==> v0.0[i] in v0.0;
    StepsStmts(s.init, st);
    StepsOpt(s.test, v0.1);
    StepsOpt(s.update, v1.1);
    FreeStmt(s.body, v2.1);
    WrapFree(s.body, VisitStmt(s.body, v2.1).0);
  }

  lemma {:induction false} FreeForInOf(s: Stmt, st: State)
    requires st.inLoop && (s.ForIn? || s.ForOf?)
    ensures forall x :: x in VisitStmt(s, st).0 ==> DeclFree(x)
    decreases s, 0
  {
    var vh := Header(s.left, st);
    HeaderSteps(s.left, st);
    StepsExpr(s.right, vh.1);
    var vr := VisitExpr(s.right, vh.1);
    FreeStmt(s.body, vr.1);
    WrapFree(s.body, VisitStmt(s.body, vr.1).0);
  }

  lemma {:induction false} FreeWhile(s: Stmt, st: State)
    requires st.inLoop && s.While?
    ensures forall x :: x in VisitStmt(s, st).0 ==> DeclFree(x)
    decreases s, 0
  {
    StepsExpr(s.loopTest, st);
    var vt := VisitExpr(s.loopTest, st);
    FreeStmt(s.body, vt.1);
    WrapFree(s.body, VisitStmt(s.body, vt.1).0);
  }

  lemma {:induction false} FreeDoWhile(s: Stmt, st: State)
    requires st.inLoop && s.DoWhile?
    ensures forall x :: x in VisitStmt(s, st).0 ==> DeclFree(x)
    decreases s, 0
  {
    FreeStmt(s.body, st);
    WrapFree(s.body, VisitStmt(s.body, st).0);
  }

  /** The statements that are not loops, conditionals or declarations. */
  lemma {:induction false} FreeOther(s: Stmt, st: State)
    requires st.inLoop
    requires !(s.VarDecl? || s.If? || s.For? || s.ForIn? || s.ForOf? || s.While? || s.DoWhile?)
    ensures forall x :: x in VisitStmt(s, st).0 ==> DeclFree(x)
    decreases s, 0
  {
    match s
    case Block(ss) =>
      FreeStmts(ss, st);
      var r := VisitStmts(ss, st).0;
      assert forall i :: 0 <= i < |r| ==> r[i] in r;
    case FuncDecl(_, _, body) =>
      FreeStmts(body, st);
      var r := VisitStmts(body, st).0;
      assert forall i :: 0 <= i < |r| ==> r[i] in r;
    case ExportNamed(Some(d)) =>
      FreeStmt(d, st);
      WrapFree(d, VisitStmt(d, st).0);
    case ExportDefault(DefaultStmt(d)) =>
      FreeStmt(d, st);
      WrapFree(d, VisitStmt(d, st).0);
    case _ =>
  }

  lemma {:induction false} FreeStmts(ss: seq<Stmt>, st: State)
    requires st.inLoop
    ensures forall x :: x in VisitStmts(ss, st).0 ==> DeclFree(x)
    decreases ss, 1
  {
    if |ss| > 0 {
      FreeStmt(ss[0], st);
      StepsStmt(ss[0], st);
      FreeStmts(ss[1..], VisitStmt(ss[0], st).1);
    }
  }

  /** A rewrite of expressions keeps a tree free of declarations; so does
      the renaming at a loop's exit. */
  lemma {:induction false} RwFree(s: Stmt, pre: Expr -> Option<Expr>, post: Expr -> Expr)
    requires DeclFree(s)
    ensures DeclFree(RwStmt(s, pre, post, KeepStmt))
    decreases s, 0
  {
    match s
    case If(_, y, n) =>
      RwFree(y, pre, post);
      if n.Some? { RwFree(n.value, pre, post); }
    case Block(ss) => RwFreeAll(ss, pre, post);
    case For(init, _, _, b) => RwFreeAll(init, pre, post); RwFree(b, pre, post);
    case ForIn(h, _, b) =>
      RwFree(b, pre, post);
      assert HeadFree(RwHead(h, pre, post, KeepStmt));
    case ForOf(h, _, b) =>
      RwFree(b, pre, post);
      assert HeadFree(RwHead(h, pre, post, KeepStmt));
    case While(_, b) => RwFree(b, pre, post);
    case DoWhile(b, _) => RwFree(b, pre, post);
    case FuncDecl(_, _, body) => RwFreeAll(body, pre, post);
    case ExportNamed(Some(d)) => RwFree(d, pre, post);
    case ExportDefault(DefaultStmt(d)) => RwFree(d, pre, post);
    case _ =>
  }

  lemma {:induction false} RwFreeAll(ss: seq<Stmt>, pre: Expr -> Option<Expr>, post: Expr -> Expr)
    requires forall i :: 0 <= i < |ss| ==> DeclFree(ss[i])
    ensures forall i :: 0 <= i < |RwStmts(ss, pre, post, KeepStmt)| ==> DeclFree(RwStmts(ss, pre, post, KeepStmt)[i])
    decreases ss, 1
  {
    forall i | 0 <= i < |ss| ensures DeclFree(RwStmt(ss[i], pre, post, KeepStmt)) {
      RwFree(ss[i], pre, post);
    }
  }

  lemma RenameFree(s: Stmt, es: seq<Entry>)
    requires DeclFree(s)
    ensures DeclFree(RenameStmt(s, es))
  {
    RwFree(s, NoPre, e => RenameExpr(e, es));
  }

  /** A top-level loop is preceded by one declaration per entry of the
      table it filled and keeps no declaration inside. */
  lemma HoistTopLoop(s: Stmt, st: State)
    requires IsLoop(s) && !st.inLoop && Good(st)
    ensures |VisitStmt(s, st).0| >= 1
    ensures var r := VisitStmt(s, st).0; IsLoop(r[|r| - 1]) && DeclFree(r[|r| - 1])
    ensures exists es :: Good(State(es, true, st.counter + 1))
                         && VisitStmt(s, st).0 == PreDecls(es) + [VisitStmt(s, st).0[|VisitStmt(s, st).0| - 1]]
  {
    var loop, last;
    if s.For? {
      loop, last := HoistFor(s, st);
    } else if s.ForIn? || s.ForOf? {
      loop, last := HoistForInOf(s, st);
    } else if s.While? {
      loop, last := HoistWhile(s, st);
    } else {
      loop, last := HoistDoWhile(s, st);
    }
    HoistExit(loop, st, last);
  }

  /** What a top-level loop leaves for `Exit`: the rewritten loop, free of
      declarations, and the filled table under the loop's counter. */
  ghost predicate ReadyToExit(s: Stmt, st: State, loop: Stmt, last: State)
  {
    VisitStmt(s, st) == Exit(loop, st, last)
    && IsLoop(loop) && DeclFree(loop)
    && last.inLoop && last.counter == st.counter + 1 && Good(last)
  }

  lemma HoistExit(loop: Stmt, st: State, last: State)
    requires IsLoop(loop) && DeclFree(loop) && !st.inLoop
    requires last.inLoop && last.counter == st.counter + 1 && Good(last)
    ensures var r := Exit(loop, st, last).0;
      |r| >= 1 && IsLoop(r[|r| - 1]) && DeclFree(r[|r| - 1])
      && Good(State(last.vars, true, st.counter + 1)) && r == PreDecls(last.vars) + [r[|r| - 1]]
  {
    RenameFree(loop, last.vars);
    assert IsLoop(RenameStmt(loop, last.vars));
    assert State(last.vars, true, st.counter + 1) == last;
  }

  lemma HoistFor(s: Stmt, st: State) returns (loop: Stmt, last: State)
    requires s.For? && !st.inLoop && Good(st)
    ensures ReadyToExit(s, st, loop, last)
  {
    var st0 := Enter(st);
    var v0 := VisitStmts(s.init, st0);
    var v1 := VisitOpt(s.test, v0.1);
    var v2 := VisitOpt(s.update, v1.1);
    StepsStmts(s.init, st0);
    StepsOpt(s.test, v0.1);
    StepsOpt(s.update, v1.1);
    StepsStmt(s.body, v2.1);
    FreeStmts(s.init, st0);
    FreeStmt(s.body, v2.1);
    var vb := VisitStmt(s.body, v2.1);
    WrapFree(s.body, vb.0);
    loop := For(v0.0, v1.0, v2.0, Wrap(s.body, vb.0));
    last := vb.1;
    assert forall i :: 0 <= i < |v0.0| ==> v0.0[i] in v0.0;
  }

  lemma HoistForInOf(s: Stmt, st: State) returns (loop: Stmt, last: State)
    requires (s.ForIn? || s.ForOf?) && !st.inLoop && Good(st)
    ensures ReadyToExit(s, st, loop, last)
  {
    var st0 := Enter(st);
    var vh := Header(s.left, st0);
    HeaderSteps(s.left, st0);
    StepsExpr(s.right, vh.1);
    var vr := VisitExpr(s.right, vh.1);
    StepsStmt(s.body, vr.1);
    FreeStmt(s.body, vr.1);
    var vb := VisitStmt(s.body, vr.1);
    WrapFree(s.body, vb.0);
    loop := if s.ForIn? then ForIn(vh.0, vr.0, Wrap(s.body, vb.0)) else ForOf(vh.0, vr.0, Wrap(s.body, vb.0));
    last := vb.1;
  }

  lemma HoistWhile(s: Stmt, st: State) returns (loop: Stmt, last: State)
    requires s.While? && !st.inLoop && Good(st)
    ensures ReadyToExit(s, st, loop, last)
  {
    var st0 := Enter(st);
    var vt := VisitExpr(s.loopTest, st0);
    StepsExpr(s.loopTest, st0);
    StepsStmt(s.body, vt.1);
    FreeStmt(s.body, vt.1);
    var vb := VisitStmt(s.body, vt.1);
    WrapFree(s.body, vb.0);
    loop := While(vt.0, Wrap(s.body, vb.0));
    last := vb.1;
  }

  lemma HoistDoWhile(s: Stmt, st: State) returns (loop: Stmt, last: State)
    requires s.DoWhile? && !st.inLoop && Good(st)
    ensures ReadyToExit(s, st, loop, last)
  {
    var st0 := Enter(st);
    var vb := VisitStmt(s.body, st0);
    StepsStmt(s.body, st0);
    StepsExpr(s.loopTest, vb.1);
    FreeStmt(s.body, st0);
    WrapFree(s.body, vb.0);
    var vt := VisitExpr(s.loopTest, vb.1);
    loop := DoWhile(Wrap(s.body, vb.0), vt.0);
    last := vt.1;
  }

  /** The declarations in front of a loop: one per table entry, no name
      declared twice, every listed variable declared under its loop name,
      and a constant starts as `null`, anything else as `undefined`. */
  lemma PreDeclsSpec(es: seq<Entry>, counter: nat)
    requires Good(State(es, true, counter))
    ensures |PreDecls(es)| == |es|
    ensures forall i :: 0 <= i < |es| ==> PreDecls(es)[i].VarDecl? && |PreDecls(es)[i].decls| == 1
    ensures forall i, j :: 0 <= i < j < |es| ==> PreDecls(es)[i].decls[0].id != PreDecls(es)[j].decls[0].id
    ensures forall n :: Lookup(es, n).Some? ==>
              exists i :: 0 <= i < |es| && PreDecls(es)[i].decls[0].id == PIdent(LoopName(n, counter))
                          && PreDecls(es)[i].kind == Lookup(es, n).value.kind
    ensures forall i :: 0 <= i < |es| ==> (PreDecls(es)[i].decls[0].init == Some(NullLit) <==> PreDecls(es)[i].kind == Const)
  {
    forall i | 0 <= i < |es| ensures PreDecls(es)[i] == PreDecl(es[i]) { }
    forall i, j | 0 <= i < j < |es| ensures PreDecls(es)[i].decls[0].id != PreDecls(es)[j].decls[0].id {
      if LoopName(es[i].name, counter) == LoopName(es[j].name, counter) {
        LoopNameName(es[i].name, es[j].name, counter);
      }
    }
    forall n | Lookup(es, n).Some?
      ensures exists i :: 0 <= i < |es| && PreDecls(es)[i].decls[0].id == PIdent(LoopName(n, counter))
                          && PreDecls(es)[i].kind == Lookup(es, n).value.kind
    {
      LookupMember(es, n);
      var i :| 0 <= i < |es| && es[i] == Lookup(es, n).value;
      assert PreDecls(es)[i].decls[0].id == PIdent(LoopName(n, counter));
    }
  }
}
