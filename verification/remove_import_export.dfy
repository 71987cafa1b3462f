/** `removeImportExport.ts`: the target dialect has no modules. Imports,
    `export { ... }` lists and `export * from` are dropped; an export that
    carries a declaration (or a default value) is replaced by what it
    carries. Module statements only occur at the top level of a file, so
    the pass works on the file's statement list. */
module RemoveImportExport {
  import opened Base
  import opened Ast

  predicate IsModule(s: Stmt)
  {
    s.Import? || s.ExportNamed? || s.ExportDefault? || s.ExportAll?
  }

  /** What one statement becomes. Babel visits a replacement again, so a
      carried declaration is itself stripped; `export default <value>`
      leaves the value as an expression statement. */
  function Strip(s: Stmt): seq<Stmt>
  {
    match s
    case Import(_) => []
    case ExportNamed(None) => []
    case ExportNamed(Some(d)) => Strip(d)
    case ExportDefault(DefaultStmt(d)) => Strip(d)
    case ExportDefault(DefaultValue(x)) => [ExprStmt(x)]
    case ExportAll(_) => []
    case _ => [s]
  }

  function Transform(ss: seq<Stmt>): seq<Stmt>
  {
    Flatten(seq(|ss|, i requires 0 <= i < |ss| => Strip(ss[i])))
  }

  lemma {:induction false} StripClean(s: Stmt)
    ensures forall x :: x in Strip(s) ==> !IsModule(x)
    ensures !IsModule(s) ==> Strip(s) == [s]
    ensures |Strip(s)| <= 1
  {
    match s
    case ExportNamed(Some(d)) => StripClean(d);
    case ExportDefault(DefaultStmt(d)) => StripClean(d);
    case _ =>
  }

  /** No module statement is left, and a file without any comes out
      unchanged. */
  lemma TransformSpec(ss: seq<Stmt>)
    ensures forall x :: x in Transform(ss) ==> !IsModule(x)
    ensures (forall i :: 0 <= i < |ss| ==> !IsModule(ss[i])) ==> Transform(ss) == ss
  {
    var pieces := seq(|ss|, i requires 0 <= i < |ss| => Strip(ss[i]));
    forall x | x in Transform(ss) ensures !IsModule(x) {
      FlattenMember(pieces, x);
      var i :| 0 <= i < |pieces| && x in pieces[i];
      StripClean(ss[i]);
    }
    if forall i :: 0 <= i < |ss| ==> !IsModule(ss[i]) {
      forall i | 0 <= i < |ss| ensures pieces[i] == [ss[i]] { StripClean(ss[i]); }
      FlattenSingletons(pieces, ss);
    }
  }

  lemma {:induction false} FlattenSingletons<T>(pieces: seq<seq<T>>, ss: seq<T>)
    requires |pieces| == |ss|
    requires forall i :: 0 <= i < |ss| ==> pieces[i] == [ss[i]]
    ensures Flatten(pieces) == ss
  {
    if |ss| > 0 {
      var n := |ss| - 1;
      FlattenSingletons(pieces[..n], ss[..n]);
      assert ss == ss[..n] + [ss[n]];
    }
  }

  /** The pass works statement by statement. */
  lemma TransformAppend(a: seq<Stmt>, b: seq<Stmt>)
    ensures Transform(a + b) == Transform(a) + Transform(b)
  {
    var pa := seq(|a|, i requires 0 <= i < |a| => Strip(a[i]));
    var pb := seq(|b|, i requires 0 <= i < |b| => Strip(b[i]));
    assert seq(|a + b|, i requires 0 <= i < |a + b| => Strip((a + b)[i])) == pa + pb;
    FlattenAppend(pa, pb);
  }

  /* A reference reading of the pass, one step deep: keep every statement
     that carries something and unwrap the exports among them. */

  /** Statements that disappear: imports, `export { ... }` without a
      declaration and `export *`. */
  predicate Dropped(s: Stmt)
  {
    s.Import? || s.ExportAll? || (s.ExportNamed? && s.decl.None?)
  }

  function Unwrap(s: Stmt): Stmt
  {
    match s
    case ExportNamed(Some(d)) => d
    case ExportDefault(DefaultStmt(d)) => d
    case ExportDefault(DefaultValue(x)) => ExprStmt(x)
    case _ => s
  }

  function Kept(ss: seq<Stmt>): seq<Stmt>
  {
    if |ss| == 0 then []
    else (if Dropped(ss[0]) then [] else [Unwrap(ss[0])]) + Kept(ss[1..])
  }

  /** An export never carries another module statement. */
  predicate WellFormed(s: Stmt)
  {
    match s
    case ExportNamed(Some(d)) => !IsModule(d)
    case ExportDefault(DefaultStmt(d)) => !IsModule(d)
    case _ => true
  }

  /** On well-formed files the pass keeps the carrying statements in their
      order and unwraps the exports among them. */
  lemma {:induction false} TransformIsKept(ss: seq<Stmt>)
    requires forall i :: 0 <= i < |ss| ==> WellFormed(ss[i])
    ensures Transform(ss) == Kept(ss)
  {
    if |ss| > 0 {
      TransformIsKept(ss[1..]);
      TransformAppend([ss[0]], ss[1..]);
      assert [ss[0]] + ss[1..] == ss;
      assert Transform([ss[0]]) == Strip(ss[0]) by {
        var pieces := seq(1, i requires 0 <= i < 1 => Strip([ss[0]][i]));
        assert pieces == [Strip(ss[0])];
        assert pieces[..0] == [];
        assert Flatten(pieces) == Flatten(pieces[..0]) + pieces[0];
      }
      match ss[0]
      case ExportNamed(Some(d)) => StripClean(d);
      case ExportDefault(DefaultStmt(d)) => StripClean(d);
      case _ =>
    }
  }
}
