/** Object spread (`spreadObject.ts`): an object literal with a spread
    becomes nested `ObjectUnion` calls over its parts, left to right; a
    part is a spread source or an object literal holding a run of other
    properties. A single part `p` becomes `ObjectUnion({}, p)`. When any
    literal was rewritten, the declaration of `ObjectUnion` is put at the
    top of the program. */
module SpreadObject {
  import opened Base
  import opened Ast
  import opened Objects

  predicate HasSpreadProp(props: seq<ObjProp>)
  {
    exists i :: 0 <= i < |props| && props[i].SpreadProp?
  }

  /** The parts for `props`, given the pending run `cur`. */
  function GroupFrom(props: seq<ObjProp>, cur: seq<ObjProp>): seq<Expr>
    decreases |props|
  {
    var flush := if |cur| > 0 then [ObjectLit(cur)] else [];
    if |props| == 0 then flush
    else if props[0].SpreadProp? then flush + [props[0].spread] + GroupFrom(props[1..], [])
    else GroupFrom(props[1..], cur + [props[0]])
  }

  /** `ObjectUnion(ObjectUnion(p0, p1), p2)...` */
  function FoldParts(parts: seq<Expr>): Expr
    requires |parts| >= 1
  {
    if |parts| == 1 then parts[0]
    else CallNamed("ObjectUnion", [FoldParts(parts[..|parts| - 1]), parts[|parts| - 1]])
  }

  function Build(parts: seq<Expr>): Expr
  {
    if |parts| == 0 then ObjectLit([])
    else if |parts| == 1 then CallNamed("ObjectUnion", [ObjectLit([]), parts[0]])
    else FoldParts(parts)
  }

  function Rewrite(e: Expr): Expr
  {
    if e.ObjectLit? && HasSpreadProp(e.props) then Build(GroupFrom(e.props, [])) else e
  }

  predicate SpreadLiteral(e: Expr)
  {
    e.ObjectLit? && HasSpreadProp(e.props)
  }

  /** The declaration of the `ObjectUnion` helper, by name and
      parameters only; what a call of it returns is `ObjectUnionHelper`. */
  function UnionDecl(): Stmt
  {
    FuncDecl("ObjectUnion", [PIdent("obj1"), PIdent("obj2")], [])
  }

  /** The pass: every literal is rewritten, and the helper is declared
      first exactly when some literal had a spread. */
  function Transform(ss: seq<Stmt>): seq<Stmt>
  {
    var body := RwStmts(ss, NoPre, Rewrite, KeepStmt);
    if |HitsStmts(ss, SpreadLiteral, true)| > 0 then [UnionDecl()] + body else body
  }

  lemma TransformDeclaresHelper(ss: seq<Stmt>)
    ensures var out := Transform(ss);
            (|out| > 0 && out[0] == UnionDecl()) <==> (|HitsStmts(ss, SpreadLiteral, true)| > 0 || (|ss| > 0 && RwStmts(ss, NoPre, Rewrite, KeepStmt)[0] == UnionDecl()))
    ensures |Transform(ss)| == |ss| + (if |HitsStmts(ss, SpreadLiteral, true)| > 0 then 1 else 0)
  {
  }

  /* What the rewrite means. Objects are key-ordered maps; `ObjectUnion(a,
     b)` copies `a`'s keys and then `b`'s into a new object, so `b` wins on
     shared keys and `b`'s new keys come after `a`'s. */

  /** The keys of `ks` not in `have`, in order. */
  function NewKeys(ks: seq<string>, have: set<string>): (r: seq<string>)
    ensures forall k :: k in r <==> k in ks && k !in have
  {
    if |ks| == 0 then []
    else NewKeys(ks[..|ks| - 1], have) + (if ks[|ks| - 1] in have then [] else [ks[|ks| - 1]])
  }

  /** What `ObjectUnion(a, b)` returns. */
  function Union<V>(a: Obj<V>, b: Obj<V>): Obj<V>
  {
    Obj(a.keys + NewKeys(b.keys, a.props.Keys), a.props + b.props)
  }

  function Single<V>(k: string, v: V): Obj<V>
  {
    Obj([k], map[k := v])
  }

  function KeyName(k: PropKey): string
  {
    match k
    case KeyIdent(id) => id
    case KeyLiteral(l) => l
  }

  /** The object an expression denotes: a literal is built property by
      property, an `ObjectUnion` call is the union of its arguments, and
      anything else is given by `other`; a value is given by `one`. */
  function Eval<V>(e: Expr, one: Expr -> V, other: Expr -> Obj<V>): Obj<V>
    decreases e, 1
  {
    match e
    case ObjectLit(props) => Apply(Empty(), props, one, other)
    case Call(Ident("ObjectUnion"), args) =>
      if |args| == 2 then Union(Eval(args[0], one, other), Eval(args[1], one, other)) else other(e)
    case _ => other(e)
  }

  /** What one property contributes. */
  function PropObj<V>(p: ObjProp, one: Expr -> V, other: Expr -> Obj<V>): Obj<V>
    decreases p, 2
  {
    match p
    case KeyValue(k, v) => Single(KeyName(k), one(v))
    case Shorthand(n) => Single(n, one(Ident(n)))
    case SpreadProp(x) => Eval(x, one, other)
  }

  /** `acc` extended by the properties, left to right. */
  function Apply<V>(acc: Obj<V>, props: seq<ObjProp>, one: Expr -> V, other: Expr -> Obj<V>): Obj<V>
    decreases props, 3
  {
    if |props| == 0 then acc
    else Union(Apply(acc, props[..|props| - 1], one, other), PropObj(props[|props| - 1], one, other))
  }

  /** `acc` extended by the parts, left to right. */
  function FoldUnion<V>(acc: Obj<V>, parts: seq<Expr>, one: Expr -> V, other: Expr -> Obj<V>): Obj<V>
  {
    if |parts| == 0 then acc
    else Union(FoldUnion(acc, parts[..|parts| - 1], one, other), Eval(parts[|parts| - 1], one, other))
  }

  lemma {:induction false} NewKeysAppend(x: seq<string>, y: seq<string>, have: set<string>)
    ensures NewKeys(x + y, have) == NewKeys(x, have) + NewKeys(y, have)
  {
    if |y| == 0 {
      assert x + y == x;
    } else {
      assert (x + y)[..|x + y| - 1] == x + y[..|y| - 1];
      NewKeysAppend(x, y[..|y| - 1], have);
    }
  }

  lemma {:induction false} NewKeysTwice(x: seq<string>, b: set<string>, a: set<string>)
    ensures NewKeys(NewKeys(x, b), a) == NewKeys(x, a + b)
  {
    if |x| > 0 {
      var init := x[..|x| - 1];
      var last := x[|x| - 1];
      NewKeysTwice(init, b, a);
      var tail: seq<string> := if last in b then [] else [last];
      NewKeysAppend(NewKeys(init, b), tail, a);
      if last !in b {
        assert tail[..0] == [];
      }
    }
  }

  lemma {:induction false} NewKeysNone(x: seq<string>)
    ensures NewKeys(x, {}) == x
  {
    if |x| > 0 {
      var n := |x| - 1;
      NewKeysNone(x[..n]);
      assert x[n] !in {};
      assert NewKeys(x, {}) == NewKeys(x[..n], {}) + [x[n]];
      assert x[..n] + [x[n]] == x;
    }
  }

  lemma MergeAssoc<V>(x: map<string, V>, y: map<string, V>, z: map<string, V>)
    ensures (x + y) + z == x + (y + z)
  {
  }

  lemma MergeKeys<V>(x: map<string, V>, y: map<string, V>)
    ensures (x + y).Keys == x.Keys + y.Keys
  {
  }

  lemma UnionAssocKeys(ak: seq<string>, bk: seq<string>, ck: seq<string>, a: set<string>, b: set<string>)
    ensures (ak + NewKeys(bk, a)) + NewKeys(ck, a + b) == ak + NewKeys(bk + NewKeys(ck, b), a)
  {
    NewKeysAppend(bk, NewKeys(ck, b), a);
    NewKeysTwice(ck, b, a);
  }

  /** `ObjectUnion` is associative ... */
  lemma UnionAssoc<V>(a: Obj<V>, b: Obj<V>, c: Obj<V>)
    ensures Union(Union(a, b), c) == Union(a, Union(b, c))
  {
    UnionAssocKeys(a.keys, b.keys, c.keys, a.props.Keys, b.props.Keys);
    MergeKeys(a.props, b.props);
    MergeAssoc(a.props, b.props, c.props);
  }

  /** ... and `{}` is its left identity. */
  lemma UnionEmptyLeft<V>(x: Obj<V>)
    ensures Union(Empty(), x) == x
  {
    var e: Obj<V> := Empty();
    var have := e.props.Keys;
    assert have == {};
    NewKeysNone(x.keys);
    var ks := e.keys + NewKeys(x.keys, have);
    assert ks == x.keys;
    var m := e.props + x.props;
    assert m == x.props;
    assert Union(e, x) == Obj(ks, m);
  }

  /** Building on `acc` is a union with the object built from nothing. */
  lemma {:induction false} ApplyIsUnion<V>(acc: Obj<V>, props: seq<ObjProp>, one: Expr -> V, other: Expr -> Obj<V>)
    ensures Apply(acc, props, one, other) == Union(acc, Apply(Empty(), props, one, other))
  {
    if |props| == 0 {
      assert Union(acc, Empty<V>()) == acc by {
        assert NewKeys([], acc.props.Keys) == [];
        assert acc.keys + [] == acc.keys;
        assert acc.props + map[] == acc.props;
      }
    } else {
      var init := props[..|props| - 1];
      var p := PropObj(props[|props| - 1], one, other);
      ApplyIsUnion(acc, init, one, other);
      UnionAssoc(acc, Apply(Empty(), init, one, other), p);
    }
  }

  lemma {:induction false} ApplyAppend<V>(acc: Obj<V>, a: seq<ObjProp>, b: seq<ObjProp>, one: Expr -> V, other: Expr -> Obj<V>)
    ensures Apply(acc, a + b, one, other) == Apply(Apply(acc, a, one, other), b, one, other)
  {
    if |b| == 0 {
      assert a + b == a;
    } else {
      assert (a + b)[..|a + b| - 1] == a + b[..|b| - 1];
      ApplyAppend(acc, a, b[..|b| - 1], one, other);
    }
  }

  lemma {:induction false} FoldUnionAppend<V>(acc: Obj<V>, a: seq<Expr>, b: seq<Expr>, one: Expr -> V, other: Expr -> Obj<V>)
    ensures FoldUnion(acc, a + b, one, other) == FoldUnion(FoldUnion(acc, a, one, other), b, one, other)
  {
    if |b| == 0 {
      assert a + b == a;
    } else {
      assert (a + b)[..|a + b| - 1] == a + b[..|b| - 1];
      FoldUnionAppend(acc, a, b[..|b| - 1], one, other);
    }
  }

  /** Folding the parts builds the pending run and then the properties. */
  function Flush(cur: seq<ObjProp>): seq<Expr>
  {
    if |cur| > 0 then [ObjectLit(cur)] else []
  }

  lemma FlushMeaning<V>(acc: Obj<V>, cur: seq<ObjProp>, one: Expr -> V, other: Expr -> Obj<V>)
    ensures FoldUnion(acc, Flush(cur), one, other) == Apply(acc, cur, one, other)
  {
    if |cur| > 0 {
      assert Flush(cur)[..0] == [];
      ApplyIsUnion(acc, cur, one, other);
    }
  }

  lemma {:induction false} GroupFromKeepsObject<V>(acc: Obj<V>, props: seq<ObjProp>, cur: seq<ObjProp>,
                                                   one: Expr -> V, other: Expr -> Obj<V>)
    ensures FoldUnion(acc, GroupFrom(props, cur), one, other) == Apply(acc, cur + props, one, other)
    decreases |props|
  {
    if |props| == 0 {
      assert GroupFrom(props, cur) == Flush(cur);
      FlushMeaning(acc, cur, one, other);
      assert cur + props == cur;
    } else if props[0].SpreadProp? {
      GroupFromKeepsObject(Apply(acc, cur + [props[0]], one, other), props[1..], [], one, other);
      assert [] + props[1..] == props[1..];
      SpreadStep(acc, props, cur, one, other);
    } else {
      GroupFromKeepsObject(acc, props[1..], cur + [props[0]], one, other);
      ItemStep(acc, props, cur, one, other);
    }
  }

  lemma GroupFromSpread(props: seq<ObjProp>, cur: seq<ObjProp>)
    requires |props| > 0 && props[0].SpreadProp?
    ensures GroupFrom(props, cur) == (Flush(cur) + [props[0].spread]) + GroupFrom(props[1..], [])
  {
  }

  /** A spread closes the pending run and starts a new one. */
  lemma {:induction false} SpreadStep<V>(acc: Obj<V>, props: seq<ObjProp>, cur: seq<ObjProp>, one: Expr -> V, other: Expr -> Obj<V>)
    requires |props| > 0 && props[0].SpreadProp?
    requires var mid := Apply(acc, cur + [props[0]], one, other);
             FoldUnion(mid, GroupFrom(props[1..], []), one, other) == Apply(mid, props[1..], one, other)
    ensures FoldUnion(acc, GroupFrom(props, cur), one, other) == Apply(acc, cur + props, one, other)
  {
    var front := Flush(cur) + [props[0].spread];
    var back := GroupFrom(props[1..], []);
    GroupFromSpread(props, cur);
    FoldUnionAppend(acc, front, back, one, other);
    FrontMeaning(acc, cur, props[0], one, other);
    ApplySplit(acc, cur, props, one, other);
  }

  /** The closed run followed by the spread source. */
  lemma FrontMeaning<V>(acc: Obj<V>, cur: seq<ObjProp>, p: ObjProp, one: Expr -> V, other: Expr -> Obj<V>)
    requires p.SpreadProp?
    ensures FoldUnion(acc, Flush(cur) + [p.spread], one, other) == Apply(acc, cur + [p], one, other)
  {
    FlushMeaning(acc, cur, one, other);
    FlushThenSpread(acc, cur, Flush(cur), p, one, other);
  }

  lemma ApplySplit<V>(acc: Obj<V>, cur: seq<ObjProp>, props: seq<ObjProp>, one: Expr -> V, other: Expr -> Obj<V>)
    requires |props| > 0
    ensures Apply(acc, cur + props, one, other) == Apply(Apply(acc, cur + [props[0]], one, other), props[1..], one, other)
  {
    ApplyAppend(acc, cur + [props[0]], props[1..], one, other);
    ConsSplit(cur, props);
  }

  /** Any other property joins the pending run. */
  lemma ItemStep<V>(acc: Obj<V>, props: seq<ObjProp>, cur: seq<ObjProp>, one: Expr -> V, other: Expr -> Obj<V>)
    requires |props| > 0 && !props[0].SpreadProp?
    requires FoldUnion(acc, GroupFrom(props[1..], cur + [props[0]]), one, other)
             == Apply(acc, cur + [props[0]] + props[1..], one, other)
    ensures FoldUnion(acc, GroupFrom(props, cur), one, other) == Apply(acc, cur + props, one, other)
  {
    assert GroupFrom(props, cur) == GroupFrom(props[1..], cur + [props[0]]);
    assert cur + [props[0]] + props[1..] == cur + props;
  }

  lemma FlushThenSpread<V>(acc: Obj<V>, cur: seq<ObjProp>, flush: seq<Expr>, p: ObjProp, one: Expr -> V, other: Expr -> Obj<V>)
    requires p.SpreadProp?
    requires FoldUnion(acc, flush, one, other) == Apply(acc, cur, one, other)
    ensures FoldUnion(acc, flush + [p.spread], one, other) == Apply(acc, cur + [p], one, other)
  {
    assert (flush + [p.spread])[..|flush|] == flush;
    assert (cur + [p])[..|cur|] == cur;
  }

  lemma {:induction false} FoldPartsMeaning<V>(parts: seq<Expr>, one: Expr -> V, other: Expr -> Obj<V>)
    requires |parts| >= 1
    ensures Eval(FoldParts(parts), one, other) == FoldUnion(Empty(), parts, one, other)
  {
    if |parts| == 1 {
      assert parts[..0] == [];
      UnionEmptyLeft(Eval(parts[0], one, other));
    } else {
      FoldPartsMeaning(parts[..|parts| - 1], one, other);
    }
  }

  /** The built call denotes the union of its parts. */
  lemma BuildMeaning<V>(parts: seq<Expr>, one: Expr -> V, other: Expr -> Obj<V>)
    ensures Eval(Build(parts), one, other) == FoldUnion(Empty(), parts, one, other)
  {
    if |parts| == 1 {
      assert parts[..0] == [];
      assert Eval(ObjectLit([]), one, other) == Empty();
    } else if |parts| >= 2 {
      FoldPartsMeaning(parts, one, other);
    }
  }

  /** The rewritten literal denotes the object the original denoted, for
      every meaning of its values and spread sources. */
  lemma {:induction false} RewriteKeepsObject<V>(e: Expr, one: Expr -> V, other: Expr -> Obj<V>)
    requires e.ObjectLit?
    ensures Eval(Rewrite(e), one, other) == Eval(e, one, other)
  {
    if HasSpreadProp(e.props) {
      var parts := GroupFrom(e.props, []);
      assert Eval(Build(parts), one, other) == FoldUnion(Empty(), parts, one, other) by {
        BuildMeaning(parts, one, other);
      }
      calc {
        FoldUnion(Empty(), parts, one, other);
      == { GroupFromKeepsObject(Empty(), e.props, [], one, other); }
        Apply(Empty(), [] + e.props, one, other);
      == { assert [] + e.props == e.props; }
        Eval(e, one, other);
      }
    }
  }

  /** The keys of `ks[..n]` with their values in `o`. */
  function Restrict<V>(o: Obj<V>, n: nat): map<string, V>
    requires Valid(o) && n <= |o.keys|
  {
    map k | k in o.keys[..n] :: o.props[k]
  }

  lemma RestrictStep<V>(o: Obj<V>, n: nat)
    requires Valid(o) && n < |o.keys|
    ensures Restrict(o, n + 1) == Restrict(o, n)[o.keys[n] := o.props[o.keys[n]]]
    ensures o.keys[n] !in o.keys[..n]
  {
    assert o.keys[..n + 1] == o.keys[..n] + [o.keys[n]];
  }

  lemma RestrictAll<V>(o: Obj<V>)
    requires Valid(o)
    ensures Restrict(o, |o.keys|) == o.props
  {
    assert o.keys[..|o.keys|] == o.keys;
  }

  lemma NewKeysStep(ks: seq<string>, n: nat, have: set<string>)
    requires n < |ks|
    ensures NewKeys(ks[..n + 1], have) == NewKeys(ks[..n], have) + (if ks[n] in have then [] else [ks[n]])
  {
    assert ks[..n + 1][..n] == ks[..n];
  }

  lemma MergeUpdate<V>(m: map<string, V>, n: map<string, V>, k: string, v: V)
    ensures (m + n)[k := v] == m + n[k := v]
  {
  }

  /** One step of a helper loop keeps its invariant: the values ... */
  lemma CopyStepProps<V>(r0: Obj<V>, src: Obj<V>, j: nat, r: Obj<V>)
    requires Valid(src) && Valid(r) && j < |src.keys|
    requires r.props == r0.props + Restrict(src, j)
    ensures Set(r, src.keys[j], src.props[src.keys[j]]).props == r0.props + Restrict(src, j + 1)
  {
    RestrictStep(src, j);
    MergeUpdate(r0.props, Restrict(src, j), src.keys[j], src.props[src.keys[j]]);
  }

  /** ... and the keys: a key is appended exactly when it is new. */
  lemma CopyStepKeys<V>(r0: Obj<V>, src: Obj<V>, j: nat, r: Obj<V>)
    requires Valid(src) && Valid(r) && j < |src.keys|
    requires r.keys == r0.keys + NewKeys(src.keys[..j], r0.props.Keys)
    requires r.props == r0.props + Restrict(src, j)
    ensures Set(r, src.keys[j], src.props[src.keys[j]]).keys == r0.keys + NewKeys(src.keys[..j + 1], r0.props.Keys)
  {
    var key := src.keys[j];
    KeyNotCopied(r0, src, j, r);
    SetKeys(r, r0.keys, NewKeys(src.keys[..j], r0.props.Keys), r0.props.Keys, key, src.props[key]);
    NewKeysStep(src.keys, j, r0.props.Keys);
  }

  lemma KeyNotCopied<V>(r0: Obj<V>, src: Obj<V>, j: nat, r: Obj<V>)
    requires Valid(src) && j < |src.keys|
    requires r.props == r0.props + Restrict(src, j)
    ensures src.keys[j] in r.props <==> src.keys[j] in r0.props.Keys
  {
    RestrictStep(src, j);
    assert src.keys[j] !in Restrict(src, j);
  }

  lemma SetKeys<V>(r: Obj<V>, front: seq<string>, before: seq<string>, have: set<string>, key: string, v: V)
    requires Valid(r) && r.keys == front + before
    requires key in r.props <==> key in have
    ensures Set(r, key, v).keys == front + (before + (if key in have then [] else [key]))
  {
    if key !in have {
      assert (front + before) + [key] == front + (before + [key]);
    } else {
      assert before + [] == before;
    }
  }

  /** One of the helper's loops: `SetProperty(r, key, src[key])` for each
      key of `src` in order. */
  method CopyInto<V>(r0: Obj<V>, src: Obj<V>) returns (r: Obj<V>)
    requires Valid(r0) && Valid(src)
    ensures Valid(r)
    ensures r == Union(r0, src)
  {
    r := r0;
    var j := 0;
    CopyStart(r0, src);
    while j < |src.keys|
      invariant 0 <= j <= |src.keys|
      invariant Valid(r)
      invariant Copied(r0, src, j, r)
    {
      CopyStep(r0, src, j, r);
      r := Set(r, src.keys[j], src.props[src.keys[j]]);
      j := j + 1;
    }
    CopyDone(r0, src, r);
  }

  /** The invariant of the helper's loop after the first `j` keys of
      `src`: the new ones among them were appended in order, and they
      carry `src`'s values. */
  ghost predicate Copied<V>(r0: Obj<V>, src: Obj<V>, j: nat, r: Obj<V>)
    requires Valid(src) && j <= |src.keys|
  {
    r.keys == r0.keys + NewKeys(src.keys[..j], r0.props.Keys)
    && r.props == r0.props + Restrict(src, j)
  }

  lemma CopyStart<V>(r0: Obj<V>, src: Obj<V>)
    requires Valid(src)
    ensures Copied(r0, src, 0, r0)
  {
    assert src.keys[..0] == [];
    assert Restrict(src, 0) == map[];
    assert r0.keys + [] == r0.keys;
  }

  lemma CopyStep<V>(r0: Obj<V>, src: Obj<V>, j: nat, r: Obj<V>)
    requires Valid(src) && Valid(r) && j < |src.keys| && Copied(r0, src, j, r)
    ensures Copied(r0, src, j + 1, Set(r, src.keys[j], src.props[src.keys[j]]))
  {
    CopyStepKeys(r0, src, j, r);
    CopyStepProps(r0, src, j, r);
  }

  lemma CopyDone<V>(r0: Obj<V>, src: Obj<V>, r: Obj<V>)
    requires Valid(src) && Copied(r0, src, |src.keys|, r)
    ensures r == Union(r0, src)
  {
    RestrictAll(src);
    assert src.keys[..|src.keys|] == src.keys;
  }

  /** The injected `ObjectUnion(obj1, obj2)`: a new object, then the keys
      of `obj1` and then those of `obj2` are set on it. */
  method ObjectUnionHelper<V>(obj1: Obj<V>, obj2: Obj<V>) returns (r: Obj<V>)
    requires Valid(obj1) && Valid(obj2)
    ensures Valid(r)
    ensures r == Union(obj1, obj2)
  {
    r := Empty();
    r := CopyInto(r, obj1);
    UnionEmptyLeft(obj1);
    r := CopyInto(r, obj2);
  }
}
