/** Array spread (`spreadArray.ts`): an array literal with a spread element
    becomes `ArrayUnion(...)` of its spread sources and of array literals
    holding the runs of other elements (holes included) between them. */
module SpreadArray {
  import opened Base
  import opened Ast

  predicate HasSpread(elems: seq<ArrayElem>)
  {
    exists i :: 0 <= i < |elems| && elems[i].Spread?
  }

  /** The `ArrayUnion` arguments for `elems`, given the pending run `cur`
      of non-spread elements: a run is closed when a spread comes or the
      elements end, and only when it is not empty. */
  function GroupFrom(elems: seq<ArrayElem>, cur: seq<ArrayElem>): seq<Expr>
    decreases |elems|
  {
    var flush := if |cur| > 0 then [ArrayLit(cur)] else [];
    if |elems| == 0 then flush
    else if elems[0].Spread? then flush + [elems[0].source] + GroupFrom(elems[1..], [])
    else GroupFrom(elems[1..], cur + [elems[0]])
  }

  /** Every argument is a spread source or a non-empty literal without
      spreads. */
  lemma {:induction false} GroupFromShape(elems: seq<ArrayElem>, cur: seq<ArrayElem>)
    requires !HasSpread(cur)
    ensures forall x :: x in GroupFrom(elems, cur) ==>
              x in SpreadSources(elems) || (x.ArrayLit? && |x.elems| > 0 && !HasSpread(x.elems))
    decreases |elems|
  {
    if |elems| > 0 {
      if elems[0].Spread? {
        GroupFromShape(elems[1..], []);
      } else {
        var next := cur + [elems[0]];
        assert !HasSpread(next) by {
          forall i | 0 <= i < |next| ensures !next[i].Spread? {
            if i < |cur| { assert next[i] == cur[i]; }
          }
        }
        GroupFromShape(elems[1..], next);
      }
    }
  }

  /** The spread sources of `elems`, in order. */
  function SpreadSources(elems: seq<ArrayElem>): seq<Expr>
  {
    if |elems| == 0 then []
    else (if elems[0].Spread? then [elems[0].source] else []) + SpreadSources(elems[1..])
  }

  function Group(elems: seq<ArrayElem>): seq<Expr>
  {
    GroupFrom(elems, [])
  }

  /** The rewrite of one array literal. */
  function Rewrite(e: Expr): Expr
  {
    if e.ArrayLit? && HasSpread(e.elems) then CallNamed("ArrayUnion", Group(e.elems)) else e
  }

  /** The pass, applied to every array literal (inner ones first: Babel
      revisits the arguments of the new call, which gives the same tree). */
  function Transform(ss: seq<Stmt>): seq<Stmt>
  {
    RwStmts(ss, NoPre, Rewrite, KeepStmt)
  }

  /* What the rewrite means: the elements an array literal produces. A hole
     gives `hole`, an element gives its value `one(x)`, a spread gives the
     elements of its source; the elements of an array literal are those of
     its parts, and other sources are given by `many`. */

  function Elements<V>(e: Expr, one: Expr -> V, many: Expr -> seq<V>, hole: V): seq<V>
  {
    if e.ArrayLit? then Values(e.elems, one, many, hole) else many(e)
  }

  function ElemValues<V>(a: ArrayElem, one: Expr -> V, many: Expr -> seq<V>, hole: V): seq<V>
  {
    match a
    case Hole => [hole]
    case Item(x) => [one(x)]
    case Spread(x) => Elements(x, one, many, hole)
  }

  function Values<V>(elems: seq<ArrayElem>, one: Expr -> V, many: Expr -> seq<V>, hole: V): seq<V>
  {
    if |elems| == 0 then [] else ElemValues(elems[0], one, many, hole) + Values(elems[1..], one, many, hole)
  }

  /** `ArrayUnion(a, b, ...)`: the elements of each argument in turn. */
  function UnionValues<V>(args: seq<Expr>, one: Expr -> V, many: Expr -> seq<V>, hole: V): seq<V>
  {
    if |args| == 0 then [] else Elements(args[0], one, many, hole) + UnionValues(args[1..], one, many, hole)
  }

  lemma {:induction false} ValuesAppend<V>(a: seq<ArrayElem>, b: seq<ArrayElem>, one: Expr -> V, many: Expr -> seq<V>, hole: V)
    ensures Values(a + b, one, many, hole) == Values(a, one, many, hole) + Values(b, one, many, hole)
  {
    if |a| > 0 {
      assert (a + b)[1..] == a[1..] + b;
      ValuesAppend(a[1..], b, one, many, hole);
    } else {
      assert a + b == b;
    }
  }

  lemma {:induction false} UnionValuesAppend<V>(a: seq<Expr>, b: seq<Expr>, one: Expr -> V, many: Expr -> seq<V>, hole: V)
    ensures UnionValues(a + b, one, many, hole) == UnionValues(a, one, many, hole) + UnionValues(b, one, many, hole)
  {
    if |a| > 0 {
      assert (a + b)[1..] == a[1..] + b;
      UnionValuesAppend(a[1..], b, one, many, hole);
    } else {
      assert a + b == b;
    }
  }

  /** The pending run, flushed as one literal when non-empty, produces
      its elements. */
  lemma FlushValues<V>(cur: seq<ArrayElem>, one: Expr -> V, many: Expr -> seq<V>, hole: V)
    ensures UnionValues(if |cur| > 0 then [ArrayLit(cur)] else [], one, many, hole) == Values(cur, one, many, hole)
  {
    if |cur| > 0 {
      assert [ArrayLit(cur)][1..] == [];
    }
  }

  lemma GroupFromSpreadStep<V>(elems: seq<ArrayElem>, cur: seq<ArrayElem>,
                               one: Expr -> V, many: Expr -> seq<V>, hole: V)
    requires |elems| > 0 && elems[0].Spread?
    requires UnionValues(GroupFrom(elems[1..], []), one, many, hole) == Values(elems[1..], one, many, hole)
    ensures UnionValues(GroupFrom(elems, cur), one, many, hole)
            == Values(cur, one, many, hole) + Values(elems, one, many, hole)
  {
    var flush: seq<Expr> := if |cur| > 0 then [ArrayLit(cur)] else [];
    var single: seq<Expr> := [elems[0].source];
    var rest := GroupFrom(elems[1..], []);
    var b := ElemValues(elems[0], one, many, hole);
    var c := Values(elems[1..], one, many, hole);
    calc {
      UnionValues(GroupFrom(elems, cur), one, many, hole);
      { assert GroupFrom(elems, cur) == flush + single + rest; }
      UnionValues(flush + single + rest, one, many, hole);
      { UnionValuesAppend(flush + single, rest, one, many, hole); }
      UnionValues(flush + single, one, many, hole) + c;
      { UnionValuesAppend(flush, single, one, many, hole); }
      UnionValues(flush, one, many, hole) + UnionValues(single, one, many, hole) + c;
      { FlushValues(cur, one, many, hole);
        assert UnionValues(single, one, many, hole) == b by { assert single[1..] == []; } }
      Values(cur, one, many, hole) + b + c;
      { assert Values(elems, one, many, hole) == b + c; }
      Values(cur, one, many, hole) + Values(elems, one, many, hole);
    }
  }

  lemma GroupFromItemStep<V>(elems: seq<ArrayElem>, cur: seq<ArrayElem>,
                             one: Expr -> V, many: Expr -> seq<V>, hole: V)
    requires |elems| > 0 && !elems[0].Spread?
    requires UnionValues(GroupFrom(elems[1..], cur + [elems[0]]), one, many, hole)
             == Values(cur + [elems[0]], one, many, hole) + Values(elems[1..], one, many, hole)
    ensures UnionValues(GroupFrom(elems, cur), one, many, hole)
            == Values(cur, one, many, hole) + Values(elems, one, many, hole)
  {
    var b := ElemValues(elems[0], one, many, hole);
    var c := Values(elems[1..], one, many, hole);
    calc {
      UnionValues(GroupFrom(elems, cur), one, many, hole);
      { assert GroupFrom(elems, cur) == GroupFrom(elems[1..], cur + [elems[0]]); }
      UnionValues(GroupFrom(elems[1..], cur + [elems[0]]), one, many, hole);
      Values(cur + [elems[0]], one, many, hole) + c;
      { ValuesAppend(cur, [elems[0]], one, many, hole);
        assert Values([elems[0]], one, many, hole) == b by { assert [elems[0]][1..] == []; } }
      Values(cur, one, many, hole) + b + c;
      { assert Values(elems, one, many, hole) == b + c; }
      Values(cur, one, many, hole) + Values(elems, one, many, hole);
    }
  }

  /** Grouping keeps the elements: the union of the arguments produces the
      pending run followed by the elements, in order. */
  lemma {:induction false} GroupFromKeepsElements<V>(elems: seq<ArrayElem>, cur: seq<ArrayElem>,
                                                      one: Expr -> V, many: Expr -> seq<V>, hole: V)
    ensures UnionValues(GroupFrom(elems, cur), one, many, hole)
            == Values(cur, one, many, hole) + Values(elems, one, many, hole)
    decreases |elems|
  {
    if |elems| == 0 {
      FlushValues(cur, one, many, hole);
    } else if elems[0].Spread? {
      GroupFromKeepsElements(elems[1..], [], one, many, hole);
      assert Values([], one, many, hole) == [];
      GroupFromSpreadStep(elems, cur, one, many, hole);
    } else {
      GroupFromKeepsElements(elems[1..], cur + [elems[0]], one, many, hole);
      GroupFromItemStep(elems, cur, one, many, hole);
    }
  }

  /** The rewritten literal produces exactly the elements the original
      produced, for every meaning of its parts. */
  lemma RewriteKeepsElements<V>(e: Expr, one: Expr -> V, many: Expr -> seq<V>, hole: V)
    requires e.ArrayLit?
    ensures Rewrite(e).Call? ==> UnionValues(Rewrite(e).args, one, many, hole) == Elements(e, one, many, hole)
    ensures Rewrite(e).Call? <==> HasSpread(e.elems)
    ensures Rewrite(e).Call? ==> forall x :: x in Rewrite(e).args ==>
              x in SpreadSources(e.elems) || (x.ArrayLit? && |x.elems| > 0 && !HasSpread(x.elems))
  {
    GroupFromKeepsElements(e.elems, [], one, many, hole);
    GroupFromShape(e.elems, []);
  }

  /** `[...a]` is `ArrayUnion(a)`; `[1, ...a, 2, 3]` keeps `[1]` and `[2, 3]`. */
  lemma GroupExamples(a: Expr, x: Expr, y: Expr)
    ensures Group([Spread(a)]) == [a]
    ensures Group([Item(x), Spread(a), Item(y), Hole]) == [ArrayLit([Item(x)]), a, ArrayLit([Item(y), Hole])]
  {
    assert [Spread(a)][1..] == [];
    assert GroupFrom([Spread(a)], []) == [] + [a] + GroupFrom([], []);
    var e := [Item(x), Spread(a), Item(y), Hole];
    assert e[1..] == [Spread(a), Item(y), Hole] && e[1..][1..] == [Item(y), Hole] && e[1..][1..][1..] == [Hole];
    assert [Hole][1..] == [];
    assert [Item(y)] + [Hole] == [Item(y), Hole];
    assert [] + [Item(y)] == [Item(y)];
    assert [] + [Item(x)] == [Item(x)];
    assert GroupFrom([Hole], [Item(y)]) == GroupFrom([], [Item(y), Hole]);
    assert GroupFrom([Item(y), Hole], []) == GroupFrom([Hole], [Item(y)]);
    assert GroupFrom(e[1..], [Item(x)]) == [ArrayLit([Item(x)])] + [a] + GroupFrom([Item(y), Hole], []);
    assert GroupFrom(e, []) == GroupFrom(e[1..], [Item(x)]);
  }
}
