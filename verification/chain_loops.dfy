/** What the loops that the functional-chain lowering emits compute. Each
    method follows the control flow of one generated `for` statement: the
    loop index, the callback's step result for `base[i]` (here a function of
    the element and its index), the accumulator or output array, and the
    early `break`. Truthiness of a step result is the boolean `p` returns.
    Each method is proved equal to an independent definition: sequence
    map, filter, concatenation of the per-element arrays, a quantifier,
    a first/last search, a left or right fold. */
module ChainLoops {
  import opened Base
  import AP = ArrayPolyfill

  /** `map`: appends each step result to the temporary, index by index. */
  method MapLoop<T, U>(a: seq<T>, f: (T, nat) -> U) returns (r: seq<U>)
    ensures |r| == |a|
    ensures forall i :: 0 <= i < |a| ==> r[i] == f(a[i], i)
  {
    r := [];
    var i := 0;
    while i < |a|
      invariant 0 <= i <= |a|
      invariant |r| == i
      invariant forall k :: 0 <= k < i ==> r[k] == f(a[k], k)
    {
      var result := f(a[i], i);
      r := r + [result];
      i := i + 1;
    }
  }

  /** The elements whose step result is truthy, in order. */
  function Filtered<T>(a: seq<T>, p: (T, nat) -> bool): seq<T>
  {
    if |a| == 0 then []
    else Filtered(a[..|a| - 1], p) + (if p(a[|a| - 1], |a| - 1) then [a[|a| - 1]] else [])
  }

  /** `filter`: appends an element to the temporary when its step result
      is truthy. */
  method FilterLoop<T>(a: seq<T>, p: (T, nat) -> bool) returns (r: seq<T>)
    ensures r == Filtered(a, p)
  {
    r := [];
    var i := 0;
    while i < |a|
      invariant 0 <= i <= |a|
      invariant r == Filtered(a[..i], p)
    {
      assert a[..i + 1][..i] == a[..i];
      if p(a[i], i) {
        r := r + [a[i]];
      }
      i := i + 1;
    }
    assert a[..|a|] == a;
  }

  /** What `Filtered` keeps: exactly the elements with a truthy result,
      at most all of them. */
  lemma {:induction false} FilteredMeaning<T>(a: seq<T>, p: (T, nat) -> bool)
    ensures |Filtered(a, p)| <= |a|
    ensures forall x :: x in Filtered(a, p) ==> exists i :: 0 <= i < |a| && a[i] == x && p(a[i], i)
    ensures forall i :: 0 <= i < |a| && p(a[i], i) ==> a[i] in Filtered(a, p)
  {
    if |a| > 0 {
      var b := a[..|a| - 1];
      FilteredMeaning(b, p);
      forall x | x in Filtered(a, p) ensures exists i :: 0 <= i < |a| && a[i] == x && p(a[i], i) {
        if x in Filtered(b, p) {
          var i :| 0 <= i < |b| && b[i] == x && p(b[i], i);
          assert a[i] == x;
        } else {
          assert a[|a| - 1] == x && p(a[|a| - 1], |a| - 1);
        }
      }
      forall i | 0 <= i < |a| && p(a[i], i) ensures a[i] in Filtered(a, p) {
        if i < |a| - 1 {
          assert b[i] == a[i];
        }
      }
    }
  }

  /** `flatMap`: for each index the inner `j` loop pushes every element of
      the step result, in order. */
  method FlatMapLoop<T, U>(a: seq<T>, f: (T, nat) -> seq<U>) returns (r: seq<U>)
    ensures r == Flatten(seq(|a|, i requires 0 <= i < |a| => f(a[i], i)))
  {
    ghost var parts := seq(|a|, i requires 0 <= i < |a| => f(a[i], i));
    r := [];
    var i := 0;
    while i < |a|
      invariant 0 <= i <= |a|
      invariant r == Flatten(parts[..i])
    {
      var result := f(a[i], i);
      ghost var before := r;
      var j := 0;
      while j < |result|
        invariant 0 <= j <= |result|
        invariant r == before + result[..j]
      {
        r := r + [result[j]];
        j := j + 1;
      }
      assert result[..j] == result;
      assert parts[..i + 1][..i] == parts[..i];
      i := i + 1;
    }
    assert parts[..|a|] == parts;
  }

  /** `every`: the accumulator starts true; the first falsy result sets it
      to false and breaks. `evaluated` counts the callback runs. */
  method EveryLoop<T>(a: seq<T>, p: (T, nat) -> bool) returns (r: bool, evaluated: nat)
    ensures r <==> forall i :: 0 <= i < |a| ==> p(a[i], i)
    ensures r ==> evaluated == |a|
    ensures !r ==> 0 < evaluated <= |a| && !p(a[evaluated - 1], evaluated - 1)
                   && forall i :: 0 <= i < evaluated - 1 ==> p(a[i], i)
  {
    r := true;
    evaluated := 0;
    var i := 0;
    while i < |a|
      invariant 0 <= i <= |a|
      invariant r && evaluated == i
      invariant forall k :: 0 <= k < i ==> p(a[k], k)
    {
      var result := p(a[i], i);
      evaluated := evaluated + 1;
      if !result {
        r := false;
        break;
      }
      i := i + 1;
    }
  }

  /** `some`: the accumulator starts false; the first truthy result sets
      it to true and breaks. */
  method SomeLoop<T>(a: seq<T>, p: (T, nat) -> bool) returns (r: bool, evaluated: nat)
    ensures r <==> exists i :: 0 <= i < |a| && p(a[i], i)
    ensures !r ==> evaluated == |a|
    ensures r ==> 0 < evaluated <= |a| && p(a[evaluated - 1], evaluated - 1)
                  && forall i :: 0 <= i < evaluated - 1 ==> !p(a[i], i)
  {
    r := false;
    evaluated := 0;
    var i := 0;
    while i < |a|
      invariant 0 <= i <= |a|
      invariant !r && evaluated == i
      invariant forall k :: 0 <= k < i ==> !p(a[k], k)
    {
      var result := p(a[i], i);
      evaluated := evaluated + 1;
      if result {
        r := true;
        break;
      }
      i := i + 1;
    }
  }

  /** `findIndex`: -1, then the first index whose result is truthy. */
  method FindIndexLoop<T>(a: seq<T>, p: (T, nat) -> bool) returns (r: int)
    ensures -1 <= r < |a|
    ensures r == -1 <==> forall i :: 0 <= i < |a| ==> !p(a[i], i)
    ensures r >= 0 ==> p(a[r], r) && forall i :: 0 <= i < r ==> !p(a[i], i)
  {
    r := -1;
    var i := 0;
    while i < |a|
      invariant 0 <= i <= |a|
      invariant r == -1
      invariant forall k :: 0 <= k < i ==> !p(a[k], k)
    {
      if p(a[i], i) {
        r := i;
        break;
      }
      i := i + 1;
    }
  }

  /** `findLastIndex`: the loop runs from `length - 1` down to 0. */
  method FindLastIndexLoop<T>(a: seq<T>, p: (T, nat) -> bool) returns (r: int)
    ensures -1 <= r < |a|
    ensures r == -1 <==> forall i :: 0 <= i < |a| ==> !p(a[i], i)
    ensures r >= 0 ==> p(a[r], r) && forall i :: r < i < |a| ==> !p(a[i], i)
  {
    r := -1;
    var i := |a| - 1;
    while i >= 0
      invariant -1 <= i < |a|
      invariant r == -1
      invariant forall k :: i < k < |a| ==> !p(a[k], k)
    {
      if p(a[i], i) {
        r := i;
        break;
      }
      i := i - 1;
    }
  }

  /** `find`: `undefined`, then `base[i]` for the first truthy result. */
  method FindLoop<T>(a: seq<T>, p: (T, nat) -> bool) returns (r: Option<T>)
    ensures r == None <==> forall i :: 0 <= i < |a| ==> !p(a[i], i)
    ensures r.Some? ==> exists i :: 0 <= i < |a| && a[i] == r.value && p(a[i], i)
                                  && forall k :: 0 <= k < i ==> !p(a[k], k)
  {
    r := None;
    var i := 0;
    while i < |a|
      invariant 0 <= i <= |a|
      invariant r == None
      invariant forall k :: 0 <= k < i ==> !p(a[k], k)
    {
      if p(a[i], i) {
        r := Some(a[i]);
        break;
      }
      i := i + 1;
    }
  }

  /** `findLast`: `base[i]` for the last index with a truthy result. */
  method FindLastLoop<T>(a: seq<T>, p: (T, nat) -> bool) returns (r: Option<T>)
    ensures r == None <==> forall i :: 0 <= i < |a| ==> !p(a[i], i)
    ensures r.Some? ==> exists i :: 0 <= i < |a| && a[i] == r.value && p(a[i], i)
                                  && forall k :: i < k < |a| ==> !p(a[k], k)
  {
    r := None;
    var i := |a| - 1;
    while i >= 0
      invariant -1 <= i < |a|
      invariant r == None
      invariant forall k :: i < k < |a| ==> !p(a[k], k)
    {
      if p(a[i], i) {
        r := Some(a[i]);
        break;
      }
      i := i - 1;
    }
  }

  /** Left fold with the element index: `reduce`'s meaning. */
  function FoldLeft<T, U>(a: seq<T>, f: (U, T, nat) -> U, init: U): U
  {
    if |a| == 0 then init else f(FoldLeft(a[..|a| - 1], f, init), a[|a| - 1], |a| - 1)
  }

  /** Right fold with the element index: the last element is combined
      with `init` first. */
  function FoldRight<T, U>(a: seq<T>, f: (U, T, nat) -> U, init: U): U
  {
    if |a| == 0 then init else FoldRight(a[..|a| - 1], f, f(init, a[|a| - 1], |a| - 1))
  }

  /** `reduce`: the accumulator is seeded with the initial value; every
      iteration binds (acc, cur, index) and stores the step result. */
  method ReduceLoop<T, U>(a: seq<T>, f: (U, T, nat) -> U, init: U) returns (acc: U)
    ensures acc == FoldLeft(a, f, init)
  {
    acc := init;
    var i := 0;
    while i < |a|
      invariant 0 <= i <= |a|
      invariant acc == FoldLeft(a[..i], f, init)
    {
      assert a[..i + 1][..i] == a[..i];
      var result := f(acc, a[i], i);
      acc := result;
      i := i + 1;
    }
    assert a[..|a|] == a;
  }

  /** `reduceRight`: the same loop body, run from `length - 1` down to 0. */
  method ReduceRightLoop<T, U>(a: seq<T>, f: (U, T, nat) -> U, init: U) returns (acc: U)
    ensures acc == FoldRight(a, f, init)
  {
    acc := init;
    var i := |a| - 1;
    assert a[..i + 1] == a;
    while i >= 0
      invariant -1 <= i < |a|
      invariant FoldRight(a, f, init) == FoldRight(a[..i + 1], f, acc)
    {
      assert a[..i + 1][..i] == a[..i];
      var result := f(acc, a[i], i);
      acc := result;
      i := i - 1;
    }
  }

  /** Each element paired with its index. */
  function Indexed<T>(a: seq<T>): (r: seq<(T, nat)>)
    ensures |r| == |a|
    ensures forall i :: 0 <= i < |a| ==> r[i] == (a[i], i)
  {
    seq(|a|, i requires 0 <= i < |a| => (a[i], i))
  }

  /** Left fold over (element, index) pairs in the order given. */
  function FoldPairs<T, U>(ps: seq<(T, nat)>, f: (U, T, nat) -> U, init: U): U
  {
    if |ps| == 0 then init else f(FoldPairs(ps[..|ps| - 1], f, init), ps[|ps| - 1].0, ps[|ps| - 1].1)
  }

  lemma {:induction false} FoldPairsCons<T, U>(p: (T, nat), ps: seq<(T, nat)>, f: (U, T, nat) -> U, init: U)
    ensures FoldPairs([p] + ps, f, init) == FoldPairs(ps, f, f(init, p.0, p.1))
  {
    if |ps| == 0 {
      assert ([p] + ps)[..0] == [];
    } else {
      assert ([p] + ps)[..|[p] + ps| - 1] == [p] + ps[..|ps| - 1];
      FoldPairsCons(p, ps[..|ps| - 1], f, init);
    }
  }

  /** `reduce` visits the pairs in index order. */
  lemma {:induction false} FoldLeftIsFoldPairs<T, U>(a: seq<T>, f: (U, T, nat) -> U, init: U)
    ensures FoldLeft(a, f, init) == FoldPairs(Indexed(a), f, init)
  {
    if |a| > 0 {
      assert Indexed(a)[..|a| - 1] == Indexed(a[..|a| - 1]);
      FoldLeftIsFoldPairs(a[..|a| - 1], f, init);
    }
  }

  /** `reduceRight` visits the same pairs in reverse order: the callback
      still sees each element's own index. */
  lemma {:induction false} FoldRightIsReversedFoldPairs<T, U>(a: seq<T>, f: (U, T, nat) -> U, init: U)
    ensures FoldRight(a, f, init) == FoldPairs(AP.Reversed(Indexed(a)), f, init)
  {
    if |a| > 0 {
      var n := |a|;
      var b := a[..n - 1];
      assert AP.Reversed(Indexed(a)) == [(a[n - 1], n - 1)] + AP.Reversed(Indexed(b));
      FoldRightIsReversedFoldPairs(b, f, f(init, a[n - 1], n - 1));
      FoldPairsCons((a[n - 1], n - 1), AP.Reversed(Indexed(b)), f, init);
    }
  }

  lemma ChainLoopExamples()
    ensures FoldLeft([1, 2, 3, 4], (acc: int, x: int, k: nat) => acc + x, 0) == 10
    ensures FoldRight(["a", "b", "c"], (acc: string, x: string, k: nat) => acc + x, "") == "cba"
    ensures Filtered([1, 2, 3, 4, 5], (x: int, k: nat) => x % 2 == 0) == [2, 4]
  {
    assert [1, 2, 3, 4][..3] == [1, 2, 3];
    assert [1, 2, 3][..2] == [1, 2];
    assert [1, 2][..1] == [1];
    assert ["a", "b", "c"][..2] == ["a", "b"];
    assert ["a", "b"][..1] == ["a"];
    assert [1, 2, 3, 4, 5][..4] == [1, 2, 3, 4];
  }
}
