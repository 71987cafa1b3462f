/** The rest-extraction helpers of destructuring, in both copies: the
    library's `object_rest`/`array_rest` and the resource file's
    `___btp_object_rest`/`___btp_array_rest`. */
module Rest {
  import opened Base
  import opened Objects

  /** The keys of `keys` not listed in `exclude`, in order. */
  function Without(keys: seq<string>, exclude: seq<string>): (r: seq<string>)
    ensures forall i :: 0 <= i < |r| ==> r[i] in keys && r[i] !in exclude
    ensures forall i :: 0 <= i < |keys| && keys[i] !in exclude ==> keys[i] in r
  {
    if |keys| == 0 then []
    else Without(keys[..|keys| - 1], exclude) + (if keys[|keys| - 1] in exclude then [] else [keys[|keys| - 1]])
  }

  /** `object_rest(obj, exclude)`: walks the keys of `obj` in order and
      copies every one that `exclude.indexOf(key)` does not find. */
  method ObjectRest<V>(obj: Obj<V>, exclude: seq<string>) returns (r: Obj<V>)
    requires Valid(obj)
    ensures Valid(r)
    ensures r.keys == Without(obj.keys, exclude)
    ensures forall k :: k in r.props <==> k in obj.props && k !in exclude
    ensures forall k :: k in r.props ==> r.props[k] == obj.props[k]
  {
    r := Empty();
    var i := 0;
    while i < |obj.keys|
      invariant 0 <= i <= |obj.keys|
      invariant Valid(r)
      invariant r.keys == Without(obj.keys[..i], exclude)
      invariant forall k :: k in r.props <==> k in obj.keys[..i] && k !in exclude
      invariant forall k :: k in r.props ==> k in obj.props && r.props[k] == obj.props[k]
    {
      var key := obj.keys[i];
      assert obj.keys[..i + 1] == obj.keys[..i] + [key];
      if key !in exclude {
        r := Set(r, key, obj.props[key]);
      }
      i := i + 1;
    }
    assert obj.keys[..i] == obj.keys;
  }

  /** `array_rest(arr, start)`: pushes `arr[i]` for `start <= i < length`. */
  method ArrayRest<T>(arr: seq<T>, start: nat) returns (r: seq<T>)
    ensures start <= |arr| ==> r == arr[start..]
    ensures start >= |arr| ==> r == []
    ensures |r| == Max(0, |arr| - start)
  {
    r := [];
    var i := start;
    while i < |arr|
      invariant start <= i
      invariant start <= |arr| ==> i <= |arr| && r == arr[start..i]
      invariant start > |arr| ==> i == start && r == []
    {
      r := r + [arr[i]];
      i := i + 1;
    }
  }

  /** `{a:1, b:2, c:3}` without `a` and `b` keeps only `c`, as the
      destructuring test expects. */
  lemma {:induction false} WithoutExample()
    ensures Without(["a", "b", "c"], ["a", "b"]) == ["c"]
  {
    assert ["a", "b", "c"][..2] == ["a", "b"];
    assert ["a", "b"][..1] == ["a"];
    assert ["a"][..0] == [];
  }
}
